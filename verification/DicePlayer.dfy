/**
 * The dice player: unlocking, bursts, muting and the browser's own events. Over every run nothing
 * sounds while muted or before there is a context, and what sounds belongs to the latest burst alone.
 */
module DicePlayer {
  import opened Rattle

  datatype Kind = RattleBurst | TumbleBurst

  const TUMBLE_TICKS: seq<Tick> := [
    Tick(0, 320, 0.55, 90), Tick(14, 1500, 0.5, 34), Tick(33, 2600, 0.45, 28), Tick(72, 2100, 0.4, 26),
    Tick(128, 3000, 0.34, 24), Tick(205, 2300, 0.27, 22), Tick(310, 2800, 0.2, 20), Tick(448, 2500, 0.14, 18),
    Tick(620, 3200, 0.09, 16)
  ]

  function LoopTicks(): (ticks: seq<Tick>)
    ensures |ticks| == 84
  {
    seq(84, i requires 0 <= i < 84 => TickAt(i))
  }

  /** A source node started for one tick of one burst. It sounds until it runs out or is stopped. */
  datatype Source = Source(burst: nat, kind: Kind, tick: Tick, over: bool)

  datatype Context = NoContext | Suspended | Running

  /** The closure's variables, with every source the audio graph was ever given. */
  datatype State = State(muted: bool, context: Context, voices: seq<nat>, sources: seq<Source>, bursts: nat, latest: Kind)

  /**
   * `Unlock` says whether a context can be constructed. The last three are the browser's: a context
   * changing state, a source reaching its stop time, and its `ended` callback - which may come late.
   */
  datatype Event =
    | Unlock(available: bool)
    | RattleCall
    | TumbleCall
    | StopCall
    | SetMuted(muted: bool)
    | ContextChanges(running: bool)
    | RunsOut(source: nat)
    | Ended(source: nat)

  function Start(muted: bool): State { State(muted, NoContext, [], [], 0, RattleBurst) }

  predicate CanSound(s: State) { !s.muted && s.context.Running? }

  function Stopped(sources: seq<Source>, ids: seq<nat>): (r: seq<Source>)
    ensures |r| == |sources|
    ensures forall i | 0 <= i < |r| :: r[i] == if i in ids then sources[i].(over := true) else sources[i]
  {
    seq(|sources|, i requires 0 <= i < |sources| => if i in ids then sources[i].(over := true) else sources[i])
  }

  function Silenced(s: State): State { s.(sources := Stopped(s.sources, s.voices), voices := []) }

  function Without(voices: seq<nat>, id: nat): (r: seq<nat>)
    ensures forall v :: v in r <==> v in voices && v != id
  {
    if voices == [] then [] else (if voices[0] != id then [voices[0]] else []) + Without(voices[1..], id)
  }

  function NewSources(burst: nat, kind: Kind, ticks: seq<Tick>): (r: seq<Source>)
    ensures |r| == |ticks|
    ensures forall i | 0 <= i < |r| :: r[i] == Source(burst, kind, ticks[i], false)
  {
    seq(|ticks|, i requires 0 <= i < |ticks| => Source(burst, kind, ticks[i], false))
  }

  function Identifiers(start: nat, n: nat): (r: seq<nat>)
    ensures |r| == n
    ensures forall v :: v in r <==> start <= v < start + n
  {
    if n == 0 then [] else Identifiers(start, n - 1) + [start + n - 1]
  }

  /** A burst: whatever sounded is cut first. */
  function Played(s: State, kind: Kind, ticks: seq<Tick>): State {
    var q := Silenced(s);
    if s.context.NoContext? then q
    else
      var fresh_ := NewSources(s.bursts + 1, kind, ticks);
      q.(sources := q.sources + fresh_, voices := Identifiers(|q.sources|, |ticks|), bursts := s.bursts + 1, latest := kind)
  }

  function Step(s: State, e: Event): State {
    match e
    case Unlock(available) =>
      // `resume()` only asks; the browser answers with ContextChanges.
      if !s.muted && s.context.NoContext? && available then s.(context := Suspended) else s
    case RattleCall => if CanSound(s) then Played(s, RattleBurst, LoopTicks()) else s
    case TumbleCall => if CanSound(s) then Played(s, TumbleBurst, TUMBLE_TICKS) else s
    case StopCall => Silenced(s)
    case SetMuted(muted) => if muted then Silenced(s.(muted := true)) else s.(muted := false)
    case ContextChanges(running) =>
      if s.context.NoContext? then s else s.(context := if running then Running else Suspended)
    case RunsOut(id) => if id < |s.sources| then s.(sources := s.sources[id := s.sources[id].(over := true)]) else s
    case Ended(id) =>
      if id < |s.sources| then
        s.(sources := s.sources[id := s.sources[id].(over := true)], voices := Without(s.voices, id))
      else s
  }

  function Run(muted: bool, events: seq<Event>): State {
    if events == [] then Start(muted) else Step(Run(muted, events[..|events| - 1]), events[|events| - 1])
  }

  predicate Sounding(s: State, id: nat) { id < |s.sources| && !s.sources[id].over }

  /** The safety property. */
  ghost predicate Quiet(s: State) {
    forall id: nat | Sounding(s, id) ::
      && !s.muted
      && !s.context.NoContext?
      && s.sources[id].burst == s.bursts
      && s.sources[id].kind == s.latest
  }

  /** What keeps it: everything that sounds can still be reached through `voices`. */
  ghost predicate Inv(s: State) {
    && Quiet(s)
    && (forall id: nat | Sounding(s, id) :: id in s.voices)
    && (forall v | v in s.voices :: v < |s.sources| && s.sources[v].burst == s.bursts && s.sources[v].kind == s.latest)
    && (s.voices != [] ==> !s.muted && !s.context.NoContext?)
  }

  lemma SilencedIsSilent(s: State)
    requires Inv(s)
    ensures forall id: nat :: !Sounding(Silenced(s), id)
  {
    assert forall id: nat | id < |s.sources| && id !in s.voices :: !Sounding(s, id);
  }

  lemma PlayedKeepsInv(s: State, kind: Kind, ticks: seq<Tick>)
    requires Inv(s) && CanSound(s)
    ensures Inv(Played(s, kind, ticks))
    ensures forall id: nat :: Sounding(Played(s, kind, ticks), id) <==> |s.sources| <= id < |s.sources| + |ticks|
  {
    SilencedIsSilent(s);
    var q, p := Silenced(s), Played(s, kind, ticks);
    assert forall id: nat | id < |q.sources| :: p.sources[id] == q.sources[id] && !Sounding(q, id);
    assert forall id: nat | |q.sources| <= id < |p.sources| ::
        p.sources[id] == NewSources(s.bursts + 1, kind, ticks)[id - |q.sources|];
  }

  lemma StepKeepsInv(s: State, e: Event)
    requires Inv(s)
    ensures Inv(Step(s, e))
  {
    match e
    case RattleCall => if CanSound(s) { PlayedKeepsInv(s, RattleBurst, LoopTicks()); }
    case TumbleCall => if CanSound(s) { PlayedKeepsInv(s, TumbleBurst, TUMBLE_TICKS); }
    case StopCall => SilencedIsSilent(s);
    case SetMuted(muted) => if muted { SilencedIsSilent(s); MutedIsSilent(s); }
    case _ =>
  }

  lemma MutedIsSilent(s: State)
    requires Inv(s)
    ensures Silenced(s.(muted := true)) == Silenced(s).(muted := true)
  {
  }

  lemma {:induction false} RunKeepsInv(muted: bool, events: seq<Event>)
    ensures Inv(Run(muted, events))
  {
    if events != [] {
      RunKeepsInv(muted, events[..|events| - 1]);
      StepKeepsInv(Run(muted, events[..|events| - 1]), events[|events| - 1]);
    }
  }

  /** In every run: silence while muted and before a context, and what sounds is of the latest burst, so never two at once. */
  lemma NothingOverlaps(muted: bool, events: seq<Event>)
    ensures var s := Run(muted, events);
            && ((s.muted || s.context.NoContext?) ==> forall id: nat :: !Sounding(s, id))
            && (forall i: nat | Sounding(s, i) :: s.sources[i].burst == s.bursts && s.sources[i].kind == s.latest)
            && (forall i: nat, j: nat | Sounding(s, i) && Sounding(s, j) ::
                  s.sources[i].burst == s.sources[j].burst && s.sources[i].kind == s.sources[j].kind)
  {
    RunKeepsInv(muted, events);
  }

  /** The pour thins out: its gaps grow and its gains fall. */
  lemma PourThinsOut(i: nat)
    requires i + 1 < |TUMBLE_TICKS|
    ensures TUMBLE_TICKS[i].atMs < TUMBLE_TICKS[i + 1].atMs && TUMBLE_TICKS[i].gain > TUMBLE_TICKS[i + 1].gain
    ensures i > 0 ==> TUMBLE_TICKS[i].atMs - TUMBLE_TICKS[i - 1].atMs < TUMBLE_TICKS[i + 1].atMs - TUMBLE_TICKS[i].atMs
  {
  }

  /** A pour in a run that can sound leaves exactly its own nine strikes sounding, whatever was going on. */
  lemma APourReplacesEverything(muted: bool, events: seq<Event>)
    requires CanSound(Run(muted, events))
    ensures var before, after := Run(muted, events), Run(muted, events + [TumbleCall]);
            && (forall id: nat :: Sounding(after, id) <==> |before.sources| <= id < |before.sources| + 9)
            && |after.sources| == |before.sources| + 9
            && forall i | 0 <= i < 9 :: after.sources[|before.sources| + i].tick == TUMBLE_TICKS[i]
  {
    var all := events + [TumbleCall];
    assert all[..|all| - 1] == events;
    RunKeepsInv(muted, events);
    PlayedKeepsInv(Run(muted, events), TumbleBurst, TUMBLE_TICKS);
  }

  /** A rattle likewise: exactly its own 84 ticks, one period of the stream. */
  lemma ARattleReplacesEverything(muted: bool, events: seq<Event>)
    requires CanSound(Run(muted, events))
    ensures var before, after := Run(muted, events), Run(muted, events + [RattleCall]);
            && (forall id: nat :: Sounding(after, id) <==> |before.sources| <= id < |before.sources| + 84)
            && |after.sources| == |before.sources| + 84
            && forall i | 0 <= i < 84 :: after.sources[|before.sources| + i].tick == TickAt(i)
  {
    RunOneMore(muted, events, RattleCall);
    RunKeepsInv(muted, events);
    PlayedKeepsInv(Run(muted, events), RattleBurst, LoopTicks());
  }

  lemma RunOneMore(muted: bool, events: seq<Event>, e: Event)
    ensures Run(muted, events + [e]) == Step(Run(muted, events), e)
  {
    assert (events + [e])[..|events + [e]| - 1] == events;
  }

  // ----- what sounds, told from the calls alone ----------------------------------------

  /** What the last `SetMuted` said. */
  predicate MutedLast(muted: bool, events: seq<Event>) {
    if events == [] then muted
    else if events[|events| - 1].SetMuted? then events[|events| - 1].muted
    else MutedLast(muted, events[..|events| - 1])
  }

  /** Some call that was not muted could make a context. */
  predicate UnlockedOnce(muted: bool, events: seq<Event>) {
    exists k | 0 <= k < |events| :: events[k] == Event.Unlock(true) && !MutedLast(muted, events[..k])
  }

  /** What the browser last said of that context. */
  predicate RunningLast(muted: bool, events: seq<Event>) {
    if events == [] then false
    else
      var init, e := events[..|events| - 1], events[|events| - 1];
      if e.ContextChanges? && UnlockedOnce(muted, init) then e.running else RunningLast(muted, init)
  }

  lemma UnlockedInLonger(muted: bool, events: seq<Event>, e: Event)
    ensures UnlockedOnce(muted, events + [e])
       <==> UnlockedOnce(muted, events) || (e == Event.Unlock(true) && !MutedLast(muted, events))
  {
    var all := events + [e];
    assert all[..|events|] == events && all[|events|] == e;
    assert forall k | 0 <= k < |events| :: all[..k] == events[..k] && all[k] == events[k];
  }

  lemma {:induction false} ControlsFollowTheirHistory(muted: bool, events: seq<Event>)
    ensures var s := Run(muted, events);
            && (s.muted <==> MutedLast(muted, events))
            && (!s.context.NoContext? <==> UnlockedOnce(muted, events))
            && (s.context.Running? <==> RunningLast(muted, events))
  {
    if events != [] {
      var init, e := events[..|events| - 1], events[|events| - 1];
      assert events == init + [e];
      ControlsFollowTheirHistory(muted, init);
      UnlockedInLonger(muted, init, e);
    }
  }

  /** At step `k` a call that was heard - not muted, the context running - started its burst. */
  predicate BurstAt(muted: bool, events: seq<Event>, k: nat) {
    && k < |events| && (events[k].RattleCall? || events[k].TumbleCall?)
    && !MutedLast(muted, events[..k]) && RunningLast(muted, events[..k])
  }

  /** And this source was one of its ticks. */
  predicate StartedAt(muted: bool, events: seq<Event>, k: nat, id: nat, tick: Tick) {
    && BurstAt(muted, events, k)
    && var first := |Run(muted, events[..k]).sources|;
       if events[k].RattleCall? then first <= id < first + 84 && tick == TickAt(id - first)
       else first <= id < first + 9 && tick == TUMBLE_TICKS[id - first]
  }

  /** What ends a sound: a stop, a mute, the next burst, the source's own end. */
  predicate CutAt(muted: bool, events: seq<Event>, j: nat, id: nat) {
    && j < |events|
    && (events[j].StopCall? || events[j] == Event.SetMuted(true) || BurstAt(muted, events, j)
        || events[j] == RunsOut(id) || events[j] == Ended(id))
  }

  ghost predicate UncutSince(muted: bool, events: seq<Event>, k: nat, id: nat) {
    forall j: nat | k < j < |events| :: !CutAt(muted, events, j, id)
  }

  ghost predicate SoundsByHistory(muted: bool, events: seq<Event>, id: nat, tick: Tick) {
    exists k: nat :: StartedAt(muted, events, k, id, tick) && UncutSince(muted, events, k, id)
  }

  /** One step, on a source: it goes on sounding unless cut, or is one of a burst's new ones. */
  lemma StepOnSource(s: State, e: Event, id: nat, tick: Tick)
    requires Inv(s)
    ensures var s', burst := Step(s, e), CanSound(s) && (e.RattleCall? || e.TumbleCall?);
            var cut := e.StopCall? || e == Event.SetMuted(true) || burst || e == RunsOut(id) || e == Ended(id);
            var fresh_ := burst && |s.sources| <= id
                          && (if e.RattleCall? then id < |s.sources| + 84 && tick == TickAt(id - |s.sources|)
                              else id < |s.sources| + 9 && tick == TUMBLE_TICKS[id - |s.sources|]);
            (Sounding(s', id) && s'.sources[id].tick == tick)
            <==> (Sounding(s, id) && s.sources[id].tick == tick && !cut) || fresh_
  {
    if e.RattleCall? && CanSound(s) { PlayedTicks(s, RattleBurst, LoopTicks(), id); }
    if e.TumbleCall? && CanSound(s) { PlayedTicks(s, TumbleBurst, TUMBLE_TICKS, id); }
    if e.StopCall? { SilencedIsSilent(s); }
    if e == Event.SetMuted(true) { SilencedIsSilent(s); MutedIsSilent(s); }
  }

  lemma PlayedTicks(s: State, kind: Kind, ticks: seq<Tick>, id: nat)
    requires Inv(s) && CanSound(s)
    ensures var p := Played(s, kind, ticks);
            && (Sounding(p, id) <==> |s.sources| <= id < |s.sources| + |ticks|)
            && (Sounding(p, id) ==> p.sources[id].tick == ticks[id - |s.sources|])
  {
    PlayedKeepsInv(s, kind, ticks);
    if |s.sources| <= id < |s.sources| + |ticks| { PlayedSource(s, kind, ticks, id - |s.sources|); }
  }

  lemma PlayedSource(s: State, kind: Kind, ticks: seq<Tick>, i: nat)
    requires !s.context.NoContext? && i < |ticks|
    ensures |Played(s, kind, ticks).sources| == |s.sources| + |ticks|
    ensures Played(s, kind, ticks).sources[|s.sources| + i].tick == ticks[i]
  {
    var old_, fresh_ := Silenced(s).sources, NewSources(s.bursts + 1, kind, ticks);
    assert (old_ + fresh_)[|old_| + i] == fresh_[i];
  }

  lemma CutInLonger(muted: bool, init: seq<Event>, e: Event, j: nat, id: nat)
    ensures j < |init| ==> (CutAt(muted, init + [e], j, id) <==> CutAt(muted, init, j, id))
    ensures j < |init| ==> forall tick :: StartedAt(muted, init + [e], j, id, tick) <==> StartedAt(muted, init, j, id, tick)
  {
    assert j <= |init| ==> (init + [e])[..j] == init[..j];
  }

  lemma UncutInLonger(muted: bool, init: seq<Event>, e: Event, k: nat, id: nat)
    requires k < |init|
    ensures UncutSince(muted, init + [e], k, id) <==> UncutSince(muted, init, k, id) && !CutAt(muted, init + [e], |init|, id)
  {
    forall j: nat ensures j < |init| ==> (CutAt(muted, init + [e], j, id) <==> CutAt(muted, init, j, id)) {
      CutInLonger(muted, init, e, j, id);
    }
  }

  lemma SoundsInLonger(muted: bool, init: seq<Event>, e: Event, id: nat, tick: Tick)
    ensures var all := init + [e];
            SoundsByHistory(muted, all, id, tick)
            <==> || (SoundsByHistory(muted, init, id, tick) && !CutAt(muted, all, |init|, id))
                 || StartedAt(muted, all, |init|, id, tick)
  {
    var all := init + [e];
    forall k: nat | k < |init|
      ensures StartedAt(muted, all, k, id, tick) <==> StartedAt(muted, init, k, id, tick)
      ensures UncutSince(muted, all, k, id) <==> UncutSince(muted, init, k, id) && !CutAt(muted, all, |init|, id)
    {
      CutInLonger(muted, init, e, k, id);
      UncutInLonger(muted, init, e, k, id);
    }
    if StartedAt(muted, all, |init|, id, tick) { assert UncutSince(muted, all, |init|, id); }
  }

  /**
   * Over any run a source sounds, with this tick, exactly when a burst that was heard started it as that
   * tick and nothing since has cut it - no stop, no mute, no later burst that was heard, and not its own
   * end. So a stop and a mute leave silence, and a burst leaves only itself.
   */
  lemma {:induction false} SoundsIff(muted: bool, events: seq<Event>, id: nat, tick: Tick)
    ensures var s := Run(muted, events);
            (Sounding(s, id) && s.sources[id].tick == tick) <==> SoundsByHistory(muted, events, id, tick)
  {
    if events != [] {
      var init, e := events[..|events| - 1], events[|events| - 1];
      assert events == init + [e] && events[..|init|] == init;
      SoundsIff(muted, init, id, tick);
      RunKeepsInv(muted, init);
      ControlsFollowTheirHistory(muted, init);
      StepOnSource(Run(muted, init), e, id, tick);
      SoundsInLonger(muted, init, e, id, tick);
    }
  }

  /** In particular a stop and a mute leave silence behind. */
  lemma StopAndMuteLeaveSilence(muted: bool, events: seq<Event>, e: Event, id: nat)
    requires e.StopCall? || e == Event.SetMuted(true)
    ensures !Sounding(Run(muted, events + [e]), id)
  {
    var all := events + [e];
    assert all[|events|] == e;
    if Sounding(Run(muted, all), id) {
      SoundsIff(muted, all, id, Run(muted, all).sources[id].tick);
      assert CutAt(muted, all, |events|, id);
    }
  }

  /**
   * The closure. The audio graph's sources, and which burst each belongs to, are only spoken about:
   * the program itself keeps identifiers.
   */
  class DiceSound {
    const available: bool
    var muted: bool
    var context: Context
    var voices: seq<nat>
    var started: nat
    ghost var sources: seq<Source>
    ghost var bursts: nat
    ghost var latest: Kind

    ghost function Contents(): State reads this { State(muted, context, voices, sources, bursts, latest) }

    ghost predicate Valid() reads this { Inv(Contents()) && started == |sources| }

    constructor (available: bool, initiallyMuted: bool)
      ensures Valid() && Contents() == Start(initiallyMuted) && this.available == available
    {
      this.available := available;
      muted, context, voices, started := initiallyMuted, NoContext, [], 0;
      sources, bursts, latest := [], 0, RattleBurst;
    }

    method Silence()
      requires Valid()
      modifies this`voices, this`sources
      ensures Contents() == Silenced(old(Contents())) && |sources| == |old(sources)|
    {
      for i := 0 to |voices|
        invariant voices == old(voices) && sources == Stopped(old(sources), voices[..i])
      {
        StopOne(old(sources), voices, i);
        sources := sources[voices[i] := sources[voices[i]].(over := true)];
      }
      assert voices[..|voices|] == voices;
      voices := [];
    }

    method Play(ticks: seq<Tick>, ghost kind: Kind)
      requires Valid()
      modifies this`voices, this`started, this`sources, this`bursts, this`latest
      ensures Contents() == Played(old(Contents()), kind, ticks) && started == |sources|
    {
      Silence();
      ghost var q := Contents();
      assert q == Silenced(old(Contents()));
      if context.NoContext? { return; }
      bursts, latest := bursts + 1, kind;
      StartSources(ticks, bursts, kind);
    }

    method StartSources(ticks: seq<Tick>, ghost burst: nat, ghost kind: Kind)
      requires voices == [] && started == |sources|
      modifies this`voices, this`started, this`sources
      ensures sources == old(sources) + NewSources(burst, kind, ticks)
      ensures voices == Identifiers(|old(sources)|, |ticks|) && started == |sources|
    {
      ghost var fresh_ := NewSources(burst, kind, ticks);
      for i := 0 to |ticks|
        invariant started == |sources| && sources == old(sources) + fresh_[..i]
        invariant voices == Identifiers(|old(sources)|, i)
      {
        assert fresh_[..i + 1] == fresh_[..i] + [fresh_[i]];
        sources := sources + [Source(burst, kind, ticks[i], false)];
        voices, started := voices + [started], started + 1;
      }
      assert fresh_[..|ticks|] == fresh_;
    }

    method Unlock()
      requires Valid()
      modifies this`context
      ensures Valid() && Contents() == Step(old(Contents()), Event.Unlock(available))
    {
      StepKeepsInv(Contents(), Event.Unlock(available));
      if muted { return; }
      if context.NoContext? && available { context := Suspended; }
    }

    method Rattle()
      requires Valid()
      modifies this`voices, this`started, this`sources, this`bursts, this`latest
      ensures Valid() && Contents() == Step(old(Contents()), RattleCall)
    {
      StepKeepsInv(Contents(), RattleCall);
      if muted || !context.Running? { return; }
      var ticks := RattleTicks();
      assert ticks == LoopTicks();
      Play(ticks, RattleBurst);
    }

    method Tumble()
      requires Valid()
      modifies this`voices, this`started, this`sources, this`bursts, this`latest
      ensures Valid() && Contents() == Step(old(Contents()), TumbleCall)
    {
      StepKeepsInv(Contents(), TumbleCall);
      if muted || !context.Running? { return; }
      Play(TUMBLE_TICKS, TumbleBurst);
    }

    method Stop()
      requires Valid()
      modifies this`voices, this`sources
      ensures Valid() && Contents() == Step(old(Contents()), StopCall)
    {
      StepKeepsInv(Contents(), StopCall);
      Silence();
    }

    method SetMuted(next: bool)
      requires Valid()
      modifies this`muted, this`voices, this`sources
      ensures Valid() && Contents() == Step(old(Contents()), Event.SetMuted(next))
    {
      StepKeepsInv(Contents(), Event.SetMuted(next));
      if next { Silence(); }
      muted := next;
    }

    /** The `ended` callback filters its own source out of the list. */
    method OnEnded(source: nat)
      requires Valid() && source < started
      modifies this`voices, this`sources
      ensures Valid() && Contents() == Step(old(Contents()), Ended(source))
    {
      StepKeepsInv(Contents(), Ended(source));
      sources := sources[source := sources[source].(over := true)];
      voices := Without(voices, source);
    }
  }

  lemma StopOne(sources: seq<Source>, voices: seq<nat>, i: nat)
    requires i < |voices| && voices[i] < |sources|
    ensures var cut := Stopped(sources, voices[..i]);
            Stopped(sources, voices[..i + 1]) == cut[voices[i] := cut[voices[i]].(over := true)]
  {
    assert voices[..i + 1] == voices[..i] + [voices[i]];
    assert forall v :: v in voices[..i + 1] <==> v in voices[..i] || v == voices[i];
  }
}
