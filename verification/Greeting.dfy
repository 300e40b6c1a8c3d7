/**
 * The lobby's hand of cards across rebuilds. Every render destroys the cards and their animations;
 * publishing how long ago the greeting began makes the rebuilt ones look as if nothing had happened.
 */
module Greeting {
  import opened Optional

  const DEAL_DURATION_MS := 460
  const DEAL_STAGGER_MS := 55

  /** A card's place in the animation: before its start, so many milliseconds in, or lying on the table. */
  datatype Pose = Held | Moving(ms: int) | Dealt

  /** The keyframes at a local time: the first one fills backwards, and after the last the card just lies there. */
  function PoseAt(local: int): Pose {
    if local < 0 then Held else if local < DEAL_DURATION_MS then Moving(local) else Dealt
  }

  /** The fan as rendered: how many cards, at what instant, and the published offset while dealing. */
  datatype Fan = Fan(cards: nat, builtAt: int, elapsed: Option<int>)

  /** What card `i` of this fan shows at `t`: a fresh animation with delay `i * stagger - elapsed`, or none. */
  function Shown(fan: Fan, i: nat, t: int): Pose {
    if fan.elapsed.None? then Dealt
    else PoseAt((t - fan.builtAt) - (i * DEAL_STAGGER_MS - fan.elapsed.value))
  }

  /** One animation, started once and never rebuilt. */
  function Uninterrupted(startedAt: int, i: nat, t: int): Pose {
    PoseAt(t - startedAt - i * DEAL_STAGGER_MS)
  }

  function GreetingMs(cards: nat): int {
    DEAL_STAGGER_MS * (if cards > 0 then cards - 1 else 0) + DEAL_DURATION_MS
  }

  /** A render: when, whether some game has its counts, and the hand the family declares. */
  datatype Render = Render(now: int, playable: bool, cards: nat)

  /** The first render with a hand that could be played with, if there has been one. */
  function FirstArrival(renders: seq<Render>): Option<int> {
    if renders == [] then None
    else if renders[0].playable && renders[0].cards > 0 then Some(renders[0].now)
    else FirstArrival(renders[1..])
  }

  predicate Arrives(r: Render) { r.playable && r.cards > 0 }

  lemma {:induction false} FirstArrivalIff(renders: seq<Render>, t: int)
    ensures FirstArrival(renders) == Some(t)
       <==> exists k | 0 <= k < |renders| ::
              Arrives(renders[k]) && renders[k].now == t && forall j | 0 <= j < k :: !Arrives(renders[j])
    ensures FirstArrival(renders) == None <==> forall k | 0 <= k < |renders| :: !Arrives(renders[k])
  {
    if renders != [] && !Arrives(renders[0]) {
      var rest := renders[1..];
      FirstArrivalIff(rest, t);
      assert forall k | 0 <= k < |rest| :: rest[k] == renders[k + 1];
      if FirstArrival(rest) == Some(t) {
        var k :| 0 <= k < |rest| && Arrives(rest[k]) && rest[k].now == t && forall j | 0 <= j < k :: !Arrives(rest[j]);
        assert Arrives(renders[k + 1]) && forall j | 0 <= j < k + 1 :: !Arrives(renders[j]);
      }
      if k :| 0 <= k < |renders| && Arrives(renders[k]) && renders[k].now == t && forall j | 0 <= j < k :: !Arrives(renders[j]) {
        assert Arrives(rest[k - 1]) && forall j | 0 <= j < k - 1 :: !Arrives(rest[j]);
      }
    }
  }

  /** The fan the last render leaves on screen; a family without art gets none. */
  function OnScreen(renders: seq<Render>): Option<Fan>
    requires renders != []
  {
    var r, startedAt := renders[|renders| - 1], FirstArrival(renders);
    if r.cards == 0 then None
    else
      var elapsed := if startedAt.None? then None else Some(r.now - startedAt.value);
      var dealing := elapsed.Some? && elapsed.value < GreetingMs(r.cards);
      Some(Fan(r.cards, r.now, if dealing then elapsed else None))
  }

  /** Once begun, the greeting has one beginning, whatever is rendered afterwards. */
  lemma {:induction false} ArrivalNeverMoves(renders: seq<Render>, more: seq<Render>)
    requires FirstArrival(renders).Some?
    ensures FirstArrival(renders + more) == FirstArrival(renders)
  {
    if !(renders[0].playable && renders[0].cards > 0) {
      assert (renders + more)[1..] == renders[1..] + more;
      ArrivalNeverMoves(renders[1..], more);
    }
  }

  /**
   * For every schedule of rebuilds and hands of any size: from the last rebuild on, each card is where
   * one animation, started at the first playable render and never rebuilt, has it. Before such a
   * render the hand just lies there.
   */
  lemma RebuildsAreInvisible(renders: seq<Render>, i: nat, t: int)
    requires renders != [] && OnScreen(renders).Some?
    requires i < OnScreen(renders).value.cards && t >= OnScreen(renders).value.builtAt
    ensures Shown(OnScreen(renders).value, i, t)
         == if FirstArrival(renders).Some? then Uninterrupted(FirstArrival(renders).value, i, t) else Dealt
  {
    var fan := OnScreen(renders).value;
    var last: nat := fan.cards - 1;
    assert i * DEAL_STAGGER_MS <= last * DEAL_STAGGER_MS;
  }

  /** The greeting class goes exactly when every card lies still: none is moving then, and until then one is not down. */
  lemma ClassDroppedIffHandDealt(renders: seq<Render>)
    requires renders != [] && OnScreen(renders).Some? && FirstArrival(renders).Some?
    ensures var fan, startedAt := OnScreen(renders).value, FirstArrival(renders).value;
            fan.elapsed.None? <==> forall i: nat | i < fan.cards :: Uninterrupted(startedAt, i, fan.builtAt) == Dealt
  {
    var fan, startedAt := OnScreen(renders).value, FirstArrival(renders).value;
    var last: nat := fan.cards - 1;
    if fan.elapsed.Some? {
      assert Uninterrupted(startedAt, last, fan.builtAt) != Dealt;
    } else {
      forall i: nat | i < fan.cards
        ensures Uninterrupted(startedAt, i, fan.builtAt) == Dealt
      {
        assert i * DEAL_STAGGER_MS <= last * DEAL_STAGGER_MS;
      }
    }
  }

  lemma {:induction false} ArrivalInLonger(renders: seq<Render>, r: Render)
    ensures FirstArrival(renders + [r])
         == if FirstArrival(renders).Some? then FirstArrival(renders)
            else if r.playable && r.cards > 0 then Some(r.now) else None
  {
    if renders == [] {
      assert [] + [r] == [r] && [r][1..] == [];
    } else {
      assert (renders + [r])[1..] == renders[1..] + [r];
      ArrivalInLonger(renders[1..], r);
    }
  }

  /** `DEALT_AT` for one container; the renders so far are only spoken about. */
  class Container {
    var dealtAt: Option<int>
    ghost var renders: seq<Render>

    ghost predicate Valid() reads this { dealtAt == FirstArrival(renders) }

    constructor ()
      ensures Valid() && renders == []
    {
      dealtAt, renders := None, [];
    }

    method RenderGameSelection(r: Render) returns (fan: Option<Fan>)
      requires Valid()
      modifies this
      ensures Valid() && renders == old(renders) + [r]
      ensures fan == OnScreen(renders)
    {
      ArrivalInLonger(renders, r);
      renders := renders + [r];
      if r.cards == 0 { return None; }
      if r.playable && dealtAt.None? { dealtAt := Some(r.now); }
      var elapsed := if dealtAt.None? then None else Some(r.now - dealtAt.value);
      var dealing := elapsed.Some? && elapsed.value < GreetingMs(r.cards);
      fan := Some(Fan(r.cards, r.now, if dealing then elapsed else None));
    }
  }
}
