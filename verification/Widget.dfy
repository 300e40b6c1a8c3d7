/** The closures of the widget's composition root, with the variables they update, each tied to its step of the run. */
module Widget {
  import opened Optional
  import opened Grouping
  import opened WidgetRun

  /** Which of the two lobby screens is open: one variable is the whole state. */
  class LobbyScreen {
    const families: seq<GameFamily>
    var chosen: Option<string>

    constructor (families: seq<GameFamily>)
      ensures this.families == families && chosen == InitiallyOpened(families)
    {
      this.families := families;
      chosen := if |families| == 1 then Some(families[0].id) else None;
    }

    method Open(id: string)
      modifies this
      ensures chosen == if Find(families, id).Some? then Some(id) else old(chosen)
    {
      if Find(families, id).Some? { chosen := Some(id); }
    }

    method Back()
      modifies this
      ensures chosen == if |families| > 1 then None else old(chosen)
    {
      if |families| > 1 { chosen := None; }
    }

    predicate CanGoBack()
      reads this
    {
      |families| > 1 && Found(families, chosen).Some?
    }
  }

  class DepartureGate {
    var departed: bool

    constructor ()
      ensures !departed
    {
      departed := false;
    }

    method MarkDeparted()
      modifies this
      ensures departed
    {
      departed := true;
    }

    method Reset()
      modifies this
      ensures !departed
    {
      departed := false;
    }
  }

  class Page {
    const cfg: Config
    const lobby: LobbyScreen
    const gate: DepartureGate
    var phase: Phase
    var watchers: nat
    var presence: map<string, Display>
    var stored: Stored
    var screen: Screen
    var flight: Option<Flight>
    var entered: Option<Connection>
    var enteredLog: seq<Connection>
    var left: seq<(Connection, Departure)>
    var renewals: seq<string>
    var joins: seq<Join>

    function View(): State
      reads this, lobby, gate
    {
      State(phase, watchers, gate.departed, lobby.chosen, presence, stored, screen, flight, entered, enteredLog,
            left, renewals, joins)
    }

    /** The lobby screen is the one built from this catalog. */
    ghost predicate Wired()
      reads this, lobby
    {
      lobby.families == Families(cfg.catalog)
    }

    /** ... and everything the runs keep holds of the page as it stands. */
    ghost predicate Valid()
      reads this, lobby, gate
    {
      Wired() && Sound(cfg, View())
    }

    constructor (cfg: Config, stored: Stored)
      ensures this.cfg == cfg && Valid() && View() == Start(cfg, stored) && fresh(lobby) && fresh(gate)
    {
      StartIsSound(cfg, stored);
      this.cfg := cfg;
      var families := GroupByFamily(cfg.catalog);
      var created := new LobbyScreen(families);
      var opening := new DepartureGate();
      lobby, gate := created, opening;
      phase, watchers, presence, screen, flight, entered := Idle, 0, map[], Blank, None, None;
      this.stored, enteredLog, left, renewals, joins := stored, [], [], [], [];
    }

    method Rerender()
      requires Wired()
      modifies this`screen
      ensures View() == WidgetRun.Rerender(cfg, old(View()))
    {
      var family := Found(lobby.families, lobby.chosen);
      if family.None? { screen := GameList; return; }
      var entries := family.value.entries;
      screen := GameSelection(family.value.id, map g | g in presence && HasGame(entries, g) :: presence[g], lobby.CanGoBack());
    }

    method EnterMatch(gameId: string, c: Connection)
      modifies this
      ensures View() == WidgetRun.EnterMatch(cfg, old(View()), gameId, c)
    {
      stored := Saved(MatchSession(gameId, c.reconnectionToken));
      flight := None;
      entered, enteredLog := Some(c), enteredLog + [c];
      if gameId !in cfg.registered { screen := Unsupported(c); return; }
      screen := InMatch(c);
    }

    method ReturnToSelection(c: Connection, d: Departure)
      requires Wired()
      modifies this, gate
      ensures Wired() && View() == WidgetRun.ReturnToSelection(cfg, old(View()), c, d)
    {
      left, entered := left + [(c, d)], None;
      stored := Absent;
      gate.Reset();
      Rerender();
    }

    method OnCounts(g: string, display: Display)
      requires Wired() && Enabled(cfg, View(), Counts(g, display))
      modifies this
      ensures Wired() && View() == Step(cfg, old(View()), Counts(g, display))
      ensures old(Valid()) ==> Valid()
      ensures presence == old(presence)[g := display]
      ensures old(Valid() && Away(screen)) ==> screen == old(screen)
    {
      if Valid() { StepKeepsSound(cfg, View(), Counts(g, display)); }
      presence := presence[g := display];
      if !gate.departed && Affects(lobby.families, lobby.chosen, g) { Rerender(); }
    }

    method OnOpenGame(family: string)
      requires Wired() && Enabled(cfg, View(), OpenGame(family))
      modifies this, lobby
      ensures Wired() && View() == Step(cfg, old(View()), OpenGame(family))
      ensures old(Valid()) ==> Valid()
    {
      if Valid() { StepKeepsSound(cfg, View(), OpenGame(family)); }
      lobby.Open(family);
      Rerender();
    }

    method OnBack()
      requires Wired() && Enabled(cfg, View(), Back)
      modifies this, lobby
      ensures Wired() && View() == Step(cfg, old(View()), Back)
      ensures old(Valid()) ==> Valid()
    {
      if Valid() { StepKeepsSound(cfg, View(), Back); }
      lobby.Back();
      Rerender();
    }

    /** `attempt`: the status screen, then the renewal that must come before the join. */
    method StartAttempt(a: Attempt)
      modifies this
      ensures View() == WidgetRun.StartAttempt(old(View()), a)
    {
      screen := Status;
      flight := Some(Flight(a, Renewing));
    }

    method OnPlay(a: Attempt)
      requires Wired() && Enabled(cfg, View(), Play(a))
      modifies this, gate
      ensures Wired() && View() == Step(cfg, old(View()), Play(a))
      ensures old(Valid()) ==> Valid()
    {
      if Valid() { StepKeepsSound(cfg, View(), Play(a)); }
      gate.MarkDeparted();
      StartAttempt(a);
    }

    method OnRetry()
      requires Wired() && Enabled(cfg, View(), Retry)
      modifies this
      ensures Wired() && View() == Step(cfg, old(View()), Retry)
      ensures old(Valid()) ==> Valid()
    {
      if Valid() { StepKeepsSound(cfg, View(), Retry); }
      StartAttempt(screen.attempt);
    }

    /** `withFreshToken`: the join goes out with the token just renewed and no other. */
    method OnRenewed(token: string)
      requires Wired() && Enabled(cfg, View(), Renewed(token))
      modifies this
      ensures Wired() && View() == Step(cfg, old(View()), Renewed(token))
      ensures old(Valid()) ==> Valid()
    {
      if Valid() { StepKeepsSound(cfg, View(), Renewed(token)); }
      renewals := renewals + [token];
      joins := joins + [Join(flight.value.attempt, token)];
      flight := Some(flight.value.(stage := Joining));
    }

    method OnQueueJoined()
      requires Wired() && Enabled(cfg, View(), QueueJoined)
      modifies this
      ensures Wired() && View() == Step(cfg, old(View()), QueueJoined)
      ensures old(Valid()) ==> Valid()
    {
      if Valid() { StepKeepsSound(cfg, View(), QueueJoined); }
      flight := Some(flight.value.(stage := Queued));
    }

    /** `onPaired`: the reserved seat is claimed. */
    method OnPaired()
      requires Wired() && Enabled(cfg, View(), Paired)
      modifies this
      ensures Wired() && View() == Step(cfg, old(View()), Paired)
      ensures old(Valid()) ==> Valid()
    {
      if Valid() { StepKeepsSound(cfg, View(), Paired); }
      flight := Some(flight.value.(stage := Claiming));
    }

    method OnConnected(c: Connection)
      requires Wired() && Enabled(cfg, View(), Connected(c))
      modifies this
      ensures Wired() && View() == Step(cfg, old(View()), Connected(c))
      ensures old(Valid()) ==> Valid()
    {
      if Valid() { StepKeepsSound(cfg, View(), Connected(c)); }
      EnterMatch(flight.value.attempt.gameId, c);
    }

    /** Every rejection of an attempt ends on the same error screen, offering that attempt again. */
    method OnAttemptFailed(e: Event)
      requires Wired() && Enabled(cfg, View(), e) && (e.RenewFailed? || e.JoinFailed? || e.PairingFailed?)
      modifies this
      ensures Wired() && View() == Step(cfg, old(View()), e)
      ensures old(Valid()) ==> Valid()
    {
      if Valid() { StepKeepsSound(cfg, View(), e); }
      screen := ErrorWithRetry(flight.value.attempt);
      flight := None;
    }

    /** A message on the entered connection: the registered renderer paints, the unsupported screen only counts. */
    method OnMessage()
      requires Wired() && Enabled(cfg, View(), Message)
      modifies this
      ensures Wired() && View() == Step(cfg, old(View()), Message)
      ensures old(Valid()) ==> Valid()
    {
      if Valid() { StepKeepsSound(cfg, View(), Message); }
      if stored.Saved? && stored.session.gameId !in cfg.registered { return; }
      screen := InMatch(entered.value);
    }

    method OnLeave(d: Departure)
      requires Wired() && Enabled(cfg, View(), Leave(d))
      modifies this, gate
      ensures Wired() && View() == Step(cfg, old(View()), Leave(d))
      ensures old(Valid()) ==> Valid()
      ensures old(Valid()) ==> ShowsLobby(screen) && !gate.departed && stored == Absent && entered == None
    {
      if Valid() { StepKeepsSound(cfg, View(), Leave(d)); }
      ReturnToSelection(screen.connection, d);
    }

    /** Boot: the persisted session, if it can be read, is what the resume attempt will try. */
    method OnHostHello()
      requires Wired() && Enabled(cfg, View(), HostHello)
      modifies this
      ensures Wired() && View() == Step(cfg, old(View()), HostHello)
      ensures old(Valid()) ==> Valid()
    {
      if Valid() { StepKeepsSound(cfg, View(), HostHello); }
      phase := Resuming(if stored.Saved? then Some(stored.session) else None);
    }

    method OnResumeSettled(result: Option<Connection>)
      requires Wired() && Enabled(cfg, View(), ResumeSettled(result))
      modifies this, gate
      ensures Wired() && View() == Step(cfg, old(View()), ResumeSettled(result))
      ensures old(Valid()) ==> Valid()
    {
      if Valid() { StepKeepsSound(cfg, View(), ResumeSettled(result)); }
      var pending := phase.pending;
      var enteredResumedMatch := result.Some? && pending.Some?;
      if enteredResumedMatch {
        gate.MarkDeparted();
        EnterMatch(pending.value.gameId, result.value);
      } else if pending.Some? {
        stored := Absent;
      }
      phase := Watching(enteredResumedMatch);
      CloseBoot();
    }

    method OnWatcherOpened()
      requires Wired() && Enabled(cfg, View(), WatcherOpened)
      modifies this
      ensures Wired() && View() == Step(cfg, old(View()), WatcherOpened)
      ensures old(Valid() && !Overpaints(cfg, View(), WatcherOpened)) ==> Valid()
      ensures old(phase == Watching(false)) && watchers == |cfg.catalog| ==> ShowsLobby(View().screen)
    {
      if Valid() && !Overpaints(cfg, View(), WatcherOpened) { StepKeepsSound(cfg, View(), WatcherOpened); }
      watchers := watchers + 1;
      CloseBoot();
    }

    /** A watcher that cannot connect ends the boot without its closing paint. */
    method OnWatcherFailed()
      requires Wired() && Enabled(cfg, View(), WatcherFailed)
      modifies this
      ensures Wired() && View() == Step(cfg, old(View()), WatcherFailed)
      ensures old(Valid()) ==> Valid()
    {
      if Valid() { StepKeepsSound(cfg, View(), WatcherFailed); }
      phase := Settled(phase.resumed);
    }

    method CloseBoot()
      requires Wired() && phase.Watching?
      modifies this
      ensures Wired() && View() == CloseBootIfDone(cfg, old(View()))
    {
      if watchers >= |cfg.catalog| {
        var enteredResumedMatch := phase.resumed;
        phase := Settled(enteredResumedMatch);
        if !enteredResumedMatch { Rerender(); }
      }
    }
  }
}
