/**
 * One page load of the widget as an event-driven machine: boot, the resume attempt, one presence
 * watcher per game, joins with retries, the match and the way back. Every event that the page can
 * deliver is a step; an event nothing on the page can raise (no such button, no such promise pending)
 * leaves the state alone. Premises built into `Enabled`: one `host-hello`, every join attempt settles
 * once, and no message arrives on a connection after it was left.
 */
module WidgetRun {
  import opened Optional
  import opened Grouping

  datatype LobbyDisplayEntry = LobbyDisplayEntry(modality: string, waiting: nat)
  type Display = seq<LobbyDisplayEntry>

  /** What the player pressed: a game, one of its modalities, and a tier if the opponent is a bot. */
  datatype Attempt = Attempt(gameId: string, modality: string, tier: Option<string>) {
    predicate VsBot() { tier.Some? }
  }

  /** A request sent to the transport: a queue join or a bot match, with the token it carries. */
  datatype Join = Join(attempt: Attempt, token: string)
  datatype Stage = Renewing | Joining | Queued | Claiming
  datatype Flight = Flight(attempt: Attempt, stage: Stage)

  datatype Connection = Connection(id: nat, reconnectionToken: string)
  datatype Departure = MatchOver | Quit

  datatype MatchSession = MatchSession(gameId: string, reconnectionToken: string)

  /** `localStorage` under the match-session key: nothing, something unreadable, or a session. */
  datatype Stored = Absent | Unreadable | Saved(session: MatchSession)

  /** What the container shows. A game screen remembers the counts it was drawn with. */
  datatype Screen =
    | Blank
    | GameList
    | GameSelection(family: string, counts: map<string, Display>, backable: bool)
    | Status
    | ErrorWithRetry(attempt: Attempt)
    | InMatch(connection: Connection)
    | Unsupported(connection: Connection)

  datatype Phase =
    | Idle
    | Resuming(pending: Option<MatchSession>)
    | Watching(resumed: bool)
    | Settled(resumed: bool)

  /** The tenant's catalog and the games this build has a renderer for. */
  datatype Config = Config(catalog: seq<CatalogEntry>, registered: set<string>)

  datatype State = State(
    phase: Phase,
    watchers: nat,
    departed: bool,
    chosen: Option<string>,
    presence: map<string, Display>,
    stored: Stored,
    screen: Screen,
    flight: Option<Flight>,
    entered: Option<Connection>,
    enteredLog: seq<Connection>,
    left: seq<(Connection, Departure)>,
    renewals: seq<string>,
    joins: seq<Join>)

  datatype Event =
    | HostHello
    | ResumeSettled(result: Option<Connection>)
    | WatcherOpened
    | WatcherFailed
    | Counts(gameId: string, display: Display)
    | OpenGame(family: string)
    | Back
    | Play(attempt: Attempt)
    | Retry
    | Renewed(token: string)
    | RenewFailed
    | QueueJoined
    | Paired
    | PairingFailed
    | Connected(connection: Connection)
    | JoinFailed
    | Message
    | Leave(departure: Departure)

  // ----- the lobby's two screens -----------------------------------------------------

  /** `families.find((family) => family.id === id)` */
  function Find(families: seq<GameFamily>, id: string): (r: Option<GameFamily>)
    ensures r.Some? ==> r.value in families && r.value.id == id
    ensures r.None? ==> forall f | f in families :: f.id != id
  {
    if families == [] then None
    else if families[0].id == id then Some(families[0])
    else Find(families[1..], id)
  }

  function Found(families: seq<GameFamily>, chosen: Option<string>): Option<GameFamily> {
    if chosen.None? then None else Find(families, chosen.value)
  }

  function InitiallyOpened(families: seq<GameFamily>): Option<string> {
    if |families| == 1 then Some(families[0].id) else None
  }

  predicate HasGame(entries: seq<CatalogEntry>, gameId: string) { exists e | e in entries :: e.id == gameId }

  /** Whether a broadcast about this game concerns the open screen. */
  predicate Affects(families: seq<GameFamily>, chosen: Option<string>, gameId: string) {
    Found(families, chosen).Some? && HasGame(Found(families, chosen).value.entries, gameId)
  }

  /** What `rerender` draws: the list, or the open game with the counts known now. */
  function Paint(families: seq<GameFamily>, chosen: Option<string>, presence: map<string, Display>): Screen {
    var family := Found(families, chosen);
    if family.None? then GameList
    else
      GameSelection(family.value.id,
                    map g | g in presence && HasGame(family.value.entries, g) :: presence[g],
                    |families| > 1)
  }

  function Rerender(cfg: Config, s: State): State {
    s.(screen := Paint(Families(cfg.catalog), s.chosen, s.presence))
  }

  // ----- which events the page can raise ---------------------------------------------

  /** A card with counts has a play control for each modality it can show. */
  predicate Offers(display: Display, modality: string) { exists d | d in display :: d.modality == modality }

  predicate Enabled(cfg: Config, s: State, e: Event) {
    match e
    case HostHello => s.phase.Idle?
    case ResumeSettled(result) => s.phase.Resuming? && (s.phase.pending.None? ==> result.None?)
    case WatcherOpened => s.phase.Watching? && s.watchers < |cfg.catalog|
    case WatcherFailed => s.phase.Watching? && s.watchers < |cfg.catalog|
    case Counts(g, _) => exists i | 0 <= i < s.watchers :: i < |cfg.catalog| && cfg.catalog[i].id == g
    case OpenGame(family) => s.screen.GameList? && Find(Families(cfg.catalog), family).Some?
    case Back => s.screen.GameSelection? && s.screen.backable
    case Play(a) => s.screen.GameSelection? && a.gameId in s.screen.counts && Offers(s.screen.counts[a.gameId], a.modality)
    case Retry => s.screen.ErrorWithRetry?
    case Renewed(token) => s.flight.Some? && s.flight.value.stage.Renewing?
    case RenewFailed => s.flight.Some? && s.flight.value.stage.Renewing?
    case QueueJoined => s.flight.Some? && s.flight.value.stage.Joining? && !s.flight.value.attempt.VsBot()
    case Paired => s.flight.Some? && s.flight.value.stage.Queued?
    case PairingFailed => s.flight.Some? && s.flight.value.stage.Queued?
    case Connected(_) =>
      s.flight.Some? && (s.flight.value.stage.Claiming? || (s.flight.value.stage.Joining? && s.flight.value.attempt.VsBot()))
    case JoinFailed => s.flight.Some? && (s.flight.value.stage.Claiming? || s.flight.value.stage.Joining?)
    case Message => s.entered.Some?
    case Leave(d) => s.screen.InMatch? || (s.screen.Unsupported? && d.Quit?)
  }

  // ----- the steps -------------------------------------------------------------------

  /** `enterMatch`, after the caller persisted the session. */
  function EnterMatch(cfg: Config, s: State, gameId: string, c: Connection): State {
    s.(stored := Saved(MatchSession(gameId, c.reconnectionToken)),
       entered := Some(c),
       enteredLog := s.enteredLog + [c],
       flight := None,
       screen := if gameId in cfg.registered then InMatch(c) else Unsupported(c))
  }

  function ReturnToSelection(cfg: Config, s: State, c: Connection, d: Departure): State {
    Rerender(cfg, s.(left := s.left + [(c, d)], entered := None, stored := Absent, departed := false))
  }

  function StartAttempt(s: State, a: Attempt): State {
    s.(screen := Status, flight := Some(Flight(a, Renewing)))
  }

  function FailAttempt(s: State): State
    requires s.flight.Some?
  {
    s.(screen := ErrorWithRetry(s.flight.value.attempt), flight := None)
  }

  function Advance(s: State, stage: Stage): State
    requires s.flight.Some?
  {
    s.(flight := Some(s.flight.value.(stage := stage)))
  }

  /** The end of the watcher loop: on a fresh boot it paints the lobby, without asking the gate. */
  function CloseBootIfDone(cfg: Config, s: State): State
    requires s.phase.Watching?
  {
    if s.watchers < |cfg.catalog| then s
    else
      var done := s.(phase := Settled(s.phase.resumed));
      if s.phase.resumed then done else Rerender(cfg, done)
  }

  function Do(cfg: Config, s: State, e: Event): State
    requires Enabled(cfg, s, e)
  {
    match e
    case HostHello => s.(phase := Resuming(if s.stored.Saved? then Some(s.stored.session) else None))
    case ResumeSettled(result) =>
      var pending := s.phase.pending;
      var next :=
        if result.Some? && pending.Some? then
          EnterMatch(cfg, s.(departed := true), pending.value.gameId, result.value).(phase := Watching(true))
        else if pending.Some? then s.(stored := Absent, phase := Watching(false))
        else s.(phase := Watching(false));
      CloseBootIfDone(cfg, next)
    case WatcherOpened => CloseBootIfDone(cfg, s.(watchers := s.watchers + 1))
    case WatcherFailed => s.(phase := Settled(s.phase.resumed))
    case Counts(g, display) =>
      var stored := s.(presence := s.presence[g := display]);
      if !s.departed && Affects(Families(cfg.catalog), s.chosen, g) then Rerender(cfg, stored) else stored
    case OpenGame(family) => Rerender(cfg, s.(chosen := Some(family)))
    case Back => Rerender(cfg, if |Families(cfg.catalog)| > 1 then s.(chosen := None) else s)
    case Play(a) => StartAttempt(s.(departed := true), a)
    case Retry => StartAttempt(s, s.screen.attempt)
    case Renewed(token) =>
      Advance(s, Joining).(renewals := s.renewals + [token], joins := s.joins + [Join(s.flight.value.attempt, token)])
    case RenewFailed => FailAttempt(s)
    case QueueJoined => Advance(s, Queued)
    case Paired => Advance(s, Claiming)
    case PairingFailed => FailAttempt(s)
    case Connected(c) => EnterMatch(cfg, s, s.flight.value.attempt.gameId, c)
    case JoinFailed => FailAttempt(s)
    case Message =>
      // The stored session names the entered match's game; without a renderer a view only counts.
      if s.stored.Saved? && s.stored.session.gameId !in cfg.registered then s else s.(screen := InMatch(s.entered.value))
    case Leave(d) => ReturnToSelection(cfg, s, s.screen.connection, d)
  }

  function Step(cfg: Config, s: State, e: Event): State {
    if Enabled(cfg, s, e) then Do(cfg, s, e) else s
  }

  function Start(cfg: Config, stored: Stored): State {
    State(Idle, 0, false, InitiallyOpened(Families(cfg.catalog)), map[], stored, Blank, None, None, [], [], [], [])
  }

  function Run(cfg: Config, s: State, events: seq<Event>): State {
    if events == [] then s else Step(cfg, Run(cfg, s, events[..|events| - 1]), events[|events| - 1])
  }

  // ----- what holds between steps ----------------------------------------------------

  /** The screens a player reaches by departing: nothing may replace them but the player's own way back. */
  predicate Away(screen: Screen) {
    screen.Status? || screen.ErrorWithRetry? || screen.InMatch? || screen.Unsupported?
  }

  predicate ShowsLobby(screen: Screen) { screen.GameList? || screen.GameSelection? }

  predicate GateMatchesScreen(s: State) { s.departed <==> Away(s.screen) }

  /** A match is on screen exactly when its connection is entered and not left. */
  predicate MatchMatchesConnection(s: State) {
    && (s.entered.Some? ==> s.screen == InMatch(s.entered.value) || s.screen == Unsupported(s.entered.value))
    && (s.screen.InMatch? || s.screen.Unsupported? ==> s.entered.Some?)
  }

  /** The lobby is never out of date: what it shows is what a redraw would show now. */
  predicate LobbyIsCurrent(cfg: Config, s: State) {
    ShowsLobby(s.screen) ==> s.screen == Paint(Families(cfg.catalog), s.chosen, s.presence)
  }

  /** Once the resume attempt is over, storage holds a session exactly while its match is entered. */
  predicate StorageMatchesMatch(cfg: Config, s: State) {
    s.phase.Watching? || s.phase.Settled? ==>
      && (s.stored.Saved? <==> s.entered.Some?)
      && (s.entered.Some? ==> s.stored.session.reconnectionToken == s.entered.value.reconnectionToken)
      && (s.entered.Some? ==> (s.screen.Unsupported? <==> s.stored.session.gameId !in cfg.registered))
  }

  function LeftConnections(left: seq<(Connection, Departure)>): seq<Connection> {
    seq(|left|, i requires 0 <= i < |left| => left[i].0)
  }

  /** Every connection entered was left once, in order, except the one still entered. */
  predicate LeavesWhatItEntered(s: State) {
    s.enteredLog == LeftConnections(s.left) + (if s.entered.Some? then [s.entered.value] else [])
  }

  function Tokens(joins: seq<Join>): seq<string> { seq(|joins|, i requires 0 <= i < |joins| => joins[i].token) }

  predicate Sound(cfg: Config, s: State) {
    && GateMatchesScreen(s)
    && MatchMatchesConnection(s)
    && (s.flight.Some? <==> s.screen.Status?)
    && LobbyIsCurrent(cfg, s)
    && StorageMatchesMatch(cfg, s)
    && LeavesWhatItEntered(s)
    && Tokens(s.joins) == s.renewals
    && (s.phase.Idle? || s.phase.Resuming? ==> s.screen.Blank? && s.watchers == 0)
    && (s.phase.Resuming? ==> s.phase.pending == if s.stored.Saved? then Some(s.stored.session) else None)
    && (s.phase.Watching? ==> s.watchers < |cfg.catalog|)
    && s.watchers <= |cfg.catalog|
  }

  /** The one step that ignores the gate: the closing paint of a fresh boot after the player departed. */
  predicate Overpaints(cfg: Config, s: State, e: Event) {
    e.WatcherOpened? && s.phase == Watching(false) && s.watchers + 1 == |cfg.catalog| && s.departed
  }

  lemma StartIsSound(cfg: Config, stored: Stored)
    ensures Sound(cfg, Start(cfg, stored))
  {
  }

  /** A broadcast that does not concern the open screen would not change what a redraw shows. */
  lemma UnaffectedPaint(families: seq<GameFamily>, chosen: Option<string>, presence: map<string, Display>, g: string, d: Display)
    requires !Affects(families, chosen, g)
    ensures Paint(families, chosen, presence[g := d]) == Paint(families, chosen, presence)
  {
  }

  lemma CountsKeepSound(cfg: Config, s: State, g: string, d: Display)
    requires Sound(cfg, s) && Enabled(cfg, s, Counts(g, d))
    ensures Sound(cfg, Do(cfg, s, Counts(g, d)))
  {
    if !Affects(Families(cfg.catalog), s.chosen, g) {
      UnaffectedPaint(Families(cfg.catalog), s.chosen, s.presence, g, d);
    }
  }

  lemma LeaveKeepsSound(cfg: Config, s: State, d: Departure)
    requires Sound(cfg, s) && Enabled(cfg, s, Leave(d))
    ensures Sound(cfg, Do(cfg, s, Leave(d)))
  {
    var s' := Do(cfg, s, Leave(d));
    assert LeftConnections(s'.left) == LeftConnections(s.left) + [s.screen.connection];
  }

  lemma EnterKeepsSound(cfg: Config, s: State, e: Event)
    requires Sound(cfg, s) && Enabled(cfg, s, e) && (e.Connected? || e.ResumeSettled?)
    ensures Sound(cfg, Do(cfg, s, e))
  {
    var s' := Do(cfg, s, e);
    if s'.enteredLog != s.enteredLog {
      assert s.enteredLog == LeftConnections(s.left);
    }
  }

  lemma AttemptsKeepSound(cfg: Config, s: State, e: Event)
    requires Sound(cfg, s) && Enabled(cfg, s, e)
    requires e.Play? || e.Retry? || e.Renewed? || e.RenewFailed? || e.QueueJoined? || e.Paired? || e.PairingFailed? || e.JoinFailed?
    ensures Sound(cfg, Do(cfg, s, e))
  {
    if e.Renewed? {
      TokensOneMore(s.joins, Join(s.flight.value.attempt, e.token));
    }
  }

  lemma TokensOneMore(joins: seq<Join>, j: Join)
    ensures Tokens(joins + [j]) == Tokens(joins) + [j.token]
  {
  }

  lemma LobbyAndBootKeepSound(cfg: Config, s: State, e: Event)
    requires Sound(cfg, s) && Enabled(cfg, s, e) && !Overpaints(cfg, s, e)
    requires e.HostHello? || e.WatcherOpened? || e.WatcherFailed? || e.OpenGame? || e.Back? || e.Message?
    ensures Sound(cfg, Do(cfg, s, e))
  {
  }

  lemma StepKeepsSound(cfg: Config, s: State, e: Event)
    requires Sound(cfg, s) && !Overpaints(cfg, s, e)
    ensures Sound(cfg, Step(cfg, s, e))
  {
    if Enabled(cfg, s, e) {
      match e
      case Counts(g, d) => CountsKeepSound(cfg, s, g, d);
      case Leave(d) => LeaveKeepsSound(cfg, s, d);
      case Connected(_) => EnterKeepsSound(cfg, s, e);
      case ResumeSettled(_) => EnterKeepsSound(cfg, s, e);
      case HostHello => LobbyAndBootKeepSound(cfg, s, e);
      case WatcherOpened => LobbyAndBootKeepSound(cfg, s, e);
      case WatcherFailed => LobbyAndBootKeepSound(cfg, s, e);
      case OpenGame(_) => LobbyAndBootKeepSound(cfg, s, e);
      case Back => LobbyAndBootKeepSound(cfg, s, e);
      case Message => LobbyAndBootKeepSound(cfg, s, e);
      case _ => AttemptsKeepSound(cfg, s, e);
    }
  }

  // ----- what every run guarantees ---------------------------------------------------

  ghost predicate NeverOverpaints(cfg: Config, s: State, events: seq<Event>) {
    forall k | 0 <= k < |events| :: !Overpaints(cfg, Run(cfg, s, events[..k]), events[k])
  }

  lemma {:induction false} RunKeepsSound(cfg: Config, s: State, events: seq<Event>)
    requires Sound(cfg, s) && NeverOverpaints(cfg, s, events)
    ensures Sound(cfg, Run(cfg, s, events))
  {
    if events != [] {
      var init := events[..|events| - 1];
      forall k | 0 <= k < |init| ensures !Overpaints(cfg, Run(cfg, s, init[..k]), init[k]) {
        assert init[..k] == events[..k];
      }
      RunKeepsSound(cfg, s, init);
      StepKeepsSound(cfg, Run(cfg, s, init), events[|events| - 1]);
    }
  }

  /** Catalogs on which nothing can be pressed before the closing paint of a fresh boot. */
  predicate QuietBoot(cfg: Config) { |Families(cfg.catalog)| != 1 || |cfg.catalog| <= 1 }

  predicate Quiet(cfg: Config, s: State) {
    && (s.phase == Watching(false) ==> s.screen.Blank?)
    && (s.screen.Blank? ==> s.chosen == InitiallyOpened(Families(cfg.catalog)))
  }

  lemma StepKeepsQuiet(cfg: Config, s: State, e: Event)
    requires QuietBoot(cfg) && Sound(cfg, s) && Quiet(cfg, s)
    ensures !Overpaints(cfg, s, e)
    ensures Quiet(cfg, Step(cfg, s, e))
  {
  }

  lemma {:induction false} QuietRun(cfg: Config, stored: Stored, events: seq<Event>)
    requires QuietBoot(cfg)
    ensures NeverOverpaints(cfg, Start(cfg, stored), events)
    ensures Sound(cfg, Run(cfg, Start(cfg, stored), events)) && Quiet(cfg, Run(cfg, Start(cfg, stored), events))
  {
    if events == [] {
      StartIsSound(cfg, stored);
    } else {
      var n := |events| - 1;
      QuietRun(cfg, stored, events[..n]);
      var s := Run(cfg, Start(cfg, stored), events[..n]);
      StepKeepsQuiet(cfg, s, events[n]);
      StepKeepsSound(cfg, s, events[n]);
      forall k | 0 <= k < |events|
        ensures !Overpaints(cfg, Run(cfg, Start(cfg, stored), events[..k]), events[k])
      {
        assert k < n ==> events[..n][..k] == events[..k] && events[..n][k] == events[k];
      }
    }
  }

  /** Opening `k` more watchers, short of the last, changes nothing but their number. */
  lemma {:induction false} OpeningWatchers(cfg: Config, s: State, k: nat)
    requires s.phase.Watching? && s.watchers + k < |cfg.catalog|
    ensures Run(cfg, s, seq(k, _ => WatcherOpened)) == s.(watchers := s.watchers + k)
  {
    if k > 0 {
      OpeningWatchers(cfg, s, k - 1);
      var events := seq(k, _ => WatcherOpened);
      assert events[..k - 1] == seq(k - 1, _ => WatcherOpened);
    }
  }

  lemma {:induction false} RunInTwoParts(cfg: Config, s: State, a: seq<Event>, b: seq<Event>)
    ensures Run(cfg, s, a + b) == Run(cfg, Run(cfg, s, a), b)
  {
    if b == [] {
      assert a + b == a;
    } else {
      assert (a + b)[..|a + b| - 1] == a + b[..|b| - 1];
      RunInTwoParts(cfg, s, a, b[..|b| - 1]);
    }
  }

  function BotAttempt(gameId: string): Attempt { Attempt(gameId, "", Some("easy")) }

  /** The run in which the closing paint covers a join in progress: press play after the first counts arrive. */
  function EarlyPress(cfg: Config): seq<Event>
    requires |cfg.catalog| >= 2
  {
    UpToPress(cfg) + seq(|cfg.catalog| - 2, _ => WatcherOpened) + [WatcherOpened]
  }

  function UpToPress(cfg: Config): seq<Event>
    requires |cfg.catalog| >= 2
  {
    var g := cfg.catalog[0].id;
    [HostHello, ResumeSettled(None), WatcherOpened, Counts(g, [LobbyDisplayEntry("", 0)]), Play(BotAttempt(g))]
  }

  lemma RunOfOneMore(cfg: Config, s: State, events: seq<Event>, e: Event)
    ensures Run(cfg, s, events + [e]) == Step(cfg, Run(cfg, s, events), e)
  {
    assert (events + [e])[..|events|] == events;
  }

  /** With one family, that family is the whole catalog's. */
  lemma OnlyFamilyHasGame(c: seq<CatalogEntry>)
    requires |Families(c)| == 1 && c != []
    ensures Found(Families(c), InitiallyOpened(Families(c))) == Some(Families(c)[0])
    ensures HasGame(Families(c)[0].entries, c[0].id)
  {
    var f := Families(c)[0];
    KeysAreTheOccurring(c, ByFamily, c[0].gameFamily);
    assert Keys(c, ByFamily)[0] == c[0].gameFamily;
    HavingIsUniform(c, ByFamily, f.id);
    assert c[0] in f.entries;
  }

  lemma RunOfFive(cfg: Config, s: State, a: Event, b: Event, c: Event, d: Event, e: Event)
    ensures Run(cfg, s, [a, b, c, d, e]) == Step(cfg, Step(cfg, Step(cfg, Step(cfg, Step(cfg, s, a), b), c), d), e)
  {
    assert [] + [a] == [a] && [a] + [b] == [a, b] && [a, b] + [c] == [a, b, c];
    assert [a, b, c] + [d] == [a, b, c, d] && [a, b, c, d] + [e] == [a, b, c, d, e];
    RunOfOneMore(cfg, s, [], a);
    RunOfOneMore(cfg, s, [a], b);
    RunOfOneMore(cfg, s, [a, b], c);
    RunOfOneMore(cfg, s, [a, b, c], d);
    RunOfOneMore(cfg, s, [a, b, c, d], e);
  }

  /** A fresh boot whose first watcher has connected. */
  lemma FirstWatcher(cfg: Config, stored: Stored)
    requires !QuietBoot(cfg)
    ensures var s := Step(cfg, Step(cfg, Step(cfg, Start(cfg, stored), HostHello), ResumeSettled(None)), WatcherOpened);
            && s.phase == Watching(false) && s.watchers == 1 && !s.departed && s.presence == map[]
            && s.chosen == InitiallyOpened(Families(cfg.catalog))
  {
  }

  lemma FirstCountOpensTheGame(cfg: Config, s: State, d: Display)
    requires !QuietBoot(cfg)
    requires s.phase == Watching(false) && s.watchers == 1 && !s.departed && s.presence == map[]
    requires s.chosen == InitiallyOpened(Families(cfg.catalog)) && Offers(d, "")
    ensures var g := cfg.catalog[0].id;
            var s' := Step(cfg, Step(cfg, s, Counts(g, d)), Play(BotAttempt(g)));
            s'.phase == Watching(false) && s'.watchers == 1 && s'.departed
  {
    OnlyFamilyHasGame(cfg.catalog);
    var shown := Step(cfg, s, Counts(cfg.catalog[0].id, d));
    assert shown.screen.GameSelection? && cfg.catalog[0].id in shown.screen.counts;
  }

  /** The run up to the press: one watcher of several, and the player already departed. */
  lemma PressedState(cfg: Config, stored: Stored)
    requires !QuietBoot(cfg)
    ensures var s := Run(cfg, Start(cfg, stored), UpToPress(cfg));
            s.phase == Watching(false) && s.watchers == 1 && s.departed
  {
    var g, d, s0 := cfg.catalog[0].id, [LobbyDisplayEntry("", 0)], Start(cfg, stored);
    FirstWatcher(cfg, stored);
    assert d[0].modality == "";
    FirstCountOpensTheGame(cfg, Step(cfg, Step(cfg, Step(cfg, s0, HostHello), ResumeSettled(None)), WatcherOpened), d);
    RunOfFive(cfg, s0, HostHello, ResumeSettled(None), WatcherOpened, Counts(g, d), Play(BotAttempt(g)));
  }

  /** The last watcher paints the lobby over a departed player's screen. */
  lemma LastWatcherPaints(cfg: Config, s: State)
    requires s.phase == Watching(false) && s.watchers + 1 == |cfg.catalog| && s.departed
    ensures !GateMatchesScreen(Step(cfg, s, WatcherOpened))
  {
  }

  lemma EarlyPressIsCovered(cfg: Config, stored: Stored)
    requires !QuietBoot(cfg)
    ensures !GateMatchesScreen(Run(cfg, Start(cfg, stored), EarlyPress(cfg)))
  {
    var s0, more := Start(cfg, stored), seq(|cfg.catalog| - 2, _ => WatcherOpened);
    PressedState(cfg, stored);
    RunInTwoParts(cfg, s0, UpToPress(cfg), more);
    OpeningWatchers(cfg, Run(cfg, s0, UpToPress(cfg)), |cfg.catalog| - 2);
    RunOfOneMore(cfg, s0, UpToPress(cfg) + more, WatcherOpened);
    LastWatcherPaints(cfg, Run(cfg, s0, UpToPress(cfg) + more));
  }

  /**
   * The departure gate is closed exactly while a status, error, match or unsupported screen shows, in
   * every run - if and only if the catalog is not a single game with several entries. There a count can
   * open the game before the last watcher connects, and the closing paint covers whatever it led to.
   */
  lemma GateHoldsInEveryRunIffQuietBoot(cfg: Config, stored: Stored)
    ensures (forall events: seq<Event> :: GateMatchesScreen(Run(cfg, Start(cfg, stored), events))) <==> QuietBoot(cfg)
  {
    if QuietBoot(cfg) {
      forall events: seq<Event>
        ensures GateMatchesScreen(Run(cfg, Start(cfg, stored), events))
      {
        QuietRun(cfg, stored, events);
      }
    } else {
      EarlyPressIsCovered(cfg, stored);
    }
  }

  /** On any catalog, a run whose closing paint comes before the first departure keeps all of it. */
  lemma PaintFirstRunsAreSound(cfg: Config, stored: Stored, events: seq<Event>)
    requires NeverOverpaints(cfg, Start(cfg, stored), events)
    ensures var s := Run(cfg, Start(cfg, stored), events);
            && GateMatchesScreen(s) && MatchMatchesConnection(s) && StorageMatchesMatch(cfg, s) && LeavesWhatItEntered(s)
            && Tokens(s.joins) == s.renewals
  {
    StartIsSound(cfg, stored);
    RunKeepsSound(cfg, Start(cfg, stored), events);
  }

  /** The last broadcast about a game that the page received in this run. */
  function LatestCount(cfg: Config, s: State, events: seq<Event>, g: string): Option<Display> {
    if events == [] then None
    else
      var n := |events| - 1;
      var e := events[n];
      if e.Counts? && e.gameId == g && Enabled(cfg, Run(cfg, s, events[..n]), e) then Some(e.display)
      else LatestCount(cfg, s, events[..n], g)
  }

  lemma StepStoresCounts(cfg: Config, s: State, e: Event)
    ensures Step(cfg, s, e).presence == if e.Counts? && Enabled(cfg, s, e) then s.presence[e.gameId := e.display] else s.presence
  {
    if Enabled(cfg, s, e) && !e.Counts? { OnlyCountsStore(cfg, s, e); }
  }

  lemma OnlyCountsStore(cfg: Config, s: State, e: Event)
    requires Enabled(cfg, s, e) && !e.Counts?
    ensures Do(cfg, s, e).presence == s.presence
  {
    if ConcernsAttempts(e) { AttemptsStoreNoCount(cfg, s, e); } else { BootAndLobbyStoreNoCount(cfg, s, e); }
  }

  predicate ConcernsAttempts(e: Event) { Steers(e) || e.QueueJoined? || e.Paired? }

  lemma AttemptsStoreNoCount(cfg: Config, s: State, e: Event)
    requires Enabled(cfg, s, e) && ConcernsAttempts(e)
    ensures Do(cfg, s, e).presence == s.presence
  {
  }

  lemma BootAndLobbyStoreNoCount(cfg: Config, s: State, e: Event)
    requires Enabled(cfg, s, e) && !e.Counts? && !ConcernsAttempts(e)
    ensures Do(cfg, s, e).presence == s.presence
  {
  }

  lemma {:induction false} PresenceIsTheLatest(cfg: Config, stored: Stored, events: seq<Event>, g: string)
    ensures var s := Run(cfg, Start(cfg, stored), events);
            LatestCount(cfg, Start(cfg, stored), events, g) == if g in s.presence then Some(s.presence[g]) else None
  {
    if events != [] {
      var n := |events| - 1;
      PresenceIsTheLatest(cfg, stored, events[..n], g);
      StepStoresCounts(cfg, Run(cfg, Start(cfg, stored), events[..n]), events[n]);
    }
  }

  lemma BroadcastWhileAway(cfg: Config, s: State, e: Event)
    requires Sound(cfg, s) && Away(s.screen) && e.Counts?
    ensures Step(cfg, s, e).screen == s.screen && !Overpaints(cfg, s, e)
  {
  }

  /**
   * However many broadcasts arrive while the player is away, the screen stays as it was - and each count
   * is stored, as `PresenceIsTheLatest` says of every run.
   */
  lemma {:induction false} BroadcastsNeverReplaceAnAwayScreen(cfg: Config, stored: Stored, events: seq<Event>, more: seq<Event>)
    requires NeverOverpaints(cfg, Start(cfg, stored), events)
    requires Away(Run(cfg, Start(cfg, stored), events).screen) && forall e | e in more :: e.Counts?
    ensures Run(cfg, Start(cfg, stored), events + more).screen == Run(cfg, Start(cfg, stored), events).screen
    ensures Sound(cfg, Run(cfg, Start(cfg, stored), events + more))
  {
    var s0 := Start(cfg, stored);
    if more == [] {
      assert events + more == events;
      StartIsSound(cfg, stored);
      RunKeepsSound(cfg, s0, events);
    } else {
      var init, e := more[..|more| - 1], more[|more| - 1];
      BroadcastsNeverReplaceAnAwayScreen(cfg, stored, events, init);
      assert events + more == (events + init) + [e];
      RunOfOneMore(cfg, s0, events + init, e);
      BroadcastWhileAway(cfg, Run(cfg, s0, events + init), e);
      StepKeepsSound(cfg, Run(cfg, s0, events + init), e);
    }
  }

  /**
   * Whenever a game's screen shows - on arrival, after leaving a match, after leaving a resumed one -
   * each of its entries carries the latest count broadcast about it.
   */
  lemma LobbyShowsLatestCounts(cfg: Config, stored: Stored, events: seq<Event>, g: string)
    requires NeverOverpaints(cfg, Start(cfg, stored), events)
    requires var s := Run(cfg, Start(cfg, stored), events);
             && s.screen.GameSelection?
             && Affects(Families(cfg.catalog), s.chosen, g)
    ensures var s := Run(cfg, Start(cfg, stored), events);
            LatestCount(cfg, Start(cfg, stored), events, g)
            == if g in s.screen.counts then Some(s.screen.counts[g]) else None
  {
    StartIsSound(cfg, stored);
    RunKeepsSound(cfg, Start(cfg, stored), events);
    PresenceIsTheLatest(cfg, stored, events, g);
  }

  /** The family last opened and not backed out of. */
  function LastOpened(cfg: Config, s: State, events: seq<Event>): Option<string> {
    if events == [] then InitiallyOpened(Families(cfg.catalog))
    else
      var n := |events| - 1;
      var before, e := Run(cfg, s, events[..n]), events[n];
      if e.OpenGame? && Enabled(cfg, before, e) then Some(e.family)
      else if e.Back? && Enabled(cfg, before, e) then None
      else LastOpened(cfg, s, events[..n])
  }

  /** A game's screen has a way back exactly when there is a list to go back to. */
  predicate BackableIfList(cfg: Config, s: State) {
    s.screen.GameSelection? ==> (s.screen.backable <==> |Families(cfg.catalog)| > 1)
  }

  lemma StepKeepsBackable(cfg: Config, s: State, e: Event)
    requires BackableIfList(cfg, s)
    ensures BackableIfList(cfg, Step(cfg, s, e))
  {
  }

  lemma StepOnChosen(cfg: Config, s: State, e: Event)
    requires BackableIfList(cfg, s)
    ensures Step(cfg, s, e).chosen
         == if !Enabled(cfg, s, e) then s.chosen
            else if e.OpenGame? then Some(e.family)
            else if e.Back? then None
            else s.chosen
  {
    if Enabled(cfg, s, e) && !e.OpenGame? && !e.Back? { OthersKeepChosen(cfg, s, e); }
  }

  lemma OthersKeepChosen(cfg: Config, s: State, e: Event)
    requires Enabled(cfg, s, e) && !e.OpenGame? && !e.Back?
    ensures Do(cfg, s, e).chosen == s.chosen
  {
  }

  lemma NeverOverpaintsBefore(cfg: Config, s: State, events: seq<Event>)
    requires events != [] && NeverOverpaints(cfg, s, events)
    ensures NeverOverpaints(cfg, s, events[..|events| - 1])
    ensures !Overpaints(cfg, Run(cfg, s, events[..|events| - 1]), events[|events| - 1])
  {
    var init := events[..|events| - 1];
    forall k | 0 <= k < |init| ensures !Overpaints(cfg, Run(cfg, s, init[..k]), init[k]) {
      assert init[..k] == events[..k];
    }
  }

  /** In every run, overpainted or not. */
  lemma {:induction false} ChosenIsTheLastOpened(cfg: Config, stored: Stored, events: seq<Event>)
    ensures BackableIfList(cfg, Run(cfg, Start(cfg, stored), events))
    ensures Run(cfg, Start(cfg, stored), events).chosen == LastOpened(cfg, Start(cfg, stored), events)
  {
    if events != [] {
      var s := Run(cfg, Start(cfg, stored), events[..|events| - 1]);
      ChosenIsTheLastOpened(cfg, stored, events[..|events| - 1]);
      StepKeepsBackable(cfg, s, events[|events| - 1]);
      StepOnChosen(cfg, s, events[|events| - 1]);
    }
  }

  /**
   * The lobby is where the player left it: whenever it shows - also on the way back from a match, resumed or
   * not - it is the family last opened and not backed out of, with its latest counts, or else the list.
   */
  lemma LobbyIsWhereItWasLeft(cfg: Config, stored: Stored, events: seq<Event>)
    requires NeverOverpaints(cfg, Start(cfg, stored), events)
    ensures var s0 := Start(cfg, stored);
            var s := Run(cfg, s0, events);
            ShowsLobby(s.screen) ==> s.screen == Paint(Families(cfg.catalog), LastOpened(cfg, s0, events), s.presence)
  {
    StartIsSound(cfg, stored);
    RunKeepsSound(cfg, Start(cfg, stored), events);
    ChosenIsTheLastOpened(cfg, stored, events);
  }

  /** Some entry of the catalog is this game, under this family. */
  predicate Lists(c: seq<CatalogEntry>, family: string, g: string) { exists e | e in c :: e.id == g && e.gameFamily == family }

  lemma FoundFamilyLists(c: seq<CatalogEntry>, id: string, g: string)
    ensures Find(Families(c), id).Some? <==> exists e | e in c :: e.gameFamily == id
    ensures Find(Families(c), id).Some? ==> (HasGame(Find(Families(c), id).value.entries, g) <==> Lists(c, id, g))
  {
    FindByKey(c, id);
    KeysAreTheOccurring(c, ByFamily, id);
    HavingIsUniform(c, ByFamily, id);
    if Find(Families(c), id).Some? {
      assert Find(Families(c), id).value.entries == Having(c, ByFamily, id);
    }
    if e :| e in c && e.gameFamily == id {
      var at :| 0 <= at < |c| && c[at] == e;
    }
  }

  lemma FindByKey(c: seq<CatalogEntry>, id: string)
    ensures Find(Families(c), id) == if id in Keys(c, ByFamily) then Some(GameFamily(id, Having(c, ByFamily, id))) else None
  {
    var r := Find(Families(c), id);
    if r.Some? {
      var i :| 0 <= i < |Families(c)| && Families(c)[i] == r.value;
    }
    if id in Keys(c, ByFamily) {
      var f := FamilyOfKey(c, id);
      assert f.id == id;
    }
  }

  lemma FamilyOfKey(c: seq<CatalogEntry>, k: string) returns (f: GameFamily)
    requires k in Keys(c, ByFamily)
    ensures f in Families(c) && f.id == k
  {
    var i :| 0 <= i < |Keys(c, ByFamily)| && Keys(c, ByFamily)[i] == k;
    f := Families(c)[i];
  }

  /**
   * What the lobby shows, said on the catalog and the history alone: the list when no family is open; else
   * the open family's screen, with the latest count of exactly those of its games that had one, and a way
   * back exactly when the catalog has another family.
   */
  lemma LobbyShows(cfg: Config, stored: Stored, events: seq<Event>, g: string)
    requires NeverOverpaints(cfg, Start(cfg, stored), events)
    requires ShowsLobby(Run(cfg, Start(cfg, stored), events).screen)
    ensures var s0 := Start(cfg, stored);
            var screen, family := Run(cfg, s0, events).screen, LastOpened(cfg, s0, events);
            if family.None? || !(exists e | e in cfg.catalog :: e.gameFamily == family.value) then screen == GameList
            else
              && screen.GameSelection? && screen.family == family.value
              && (screen.backable <==> exists a, b | a in cfg.catalog && b in cfg.catalog :: a.gameFamily != b.gameFamily)
              && (g in screen.counts <==> Lists(cfg.catalog, family.value, g) && LatestCount(cfg, s0, events, g).Some?)
              && (g in screen.counts ==> Some(screen.counts[g]) == LatestCount(cfg, s0, events, g))
  {
    LobbyIsWhereItWasLeft(cfg, stored, events);
    PresenceIsTheLatest(cfg, stored, events, g);
    SeveralFamilies(cfg.catalog);
    var family := LastOpened(cfg, Start(cfg, stored), events);
    if family.Some? { FoundFamilyLists(cfg.catalog, family.value, g); }
  }

  /** There are several families exactly when two entries name different ones. */
  lemma SeveralFamilies(c: seq<CatalogEntry>)
    ensures |Families(c)| > 1 <==> exists a, b | a in c && b in c :: a.gameFamily != b.gameFamily
  {
    var ks := Keys(c, ByFamily);
    KeysInFirstAppearanceOrder(c, ByFamily);
    if |ks| > 1 {
      var a := EntryOfKey(c, ks[0]);
      var b := EntryOfKey(c, ks[1]);
      assert ks[0] != ks[1] && a.gameFamily != b.gameFamily;
    }
    if a, b :| a in c && b in c && a.gameFamily != b.gameFamily {
      KeyOfEntry(c, a);
      KeyOfEntry(c, b);
      TwoMembers(ks, a.gameFamily, b.gameFamily);
    }
  }

  lemma TwoMembers(ks: seq<string>, x: string, y: string)
    requires x in ks && y in ks && x != y
    ensures |ks| > 1
  {
    var i :| 0 <= i < |ks| && ks[i] == x;
    var j :| 0 <= j < |ks| && ks[j] == y;
  }

  lemma EntryOfKey(c: seq<CatalogEntry>, k: string) returns (e: CatalogEntry)
    requires k in Keys(c, ByFamily)
    ensures e in c && e.gameFamily == k
  {
    KeysAreTheOccurring(c, ByFamily, k);
    e := c[FirstIndex(c, ByFamily, k)];
  }

  lemma KeyOfEntry(c: seq<CatalogEntry>, e: CatalogEntry)
    requires e in c
    ensures e.gameFamily in Keys(c, ByFamily)
  {
    KeysAreTheOccurring(c, ByFamily, e.gameFamily);
    var at :| 0 <= at < |c| && c[at] == e;
  }

  // ----- the end of a boot -----------------------------------------------------------

  /** This event ends a boot that resumed nothing, with every watcher open. */
  predicate ClosesFreshBoot(cfg: Config, s: State, e: Event) {
    && Enabled(cfg, s, e)
    && s.phase != Settled(false)
    && Step(cfg, s, e).phase == Settled(false) && Step(cfg, s, e).watchers == |cfg.catalog|
  }

  /** On every run the event that completes the watchers of a fresh boot paints the lobby. */
  lemma FreshBootPaintsTheLobby(cfg: Config, stored: Stored, events: seq<Event>, e: Event)
    requires ClosesFreshBoot(cfg, Run(cfg, Start(cfg, stored), events), e)
    ensures var s0 := Start(cfg, stored);
            var s' := Run(cfg, s0, events + [e]);
            s'.screen == Paint(Families(cfg.catalog), LastOpened(cfg, s0, events), s'.presence)
  {
    ChosenIsTheLastOpened(cfg, stored, events);
    RunOfOneMore(cfg, Start(cfg, stored), events, e);
    ClosingPaints(cfg, Run(cfg, Start(cfg, stored), events), e);
  }

  lemma ClosingPaints(cfg: Config, s: State, e: Event)
    requires ClosesFreshBoot(cfg, s, e)
    ensures Step(cfg, s, e).screen == Paint(Families(cfg.catalog), s.chosen, Step(cfg, s, e).presence)
  {
  }

  predicate BlankOnlyWhileBooting(cfg: Config, s: State) {
    s.screen.Blank? ==> !(s.phase == Settled(false) && s.watchers == |cfg.catalog|)
  }

  lemma StepIsBlankOnlyWhileBooting(cfg: Config, s: State, e: Event)
    requires BlankOnlyWhileBooting(cfg, s)
    ensures BlankOnlyWhileBooting(cfg, Step(cfg, s, e))
  {
    if ClosesFreshBoot(cfg, s, e) { ClosingPaints(cfg, s, e); }
  }

  /** So no run leaves a page blank whose fresh boot opened every watcher. */
  lemma {:induction false} NoFinishedBootIsBlank(cfg: Config, stored: Stored, events: seq<Event>)
    ensures BlankOnlyWhileBooting(cfg, Run(cfg, Start(cfg, stored), events))
  {
    if events != [] {
      NoFinishedBootIsBlank(cfg, stored, events[..|events| - 1]);
      StepIsBlankOnlyWhileBooting(cfg, Run(cfg, Start(cfg, stored), events[..|events| - 1]), events[|events| - 1]);
    }
  }

  lemma SettledStays(cfg: Config, s: State, e: Event)
    requires s.phase.Settled?
    ensures Step(cfg, s, e).phase == s.phase && Step(cfg, s, e).watchers == s.watchers
  {
  }

  /** A watcher that cannot connect ends the boot as it stands: nothing is painted, and no later watcher ever opens. */
  lemma {:induction false} FailedWatcherEndsTheBoot(cfg: Config, s: State, more: seq<Event>)
    requires Enabled(cfg, s, WatcherFailed)
    ensures Step(cfg, s, WatcherFailed).screen == s.screen
    ensures var s' := Run(cfg, Step(cfg, s, WatcherFailed), more);
            s'.phase == Settled(s.phase.resumed) && s'.watchers == s.watchers < |cfg.catalog|
  {
    if more != [] {
      FailedWatcherEndsTheBoot(cfg, s, more[..|more| - 1]);
      SettledStays(cfg, Run(cfg, Step(cfg, s, WatcherFailed), more[..|more| - 1]), more[|more| - 1]);
    }
  }

  /** A boot with nothing to resume, every watcher connecting: the shortest way to a lobby. */
  function PlainBoot(cfg: Config): seq<Event> {
    [HostHello, ResumeSettled(None)] + seq(|cfg.catalog|, _ => WatcherOpened)
  }

  lemma {:induction false} PlainBootShowsTheLobby(cfg: Config, stored: Stored)
    ensures Run(cfg, Start(cfg, stored), PlainBoot(cfg)).screen
         == Paint(Families(cfg.catalog), InitiallyOpened(Families(cfg.catalog)), map[])
  {
    var s0, opening, n := Start(cfg, stored), [HostHello, ResumeSettled(None)], |cfg.catalog|;
    NothingToResume(cfg, stored);
    if n == 0 {
      assert PlainBoot(cfg) == opening;
    } else {
      var more := seq(n - 1, _ => WatcherOpened);
      assert PlainBoot(cfg) == (opening + more) + [WatcherOpened];
      RunInTwoParts(cfg, s0, opening, more);
      OpeningWatchers(cfg, Run(cfg, s0, opening), n - 1);
      RunOfOneMore(cfg, s0, opening + more, WatcherOpened);
      LastWatcherOfPlainBoot(cfg, Run(cfg, s0, opening + more));
    }
  }

  lemma NothingToResume(cfg: Config, stored: Stored)
    ensures var s := Run(cfg, Start(cfg, stored), [HostHello, ResumeSettled(None)]);
            && s.chosen == InitiallyOpened(Families(cfg.catalog)) && s.presence == map[] && s.watchers == 0
            && if |cfg.catalog| == 0 then s.screen == Paint(Families(cfg.catalog), s.chosen, map[]) else s.phase == Watching(false)
  {
    RunOfTwo(cfg, Start(cfg, stored), HostHello, ResumeSettled(None));
    NothingResumed(cfg, Step(cfg, Start(cfg, stored), HostHello));
  }

  lemma RunOfTwo(cfg: Config, s: State, a: Event, b: Event)
    ensures Run(cfg, s, [a, b]) == Step(cfg, Step(cfg, s, a), b)
  {
    assert [a, b] == [a] + [b] && [a] == [] + [a];
    RunOfOneMore(cfg, s, [a], b);
    RunOfOneMore(cfg, s, [], a);
  }

  lemma NothingResumed(cfg: Config, s: State)
    requires s.phase.Resuming? && s.watchers == 0
    ensures var s' := Step(cfg, s, ResumeSettled(None));
            && s'.chosen == s.chosen && s'.presence == s.presence && s'.watchers == 0
            && if |cfg.catalog| == 0 then s'.screen == Paint(Families(cfg.catalog), s.chosen, s.presence) else s'.phase == Watching(false)
  {
  }

  lemma LastWatcherOfPlainBoot(cfg: Config, s: State)
    requires s.phase == Watching(false) && s.watchers + 1 == |cfg.catalog|
    ensures Step(cfg, s, WatcherOpened).screen == Paint(Families(cfg.catalog), s.chosen, s.presence)
  {
  }

  /** Until the resume attempt settles, storage is as the page found it and the attempt is for what it holds. */
  predicate Unresumed(s: State, stored: Stored) {
    && (s.phase.Idle? || s.phase.Resuming? ==> s.stored == stored && s.entered.None? && s.flight.None? && !s.departed)
    && (s.phase.Resuming? ==> s.phase.pending == if stored.Saved? then Some(stored.session) else None)
    && (s.phase.Idle? || s.phase.Resuming? ==> s.screen.Blank? && s.watchers == 0)
  }

  lemma StepKeepsUnresumed(cfg: Config, s: State, e: Event, stored: Stored)
    requires Unresumed(s, stored)
    ensures Unresumed(Step(cfg, s, e), stored)
  {
  }

  lemma {:induction false} RunKeepsUnresumed(cfg: Config, stored: Stored, events: seq<Event>)
    ensures Unresumed(Run(cfg, Start(cfg, stored), events), stored)
  {
    if events != [] {
      RunKeepsUnresumed(cfg, stored, events[..|events| - 1]);
      StepKeepsUnresumed(cfg, Run(cfg, Start(cfg, stored), events[..|events| - 1]), events[|events| - 1], stored);
    }
  }

  /**
   * On every run, the resume attempt's end: with a connection, the match of the game the session was
   * persisted with is entered behind a closed gate, and stored under that game with the new token; without
   * one, nothing is entered and a session that was tried is gone.
   */
  lemma ResumeEnds(cfg: Config, stored: Stored, events: seq<Event>, result: Option<Connection>)
    requires Enabled(cfg, Run(cfg, Start(cfg, stored), events), ResumeSettled(result))
    ensures var s' := Run(cfg, Start(cfg, stored), events + [ResumeSettled(result)]);
            if result.Some? then
              && stored.Saved?
              && var game := stored.session.gameId;
              && s'.entered == result && s'.departed
              && s'.stored == Saved(MatchSession(game, result.value.reconnectionToken))
              && s'.screen == (if game in cfg.registered then InMatch(result.value) else Unsupported(result.value))
            else s'.entered.None? && !s'.departed && s'.stored == if stored.Saved? then Absent else stored
  {
    RunKeepsUnresumed(cfg, stored, events);
    RunOfOneMore(cfg, Start(cfg, stored), events, ResumeSettled(result));
  }

  lemma OpeningShowsTheFamily(cfg: Config, s: State, e: Event)
    requires Sound(cfg, s) && Enabled(cfg, s, e)
    ensures e.OpenGame? ==> Step(cfg, s, e).screen.GameSelection? && Step(cfg, s, e).screen.family == e.family
    ensures e.Back? ==> Step(cfg, s, e).screen == GameList
  {
  }

  /** At the end of any such run, pressing a game on the list shows that game, and pressing back shows the list. */
  lemma PressingLeadsThere(cfg: Config, stored: Stored, events: seq<Event>, e: Event)
    requires NeverOverpaints(cfg, Start(cfg, stored), events)
    requires Enabled(cfg, Run(cfg, Start(cfg, stored), events), e) && (e.OpenGame? || e.Back?)
    ensures var screen := Run(cfg, Start(cfg, stored), events + [e]).screen;
            if e.Back? then screen == GameList else screen.GameSelection? && screen.family == e.family
  {
    var s0 := Start(cfg, stored);
    StartIsSound(cfg, stored);
    RunKeepsSound(cfg, s0, events);
    RunOfOneMore(cfg, s0, events, e);
    OpeningShowsTheFamily(cfg, Run(cfg, s0, events), e);
  }

  lemma LeavingReopensTheLobby(cfg: Config, s: State, d: Departure)
    requires Sound(cfg, s) && Enabled(cfg, s, Leave(d))
    ensures var s' := Step(cfg, s, Leave(d));
            && ShowsLobby(s'.screen) && !s'.departed && s'.stored == Absent && s'.entered == None
            && s.entered.Some? && s'.left == s.left + [(s.entered.value, d)]
  {
  }

  /** At the end of any such run, leaving a match leads back there, with the gate open and nothing stored. */
  lemma LeavingLeadsBack(cfg: Config, stored: Stored, events: seq<Event>, d: Departure)
    requires NeverOverpaints(cfg, Start(cfg, stored), events)
    requires Enabled(cfg, Run(cfg, Start(cfg, stored), events), Leave(d))
    ensures var s0 := Start(cfg, stored);
            var s, s' := Run(cfg, s0, events), Run(cfg, s0, events + [Leave(d)]);
            && s'.screen == Paint(Families(cfg.catalog), LastOpened(cfg, s0, events), s.presence)
            && !s'.departed && s'.stored == Absent && s'.entered == None
            && s.entered.Some? && s'.left == s.left + [(s.entered.value, d)]
  {
    var s0 := Start(cfg, stored);
    StartIsSound(cfg, stored);
    RunKeepsSound(cfg, s0, events);
    ChosenIsTheLastOpened(cfg, stored, events);
    RunOfOneMore(cfg, s0, events, Leave(d));
    LeavingReopensTheLobby(cfg, Run(cfg, s0, events), d);
  }

  // ----- joins -----------------------------------------------------------------------

  /** This event ends a join that was sent: with a connection, a refusal or a failed pairing. */
  predicate SettlesJoin(cfg: Config, s: State, e: Event) {
    Enabled(cfg, s, e) && (e.Connected? || e.JoinFailed? || e.PairingFailed?)
  }

  function SettledJoins(cfg: Config, s: State, events: seq<Event>): nat {
    if events == [] then 0
    else
      var n := |events| - 1;
      SettledJoins(cfg, s, events[..n]) + if SettlesJoin(cfg, Run(cfg, s, events[..n]), events[n]) then 1 else 0
  }

  /** Joins sent and not settled: the one in flight, if it is past its renewal. */
  function OpenJoins(s: State): nat { if s.flight.Some? && !s.flight.value.stage.Renewing? then 1 else 0 }

  lemma StepOnJoins(cfg: Config, s: State, e: Event)
    requires Sound(cfg, s) && !Overpaints(cfg, s, e)
    ensures var s' := Step(cfg, s, e);
            |s'.joins| - OpenJoins(s') == |s.joins| - OpenJoins(s) + if SettlesJoin(cfg, s, e) then 1 else 0
  {
  }

  /** Every join sent is settled once or still open; none is sent twice, dropped or settled without being sent. */
  lemma {:induction false} JoinsAreConserved(cfg: Config, stored: Stored, events: seq<Event>)
    requires NeverOverpaints(cfg, Start(cfg, stored), events)
    ensures var s := Run(cfg, Start(cfg, stored), events);
            |s.joins| == SettledJoins(cfg, Start(cfg, stored), events) + OpenJoins(s)
  {
    var s0 := Start(cfg, stored);
    if events != [] {
      var n := |events| - 1;
      NeverOverpaintsBefore(cfg, s0, events);
      JoinsAreConserved(cfg, stored, events[..n]);
      StartIsSound(cfg, stored);
      RunKeepsSound(cfg, s0, events[..n]);
      StepOnJoins(cfg, Run(cfg, s0, events[..n]), events[n]);
    }
  }

  /** At step `p` the player pressed for this attempt: a first press, or a retry of it. */
  ghost predicate PressedAt(cfg: Config, s0: State, events: seq<Event>, p: nat, a: Attempt) {
    && p < |events|
    && var s := Run(cfg, s0, events[..p]);
       Enabled(cfg, s, events[p]) && (events[p] == Play(a) || (events[p].Retry? && s.screen.attempt == a))
  }

  ghost predicate RenewedAt(cfg: Config, s0: State, events: seq<Event>, r: nat) {
    r < |events| && Enabled(cfg, Run(cfg, s0, events[..r]), events[r]) && events[r].Renewed?
  }

  /** A press, a renewal, or the end of an attempt. */
  predicate Steers(e: Event) {
    e.Play? || e.Retry? || e.Renewed? || e.RenewFailed? || e.PairingFailed? || e.Connected? || e.JoinFailed?
  }

  /** Nothing steered any attempt after step `p`, but for the renewal at `r`. */
  ghost predicate Undisturbed(cfg: Config, s0: State, events: seq<Event>, p: nat, r: Option<nat>) {
    forall k: nat | p < k < |events| && r != Some(k) :: !(Steers(events[k]) && Enabled(cfg, Run(cfg, s0, events[..k]), events[k]))
  }

  /** The history behind an attempt in flight: its own press and, past the renewal, its one renewal since. */
  ghost predicate HasItsHistory(cfg: Config, s0: State, events: seq<Event>, a: Attempt, renewed: bool) {
    exists p: nat :: PressedAt(cfg, s0, events, p, a) && HasItsRenewal(cfg, s0, events, p, renewed)
  }

  ghost predicate HasItsRenewal(cfg: Config, s0: State, events: seq<Event>, p: nat, renewed: bool) {
    if renewed then exists r: nat :: p < r && RenewedAt(cfg, s0, events, r) && Undisturbed(cfg, s0, events, p, Some(r))
    else Undisturbed(cfg, s0, events, p, None)
  }

  ghost predicate FlightHasItsHistory(cfg: Config, s0: State, events: seq<Event>) {
    var s := Run(cfg, s0, events);
    s.flight.Some? ==> HasItsHistory(cfg, s0, events, s.flight.value.attempt, !s.flight.value.stage.Renewing?)
  }

  lemma PressedInLonger(cfg: Config, s0: State, events: seq<Event>, e: Event, p: nat, a: Attempt)
    requires PressedAt(cfg, s0, events, p, a)
    ensures PressedAt(cfg, s0, events + [e], p, a)
  {
    assert (events + [e])[..p] == events[..p];
  }

  lemma RenewedInLonger(cfg: Config, s0: State, events: seq<Event>, e: Event, r: nat)
    requires RenewedAt(cfg, s0, events, r)
    ensures RenewedAt(cfg, s0, events + [e], r)
  {
    assert (events + [e])[..r] == events[..r];
  }

  lemma UndisturbedInLonger(cfg: Config, s0: State, events: seq<Event>, e: Event, p: nat, r: Option<nat>)
    requires Undisturbed(cfg, s0, events, p, r)
    requires r == Some(|events|) || !(Steers(e) && Enabled(cfg, Run(cfg, s0, events), e))
    ensures Undisturbed(cfg, s0, events + [e], p, r)
  {
    var all := events + [e];
    assert all[..|events|] == events;
    assert forall k: nat | k < |events| :: all[..k] == events[..k] && all[k] == events[k];
  }

  /** An event that steers nothing leaves an attempt its history. */
  lemma HistoryInLonger(cfg: Config, s0: State, events: seq<Event>, e: Event, a: Attempt, renewed: bool)
    requires HasItsHistory(cfg, s0, events, a, renewed)
    requires !(Steers(e) && Enabled(cfg, Run(cfg, s0, events), e))
    ensures HasItsHistory(cfg, s0, events + [e], a, renewed)
  {
    var p: nat :| PressedAt(cfg, s0, events, p, a) && HasItsRenewal(cfg, s0, events, p, renewed);
    PressedInLonger(cfg, s0, events, e, p, a);
    if renewed {
      var r: nat :| p < r && RenewedAt(cfg, s0, events, r) && Undisturbed(cfg, s0, events, p, Some(r));
      RenewedInLonger(cfg, s0, events, e, r);
      UndisturbedInLonger(cfg, s0, events, e, p, Some(r));
    } else {
      UndisturbedInLonger(cfg, s0, events, e, p, None);
    }
  }

  lemma RenewalJoinsTheHistory(cfg: Config, s0: State, events: seq<Event>, e: Event, a: Attempt)
    requires HasItsHistory(cfg, s0, events, a, false)
    requires e.Renewed? && Enabled(cfg, Run(cfg, s0, events), e)
    ensures HasItsHistory(cfg, s0, events + [e], a, true)
  {
    var p: nat :| PressedAt(cfg, s0, events, p, a) && HasItsRenewal(cfg, s0, events, p, false);
    var all, r := events + [e], |events|;
    PressedInLonger(cfg, s0, events, e, p, a);
    assert all[..r] == events && all[r] == e;
    assert RenewedAt(cfg, s0, all, r);
    assert Undisturbed(cfg, s0, events, p, Some(r));
    UndisturbedInLonger(cfg, s0, events, e, p, Some(r));
    assert HasItsRenewal(cfg, s0, all, p, true);
  }

  lemma PressStartsTheHistory(cfg: Config, s0: State, events: seq<Event>, e: Event, a: Attempt)
    requires Enabled(cfg, Run(cfg, s0, events), e)
    requires e == Play(a) || (e.Retry? && Run(cfg, s0, events).screen.attempt == a)
    ensures HasItsHistory(cfg, s0, events + [e], a, false)
  {
    var all := events + [e];
    assert all[..|events|] == events && all[|events|] == e;
    assert PressedAt(cfg, s0, all, |events|, a) && HasItsRenewal(cfg, s0, all, |events|, false);
  }

  /** How a step can leave an attempt in flight. */
  lemma StepOnFlight(cfg: Config, s: State, e: Event)
    requires Sound(cfg, s) && !Overpaints(cfg, s, e)
    ensures var s' := Step(cfg, s, e);
            s'.flight.Some? ==>
              var a, renewed := s'.flight.value.attempt, !s'.flight.value.stage.Renewing?;
              || (Enabled(cfg, s, e) && !renewed && (e == Play(a) || (e.Retry? && s.screen.attempt == a)))
              || (Enabled(cfg, s, e) && renewed && e.Renewed? && s.flight == Some(Flight(a, Renewing)))
              || (!(Steers(e) && Enabled(cfg, s, e)) && s.flight.Some?
                  && s.flight.value.attempt == a && (renewed <==> !s.flight.value.stage.Renewing?))
  {
  }

  lemma {:induction false} EveryFlightHasItsHistory(cfg: Config, stored: Stored, events: seq<Event>)
    requires NeverOverpaints(cfg, Start(cfg, stored), events)
    ensures FlightHasItsHistory(cfg, Start(cfg, stored), events)
  {
    var s0 := Start(cfg, stored);
    if events != [] {
      var init, e := events[..|events| - 1], events[|events| - 1];
      assert events == init + [e];
      NeverOverpaintsBefore(cfg, s0, events);
      EveryFlightHasItsHistory(cfg, stored, init);
      StartIsSound(cfg, stored);
      RunKeepsSound(cfg, s0, init);
      FlightKeepsItsHistory(cfg, s0, init, e);
    }
  }

  lemma FlightKeepsItsHistory(cfg: Config, s0: State, init: seq<Event>, e: Event)
    requires Sound(cfg, Run(cfg, s0, init)) && !Overpaints(cfg, Run(cfg, s0, init), e)
    requires FlightHasItsHistory(cfg, s0, init)
    ensures FlightHasItsHistory(cfg, s0, init + [e])
  {
    RunOfOneMore(cfg, s0, init, e);
    var s := Run(cfg, s0, init);
    var s' := Step(cfg, s, e);
    StepOnFlight(cfg, s, e);
    if s'.flight.Some? {
      var a, renewed := s'.flight.value.attempt, !s'.flight.value.stage.Renewing?;
      if !(Steers(e) && Enabled(cfg, s, e)) {
        HistoryInLonger(cfg, s0, init, e, a, renewed);
      } else if renewed {
        RenewalJoinsTheHistory(cfg, s0, init, e, a);
      } else {
        PressStartsTheHistory(cfg, s0, init, e, a);
      }
    }
  }

  /** The attempt the player last chose; a retry keeps it. */
  function LastPlay(cfg: Config, s: State, events: seq<Event>): Option<Attempt> {
    if events == [] then None
    else
      var n := |events| - 1;
      if events[n].Play? && Enabled(cfg, Run(cfg, s, events[..n]), events[n]) then Some(events[n].attempt)
      else LastPlay(cfg, s, events[..n])
  }

  /** A bot match is asked for directly; only a match against a person waits in the queue. */
  predicate Staged(s: State) {
    s.flight.Some? && s.flight.value.attempt.VsBot() ==> s.flight.value.stage.Renewing? || s.flight.value.stage.Joining?
  }

  /** The attempt a screen is about: in flight, or offered again. */
  function Pursued(s: State): Option<Attempt> {
    if s.flight.Some? then Some(s.flight.value.attempt)
    else if s.screen.ErrorWithRetry? then Some(s.screen.attempt)
    else None
  }

  /** A join in flight was the last one sent, for the attempt in flight. */
  predicate LastJoinIsInFlight(s: State) {
    OpenJoins(s) == 1 ==> s.joins != [] && s.joins[|s.joins| - 1].attempt == s.flight.value.attempt
  }

  lemma StepOnAttempt(cfg: Config, s: State, e: Event)
    requires Sound(cfg, s) && Staged(s) && LastJoinIsInFlight(s) && !Overpaints(cfg, s, e)
    ensures Staged(Step(cfg, s, e)) && LastJoinIsInFlight(Step(cfg, s, e))
    ensures var s' := Step(cfg, s, e);
            if e.Play? && Enabled(cfg, s, e) then Pursued(s') == Some(e.attempt)
            else Pursued(s').Some? ==> Pursued(s') == Pursued(s)
  {
  }

  lemma {:induction false} PursuesTheLastPlay(cfg: Config, stored: Stored, events: seq<Event>)
    requires NeverOverpaints(cfg, Start(cfg, stored), events)
    ensures var s := Run(cfg, Start(cfg, stored), events);
            && Sound(cfg, s) && Staged(s) && LastJoinIsInFlight(s)
            && (Pursued(s).Some? ==> Pursued(s) == LastPlay(cfg, Start(cfg, stored), events))
  {
    var s0 := Start(cfg, stored);
    StartIsSound(cfg, stored);
    RunKeepsSound(cfg, s0, events);
    if events != [] {
      var n := |events| - 1;
      NeverOverpaintsBefore(cfg, s0, events);
      PursuesTheLastPlay(cfg, stored, events[..n]);
      StepOnAttempt(cfg, Run(cfg, s0, events[..n]), events[n]);
    }
  }

  lemma ConnectedStep(cfg: Config, s: State, c: Connection)
    requires Sound(cfg, s) && Staged(s) && LastJoinIsInFlight(s) && Enabled(cfg, s, Connected(c))
    ensures Pursued(s) == Some(s.flight.value.attempt) && OpenJoins(s) == 1
    ensures s.flight.value.stage.Claiming? <==> !s.flight.value.attempt.VsBot()
    ensures var s', a := Step(cfg, s, Connected(c)), s.flight.value.attempt;
            s'.entered == Some(c) && s'.stored == Saved(MatchSession(a.gameId, c.reconnectionToken))
  {
  }

  lemma LastJoinCarriesTheLastToken(cfg: Config, s: State)
    requires Sound(cfg, s) && s.joins != []
    ensures s.renewals != [] && s.joins[|s.joins| - 1].token == s.renewals[|s.renewals| - 1]
  {
    assert Tokens(s.joins)[|s.joins| - 1] == s.joins[|s.joins| - 1].token;
  }

  /**
   * From the play to its connection, over every run: the connection that arrives was asked for with the game,
   * modality and tier the player last chose, whatever failed and was retried in between; its own press is the
   * last one, and since that press there was exactly one renewal, whose token its join carries, and no other
   * attempt ended. Entering stores it under its own game.
   */
  lemma ConnectionHasItsOwnRenewal(cfg: Config, stored: Stored, events: seq<Event>, c: Connection)
    requires NeverOverpaints(cfg, Start(cfg, stored), events)
    requires Enabled(cfg, Run(cfg, Start(cfg, stored), events), Connected(c))
    ensures var s0 := Start(cfg, stored);
            var s, s' := Run(cfg, s0, events), Run(cfg, s0, events + [Connected(c)]);
            && LastPlay(cfg, s0, events).Some?
            && var a := LastPlay(cfg, s0, events).value;
            && HasItsHistory(cfg, s0, events, a, true)
            && (s.flight.value.stage.Claiming? <==> !a.VsBot())
            && s.joins != [] && s.renewals != []
            && s.joins[|s.joins| - 1] == Join(a, s.renewals[|s.renewals| - 1])
            && s'.entered == Some(c) && s'.stored == Saved(MatchSession(a.gameId, c.reconnectionToken))
  {
    var s0 := Start(cfg, stored);
    PursuesTheLastPlay(cfg, stored, events);
    EveryFlightHasItsHistory(cfg, stored, events);
    RunOfOneMore(cfg, s0, events, Connected(c));
    ConnectedStep(cfg, Run(cfg, s0, events), c);
    LastJoinCarriesTheLastToken(cfg, Run(cfg, s0, events));
  }

  // ----- the course of an attempt ----------------------------------------------------

  predicate OfAttempt(e: Event) {
    e.Renewed? || e.RenewFailed? || e.QueueJoined? || e.Paired? || e.PairingFailed? || e.Connected? || e.JoinFailed?
  }

  /** What happened to the attempt since the last press. */
  function Course(cfg: Config, s: State, events: seq<Event>): seq<Event> {
    if events == [] then []
    else
      var init, e := events[..|events| - 1], events[|events| - 1];
      if !Enabled(cfg, Run(cfg, s, init), e) then Course(cfg, s, init)
      else if e.Play? || e.Retry? then []
      else if OfAttempt(e) then Course(cfg, s, init) + [e]
      else Course(cfg, s, init)
  }

  /** A renewal, then the queue, then the pairing. */
  predicate LeadsTo(stage: Stage, course: seq<Event>) {
    match stage
    case Renewing => course == []
    case Joining => |course| == 1 && course[0].Renewed?
    case Queued => |course| == 2 && course[0].Renewed? && course[1].QueueJoined?
    case Claiming => |course| == 3 && course[0].Renewed? && course[1].QueueJoined? && course[2].Paired?
  }

  predicate OnCourse(s: State, course: seq<Event>) { s.flight.Some? ==> LeadsTo(s.flight.value.stage, course) }

  lemma StepKeepsCourse(cfg: Config, s: State, e: Event, course: seq<Event>)
    requires Enabled(cfg, s, e) && OnCourse(s, course)
    ensures OnCourse(Do(cfg, s, e), if e.Play? || e.Retry? then [] else if OfAttempt(e) then course + [e] else course)
  {
  }

  lemma {:induction false} FlightIsOnCourse(cfg: Config, stored: Stored, events: seq<Event>)
    ensures OnCourse(Run(cfg, Start(cfg, stored), events), Course(cfg, Start(cfg, stored), events))
  {
    if events != [] {
      var s0, init, e := Start(cfg, stored), events[..|events| - 1], events[|events| - 1];
      FlightIsOnCourse(cfg, stored, init);
      if Enabled(cfg, Run(cfg, s0, init), e) { StepKeepsCourse(cfg, Run(cfg, s0, init), e, Course(cfg, s0, init)); }
    }
  }

  /**
   * The steps between a press and its connection, over every run: a bot match is entered straight from the
   * renewed join; a match against a person only after the queue was joined and a pairing came, in that order.
   */
  lemma ConnectionTookItsCourse(cfg: Config, stored: Stored, events: seq<Event>, c: Connection)
    requires NeverOverpaints(cfg, Start(cfg, stored), events)
    requires Enabled(cfg, Run(cfg, Start(cfg, stored), events), Connected(c))
    ensures var course, play := Course(cfg, Start(cfg, stored), events), LastPlay(cfg, Start(cfg, stored), events);
            && play.Some?
            && if play.value.VsBot() then |course| == 1 && course[0].Renewed?
               else |course| == 3 && course[0].Renewed? && course[1].QueueJoined? && course[2].Paired?
  {
    FlightIsOnCourse(cfg, stored, events);
    PursuesTheLastPlay(cfg, stored, events);
    ConnectedStep(cfg, Run(cfg, Start(cfg, stored), events), c);
  }

  /** Whatever fails - the renewal, the join, the pairing - the player is offered the very attempt they chose, and nothing is in flight. */
  lemma FailureOffersTheAttemptAgain(cfg: Config, stored: Stored, events: seq<Event>, e: Event)
    requires NeverOverpaints(cfg, Start(cfg, stored), events)
    requires Enabled(cfg, Run(cfg, Start(cfg, stored), events), e) && (e.RenewFailed? || e.JoinFailed? || e.PairingFailed?)
    ensures var s0 := Start(cfg, stored);
            var s' := Run(cfg, s0, events + [e]);
            && s'.screen.ErrorWithRetry? && Some(s'.screen.attempt) == LastPlay(cfg, s0, events)
            && s'.flight.None? && s'.departed
  {
    PursuesTheLastPlay(cfg, stored, events);
    RunOfOneMore(cfg, Start(cfg, stored), events, e);
    FailureStep(cfg, Run(cfg, Start(cfg, stored), events), e);
  }

  lemma FailureStep(cfg: Config, s: State, e: Event)
    requires Sound(cfg, s) && Enabled(cfg, s, e) && (e.RenewFailed? || e.JoinFailed? || e.PairingFailed?)
    ensures var s' := Step(cfg, s, e);
            Pursued(s).Some? && s'.screen == ErrorWithRetry(Pursued(s).value) && s'.flight.None? && s'.departed
  {
  }

  /** A press or a retry shows the status screen and renews first, for that attempt. */
  lemma PressRenewsFirst(cfg: Config, stored: Stored, events: seq<Event>, e: Event)
    requires NeverOverpaints(cfg, Start(cfg, stored), events)
    requires Enabled(cfg, Run(cfg, Start(cfg, stored), events), e) && (e.Play? || e.Retry?)
    ensures var s0 := Start(cfg, stored);
            var s, s' := Run(cfg, s0, events), Run(cfg, s0, events + [e]);
            && s'.screen.Status? && s'.departed && s'.joins == s.joins
            && LastPlay(cfg, s0, events + [e]).Some?
            && s'.flight == Some(Flight(LastPlay(cfg, s0, events + [e]).value, Renewing))
  {
    var s0 := Start(cfg, stored);
    PursuesTheLastPlay(cfg, stored, events);
    RunOfOneMore(cfg, s0, events, e);
    assert (events + [e])[..|events|] == events;
    PressStep(cfg, Run(cfg, s0, events), e);
  }

  lemma PressStep(cfg: Config, s: State, e: Event)
    requires Sound(cfg, s) && Enabled(cfg, s, e) && (e.Play? || e.Retry?)
    ensures var s' := Step(cfg, s, e);
            && s'.screen.Status? && s'.departed && s'.joins == s.joins
            && (e.Retry? ==> Pursued(s).Some?)
            && s'.flight == Some(Flight(if e.Play? then e.attempt else Pursued(s).value, Renewing))
  {
  }

  /** `r` is the renewal behind what happens at step `n`: the one since the press it belongs to. */
  ghost predicate OwnRenewal(cfg: Config, s0: State, events: seq<Event>, n: nat, r: nat) {
    && r < n <= |events|
    && RenewedAt(cfg, s0, events[..n], r)
    && exists p: nat, a :: p < r && PressedAt(cfg, s0, events[..n], p, a) && Undisturbed(cfg, s0, events[..n], p, Some(r))
  }

  lemma EveryConnectionHasOne(cfg: Config, stored: Stored, events: seq<Event>, n: nat)
    requires NeverOverpaints(cfg, Start(cfg, stored), events) && n < |events|
    requires events[n].Connected? && Enabled(cfg, Run(cfg, Start(cfg, stored), events[..n]), events[n])
    ensures exists r :: OwnRenewal(cfg, Start(cfg, stored), events, n, r)
  {
    var s0, before := Start(cfg, stored), events[..n];
    assert forall k | 0 <= k < n :: before[..k] == events[..k];
    assert NeverOverpaints(cfg, s0, before);
    ConnectionHasItsOwnRenewal(cfg, stored, before, events[n].connection);
    var a := LastPlay(cfg, s0, before).value;
    var p: nat :| PressedAt(cfg, s0, before, p, a) && HasItsRenewal(cfg, s0, before, p, true);
    var r: nat :| p < r && RenewedAt(cfg, s0, before, r) && Undisturbed(cfg, s0, before, p, Some(r));
    assert OwnRenewal(cfg, s0, events, n, r);
  }

  /** Connections and their renewals match one to one, and in order. */
  lemma ConnectionsShareNoRenewal(cfg: Config, s0: State, events: seq<Event>, i: nat, j: nat, ri: nat, rj: nat)
    requires i < j < |events|
    requires events[i].Connected? && Enabled(cfg, Run(cfg, s0, events[..i]), events[i])
    requires OwnRenewal(cfg, s0, events, i, ri) && OwnRenewal(cfg, s0, events, j, rj)
    ensures ri < i < rj < j
  {
    var before := events[..j];
    var p: nat, a :| p < rj && PressedAt(cfg, s0, before, p, a) && Undisturbed(cfg, s0, before, p, Some(rj));
    assert before[i] == events[i] && before[..i] == events[..i] && Steers(before[i]);
    assert before[rj].Renewed? && (before[p].Play? || before[p].Retry?);
  }
}
