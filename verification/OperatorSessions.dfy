/**
 * Operator sessions over whole runs: login in its two steps (verify, then insert the session row),
 * logout, disabling, enabling, permission changes and the clock. Which requests are authorized is
 * stated on the history of the run alone.
 */
module OperatorSessions {
  import opened Optional
  import Cookie = SessionCookie

  type OperatorId = string
  type Permission = string

  const MANAGE := "operators.manage"
  const SESSION_MS := Cookie.SESSION_MAX_AGE_SECONDS * 1000

  datatype Operator = Operator(username: string, passwordHash: string, enabled: bool, permissions: set<Permission>)
  datatype Session = Session(operatorId: OperatorId, createdAt: int, expiresAt: int)

  /** The comparison, its decoy, and the one-way hash under which tokens are stored. */
  datatype Env = Env(compare: (string, string) -> bool, dummy: string, hashToken: string -> string)

  /** A login that verified and whose row is not inserted yet. */
  datatype PendingLogin = PendingLogin(tokenHash: string, session: Session)

  /** Running totals of what the login handler did. */
  datatype Tally = Tally(
    ipConsulted: nat,
    userConsulted: nat,
    granted: nat,
    comparisons: nat,
    verified: nat,
    created: nat,
    failedInserts: nat)

  datatype State = State(
    operators: map<OperatorId, Operator>,
    sessions: map<string, Session>,
    pending: map<nat, PendingLogin>,
    now: int,
    tally: Tally)

  /** `Login` carries what the limiters answer if asked and the token generated if it comes to that. */
  datatype Event =
    | Login(rid: nat, username: Option<string>, password: Option<string>, ip: Option<string>,
            ipGrants: bool, userGrants: bool, token: string)
    | InsertSession(rid: nat)
    | Logout(cookieHeader: Option<string>)
    | Disable(id: OperatorId)
    | Enable(id: OperatorId)
    | Grant(id: OperatorId, permission: Permission)
    | Revoke(id: OperatorId, permission: Permission)
    | Tick(to: int)

  // ----- the login handler's decisions -----------------------------------------------

  predicate Complete(username: Option<string>, password: Option<string>) {
    username.Some? && password.Some? && username.value != "" && password.value != ""
  }

  predicate CompleteLogin(e: Event) { e.Login? && Complete(e.username, e.password) }

  /** The limiter keyed by address is asked first, if there is an address ... */
  predicate AsksAddressLimiter(e: Event) { CompleteLogin(e) && e.ip.Some? }

  predicate StoppedByAddress(e: Event) { AsksAddressLimiter(e) && !e.ipGrants }

  /** ... and the one keyed by username only if that one did not refuse. */
  predicate AsksUsernameLimiter(e: Event) { CompleteLogin(e) && !StoppedByAddress(e) }

  /** Every limiter consulted grants. */
  predicate Granted(e: Event) { AsksUsernameLimiter(e) && e.userGrants }

  /** Usernames are unique, so at most one operator answers to one. */
  ghost predicate Named(ops: map<OperatorId, Operator>, username: string, id: OperatorId) {
    id in ops && ops[id].username == username
  }

  ghost predicate UniqueUsernames(ops: map<OperatorId, Operator>) {
    forall a, b | a in ops && b in ops && ops[a].username == ops[b].username :: a == b
  }

  function FindByUsername(ops: map<OperatorId, Operator>, username: string): (r: Option<OperatorId>)
    requires UniqueUsernames(ops)
    ensures r.Some? ==> Named(ops, username, r.value)
    ensures r.None? ==> forall id :: !Named(ops, username, id)
  {
    if exists id :: id in ops && ops[id].username == username
    then (var id :| id in ops && ops[id].username == username; Some(id))
    else None
  }

  /** What `authenticateOperator` answers; an absent or disabled account is compared with the decoy and refused. */
  function Authenticates(env: Env, op: Option<Operator>, password: string): bool {
    op.Some? && op.value.enabled && env.compare(password, op.value.passwordHash)
  }

  // ----- the steps -------------------------------------------------------------------

  /** Some enabled operator can manage accounts. */
  predicate HasManager(ops: map<OperatorId, Operator>) {
    exists id | id in ops :: ops[id].enabled && MANAGE in ops[id].permissions
  }

  /** `disable` and `revoke` run under a guard that undoes a change leaving no account manager. */
  predicate DisableTakesEffect(s: State, id: OperatorId) {
    id in s.operators && HasManager(s.operators[id := s.operators[id].(enabled := false)])
  }

  function Consulted(t: Tally, e: Event): Tally {
    t.(ipConsulted := t.ipConsulted + if AsksAddressLimiter(e) then 1 else 0,
       userConsulted := t.userConsulted + if AsksUsernameLimiter(e) then 1 else 0)
  }

  /** A login request up to its verified token; the row is inserted by a step of its own. */
  function LoginStep(env: Env, s: State, e: Event): State
    requires UniqueUsernames(s.operators) && e.Login?
  {
    var asked := Consulted(s.tally, e);
    if e.rid in s.pending then s
    else if !Granted(e) then s.(tally := asked)
    else
      var id := FindByUsername(s.operators, e.username.value);
      var op := if id.Some? then Some(s.operators[id.value]) else None;
      var t := asked.(granted := asked.granted + 1, comparisons := asked.comparisons + 1);
      if !Authenticates(env, op, e.password.value) then s.(tally := t)
      else
        var session := Session(id.value, s.now, s.now + SESSION_MS);
        s.(tally := t.(verified := t.verified + 1),
           pending := s.pending[e.rid := PendingLogin(env.hashToken(e.token), session)])
  }

  function Step(env: Env, s: State, e: Event): State
    requires UniqueUsernames(s.operators)
  {
    match e
    case Login(_, _, _, _, _, _, _) => LoginStep(env, s, e)
    case InsertSession(rid) =>
      if rid !in s.pending then s
      else
        var p := s.pending[rid];
        var rest := s.(pending := s.pending - {rid});
        if p.tokenHash in s.sessions then rest.(tally := s.tally.(failedInserts := s.tally.failedInserts + 1))
        else rest.(sessions := s.sessions[p.tokenHash := p.session], tally := s.tally.(created := s.tally.created + 1))
    case Logout(header) =>
      var token := Cookie.Parsed(header);
      if token.None? then s else s.(sessions := s.sessions - {env.hashToken(token.value)})
    case Disable(id) =>
      if !DisableTakesEffect(s, id) then s
      else s.(operators := s.operators[id := s.operators[id].(enabled := false)],
              sessions := map h | h in s.sessions && s.sessions[h].operatorId != id :: s.sessions[h])
    case Enable(id) =>
      if id !in s.operators then s else s.(operators := s.operators[id := s.operators[id].(enabled := true)])
    case Grant(id, p) =>
      if id !in s.operators then s
      else s.(operators := s.operators[id := s.operators[id].(permissions := s.operators[id].permissions + {p})])
    case Revoke(id, p) =>
      if id !in s.operators || p !in s.operators[id].permissions then s
      else
        var ops := s.operators[id := s.operators[id].(permissions := s.operators[id].permissions - {p})];
        if HasManager(ops) then s.(operators := ops) else s
    case Tick(to) => if to >= s.now then s.(now := to) else s
  }

  lemma StepKeepsUsernames(env: Env, s: State, e: Event)
    requires UniqueUsernames(s.operators)
    ensures UniqueUsernames(Step(env, s, e).operators)
  {
  }

  function Run(env: Env, s: State, events: seq<Event>): (r: State)
    requires UniqueUsernames(s.operators)
    ensures UniqueUsernames(r.operators)
  {
    if events == [] then s
    else
      var before := Run(env, s, events[..|events| - 1]);
      StepKeepsUsernames(env, before, events[|events| - 1]);
      Step(env, before, events[|events| - 1])
  }

  function Start(ops: map<OperatorId, Operator>, now: int): State {
    State(ops, map[], map[], now, Tally(0, 0, 0, 0, 0, 0, 0))
  }

  // ----- authorization ---------------------------------------------------------------

  datatype RouteAccess = Public | Authenticated | NeedsPermission(permission: Permission)
  datatype Refusal = NoSession | SessionExpired | AccountDisabled | MissingPermission
  datatype AuthorizeResult = Actor(id: OperatorId, username: string, permissions: set<Permission>) | Refused(reason: Refusal)

  /** One fresh read of the current rows, checked in the fixed order. */
  function Authorize(env: Env, s: State, cookieHeader: Option<string>, guard: RouteAccess): AuthorizeResult {
    var token := Cookie.Parsed(cookieHeader);
    if token.None? then Refused(NoSession)
    else
      var h := env.hashToken(token.value);
      if h !in s.sessions || s.sessions[h].operatorId !in s.operators then Refused(NoSession)
      else
        var session, op := s.sessions[h], s.operators[s.sessions[h].operatorId];
        if session.expiresAt <= s.now then Refused(SessionExpired)
        else if !op.enabled then Refused(AccountDisabled)
        else if guard.NeedsPermission? && guard.permission !in op.permissions then Refused(MissingPermission)
        else Actor(session.operatorId, op.username, op.permissions)
  }

  // ----- the history of a session ----------------------------------------------------

  /** At step `i` a login for this session verified: right password, enabled account, and this clock. */
  ghost predicate VerifiedAt(env: Env, s0: State, events: seq<Event>, i: nat, rid: nat, h: string, session: Session)
    requires UniqueUsernames(s0.operators)
  {
    && i < |events|
    && var s := Run(env, s0, events[..i]);
       var e := events[i];
       && e.Login? && e.rid == rid && Granted(e) && env.hashToken(e.token) == h
       && Named(s.operators, e.username.value, session.operatorId)
       && s.operators[session.operatorId].enabled
       && env.compare(e.password.value, s.operators[session.operatorId].passwordHash)
       && session == Session(session.operatorId, s.now, s.now + SESSION_MS)
  }

  /** At step `k` its row was inserted. */
  ghost predicate InsertedAt(env: Env, s0: State, events: seq<Event>, k: nat, h: string, session: Session)
    requires UniqueUsernames(s0.operators)
  {
    && k < |events|
    && var s := Run(env, s0, events[..k]);
       var e := events[k];
       && e.InsertSession? && e.rid in s.pending && s.pending[e.rid] == PendingLogin(h, session) && h !in s.sessions
       && exists i: nat :: i < k && VerifiedAt(env, s0, events, i, e.rid, h, session)
  }

  /** This event ends the session: a logout carrying its token, or its operator disabled. */
  ghost predicate Ends(env: Env, s: State, e: Event, h: string, session: Session) {
    || (e.Logout? && Cookie.Parsed(e.cookieHeader).Some? && env.hashToken(Cookie.Parsed(e.cookieHeader).value) == h)
    || (e.Disable? && e.id == session.operatorId && DisableTakesEffect(s, e.id))
  }

  ghost predicate UnendedSince(env: Env, s0: State, events: seq<Event>, k: nat, h: string, session: Session)
    requires UniqueUsernames(s0.operators)
  {
    forall j | k < j < |events| :: !Ends(env, Run(env, s0, events[..j]), events[j], h, session)
  }

  ghost predicate LiveByHistory(env: Env, s0: State, events: seq<Event>, h: string, session: Session)
    requires UniqueUsernames(s0.operators)
  {
    exists k: nat :: InsertedAt(env, s0, events, k, h, session) && UnendedSince(env, s0, events, k, h, session)
  }

  /** A pending login has its verification behind it. */
  ghost predicate PendingVerified(env: Env, s0: State, events: seq<Event>, rid: nat)
    requires UniqueUsernames(s0.operators)
  {
    var s := Run(env, s0, events);
    rid in s.pending ==>
      exists i: nat :: VerifiedAt(env, s0, events, i, rid, s.pending[rid].tokenHash, s.pending[rid].session)
  }

  lemma VerifiedInLonger(env: Env, s0: State, events: seq<Event>, e: Event, i: nat, rid: nat, h: string, session: Session)
    requires UniqueUsernames(s0.operators)
    requires VerifiedAt(env, s0, events, i, rid, h, session)
    ensures VerifiedAt(env, s0, events + [e], i, rid, h, session)
  {
    assert (events + [e])[..i] == events[..i];
  }

  lemma {:induction false} EveryPendingVerified(env: Env, s0: State, events: seq<Event>, rid: nat)
    requires UniqueUsernames(s0.operators) && s0.pending == map[]
    ensures PendingVerified(env, s0, events, rid)
  {
    if events != [] {
      var n := |events| - 1;
      var init, e := events[..n], events[n];
      EveryPendingVerified(env, s0, init, rid);
      assert events == init + [e];
      var s, s' := Run(env, s0, init), Run(env, s0, events);
      if rid in s'.pending {
        if rid in s.pending {
          PlacesAfterStep(env, s, e);
          var i: nat :| VerifiedAt(env, s0, init, i, rid, s.pending[rid].tokenHash, s.pending[rid].session);
          VerifiedInLonger(env, s0, init, e, i, rid, s.pending[rid].tokenHash, s.pending[rid].session);
        } else {
          NewPendingVerified(env, s0, init, e, rid);
        }
      }
    }
  }

  lemma NewPendingVerified(env: Env, s0: State, init: seq<Event>, e: Event, rid: nat)
    requires UniqueUsernames(s0.operators)
    requires rid !in Run(env, s0, init).pending && rid in Step(env, Run(env, s0, init), e).pending
    ensures var p := Step(env, Run(env, s0, init), e).pending[rid];
            VerifiedAt(env, s0, init + [e], |init|, rid, p.tokenHash, p.session)
  {
    assert (init + [e])[..|init|] == init && (init + [e])[|init|] == e;
  }

  lemma InsertedInLonger(env: Env, s0: State, events: seq<Event>, e: Event, k: nat, h: string, session: Session)
    requires UniqueUsernames(s0.operators) && k < |events|
    ensures InsertedAt(env, s0, events, k, h, session) <==> InsertedAt(env, s0, events + [e], k, h, session)
  {
    assert (events + [e])[..k] == events[..k];
    forall i: nat, rid: nat | i < k
      ensures VerifiedAt(env, s0, events, i, rid, h, session) <==> VerifiedAt(env, s0, events + [e], i, rid, h, session)
    {
      assert (events + [e])[..i] == events[..i];
    }
  }

  lemma UnendedInLonger(env: Env, s0: State, events: seq<Event>, e: Event, k: nat, h: string, session: Session)
    requires UniqueUsernames(s0.operators) && k < |events|
    ensures UnendedSince(env, s0, events + [e], k, h, session)
       <==> UnendedSince(env, s0, events, k, h, session) && !Ends(env, Run(env, s0, events), e, h, session)
  {
    var all := events + [e];
    assert all[..|events|] == events;
    assert forall j | k < j < |events| :: all[..j] == events[..j] && all[j] == events[j];
  }

  /** The session table is exactly what the history says: rows inserted after a verified login and not ended since. */
  lemma {:induction false} SessionsAreTheUnended(env: Env, s0: State, events: seq<Event>, h: string, session: Session)
    requires UniqueUsernames(s0.operators) && s0.sessions == map[] && s0.pending == map[]
    ensures var s := Run(env, s0, events);
            h in s.sessions && s.sessions[h] == session <==> LiveByHistory(env, s0, events, h, session)
  {
    if events != [] {
      var n := |events| - 1;
      var init, e := events[..n], events[n];
      assert events == init + [e];
      SessionsAreTheUnended(env, s0, init, h, session);
      StepOnSession(env, s0, init, e, h, session);
      LiveInLonger(env, s0, init, e, h, session);
    }
  }

  /** A session is live after one more event iff it was and the event does not end it, or the event inserts it. */
  lemma LiveInLonger(env: Env, s0: State, init: seq<Event>, e: Event, h: string, session: Session)
    requires UniqueUsernames(s0.operators)
    ensures LiveByHistory(env, s0, init + [e], h, session)
       <==> || (LiveByHistory(env, s0, init, h, session) && !Ends(env, Run(env, s0, init), e, h, session))
            || InsertedAt(env, s0, init + [e], |init|, h, session)
  {
    var events := init + [e];
    if LiveByHistory(env, s0, init, h, session) && !Ends(env, Run(env, s0, init), e, h, session) {
      var k: nat :| InsertedAt(env, s0, init, k, h, session) && UnendedSince(env, s0, init, k, h, session);
      InsertedInLonger(env, s0, init, e, k, h, session);
      UnendedInLonger(env, s0, init, e, k, h, session);
    }
    if InsertedAt(env, s0, events, |init|, h, session) {
      assert UnendedSince(env, s0, events, |init|, h, session);
    }
    if LiveByHistory(env, s0, events, h, session) {
      var k: nat :| InsertedAt(env, s0, events, k, h, session) && UnendedSince(env, s0, events, k, h, session);
      if k < |init| {
        InsertedInLonger(env, s0, init, e, k, h, session);
        UnendedInLonger(env, s0, init, e, k, h, session);
      }
    }
  }

  /** This event inserts this very row. */
  predicate Inserts(s: State, e: Event, h: string, session: Session) {
    && e.InsertSession? && e.rid in s.pending
    && s.pending[e.rid] == PendingLogin(h, session) && h !in s.sessions
  }

  lemma StepOnRow(env: Env, s: State, e: Event, h: string, session: Session)
    requires UniqueUsernames(s.operators)
    ensures var s' := Step(env, s, e);
            (h in s'.sessions && s'.sessions[h] == session)
            <==> || (h in s.sessions && s.sessions[h] == session && !Ends(env, s, e, h, session))
                 || Inserts(s, e, h, session)
  {
  }

  /** What is inserted was verified before. */
  lemma InsertsAreVerified(env: Env, s0: State, init: seq<Event>, e: Event, h: string, session: Session)
    requires UniqueUsernames(s0.operators) && s0.pending == map[]
    ensures InsertedAt(env, s0, init + [e], |init|, h, session) <==> Inserts(Run(env, s0, init), e, h, session)
  {
    var all, s := init + [e], Run(env, s0, init);
    assert all[..|init|] == init && all[|init|] == e;
    if Inserts(s, e, h, session) {
      EveryPendingVerified(env, s0, init, e.rid);
      var i: nat :| VerifiedAt(env, s0, init, i, e.rid, h, session);
      VerifiedInLonger(env, s0, init, e, i, e.rid, h, session);
    }
  }

  /** One event adds a row exactly by inserting it and removes one exactly by ending it. */
  lemma StepOnSession(env: Env, s0: State, init: seq<Event>, e: Event, h: string, session: Session)
    requires UniqueUsernames(s0.operators) && s0.pending == map[]
    ensures var s, s' := Run(env, s0, init), Run(env, s0, init + [e]);
            (h in s'.sessions && s'.sessions[h] == session)
            <==> || (h in s.sessions && s.sessions[h] == session && !Ends(env, s, e, h, session))
                 || InsertedAt(env, s0, init + [e], |init|, h, session)
  {
    RunOneMore(env, s0, init, e);
    StepOnRow(env, Run(env, s0, init), e, h, session);
    InsertsAreVerified(env, s0, init, e, h, session);
  }

  // ----- what every run guarantees ---------------------------------------------------

  /**
   * A request is authorized exactly when its token's session was inserted by a login that verified an
   * enabled account less than eight hours ago and has neither been logged out nor lost its operator to
   * a disable since - and the operator is enabled now and holds the permission now.
   */
  lemma AuthorizedIff(env: Env, s0: State, events: seq<Event>, header: Option<string>, guard: RouteAccess, id: OperatorId)
    requires UniqueUsernames(s0.operators) && s0.sessions == map[] && s0.pending == map[]
    ensures var s := Run(env, s0, events);
            (Authorize(env, s, header, guard).Actor? && Authorize(env, s, header, guard).id == id)
            <==> && Cookie.Parsed(header).Some?
                 && id in s.operators
                 && s.operators[id].enabled
                 && (guard.NeedsPermission? ==> guard.permission in s.operators[id].permissions)
                 && exists session ::
                      && LiveByHistory(env, s0, events, env.hashToken(Cookie.Parsed(header).value), session)
                      && session.operatorId == id
                      && s.now < session.expiresAt
  {
    var s, token := Run(env, s0, events), Cookie.Parsed(header);
    AuthorizedBySession(env, s, header, guard, id);
    if token.Some? {
      var h := env.hashToken(token.value);
      forall session
        ensures LiveByHistory(env, s0, events, h, session) <==> h in s.sessions && s.sessions[h] == session
      {
        SessionsAreTheUnended(env, s0, events, h, session);
      }
    }
  }

  /** By the history of the run, the header carries the token of this live session. */
  ghost predicate Carries(env: Env, s0: State, events: seq<Event>, header: Option<string>, session: Session)
    requires UniqueUsernames(s0.operators)
  {
    Cookie.Parsed(header).Some? && LiveByHistory(env, s0, events, env.hashToken(Cookie.Parsed(header).value), session)
  }

  /** The one session it can be, as the table has it. */
  lemma CarriedIsStored(env: Env, s0: State, events: seq<Event>, header: Option<string>, session: Session)
    requires UniqueUsernames(s0.operators) && s0.sessions == map[] && s0.pending == map[]
    ensures var s := Run(env, s0, events);
            Carries(env, s0, events, header, session)
            <==> && Cookie.Parsed(header).Some?
                 && env.hashToken(Cookie.Parsed(header).value) in s.sessions
                 && s.sessions[env.hashToken(Cookie.Parsed(header).value)] == session
    ensures Carries(env, s0, events, header, session) ==> session.operatorId in Run(env, s0, events).operators
  {
    if Cookie.Parsed(header).Some? {
      SessionsAreTheUnended(env, s0, events, env.hashToken(Cookie.Parsed(header).value), session);
    }
    if Carries(env, s0, events, header, session) {
      var i, rid := WhenVerified(env, s0, events, env.hashToken(Cookie.Parsed(header).value), session);
      RunKeepsAccounts(env, s0, events[..i]);
      RunKeepsAccounts(env, s0, events);
    }
  }

  lemma {:induction false} RunKeepsAccounts(env: Env, s0: State, events: seq<Event>)
    requires UniqueUsernames(s0.operators)
    ensures Run(env, s0, events).operators.Keys == s0.operators.Keys
  {
    if events != [] {
      RunKeepsAccounts(env, s0, events[..|events| - 1]);
      StepKeepsAccounts(env, Run(env, s0, events[..|events| - 1]), events[|events| - 1]);
    }
  }

  lemma StepKeepsAccounts(env: Env, s: State, e: Event)
    requires UniqueUsernames(s.operators)
    ensures Step(env, s, e).operators.Keys == s.operators.Keys
  {
  }

  /** The checks on a stored row, one refusal each. */
  lemma AnswerForStored(env: Env, s: State, header: Option<string>, guard: RouteAccess)
    requires Cookie.Parsed(header).Some?
    requires var h := env.hashToken(Cookie.Parsed(header).value); h in s.sessions && s.sessions[h].operatorId in s.operators
    ensures var answer, session := Authorize(env, s, header, guard), s.sessions[env.hashToken(Cookie.Parsed(header).value)];
            var op := s.operators[session.operatorId];
            && (answer == Refused(SessionExpired) <==> session.expiresAt <= s.now)
            && (answer == Refused(AccountDisabled) <==> s.now < session.expiresAt && !op.enabled)
            && (answer == Refused(MissingPermission)
                <==> s.now < session.expiresAt && op.enabled && guard.NeedsPermission? && guard.permission !in op.permissions)
            && answer != Refused(NoSession)
            && (answer.Actor? ==> answer == Actor(session.operatorId, op.username, op.permissions))
  {
  }

  /**
   * The other side of `AuthorizedIff`: which refusal a request gets, on the history and the current rows.
   * No session, exactly when the header carries none that is live; expired, exactly when the live one is
   * out of time; disabled, exactly when it is in time and its operator disabled - whatever the route
   * asks for, so a disabled account never learns what it may do; and a missing permission only for an
   * enabled one. Who is let through acts under the current name and the current permissions.
   */
  lemma RefusedIff(env: Env, s0: State, events: seq<Event>, header: Option<string>, guard: RouteAccess)
    requires UniqueUsernames(s0.operators) && s0.sessions == map[] && s0.pending == map[]
    ensures var s := Run(env, s0, events);
            var answer := Authorize(env, s, header, guard);
            && (answer == Refused(NoSession) <==> !exists session :: Carries(env, s0, events, header, session))
            && (answer == Refused(SessionExpired)
                <==> exists session :: Carries(env, s0, events, header, session) && session.expiresAt <= s.now)
            && (answer == Refused(AccountDisabled)
                <==> exists session :: Carries(env, s0, events, header, session) && s.now < session.expiresAt
                                       && session.operatorId in s.operators && !s.operators[session.operatorId].enabled)
            && (answer == Refused(MissingPermission)
                <==> exists session :: Carries(env, s0, events, header, session) && s.now < session.expiresAt
                                       && session.operatorId in s.operators && s.operators[session.operatorId].enabled
                                       && guard.NeedsPermission?
                                       && guard.permission !in s.operators[session.operatorId].permissions)
            && (answer.Actor? ==>
                  && answer.id in s.operators
                  && answer.username == s.operators[answer.id].username
                  && answer.permissions == s.operators[answer.id].permissions)
  {
    var s, token := Run(env, s0, events), Cookie.Parsed(header);
    forall session
      ensures Carries(env, s0, events, header, session)
         <==> && token.Some?
              && env.hashToken(token.value) in s.sessions
              && s.sessions[env.hashToken(token.value)] == session
    {
      CarriedIsStored(env, s0, events, header, session);
    }
    if token.Some? && env.hashToken(token.value) in s.sessions {
      CarriedIsStored(env, s0, events, header, s.sessions[env.hashToken(token.value)]);
      AnswerForStored(env, s, header, guard);
    }
  }

  /** The decision chain, read off the current rows. */
  lemma AuthorizedBySession(env: Env, s: State, header: Option<string>, guard: RouteAccess, id: OperatorId)
    ensures (Authorize(env, s, header, guard).Actor? && Authorize(env, s, header, guard).id == id)
            <==> && Cookie.Parsed(header).Some?
                 && id in s.operators
                 && s.operators[id].enabled
                 && (guard.NeedsPermission? ==> guard.permission in s.operators[id].permissions)
                 && var h := env.hashToken(Cookie.Parsed(header).value);
                 && h in s.sessions
                 && s.sessions[h].operatorId == id
                 && s.now < s.sessions[h].expiresAt
  {
  }

  /** The clock reads what it started with or what some tick set, and never less than any of these. */
  lemma {:induction false} ClockIsTheLatestTick(env: Env, s0: State, events: seq<Event>)
    requires UniqueUsernames(s0.operators)
    ensures var now := Run(env, s0, events).now;
            && (now == s0.now || Tick(now) in events)
            && now >= s0.now && forall to | Tick(to) in events :: now >= to
  {
    if events != [] {
      var init, e := events[..|events| - 1], events[|events| - 1];
      assert events == init + [e];
      ClockIsTheLatestTick(env, s0, init);
      StepOnClock(env, Run(env, s0, init), e);
      TicksInLonger(init, e);
    }
  }

  lemma StepOnClock(env: Env, s: State, e: Event)
    requires UniqueUsernames(s.operators)
    ensures Step(env, s, e).now == if e.Tick? && e.to > s.now then e.to else s.now
  {
  }

  lemma TicksInLonger(init: seq<Event>, e: Event)
    ensures forall to :: Tick(to) in init + [e] <==> Tick(to) in init || e == Tick(to)
  {
  }

  lemma StepKeepsTheClockForward(env: Env, s: State, e: Event)
    requires UniqueUsernames(s.operators)
    ensures s.now <= Step(env, s, e).now
  {
  }

  lemma {:induction false} ClockNeverRunsBack(env: Env, s0: State, events: seq<Event>, i: nat)
    requires UniqueUsernames(s0.operators) && i <= |events|
    ensures Run(env, s0, events[..i]).now <= Run(env, s0, events).now
  {
    var n := |events|;
    if i < n {
      ClockNeverRunsBack(env, s0, events[..n - 1], i);
      assert events[..n - 1][..i] == events[..i];
      StepKeepsTheClockForward(env, Run(env, s0, events[..n - 1]), events[n - 1]);
    } else {
      assert events[..n] == events;
    }
  }

  const HOUR_MS := 60 * 60 * 1000

  /** ... and those eight hours count from the clock at the verification: whoever is authorized verified less than that ago. */
  lemma AuthorizedWithinEightHours(env: Env, s0: State, events: seq<Event>, header: Option<string>, guard: RouteAccess)
    requires UniqueUsernames(s0.operators) && s0.sessions == map[] && s0.pending == map[]
    requires Authorize(env, Run(env, s0, events), header, guard).Actor?
    ensures var s, id := Run(env, s0, events), Authorize(env, Run(env, s0, events), header, guard).id;
            exists i: nat, rid, session ::
              && VerifiedAt(env, s0, events, i, rid, env.hashToken(Cookie.Parsed(header).value), session)
              && session.operatorId == id
              && 0 <= s.now - Run(env, s0, events[..i]).now < 8 * HOUR_MS
  {
    var s, id := Run(env, s0, events), Authorize(env, Run(env, s0, events), header, guard).id;
    AuthorizedIff(env, s0, events, header, guard, id);
    var h := env.hashToken(Cookie.Parsed(header).value);
    var session :| LiveByHistory(env, s0, events, h, session) && session.operatorId == id && s.now < session.expiresAt;
    var i, rid := WhenVerified(env, s0, events, h, session);
    ClockNeverRunsBack(env, s0, events, i);
  }

  /** A session is refused as expired only eight hours after its login verified. */
  lemma ExpiredAfterEightHours(env: Env, s0: State, events: seq<Event>, header: Option<string>, guard: RouteAccess)
    requires UniqueUsernames(s0.operators) && s0.sessions == map[] && s0.pending == map[]
    requires Authorize(env, Run(env, s0, events), header, guard) == Refused(SessionExpired)
    ensures exists i: nat, rid, session ::
              && VerifiedAt(env, s0, events, i, rid, env.hashToken(Cookie.Parsed(header).value), session)
              && Carries(env, s0, events, header, session)
              && Run(env, s0, events).now - Run(env, s0, events[..i]).now >= 8 * HOUR_MS
  {
    RefusedIff(env, s0, events, header, guard);
    var session :| Carries(env, s0, events, header, session) && session.expiresAt <= Run(env, s0, events).now;
    var i, rid := WhenVerified(env, s0, events, env.hashToken(Cookie.Parsed(header).value), session);
  }

  lemma WhenVerified(env: Env, s0: State, events: seq<Event>, h: string, session: Session) returns (i: nat, rid: nat)
    requires UniqueUsernames(s0.operators) && LiveByHistory(env, s0, events, h, session)
    ensures VerifiedAt(env, s0, events, i, rid, h, session)
    ensures session.expiresAt == Run(env, s0, events[..i]).now + SESSION_MS
  {
    var k: nat :| InsertedAt(env, s0, events, k, h, session);
    rid := events[k].rid;
    i :| i < k && VerifiedAt(env, s0, events, i, rid, h, session);
  }

  // A logged-out token.

  ghost predicate FreshTokens(events: seq<Event>) {
    forall i, j | 0 <= i < j < |events| && events[i].Login? && events[j].Login? :: events[i].token != events[j].token
  }

  ghost predicate Injective(hash: string -> string) { forall a, b | hash(a) == hash(b) :: a == b }

  ghost predicate UsedHash(env: Env, events: seq<Event>, h: string) {
    exists i | 0 <= i < |events| :: events[i].Login? && env.hashToken(events[i].token) == h
  }

  ghost predicate Nowhere(s: State, h: string) {
    h !in s.sessions && forall rid | rid in s.pending :: s.pending[rid].tokenHash != h
  }

  /** Each token's hash is in at most one place, and only tokens already generated are anywhere. */
  ghost predicate OnePlaceEach(env: Env, s: State, events: seq<Event>) {
    && (forall h | h in s.sessions :: UsedHash(env, events, h))
    && (forall rid | rid in s.pending :: UsedHash(env, events, s.pending[rid].tokenHash) && s.pending[rid].tokenHash !in s.sessions)
    && (forall a, b | a in s.pending && b in s.pending && a != b :: s.pending[a].tokenHash != s.pending[b].tokenHash)
  }

  lemma UsedInLonger(env: Env, events: seq<Event>, e: Event, h: string)
    ensures UsedHash(env, events + [e], h) <==> UsedHash(env, events, h) || (e.Login? && env.hashToken(e.token) == h)
  {
    var all := events + [e];
    assert forall i | 0 <= i < |events| :: all[i] == events[i];
    if e.Login? && env.hashToken(e.token) == h {
      assert all[|events|] == e;
    }
  }

  lemma NewTokenIsUnused(env: Env, events: seq<Event>, e: Event)
    requires Injective(env.hashToken) && FreshTokens(events + [e]) && e.Login?
    ensures !UsedHash(env, events, env.hashToken(e.token))
  {
    var all := events + [e];
    assert all[|events|] == e;
    forall i | 0 <= i < |events| && events[i].Login?
      ensures events[i].token != e.token
    {
      assert all[i] == events[i];
    }
  }

  lemma UsedStaysUsed(env: Env, events: seq<Event>, e: Event)
    ensures forall h | UsedHash(env, events, h) :: UsedHash(env, events + [e], h)
  {
    forall h | UsedHash(env, events, h) ensures UsedHash(env, events + [e], h) {
      UsedInLonger(env, events, e, h);
    }
  }

  /** Where the step puts each token: a login at most adds its own as pending, and nothing else gains a place. */
  lemma PlacesAfterStep(env: Env, s: State, e: Event)
    requires UniqueUsernames(s.operators)
    ensures var s' := Step(env, s, e);
            && (forall rid | rid in s'.pending ::
                  || (rid in s.pending && s'.pending[rid] == s.pending[rid])
                  || (e.Login? && rid == e.rid && rid !in s.pending && s'.pending[rid].tokenHash == env.hashToken(e.token)))
            && (forall h | h in s'.sessions ::
                  || h in s.sessions
                  || (e.InsertSession? && e.rid in s.pending && e.rid !in s'.pending && h == s.pending[e.rid].tokenHash))
  {
  }

  lemma StepKeepsOnePlaceEach(env: Env, s: State, events: seq<Event>, e: Event)
    requires UniqueUsernames(s.operators) && Injective(env.hashToken) && FreshTokens(events + [e])
    requires OnePlaceEach(env, s, events)
    ensures OnePlaceEach(env, Step(env, s, e), events + [e])
  {
    var s' := Step(env, s, e);
    PlacesAfterStep(env, s, e);
    UsedStaysUsed(env, events, e);
    if e.Login? {
      NewTokenIsUnused(env, events, e);
      UsedInLonger(env, events, e, env.hashToken(e.token));
    }
    PlacesGiveOnePlaceEach(env, s, s', events, e);
  }

  lemma PlacesGiveOnePlaceEach(env: Env, s: State, s': State, events: seq<Event>, e: Event)
    requires OnePlaceEach(env, s, events)
    requires forall h | UsedHash(env, events, h) :: UsedHash(env, events + [e], h)
    requires e.Login? ==> !UsedHash(env, events, env.hashToken(e.token)) && UsedHash(env, events + [e], env.hashToken(e.token))
    requires forall rid | rid in s'.pending ::
               || (rid in s.pending && s'.pending[rid] == s.pending[rid])
               || (e.Login? && rid == e.rid && rid !in s.pending && s'.pending[rid].tokenHash == env.hashToken(e.token))
    requires forall h | h in s'.sessions ::
               || h in s.sessions
               || (e.InsertSession? && e.rid in s.pending && e.rid !in s'.pending && h == s.pending[e.rid].tokenHash)
    ensures OnePlaceEach(env, s', events + [e])
  {
  }

  lemma {:induction false} RunKeepsOnePlaceEach(env: Env, s0: State, events: seq<Event>)
    requires UniqueUsernames(s0.operators) && s0.sessions == map[] && s0.pending == map[]
    requires Injective(env.hashToken) && FreshTokens(events)
    ensures OnePlaceEach(env, Run(env, s0, events), events)
  {
    if events != [] {
      var init, e := events[..|events| - 1], events[|events| - 1];
      assert events == init + [e];
      RunKeepsOnePlaceEach(env, s0, init);
      StepKeepsOnePlaceEach(env, Run(env, s0, init), init, e);
    }
  }

  lemma UsedInPrefix(env: Env, a: seq<Event>, b: seq<Event>, h: string)
    requires UsedHash(env, a, h)
    ensures UsedHash(env, a + b, h)
  {
    var i :| 0 <= i < |a| && a[i].Login? && env.hashToken(a[i].token) == h;
    assert (a + b)[i] == a[i];
  }

  lemma StepKeepsNowhere(env: Env, s: State, e: Event, h: string)
    requires UniqueUsernames(s.operators) && Nowhere(s, h)
    requires e.Login? ==> env.hashToken(e.token) != h
    ensures Nowhere(Step(env, s, e), h)
  {
    PlacesAfterStep(env, s, e);
  }

  /** A used hash that is nowhere stays nowhere. */
  lemma {:induction false} GoneStaysGone(env: Env, s0: State, a: seq<Event>, b: seq<Event>, h: string)
    requires UniqueUsernames(s0.operators) && Injective(env.hashToken) && FreshTokens(a + b)
    requires UsedHash(env, a, h) && Nowhere(Run(env, s0, a), h)
    ensures Nowhere(Run(env, s0, a + b), h)
  {
    if b == [] {
      assert a + b == a;
    } else {
      var init, e := b[..|b| - 1], b[|b| - 1];
      var all, prefix := a + b, a + init;
      assert all == prefix + [e] && all[..|all| - 1] == prefix && all[|all| - 1] == e;
      FreshInPrefix(prefix, [e]);
      GoneStaysGone(env, s0, a, init, h);
      if e.Login? {
        NewTokenIsUnused(env, prefix, e);
        UsedInPrefix(env, a, init, h);
      }
      StepKeepsNowhere(env, Run(env, s0, prefix), e, h);
    }
  }

  lemma FreshInPrefix(a: seq<Event>, b: seq<Event>)
    requires FreshTokens(a + b)
    ensures FreshTokens(a)
  {
    assert forall i | 0 <= i < |a| :: (a + b)[i] == a[i];
  }

  /** Once a live session's token is logged out, no later request with it is ever authorized. */
  lemma LoggedOutStaysOut(env: Env, s0: State, a: seq<Event>, b: seq<Event>, out: Option<string>,
                          header: Option<string>, guard: RouteAccess)
    requires UniqueUsernames(s0.operators) && s0.sessions == map[] && s0.pending == map[]
    requires Injective(env.hashToken) && FreshTokens(a + [Logout(out)] + b)
    requires Cookie.Parsed(out).Some? && Cookie.Parsed(header) == Cookie.Parsed(out)
    requires env.hashToken(Cookie.Parsed(out).value) in Run(env, s0, a).sessions
    ensures Authorize(env, Run(env, s0, a + [Logout(out)] + b), header, guard) == Refused(NoSession)
  {
    var h, e := env.hashToken(Cookie.Parsed(out).value), Logout(out);
    var all := a + [e];
    FreshInPrefix(all, b);
    FreshInPrefix(a, [e]);
    RunKeepsOnePlaceEach(env, s0, a);
    assert all[..|a|] == a;
    UsedInLonger(env, a, e, h);
    assert Nowhere(Run(env, s0, all), h);
    GoneStaysGone(env, s0, all, b, h);
  }

  /** Someone else who is enabled and holds the permission the guard protects. */
  predicate AnotherManages(ops: map<OperatorId, Operator>, id: OperatorId) {
    exists other | other in ops :: other != id && ops[other].enabled && "operators.manage" in ops[other].permissions
  }

  /** What the guard refuses: disabling the last who manages accounts, or taking the right to from them. */
  lemma GuardRefusesTheLast(s: State, id: OperatorId, p: Permission)
    requires id in s.operators
    ensures DisableTakesEffect(s, id) <==> AnotherManages(s.operators, id)
    ensures p == MANAGE ==> (RevokeTakesEffect(s, id, p) <==> AnotherManages(s.operators, id))
    ensures p != MANAGE ==> (RevokeTakesEffect(s, id, p) <==> HasManager(s.operators))
  {
    var op := s.operators[id];
    ManagersWith(s.operators, id, op.(enabled := false));
    ManagersWith(s.operators, id, op.(permissions := op.permissions - {p}));
    ManagersWith(s.operators, id, op);
    assert s.operators[id := op] == s.operators;
  }

  lemma ManagersWith(ops: map<OperatorId, Operator>, id: OperatorId, op: Operator)
    ensures HasManager(ops[id := op]) <==> (op.enabled && MANAGE in op.permissions) || AnotherManages(ops, id)
  {
    var changed := ops[id := op];
    if op.enabled && MANAGE in op.permissions { assert id in changed && changed[id] == op; }
    if AnotherManages(ops, id) {
      var other :| other in ops && other != id && ops[other].enabled && MANAGE in ops[other].permissions;
      assert other in changed && changed[other] == ops[other];
    }
    if HasManager(changed) {
      var any :| any in changed && changed[any].enabled && MANAGE in changed[any].permissions;
      assert any == id || (any in ops && changed[any] == ops[any]);
    }
  }

  /** An operator able to manage accounts is never lost once there is one. */
  lemma {:induction false} ManagerNeverLost(env: Env, s0: State, events: seq<Event>)
    requires UniqueUsernames(s0.operators) && HasManager(s0.operators)
    ensures HasManager(Run(env, s0, events).operators)
  {
    if events != [] {
      ManagerNeverLost(env, s0, events[..|events| - 1]);
      StepKeepsManager(env, Run(env, s0, events[..|events| - 1]), events[|events| - 1]);
    }
  }

  lemma StepKeepsManager(env: Env, s: State, e: Event)
    requires UniqueUsernames(s.operators) && HasManager(s.operators)
    ensures HasManager(Step(env, s, e).operators)
  {
    var id :| id in s.operators && s.operators[id].enabled && MANAGE in s.operators[id].permissions;
    assert id in Step(env, s, e).operators;
  }

  // Accounts, permissions and the clock, told from the history.

  /** What the last effective enable or disable of this account made it. */
  predicate LastSwitch(env: Env, s0: State, events: seq<Event>, id: OperatorId)
    requires UniqueUsernames(s0.operators) && id in s0.operators
  {
    if events == [] then s0.operators[id].enabled
    else
      var n := |events| - 1;
      var before, e := Run(env, s0, events[..n]), events[n];
      if e == Enable(id) then true
      else if e == Disable(id) && DisableTakesEffect(before, id) then false
      else LastSwitch(env, s0, events[..n], id)
  }

  /** A revoke takes effect unless it would leave nobody able to manage accounts. */
  predicate RevokeTakesEffect(s: State, id: OperatorId, p: Permission) {
    id in s.operators
    && HasManager(s.operators[id := s.operators[id].(permissions := s.operators[id].permissions - {p})])
  }

  /** What the last grant or effective revoke of this permission left. */
  predicate LastGrant(env: Env, s0: State, events: seq<Event>, id: OperatorId, p: Permission)
    requires UniqueUsernames(s0.operators) && id in s0.operators
  {
    if events == [] then p in s0.operators[id].permissions
    else
      var n := |events| - 1;
      var before, e := Run(env, s0, events[..n]), events[n];
      if e == Grant(id, p) then true
      else if e == Revoke(id, p) && RevokeTakesEffect(before, id, p) then false
      else LastGrant(env, s0, events[..n], id, p)
  }

  lemma StepOnAccount(env: Env, s: State, e: Event, id: OperatorId, p: Permission)
    requires UniqueUsernames(s.operators) && id in s.operators
    ensures id in Step(env, s, e).operators
    ensures var op, op' := s.operators[id], Step(env, s, e).operators[id];
            && op'.username == op.username && op'.passwordHash == op.passwordHash
            && op'.enabled == (if e == Enable(id) then true
                               else if e == Disable(id) && DisableTakesEffect(s, id) then false
                               else op.enabled)
            && (p in op'.permissions <==> if e == Grant(id, p) then true
                                          else if e == Revoke(id, p) && RevokeTakesEffect(s, id, p) then false
                                          else p in op.permissions)
  {
  }

  /** The flag and the permissions `AuthorizedIff` asks about are those the last effective change left. */
  lemma {:induction false} AccountsFollowTheirHistory(env: Env, s0: State, events: seq<Event>, id: OperatorId, p: Permission)
    requires UniqueUsernames(s0.operators) && id in s0.operators
    ensures var s := Run(env, s0, events);
            && id in s.operators
            && (s.operators[id].enabled <==> LastSwitch(env, s0, events, id))
            && (p in s.operators[id].permissions <==> LastGrant(env, s0, events, id, p))
            && s.operators[id].username == s0.operators[id].username
            && s.operators[id].passwordHash == s0.operators[id].passwordHash
  {
    if events != [] {
      var n := |events| - 1;
      AccountsFollowTheirHistory(env, s0, events[..n], id, p);
      StepOnAccount(env, Run(env, s0, events[..n]), events[n], id, p);
    }
  }

  // The login handler's books.

  /** The login requests of a run of which this is true. */
  function Logins(env: Env, s0: State, events: seq<Event>, which: Event -> bool): nat
    requires UniqueUsernames(s0.operators)
  {
    if events == [] then 0
    else
      var n := |events| - 1;
      Logins(env, s0, events[..n], which)
      + if events[n].Login? && which(events[n]) && events[n].rid !in Run(env, s0, events[..n]).pending then 1 else 0
  }

  /**
   * One comparison per granted request, whether the account is absent, disabled or real; and every
   * comparison that verified on an enabled account becomes one session row, apart from the inserts
   * still on their way and those the table refused.
   */
  lemma {:induction false} LoginBooksBalance(env: Env, ops: map<OperatorId, Operator>, now: int, events: seq<Event>)
    requires UniqueUsernames(ops)
    ensures var s := Run(env, Start(ops, now), events);
            && s.tally.comparisons == s.tally.granted == Logins(env, Start(ops, now), events, Granted)
            && s.tally.ipConsulted == Logins(env, Start(ops, now), events, AsksAddressLimiter)
            && s.tally.userConsulted == Logins(env, Start(ops, now), events, AsksUsernameLimiter)
            && s.tally.verified == s.tally.created + |s.pending| + s.tally.failedInserts
  {
    if events != [] {
      var n := |events| - 1;
      LoginBooksBalance(env, ops, now, events[..n]);
      StepBalances(env, Run(env, Start(ops, now), events[..n]), events[n]);
    }
  }

  lemma StepBalances(env: Env, s: State, e: Event)
    requires UniqueUsernames(s.operators)
    ensures var t, t' := s.tally, Step(env, s, e).tally;
            var fresh_ := e.Login? && e.rid !in s.pending;
            var consumed := if fresh_ && Granted(e) then 1 else 0;
            && t'.ipConsulted == t.ipConsulted + (if fresh_ && AsksAddressLimiter(e) then 1 else 0)
            && t'.userConsulted == t.userConsulted + (if fresh_ && AsksUsernameLimiter(e) then 1 else 0)
            && t'.granted == t.granted + consumed
            && t'.comparisons == t.comparisons + consumed
            && t'.verified - t.verified
               == t'.created + |Step(env, s, e).pending| + t'.failedInserts - t.created - |s.pending| - t.failedInserts
  {
    if e.InsertSession? && e.rid in s.pending {
      assert |(s.pending - {e.rid}).Keys| == |s.pending.Keys - {e.rid}|;
    }
  }

  /**
   * Over any run, each complete request either was stopped by its address and spent nothing of any
   * username's budget, or spent one unit of its username's - and only those can have cost a comparison.
   */
  lemma {:induction false} RefusedAddressesSpendNoUsername(env: Env, s0: State, events: seq<Event>)
    requires UniqueUsernames(s0.operators)
    ensures Logins(env, s0, events, CompleteLogin)
         == Logins(env, s0, events, StoppedByAddress) + Logins(env, s0, events, AsksUsernameLimiter)
    ensures Logins(env, s0, events, Granted) <= Logins(env, s0, events, AsksUsernameLimiter)
  {
    if events != [] { RefusedAddressesSpendNoUsername(env, s0, events[..|events| - 1]); }
  }

  /**
   * The row is inserted after the account was read. A disable that lands in between finds no row to
   * delete, so the session exists once the account is enabled again: "not disabled since the login
   * verified" is stronger than what holds, and `AuthorizedIff` counts from the insert instead.
   */
  lemma DisableBetweenVerifyAndInsert(env: Env, ops: map<OperatorId, Operator>, id: OperatorId, boss: OperatorId, now: int)
    requires UniqueUsernames(ops)
    requires id in ops && ops[id].enabled && ops[id].username != "" && env.compare("pw", ops[id].passwordHash)
    requires boss in ops && boss != id && ops[boss].enabled && MANAGE in ops[boss].permissions
    ensures var login := Login(0, Some(ops[id].username), Some("pw"), None, false, true, "t");
            var s := Run(env, Start(ops, now), [login, Disable(id), InsertSession(0), Enable(id)]);
            env.hashToken("t") in s.sessions && s.sessions[env.hashToken("t")].operatorId == id
            && id in s.operators && s.operators[id].enabled
  {
    var s0 := Start(ops, now);
    var login := Login(0, Some(ops[id].username), Some("pw"), None, false, true, "t");
    FourSteps(env, s0, login, Disable(id), InsertSession(0), Enable(id));
    var s1 := Step(env, s0, login);
    LoginPends(env, ops, id, now);
    var s2 := Step(env, s1, Disable(id));
    assert boss in s1.operators[id := s1.operators[id].(enabled := false)];
    assert DisableTakesEffect(s1, id) && s2.pending == s1.pending;
    var s3 := Step(env, s2, InsertSession(0));
    assert s3.sessions[env.hashToken("t")].operatorId == id;
  }

  lemma LoginPends(env: Env, ops: map<OperatorId, Operator>, id: OperatorId, now: int)
    requires UniqueUsernames(ops)
    requires id in ops && ops[id].enabled && ops[id].username != "" && env.compare("pw", ops[id].passwordHash)
    ensures var s := Step(env, Start(ops, now), Login(0, Some(ops[id].username), Some("pw"), None, false, true, "t"));
            && s.pending == map[0 := PendingLogin(env.hashToken("t"), Session(id, now, now + SESSION_MS))]
            && s.operators == ops && s.sessions == map[] && s.now == now
  {
    assert Named(ops, ops[id].username, id);
    assert FindByUsername(ops, ops[id].username) == Some(id);
  }

  lemma FourSteps(env: Env, s: State, e0: Event, e1: Event, e2: Event, e3: Event)
    requires UniqueUsernames(s.operators)
    ensures Run(env, s, [e0]) == Step(env, s, e0)
    ensures Run(env, s, [e0, e1]) == Step(env, Run(env, s, [e0]), e1)
    ensures Run(env, s, [e0, e1, e2]) == Step(env, Run(env, s, [e0, e1]), e2)
    ensures Run(env, s, [e0, e1, e2, e3]) == Step(env, Run(env, s, [e0, e1, e2]), e3)
  {
    assert [] + [e0] == [e0] && [e0] + [e1] == [e0, e1] && [e0, e1] + [e2] == [e0, e1, e2];
    assert [e0, e1, e2] + [e3] == [e0, e1, e2, e3];
    RunOneMore(env, s, [], e0);
    RunOneMore(env, s, [e0], e1);
    RunOneMore(env, s, [e0, e1], e2);
    RunOneMore(env, s, [e0, e1, e2], e3);
  }

  lemma RunOneMore(env: Env, s: State, events: seq<Event>, e: Event)
    requires UniqueUsernames(s.operators)
    ensures Run(env, s, events + [e]) == Step(env, Run(env, s, events), e)
  {
    assert (events + [e])[..|events|] == events;
  }
}
