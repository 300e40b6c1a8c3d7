/**
 * The handlers as they change the store: the two limiters asked in order, exactly one comparison, the
 * session row, the logout and the per-request check. Each is tied to the step it takes in a run.
 */
module AdminServer {
  import opened Optional
  import opened OperatorSessions
  import Cookie = SessionCookie

  /** What a login answers at once; a verified one answers 200 when its row is in. */
  datatype LoginAnswer = BadRequest | RateLimited | InvalidCredentials | Verified

  class AdminServer {
    const env: Env
    var operators: map<OperatorId, Operator>
    var sessions: map<string, Session>
    var pending: map<nat, PendingLogin>
    var now: int
    var ipConsulted: nat
    var userConsulted: nat
    var granted: nat
    var comparisons: nat
    var verified: nat
    var created: nat
    var failedInserts: nat

    ghost predicate Valid() reads this { UniqueUsernames(operators) }

    ghost function Contents(): State reads this {
      State(operators, sessions, pending, now, Tally(ipConsulted, userConsulted, granted, comparisons, verified, created, failedInserts))
    }

    constructor (env: Env, operators: map<OperatorId, Operator>, now: int)
      requires UniqueUsernames(operators)
      ensures Valid() && this.env == env && Contents() == Start(operators, now)
    {
      this.env, this.operators, this.now := env, operators, now;
      sessions, pending := map[], map[];
      ipConsulted, userConsulted, granted, comparisons, verified, created, failedInserts := 0, 0, 0, 0, 0, 0, 0;
    }

    /** `ipLimiter.tryConsume`, with the answer it will give. */
    method ConsumeAddress(answer: bool) returns (granted: bool)
      modifies this`ipConsulted
      ensures granted == answer && ipConsulted == old(ipConsulted) + 1
    {
      ipConsulted := ipConsulted + 1;
      granted := answer;
    }

    /** `userLimiter.tryConsume`. */
    method ConsumeUsername(answer: bool) returns (granted: bool)
      modifies this`userConsulted
      ensures granted == answer && userConsulted == old(userConsulted) + 1
    {
      userConsulted := userConsulted + 1;
      granted := answer;
    }

    /** The injected comparator; every comparison there is goes through here. */
    method Compare(password: string, stored: string) returns (same: bool)
      modifies this`comparisons
      ensures same == env.compare(password, stored) && comparisons == old(comparisons) + 1
    {
      comparisons := comparisons + 1;
      same := env.compare(password, stored);
    }

    /** One comparison on every path; only an enabled account's own hash can answer yes. */
    method AuthenticateOperator(op: Option<Operator>, password: string) returns (ok: bool)
      modifies this`comparisons
      ensures comparisons == old(comparisons) + 1
      ensures ok <==> op.Some? && op.value.enabled && env.compare(password, op.value.passwordHash)
    {
      if op.None? || !op.value.enabled {
        var _ := Compare(password, env.dummy);
        return false;
      }
      ok := Compare(password, op.value.passwordHash);
    }

    /** The address first, if there is one; the username only if the address was not refused. */
    method ConsultLimiters(ip: Option<string>, ipGrants: bool, userGrants: bool) returns (allowed: bool)
      modifies this`ipConsulted, this`userConsulted
      ensures allowed <==> (ip.Some? ==> ipGrants) && userGrants
      ensures ipConsulted == old(ipConsulted) + if ip.Some? then 1 else 0
      ensures userConsulted == old(userConsulted) + if ip.Some? && !ipGrants then 0 else 1
    {
      if ip.Some? {
        allowed := ConsumeAddress(ipGrants);
        if !allowed { return; }
      }
      allowed := ConsumeUsername(userGrants);
    }

    /**
     * Each refusal leaves before the work behind it: no limiter for missing credentials, no username
     * limiter past an address that was refused, no comparison past either, no session for a password
     * that did not verify.
     */
    method HandleLoginRequest(rid: nat, username: Option<string>, password: Option<string>, ip: Option<string>,
                              ipGrants: bool, userGrants: bool, token: string) returns (answer: LoginAnswer)
      requires Valid() && rid !in pending
      modifies this`ipConsulted, this`userConsulted, this`granted, this`comparisons, this`verified, this`pending
      ensures Valid()
      ensures Contents() == Step(env, old(Contents()), Login(rid, username, password, ip, ipGrants, userGrants, token))
      ensures answer.BadRequest? <==> !Complete(username, password)
      ensures answer.BadRequest? ==> ipConsulted == old(ipConsulted) && userConsulted == old(userConsulted)
      ensures ip.Some? && !ipGrants ==> userConsulted == old(userConsulted)
      ensures answer.RateLimited? ==> comparisons == old(comparisons)
      ensures answer.Verified? <==> rid in pending
      ensures comparisons - old(comparisons) == if answer.InvalidCredentials? || answer.Verified? then 1 else 0
      ensures !answer.Verified? ==> pending == old(pending)
    {
      ghost var e := Event.Login(rid, username, password, ip, ipGrants, userGrants, token);
      if username.None? || password.None? || username.value == "" || password.value == "" { return BadRequest; }
      var allowed := ConsultLimiters(ip, ipGrants, userGrants);
      assert allowed == Granted(e);
      if !allowed { return RateLimited; }
      granted := granted + 1;
      var ok := Verify(rid, username.value, password.value, token);
      answer := if ok then Verified else InvalidCredentials;
    }

    /** What both limiters let through: the account's row, one comparison, and a token only if it says yes. */
    method Verify(rid: nat, username: string, password: string, token: string) returns (ok: bool)
      requires Valid() && rid !in pending
      modifies this`comparisons, this`verified, this`pending
      ensures var id := FindByUsername(operators, username);
              ok <==> Authenticates(env, if id.Some? then Some(operators[id.value]) else None, password)
      ensures comparisons == old(comparisons) + 1 && verified == old(verified) + if ok then 1 else 0
      ensures var id := FindByUsername(operators, username);
              pending == if ok then old(pending)[rid := PendingLogin(env.hashToken(token), Session(id.value, now, now + SESSION_MS))]
                         else old(pending)
    {
      var id := FindByUsername(operators, username);
      var op := if id.Some? then Some(operators[id.value]) else None;
      ok := AuthenticateOperator(op, password);
      if !ok { return; }
      verified := verified + 1;
      pending := pending[rid := PendingLogin(env.hashToken(token), Session(id.value, now, now + SESSION_MS))];
    }

    /** The awaited insert; the token hash is the table's key, so a second row under it is refused. */
    method CreateSession(rid: nat) returns (ok: bool)
      requires Valid() && rid in pending
      modifies this`sessions, this`pending, this`created, this`failedInserts
      ensures Valid()
      ensures Contents() == Step(env, old(Contents()), InsertSession(rid))
      ensures ok <==> old(pending[rid].tokenHash !in sessions)
    {
      var p := pending[rid];
      pending := pending - {rid};
      ok := p.tokenHash !in sessions;
      if ok {
        sessions, created := sessions[p.tokenHash := p.session], created + 1;
      } else {
        failedInserts := failedInserts + 1;
      }
    }

    method HandleLogoutRequest(header: Option<string>)
      requires Valid()
      modifies this`sessions
      ensures Valid()
      ensures Contents() == Step(env, old(Contents()), Logout(header))
      ensures forall guard :: Authorize(env, Contents(), header, guard) == Refused(NoSession)
    {
      var token := Cookie.ParseSessionCookie(header);
      if token.Some? { sessions := sessions - {env.hashToken(token.value)}; }
    }

    /** The flag and the session rows change in one transaction, or neither does. */
    method DisableOperator(id: OperatorId) returns (ok: bool)
      requires Valid()
      modifies this`operators, this`sessions
      ensures Valid()
      ensures Contents() == Step(env, old(Contents()), Disable(id))
      ensures ok ==> forall h | h in sessions :: sessions[h].operatorId != id
      ensures !ok ==> operators == old(operators) && sessions == old(sessions)
    {
      if id !in operators { return false; }
      var changed := operators[id := operators[id].(enabled := false)];
      ok := HasManager(changed);
      if ok {
        operators := changed;
        sessions := map h | h in sessions && sessions[h].operatorId != id :: sessions[h];
      }
    }
  }
}
