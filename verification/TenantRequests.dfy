/**
 * What the six write requests do, end to end and over whole runs, said on the requests themselves: which
 * are turned away and how, which tenant and which field a stored one changes, what its audit row holds
 * and which status each answer has.
 */
module TenantRequests {
  import opened Optional
  import opened Tenants
  import opened TenantAudit
  import Text

  // ----- what a request asks for -----------------------------------------------------

  /** The tenant a request names; a creation's identifier is trimmed. */
  function Target(r: Request): Option<string> {
    match r
    case CreateRequest(raw, _) =>
      if raw.Some? && raw.value.JString? && Text.Trim(raw.value.s) != "" then Some(Text.Trim(raw.value.s)) else None
    case OriginsRequest(id, _) => NonEmpty(id)
    case GamesRequest(id, _) => NonEmpty(id)
    case WindowRequest(id, _) => NonEmpty(id)
    case RotateRequest(id, _) => NonEmpty(id)
    case ThemeRequest(id, _) => NonEmpty(id)
  }

  function NonEmpty(id: Option<string>): Option<string> { if id == Some("") then None else id }

  /** The error a malformed request is answered with, if it is malformed. */
  function Fault(env: Env, r: Request): Option<string> {
    if Target(r).None? then Some("missing-tenant-id")
    else if r.OriginsRequest? && !IsStringArray(r.origins) then Some("invalid-origins")
    else if r.GamesRequest? && !IsStringArray(r.games) then Some("invalid-games")
    else if r.WindowRequest? && PaidThrough(env, r).None? then Some("invalid-window")
    else if r.ThemeRequest? && r.theme.Some? && !r.theme.value.JObject? && !r.theme.value.JArray? then Some("invalid-theme")
    else None
  }

  /** The instant a window request's date stands for, if it is a date. */
  function PaidThrough(env: Env, r: Request): Option<int>
    requires r.WindowRequest?
  {
    if r.validUntil.Some? && r.validUntil.value.JString? && r.validUntil.value.s != ""
    then env.toInstant(r.validUntil.value.s) else None
  }

  predicate Sensible(env: Env, r: Request) { Fault(env, r).None? }

  /** The tenant is as it was but for what the request asks: one field, or everything for a creation. */
  predicate CarriedOut(env: Env, r: Request, t: Table, now: Tenant)
    requires Sensible(env, r)
  {
    var id := Target(r).value;
    match r
    case CreateRequest(_, key) => id !in t && now == Tenant(id, key, [], [], None, None, env.sanitize(None))
    case OriginsRequest(_, origins) => id in t && now == t[id].(allowedOrigins := Strings(origins.value))
    case GamesRequest(_, games) => id in t && now == t[id].(entitledGames := Strings(games.value))
    case WindowRequest(_, _) => id in t && now == t[id].(validUntil := PaidThrough(env, r))
    case RotateRequest(_, key) => id in t && now == t[id].(embedKey := key)
    case ThemeRequest(_, raw) => id in t && now == t[id].(theme := env.sanitize(raw))
  }

  /** No other tenant changes. */
  predicate ChangedAsAsked(env: Env, r: Request, t: Table, t': Table)
    requires Sensible(env, r)
  {
    var id := Target(r).value;
    id in t' && t' == t[id := t'[id]] && CarriedOut(env, r, t, t'[id])
  }

  /** The action a row names and what it records under `after`: the field asked for, or a creation's identifier and key. */
  predicate Recorded(env: Env, r: Request, action: string, changes: map<string, Change>)
    requires Sensible(env, r)
  {
    match r
    case CreateRequest(_, key) =>
      && action == "tenant.created" && changes.Keys == {"id", "embedKey"}
      && changes["id"].after == JString(Target(r).value) && changes["embedKey"].after == JString(key)
    case OriginsRequest(_, origins) =>
      action == "tenant.origins.updated" && changes.Keys == {"allowedOrigins"} && changes["allowedOrigins"].after == origins.value
    case GamesRequest(_, games) =>
      action == "tenant.games.updated" && changes.Keys == {"entitledGames"} && changes["entitledGames"].after == games.value
    case WindowRequest(_, _) =>
      && action == "tenant.window.updated" && changes.Keys == {"validUntil"}
      && changes["validUntil"].after == JNumber(PaidThrough(env, r).value)
    case RotateRequest(_, key) =>
      action == "tenant.embed-key.rotated" && changes.Keys == {"embedKey"} && changes["embedKey"].after == JString(key)
    case ThemeRequest(_, raw) =>
      action == "tenant.theme.updated" && changes.Keys == {"theme"} && changes["theme"].after == OrNull(raw)
  }

  predicate RowRecords(env: Env, r: Request, actor: Actor, now: int, row: AuditRow)
    requires Sensible(env, r)
  {
    && row.occurredAt == now && row.actorId == actor.id && row.actorUsername == actor.username
    && row.targetTenantId == Target(r) && row.targetOperatorId.None?
    && row.changes.Some? && Recorded(env, r, row.action, row.changes.value)
  }

  // ----- receiving -------------------------------------------------------------------

  /** Exactly the malformed requests are answered at once, each with its error; the others are held for their commit. */
  lemma MalformedIsAnswered(env: Env, t: Table, r: Request)
    ensures var fault := Fault(env, r);
            if fault.Some? then Prepare(env, t, r) == Answer(400, fault.value) else Prepare(env, t, r).Ready?
  {
  }

  lemma ReceivingAnswers(env: Env, s: State, rid: nat, actor: Actor, r: Request)
    requires rid !in s.pending
    ensures Respond(env, s, Receive(rid, actor, r)) == if Sensible(env, r) then None else Some(400)
    ensures rid in Step(env, s, Receive(rid, actor, r)).pending <==> Sensible(env, r)
  {
    MalformedIsAnswered(env, s.tenants, r);
  }

  /** The request was received at step `i`, under a number not in use, and has been neither committed nor failed since. */
  ghost predicate HeldSince(env: Env, t0: Table, events: seq<Event>, i: nat, rid: nat, actor: Actor, r: Request) {
    && i < |events|
    && events[i] == Receive(rid, actor, r) && Sensible(env, r)
    && rid !in Run(env, Start(t0), events[..i]).pending
    && forall k | i < k < |events| :: !Settles(events[k], rid)
  }

  predicate Settles(e: Event, rid: nat) { (e.Commit? || e.Fail?) && e.rid == rid }

  lemma HeldInLonger(env: Env, t0: Table, events: seq<Event>, e: Event, i: nat, rid: nat, actor: Actor, r: Request)
    requires HeldSince(env, t0, events, i, rid, actor, r) && !Settles(e, rid)
    ensures HeldSince(env, t0, events + [e], i, rid, actor, r)
  {
    assert (events + [e])[..i] == events[..i];
  }

  lemma HeldFromHere(env: Env, t0: Table, events: seq<Event>, rid: nat, actor: Actor, r: Request)
    requires rid !in Run(env, Start(t0), events).pending && Sensible(env, r)
    ensures HeldSince(env, t0, events + [Receive(rid, actor, r)], |events|, rid, actor, r)
  {
    assert (events + [Receive(rid, actor, r)])[..|events|] == events;
  }

  /** What is pending is what a request asked for, and nothing has settled it. */
  lemma {:induction false} PendingIsHeld(env: Env, t0: Table, events: seq<Event>, rid: nat)
    requires rid in Run(env, Start(t0), events).pending
    ensures var p := Run(env, Start(t0), events).pending[rid];
            && p.write.Ready? && Sensible(env, p.request)
            && exists i: nat :: HeldSince(env, t0, events, i, rid, p.actor, p.request)
  {
    var init, e := events[..|events| - 1], events[|events| - 1];
    assert events == init + [e];
    var s, p := Run(env, Start(t0), init), Run(env, Start(t0), events).pending[rid];
    if rid in s.pending {
      PendingIsHeld(env, t0, init, rid);
      var i: nat :| HeldSince(env, t0, init, i, rid, s.pending[rid].actor, s.pending[rid].request);
      assert !Settles(e, rid) && p == s.pending[rid];
      HeldInLonger(env, t0, init, e, i, rid, p.actor, p.request);
    } else {
      MalformedIsAnswered(env, s.tenants, p.request);
      HeldFromHere(env, t0, init, rid, p.actor, p.request);
    }
  }

  // ----- committing ------------------------------------------------------------------

  /** A pending write computed at some read, with nothing taken from that read but the unchanging `validFrom`. */
  ghost predicate PreparedFor(env: Env, t: Table, read: Table, r: Request, w: Prepared) {
    Sensible(env, r) && w == Prepare(env, read, r) && w.Ready? && ValidFrom(read, w.mutation.id) == ValidFrom(t, w.mutation.id)
  }

  /** Storing a prepared write carries the request out on the table as it is then, and its row records just that. */
  lemma StoredIsCarriedOut(env: Env, t: Table, read: Table, r: Request, w: Prepared)
    requires WellKeyed(t) && PreparedFor(env, t, read, r, w) && Apply(env.sanitize, t, w.mutation).Stored?
    ensures var o := Apply(env.sanitize, t, w.mutation);
            && w.mutation.id == Target(r).value
            && After(t, o) == t[Target(r).value := o.tenant]
            && CarriedOut(env, r, t, o.tenant)
    ensures Recorded(env, r, w.action, w.changes)
  {
  }

  /** The status of a committed request, said on the table it met: conflict, absence, a window ending before it starts. */
  function CommitStatus(env: Env, t: Table, r: Request): int
    requires Sensible(env, r)
  {
    var id := Target(r).value;
    match r
    case CreateRequest(_, key) => if id in t || KeyInUse(t, key, id) then 409 else 201
    case RotateRequest(_, key) => if id !in t then 404 else if KeyInUse(t, key, id) then 409 else 200
    case WindowRequest(_, _) =>
      if id !in t then 404
      else if t[id].validFrom.Some? && PaidThrough(env, r).value <= t[id].validFrom.value then 400
      else 200
    case _ => if id !in t then 404 else 200
  }

  /** Some other tenant embeds with this key. */
  predicate KeyInUse(t: Table, key: string, id: string) { exists other | other in t :: t[other].embedKey == key && other != id }

  lemma CommitAnswers(env: Env, t: Table, read: Table, r: Request, w: Prepared)
    requires WellKeyed(t) && PreparedFor(env, t, read, r, w)
    ensures var o := Apply(env.sanitize, t, w.mutation);
            CommitStatus(env, t, r) == if o.Refused? then RefusalStatus(w.mutation, o.reason)
                                       else if w.mutation.CreateTenant? then 201 else 200
  {
    match r
    case WindowRequest(_, _) => WindowAnswers(env, t, read, r, w);
    case _ =>
  }

  lemma WindowAnswers(env: Env, t: Table, read: Table, r: Request, w: Prepared)
    requires WellKeyed(t) && PreparedFor(env, t, read, r, w) && r.WindowRequest?
    ensures var o := Apply(env.sanitize, t, w.mutation);
            CommitStatus(env, t, r) == if o.Refused? then RefusalStatus(w.mutation, o.reason) else 200
  {
  }

  lemma PendingIsPrepared(env: Env, t0: Table, s: State, p: Pending)
    requires Inv(env, t0, s) && Remembers(env, t0, s.audit, p) && Sensible(env, p.request)
    ensures PreparedFor(env, s.tenants, Replay(env.sanitize, t0, s.audit[..p.readAt]), p.request, p.write)
  {
    var id := p.write.mutation.id;
    assert FromKept(env, t0, s.audit[..p.readAt]);
    assert s.audit[..|s.audit|] == s.audit && FromKept(env, t0, s.audit[..|s.audit|]);
    assert ValidFrom(Replay(env.sanitize, t0, s.audit[..p.readAt]), id) == ValidFrom(t0, id) == ValidFrom(s.tenants, id);
  }

  /**
   * From the request to its row, over every run and interleaving: a commit settles the request received
   * under its number and still held. Its status is what the request meets on the table as it is then. If
   * it is stored, exactly the tenant the request names changes, exactly as asked - whatever other
   * requests stored since the read - and the one row appended is the sender's and records just that.
   */
  lemma CommitCarriesItsRequestOut(env: Env, t0: Table, events: seq<Event>, rid: nat, now: int)
    requires WellKeyed(t0) && rid in Run(env, Start(t0), events).pending
    ensures var s, s' := Run(env, Start(t0), events), Run(env, Start(t0), events + [Commit(rid, now)]);
            var p := s.pending[rid];
            && Sensible(env, p.request)
            && (exists i: nat :: HeldSince(env, t0, events, i, rid, p.actor, p.request))
            && var status := CommitStatus(env, s.tenants, p.request);
            && Respond(env, s, Commit(rid, now)) == Some(status)
            && if status == 200 || status == 201 then
                 && ChangedAsAsked(env, p.request, s.tenants, s'.tenants)
                 && |s'.audit| == |s.audit| + 1 && s'.audit[..|s.audit|] == s.audit
                 && RowRecords(env, p.request, p.actor, now, s'.audit[|s.audit|])
               else s'.tenants == s.tenants && s'.audit == s.audit
  {
    var s := Run(env, Start(t0), events);
    var p := s.pending[rid];
    RunKeepsInv(env, t0, events);
    PendingIsHeld(env, t0, events, rid);
    PendingIsPrepared(env, t0, s, p);
    var read := Replay(env.sanitize, t0, s.audit[..p.readAt]);
    CommitAnswers(env, s.tenants, read, p.request, p.write);
    RunOneMore(env, Start(t0), events, Commit(rid, now));
    if Apply(env.sanitize, s.tenants, p.write.mutation).Stored? {
      StoredIsCarriedOut(env, s.tenants, read, p.request, p.write);
    }
  }

  /** The trail alone says the same: each row carries out, on the table the rows before it rebuild, the request behind it. */
  lemma EveryRowCarriesItsRequestOut(env: Env, t0: Table, events: seq<Event>, j: nat)
    requires WellKeyed(t0) && j < |Run(env, Start(t0), events).audit|
    ensures var s := Run(env, Start(t0), events);
            && |s.origin| == |s.audit|
            && var p := s.origin[j];
            && Sensible(env, p.request)
            && RowRecords(env, p.request, p.actor, s.audit[j].occurredAt, s.audit[j])
            && ChangedAsAsked(env, p.request, Replay(env.sanitize, t0, s.audit[..j]), Replay(env.sanitize, t0, s.audit[..j + 1]))
  {
    RunKeepsInv(env, t0, events);
    var s := Run(env, Start(t0), events);
    RowCarriesItsRequestOut(env, t0, s, j);
  }

  lemma ExplainedIsPrepared(env: Env, t0: Table, s: State, j: nat)
    requires Inv(env, t0, s) && j < |s.audit| && Explained(env, t0, s.audit, s.origin, j)
    ensures var p := s.origin[j];
            PreparedFor(env, Replay(env.sanitize, t0, s.audit[..j]), Replay(env.sanitize, t0, s.audit[..p.readAt]), p.request, p.write)
  {
    var p, t := s.origin[j], Replay(env.sanitize, t0, s.audit[..j]);
    assert s.audit[..j][..p.readAt] == s.audit[..p.readAt];
    var read := Replay(env.sanitize, t0, s.audit[..p.readAt]);
    MalformedIsAnswered(env, read, p.request);
    assert FromKept(env, t0, s.audit[..p.readAt]) && FromKept(env, t0, s.audit[..j]);
    assert ValidFrom(read, p.write.mutation.id) == ValidFrom(t0, p.write.mutation.id) == ValidFrom(t, p.write.mutation.id);
  }

  /** One row, from the table before it to the table after it. */
  lemma StoredRowCarriesOut(env: Env, t: Table, read: Table, p: Pending, row: AuditRow)
    requires WellKeyed(t) && PreparedFor(env, t, read, p.request, p.write)
    requires Apply(env.sanitize, t, p.write.mutation).Stored? && row == RowOf(p, row.occurredAt)
    ensures RowRecords(env, p.request, p.actor, row.occurredAt, row)
    ensures ChangedAsAsked(env, p.request, t, ApplyRow(env.sanitize, t, row))
  {
    StoredIsCarriedOut(env, t, read, p.request, p.write);
    RowReplaysItsWrite(env, t, p, read, row.occurredAt);
  }

  lemma RowCarriesItsRequestOut(env: Env, t0: Table, s: State, j: nat)
    requires WellKeyed(t0) && Inv(env, t0, s) && j < |s.audit| == |s.origin|
    ensures var p := s.origin[j];
            && Sensible(env, p.request)
            && RowRecords(env, p.request, p.actor, s.audit[j].occurredAt, s.audit[j])
            && ChangedAsAsked(env, p.request, Replay(env.sanitize, t0, s.audit[..j]), Replay(env.sanitize, t0, s.audit[..j + 1]))
  {
    var p, t := s.origin[j], Replay(env.sanitize, t0, s.audit[..j]);
    assert Explained(env, t0, s.audit, s.origin, j);
    ExplainedIsPrepared(env, t0, s, j);
    PrefixWellKeyed(env, t0, s, j);
    StoredRowCarriesOut(env, t, Replay(env.sanitize, t0, s.audit[..p.readAt]), p, s.audit[j]);
    ReplayOneMore(env.sanitize, t0, s.audit, j + 1);
  }
}
