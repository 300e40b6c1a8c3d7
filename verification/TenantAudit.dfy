/**
 * The panel's tenant write handlers as a protocol of two steps. `Receive` validates the request and
 * reads the tenant; `Commit` runs one transaction that stores the mutation together with one audit
 * row. Any number of requests interleave between their two steps. The results: the audit trail alone
 * rebuilds the tenant table, and each row's `before` is the value at that request's own read.
 */
module TenantAudit {
  import opened Optional
  import opened Tenants
  import Text

  datatype Change = Change(before: Json, after: Json)

  /** One `audit_entries` row; the nullable columns are options. */
  datatype AuditRow = AuditRow(
    occurredAt: int,
    actorId: string,
    actorUsername: string,
    action: string,
    targetTenantId: Option<string>,
    targetOperatorId: Option<string>,
    changes: Option<map<string, Change>>)

  datatype Actor = Actor(id: string, username: string)

  /** The six write requests: the route's `:id`, the body field each handler reads, the generated key. */
  datatype Request =
    | CreateRequest(rawId: Option<Json>, freshKey: string)
    | OriginsRequest(id: Option<string>, origins: Option<Json>)
    | GamesRequest(id: Option<string>, games: Option<Json>)
    | WindowRequest(id: Option<string>, validUntil: Option<Json>)
    | RotateRequest(id: Option<string>, freshKey: string)
    | ThemeRequest(id: Option<string>, theme: Option<Json>)

  /** `paidThroughToInstant` answers `None` where it throws. */
  datatype Env = Env(sanitize: Sanitizer, toInstant: string -> Option<int>)

  datatype Prepared =
    | Answer(status: int, error: string)
    | Ready(mutation: Mutation, action: string, changes: map<string, Change>)

  const CREATED := "tenant.created"

  // ----- values as JSON --------------------------------------------------------------

  function FromStrings(ss: seq<string>): Json { JArray(seq(|ss|, i requires 0 <= i < |ss| => JString(ss[i]))) }

  predicate IsStringArray(j: Option<Json>) {
    j.Some? && j.value.JArray? && forall x | x in j.value.items :: x.JString?
  }

  function Strings(j: Json): seq<string> {
    if j.JArray? then seq(|j.items|, i requires 0 <= i < |j.items| => if j.items[i].JString? then j.items[i].s else "")
    else []
  }

  function FromInstant(t: Option<int>): Json { if t.Some? then JNumber(t.value) else JNull }
  function Instant(j: Json): Option<int> { if j.JNumber? then Some(j.n) else None }
  function OrNull(j: Option<Json>): Json { if j.Some? then j.value else JNull }
  function NullAsAbsent(j: Json): Option<Json> { if j.JNull? then None else Some(j) }

  /** An audited field of a tenant, `null` when there is no such tenant or no such value. */
  function Field(t: Table, id: string, f: string): Json {
    if id !in t then JNull
    else if f == "id" then JString(t[id].id)
    else if f == "embedKey" then JString(t[id].embedKey)
    else if f == "allowedOrigins" then FromStrings(t[id].allowedOrigins)
    else if f == "entitledGames" then FromStrings(t[id].entitledGames)
    else if f == "validUntil" then FromInstant(t[id].validUntil)
    else if f == "theme" then OrNull(t[id].theme)
    else JNull
  }

  // ----- first step: validate, read, build the witness -------------------------------

  function ValidFrom(t: Table, id: string): Option<int> { if id in t then t[id].validFrom else None }

  function Prepare(env: Env, t: Table, r: Request): Prepared {
    match r
    case CreateRequest(raw, key) =>
      if raw.None? || !raw.value.JString? || Text.Trim(raw.value.s) == "" then Answer(400, "missing-tenant-id")
      else
        var id := Text.Trim(raw.value.s);
        Ready(CreateTenant(id, key, [], [], None), CREATED,
              map["id" := Change(JNull, JString(id)), "embedKey" := Change(JNull, JString(key))])
    case OriginsRequest(pid, origins) =>
      if pid.None? || pid.value == "" then Answer(400, "missing-tenant-id")
      else if !IsStringArray(origins) then Answer(400, "invalid-origins")
      else Ready(SetOrigins(pid.value, Strings(origins.value)), "tenant.origins.updated",
                 map["allowedOrigins" := Change(Field(t, pid.value, "allowedOrigins"), origins.value)])
    case GamesRequest(pid, games) =>
      if pid.None? || pid.value == "" then Answer(400, "missing-tenant-id")
      else if !IsStringArray(games) then Answer(400, "invalid-games")
      else Ready(SetGames(pid.value, Strings(games.value)), "tenant.games.updated",
                 map["entitledGames" := Change(Field(t, pid.value, "entitledGames"), games.value)])
    case WindowRequest(pid, iso) =>
      if pid.None? || pid.value == "" then Answer(400, "missing-tenant-id")
      else if iso.None? || !iso.value.JString? || iso.value.s == "" then Answer(400, "invalid-window")
      else
        var until := env.toInstant(iso.value.s);
        if until.None? then Answer(400, "invalid-window")
        else Ready(SetWindow(pid.value, ValidFrom(t, pid.value), until), "tenant.window.updated",
                   map["validUntil" := Change(Field(t, pid.value, "validUntil"), JNumber(until.value))])
    case RotateRequest(pid, key) =>
      if pid.None? || pid.value == "" then Answer(400, "missing-tenant-id")
      else Ready(RotateKey(pid.value, key), "tenant.embed-key.rotated",
                 map["embedKey" := Change(Field(t, pid.value, "embedKey"), JString(key))])
    case ThemeRequest(pid, raw) =>
      if pid.None? || pid.value == "" then Answer(400, "missing-tenant-id")
      else if raw.Some? && !raw.value.JObject? && !raw.value.JArray? then Answer(400, "invalid-theme")
      else Ready(SetTheme(pid.value, raw), "tenant.theme.updated",
                 map["theme" := Change(Field(t, pid.value, "theme"), OrNull(raw))])
  }

  // ----- second step: one transaction ------------------------------------------------

  /** The status each handler gives a refused write. */
  function RefusalStatus(m: Mutation, reason: Refusal): int {
    if m.CreateTenant? then 409
    else if reason.UnknownTenant? then 404
    else if m.RotateKey? && reason.EmbedKeyTaken? then 409
    else 400
  }

  /** A request between its read and its commit, with what it has seen of the trail. */
  datatype Pending = Pending(actor: Actor, request: Request, readAt: nat, write: Prepared)

  function RowOf(p: Pending, now: int): AuditRow
    requires p.write.Ready?
  {
    AuditRow(now, p.actor.id, p.actor.username, p.write.action, Some(p.write.mutation.id), None, Some(p.write.changes))
  }

  /** The database, the requests in flight, and for each audit row the request that wrote it. */
  datatype State = State(tenants: Table, audit: seq<AuditRow>, origin: seq<Pending>, pending: map<nat, Pending>)

  datatype Event =
    | Receive(rid: nat, actor: Actor, request: Request)
    | Commit(rid: nat, now: int)
    | Fail(rid: nat)  // the mutation or the witness throws: ROLLBACK

  function Step(env: Env, s: State, e: Event): State {
    match e
    case Receive(rid, actor, request) =>
      var write := Prepare(env, s.tenants, request);
      if rid in s.pending || write.Answer? then s
      else s.(pending := s.pending[rid := Pending(actor, request, |s.audit|, write)])
    case Commit(rid, now) =>
      if rid !in s.pending || s.pending[rid].write.Answer? then s
      else
        var p := s.pending[rid];
        var o := Apply(env.sanitize, s.tenants, p.write.mutation);
        var rest := s.(pending := s.pending - {rid});
        if o.Refused? then rest
        else rest.(tenants := After(s.tenants, o), audit := s.audit + [RowOf(p, now)], origin := s.origin + [p])
    case Fail(rid) => s.(pending := s.pending - {rid})
  }

  function Run(env: Env, s: State, events: seq<Event>): State {
    if events == [] then s else Step(env, Run(env, s, events[..|events| - 1]), events[|events| - 1])
  }

  function Start(t: Table): State { State(t, [], [], map[]) }

  // ----- reading the trail back ------------------------------------------------------

  function Edit(sanitize: Sanitizer, t: Tenant, c: map<string, Change>): Tenant {
    t.(embedKey := if "embedKey" in c && c["embedKey"].after.JString? then c["embedKey"].after.s else t.embedKey,
       allowedOrigins := if "allowedOrigins" in c then Strings(c["allowedOrigins"].after) else t.allowedOrigins,
       entitledGames := if "entitledGames" in c then Strings(c["entitledGames"].after) else t.entitledGames,
       validUntil := if "validUntil" in c then Instant(c["validUntil"].after) else t.validUntil,
       theme := if "theme" in c then sanitize(NullAsAbsent(c["theme"].after)) else t.theme)
  }

  /** Applies one row's `after` values; `tenant.created` starts from the empty record. */
  function ApplyRow(sanitize: Sanitizer, t: Table, row: AuditRow): Table {
    if row.targetTenantId.None? || row.changes.None? then t
    else
      var id, c := row.targetTenantId.value, row.changes.value;
      if row.action == CREATED then t[id := Edit(sanitize, Tenant(id, "", [], [], None, None, sanitize(None)), c)]
      else if id in t then t[id := Edit(sanitize, t[id], c)]
      else t
  }

  function Replay(sanitize: Sanitizer, t: Table, rows: seq<AuditRow>): Table {
    if rows == [] then t else ApplyRow(sanitize, Replay(sanitize, t, rows[..|rows| - 1]), rows[|rows| - 1])
  }

  // ----- the invariant ---------------------------------------------------------------

  /** A pending request holds exactly what its handler computed from the table at its read. */
  ghost predicate Remembers(env: Env, t0: Table, audit: seq<AuditRow>, p: Pending) {
    && p.readAt <= |audit|
    && p.write.Ready?
    && p.write == Prepare(env, Replay(env.sanitize, t0, audit[..p.readAt]), p.request)
  }

  /** Row `j` is the one its request's commit wrote, on the table the rows before it rebuild. */
  ghost predicate Explained(env: Env, t0: Table, audit: seq<AuditRow>, origin: seq<Pending>, j: nat)
    requires j < |audit| == |origin|
  {
    && Remembers(env, t0, audit[..j], origin[j])
    && audit[j] == RowOf(origin[j], audit[j].occurredAt)
    && Apply(env.sanitize, Replay(env.sanitize, t0, audit[..j]), origin[j].write.mutation).Stored?
  }

  ghost predicate FromKept(env: Env, t0: Table, rows: seq<AuditRow>) {
    forall id :: ValidFrom(Replay(env.sanitize, t0, rows), id) == ValidFrom(t0, id)
  }

  ghost predicate Inv(env: Env, t0: Table, s: State) {
    && WellKeyed(s.tenants)
    && Replay(env.sanitize, t0, s.audit) == s.tenants
    && |s.origin| == |s.audit|
    && (forall k | 0 <= k <= |s.audit| :: FromKept(env, t0, s.audit[..k]))
    && (forall rid | rid in s.pending :: Remembers(env, t0, s.audit, s.pending[rid]))
    && (forall j | 0 <= j < |s.audit| :: Explained(env, t0, s.audit, s.origin, j))
  }

  /** A stored write and its row say the same thing, provided a window write carries the current `validFrom`. */
  lemma RowReplaysItsWrite(env: Env, t: Table, p: Pending, read: Table, now: int)
    requires StoresAsPrepared(env, t, p, read)
    requires p.write.mutation.SetWindow? ==> p.write.mutation.validFrom == ValidFrom(t, p.write.mutation.id)
    ensures ApplyRow(env.sanitize, t, RowOf(p, now)) == After(t, Apply(env.sanitize, t, p.write.mutation))
  {
    match p.request
    case CreateRequest(_, _) => CreationReplays(env, t, p, read, now);
    case OriginsRequest(_, _) => ListReplays(env, t, p, read, now);
    case GamesRequest(_, _) => ListReplays(env, t, p, read, now);
    case WindowRequest(_, _) => WindowReplays(env, t, p, read, now);
    case RotateRequest(_, _) => KeyReplays(env, t, p, read, now);
    case ThemeRequest(_, _) => ThemeReplays(env, t, p, read, now);
  }

  ghost predicate StoresAsPrepared(env: Env, t: Table, p: Pending, read: Table) {
    && WellKeyed(t)
    && p.write.Ready? && p.write == Prepare(env, read, p.request)
    && Apply(env.sanitize, t, p.write.mutation).Stored?
  }

  lemma CreationReplays(env: Env, t: Table, p: Pending, read: Table, now: int)
    requires StoresAsPrepared(env, t, p, read) && p.request.CreateRequest?
    ensures ApplyRow(env.sanitize, t, RowOf(p, now)) == After(t, Apply(env.sanitize, t, p.write.mutation))
  {
  }

  lemma ListReplays(env: Env, t: Table, p: Pending, read: Table, now: int)
    requires StoresAsPrepared(env, t, p, read) && (p.request.OriginsRequest? || p.request.GamesRequest?)
    ensures ApplyRow(env.sanitize, t, RowOf(p, now)) == After(t, Apply(env.sanitize, t, p.write.mutation))
  {
  }

  lemma WindowReplays(env: Env, t: Table, p: Pending, read: Table, now: int)
    requires StoresAsPrepared(env, t, p, read) && p.request.WindowRequest?
    requires p.write.mutation.validFrom == ValidFrom(t, p.write.mutation.id)
    ensures ApplyRow(env.sanitize, t, RowOf(p, now)) == After(t, Apply(env.sanitize, t, p.write.mutation))
  {
  }

  lemma KeyReplays(env: Env, t: Table, p: Pending, read: Table, now: int)
    requires StoresAsPrepared(env, t, p, read) && p.request.RotateRequest?
    ensures ApplyRow(env.sanitize, t, RowOf(p, now)) == After(t, Apply(env.sanitize, t, p.write.mutation))
  {
  }

  lemma ThemeReplays(env: Env, t: Table, p: Pending, read: Table, now: int)
    requires StoresAsPrepared(env, t, p, read) && p.request.ThemeRequest?
    ensures ApplyRow(env.sanitize, t, RowOf(p, now)) == After(t, Apply(env.sanitize, t, p.write.mutation))
  {
  }

  lemma InvHoldsAtStart(env: Env, t0: Table)
    requires WellKeyed(t0)
    ensures Inv(env, t0, Start(t0))
  {
  }

  lemma RemembersMore(env: Env, t0: Table, audit: seq<AuditRow>, row: AuditRow, p: Pending)
    requires Remembers(env, t0, audit, p)
    ensures Remembers(env, t0, audit + [row], p)
  {
    assert (audit + [row])[..p.readAt] == audit[..p.readAt];
  }

  lemma ExplainedStays(env: Env, t0: Table, audit: seq<AuditRow>, origin: seq<Pending>, row: AuditRow, p: Pending, j: nat)
    requires j < |audit| == |origin|
    requires Explained(env, t0, audit, origin, j)
    ensures Explained(env, t0, audit + [row], origin + [p], j)
  {
    assert (audit + [row])[..j] == audit[..j];
  }

  /** The commit that stores a write extends the replayed trail by exactly that write. */
  lemma CommitExtendsReplay(env: Env, t0: Table, s: State, p: Pending, now: int)
    requires Inv(env, t0, s) && Remembers(env, t0, s.audit, p)
    requires Apply(env.sanitize, s.tenants, p.write.mutation).Stored?
    ensures var t' := After(s.tenants, Apply(env.sanitize, s.tenants, p.write.mutation));
            && Replay(env.sanitize, t0, s.audit + [RowOf(p, now)]) == t'
            && WellKeyed(t')
            && FromKept(env, t0, s.audit + [RowOf(p, now)])
  {
    var m, rows := p.write.mutation, s.audit + [RowOf(p, now)];
    var read := Replay(env.sanitize, t0, s.audit[..p.readAt]);
    assert FromKept(env, t0, s.audit[..p.readAt]);
    assert s.audit[..|s.audit|] == s.audit;
    assert ValidFrom(read, m.id) == ValidFrom(t0, m.id) == ValidFrom(s.tenants, m.id);
    RowReplaysItsWrite(env, s.tenants, p, read, now);
    WriteKeepsWellKeyed(env.sanitize, s.tenants, m);
    assert rows[..|rows| - 1] == s.audit;
    WriteKeepsValidFrom(env, s.tenants, m);
    forall id ensures ValidFrom(Replay(env.sanitize, t0, rows), id) == ValidFrom(t0, id) {
      assert ValidFrom(s.tenants, id) == ValidFrom(t0, id);
    }
  }

  /** No write moves a `validFrom`, the window write included if it carries the current one. */
  lemma WriteKeepsValidFrom(env: Env, t: Table, m: Mutation)
    requires WellKeyed(t) && Apply(env.sanitize, t, m).Stored?
    requires m.SetWindow? ==> m.validFrom == ValidFrom(t, m.id)
    ensures forall id :: ValidFrom(After(t, Apply(env.sanitize, t, m)), id) == ValidFrom(t, id)
  {
  }

  lemma CommitKeepsInv(env: Env, t0: Table, s: State, rid: nat, now: int)
    requires Inv(env, t0, s)
    ensures Inv(env, t0, Step(env, s, Commit(rid, now)))
  {
    var s' := Step(env, s, Commit(rid, now));
    if s'.audit != s.audit {
      var p := s.pending[rid];
      var row := RowOf(p, now);
      CommitExtendsReplay(env, t0, s, p, now);
      forall k | 0 <= k <= |s'.audit|
        ensures FromKept(env, t0, s'.audit[..k])
      {
        assert s'.audit[..k] == if k <= |s.audit| then s.audit[..k] else s'.audit;
      }
      forall r | r in s'.pending
        ensures Remembers(env, t0, s'.audit, s'.pending[r])
      {
        RemembersMore(env, t0, s.audit, row, s.pending[r]);
      }
      forall j: nat | j < |s'.audit|
        ensures Explained(env, t0, s'.audit, s'.origin, j)
      {
        if j < |s.audit| {
          ExplainedStays(env, t0, s.audit, s.origin, row, p, j);
        } else {
          assert s'.audit[..j] == s.audit;
        }
      }
    }
  }

  lemma StepKeepsInv(env: Env, t0: Table, s: State, e: Event)
    requires Inv(env, t0, s)
    ensures Inv(env, t0, Step(env, s, e))
  {
    match e
    case Receive(rid, actor, request) =>
      assert s.audit[..|s.audit|] == s.audit;
    case Commit(rid, now) => CommitKeepsInv(env, t0, s, rid, now);
    case Fail(rid) =>
  }

  lemma {:induction false} RunKeepsInv(env: Env, t0: Table, events: seq<Event>)
    requires WellKeyed(t0)
    ensures Inv(env, t0, Run(env, Start(t0), events))
  {
    if events == [] {
      InvHoldsAtStart(env, t0);
    } else {
      RunKeepsInv(env, t0, events[..|events| - 1]);
      StepKeepsInv(env, t0, Run(env, Start(t0), events[..|events| - 1]), events[|events| - 1]);
    }
  }

  // ----- what every run guarantees ---------------------------------------------------

  /** The audit trail alone rebuilds the tenant table, whatever the interleaving. */
  lemma TrailRebuildsTenants(env: Env, t0: Table, events: seq<Event>)
    requires WellKeyed(t0)
    ensures var s := Run(env, Start(t0), events);
            Replay(env.sanitize, t0, s.audit) == s.tenants
  {
    RunKeepsInv(env, t0, events);
  }

  /** No step ever changes a `validFrom`, and a tenant created here never gets one; embed keys stay unique. */
  lemma ValidFromNeverChanges(env: Env, t0: Table, events: seq<Event>, id: string)
    requires WellKeyed(t0)
    ensures ValidFrom(Run(env, Start(t0), events).tenants, id) == ValidFrom(t0, id)
    ensures WellKeyed(Run(env, Start(t0), events).tenants)
  {
    RunKeepsInv(env, t0, events);
    var s := Run(env, Start(t0), events);
    assert s.audit[..|s.audit|] == s.audit;
    assert FromKept(env, t0, s.audit[..|s.audit|]);
  }

  /** The value a row records under `before`, for the field it changes. */
  function BeforeOf(row: AuditRow, f: string): Json
    requires row.changes.Some? && f in row.changes.value
  {
    row.changes.value[f].before
  }

  ghost predicate Changes(row: AuditRow, id: string, f: string) {
    row.targetTenantId == Some(id) && row.changes.Some? && f in row.changes.value
  }

  /** A row that can alter field `f` of tenant `id`: its creation, or a change of that field. */
  ghost predicate Touches(row: AuditRow, id: string, f: string) {
    row.targetTenantId == Some(id) && row.changes.Some? && (row.action == CREATED || f in row.changes.value)
  }

  /** What a handler puts under `before`: the field as its read saw it, `null` for a creation. */
  lemma PreparedBefore(env: Env, read: Table, r: Request, f: string)
    requires Prepare(env, read, r).Ready? && f in Prepare(env, read, r).changes
    ensures var w := Prepare(env, read, r);
            && (w.action == CREATED <==> r.CreateRequest?)
            && (r.CreateRequest? <==> w.mutation.CreateTenant?)
            && w.changes[f].before == if r.CreateRequest? then JNull else Field(read, w.mutation.id, f)
  {
    var w := Prepare(env, read, r);
    assert CREATED[7] == 'c' && |CREATED| == 14;
    match r
    case CreateRequest(_, _) =>
    case OriginsRequest(_, _) => assert f == "allowedOrigins" && w.action[7] == 'o';
    case GamesRequest(_, _) => assert f == "entitledGames" && w.action[7] == 'g';
    case WindowRequest(_, _) => assert f == "validUntil" && w.action[7] == 'w';
    case RotateRequest(_, _) => assert f == "embedKey" && w.action[7] == 'e';
    case ThemeRequest(_, _) => assert f == "theme" && w.action[7] == 't';
  }

  /**
   * `before` is the folded value at the request's own read - and at its commit for a creation,
   * which reads nothing but can only commit when the tenant is absent.
   */
  lemma BeforeIsTheValueAtRead(env: Env, t0: Table, events: seq<Event>, j: nat, id: string, f: string)
    requires WellKeyed(t0)
    requires j < |Run(env, Start(t0), events).audit|
    requires Changes(Run(env, Start(t0), events).audit[j], id, f)
    ensures var s := Run(env, Start(t0), events);
            && |s.origin| == |s.audit|
            && s.origin[j].readAt <= j
            && var seen := if s.audit[j].action == CREATED then j else s.origin[j].readAt;
            BeforeOf(s.audit[j], f) == Field(Replay(env.sanitize, t0, s.audit[..seen]), id, f)
  {
    RunKeepsInv(env, t0, events);
    var s := Run(env, Start(t0), events);
    assert Explained(env, t0, s.audit, s.origin, j);
    var r := s.origin[j].readAt;
    assert s.audit[..j][..r] == s.audit[..r];
    PreparedBefore(env, Replay(env.sanitize, t0, s.audit[..r]), s.origin[j].request, f);
  }

  lemma UntouchedByRow(sanitize: Sanitizer, t: Table, row: AuditRow, id: string, f: string)
    requires WellKeyed(t) && !Touches(row, id, f)
    requires f != "id"
    ensures Field(ApplyRow(sanitize, t, row), id, f) == Field(t, id, f)
  {
  }

  /** The table each prefix of a reachable trail rebuilds is itself well keyed. */
  lemma {:induction false} PrefixWellKeyed(env: Env, t0: Table, s: State, k: nat)
    requires WellKeyed(t0) && Inv(env, t0, s) && k <= |s.audit|
    ensures WellKeyed(Replay(env.sanitize, t0, s.audit[..k]))
  {
    if k > 0 {
      PrefixWellKeyed(env, t0, s, k - 1);
      var j := k - 1;
      assert Explained(env, t0, s.audit, s.origin, j);
      ReplayOneMore(env.sanitize, t0, s.audit, k);
      assert FromKept(env, t0, s.audit[..s.origin[j].readAt]) && FromKept(env, t0, s.audit[..j]);
      ExplainedRowKeepsWellKeyed(env, t0, s.audit, s.origin, j);
    }
  }

  lemma ReplayOneMore(sanitize: Sanitizer, t0: Table, rows: seq<AuditRow>, k: nat)
    requires 0 < k <= |rows|
    ensures Replay(sanitize, t0, rows[..k]) == ApplyRow(sanitize, Replay(sanitize, t0, rows[..k - 1]), rows[k - 1])
  {
    assert rows[..k][..k - 1] == rows[..k - 1];
  }

  lemma ExplainedRowKeepsWellKeyed(env: Env, t0: Table, audit: seq<AuditRow>, origin: seq<Pending>, j: nat)
    requires j < |audit| == |origin| && Explained(env, t0, audit, origin, j)
    requires FromKept(env, t0, audit[..origin[j].readAt]) && FromKept(env, t0, audit[..j])
    requires WellKeyed(Replay(env.sanitize, t0, audit[..j]))
    ensures WellKeyed(ApplyRow(env.sanitize, Replay(env.sanitize, t0, audit[..j]), audit[j]))
  {
    var t, p := Replay(env.sanitize, t0, audit[..j]), origin[j];
    assert audit[..j][..p.readAt] == audit[..p.readAt];
    var read := Replay(env.sanitize, t0, audit[..p.readAt]);
    assert ValidFrom(read, p.write.mutation.id) == ValidFrom(t0, p.write.mutation.id) == ValidFrom(t, p.write.mutation.id);
    RowReplaysItsWrite(env, t, p, read, audit[j].occurredAt);
    WriteKeepsWellKeyed(env.sanitize, t, p.write.mutation);
  }

  lemma {:induction false} UntouchedBetween(env: Env, t0: Table, s: State, i: nat, j: nat, id: string, f: string)
    requires WellKeyed(t0) && Inv(env, t0, s) && i <= j <= |s.audit|
    requires forall k | i <= k < j :: !Touches(s.audit[k], id, f)
    requires f != "id"
    ensures Field(Replay(env.sanitize, t0, s.audit[..j]), id, f) == Field(Replay(env.sanitize, t0, s.audit[..i]), id, f)
  {
    if i < j {
      UntouchedBetween(env, t0, s, i, j - 1, id, f);
      PrefixWellKeyed(env, t0, s, j - 1);
      assert s.audit[..j][..j - 1] == s.audit[..j - 1];
      UntouchedByRow(env.sanitize, Replay(env.sanitize, t0, s.audit[..j - 1]), s.audit[j - 1], id, f);
    }
  }

  /** `before` is the current value whenever nobody wrote that field between the read and the commit. */
  lemma BeforeIsCurrentUnlessOvertaken(env: Env, t0: Table, events: seq<Event>, j: nat, id: string, f: string)
    requires WellKeyed(t0)
    requires j < |Run(env, Start(t0), events).audit|
    requires Changes(Run(env, Start(t0), events).audit[j], id, f) && f != "id"
    requires var s := Run(env, Start(t0), events);
             && |s.origin| == |s.audit|
             && forall k | s.origin[j].readAt <= k < j :: !Touches(s.audit[k], id, f)
    ensures var s := Run(env, Start(t0), events);
            BeforeOf(s.audit[j], f) == Field(Replay(env.sanitize, t0, s.audit[..j]), id, f)
  {
    var s := Run(env, Start(t0), events);
    RunKeepsInv(env, t0, events);
    BeforeIsTheValueAtRead(env, t0, events, j, id, f);
    UntouchedBetween(env, t0, s, s.origin[j].readAt, j, id, f);
  }

  lemma FromStringsOfStrings(j: Json)
    requires IsStringArray(Some(j))
    ensures FromStrings(Strings(j)) == j
  {
    assert FromStrings(Strings(j)).items == j.items;
  }

  /** What a recorded `after` makes of the field: itself, except that a theme is sanitized on its way in. */
  function Settled(sanitize: Sanitizer, f: string, after: Json): Json {
    if f == "theme" then OrNull(sanitize(NullAsAbsent(after))) else after
  }

  lemma RowSettlesItsFields(env: Env, t0: Table, s: State, j: nat, id: string, f: string)
    requires WellKeyed(t0) && Inv(env, t0, s) && j < |s.audit|
    requires Changes(s.audit[j], id, f)
    ensures Field(Replay(env.sanitize, t0, s.audit[..j + 1]), id, f)
         == Settled(env.sanitize, f, s.audit[j].changes.value[f].after)
  {
    var p := s.origin[j];
    assert Explained(env, t0, s.audit, s.origin, j);
    assert s.audit[..j + 1][..j] == s.audit[..j];
    assert s.audit[..j][..p.readAt] == s.audit[..p.readAt];
    WriteSettlesItsFields(env, Replay(env.sanitize, t0, s.audit[..p.readAt]), Replay(env.sanitize, t0, s.audit[..j]),
                          p, s.audit[j].occurredAt, id, f);
  }

  lemma WriteSettlesItsFields(env: Env, read: Table, t: Table, p: Pending, now: int, id: string, f: string)
    requires p.write.Ready? && p.write == Prepare(env, read, p.request)
    requires Apply(env.sanitize, t, p.write.mutation).Stored? && Changes(RowOf(p, now), id, f)
    ensures Field(ApplyRow(env.sanitize, t, RowOf(p, now)), id, f)
         == Settled(env.sanitize, f, RowOf(p, now).changes.value[f].after)
  {
    match p.request
    case OriginsRequest(_, origins) => FromStringsOfStrings(origins.value);
    case GamesRequest(_, games) => FromStringsOfStrings(games.value);
    case CreateRequest(_, _) =>
    case WindowRequest(_, _) =>
    case RotateRequest(_, _) =>
    case ThemeRequest(_, _) =>
  }

  /**
   * The trail reads as a chain: when one row follows another on the same field, was read after it
   * and nothing touched the field in between, its `before` is what the earlier `after` became.
   */
  lemma TrailIsAChain(env: Env, t0: Table, events: seq<Event>, i: nat, j: nat, id: string, f: string)
    requires WellKeyed(t0)
    requires i < j < |Run(env, Start(t0), events).audit| == |Run(env, Start(t0), events).origin|
    requires var s := Run(env, Start(t0), events);
             && Changes(s.audit[i], id, f) && Changes(s.audit[j], id, f) && f != "id"
             && i < s.origin[j].readAt
             && forall k | i < k < j :: !Touches(s.audit[k], id, f)
    ensures var s := Run(env, Start(t0), events);
            BeforeOf(s.audit[j], f) == Settled(env.sanitize, f, s.audit[i].changes.value[f].after)
  {
    var s := Run(env, Start(t0), events);
    RunKeepsInv(env, t0, events);
    BeforeIsCurrentUnlessOvertaken(env, t0, events, j, id, f);
    UntouchedBetween(env, t0, s, i + 1, j, id, f);
    RowSettlesItsFields(env, t0, s, i, id, f);
  }

  // When `before` is current, read off the trail alone.

  /** The last row before `j` that touches the field. */
  ghost function LastTouch(rows: seq<AuditRow>, j: nat, id: string, f: string): (k: Option<nat>)
    requires j <= |rows|
    ensures k.Some? ==> k.value < j && Touches(rows[k.value], id, f)
    ensures forall i | (if k.Some? then k.value + 1 else 0) <= i < j :: !Touches(rows[i], id, f)
  {
    if j == 0 then None
    else if Touches(rows[j - 1], id, f) then Some(j - 1)
    else LastTouch(rows, j - 1, id, f)
  }

  /** What a touching row leaves in the field: what it records, or the empty record's value if it creates the tenant. */
  function LeftBy(sanitize: Sanitizer, row: AuditRow, f: string): Json {
    if row.changes.Some? && f in row.changes.value then Settled(sanitize, f, row.changes.value[f].after)
    else if f == "embedKey" then JString("")
    else if f == "allowedOrigins" || f == "entitledGames" then FromStrings([])
    else if f == "theme" then OrNull(sanitize(None))
    else JNull
  }

  lemma CreationLeavesEmptyFields(sanitize: Sanitizer, t: Table, row: AuditRow, id: string, f: string)
    requires Touches(row, id, f) && !Changes(row, id, f) && f != "id"
    ensures Field(ApplyRow(sanitize, t, row), id, f) == LeftBy(sanitize, row, f)
  {
  }

  lemma TouchingRowLeaves(env: Env, t0: Table, s: State, k: nat, id: string, f: string)
    requires WellKeyed(t0) && Inv(env, t0, s) && k < |s.audit|
    requires Touches(s.audit[k], id, f) && f != "id"
    ensures Field(Replay(env.sanitize, t0, s.audit[..k + 1]), id, f) == LeftBy(env.sanitize, s.audit[k], f)
  {
    if Changes(s.audit[k], id, f) {
      RowSettlesItsFields(env, t0, s, k, id, f);
    } else {
      ReplayOneMore(env.sanitize, t0, s.audit, k + 1);
      CreationLeavesEmptyFields(env.sanitize, Replay(env.sanitize, t0, s.audit[..k]), s.audit[k], id, f);
    }
  }

  /** The field a row's commit found, in terms of the last row that touched it. */
  lemma FieldIsWhatTheLastTouchLeft(env: Env, t0: Table, s: State, j: nat, id: string, f: string)
    requires WellKeyed(t0) && Inv(env, t0, s) && j <= |s.audit| && f != "id"
    ensures var k := LastTouch(s.audit, j, id, f);
            Field(Replay(env.sanitize, t0, s.audit[..j]), id, f)
            == if k.Some? then LeftBy(env.sanitize, s.audit[k.value], f) else Field(t0, id, f)
  {
    var k := LastTouch(s.audit, j, id, f);
    UntouchedBetween(env, t0, s, if k.Some? then k.value + 1 else 0, j, id, f);
    if k.Some? {
      TouchingRowLeaves(env, t0, s, k.value, id, f);
    } else {
      assert s.audit[..0] == [];
    }
  }

  /**
   * Exactly when `before` is the value its commit found: always if no earlier row touches the field, and
   * otherwise if and only if it is what the last touching row left there. So the trail alone, without the
   * table or the times of the reads, tells which `before` values are out of date.
   */
  lemma BeforeIsCurrentIff(env: Env, t0: Table, events: seq<Event>, j: nat, id: string, f: string)
    requires WellKeyed(t0)
    requires j < |Run(env, Start(t0), events).audit|
    requires Changes(Run(env, Start(t0), events).audit[j], id, f)
    ensures var s := Run(env, Start(t0), events);
            var k := LastTouch(s.audit, j, id, f);
            BeforeOf(s.audit[j], f) == Field(Replay(env.sanitize, t0, s.audit[..j]), id, f)
            <==> f == "id" || (k.Some? ==> BeforeOf(s.audit[j], f) == LeftBy(env.sanitize, s.audit[k.value], f))
  {
    RunKeepsInv(env, t0, events);
    var s := Run(env, Start(t0), events);
    BeforeIsTheValueAtRead(env, t0, events, j, id, f);
    if f == "id" {
      IdentifierRowsAreCreations(env, t0, s, j, id);
    } else {
      FieldIsWhatTheLastTouchLeft(env, t0, s, j, id, f);
      if LastTouch(s.audit, j, id, f).None? { BeforeIsCurrentUnlessOvertaken(env, t0, events, j, id, f); }
    }
  }

  /** Only a creation records an `id`, and its `before` is read at the commit itself. */
  lemma IdentifierRowsAreCreations(env: Env, t0: Table, s: State, j: nat, id: string)
    requires Inv(env, t0, s) && j < |s.audit| && Changes(s.audit[j], id, "id")
    ensures s.audit[j].action == CREATED
  {
    assert Explained(env, t0, s.audit, s.origin, j);
  }

  // ----- responses and rows ----------------------------------------------------------

  /** The status the handler answers at this step, if it answers here at all. */
  function Respond(env: Env, s: State, e: Event): Option<int> {
    match e
    case Receive(rid, actor, request) =>
      var write := Prepare(env, s.tenants, request);
      if rid in s.pending || write.Ready? then None else Some(write.status)
    case Commit(rid, now) =>
      if rid !in s.pending || s.pending[rid].write.Answer? then None
      else
        var m := s.pending[rid].write.mutation;
        var o := Apply(env.sanitize, s.tenants, m);
        if o.Refused? then Some(RefusalStatus(m, o.reason)) else Some(if m.CreateTenant? then 201 else 200)
    case Fail(rid) => if rid in s.pending then Some(500) else None
  }

  predicate Succeeded(status: Option<int>) { status == Some(200) || status == Some(201) }

  function Successes(env: Env, s: State, events: seq<Event>): nat {
    if events == [] then 0
    else
      var n := |events| - 1;
      Successes(env, s, events[..n])
      + if Succeeded(Respond(env, Run(env, s, events[..n]), events[n])) then 1 else 0
  }

  /** A success and its audit row are one event; every other answer leaves table and trail alone. */
  lemma RowIffSuccess(env: Env, s: State, e: Event)
    ensures var s' := Step(env, s, e);
            if Succeeded(Respond(env, s, e))
            then e.Commit? && e.rid in s.pending && s'.audit == s.audit + [RowOf(s.pending[e.rid], e.now)]
            else s'.audit == s.audit && s'.tenants == s.tenants
  {
  }

  /** Every success is audited exactly once and nothing else is. */
  lemma {:induction false} AsManyRowsAsSuccesses(env: Env, s: State, events: seq<Event>)
    ensures |Run(env, s, events).audit| == |s.audit| + Successes(env, s, events)
    ensures s.audit <= Run(env, s, events).audit
  {
    if events != [] {
      var n := |events| - 1;
      AsManyRowsAsSuccesses(env, s, events[..n]);
      RowIffSuccess(env, Run(env, s, events[..n]), events[n]);
    }
  }

  // ----- replaying themes without the sanitizer --------------------------------------

  function Identity(raw: Option<Json>): Option<Json> { raw }

  /** Tenants whose theme comes from a theme row of this trail. */
  function Themed(rows: seq<AuditRow>): set<string> {
    if rows == [] then {}
    else
      var rest, row := Themed(rows[..|rows| - 1]), rows[|rows| - 1];
      if row.targetTenantId.None? || row.changes.None? then rest
      else if "theme" in row.changes.value then rest + {row.targetTenantId.value}
      else if row.action == CREATED then rest - {row.targetTenantId.value}
      else rest
  }

  ghost predicate SameButThemes(sanitize: Sanitizer, t: Table, raw: Table, themed: set<string>) {
    && t.Keys == raw.Keys
    && forall id | id in t ::
         t[id] == if id in themed then raw[id].(theme := sanitize(raw[id].theme)) else raw[id]
  }

  lemma EditsDifferOnlyInTheme(sanitize: Sanitizer, raw: Tenant, theme: Option<Json>, c: map<string, Change>)
    ensures Edit(sanitize, raw.(theme := theme), c)
         == Edit(Identity, raw, c).(theme := if "theme" in c then sanitize(NullAsAbsent(c["theme"].after)) else theme)
    ensures "theme" in c ==> Edit(Identity, raw, c).theme == NullAsAbsent(c["theme"].after)
    ensures "theme" !in c ==> Edit(Identity, raw, c).theme == raw.theme
  {
  }

  lemma RowKeepsSameButThemes(sanitize: Sanitizer, t: Table, raw: Table, rows: seq<AuditRow>, row: AuditRow)
    requires sanitize(None) == None
    requires SameButThemes(sanitize, t, raw, Themed(rows))
    ensures SameButThemes(sanitize, ApplyRow(sanitize, t, row), ApplyRow(Identity, raw, row), Themed(rows + [row]))
  {
    var all := rows + [row];
    assert all[..|all| - 1] == rows && all[|all| - 1] == row;
    if row.targetTenantId.Some? && row.changes.Some? {
      var id, c := row.targetTenantId.value, row.changes.value;
      assert Themed(all) == if "theme" in c then Themed(rows) + {id}
                            else if row.action == CREATED then Themed(rows) - {id} else Themed(rows);
      if row.action == CREATED {
        CreationKeepsSameButThemes(sanitize, t, raw, Themed(rows), Themed(all), id, c);
      } else if id in raw {
        EditKeepsSameButThemes(sanitize, t, raw, Themed(rows), Themed(all), id, c);
      }
    }
  }

  lemma CreationKeepsSameButThemes(sanitize: Sanitizer, t: Table, raw: Table, themed: set<string>, themed': set<string>,
                                   id: string, c: map<string, Change>)
    requires sanitize(None) == None && SameButThemes(sanitize, t, raw, themed)
    requires themed' == if "theme" in c then themed + {id} else themed - {id}
    ensures var empty := Tenant(id, "", [], [], None, None, None);
            SameButThemes(sanitize, t[id := Edit(sanitize, empty, c)], raw[id := Edit(Identity, empty, c)], themed')
  {
    EditsDifferOnlyInTheme(sanitize, Tenant(id, "", [], [], None, None, None), None, c);
  }

  lemma EditKeepsSameButThemes(sanitize: Sanitizer, t: Table, raw: Table, themed: set<string>, themed': set<string>,
                               id: string, c: map<string, Change>)
    requires SameButThemes(sanitize, t, raw, themed) && id in raw
    requires themed' == if "theme" in c then themed + {id} else themed
    ensures SameButThemes(sanitize, t[id := Edit(sanitize, t[id], c)], raw[id := Edit(Identity, raw[id], c)], themed')
  {
    EditsDifferOnlyInTheme(sanitize, raw[id], t[id].theme, c);
  }

  lemma {:induction false} RawReplayDiffersOnlyInThemes(sanitize: Sanitizer, t0: Table, rows: seq<AuditRow>)
    requires sanitize(None) == None
    ensures SameButThemes(sanitize, Replay(sanitize, t0, rows), Replay(Identity, t0, rows), Themed(rows))
  {
    if rows != [] {
      var rest, row := rows[..|rows| - 1], rows[|rows| - 1];
      RawReplayDiffersOnlyInThemes(sanitize, t0, rest);
      RowKeepsSameButThemes(sanitize, Replay(sanitize, t0, rest), Replay(Identity, t0, rest), rest, row);
      assert rows == rest + [row];
    }
  }

  /**
   * The theme handler records the raw theme, not the one that is stored. So folding the trail
   * literally, without sanitizing, gives the stored tenants exactly when every theme it ends on is
   * one the sanitizer leaves as it is.
   */
  lemma LiteralReplayIffThemesAreClean(env: Env, t0: Table, events: seq<Event>)
    requires WellKeyed(t0) && env.sanitize(None) == None
    ensures var s := Run(env, Start(t0), events);
            var raw := Replay(Identity, t0, s.audit);
            && s.tenants.Keys == raw.Keys
            && (raw == s.tenants
                <==> forall id | id in raw && id in Themed(s.audit) :: env.sanitize(raw[id].theme) == raw[id].theme)
  {
    var s := Run(env, Start(t0), events);
    TrailRebuildsTenants(env, t0, events);
    RawReplayDiffersOnlyInThemes(env.sanitize, t0, s.audit);
    var raw := Replay(Identity, t0, s.audit);
    if forall id | id in raw && id in Themed(s.audit) :: env.sanitize(raw[id].theme) == raw[id].theme {
      assert forall id | id in raw :: raw[id] == s.tenants[id];
    }
  }

  /** Two edits of one field that read before either commits: the second row's `before` is out of date. */
  lemma OvertakenBeforeIsStale(env: Env, t0: Table, id: string, actor: Actor)
    requires WellKeyed(t0) && id in t0 && id != "" && t0[id].allowedOrigins == []
    ensures var first, second := JArray([JString("a")]), JArray([JString("b")]);
            var events := [Receive(0, actor, OriginsRequest(Some(id), Some(first))),
                           Receive(1, actor, OriginsRequest(Some(id), Some(second))),
                           Commit(0, 0), Commit(1, 1)];
            var s := Run(env, Start(t0), events);
            && |s.audit| == 2
            && Changes(s.audit[1], id, "allowedOrigins")
            && BeforeOf(s.audit[1], "allowedOrigins") != Field(Replay(env.sanitize, t0, s.audit[..1]), id, "allowedOrigins")
  {
    var first, second := JArray([JString("a")]), JArray([JString("b")]);
    var e0, e1 := Receive(0, actor, OriginsRequest(Some(id), Some(first))), Receive(1, actor, OriginsRequest(Some(id), Some(second)));
    FourSteps(env, Start(t0), e0, e1, Commit(0, 0), Commit(1, 1));
    BothCommit(env, t0, id, actor, first, second);
    TrailRebuildsTenants(env, t0, [e0, e1, Commit(0, 0)]);
    assert |FromStrings(["a"]).items| == 1 && |FromStrings([]).items| == 0;
  }

  lemma FourSteps(env: Env, s: State, e0: Event, e1: Event, e2: Event, e3: Event)
    ensures Run(env, s, [e0]) == Step(env, s, e0)
    ensures Run(env, s, [e0, e1]) == Step(env, Run(env, s, [e0]), e1)
    ensures Run(env, s, [e0, e1, e2]) == Step(env, Run(env, s, [e0, e1]), e2)
    ensures Run(env, s, [e0, e1, e2, e3]) == Step(env, Run(env, s, [e0, e1, e2]), e3)
  {
    RunOneMore(env, s, [], e0);
    RunOneMore(env, s, [e0], e1);
    RunOneMore(env, s, [e0, e1], e2);
    RunOneMore(env, s, [e0, e1, e2], e3);
    assert [] + [e0] == [e0] && [e0] + [e1] == [e0, e1] && [e0, e1] + [e2] == [e0, e1, e2];
    assert [e0, e1, e2] + [e3] == [e0, e1, e2, e3];
  }

  lemma RunOneMore(env: Env, s: State, events: seq<Event>, e: Event)
    ensures Run(env, s, events + [e]) == Step(env, Run(env, s, events), e)
  {
    assert (events + [e])[..|events|] == events;
  }

  lemma BothCommit(env: Env, t0: Table, id: string, actor: Actor, first: Json, second: Json)
    requires id in t0 && id != "" && IsStringArray(Some(first)) && IsStringArray(Some(second))
    requires WellKeyed(t0)
    ensures var e0, e1 := Receive(0, actor, OriginsRequest(Some(id), Some(first))), Receive(1, actor, OriginsRequest(Some(id), Some(second)));
            var s3 := Step(env, Step(env, Step(env, Start(t0), e0), e1), Commit(0, 0));
            var s := Step(env, s3, Commit(1, 1));
            && |s.audit| == 2 && s.audit[..1] == s3.audit
            && Changes(s.audit[1], id, "allowedOrigins")
            && BeforeOf(s.audit[1], "allowedOrigins") == FromStrings(t0[id].allowedOrigins)
            && id in s3.tenants && s3.tenants[id].allowedOrigins == Strings(first)
  {
    var e0, e1 := Receive(0, actor, OriginsRequest(Some(id), Some(first))), Receive(1, actor, OriginsRequest(Some(id), Some(second)));
    var s2 := Step(env, Step(env, Start(t0), e0), e1);
    assert s2.pending.Keys == {0, 1} && s2.tenants == t0 && s2.audit == [];
    var s3 := Step(env, s2, Commit(0, 0));
    assert s3.pending.Keys == {1} && |s3.audit| == 1;
  }

  // ----- the handlers and their transaction ------------------------------------------

  /** The panel process over its database: fields changed in place, one method per handler step. */
  class TenantPanel {
    const env: Env
    var tenants: Table
    var audit: seq<AuditRow>
    var origin: seq<Pending>
    var pending: map<nat, Pending>

    constructor (env: Env, tenants: Table)
      ensures this.env == env && View() == Start(tenants)
    {
      this.env, this.tenants, audit, origin, pending := env, tenants, [], [], map[];
    }

    function View(): State
      reads this
    {
      State(tenants, audit, origin, pending)
    }

    method Receive(rid: nat, actor: Actor, request: Request) returns (status: Option<int>)
      modifies this
      ensures View() == Step(env, old(View()), Event.Receive(rid, actor, request))
      ensures status == Respond(env, old(View()), Event.Receive(rid, actor, request))
    {
      if rid in pending { return None; }
      var write := Prepare(env, tenants, request);
      if write.Answer? { return Some(write.status); }
      pending := pending[rid := Pending(actor, request, |audit|, write)];
      status := None;
    }

    /**
     * `withTransactionalWitness`: mutate, stop on a refusal, write the witness row, commit - and on
     * any throw put back what BEGIN saw. `None` is the re-thrown error.
     */
    method Transact(p: Pending, now: int, mutationThrows: bool, witnessThrows: bool) returns (result: Option<Outcome>)
      requires p.write.Ready?
      modifies this`tenants, this`audit, this`origin
      ensures var o := Apply(env.sanitize, old(tenants), p.write.mutation);
              if mutationThrows || (o.Stored? && witnessThrows) then result == None && View() == old(View())
              else
                && result == Some(o)
                && tenants == After(old(tenants), o)
                && audit == old(audit) + (if o.Stored? then [RowOf(p, now)] else [])
                && origin == old(origin) + (if o.Stored? then [p] else [])
    {
      var savedTenants, savedAudit, savedOrigin := tenants, audit, origin;
      if mutationThrows { return None; }
      var o := Apply(env.sanitize, tenants, p.write.mutation);
      if o.Refused? { return Some(o); }
      tenants := tenants[o.tenant.id := o.tenant];
      audit := audit + [RowOf(p, now)];
      origin := origin + [p];
      if witnessThrows {
        tenants, audit, origin := savedTenants, savedAudit, savedOrigin;
        return None;
      }
      result := Some(o);
    }

    method Commit(rid: nat, now: int, mutationThrows: bool, witnessThrows: bool) returns (status: Option<int>)
      requires rid in pending && pending[rid].write.Ready?
      modifies this
      ensures var o := Apply(env.sanitize, old(tenants), old(pending)[rid].write.mutation);
              var e := if mutationThrows || (o.Stored? && witnessThrows) then Fail(rid) else Event.Commit(rid, now);
              View() == Step(env, old(View()), e) && status == Respond(env, old(View()), e)
    {
      var p := pending[rid];
      var result := Transact(p, now, mutationThrows, witnessThrows);
      pending := pending - {rid};
      if result.None? { return Some(500); }
      var o := result.value;
      if o.Refused? { return Some(RefusalStatus(p.write.mutation, o.reason)); }
      status := Some(if p.write.mutation.CreateTenant? then 201 else 200);
    }
  }
}
