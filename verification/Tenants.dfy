/**
 * Tenant records and the repository that stores them: the meaning of each write as one function
 * on the tenant table, and the two adapters that must implement it - the in-memory one, which keeps
 * a second index by embed key, and the transactional one, which commits a write with its witness.
 */
module Tenants {
  import opened Optional

  /** JSON as it crosses the HTTP boundary and as `changes jsonb` stores it. */
  datatype Json =
    | JNull
    | JBool(b: bool)
    | JNumber(n: int)
    | JString(s: string)
    | JArray(items: seq<Json>)
    | JObject(fields: map<string, Json>)

  datatype Tenant = Tenant(
    id: string,
    embedKey: string,
    allowedOrigins: seq<string>,
    entitledGames: seq<string>,
    validFrom: Option<int>,
    validUntil: Option<int>,
    theme: Option<Json>)

  type Table = map<string, Tenant>

  /** `sanitizeTenantTheme`, left uninterpreted: whatever it keeps of a raw theme is what is stored. */
  type Sanitizer = Option<Json> -> Option<Json>

  datatype Mutation =
    | CreateTenant(id: string, embedKey: string, origins: seq<string>, games: seq<string>, raw: Option<Json>)
    | SetOrigins(id: string, origins: seq<string>)
    | SetGames(id: string, games: seq<string>)
    | SetTheme(id: string, raw: Option<Json>)
    | RotateKey(id: string, embedKey: string)
    | SetWindow(id: string, validFrom: Option<int>, validUntil: Option<int>)

  datatype Refusal = TenantIdTaken | EmbedKeyTaken | UnknownTenant | InvalidWindow
  datatype Outcome = Stored(tenant: Tenant) | Refused(reason: Refusal)

  predicate WindowOrdered(validFrom: Option<int>, validUntil: Option<int>) {
    validFrom.None? || validUntil.None? || validFrom.value < validUntil.value
  }

  /** Another tenant than `id` already embeds with this key. */
  predicate KeyTaken(t: Table, key: string, id: string) {
    exists other | other in t :: other != id && t[other].embedKey == key
  }

  /** What a write answers on a table: the record it would store, or why it is refused. */
  function Apply(sanitize: Sanitizer, t: Table, m: Mutation): Outcome {
    match m
    case CreateTenant(id, key, origins, games, raw) =>
      if id in t then Refused(TenantIdTaken)
      else if KeyTaken(t, key, id) then Refused(EmbedKeyTaken)
      else Stored(Tenant(id, key, origins, games, None, None, sanitize(raw)))
    case SetOrigins(id, origins) =>
      if id !in t then Refused(UnknownTenant) else Stored(t[id].(allowedOrigins := origins))
    case SetGames(id, games) =>
      if id !in t then Refused(UnknownTenant) else Stored(t[id].(entitledGames := games))
    case SetTheme(id, raw) =>
      if id !in t then Refused(UnknownTenant) else Stored(t[id].(theme := sanitize(raw)))
    case RotateKey(id, key) =>
      if id !in t then Refused(UnknownTenant)
      else if KeyTaken(t, key, id) then Refused(EmbedKeyTaken)
      else Stored(t[id].(embedKey := key))
    case SetWindow(id, from, until) =>
      if !WindowOrdered(from, until) then Refused(InvalidWindow)
      else if id !in t then Refused(UnknownTenant)
      else Stored(t[id].(validFrom := from, validUntil := until))
  }

  /** A window is refused exactly when it has both ends and does not end after it starts. */
  lemma WindowRefusedIff(sanitize: Sanitizer, t: Table, id: string, from: Option<int>, until: Option<int>)
    ensures Apply(sanitize, t, SetWindow(id, from, until)) == Refused(InvalidWindow)
       <==> from.Some? && until.Some? && until.value <= from.value
  {
  }

  /** The table after a write: unchanged by a refusal. */
  function After(t: Table, o: Outcome): Table {
    if o.Stored? then t[o.tenant.id := o.tenant] else t
  }

  /** Rows are filed under their own id and no two share an embed key (both are UNIQUE columns). */
  ghost predicate WellKeyed(t: Table) {
    && (forall id | id in t :: t[id].id == id)
    && (forall a, b | a in t && b in t && t[a].embedKey == t[b].embedKey :: a == b)
  }

  lemma WriteKeepsWellKeyed(sanitize: Sanitizer, t: Table, m: Mutation)
    requires WellKeyed(t)
    ensures WellKeyed(After(t, Apply(sanitize, t, m)))
  {
  }

  /**
   * The in-memory adapter. It answers the key lookups from a second map instead of a scan, so every
   * write has to keep the two maps images of each other.
   */
  class StaticTenantAdminRepository {
    var byId: Table
    var byEmbedKey: map<string, Tenant>
    const sanitize: Sanitizer

    ghost predicate Valid()
      reads this
    {
      && (forall id | id in byId ::
            && byId[id].id == id
            && byId[id].embedKey in byEmbedKey
            && byEmbedKey[byId[id].embedKey] == byId[id])
      && (forall key | key in byEmbedKey ::
            && byEmbedKey[key].embedKey == key
            && byEmbedKey[key].id in byId
            && byId[byEmbedKey[key].id] == byEmbedKey[key])
    }

    constructor (sanitize: Sanitizer)
      ensures Valid() && byId == map[] && this.sanitize == sanitize
    {
      byId, byEmbedKey, this.sanitize := map[], map[], sanitize;
    }

    lemma IndexAnswersTheScan(key: string, id: string)
      requires Valid()
      ensures WellKeyed(byId)
      ensures KeyTaken(byId, key, id) <==> key in byEmbedKey && byEmbedKey[key].id != id
    {
    }

    /** `store`: both maps, under the record's own id and key. */
    method Store(tenant: Tenant)
      modifies this
      ensures byId == old(byId)[tenant.id := tenant]
      ensures byEmbedKey == old(byEmbedKey)[tenant.embedKey := tenant]
    {
      byId := byId[tenant.id := tenant];
      byEmbedKey := byEmbedKey[tenant.embedKey := tenant];
    }

    method Create(id: string, key: string, origins: seq<string>, games: seq<string>, raw: Option<Json>)
      returns (o: Outcome)
      requires Valid()
      modifies this
      ensures Valid()
      ensures o == Apply(sanitize, old(byId), CreateTenant(id, key, origins, games, raw))
      ensures byId == After(old(byId), o)
      ensures o.Stored? ==>
                && id !in old(byId) && id in byId && byId[id].embedKey == key
                && byId[id].allowedOrigins == origins && byId[id].entitledGames == games
                && byId[id].validFrom.None? && byId[id].validUntil.None? && byId[id].theme == sanitize(raw)
    {
      IndexAnswersTheScan(key, id);
      if id in byId { return Refused(TenantIdTaken); }
      if key in byEmbedKey { return Refused(EmbedKeyTaken); }
      var tenant := Tenant(id, key, origins, games, None, None, sanitize(raw));
      Store(tenant);
      o := Stored(tenant);
    }

    method UpdateAllowedOrigins(id: string, origins: seq<string>) returns (o: Outcome)
      requires Valid()
      modifies this
      ensures Valid()
      ensures o == Apply(sanitize, old(byId), SetOrigins(id, origins)) && byId == After(old(byId), o)
    {
      if id !in byId { return Refused(UnknownTenant); }
      var tenant := byId[id].(allowedOrigins := origins);
      Store(tenant);
      o := Stored(tenant);
    }

    method UpdateEntitledGames(id: string, games: seq<string>) returns (o: Outcome)
      requires Valid()
      modifies this
      ensures Valid()
      ensures o == Apply(sanitize, old(byId), SetGames(id, games)) && byId == After(old(byId), o)
    {
      if id !in byId { return Refused(UnknownTenant); }
      var tenant := byId[id].(entitledGames := games);
      Store(tenant);
      o := Stored(tenant);
    }

    method UpdateTheme(id: string, raw: Option<Json>) returns (o: Outcome)
      requires Valid()
      modifies this
      ensures Valid()
      ensures o == Apply(sanitize, old(byId), SetTheme(id, raw)) && byId == After(old(byId), o)
    {
      if id !in byId { return Refused(UnknownTenant); }
      var tenant := byId[id].(theme := sanitize(raw));
      Store(tenant);
      o := Stored(tenant);
    }

    /** The old key leaves the index before the new one enters it; rotating to one's own key is allowed. */
    method RotateEmbedKey(id: string, key: string) returns (o: Outcome)
      requires Valid()
      modifies this
      ensures Valid()
      ensures o == Apply(sanitize, old(byId), RotateKey(id, key)) && byId == After(old(byId), o)
    {
      IndexAnswersTheScan(key, id);
      if id !in byId { return Refused(UnknownTenant); }
      var existing := byId[id];
      if key in byEmbedKey && byEmbedKey[key] != existing { return Refused(EmbedKeyTaken); }
      byEmbedKey := byEmbedKey - {existing.embedKey};
      var tenant := existing.(embedKey := key);
      Store(tenant);
      o := Stored(tenant);
    }

    /** Unlike the transactional adapter, this one looks for the tenant before it checks the window. */
    method SetValidityWindow(id: string, from: Option<int>, until: Option<int>) returns (o: Outcome)
      requires Valid()
      modifies this
      ensures Valid()
      ensures byId == After(old(byId), o)
      ensures id in old(byId) ==> o == Apply(sanitize, old(byId), SetWindow(id, from, until))
      ensures id !in old(byId) ==> o == Refused(UnknownTenant)
      ensures o == Refused(InvalidWindow)
         <==> id in old(byId) && from.Some? && until.Some? && until.value <= from.value
    {
      if id !in byId { return Refused(UnknownTenant); }
      if !WindowOrdered(from, until) { return Refused(InvalidWindow); }
      var tenant := byId[id].(validFrom := from, validUntil := until);
      Store(tenant);
      o := Stored(tenant);
    }
  }
}
