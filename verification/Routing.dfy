/**
 * The panel's route table and its resolution: segments, captured parameters, the scan, and which
 * routes may go round the authorization checkpoint. The scan is compared with a decision tree that
 * never looks at the table, which makes the order of the entries irrelevant.
 */
module Routing {
  import opened Optional
  import opened OperatorSessions
  import Cookie = SessionCookie
  import Text

  datatype Kind =
    | LoginForm | LoginSubmit | Asset | Logout | OwnPassword
    | TenantList | TenantDetail | TenantCreate | TenantOrigins | TenantGames | TenantWindow | TenantTheme | TenantRotateKey
    | OperatorList | OperatorCreate | OperatorEnable | OperatorDisable | OperatorGrant | OperatorRevoke
    | AuditView | NotFound

  /** The path is written as its segments: `/tenants/:id` is `["tenants", ":id"]`, and `/` is `[]`. */
  datatype Definition = Definition(method_: string, segments: seq<string>, kind: Kind, guard: RouteAccess)

  const EDIT := NeedsPermission("tenant.origins.edit")
  const MANAGES := NeedsPermission(MANAGE)

  predicate Tabled(k: Kind) { k != Asset && k != NotFound }

  function Entry(k: Kind): Definition
    requires Tabled(k)
  {
    match k
    case LoginForm => Definition("GET", ["login"], k, Public)
    case LoginSubmit => Definition("POST", ["login"], k, Public)
    case Logout => Definition("POST", ["logout"], k, Authenticated)
    case OwnPassword => Definition("POST", ["account", "password"], k, Authenticated)
    case TenantList => Definition("GET", [], k, EDIT)
    case TenantDetail => Definition("GET", ["tenants", ":id"], k, EDIT)
    case TenantCreate => Definition("POST", ["tenants"], k, NeedsPermission("tenant.create"))
    case TenantOrigins => Definition("POST", ["tenants", ":id", "origins"], k, EDIT)
    case TenantGames => Definition("POST", ["tenants", ":id", "games"], k, NeedsPermission("tenant.games.edit"))
    case TenantWindow => Definition("POST", ["tenants", ":id", "window"], k, NeedsPermission("tenant.window.edit"))
    case TenantTheme => Definition("POST", ["tenants", ":id", "theme"], k, EDIT)
    case TenantRotateKey =>
      Definition("POST", ["tenants", ":id", "embed-key", "rotate"], k, NeedsPermission("tenant.embed-key.rotate"))
    case OperatorList => Definition("GET", ["operators"], k, MANAGES)
    case OperatorCreate => Definition("POST", ["operators"], k, MANAGES)
    case OperatorEnable => Definition("POST", ["operators", ":id", "enable"], k, MANAGES)
    case OperatorDisable => Definition("POST", ["operators", ":id", "disable"], k, MANAGES)
    case OperatorGrant => Definition("POST", ["operators", ":id", "permissions", "grant"], k, MANAGES)
    case OperatorRevoke => Definition("POST", ["operators", ":id", "permissions", "revoke"], k, MANAGES)
    case AuditView => Definition("GET", ["audit"], k, NeedsPermission("audit.view"))
  }

  const KINDS: seq<Kind> := [
    LoginForm, LoginSubmit, Kind.Logout, OwnPassword, TenantList, TenantDetail, TenantCreate, TenantOrigins, TenantGames,
    TenantWindow, TenantTheme, TenantRotateKey, OperatorList, OperatorCreate, OperatorEnable, OperatorDisable,
    OperatorGrant, OperatorRevoke, AuditView
  ]

  /** `params` is absent when nothing was captured; `Throws` is `decodeURIComponent` refusing a segment. */
  datatype Outcome = Route(kind: Kind, guard: RouteAccess, params: Option<map<string, string>>) | Throws

  const NOT_FOUND := Route(NotFound, Public, None)

  /** `decodeURIComponent`, `None` where it throws. */
  type Decoder = string -> Option<string>

  // ----- segments --------------------------------------------------------------------

  function NonEmpty(parts: seq<string>): seq<string> {
    if parts == [] then [] else (if |parts[0]| > 0 then [parts[0]] else []) + NonEmpty(parts[1..])
  }

  function SegmentsOf(pathname: string): seq<string> { NonEmpty(Text.Split(pathname, '/')) }

  predicate IsSegment(s: string) { s != "" && '/' !in s }

  lemma {:induction false} NonEmptyOfNonEmpty(parts: seq<string>)
    requires forall i | 0 <= i < |parts| :: |parts[i]| > 0
    ensures NonEmpty(parts) == parts
  {
    if parts != [] {
      NonEmptyOfNonEmpty(parts[1..]);
      assert parts == [parts[0]] + parts[1..];
    }
  }

  function PathOf(segments: seq<string>): string { "/" + Text.Join(segments, "/") }

  /** Cutting a path that was put together from segments gives the segments back. */
  lemma SegmentsOfPath(segments: seq<string>)
    requires forall s | s in segments :: IsSegment(s)
    ensures SegmentsOf(PathOf(segments)) == segments
  {
    var joined := Text.Join(segments, "/");
    assert PathOf(segments) == "" + ['/'] + joined;
    Text.SplitAtSeparator("", joined, '/');
    Text.SplitOfPlain("", '/');
    if segments == [] {
      Text.SplitOfPlain(joined, '/');
      assert Text.Split(PathOf(segments), '/') == ["", ""];
      assert NonEmpty([""]) == [] && ["", ""][1..] == [""];
    } else {
      Text.SplitOfJoin(segments, '/');
      assert ([""] + segments)[1..] == segments;
      assert forall i | 0 <= i < |segments| :: segments[i] in segments && IsSegment(segments[i]);
      NonEmptyOfNonEmpty(segments);
    }
  }

  // ----- matching and scanning -------------------------------------------------------

  predicate IsParam(segment: string) { |segment| > 0 && segment[0] == ':' }

  datatype Match = NoMatch | Refused_ | Captured(params: map<string, string>)

  function MatchFrom(decode: Decoder, pattern: seq<string>, actual: seq<string>, i: nat, params: map<string, string>): Match
    requires i <= |pattern| == |actual|
    decreases |pattern| - i
  {
    if i == |pattern| then Captured(params)
    else if IsParam(pattern[i]) then
      if actual[i] == "" then NoMatch
      else if decode(actual[i]).None? then Refused_
      else MatchFrom(decode, pattern, actual, i + 1, params[pattern[i][1..] := decode(actual[i]).value])
    else if pattern[i] != actual[i] then NoMatch
    else MatchFrom(decode, pattern, actual, i + 1, params)
  }

  function MatchOf(decode: Decoder, pattern: seq<string>, actual: seq<string>): Match {
    if |pattern| != |actual| then NoMatch else MatchFrom(decode, pattern, actual, 0, map[])
  }

  method MatchSegments(decode: Decoder, pattern: seq<string>, actual: seq<string>) returns (m: Match)
    ensures m == MatchOf(decode, pattern, actual)
  {
    if |pattern| != |actual| { return NoMatch; }
    var params: map<string, string> := map[];
    for i := 0 to |pattern|
      invariant MatchOf(decode, pattern, actual) == MatchFrom(decode, pattern, actual, i, params)
    {
      if IsParam(pattern[i]) {
        if actual[i] == "" { return NoMatch; }
        var decoded := decode(actual[i]);
        if decoded.None? { return Refused_; }
        params := params[pattern[i][1..] := decoded.value];
      } else if pattern[i] != actual[i] {
        return NoMatch;
      }
    }
    m := Captured(params);
  }

  /** What one entry makes of a request: pass it on (`None`), or settle it. */
  function Tried(decode: Decoder, d: Definition, method_: string, actual: seq<string>): Option<Outcome> {
    if d.method_ != method_ then None
    else
      match MatchOf(decode, d.segments, actual)
      case NoMatch => None
      case Refused_ => Some(Throws)
      case Captured(params) => Some(Route(d.kind, d.guard, if |params| > 0 then Some(params) else None))
  }

  /** The first entry to settle the request decides. */
  function Scan(decode: Decoder, kinds: seq<Kind>, method_: string, actual: seq<string>): Outcome
    requires forall k | k in kinds :: Tabled(k)
  {
    if kinds == [] then NOT_FOUND
    else
      var tried := Tried(decode, Entry(kinds[0]), method_, actual);
      if tried.Some? then tried.value else Scan(decode, kinds[1..], method_, actual)
  }

  // ----- the decision tree -----------------------------------------------------------

  /** The kind a request names, found by looking at the request alone. */
  function Named(method_: string, a: seq<string>): (k: Option<Kind>)
    ensures k.Some? ==> Tabled(k.value)
  {
    if method_ == "GET" then
      if |a| == 0 then Some(TenantList)
      else if |a| == 1 then
        if a[0] == "login" then Some(LoginForm)
        else if a[0] == "operators" then Some(OperatorList)
        else if a[0] == "audit" then Some(AuditView)
        else None
      else if |a| == 2 && a[0] == "tenants" then Some(TenantDetail)
      else None
    else if method_ == "POST" then
      if |a| == 1 then
        if a[0] == "login" then Some(LoginSubmit)
        else if a[0] == "logout" then Some(Kind.Logout)
        else if a[0] == "tenants" then Some(TenantCreate)
        else if a[0] == "operators" then Some(OperatorCreate)
        else None
      else if |a| == 2 then if a[0] == "account" && a[1] == "password" then Some(OwnPassword) else None
      else if |a| == 3 && a[0] == "tenants" then
        if a[2] == "origins" then Some(TenantOrigins)
        else if a[2] == "games" then Some(TenantGames)
        else if a[2] == "window" then Some(TenantWindow)
        else if a[2] == "theme" then Some(TenantTheme)
        else None
      else if |a| == 3 && a[0] == "operators" then
        if a[2] == "enable" then Some(OperatorEnable)
        else if a[2] == "disable" then Some(OperatorDisable)
        else None
      else if |a| == 4 && a[0] == "tenants" then
        if a[2] == "embed-key" && a[3] == "rotate" then Some(TenantRotateKey) else None
      else if |a| == 4 && a[0] == "operators" && a[2] == "permissions" then
        if a[3] == "grant" then Some(OperatorGrant) else if a[3] == "revoke" then Some(OperatorRevoke) else None
      else None
    else None
  }

  /** Some entry captures the second segment once method, length and first segment agree with it. */
  predicate Captures(method_: string, a: seq<string>) {
    || (method_ == "GET" && |a| == 2 && a[0] == "tenants")
    || (method_ == "POST" && 3 <= |a| <= 4 && (a[0] == "tenants" || a[0] == "operators"))
  }

  /** What a request resolves to, without the table and without a scan. */
  function Reference(decode: Decoder, method_: string, a: seq<string>): Outcome {
    if Captures(method_, a) && decode(a[1]).None? then Throws
    else
      var k := Named(method_, a);
      if k.None? then NOT_FOUND
      else Route(k.value, Entry(k.value).guard,
                 if Captures(method_, a) then Some(map["id" := decode(a[1]).value]) else None)
  }

  // Matching a pattern of each length in the table.

  predicate Literal(segment: string) { !IsParam(segment) }

  lemma MatchLiteral(decode: Decoder, p0: string, a: seq<string>)
    requires Literal(p0)
    ensures MatchOf(decode, [p0], a) == if |a| == 1 && a[0] == p0 then Captured(map[]) else NoMatch
  {
    if |a| == 1 {
      assert MatchFrom(decode, [p0], a, 1, map[]) == Captured(map[]);
    }
  }

  lemma MatchTwoLiterals(decode: Decoder, p0: string, p1: string, a: seq<string>)
    requires Literal(p0) && Literal(p1)
    ensures MatchOf(decode, [p0, p1], a) == if |a| == 2 && a[0] == p0 && a[1] == p1 then Captured(map[]) else NoMatch
  {
    if |a| == 2 {
      assert MatchFrom(decode, [p0, p1], a, 2, map[]) == Captured(map[]);
      assert MatchFrom(decode, [p0, p1], a, 1, map[]) == if a[1] == p1 then Captured(map[]) else NoMatch;
    }
  }

  /** Literal, parameter, then literals: the shape of every capturing entry. */
  lemma MatchCapturing(decode: Decoder, p: seq<string>, a: seq<string>)
    requires 2 <= |p| && Literal(p[0]) && p[1] == ":id" && forall i | 2 <= i < |p| :: Literal(p[i])
    requires forall s | s in a :: s != ""
    ensures MatchOf(decode, p, a)
         == if |a| != |p| || a[0] != p[0] then NoMatch
            else if decode(a[1]).None? then Refused_
            else if a[2..] == p[2..] then Captured(map["id" := decode(a[1]).value])
            else NoMatch
  {
    if |a| == |p| && a[0] == p[0] {
      assert MatchOf(decode, p, a) == MatchFrom(decode, p, a, 1, map[]);
      assert a[1] in a;
      MatchParam(decode, p, a);
      if decode(a[1]).Some? { MatchTail(decode, p, a, 2, map["id" := decode(a[1]).value]); }
    }
  }

  lemma MatchParam(decode: Decoder, p: seq<string>, a: seq<string>)
    requires 2 <= |p| == |a| && p[1] == ":id" && a[1] != ""
    ensures MatchFrom(decode, p, a, 1, map[])
         == if decode(a[1]).None? then Refused_ else MatchFrom(decode, p, a, 2, map["id" := decode(a[1]).value])
  {
    assert p[1][1..] == "id";
    if decode(a[1]).Some? {
      assert map[][p[1][1..] := decode(a[1]).value] == map["id" := decode(a[1]).value];
    }
  }

  lemma {:induction false} MatchTail(decode: Decoder, p: seq<string>, a: seq<string>, i: nat, params: map<string, string>)
    requires i <= |p| == |a| && forall j | i <= j < |p| :: Literal(p[j])
    ensures MatchFrom(decode, p, a, i, params) == if a[i..] == p[i..] then Captured(params) else NoMatch
    decreases |p| - i
  {
    if i < |p| {
      TailCons(p, a, i);
      if a[i] == p[i] { MatchTail(decode, p, a, i + 1, params); }
    }
  }

  lemma TailCons(p: seq<string>, a: seq<string>, i: nat)
    requires i < |p| == |a|
    ensures a[i..] == p[i..] <==> a[i] == p[i] && a[i + 1..] == p[i + 1..]
  {
    assert a[i..] == [a[i]] + a[i + 1..] && p[i..] == [p[i]] + p[i + 1..];
  }

  predicate Capturing(k: Kind) { Tabled(k) && |Entry(k).segments| >= 2 && k != OwnPassword }

  /** A literal entry settles exactly the requests the decision tree gives its kind. */
  lemma LiteralEntryIsReference(decode: Decoder, k: Kind, method_: string, a: seq<string>)
    requires Tabled(k) && !Capturing(k)
    ensures Tried(decode, Entry(k), method_, a)
         == if Named(method_, a) == Some(k) then Some(Reference(decode, method_, a)) else None
  {
    var p := Entry(k).segments;
    if |p| == 1 { MatchLiteral(decode, p[0], a); }
    if |p| == 2 { MatchTwoLiterals(decode, p[0], p[1], a); }
  }

  /** The entry agrees with the request up to and including the captured segment. */
  predicate Sibling(k: Kind, method_: string, a: seq<string>)
    requires Tabled(k)
  {
    method_ == Entry(k).method_ && |a| == |Entry(k).segments| >= 2 && a[0] == Entry(k).segments[0]
  }

  /** A capturing entry also throws for its siblings when the captured segment does not decode. */
  lemma CapturingEntryIsReference(decode: Decoder, k: Kind, method_: string, a: seq<string>)
    requires Capturing(k) && forall s | s in a :: s != ""
    ensures var t := Tried(decode, Entry(k), method_, a);
            && (t.Some? ==> t.value == Reference(decode, method_, a))
            && (Named(method_, a) == Some(k) ==> t.Some?)
            && (Sibling(k, method_, a) && decode(a[1]).None? ==> t.Some?)
  {
    var p := Entry(k).segments;
    CapturingShape(k);
    MatchCapturing(decode, p, a);
    if |a| == |p| { TailsEqual(p, a); }
  }

  lemma CapturingShape(k: Kind)
    requires Capturing(k)
    ensures var p := Entry(k).segments;
            2 <= |p| <= 4 && Literal(p[0]) && p[1] == ":id" && forall i | 2 <= i < |p| :: Literal(p[i])
  {
  }

  lemma TailsEqual(p: seq<string>, a: seq<string>)
    requires 2 <= |p| == |a| <= 4
    ensures a[2..] == p[2..] <==> (|p| > 2 ==> a[2] == p[2]) && (|p| > 3 ==> a[3] == p[3])
  {
    assert |p| == 3 ==> a[2..] == [a[2]] && p[2..] == [p[2]];
    assert |p| == 4 ==> a[2..] == [a[2], a[3]] && p[2..] == [p[2], p[3]];
  }

  lemma EntryIsReference(decode: Decoder, k: Kind, method_: string, a: seq<string>)
    requires Tabled(k) && forall s | s in a :: s != ""
    ensures var t := Tried(decode, Entry(k), method_, a);
            && (t.Some? ==> t.value == Reference(decode, method_, a))
            && (Named(method_, a) == Some(k) ==> t.Some?)
            && (Capturing(k) && Sibling(k, method_, a) && decode(a[1]).None? ==> t.Some?)
  {
    if Capturing(k) { CapturingEntryIsReference(decode, k, method_, a); } else { LiteralEntryIsReference(decode, k, method_, a); }
  }

  /** Whatever the decision tree does not leave unfound, some entry settles. */
  lemma SomeEntrySettles(decode: Decoder, method_: string, a: seq<string>) returns (k: Kind)
    requires (forall s | s in a :: s != "") && Reference(decode, method_, a) != NOT_FOUND
    ensures Tabled(k) && Tried(decode, Entry(k), method_, a).Some?
  {
    if Named(method_, a).Some? {
      k := Named(method_, a).value;
    } else {
      k := CapturesHasSibling(method_, a);
    }
    EntryIsReference(decode, k, method_, a);
  }

  lemma {:induction false} ScanIsReferenceIfSettled(decode: Decoder, kinds: seq<Kind>, method_: string, a: seq<string>)
    requires (forall k | k in kinds :: Tabled(k)) && forall s | s in a :: s != ""
    requires Reference(decode, method_, a) == NOT_FOUND
          || exists k | k in kinds :: Tried(decode, Entry(k), method_, a).Some?
    ensures Scan(decode, kinds, method_, a) == Reference(decode, method_, a)
  {
    if kinds != [] {
      EntryIsReference(decode, kinds[0], method_, a);
      if Tried(decode, Entry(kinds[0]), method_, a).None? {
        ScanIsReferenceIfSettled(decode, kinds[1..], method_, a);
      }
    }
  }

  /**
   * Any table with the same entries, in any order and however often repeated, resolves every request
   * as the decision tree does - the throwing ones included. So no entry shadows another.
   */
  lemma OrderIsIrrelevant(decode: Decoder, kinds: seq<Kind>, method_: string, a: seq<string>)
    requires forall k :: k in kinds <==> Tabled(k)
    requires forall s | s in a :: s != ""
    ensures Scan(decode, kinds, method_, a) == Reference(decode, method_, a)
  {
    if Reference(decode, method_, a) != NOT_FOUND {
      var k := SomeEntrySettles(decode, method_, a);
      assert k in kinds;
    }
    ScanIsReferenceIfSettled(decode, kinds, method_, a);
  }

  /** At most one entry matches a request, and none throws on a request another one matches. */
  lemma AtMostOneEntryMatches(decode: Decoder, j: Kind, k: Kind, method_: string, a: seq<string>)
    requires Tabled(j) && Tabled(k) && forall s | s in a :: s != ""
    requires Tried(decode, Entry(j), method_, a).Some? && Tried(decode, Entry(j), method_, a).value.Route?
    requires Tried(decode, Entry(k), method_, a).Some?
    ensures j == k
  {
    EntryIsReference(decode, j, method_, a);
    EntryIsReference(decode, k, method_, a);
  }

  /** Where the table lists a kind. */
  function PositionOf(k: Kind): nat {
    match k
    case LoginForm => 0 case LoginSubmit => 1 case Logout => 2 case OwnPassword => 3 case TenantList => 4
    case TenantDetail => 5 case TenantCreate => 6 case TenantOrigins => 7 case TenantGames => 8 case TenantWindow => 9
    case TenantTheme => 10 case TenantRotateKey => 11 case OperatorList => 12 case OperatorCreate => 13
    case OperatorEnable => 14 case OperatorDisable => 15 case OperatorGrant => 16 case OperatorRevoke => 17
    case _ => 18
  }

  lemma KindIsListed(k: Kind)
    requires Tabled(k)
    ensures k in KINDS
  {
    assert KINDS[PositionOf(k)] == k;
  }

  lemma KindsAreTheTabled()
    ensures forall k :: k in KINDS <==> Tabled(k)
  {
    forall k | Tabled(k) ensures k in KINDS { KindIsListed(k); }
  }

  // ----- assets ----------------------------------------------------------------------

  const ASSET_PREFIX := "/assets/"

  predicate Includes(s: string, part: string) {
    part <= s || (s != "" && Includes(s[1..], part))
  }

  function AssetFileName(pathname: string): Option<string>
    requires ASSET_PREFIX <= pathname
  {
    var file := pathname[|ASSET_PREFIX|..];
    if file == "" || Includes(file, "/") || Includes(file, "\\") || Includes(file, "..")
       || Includes(file, "%2f") || Includes(file, "%2F")
    then None else Some(file)
  }

  function Resolve(decode: Decoder, method_: string, pathname: string): Outcome {
    if method_ == "GET" && ASSET_PREFIX <= pathname then
      var file := AssetFileName(pathname);
      if file.None? then NOT_FOUND else Route(Asset, Public, Some(map["file" := file.value]))
    else Reference(decode, method_, SegmentsOf(pathname))
  }

  lemma {:induction false} NonEmptyHasNoEmpty(parts: seq<string>)
    ensures forall s | s in NonEmpty(parts) :: s != ""
  {
    if parts != [] { NonEmptyHasNoEmpty(parts[1..]); }
  }

  lemma EntryPath(k: Kind)
    requires Tabled(k)
    ensures SegmentsOf(PathOf(Entry(k).segments)) == Entry(k).segments
  {
    SegmentsOfPath(Entry(k).segments);
  }

  /** The scan over the written table, entry by entry. */
  method ResolveAdminRoute(decode: Decoder, method_: string, pathname: string) returns (r: Outcome)
    ensures r == Resolve(decode, method_, pathname)
  {
    if method_ == "GET" && ASSET_PREFIX <= pathname {
      var file := AssetFileName(pathname);
      return if file.None? then NOT_FOUND else Route(Asset, Public, Some(map["file" := file.value]));
    }
    var actual := SegmentsOf(pathname);
    NonEmptyHasNoEmpty(Text.Split(pathname, '/'));
    KindsAreTheTabled();
    OrderIsIrrelevant(decode, KINDS, method_, actual);
    assert KINDS[0..] == KINDS;
    for i := 0 to |KINDS|
      invariant Scan(decode, KINDS[i..], method_, actual) == Scan(decode, KINDS, method_, actual)
    {
      var route := Entry(KINDS[i]);
      assert KINDS[i..][0] == KINDS[i] && KINDS[i..][1..] == KINDS[i + 1..];
      if route.method_ == method_ {
        EntryPath(KINDS[i]);
        var m := MatchSegments(decode, SegmentsOf(PathOf(route.segments)), actual);
        if m.Refused_? { return Throws; }
        if m.Captured? { return Route(route.kind, route.guard, if |m.params| > 0 then Some(m.params) else None); }
      }
    }
    r := NOT_FOUND;
  }

  // ----- what resolution promises ----------------------------------------------------

  /** The path of a route with a value in its captured place. */
  function Rendered(k: Kind, value: string): string
    requires Tabled(k)
  {
    PathOf(RenderedSegments(k, value))
  }

  lemma RenderedIsNoAsset(k: Kind, value: string)
    requires Tabled(k) && Entry(k).method_ == "GET"
    ensures !(ASSET_PREFIX <= Rendered(k, value))
  {
    var s := RenderedSegments(k, value);
    if s == [] {
      assert |Rendered(k, value)| == 1;
    } else {
      var rest := Text.Join(s, "/");
      assert s[0] <= rest;
      assert Rendered(k, value)[1..] == rest;
      if ASSET_PREFIX <= Rendered(k, value) {
        HeadIsNotAssets(s[0], rest);
      }
    }
  }

  lemma HeadIsNotAssets(head: string, rest: string)
    requires head == "login" || head == "operators" || head == "audit" || head == "tenants"
    requires head <= rest
    ensures !("assets/" <= rest)
  {
    assert rest[0] == head[0] && rest[1] == head[1];
  }

  function RenderedSegments(k: Kind, value: string): seq<string>
    requires Tabled(k)
  {
    if Capturing(k) then Entry(k).segments[1 := value] else Entry(k).segments
  }

  lemma RenderedIsNamed(k: Kind, value: string)
    requires Tabled(k)
    ensures var s := RenderedSegments(k, value);
            && Named(Entry(k).method_, s) == Some(k)
            && (Captures(Entry(k).method_, s) <==> Capturing(k))
            && (Capturing(k) ==> s[1] == value)
  {
  }

  lemma RenderedAreSegments(k: Kind, value: string)
    requires Tabled(k) && IsSegment(value)
    ensures SegmentsOf(Rendered(k, value)) == RenderedSegments(k, value)
  {
    var s := RenderedSegments(k, value);
    forall i | 0 <= i < |s| ensures IsSegment(s[i]) {
      if !(Capturing(k) && i == 1) { assert s[i] == Entry(k).segments[i]; }
    }
    SegmentsOfPath(s);
  }

  /** Rendering any route with a non-empty, slash-free, decodable segment resolves to that route, guard and parameter. */
  lemma RenderThenResolve(decode: Decoder, k: Kind, value: string)
    requires Tabled(k) && IsSegment(value) && decode(value).Some?
    ensures Resolve(decode, Entry(k).method_, Rendered(k, value))
         == Route(k, Entry(k).guard, if Capturing(k) then Some(map["id" := decode(value).value]) else None)
  {
    if Entry(k).method_ == "GET" { RenderedIsNoAsset(k, value); }
    RenderedAreSegments(k, value);
    RenderedIsNamed(k, value);
  }

  lemma AssetsAreUnderAssets(pathname: string)
    requires ASSET_PREFIX <= pathname
    ensures |SegmentsOf(pathname)| > 0 && SegmentsOf(pathname)[0] == "assets"
  {
    var rest, head := pathname[|ASSET_PREFIX|..], "assets";
    assert ASSET_PREFIX == ("" + ['/']) + (head + ['/']);
    assert pathname == "" + ['/'] + (head + ['/'] + rest);
    Text.SplitAtSeparator("", head + ['/'] + rest, '/');
    Text.SplitAtSeparator(head, rest, '/');
    Text.SplitOfPlain("", '/');
    Text.SplitOfPlain(head, '/');
    var parts := Text.Split(pathname, '/');
    assert parts[0] == "" && parts[1] == head && NonEmpty(parts) == NonEmpty(parts[1..]);
  }

  /** A path, however its slashes stand, whose segments are an entry's with a readable id in the captured place. */
  lemma RequestOf(decode: Decoder, k: Kind, pathname: string, id: string)
    requires Tabled(k) && decode(id).Some? && SegmentsOf(pathname) == RenderedSegments(k, id)
    ensures Resolve(decode, Entry(k).method_, pathname)
         == Route(k, Entry(k).guard, if Capturing(k) then Some(map["id" := decode(id).value]) else None)
  {
    RenderedIsNamed(k, id);
    if ASSET_PREFIX <= pathname {
      AssetsAreUnderAssets(pathname);
      NoEntryUnderAssets(k, id);
    }
  }

  lemma NoEntryUnderAssets(k: Kind, id: string)
    requires Tabled(k)
    ensures RenderedSegments(k, id) == [] || RenderedSegments(k, id)[0] != "assets"
  {
  }

  /** What each request about an operator leads to: the account, named in the path, by an account manager. */
  lemma RequestsAboutAnOperator(decode: Decoder, pathname: string, id: string, action: seq<string>)
    requires decode(id).Some? && SegmentsOf(pathname) == ["operators", id] + action
    ensures var r, params := Resolve(decode, "POST", pathname), Some(map["id" := decode(id).value]);
            && (action == ["enable"] ==> r == Route(OperatorEnable, NeedsPermission("operators.manage"), params))
            && (action == ["disable"] ==> r == Route(OperatorDisable, NeedsPermission("operators.manage"), params))
  {
    if action == ["enable"] { RequestOf(decode, OperatorEnable, pathname, id); }
    if action == ["disable"] { RequestOf(decode, OperatorDisable, pathname, id); }
  }

  /** ... their permissions included. */
  lemma MoreRequestsAboutAnOperator(decode: Decoder, pathname: string, id: string, action: seq<string>)
    requires decode(id).Some? && SegmentsOf(pathname) == ["operators", id] + action
    ensures var r, params := Resolve(decode, "POST", pathname), Some(map["id" := decode(id).value]);
            && (action == ["permissions", "grant"] ==> r == Route(OperatorGrant, NeedsPermission("operators.manage"), params))
            && (action == ["permissions", "revoke"] ==> r == Route(OperatorRevoke, NeedsPermission("operators.manage"), params))
  {
    if action == ["permissions", "grant"] { RequestOf(decode, OperatorGrant, pathname, id); }
    if action == ["permissions", "revoke"] { RequestOf(decode, OperatorRevoke, pathname, id); }
  }

  /** What each request about a tenant leads to, and which of the five tenant permissions it takes. */
  lemma RequestsAboutATenant(decode: Decoder, pathname: string, id: string, action: seq<string>)
    requires decode(id).Some? && SegmentsOf(pathname) == ["tenants", id] + action
    ensures var r, params := Resolve(decode, "POST", pathname), Some(map["id" := decode(id).value]);
            && (action == ["origins"] ==> r == Route(TenantOrigins, NeedsPermission("tenant.origins.edit"), params))
            && (action == ["games"] ==> r == Route(TenantGames, NeedsPermission("tenant.games.edit"), params))
            && (action == ["window"] ==> r == Route(TenantWindow, NeedsPermission("tenant.window.edit"), params))
            && (action == ["theme"] ==> r == Route(TenantTheme, NeedsPermission("tenant.origins.edit"), params))
  {
    if action == ["origins"] { RequestOf(decode, TenantOrigins, pathname, id); }
    if action == ["games"] { RequestOf(decode, TenantGames, pathname, id); }
    if action == ["window"] { RequestOf(decode, TenantWindow, pathname, id); }
    if action == ["theme"] { RequestOf(decode, TenantTheme, pathname, id); }
  }

  /** ... seeing it and changing its key included. */
  lemma MoreRequestsAboutATenant(decode: Decoder, pathname: string, id: string, action: seq<string>)
    requires decode(id).Some? && SegmentsOf(pathname) == ["tenants", id] + action
    ensures var params := Some(map["id" := decode(id).value]);
            && (action == [] ==> Resolve(decode, "GET", pathname) == Route(TenantDetail, NeedsPermission("tenant.origins.edit"), params))
            && (action == ["embed-key", "rotate"] ==>
                  Resolve(decode, "POST", pathname) == Route(TenantRotateKey, NeedsPermission("tenant.embed-key.rotate"), params))
  {
    if action == [] { RequestOf(decode, TenantDetail, pathname, id); }
    if action == ["embed-key", "rotate"] { RequestOf(decode, TenantRotateKey, pathname, id); }
  }

  lemma PlainRequestOf(decode: Decoder, k: Kind, pathname: string)
    requires Tabled(k) && !Capturing(k) && SegmentsOf(pathname) == Entry(k).segments
    ensures Resolve(decode, Entry(k).method_, pathname) == Route(k, Entry(k).guard, None)
  {
    RenderedIsNamed(k, "");
    if ASSET_PREFIX <= pathname {
      AssetsAreUnderAssets(pathname);
      NoEntryUnderAssets(k, "");
    }
  }

  /** What the requests without a parameter lead to. */
  lemma PlainRequests(decode: Decoder, pathname: string, a: seq<string>)
    requires SegmentsOf(pathname) == a
    ensures a == ["login"] ==> Resolve(decode, "GET", pathname) == Route(LoginForm, Public, None)
    ensures a == ["login"] ==> Resolve(decode, "POST", pathname) == Route(LoginSubmit, Public, None)
    ensures a == ["logout"] ==> Resolve(decode, "POST", pathname) == Route(Kind.Logout, Authenticated, None)
    ensures a == ["account", "password"] ==> Resolve(decode, "POST", pathname) == Route(OwnPassword, Authenticated, None)
  {
    if a == ["login"] {
      PlainRequestOf(decode, LoginForm, pathname);
      PlainRequestOf(decode, LoginSubmit, pathname);
    }
    if a == ["logout"] { PlainRequestOf(decode, Kind.Logout, pathname); }
    if a == ["account", "password"] { PlainRequestOf(decode, OwnPassword, pathname); }
  }

  /** ... what the list of tenants and the creation of one take ... */
  lemma TenantListRequests(decode: Decoder, pathname: string, a: seq<string>)
    requires SegmentsOf(pathname) == a
    ensures a == [] ==> Resolve(decode, "GET", pathname) == Route(TenantList, NeedsPermission("tenant.origins.edit"), None)
    ensures a == ["tenants"] ==> Resolve(decode, "POST", pathname) == Route(TenantCreate, NeedsPermission("tenant.create"), None)
  {
    if a == [] { PlainRequestOf(decode, TenantList, pathname); }
    if a == ["tenants"] { PlainRequestOf(decode, TenantCreate, pathname); }
  }

  /** ... those of operators; and the audit log. */
  lemma OperatorListRequests(decode: Decoder, pathname: string, a: seq<string>)
    requires SegmentsOf(pathname) == a
    ensures a == ["operators"] ==> Resolve(decode, "GET", pathname) == Route(OperatorList, NeedsPermission("operators.manage"), None)
    ensures a == ["operators"] ==> Resolve(decode, "POST", pathname) == Route(OperatorCreate, NeedsPermission("operators.manage"), None)
  {
    if a == ["operators"] {
      PlainRequestOf(decode, OperatorList, pathname);
      PlainRequestOf(decode, OperatorCreate, pathname);
    }
  }

  lemma AuditRequests(decode: Decoder, pathname: string, a: seq<string>)
    requires SegmentsOf(pathname) == a
    ensures a == ["audit"] ==> Resolve(decode, "GET", pathname) == Route(AuditView, NeedsPermission("audit.view"), None)
  {
    if a == ["audit"] { PlainRequestOf(decode, AuditView, pathname); }
  }

  const PERMISSIONS: set<Permission> := {
    "tenant.create", "tenant.origins.edit", "tenant.games.edit", "tenant.window.edit", "tenant.embed-key.rotate",
    "operators.manage", "audit.view"
  }

  /** What a named kind asks for, by the first segment of the request that named it. */
  lemma GuardOfNamed(method_: string, a: seq<string>)
    requires Named(method_, a).Some? && a != []
    ensures var guard := Entry(Named(method_, a).value).guard;
            && (a[0] == "operators" ==> guard == NeedsPermission("operators.manage"))
            && (a[0] == "audit" ==> guard == NeedsPermission("audit.view"))
            && (a[0] == "tenants" ==>
                  guard.NeedsPermission? && guard.permission in PERMISSIONS - {"operators.manage", "audit.view"})
            && (a[0] == "logout" || a[0] == "account" ==> guard == Authenticated)
            && (a[0] == "login" ==> guard == Public)
  {
    var k := Named(method_, a).value;
    FirstSegmentNames(method_, a);
    if a[0] == "tenants" {
      assert k.TenantDetail? || k.TenantCreate? || k.TenantOrigins? || k.TenantGames? || k.TenantWindow? || k.TenantTheme? || k.TenantRotateKey?;
    }
  }

  lemma FirstSegmentNames(method_: string, a: seq<string>)
    requires Named(method_, a).Some? && a != []
    ensures var k := Named(method_, a).value;
            a[0] == if k.LoginForm? || k.LoginSubmit? then "login"
                    else if k.Logout? then "logout"
                    else if k.OwnPassword? then "account"
                    else if k.AuditView? then "audit"
                    else if k.OperatorList? || k.OperatorCreate? || k.OperatorEnable? || k.OperatorDisable? || k.OperatorGrant? || k.OperatorRevoke?
                    then "operators" else "tenants"
    ensures !Named(method_, a).value.TenantList?
  {
  }

  /**
   * What a request may be asked for, by its first segment alone, whatever the rest of it: nothing under
   * `operators` resolves without the right to manage accounts, nothing under `tenants` without one of
   * the five tenant permissions, and nothing else asks for a permission but the audit log and the list.
   */
  lemma PermissionByFirstSegment(decode: Decoder, method_: string, pathname: string)
    requires Resolve(decode, method_, pathname).Route? && Tabled(Resolve(decode, method_, pathname).kind)
    ensures var a, guard := SegmentsOf(pathname), Resolve(decode, method_, pathname).guard;
            && (a == [] ==> guard == NeedsPermission("tenant.origins.edit"))
            && (a != [] && a[0] == "operators" ==> guard == NeedsPermission("operators.manage"))
            && (a != [] && a[0] == "audit" ==> guard == NeedsPermission("audit.view"))
            && (a != [] && a[0] == "tenants" ==>
                  guard.NeedsPermission? && guard.permission in PERMISSIONS - {"operators.manage", "audit.view"})
            && (a != [] && (a[0] == "logout" || a[0] == "account") ==> guard == Authenticated)
            && (a != [] && a[0] == "login" ==> guard == Public)
  {
    var a := SegmentsOf(pathname);
    assert Resolve(decode, method_, pathname) == Reference(decode, method_, a);
    assert Named(method_, a).Some? && Reference(decode, method_, a).guard == Entry(Named(method_, a).value).guard;
    if a != [] { GuardOfNamed(method_, a); }
  }

  predicate RequiresAuthorizationCheckpoint(r: Outcome)
    requires r.Route?
  {
    r.guard.NeedsPermission? || (r.guard.Authenticated? && r.kind != Kind.Logout)
  }

  /** Of everything a request can resolve to, exactly five kinds go round the checkpoint. */
  lemma BypassIff(decode: Decoder, method_: string, pathname: string)
    requires Resolve(decode, method_, pathname).Route?
    ensures var r := Resolve(decode, method_, pathname);
            !RequiresAuthorizationCheckpoint(r)
            <==> r.kind.LoginForm? || r.kind.LoginSubmit? || r.kind.Logout? || r.kind.Asset? || r.kind.NotFound?
  {
    var r := Resolve(decode, method_, pathname);
    ResolvedGuard(decode, method_, pathname);
    if Tabled(r.kind) { UncheckedGuards(r.kind); }
  }

  lemma ResolvedGuard(decode: Decoder, method_: string, pathname: string)
    requires Resolve(decode, method_, pathname).Route?
    ensures var r := Resolve(decode, method_, pathname);
            if Tabled(r.kind) then r.guard == Entry(r.kind).guard else r.guard == Public
  {
    if !(method_ == "GET" && ASSET_PREFIX <= pathname) { ReferenceGuard(decode, method_, SegmentsOf(pathname)); }
  }

  lemma ReferenceGuard(decode: Decoder, method_: string, a: seq<string>)
    requires Reference(decode, method_, a).Route?
    ensures var r := Reference(decode, method_, a);
            if Tabled(r.kind) then r.guard == Entry(r.kind).guard else r.guard == Public
  {
  }

  lemma UncheckedGuards(k: Kind)
    requires Tabled(k)
    ensures Entry(k).guard.NeedsPermission? || (Entry(k).guard.Authenticated? && k != Kind.Logout)
       <==> !(k.LoginForm? || k.LoginSubmit? || k.Logout?)
  {
  }

  lemma SiblingCaptures(k: Kind, method_: string, a: seq<string>)
    requires Capturing(k) && Sibling(k, method_, a)
    ensures Captures(method_, a)
  {
  }

  lemma CapturesHasSibling(method_: string, a: seq<string>) returns (k: Kind)
    requires Captures(method_, a)
    ensures Capturing(k) && Sibling(k, method_, a)
  {
    k := if method_ == "GET" then TenantDetail
         else if |a| == 3 then if a[0] == "tenants" then TenantOrigins else OperatorEnable
         else if a[0] == "tenants" then TenantRotateKey else OperatorGrant;
  }

  /**
   * A request throws exactly when its method, length and first segment are those of a capturing entry
   * and the second segment does not decode - also where no entry has the remaining segments.
   */
  lemma ThrowsIff(decode: Decoder, method_: string, pathname: string)
    ensures Resolve(decode, method_, pathname).Throws?
       <==> !(method_ == "GET" && ASSET_PREFIX <= pathname)
            && (exists k :: Capturing(k) && Sibling(k, method_, SegmentsOf(pathname)))
            && decode(SegmentsOf(pathname)[1]).None?
  {
    var a := SegmentsOf(pathname);
    forall k | Capturing(k) && Sibling(k, method_, a) ensures Captures(method_, a) { SiblingCaptures(k, method_, a); }
    if Captures(method_, a) { var k := CapturesHasSibling(method_, a); }
  }

  lemma {:induction false} IncludesOneCharacter(s: string, c: char)
    ensures Includes(s, [c]) <==> c in s
  {
    if s != "" {
      IncludesOneCharacter(s[1..], c);
      assert s == [s[0]] + s[1..];
      assert [c] <= s <==> s[0] == c;
    }
  }

  /** The asset route carries exactly the bare names behind its prefix: no separator, no `..`, no encoded slash. */
  lemma AssetIff(decode: Decoder, method_: string, pathname: string, file: string)
    ensures Resolve(decode, method_, pathname) == Route(Asset, Public, Some(map["file" := file]))
       <==> && method_ == "GET" && pathname == ASSET_PREFIX + file && file != "" && '/' !in file && '\\' !in file
            && !Includes(file, "..") && !Includes(file, "%2f") && !Includes(file, "%2F")
  {
    IncludesOneCharacter(file, '/');
    IncludesOneCharacter(file, '\\');
    if pathname == ASSET_PREFIX + file {
      assert pathname[|ASSET_PREFIX|..] == file;
    }
    if Resolve(decode, method_, pathname) == Route(Asset, Public, Some(map["file" := file])) {
      assert map["file" := pathname[|ASSET_PREFIX|..]]["file"] == map["file" := file]["file"];
    }
  }

  // ----- dispatch --------------------------------------------------------------------

  /** The checkpoint's outcome: the handler runs for this operator, or it does not and this is the response. */
  datatype Dispatch = HandlerRuns(actor: AuthorizeResult) | Responds(status: nat, error: Refusal)

  function Dispatched(env: Env, s: State, r: Outcome, cookieHeader: Option<string>): (d: Dispatch)
    requires r.Route? && RequiresAuthorizationCheckpoint(r)
    ensures d.HandlerRuns? ==> d.actor.Actor?
  {
    var result := Authorize(env, s, cookieHeader, r.guard);
    if result.Actor? then HandlerRuns(result)
    else Responds(if result.reason == MissingPermission then 403 else 401, result.reason)
  }

  /**
   * End to end, over any run: a request to any checkpointed route runs its handler for an operator
   * exactly when that operator is enabled now and holds the permission the route names, if it names one,
   * and the cookie's session is theirs, live by the history of the run, and not yet expired.
   */
  lemma GuardedHandlerRunsIff(env: Env, s0: State, events: seq<Event>, decode: Decoder, method_: string, pathname: string,
                              header: Option<string>, id: OperatorId)
    requires UniqueUsernames(s0.operators) && s0.sessions == map[] && s0.pending == map[]
    requires Resolve(decode, method_, pathname).Route?
    requires RequiresAuthorizationCheckpoint(Resolve(decode, method_, pathname))
    ensures var s, r := Run(env, s0, events), Resolve(decode, method_, pathname);
            (Dispatched(env, s, r, header).HandlerRuns? && Dispatched(env, s, r, header).actor.id == id)
            <==> && Cookie.Parsed(header).Some?
                 && id in s.operators && s.operators[id].enabled
                 && (r.guard.NeedsPermission? ==> r.guard.permission in s.operators[id].permissions)
                 && exists session ::
                      && LiveByHistory(env, s0, events, env.hashToken(Cookie.Parsed(header).value), session)
                      && session.operatorId == id
                      && s.now < session.expiresAt
  {
    AuthorizedIff(env, s0, events, header, Resolve(decode, method_, pathname).guard, id);
  }

  /**
   * And the two statuses apart: 403 exactly for the enabled operator of a live session in time who lacks
   * what the route names; 401 whenever there is no such session, it ran out, or its operator is disabled.
   */
  lemma RefusalStatusIff(env: Env, s0: State, events: seq<Event>, decode: Decoder, method_: string, pathname: string,
                         header: Option<string>)
    requires UniqueUsernames(s0.operators) && s0.sessions == map[] && s0.pending == map[]
    requires Resolve(decode, method_, pathname).Route?
    requires RequiresAuthorizationCheckpoint(Resolve(decode, method_, pathname))
    ensures var s, r := Run(env, s0, events), Resolve(decode, method_, pathname);
            var answer := Dispatched(env, s, r, header);
            && (answer.Responds? && answer.status == 403
                <==> exists session :: Carries(env, s0, events, header, session) && s.now < session.expiresAt
                                       && session.operatorId in s.operators && s.operators[session.operatorId].enabled
                                       && r.guard.NeedsPermission?
                                       && r.guard.permission !in s.operators[session.operatorId].permissions)
            && (answer.Responds? && answer.status == 401
                <==> forall session | Carries(env, s0, events, header, session) ::
                       session.expiresAt <= s.now
                       || (session.operatorId in s.operators && !s.operators[session.operatorId].enabled))
            && (answer.Responds? ==> answer.status == 401 || answer.status == 403)
  {
    var guard := Resolve(decode, method_, pathname).guard;
    RefusedIff(env, s0, events, header, guard);
    forall session ensures Carries(env, s0, events, header, session) ==> session.operatorId in Run(env, s0, events).operators {
      CarriedIsStored(env, s0, events, header, session);
    }
    OnlyOneIsCarried(env, s0, events, header);
  }

  lemma OnlyOneIsCarried(env: Env, s0: State, events: seq<Event>, header: Option<string>)
    requires UniqueUsernames(s0.operators) && s0.sessions == map[] && s0.pending == map[]
    ensures forall a, b | Carries(env, s0, events, header, a) && Carries(env, s0, events, header, b) :: a == b
  {
    forall a, b | Carries(env, s0, events, header, a) && Carries(env, s0, events, header, b) ensures a == b {
      CarriedIsStored(env, s0, events, header, a);
      CarriedIsStored(env, s0, events, header, b);
    }
  }
}
