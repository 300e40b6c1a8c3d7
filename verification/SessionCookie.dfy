/** The session cookie's two headers: the `Set-Cookie` text that mints or revokes it, the `Cookie` text it is read from. */
module SessionCookie {
  import opened Optional
  import Base64
  import Decimal
  import Text

  const SESSION_COOKIE_NAME := "convite_admin_session"
  const SESSION_MAX_AGE_SECONDS := 8 * 60 * 60

  // ----- printing --------------------------------------------------------------------

  /** Everything after the cookie itself; `Domain` is deliberately absent. */
  function Attributes(maxAgeSeconds: nat, secure: bool): seq<string> {
    ["HttpOnly", "SameSite=Strict", "Path=/", "Max-Age=" + Decimal.Print(maxAgeSeconds)]
    + (if secure then ["Secure"] else [])
  }

  function CookieHeader(value: string, maxAgeSeconds: nat, secure: bool): string {
    Text.Join([SESSION_COOKIE_NAME + "=" + value] + Attributes(maxAgeSeconds, secure), "; ")
  }

  method BuildCookieHeader(value: string, maxAgeSeconds: nat, secure: bool) returns (header: string)
    ensures header == CookieHeader(value, maxAgeSeconds, secure)
  {
    var cookie := SESSION_COOKIE_NAME + "=" + value;
    var attributes := [cookie, "HttpOnly", "SameSite=Strict", "Path=/", "Max-Age=" + Decimal.Print(maxAgeSeconds)];
    if secure { attributes := attributes + ["Secure"]; }
    assert attributes == [cookie] + Attributes(maxAgeSeconds, secure);
    header := Text.Join(attributes, "; ");
  }

  /** The parts of a printed header, as a user agent cuts them: at each `;`, white space removed (section 5.2 of RFC 6265). */
  function Cells(header: string): (cells: seq<string>)
    ensures |cells| >= 1
  {
    var parts := Text.Split(header, ';');
    seq(|parts|, i requires 0 <= i < |parts| => Text.Trim(parts[i]))
  }

  function Cookie(header: string): string { Cells(header)[0] }

  function AttributesOf(header: string): seq<string> { Cells(header)[1..] }

  lemma CellsOfJoin(parts: seq<string>)
    requires |parts| >= 1 && forall p | p in parts :: ';' !in p && Text.Trimmed(p)
    ensures Cells(Text.Join(parts, "; ")) == parts
  {
    var glue := "; ";
    assert glue == [';'] + " ";
    Text.SplitOfSpacedJoin(parts, ';');
    var cut := Text.Split(Text.Join(parts, glue), ';');
    forall i | 0 <= i < |parts| ensures Text.Trim(cut[i]) == parts[i] {
      assert parts[i] in parts;
      TrimOfSpaced(parts[i]);
    }
    assert Cells(Text.Join(parts, glue)) == parts;
  }

  lemma TrimOfSpaced(p: string)
    requires Text.Trimmed(p)
    ensures Text.Trim(p) == p && Text.Trim(" " + p) == p
  {
    var none, space: string := [], " ";
    assert none + p + none == p && space + p + none == space + p;
    Text.TrimOfPadded(none, p, none);
    Text.TrimOfPadded(space, p, none);
  }

  lemma PrintedCells(value: string, maxAgeSeconds: nat, secure: bool)
    requires ';' !in value && Text.Trimmed(value)
    ensures Cells(CookieHeader(value, maxAgeSeconds, secure)) == [SESSION_COOKIE_NAME + "=" + value] + Attributes(maxAgeSeconds, secure)
  {
    var parts := [SESSION_COOKIE_NAME + "=" + value] + Attributes(maxAgeSeconds, secure);
    Decimal.ReadOfPrint(maxAgeSeconds);
    MaxAgeIsPlain(Decimal.Print(maxAgeSeconds));
    assert ';' !in SESSION_COOKIE_NAME && ';' !in "=";
    forall p | p in parts ensures ';' !in p && Text.Trimmed(p) {
      if p != parts[0] && p != "Max-Age=" + Decimal.Print(maxAgeSeconds) {
        assert p in ["HttpOnly", "SameSite=Strict", "Path=/", "Secure"];
      }
    }
    CellsOfJoin(parts);
  }

  lemma MaxAgeIsPlain(digits: string)
    requires digits != "" && forall c | c in digits :: Decimal.IsDigit(c)
    ensures ';' !in "Max-Age=" + digits && Text.Trimmed("Max-Age=" + digits)
  {
    assert digits[|digits| - 1] in digits;
    assert ';' !in "Max-Age=";
  }

  /**
   * What a user agent finds in a printed header: the value under the session's name, no access for
   * scripts, no cross-site use, the whole site, one age in seconds, no `Domain` - and `Secure` exactly
   * when asked.
   */
  lemma HeaderAttributes(value: string, maxAgeSeconds: nat, secure: bool)
    requires ';' !in value && Text.Trimmed(value)
    ensures Cookie(CookieHeader(value, maxAgeSeconds, secure)) == SESSION_COOKIE_NAME + "=" + value
    ensures Confines(AttributesOf(CookieHeader(value, maxAgeSeconds, secure)), maxAgeSeconds, secure)
  {
    HeaderCut(value, maxAgeSeconds, secure);
    AttributesConfine(maxAgeSeconds, secure, AttributesOf(CookieHeader(value, maxAgeSeconds, secure)));
  }

  lemma HeaderCut(value: string, maxAgeSeconds: nat, secure: bool)
    requires ';' !in value && Text.Trimmed(value)
    ensures Cookie(CookieHeader(value, maxAgeSeconds, secure)) == SESSION_COOKIE_NAME + "=" + value
    ensures AttributesOf(CookieHeader(value, maxAgeSeconds, secure)) == Attributes(maxAgeSeconds, secure)
  {
    PrintedCells(value, maxAgeSeconds, secure);
  }

  ghost predicate Confines(attributes: seq<string>, maxAgeSeconds: nat, secure: bool) {
    && "HttpOnly" in attributes && "SameSite=Strict" in attributes && "Path=/" in attributes
    && ("Secure" in attributes <==> secure)
    && (exists c | c in attributes :: "Max-Age=" <= c)
    && (forall c | c in attributes && "Max-Age=" <= c :: Decimal.Read(c[|"Max-Age="|..]) == Some(maxAgeSeconds))
    && (forall c | c in attributes :: !("Domain" <= c))
  }

  lemma AttributesConfine(maxAgeSeconds: nat, secure: bool, attributes: seq<string>)
    requires attributes == Attributes(maxAgeSeconds, secure)
    ensures Confines(attributes, maxAgeSeconds, secure)
  {
    AttributesPresent(maxAgeSeconds, secure);
    forall c | c in attributes
      ensures ("Max-Age=" <= c ==> Decimal.Read(c[|"Max-Age="|..]) == Some(maxAgeSeconds)) && !("Domain" <= c)
      ensures c == "Secure" ==> secure
    {
      OneAttribute(c, maxAgeSeconds, secure);
    }
  }

  lemma AttributesPresent(maxAgeSeconds: nat, secure: bool)
    ensures var attributes := Attributes(maxAgeSeconds, secure);
            && "HttpOnly" in attributes && "SameSite=Strict" in attributes && "Path=/" in attributes
            && (secure ==> "Secure" in attributes)
            && exists c | c in attributes :: "Max-Age=" <= c
  {
    var attributes := Attributes(maxAgeSeconds, secure);
    assert attributes[0] in attributes && attributes[1] in attributes && attributes[2] in attributes;
    assert attributes[3] in attributes && "Max-Age=" <= attributes[3];
    if secure { assert attributes[4] in attributes; }
  }

  lemma OneAttribute(c: string, maxAgeSeconds: nat, secure: bool)
    requires c in Attributes(maxAgeSeconds, secure)
    ensures "Max-Age=" <= c ==> Decimal.Read(c[|"Max-Age="|..]) == Some(maxAgeSeconds)
    ensures !("Domain" <= c) && (c == "Secure" ==> secure)
  {
    var i :| 0 <= i < |Attributes(maxAgeSeconds, secure)| && c == Attributes(maxAgeSeconds, secure)[i];
    if i == 3 {
      Decimal.ReadOfPrint(maxAgeSeconds);
      assert c[|"Max-Age="|..] == Decimal.Print(maxAgeSeconds) && c[0] == 'M';
    } else {
      assert c[0] != 'M' && c[0] != 'D';
    }
  }

  /** A login's cookie lasts eight hours, in whole seconds; a logout's is gone at once. */
  lemma HeaderAges(token: string, secure: bool)
    requires Carriable(token)
    ensures "Max-Age=28800" in AttributesOf(CookieHeader(token, SESSION_MAX_AGE_SECONDS, secure))
    ensures Cookie(CookieHeader("", 0, secure)) == "convite_admin_session="
    ensures "Max-Age=0" in AttributesOf(CookieHeader("", 0, secure))
  {
    HeaderCut(token, SESSION_MAX_AGE_SECONDS, secure);
    HeaderCut("", 0, secure);
    EightHoursPrinted();
    assert Attributes(28800, secure)[3] == "Max-Age=" + Decimal.Print(28800);
    assert Attributes(0, secure)[3] == "Max-Age=" + Decimal.Print(0);
  }

  lemma EightHoursPrinted()
    ensures "Max-Age=" + Decimal.Print(28800) == "Max-Age=28800" && "Max-Age=" + Decimal.Print(0) == "Max-Age=0"
  {
    assert Decimal.Print(2) == "2" && Decimal.Print(28) == "28" && Decimal.Print(288) == "288" && Decimal.Print(2880) == "2880";
  }

  // ----- reading ---------------------------------------------------------------------

  /** `pair.indexOf("=")`, `None` for -1. */
  function EqualsSign(pair: string): (r: Option<nat>)
    ensures r.Some? ==> r.value < |pair| && pair[r.value] == '=' && '=' !in pair[..r.value]
    ensures r.None? ==> '=' !in pair
  {
    if pair == "" then None
    else if pair[0] == '=' then Some(0)
    else
      var r := EqualsSign(pair[1..]);
      if r.None? then None
      else
        assert pair[..r.value + 1] == [pair[0]] + pair[1..][..r.value];
        Some(r.value + 1)
  }

  predicate IsSessionPair(pair: string) {
    EqualsSign(pair).Some? && Text.Trim(pair[..EqualsSign(pair).value]) == SESSION_COOKIE_NAME
  }

  /** The value of the first session pair, an empty one counting as none. */
  function FirstSession(pairs: seq<string>): Option<string> {
    if pairs == [] then None
    else if !IsSessionPair(pairs[0]) then FirstSession(pairs[1..])
    else
      var value := Text.Trim(pairs[0][EqualsSign(pairs[0]).value + 1..]);
      if value == "" then None else Some(value)
  }

  function Parsed(header: Option<string>): Option<string> {
    if header.None? then None else FirstSession(Text.Split(header.value, ';'))
  }

  method ParseSessionCookie(header: Option<string>) returns (token: Option<string>)
    ensures token == Parsed(header)
  {
    if header.None? { return None; }
    var pairs := Text.Split(header.value, ';');
    assert pairs[0..] == pairs;
    for i := 0 to |pairs|
      invariant FirstSession(pairs[i..]) == FirstSession(pairs)
    {
      var pair := pairs[i];
      assert pairs[i..][1..] == pairs[i + 1..];
      var separatorIndex := EqualsSign(pair);
      if separatorIndex.None? { continue; }
      var name := Text.Trim(pair[..separatorIndex.value]);
      if name != SESSION_COOKIE_NAME { continue; }
      var value := Text.Trim(pair[separatorIndex.value + 1..]);
      return if value == "" then None else Some(value);
    }
    token := None;
  }

  // ----- what the parser recovers ----------------------------------------------------

  /** Text a cookie value can carry through the header: not empty, no `;`, no white space at its ends. */
  predicate Carriable(token: string) { token != "" && ';' !in token && Text.Trimmed(token) }

  lemma {:induction false} EqualsSignAt(name: string, rest: string)
    requires '=' !in name
    ensures EqualsSign(name + "=" + rest) == Some(|name|)
  {
    var pair := name + "=" + rest;
    if name == "" {
      assert pair[0] == '=';
    } else {
      assert pair[1..] == name[1..] + "=" + rest;
      EqualsSignAt(name[1..], rest);
    }
  }

  lemma NoEqualsInSpaces(s: string)
    requires Text.AllSpace(s)
    ensures '=' !in s && ';' !in s
  {
  }

  /** A session pair, however padded, gives its value. */
  lemma PaddedSessionPair(a: string, b: string, c: string, token: string, d: string)
    requires Text.AllSpace(a) && Text.AllSpace(b) && Text.AllSpace(c) && Text.AllSpace(d)
    requires Text.Trimmed(token)
    ensures var pair := (a + SESSION_COOKIE_NAME + b) + "=" + (c + token + d);
            && IsSessionPair(pair)
            && Text.Trim(pair[EqualsSign(pair).value + 1..]) == token
  {
    var name, value := a + SESSION_COOKIE_NAME + b, c + token + d;
    var pair := name + "=" + value;
    NoEqualsInSpaces(a);
    NoEqualsInSpaces(b);
    assert '=' !in SESSION_COOKIE_NAME;
    EqualsSignAt(name, value);
    assert pair[..|name|] == name && pair[|name| + 1..] == value;
    assert Text.Trimmed(SESSION_COOKIE_NAME);
    Text.TrimOfPadded(a, SESSION_COOKIE_NAME, b);
    Text.TrimOfPadded(c, token, d);
  }

  lemma {:induction false} SkipsOtherPairs(before: seq<string>, rest: seq<string>)
    requires forall p | p in before :: !IsSessionPair(p)
    ensures FirstSession(before + rest) == FirstSession(rest)
  {
    if before == [] {
      assert before + rest == rest;
    } else {
      assert (before + rest)[1..] == before[1..] + rest;
      SkipsOtherPairs(before[1..], rest);
    }
  }

  lemma FirstSessionOfJoin(before: seq<string>, pair: string, after: seq<string>)
    requires forall p | p in before :: ';' !in p && !IsSessionPair(p)
    requires forall p | p in after :: ';' !in p
    requires ';' !in pair && IsSessionPair(pair)
    ensures var value := Text.Trim(pair[EqualsSign(pair).value + 1..]);
            Parsed(Some(Text.Join(before + [pair] + after, ";"))) == if value == "" then None else Some(value)
  {
    var all := before + [pair] + after;
    forall p | p in all ensures ';' !in p {
      assert p in before || p == pair || p in after;
    }
    Text.SplitOfJoin(all, ';');
    assert all == before + ([pair] + after);
    SkipsOtherPairs(before, [pair] + after);
    assert ([pair] + after)[0] == pair;
  }

  /** The parser recovers the token of the first session pair, whatever other pairs stand around it. */
  lemma RecoversFirstSession(before: seq<string>, a: string, b: string, c: string, token: string, d: string, after: seq<string>)
    requires forall p | p in before :: ';' !in p && !IsSessionPair(p)
    requires forall p | p in after :: ';' !in p
    requires Text.AllSpace(a) && Text.AllSpace(b) && Text.AllSpace(c) && Text.AllSpace(d)
    requires Carriable(token)
    ensures var pair := (a + SESSION_COOKIE_NAME + b) + "=" + (c + token + d);
            Parsed(Some(Text.Join(before + [pair] + after, ";"))) == Some(token)
  {
    var pair := (a + SESSION_COOKIE_NAME + b) + "=" + (c + token + d);
    PaddedSessionPair(a, b, c, token, d);
    assert ';' !in pair by {
      NoEqualsInSpaces(a);
      NoEqualsInSpaces(b);
      NoEqualsInSpaces(c);
      NoEqualsInSpaces(d);
      assert ';' !in SESSION_COOKIE_NAME;
    }
    FirstSessionOfJoin(before, pair, after);
  }

  /** A header that names no session cookie yields none. */
  lemma NoSessionPairNoSession(pairs: seq<string>)
    requires pairs != [] && forall p | p in pairs :: ';' !in p && !IsSessionPair(p)
    ensures Parsed(Some(Text.Join(pairs, ";"))) == None
  {
    Text.SplitOfJoin(pairs, ';');
    SkipsOtherPairs(pairs, []);
    assert pairs + [] == pairs;
  }

  lemma JoinStartsWithItsFirst(first: string, rest: seq<string>)
    requires rest != []
    ensures Text.Join([first] + rest, "; ") == first + [';'] + (" " + Text.Join(rest, "; "))
  {
    var all := [first] + rest;
    assert all[1..] == rest && all[0] == first;
    assert Text.Join(all, "; ") == first + "; " + Text.Join(rest, "; ");
    assert "; " == [';'] + " ";
  }

  lemma CookieNameIsPlain()
    ensures ';' !in SESSION_COOKIE_NAME && '=' !in SESSION_COOKIE_NAME && Text.Trimmed(SESSION_COOKIE_NAME)
  {
  }

  lemma BarePair(value: string)
    requires ';' !in value && Text.Trimmed(value)
    ensures var pair := SESSION_COOKIE_NAME + "=" + value;
            IsSessionPair(pair) && ';' !in pair && Text.Trim(pair[EqualsSign(pair).value + 1..]) == value
  {
    var name, none := SESSION_COOKIE_NAME, [];
    assert none + name + none == name && none + value + none == value;
    PaddedSessionPair(none, none, none, value, none);
    CookieNameIsPlain();
  }

  /** The first pair of a printed header is the cookie itself. */
  lemma PrintedHeaderStarts(value: string, maxAgeSeconds: nat, secure: bool)
    requires ';' !in value && Text.Trimmed(value)
    ensures Parsed(Some(CookieHeader(value, maxAgeSeconds, secure))) == if value == "" then None else Some(value)
  {
    var pair, attributes := SESSION_COOKIE_NAME + "=" + value, Attributes(maxAgeSeconds, secure);
    var rest := " " + Text.Join(attributes, "; ");
    BarePair(value);
    JoinStartsWithItsFirst(pair, attributes);
    Text.SplitAtSeparator(pair, rest, ';');
    Text.SplitOfPlain(pair, ';');
    assert ([pair] + Text.Split(rest, ';'))[0] == pair;
  }

  /** Reading back what login prints gives the token; what logout prints is no session. */
  lemma HeadersRoundTrip(token: string, secure: bool)
    requires Carriable(token)
    ensures Parsed(Some(CookieHeader(token, SESSION_MAX_AGE_SECONDS, secure))) == Some(token)
    ensures Parsed(Some(CookieHeader("", 0, secure))) == None
  {
    PrintedHeaderStarts(token, SESSION_MAX_AGE_SECONDS, secure);
    PrintedHeaderStarts("", 0, secure);
  }

  /** Every unpadded base64url text can be a token (section 5 of RFC 4648). */
  lemma Base64UrlIsCarriable(token: string)
    requires token != "" && forall c | c in token :: Base64.IsUrlChar(c)
    ensures Carriable(token)
  {
    assert token[0] in token && token[|token| - 1] in token;
  }

  /** So is every token the panel generates, whatever random bytes it is made of: both headers carry it there and back. */
  lemma GeneratedTokensRoundTrip(bytes: seq<Base64.Byte>, secure: bool)
    requires bytes != []
    ensures var token := Base64.Encode(Base64.Url, bytes);
            && Carriable(token)
            && Parsed(Some(CookieHeader(token, SESSION_MAX_AGE_SECONDS, secure))) == Some(token)
            && Base64.Decode(token) == bytes
  {
    Base64.EncodedCharacters(Base64.Url, bytes);
    Base64UrlIsCarriable(Base64.Encode(Base64.Url, bytes));
    HeadersRoundTrip(Base64.Encode(Base64.Url, bytes), secure);
    Base64.DecodeOfEncode(Base64.Url, bytes);
  }
}
