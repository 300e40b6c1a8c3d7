/**
 * Operator passwords: the self-describing stored hash and its reader, the comparison against it, and
 * what any run of account creations and own-password changes leaves verifiable.
 */
module OperatorPassword {
  import opened Optional
  import opened Base64
  import Decimal
  import Text

  const SCRYPT_N := 32768
  const SCRYPT_R := 8
  const SCRYPT_P := 1
  const SCRYPT_KEYLEN := 32
  const SCRYPT_FORMAT_PREFIX := "scrypt"
  const STORED_FORMAT_FIELD_COUNT := 6

  /** The key-derivation function: password, salt, key length and the cost parameters; `None` where it throws on them. */
  type Kdf = (string, seq<Byte>, nat, nat, nat, nat) -> Option<seq<Byte>>

  /** scrypt returns as many bytes as it is asked for. */
  ghost predicate FillsKey(derive: Kdf) {
    forall password, salt, keylen: nat, n: nat, r: nat, p: nat ::
      var key := derive(password, salt, keylen, n, r, p);
      key.Some? ==> |key.value| == keylen
  }

  // ----- the stored text -------------------------------------------------------------

  function Format(n: nat, r: nat, p: nat, salt: seq<Byte>, key: seq<Byte>): string {
    Text.Join([SCRYPT_FORMAT_PREFIX, Decimal.Print(n), Decimal.Print(r), Decimal.Print(p),
               Encode(Standard, salt), Encode(Standard, key)], "$")
  }

  /** `None` if scrypt throws on today's constants. */
  function HashPassword(derive: Kdf, password: string, salt: seq<Byte>): Option<string> {
    var key := derive(password, salt, SCRYPT_KEYLEN, SCRYPT_N, SCRYPT_R, SCRYPT_P);
    if key.None? then None else Some(Format(SCRYPT_N, SCRYPT_R, SCRYPT_P, salt, key.value))
  }

  lemma PrintedCosts()
    ensures Decimal.Print(32768) == "32768" && Decimal.Print(8) == "8" && Decimal.Print(1) == "1"
  {
    assert Decimal.Print(3) == "3" && Decimal.Print(32) == "32" && Decimal.Print(327) == "327" && Decimal.Print(3276) == "3276";
  }

  /** The stored text of a fresh hash, as it stands in the table: 32 bytes derived at today's costs. */
  lemma StoredText(derive: Kdf, password: string, salt: seq<Byte>)
    ensures var key := derive(password, salt, 32, 32768, 8, 1);
            HashPassword(derive, password, salt)
            == if key.None? then None
               else Some("scrypt$32768$8$1$" + (Encode(Standard, salt) + "$" + Encode(Standard, key.value)))
  {
    var key := derive(password, salt, 32, 32768, 8, 1);
    if key.Some? {
      PrintedCosts();
      JoinSix("scrypt", "32768", "8", "1", Encode(Standard, salt), Encode(Standard, key.value));
      TodaysPrefix();
    }
  }

  lemma TodaysPrefix()
    ensures "scrypt" + "$" + ("32768" + "$" + ("8" + "$" + ("1" + "$"))) == "scrypt$32768$8$1$"
  {
  }

  lemma JoinSix(a: string, b: string, c: string, d: string, e: string, f: string)
    ensures Text.Join([a, b, c, d, e, f], "$") == (a + "$" + (b + "$" + (c + "$" + (d + "$")))) + (e + "$" + f)
  {
    var all := [a, b, c, d, e, f];
    assert all[1..] == [b, c, d, e, f] && all[1..][1..] == [c, d, e, f] && all[1..][1..][1..] == [d, e, f];
    assert [d, e, f][1..] == [e, f] && [e, f][1..] == [f];
    assert Text.Join([e, f], "$") == e + "$" + f;
    assert Text.Join([d, e, f], "$") == d + "$" + (e + "$" + f);
    assert Text.Join([c, d, e, f], "$") == c + "$" + (d + "$" + (e + "$" + f));
    assert Text.Join([b, c, d, e, f], "$") == b + "$" + (c + "$" + (d + "$" + (e + "$" + f)));
  }

  /** A cost parameter as `Number(text)` reads it; `None` stands for every spelling but decimal digits. */
  datatype ParsedHash = ParsedHash(n: Option<nat>, r: Option<nat>, p: Option<nat>, salt: seq<Byte>, key: seq<Byte>)

  /** `None` where the source throws: not six fields, or not starting with the prefix. */
  function ParseStoredHash(stored: string): Option<ParsedHash> {
    var parts := Text.Split(stored, '$');
    if |parts| != STORED_FORMAT_FIELD_COUNT || parts[0] != SCRYPT_FORMAT_PREFIX then None
    else Some(ParsedHash(Decimal.Read(parts[1]), Decimal.Read(parts[2]), Decimal.Read(parts[3]),
                         Decode(parts[4]), Decode(parts[5])))
  }

  lemma FieldsHaveNoSeparator(n: nat, bytes: seq<Byte>)
    ensures '$' !in Decimal.Print(n) && '$' !in Encode(Standard, bytes)
  {
    Decimal.ReadOfPrint(n);
    EncodedCharacters(Standard, bytes);
  }

  /** Reading inverts printing, for all parameters, salts and keys. */
  lemma ParseInvertsFormat(n: nat, r: nat, p: nat, salt: seq<Byte>, key: seq<Byte>)
    ensures ParseStoredHash(Format(n, r, p, salt, key)) == Some(ParsedHash(Some(n), Some(r), Some(p), salt, key))
  {
    var fields := [SCRYPT_FORMAT_PREFIX, Decimal.Print(n), Decimal.Print(r), Decimal.Print(p),
                   Encode(Standard, salt), Encode(Standard, key)];
    FieldsHaveNoSeparator(n, salt);
    FieldsHaveNoSeparator(r, key);
    FieldsHaveNoSeparator(p, key);
    assert '$' !in SCRYPT_FORMAT_PREFIX;
    Text.SplitOfJoin(fields, '$');
    Decimal.ReadOfPrint(n);
    Decimal.ReadOfPrint(r);
    Decimal.ReadOfPrint(p);
    DecodeOfEncode(Standard, salt);
    DecodeOfEncode(Standard, key);
  }

  // ----- comparison ------------------------------------------------------------------

  /** `None` where the source throws: a malformed text, parameters that are no numbers, or ones scrypt refuses. */
  function VerifyPassword(derive: Kdf, password: string, stored: string): Option<bool> {
    var parsed := ParseStoredHash(stored);
    if parsed.None? || parsed.value.n.None? || parsed.value.r.None? || parsed.value.p.None? then None
    else
      var h := parsed.value;
      var candidate := derive(password, h.salt, |h.key|, h.n.value, h.r.value, h.p.value);
      if candidate.None? then None else Some(|candidate.value| == |h.key| && candidate.value == h.key)
  }

  /**
   * A stored hash is checked with the parameters it names, whatever today's constants are - and checking
   * throws exactly when scrypt throws on those.
   */
  lemma VerifiesByItsOwnParameters(derive: Kdf, password: string, n: nat, r: nat, p: nat, salt: seq<Byte>, key: seq<Byte>)
    ensures var candidate := derive(password, salt, |key|, n, r, p);
            VerifyPassword(derive, password, Format(n, r, p, salt, key))
            == if candidate.None? then None else Some(candidate.value == key)
  {
    ParseInvertsFormat(n, r, p, salt, key);
  }

  /** The password just hashed verifies, and another verifies exactly when it derives the same key. */
  lemma HashedPasswordVerifies(derive: Kdf, password: string, other: string, salt: seq<Byte>)
    requires FillsKey(derive) && HashPassword(derive, password, salt).Some?
    ensures VerifyPassword(derive, password, HashPassword(derive, password, salt).value) == Some(true)
    ensures var otherKey := derive(other, salt, SCRYPT_KEYLEN, SCRYPT_N, SCRYPT_R, SCRYPT_P);
            VerifyPassword(derive, other, HashPassword(derive, password, salt).value) == Some(true)
            <==> otherKey == derive(password, salt, SCRYPT_KEYLEN, SCRYPT_N, SCRYPT_R, SCRYPT_P)
  {
    var key := derive(password, salt, SCRYPT_KEYLEN, SCRYPT_N, SCRYPT_R, SCRYPT_P).value;
    VerifiesByItsOwnParameters(derive, password, SCRYPT_N, SCRYPT_R, SCRYPT_P, salt, key);
    VerifiesByItsOwnParameters(derive, other, SCRYPT_N, SCRYPT_R, SCRYPT_P, salt, key);
  }

  // ----- accounts over a run ---------------------------------------------------------

  datatype Account = Account(username: string, passwordHash: string)

  /** A password change between its check of the current password and its write. */
  datatype Change = Change(id: string, newPassword: string)

  datatype State = State(accounts: map<string, Account>, pending: map<nat, Change>)

  datatype Event =
    | CreateOperator(id: string, username: string, password: string, salt: seq<Byte>)
    | BeginChange(rid: nat, id: string, currentPassword: string, newPassword: string)
    | CommitChange(rid: nat, salt: seq<Byte>)

  predicate UsernameTaken(accounts: map<string, Account>, username: string) {
    exists id | id in accounts :: accounts[id].username == username
  }

  function Step(derive: Kdf, s: State, e: Event): State {
    match e
    case CreateOperator(id, username, password, salt) =>
      var hash := HashPassword(derive, password, salt);
      if username == "" || password == "" || hash.None? || id in s.accounts || UsernameTaken(s.accounts, username) then s
      else s.(accounts := s.accounts[id := Account(username, hash.value)])
    case BeginChange(rid, id, current, next) =>
      if rid in s.pending || current == "" || next == "" || id !in s.accounts then s
      else if VerifyPassword(derive, current, s.accounts[id].passwordHash) != Some(true) then s
      else s.(pending := s.pending[rid := Change(id, next)])
    case CommitChange(rid, salt) =>
      if rid !in s.pending then s
      else
        var c := s.pending[rid];
        var rest := s.(pending := s.pending - {rid});
        var hash := HashPassword(derive, c.newPassword, salt);
        if hash.None? || c.id !in s.accounts then rest
        else rest.(accounts := s.accounts[c.id := s.accounts[c.id].(passwordHash := hash.value)])
  }

  function Run(derive: Kdf, s: State, events: seq<Event>): State {
    if events == [] then s else Step(derive, Run(derive, s, events[..|events| - 1]), events[|events| - 1])
  }

  /** The password this event sets for the account, if it sets one. */
  function Sets(derive: Kdf, s: State, e: Event, id: string): Option<string> {
    match e
    case CreateOperator(newId, username, password, salt) =>
      if newId == id && username != "" && password != "" && HashPassword(derive, password, salt).Some?
         && id !in s.accounts && !UsernameTaken(s.accounts, username)
      then Some(password) else None
    case BeginChange(_, _, _, _) => None
    case CommitChange(rid, salt) =>
      if rid in s.pending && s.pending[rid].id == id && HashPassword(derive, s.pending[rid].newPassword, salt).Some?
         && id in s.accounts
      then Some(s.pending[rid].newPassword) else None
  }

  /** The last password the run set for the account. */
  function LastSet(derive: Kdf, s: State, events: seq<Event>, id: string): Option<string> {
    if events == [] then None
    else
      var n := |events| - 1;
      var set_ := Sets(derive, Run(derive, s, events[..n]), events[n], id);
      if set_.Some? then set_ else LastSet(derive, s, events[..n], id)
  }

  /** This stored text is the hash of this password under some salt. */
  ghost predicate IsHashOf(derive: Kdf, password: string, stored: string) {
    exists salt :: HashPassword(derive, password, salt) == Some(stored)
  }

  lemma StepSetsTheHash(derive: Kdf, s: State, e: Event, id: string)
    requires FillsKey(derive)
    ensures var s', p := Step(derive, s, e), Sets(derive, s, e, id);
            && (p.Some? ==> id in s'.accounts && VerifyPassword(derive, p.value, s'.accounts[id].passwordHash) == Some(true))
            && (p.Some? ==> IsHashOf(derive, p.value, s'.accounts[id].passwordHash))
            && (p.None? && id in s.accounts ==> id in s'.accounts && s'.accounts[id] == s.accounts[id])
            && (p.None? && id !in s.accounts ==> id !in s'.accounts)
  {
    var p := Sets(derive, s, e, id);
    if p.Some? {
      HashedPasswordVerifies(derive, p.value, "", e.salt);
    }
  }

  /** After any interleaving, the last password set for an account verifies; untouched accounts keep their hash. */
  lemma {:induction false} LastPasswordVerifies(derive: Kdf, s: State, events: seq<Event>, id: string)
    requires FillsKey(derive)
    ensures var s', p := Run(derive, s, events), LastSet(derive, s, events, id);
            && (p.Some? ==> id in s'.accounts && VerifyPassword(derive, p.value, s'.accounts[id].passwordHash) == Some(true))
            && (p.Some? ==> IsHashOf(derive, p.value, s'.accounts[id].passwordHash))
            && (p.None? && id in s.accounts ==> id in s'.accounts && s'.accounts[id] == s.accounts[id])
            && (p.None? && id !in s.accounts ==> id !in s'.accounts)
  {
    if events != [] {
      var n := |events| - 1;
      LastPasswordVerifies(derive, s, events[..n], id);
      StepSetsTheHash(derive, Run(derive, s, events[..n]), events[n], id);
    }
  }

  // ----- which changes may be on their way -------------------------------------------

  /**
   * At step `i` this request asked for this change of an account that was there, with two passwords, the
   * current one verifying against the hash the account had then.
   */
  ghost predicate BegunAt(derive: Kdf, s0: State, events: seq<Event>, i: nat, rid: nat, c: Change) {
    && i < |events|
    && var s, e := Run(derive, s0, events[..i]), events[i];
       && e.BeginChange? && e.rid == rid && e.id == c.id && e.newPassword == c.newPassword
       && rid !in s.pending
       && e.currentPassword != "" && c.newPassword != ""
       && c.id in s.accounts
       && VerifyPassword(derive, e.currentPassword, s.accounts[c.id].passwordHash) == Some(true)
  }

  predicate UncommittedSince(events: seq<Event>, i: nat, rid: nat) {
    forall j | i < j < |events| :: !(events[j].CommitChange? && events[j].rid == rid)
  }

  ghost predicate OnItsWay(derive: Kdf, s0: State, events: seq<Event>, rid: nat, c: Change) {
    exists i: nat :: BegunAt(derive, s0, events, i, rid, c) && UncommittedSince(events, i, rid)
  }

  lemma StepOnPending(derive: Kdf, s: State, e: Event, rid: nat, c: Change)
    ensures var s' := Step(derive, s, e);
            (rid in s'.pending && s'.pending[rid] == c)
            <==> || (rid in s.pending && s.pending[rid] == c && !(e.CommitChange? && e.rid == rid))
                 || (rid !in s.pending && BegunAt(derive, s, [e], 0, rid, c))
  {
    assert [e][..0] == [];
  }

  lemma BegunInLonger(derive: Kdf, s0: State, init: seq<Event>, e: Event, i: nat, rid: nat, c: Change)
    ensures i < |init| ==> (BegunAt(derive, s0, init + [e], i, rid, c) <==> BegunAt(derive, s0, init, i, rid, c))
    ensures i == |init| ==> (BegunAt(derive, s0, init + [e], i, rid, c) <==> BegunAt(derive, Run(derive, s0, init), [e], 0, rid, c))
  {
    assert i <= |init| ==> (init + [e])[..i] == init[..i];
    assert init[..|init|] == init && [e][..0] == [];
  }

  lemma OnItsWayInLonger(derive: Kdf, s0: State, init: seq<Event>, e: Event, rid: nat, c: Change)
    ensures OnItsWay(derive, s0, init + [e], rid, c)
       <==> || (OnItsWay(derive, s0, init, rid, c) && !(e.CommitChange? && e.rid == rid))
            || BegunAt(derive, Run(derive, s0, init), [e], 0, rid, c)
  {
    var all := init + [e];
    assert forall j | 0 <= j < |init| :: all[j] == init[j];
    forall i: nat
      ensures i < |init| ==> (BegunAt(derive, s0, all, i, rid, c) <==> BegunAt(derive, s0, init, i, rid, c))
      ensures i == |init| ==> (BegunAt(derive, s0, all, i, rid, c) <==> BegunAt(derive, Run(derive, s0, init), [e], 0, rid, c))
      ensures i < |init| ==> (UncommittedSince(all, i, rid) <==> UncommittedSince(init, i, rid) && !(e.CommitChange? && e.rid == rid))
    {
      BegunInLonger(derive, s0, init, e, i, rid, c);
      if i < |init| { UncommittedInLonger(init, e, i, rid); }
    }
    if BegunAt(derive, Run(derive, s0, init), [e], 0, rid, c) {
      assert BegunAt(derive, s0, all, |init|, rid, c) && UncommittedSince(all, |init|, rid);
    }
  }

  lemma UncommittedInLonger(init: seq<Event>, e: Event, i: nat, rid: nat)
    requires i < |init|
    ensures UncommittedSince(init + [e], i, rid) <==> UncommittedSince(init, i, rid) && !(e.CommitChange? && e.rid == rid)
  {
    var all := init + [e];
    assert all[|init|] == e && forall j | 0 <= j < |init| :: all[j] == init[j];
  }

  /**
   * Over any run, a change is waiting to be written exactly when a request asked for it with the password
   * the account then had, and has not written it since.
   */
  lemma {:induction false} PendingIsOnItsWay(derive: Kdf, s0: State, events: seq<Event>, rid: nat, c: Change)
    requires s0.pending == map[]
    ensures var s := Run(derive, s0, events);
            (rid in s.pending && s.pending[rid] == c) <==> OnItsWay(derive, s0, events, rid, c)
  {
    if events != [] {
      var init, e := events[..|events| - 1], events[|events| - 1];
      assert events == init + [e];
      PendingIsOnItsWay(derive, s0, init, rid, c);
      StepOnPending(derive, Run(derive, s0, init), e, rid, c);
      OnItsWayInLonger(derive, s0, init, e, rid, c);
    }
  }

  /**
   * So no event of any run changes the hash of an account that is there, unless it writes a change whose
   * request gave a password verifying against the hash the account had when it asked.
   */
  lemma HashesChangeOnlyOnRequest(derive: Kdf, s0: State, events: seq<Event>, e: Event, id: string)
    requires s0.pending == map[]
    requires id in Run(derive, s0, events).accounts
    requires Step(derive, Run(derive, s0, events), e).accounts[id] != Run(derive, s0, events).accounts[id]
    ensures e.CommitChange?
    ensures exists c: Change ::
              && c.id == id && OnItsWay(derive, s0, events, e.rid, c)
              && HashPassword(derive, c.newPassword, e.salt).Some?
              && Step(derive, Run(derive, s0, events), e).accounts[id]
                 == Account(Run(derive, s0, events).accounts[id].username, HashPassword(derive, c.newPassword, e.salt).value)
  {
    PendingIsOnItsWay(derive, s0, events, e.rid, Run(derive, s0, events).pending[e.rid]);
  }

  /** And who asked knew the last password set for the account, or one that derives the same key. */
  lemma OnlyTheLastPasswordAsks(derive: Kdf, s0: State, events: seq<Event>, i: nat, rid: nat, c: Change)
    requires FillsKey(derive) && BegunAt(derive, s0, events, i, rid, c)
    requires LastSet(derive, s0, events[..i], c.id).Some?
    ensures var password := LastSet(derive, s0, events[..i], c.id).value;
            exists salt ::
              derive(events[i].currentPassword, salt, SCRYPT_KEYLEN, SCRYPT_N, SCRYPT_R, SCRYPT_P)
              == derive(password, salt, SCRYPT_KEYLEN, SCRYPT_N, SCRYPT_R, SCRYPT_P)
  {
    var s, password := Run(derive, s0, events[..i]), LastSet(derive, s0, events[..i], c.id).value;
    LastPasswordVerifies(derive, s0, events[..i], c.id);
    var salt :| HashPassword(derive, password, salt) == Some(s.accounts[c.id].passwordHash);
    HashedPasswordVerifies(derive, password, events[i].currentPassword, salt);
  }

  // ----- which accounts there may be -------------------------------------------------

  ghost predicate WellNamed(accounts: map<string, Account>) {
    && (forall id | id in accounts :: accounts[id].username != "")
    && (forall a, b | a in accounts && b in accounts && accounts[a].username == accounts[b].username :: a == b)
  }

  /** No run creates a second account under a username, or one without a name; and every password it sets is one. */
  lemma {:induction false} AccountsStayWellNamed(derive: Kdf, s0: State, events: seq<Event>)
    requires s0.pending == map[] && WellNamed(s0.accounts)
    ensures WellNamed(Run(derive, s0, events).accounts)
    ensures forall rid | rid in Run(derive, s0, events).pending :: Run(derive, s0, events).pending[rid].newPassword != ""
    ensures forall id :: LastSet(derive, s0, events, id) != Some("")
  {
    if events != [] {
      AccountsStayWellNamed(derive, s0, events[..|events| - 1]);
      StepKeepsWellNamed(derive, Run(derive, s0, events[..|events| - 1]), events[|events| - 1]);
    }
  }

  lemma StepKeepsWellNamed(derive: Kdf, s: State, e: Event)
    requires WellNamed(s.accounts) && forall rid | rid in s.pending :: s.pending[rid].newPassword != ""
    ensures WellNamed(Step(derive, s, e).accounts)
    ensures forall rid | rid in Step(derive, s, e).pending :: Step(derive, s, e).pending[rid].newPassword != ""
    ensures forall id :: Sets(derive, s, e, id) != Some("")
  {
  }
}
