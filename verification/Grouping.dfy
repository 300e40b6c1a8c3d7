/**
 * The catalog's two groupings. The source fills an insertion-ordered `Map` of arrays in one pass; the
 * specification is the simple one - keys in order of first appearance, each with the catalog filtered
 * by it - and what the lobby needs of the result is proved about that specification.
 */
module Grouping {

  datatype CatalogEntry = CatalogEntry(id: string, gameFamily: string, section: string)
  datatype GameFamily = GameFamily(id: string, entries: seq<CatalogEntry>)
  datatype GameSection = GameSection(id: string, families: seq<GameFamily>)

  /** Which field groups: `ByFamily` or `BySection`. */
  datatype Key = ByFamily | BySection {
    function Of(e: CatalogEntry): string { if ByFamily? then e.gameFamily else e.section }
  }

  // ----- the simple specification ----------------------------------------------------

  function Init(c: seq<CatalogEntry>): seq<CatalogEntry>
    requires c != []
  {
    c[..|c| - 1]
  }

  function Last(c: seq<CatalogEntry>): CatalogEntry
    requires c != []
  {
    c[|c| - 1]
  }

  /** The keys that occur, in order of first appearance. */
  function Keys(c: seq<CatalogEntry>, key: Key): seq<string> {
    if c == [] then []
    else
      var ks := Keys(Init(c), key);
      if key.Of(Last(c)) in ks then ks else ks + [key.Of(Last(c))]
  }

  /** The entries with this key, in catalog order. */
  function Having(c: seq<CatalogEntry>, key: Key, k: string): seq<CatalogEntry> {
    if c == [] then []
    else Having(Init(c), key, k) + (if key.Of(Last(c)) == k then [Last(c)] else [])
  }

  function Families(c: seq<CatalogEntry>): seq<GameFamily> {
    var ks := Keys(c, ByFamily);
    seq(|ks|, i requires 0 <= i < |ks| => GameFamily(ks[i], Having(c, ByFamily, ks[i])))
  }

  function Sections(c: seq<CatalogEntry>): seq<GameSection> {
    var ks := Keys(c, BySection);
    seq(|ks|, i requires 0 <= i < |ks| => GameSection(ks[i], Families(Having(c, BySection, ks[i]))))
  }

  // ----- the loops of the source -----------------------------------------------------

  /** An insertion-ordered `Map`: its keys in order of insertion and the array under each. */
  class OrderedMap {
    var order: seq<string>
    var lists: map<string, seq<CatalogEntry>>

    ghost predicate Holds(c: seq<CatalogEntry>, key: Key)
      reads this
    {
      && order == Keys(c, key)
      && lists.Keys == (set k | k in order)
      && forall k | k in order :: lists[k] == Having(c, key, k)
    }

    constructor ()
      ensures order == [] && lists == map[]
    {
      order, lists := [], map[];
    }

    /** `get`, then `set` a new one-entry array or `push` onto the one found. */
    method Add(k: string, e: CatalogEntry)
      modifies this
      ensures order == if k in old(lists) then old(order) else old(order) + [k]
      ensures lists == old(lists)[k := if k in old(lists) then old(lists)[k] + [e] else [e]]
    {
      if k !in lists {
        order, lists := order + [k], lists[k := [e]];
      } else {
        lists := lists[k := lists[k] + [e]];
      }
    }
  }

  lemma {:induction false} AbsentKeyHasNothing(c: seq<CatalogEntry>, key: Key, k: string)
    ensures k in Keys(c, key) <==> Having(c, key, k) != []
  {
    if c != [] {
      AbsentKeyHasNothing(Init(c), key, k);
    }
  }

  method Collect(catalog: seq<CatalogEntry>, key: Key) returns (m: OrderedMap)
    ensures fresh(m) && m.Holds(catalog, key)
  {
    m := new OrderedMap();
    for i := 0 to |catalog|
      invariant fresh(m) && m.Holds(catalog[..i], key)
    {
      var e := catalog[i];
      ghost var c := catalog[..i + 1];
      assert Init(c) == catalog[..i] && Last(c) == e;
      AbsentKeyHasNothing(catalog[..i], key, key.Of(e));
      m.Add(key.Of(e), e);
    }
    assert catalog[..|catalog|] == catalog;
  }

  method GroupByFamily(catalog: seq<CatalogEntry>) returns (families: seq<GameFamily>)
    ensures families == Families(catalog)
  {
    var byFamily := Collect(catalog, ByFamily);
    families := [];
    for i := 0 to |byFamily.order|
      invariant families == Families(catalog)[..i]
    {
      var k := byFamily.order[i];
      families := families + [GameFamily(k, byFamily.lists[k])];
    }
  }

  method GroupBySection(catalog: seq<CatalogEntry>) returns (sections: seq<GameSection>)
    ensures sections == Sections(catalog)
  {
    var bySection := Collect(catalog, BySection);
    sections := [];
    for i := 0 to |bySection.order|
      invariant bySection.Holds(catalog, BySection)
      invariant sections == Sections(catalog)[..i]
    {
      var k := bySection.order[i];
      var families := GroupByFamily(bySection.lists[k]);
      SectionAt(catalog, i);
      sections := sections + [GameSection(k, families)];
    }
    assert Sections(catalog)[..|bySection.order|] == Sections(catalog);
  }

  lemma SectionAt(c: seq<CatalogEntry>, i: nat)
    requires i < |Keys(c, BySection)|
    ensures var k := Keys(c, BySection)[i];
            Sections(c)[..i + 1] == Sections(c)[..i] + [GameSection(k, Families(Having(c, BySection, k)))]
  {
  }

  // ----- order and content -----------------------------------------------------------

  predicate NoDuplicates(ks: seq<string>) { forall i, j | 0 <= i < j < |ks| :: ks[i] != ks[j] }

  /** Where a key first occurs; the length when it does not. */
  function FirstIndex(c: seq<CatalogEntry>, key: Key, k: string): (r: nat)
    ensures r <= |c|
    ensures r < |c| ==> key.Of(c[r]) == k
    ensures forall i | 0 <= i < r :: key.Of(c[i]) != k
  {
    if c == [] then 0
    else
      var r := FirstIndex(Init(c), key, k);
      if r < |c| - 1 || key.Of(Last(c)) == k then r else |c|
  }

  lemma {:induction false} KeysAreTheOccurring(c: seq<CatalogEntry>, key: Key, k: string)
    ensures k in Keys(c, key) <==> FirstIndex(c, key, k) < |c|
  {
    if c != [] {
      KeysAreTheOccurring(Init(c), key, k);
      KeysAreTheOccurring(Init(c), key, key.Of(Last(c)));
    }
  }

  /** Each key once, ordered by first appearance. */
  lemma {:induction false} KeysInFirstAppearanceOrder(c: seq<CatalogEntry>, key: Key)
    ensures NoDuplicates(Keys(c, key))
    ensures forall i, j | 0 <= i < j < |Keys(c, key)| ::
              FirstIndex(c, key, Keys(c, key)[i]) < FirstIndex(c, key, Keys(c, key)[j])
  {
    if c != [] {
      var before, ks := Keys(Init(c), key), Keys(c, key);
      KeysInFirstAppearanceOrder(Init(c), key);
      forall k | k in before
        ensures FirstIndex(c, key, k) == FirstIndex(Init(c), key, k) < |c| - 1
      {
        KeysAreTheOccurring(Init(c), key, k);
      }
      KeysAreTheOccurring(Init(c), key, key.Of(Last(c)));
      assert forall i | 0 <= i < |before| :: ks[i] == before[i] && before[i] in before;
    }
  }

  lemma {:induction false} HavingOfConcat(a: seq<CatalogEntry>, b: seq<CatalogEntry>, key: Key, k: string)
    ensures Having(a + b, key, k) == Having(a, key, k) + Having(b, key, k)
  {
    if b == [] {
      assert a + b == a;
    } else {
      assert Init(a + b) == a + Init(b);
      HavingOfConcat(a, Init(b), key, k);
    }
  }

  predicate AllHave(c: seq<CatalogEntry>, key: Key, k: string) { forall e | e in c :: key.Of(e) == k }

  lemma {:induction false} HavingIsUniform(c: seq<CatalogEntry>, key: Key, k: string)
    ensures AllHave(Having(c, key, k), key, k)
    ensures forall e :: e in Having(c, key, k) <==> e in c && key.Of(e) == k
  {
    if c != [] {
      HavingIsUniform(Init(c), key, k);
      assert c == Init(c) + [Last(c)];
    }
  }

  lemma {:induction false} UniformBlock(c: seq<CatalogEntry>, key: Key, k: string, other: string)
    requires AllHave(c, key, k)
    ensures Having(c, key, other) == if other == k then c else []
  {
    if c != [] {
      assert c == Init(c) + [Last(c)];
      UniformBlock(Init(c), key, k, other);
    }
  }

  /** Appending a non-empty block of one new key appends that key. */
  lemma {:induction false} KeysOfBlock(a: seq<CatalogEntry>, b: seq<CatalogEntry>, key: Key, k: string)
    requires b != [] && AllHave(b, key, k) && k !in Keys(a, key)
    ensures Keys(a + b, key) == Keys(a, key) + [k]
  {
    assert Init(a + b) == a + Init(b) && b == Init(b) + [Last(b)];
    assert Last(b) in b;
    if |b| == 1 {
      assert a + Init(b) == a;
    } else {
      KeysOfBlock(a, Init(b), key, k);
    }
  }

  function Flatten(fs: seq<GameFamily>): seq<CatalogEntry> {
    if fs == [] then [] else Flatten(fs[..|fs| - 1]) + fs[|fs| - 1].entries
  }

  /** One more family laid behind a flattened prefix that does not have its key. */
  lemma OneMoreBlock(before: seq<CatalogEntry>, c: seq<CatalogEntry>, k: string)
    requires k in Keys(c, ByFamily) && k !in Keys(before, ByFamily)
    ensures var block := Having(c, ByFamily, k);
            && Keys(before + block, ByFamily) == Keys(before, ByFamily) + [k]
            && forall other :: Having(before + block, ByFamily, other)
                            == Having(before, ByFamily, other) + if other == k then block else []
  {
    var block := Having(c, ByFamily, k);
    HavingIsUniform(c, ByFamily, k);
    AbsentKeyHasNothing(c, ByFamily, k);
    KeysOfBlock(before, block, ByFamily, k);
    forall other
      ensures Having(before + block, ByFamily, other) == Having(before, ByFamily, other) + if other == k then block else []
    {
      HavingOfConcat(before, block, ByFamily, other);
      UniformBlock(block, ByFamily, k, other);
    }
  }

  lemma {:induction false} FlattenedPrefix(c: seq<CatalogEntry>, n: nat)
    requires n <= |Families(c)|
    ensures Keys(Flatten(Families(c)[..n]), ByFamily) == Keys(c, ByFamily)[..n]
    ensures forall k :: Having(Flatten(Families(c)[..n]), ByFamily, k)
                     == if k in Keys(c, ByFamily)[..n] then Having(c, ByFamily, k) else []
  {
    var ks := Keys(c, ByFamily);
    if n > 0 {
      FlattenedPrefix(c, n - 1);
      KeysInFirstAppearanceOrder(c, ByFamily);
      var before := Flatten(Families(c)[..n - 1]);
      assert Families(c)[..n][..n - 1] == Families(c)[..n - 1];
      assert Flatten(Families(c)[..n]) == before + Having(c, ByFamily, ks[n - 1]);
      FlattenedOneMore(before, c, ks, n);
    }
  }

  lemma FlattenedOneMore(before: seq<CatalogEntry>, c: seq<CatalogEntry>, ks: seq<string>, n: nat)
    requires ks == Keys(c, ByFamily) && NoDuplicates(ks) && 0 < n <= |ks|
    requires Keys(before, ByFamily) == ks[..n - 1]
    requires forall k :: Having(before, ByFamily, k) == if k in ks[..n - 1] then Having(c, ByFamily, k) else []
    ensures var after := before + Having(c, ByFamily, ks[n - 1]);
            && Keys(after, ByFamily) == ks[..n]
            && forall k :: Having(after, ByFamily, k) == if k in ks[..n] then Having(c, ByFamily, k) else []
  {
    assert ks[..n] == ks[..n - 1] + [ks[n - 1]];
    assert ks[n - 1] !in ks[..n - 1];
    OneMoreBlock(before, c, ks[n - 1]);
  }

  lemma FlattenKeepsKeysAndFilters(c: seq<CatalogEntry>, k: string)
    ensures Keys(Flatten(Families(c)), ByFamily) == Keys(c, ByFamily)
    ensures Having(Flatten(Families(c)), ByFamily, k) == Having(c, ByFamily, k)
  {
    FlattenedPrefix(c, |Families(c)|);
    assert Families(c)[..|Families(c)|] == Families(c);
    AbsentKeyHasNothing(c, ByFamily, k);
  }

  /** Grouping what the grouping lists, laid end to end, changes nothing. */
  lemma RegroupingIsTheIdentity(c: seq<CatalogEntry>)
    ensures Families(Flatten(Families(c))) == Families(c)
  {
    forall k ensures Having(Flatten(Families(c)), ByFamily, k) == Having(c, ByFamily, k) {
      FlattenKeepsKeysAndFilters(c, k);
    }
    FlattenKeepsKeysAndFilters(c, "");
  }

  lemma {:induction false} CountIsInItsGroup(c: seq<CatalogEntry>, key: Key, e: CatalogEntry)
    ensures multiset(Having(c, key, key.Of(e)))[e] == multiset(c)[e]
  {
    if c != [] {
      assert c == Init(c) + [Last(c)];
      CountIsInItsGroup(Init(c), key, e);
    }
  }

  /** No entry is dropped, duplicated or moved to another family. */
  lemma FamiliesConserveEntries(c: seq<CatalogEntry>)
    ensures multiset(Flatten(Families(c))) == multiset(c)
  {
    forall e: CatalogEntry
      ensures multiset(Flatten(Families(c)))[e] == multiset(c)[e]
    {
      FlattenKeepsKeysAndFilters(c, e.gameFamily);
      CountIsInItsGroup(c, ByFamily, e);
      CountIsInItsGroup(Flatten(Families(c)), ByFamily, e);
    }
  }

  // ----- shelves ---------------------------------------------------------------------

  /** The families of the shelves laid end to end. */
  function Shelved(ss: seq<GameSection>): seq<GameFamily> {
    if ss == [] then [] else Shelved(ss[..|ss| - 1]) + ss[|ss| - 1].families
  }

  lemma {:induction false} FlattenOfConcat(a: seq<GameFamily>, b: seq<GameFamily>)
    ensures Flatten(a + b) == Flatten(a) + Flatten(b)
  {
    if b == [] {
      assert a + b == a;
    } else {
      assert (a + b)[..|a + b| - 1] == a + b[..|b| - 1];
      FlattenOfConcat(a, b[..|b| - 1]);
    }
  }

  lemma ShelfCounts(c: seq<CatalogEntry>, k: string, e: CatalogEntry)
    ensures multiset(Flatten(Families(Having(c, BySection, k))))[e] == if e.section == k then multiset(c)[e] else 0
  {
    FamiliesConserveEntries(Having(c, BySection, k));
    HavingIsUniform(c, BySection, k);
    CountIsInItsGroup(c, BySection, e);
  }

  lemma OneMoreShelfCounts(before: seq<GameSection>, last: GameSection, e: CatalogEntry)
    ensures multiset(Flatten(Shelved(before + [last])))[e]
         == multiset(Flatten(Shelved(before)))[e] + multiset(Flatten(last.families))[e]
  {
    var all := before + [last];
    assert all[..|all| - 1] == before;
    assert Shelved(all) == Shelved(before) + last.families;
    FlattenOfConcat(Shelved(before), last.families);
  }

  lemma OneMoreKey(c: seq<CatalogEntry>, n: nat, k: string)
    requires 0 < n <= |Keys(c, BySection)|
    ensures var ks := Keys(c, BySection);
            && (k in ks[..n] <==> k in ks[..n - 1] || k == ks[n - 1])
            && ks[n - 1] !in ks[..n - 1]
  {
    KeysInFirstAppearanceOrder(c, BySection);
    var ks := Keys(c, BySection);
    assert ks[..n] == ks[..n - 1] + [ks[n - 1]];
  }

  lemma {:induction false} ShelvedPrefixCounts(c: seq<CatalogEntry>, n: nat, e: CatalogEntry)
    requires n <= |Sections(c)|
    ensures multiset(Flatten(Shelved(Sections(c)[..n])))[e]
         == if e.section in Keys(c, BySection)[..n] then multiset(c)[e] else 0
  {
    if n == 0 {
      assert Sections(c)[..0] == [] && Keys(c, BySection)[..0] == [];
    } else {
      var k, before, last := Keys(c, BySection)[n - 1], Sections(c)[..n - 1], Sections(c)[n - 1];
      assert Sections(c)[..n] == before + [last];
      ShelvedPrefixCounts(c, n - 1, e);
      OneMoreShelfCounts(before, last, e);
      assert multiset(Flatten(last.families))[e] == if e.section == k then multiset(c)[e] else 0 by {
        ShelfCounts(c, k, e);
      }
      OneMoreKey(c, n, e.section);
    }
  }

  /** The shelves hold every entry of the catalog exactly as often as it does. */
  lemma SectionsConserveEntries(c: seq<CatalogEntry>)
    ensures multiset(Flatten(Shelved(Sections(c)))) == multiset(c)
  {
    assert Sections(c)[..|Sections(c)|] == Sections(c);
    forall e: CatalogEntry
      ensures multiset(Flatten(Shelved(Sections(c))))[e] == multiset(c)[e]
    {
      ShelvedPrefixCounts(c, |Sections(c)|, e);
      KeysAreTheOccurring(c, BySection, e.section);
      if e in c {
        var i :| 0 <= i < |c| && c[i] == e;
      }
    }
  }

  function Ids(fs: seq<GameFamily>): seq<string> { seq(|fs|, i requires 0 <= i < |fs| => fs[i].id) }

  predicate Declares(c: seq<CatalogEntry>, family: string, section: string) {
    exists e | e in c :: e.gameFamily == family && e.section == section
  }

  lemma FamiliesHaveTheirKeys(c: seq<CatalogEntry>)
    ensures Ids(Families(c)) == Keys(c, ByFamily)
  {
  }

  /** A family stands on exactly the shelves its entries declare, once on each. */
  lemma FamilyOncePerDeclaredSection(c: seq<CatalogEntry>, i: nat, family: string)
    requires i < |Sections(c)|
    ensures NoDuplicates(Ids(Sections(c)[i].families))
    ensures family in Ids(Sections(c)[i].families) <==> Declares(c, family, Sections(c)[i].id)
  {
    var k := Keys(c, BySection)[i];
    var shelf := Having(c, BySection, k);
    FamiliesHaveTheirKeys(shelf);
    KeysInFirstAppearanceOrder(shelf, ByFamily);
    KeysAreTheOccurring(shelf, ByFamily, family);
    HavingIsUniform(c, BySection, k);
    if family in Ids(Families(shelf)) {
      assert shelf[FirstIndex(shelf, ByFamily, family)] in shelf;
    }
    if Declares(c, family, k) {
      var e :| e in c && e.gameFamily == family && e.section == k;
      assert e in shelf;
    }
  }

  ghost predicate OneSectionEach(c: seq<CatalogEntry>) {
    forall a, b | a in c && b in c && a.gameFamily == b.gameFamily :: a.section == b.section
  }

  predicate Apart(a: seq<string>, b: seq<string>) { forall x | x in a :: x !in b }

  lemma NoDuplicatesOfConcat(a: seq<string>, b: seq<string>)
    ensures NoDuplicates(a + b) <==> NoDuplicates(a) && NoDuplicates(b) && Apart(a, b)
  {
    var w := a + b;
    assert forall i | 0 <= i < |a| :: w[i] == a[i];
    assert forall i | 0 <= i < |b| :: w[|a| + i] == b[i];
    if NoDuplicates(w) {
      forall x | x in a ensures x !in b {
      }
    } else {
      var i, j :| 0 <= i < j < |w| && w[i] == w[j];
      if i < |a| <= j {
        assert a[i] in a && b[j - |a|] in b;
      } else if j < |a| {
        assert a[i] == a[j];
      } else {
        assert b[i - |a|] == b[j - |a|];
      }
    }
  }

  lemma IdsOfConcat(a: seq<GameFamily>, b: seq<GameFamily>)
    ensures Ids(a + b) == Ids(a) + Ids(b)
  {
  }

  lemma {:induction false} ShelvedIds(c: seq<CatalogEntry>, n: nat, family: string)
    requires n <= |Sections(c)|
    ensures family in Ids(Shelved(Sections(c)[..n])) <==> exists i | 0 <= i < n :: Declares(c, family, Sections(c)[i].id)
  {
    if n > 0 {
      ShelvedIds(c, n - 1, family);
      FamilyOncePerDeclaredSection(c, n - 1, family);
      assert Sections(c)[..n][..n - 1] == Sections(c)[..n - 1];
      IdsOfConcat(Shelved(Sections(c)[..n - 1]), Sections(c)[n - 1].families);
    }
  }

  /** No family stands on two of the first `n` shelves. */
  ghost predicate ShelvesDisjoint(c: seq<CatalogEntry>, n: nat)
    requires n <= |Sections(c)|
  {
    forall i, j, f | 0 <= i < j < n && Declares(c, f, Sections(c)[i].id) :: !Declares(c, f, Sections(c)[j].id)
  }

  lemma {:induction false} ShelvedDistinctPrefix(c: seq<CatalogEntry>, n: nat)
    requires n <= |Sections(c)|
    ensures NoDuplicates(Ids(Shelved(Sections(c)[..n]))) <==> ShelvesDisjoint(c, n)
  {
    if n > 0 {
      var before, shelf := Ids(Shelved(Sections(c)[..n - 1])), Ids(Sections(c)[n - 1].families);
      ShelvedDistinctPrefix(c, n - 1);
      ShelvedOneMore(Sections(c), n);
      IdsOfConcat(Shelved(Sections(c)[..n - 1]), Sections(c)[n - 1].families);
      NoDuplicatesOfConcat(before, shelf);
      FamilyOncePerDeclaredSection(c, n - 1, "");
      DisjointOneMore(c, n);
      if LastShelfDisjoint(c, n) { DisjointShelfIsNew(c, n); }
      if Apart(before, shelf) { NewShelfIsDisjoint(c, n); }
    }
  }

  lemma DisjointShelfIsNew(c: seq<CatalogEntry>, n: nat)
    requires 0 < n <= |Sections(c)| && LastShelfDisjoint(c, n)
    ensures Apart(Ids(Shelved(Sections(c)[..n - 1])), Ids(Sections(c)[n - 1].families))
  {
    var before, shelf := Ids(Shelved(Sections(c)[..n - 1])), Ids(Sections(c)[n - 1].families);
    forall x | x in before ensures x !in shelf {
      ShelvedIds(c, n - 1, x);
      FamilyOncePerDeclaredSection(c, n - 1, x);
    }
  }

  lemma NewShelfIsDisjoint(c: seq<CatalogEntry>, n: nat)
    requires 0 < n <= |Sections(c)|
    requires Apart(Ids(Shelved(Sections(c)[..n - 1])), Ids(Sections(c)[n - 1].families))
    ensures LastShelfDisjoint(c, n)
  {
    forall i, f | 0 <= i < n - 1 && Declares(c, f, Sections(c)[i].id) ensures !Declares(c, f, Sections(c)[n - 1].id) {
      ShelvedIds(c, n - 1, f);
      FamilyOncePerDeclaredSection(c, n - 1, f);
    }
  }

  /** No family of the n-th shelf stands on an earlier one. */
  ghost predicate LastShelfDisjoint(c: seq<CatalogEntry>, n: nat)
    requires 0 < n <= |Sections(c)|
  {
    forall i, f | 0 <= i < n - 1 && Declares(c, f, Sections(c)[i].id) :: !Declares(c, f, Sections(c)[n - 1].id)
  }

  lemma DisjointOneMore(c: seq<CatalogEntry>, n: nat)
    requires 0 < n <= |Sections(c)|
    ensures ShelvesDisjoint(c, n) <==> ShelvesDisjoint(c, n - 1) && LastShelfDisjoint(c, n)
  {
  }

  /**
   * Flattening the shelves gives a list of families - what the lobby's "one family opens at once"
   * rule counts - exactly when every family declares a single section. That is why the source groups
   * the catalog twice instead of flattening.
   */
  lemma FlattenedShelvesAreFamiliesIffOneSectionEach(c: seq<CatalogEntry>)
    ensures NoDuplicates(Ids(Shelved(Sections(c)))) <==> OneSectionEach(c)
  {
    var n := |Sections(c)|;
    ShelvedDistinctPrefix(c, n);
    assert Sections(c)[..n] == Sections(c);
    KeysInFirstAppearanceOrder(c, BySection);
    if ShelvesDisjoint(c, n) {
      forall a, b | a in c && b in c && a.gameFamily == b.gameFamily
        ensures a.section == b.section
      {
        DisjointShelvesAgree(c, a, b);
      }
    }
  }

  lemma ShelfOfEntry(c: seq<CatalogEntry>, e: CatalogEntry) returns (i: nat)
    requires e in c
    ensures i < |Sections(c)| && Sections(c)[i].id == e.section && Declares(c, e.gameFamily, Sections(c)[i].id)
  {
    KeysAreTheOccurring(c, BySection, e.section);
    var at :| 0 <= at < |c| && c[at] == e;
    i :| 0 <= i < |Keys(c, BySection)| && Keys(c, BySection)[i] == e.section;
  }

  lemma DisjointShelvesAgree(c: seq<CatalogEntry>, a: CatalogEntry, b: CatalogEntry)
    requires ShelvesDisjoint(c, |Sections(c)|) && a in c && b in c && a.gameFamily == b.gameFamily
    ensures a.section == b.section
  {
    var i := ShelfOfEntry(c, a);
    var j := ShelfOfEntry(c, b);
  }

  // ----- the reordering --------------------------------------------------------------

  /** The families whose first entry sits on this shelf, in order. */
  function OnShelf(fs: seq<GameFamily>, section: string): seq<GameFamily>
    requires forall f | f in fs :: f.entries != []
  {
    if fs == [] then []
    else
      var last := fs[|fs| - 1];
      OnShelf(fs[..|fs| - 1], section) + (if last.entries[0].section == section then [last] else [])
  }

  function FamiliesFor(c: seq<CatalogEntry>, ks: seq<string>): seq<GameFamily> {
    seq(|ks|, i requires 0 <= i < |ks| => GameFamily(ks[i], Having(c, ByFamily, ks[i])))
  }

  function KeysOnShelf(ks: seq<string>, shelfOf: string -> string, section: string): seq<string> {
    if ks == [] then []
    else
      KeysOnShelf(ks[..|ks| - 1], shelfOf, section)
      + (if shelfOf(ks[|ks| - 1]) == section then [ks[|ks| - 1]] else [])
  }

  lemma {:induction false} KeysOnShelfMembers(ks: seq<string>, shelfOf: string -> string, section: string)
    ensures forall k :: k in KeysOnShelf(ks, shelfOf, section) <==> k in ks && shelfOf(k) == section
  {
    if ks != [] {
      KeysOnShelfMembers(ks[..|ks| - 1], shelfOf, section);
      assert ks == ks[..|ks| - 1] + [ks[|ks| - 1]];
    }
  }

  lemma HavingOneMore(c: seq<CatalogEntry>, e: CatalogEntry, key: Key, k: string)
    ensures Having(c + [e], key, k) == if key.Of(e) == k then Having(c, key, k) + [e] else Having(c, key, k)
  {
    assert Init(c + [e]) == c;
    assert Having(c, key, k) + [] == Having(c, key, k);
  }

  lemma KeysOneMore(c: seq<CatalogEntry>, e: CatalogEntry, key: Key)
    ensures Keys(c + [e], key)
         == if key.Of(e) in Keys(c, key) then Keys(c, key) else Keys(c, key) + [key.Of(e)]
  {
    assert Init(c + [e]) == c;
  }

  lemma KeysOnShelfOneMore(ks: seq<string>, k: string, shelfOf: string -> string, section: string)
    ensures KeysOnShelf(ks + [k], shelfOf, section)
         == if shelfOf(k) == section then KeysOnShelf(ks, shelfOf, section) + [k] else KeysOnShelf(ks, shelfOf, section)
  {
    assert (ks + [k])[..|ks|] == ks;
    assert KeysOnShelf(ks, shelfOf, section) + [] == KeysOnShelf(ks, shelfOf, section);
  }

  ghost predicate OnTheirShelf(c: seq<CatalogEntry>, shelfOf: string -> string) {
    forall e | e in c :: e.section == shelfOf(e.gameFamily)
  }

  /** When the family decides the section, a shelf has the entries of its own families ... */
  lemma {:induction false} ShelfFilters(c: seq<CatalogEntry>, shelfOf: string -> string, section: string, k: string)
    requires OnTheirShelf(c, shelfOf)
    ensures Having(Having(c, BySection, section), ByFamily, k)
         == if shelfOf(k) == section then Having(c, ByFamily, k) else []
  {
    if c != [] {
      var init, last := Init(c), Last(c);
      assert c == init + [last] && last in c;
      ShelfFilters(init, shelfOf, section, k);
      HavingOneMore(init, last, BySection, section);
      HavingOneMore(init, last, ByFamily, k);
      if last.section == section {
        HavingOneMore(Having(init, BySection, section), last, ByFamily, k);
      }
    }
  }

  /** ... and their keys. */
  lemma {:induction false} ShelfKeys(c: seq<CatalogEntry>, shelfOf: string -> string, section: string)
    requires OnTheirShelf(c, shelfOf)
    ensures Keys(Having(c, BySection, section), ByFamily) == KeysOnShelf(Keys(c, ByFamily), shelfOf, section)
  {
    if c != [] {
      var init, last := Init(c), Last(c);
      assert c == init + [last] && last in c;
      ShelfKeys(init, shelfOf, section);
      var ks, shelf := Keys(init, ByFamily), Having(init, BySection, section);
      HavingOneMore(init, last, BySection, section);
      KeysOneMore(init, last, ByFamily);
      KeysOnShelfMembers(ks, shelfOf, section);
      KeysOnShelfOneMore(ks, last.gameFamily, shelfOf, section);
      if last.section == section { KeysOneMore(shelf, last, ByFamily); }
    }
  }

  lemma {:induction false} ShelfOfFamilies(c: seq<CatalogEntry>, ks: seq<string>, shelfOf: string -> string, section: string)
    requires forall k | k in ks :: Having(c, ByFamily, k) != [] && Having(c, ByFamily, k)[0].section == shelfOf(k)
    ensures forall f | f in FamiliesFor(c, ks) :: f.entries != []
    ensures OnShelf(FamiliesFor(c, ks), section) == FamiliesFor(c, KeysOnShelf(ks, shelfOf, section))
  {
    if ks != [] {
      var init := ks[..|ks| - 1];
      assert FamiliesFor(c, ks)[..|ks| - 1] == FamiliesFor(c, init);
      assert forall k | k in init :: k in ks;
      ShelfOfFamilies(c, init, shelfOf, section);
    }
  }

  /** The shelf of a family's first entry. */
  function ShelfOf(c: seq<CatalogEntry>): string -> string {
    k => if Having(c, ByFamily, k) == [] then "" else Having(c, ByFamily, k)[0].section
  }

  lemma EntriesOnTheirShelf(c: seq<CatalogEntry>)
    requires OneSectionEach(c)
    ensures OnTheirShelf(c, ShelfOf(c))
  {
    forall e | e in c
      ensures e.section == ShelfOf(c)(e.gameFamily)
    {
      HavingIsUniform(c, ByFamily, e.gameFamily);
      var group := Having(c, ByFamily, e.gameFamily);
      assert e in group && group[0] in group;
    }
  }

  lemma KeysHaveEntries(c: seq<CatalogEntry>)
    ensures forall k | k in Keys(c, ByFamily) :: Having(c, ByFamily, k) != []
  {
    forall k | k in Keys(c, ByFamily) ensures Having(c, ByFamily, k) != [] { AbsentKeyHasNothing(c, ByFamily, k); }
  }

  /** A shelf is the families that belong on it, in the order the whole catalog lists them. */
  lemma ShelfIsItsFamiliesInOrder(c: seq<CatalogEntry>, section: string)
    requires OneSectionEach(c)
    ensures forall f | f in Families(c) :: f.entries != []
    ensures Families(Having(c, BySection, section)) == OnShelf(Families(c), section)
  {
    var shelfOf, ks, shelf := ShelfOf(c), Keys(c, ByFamily), Having(c, BySection, section);
    EntriesOnTheirShelf(c);
    KeysHaveEntries(c);
    ShelfKeys(c, shelfOf, section);
    ShelfOfFamilies(c, ks, shelfOf, section);
    KeysOnShelfMembers(ks, shelfOf, section);
    var kept := KeysOnShelf(ks, shelfOf, section);
    forall i | 0 <= i < |kept| ensures Having(shelf, ByFamily, kept[i]) == Having(c, ByFamily, kept[i]) {
      assert kept[i] in kept;
      ShelfFilters(c, shelfOf, section, kept[i]);
    }
    assert Families(shelf) == FamiliesFor(c, kept);
    assert Families(c) == FamiliesFor(c, ks);
  }

  function Reordered(fs: seq<GameFamily>, sections: seq<string>): seq<GameFamily>
    requires forall f | f in fs :: f.entries != []
  {
    if sections == [] then []
    else Reordered(fs, sections[..|sections| - 1]) + OnShelf(fs, sections[|sections| - 1])
  }

  lemma {:induction false} ShelvedPrefixReorders(c: seq<CatalogEntry>, n: nat)
    requires OneSectionEach(c) && n <= |Sections(c)|
    ensures forall f | f in Families(c) :: f.entries != []
    ensures Shelved(Sections(c)[..n]) == Reordered(Families(c), Keys(c, BySection)[..n])
  {
    ShelfIsItsFamiliesInOrder(c, "");
    if n > 0 {
      var ks := Keys(c, BySection);
      ShelvedPrefixReorders(c, n - 1);
      ShelfIsItsFamiliesInOrder(c, ks[n - 1]);
      ShelvedOneMore(Sections(c), n);
      ReorderedOneMore(Families(c), ks, n);
    }
  }

  lemma ShelvedOneMore(ss: seq<GameSection>, n: nat)
    requires 0 < n <= |ss|
    ensures Shelved(ss[..n]) == Shelved(ss[..n - 1]) + ss[n - 1].families
  {
    assert ss[..n][..n - 1] == ss[..n - 1];
  }

  lemma ReorderedOneMore(fs: seq<GameFamily>, ks: seq<string>, n: nat)
    requires 0 < n <= |ks| && forall f | f in fs :: f.entries != []
    ensures Reordered(fs, ks[..n]) == Reordered(fs, ks[..n - 1]) + OnShelf(fs, ks[n - 1])
  {
    assert ks[..n][..n - 1] == ks[..n - 1];
  }

  /** With one section per family, the shelves laid end to end are the families stably reordered by section. */
  lemma ShelvesReorderFamiliesStably(c: seq<CatalogEntry>)
    requires OneSectionEach(c)
    ensures forall f | f in Families(c) :: f.entries != []
    ensures Shelved(Sections(c)) == Reordered(Families(c), Keys(c, BySection))
  {
    ShelvedPrefixReorders(c, |Sections(c)|);
    assert Sections(c)[..|Sections(c)|] == Sections(c);
    assert Keys(c, BySection)[..|Keys(c, BySection)|] == Keys(c, BySection);
  }
}
