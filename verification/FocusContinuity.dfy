/**
 * Keyboard-focus continuity across a full rebuild: the focused position is compiled into selector
 * texts, the tree is wiped and rebuilt, and the texts are evaluated again on whatever came back.
 */
module FocusContinuity {
  import opened Optional
  import opened Selectors
  import Text

  // ----- the tree under the container ------------------------------------------------

  /** An element: its attributes, whether `focus()` takes on it, its children. */
  datatype Node = Node(attrs: Attrs, focusable: bool, children: seq<Node>)

  /** A position under the container: the child index taken at each level. */
  type Path = seq<nat>

  predicate ValidPath(n: Node, p: Path)
    decreases |p|
  {
    p == [] || (p[0] < |n.children| && ValidPath(n.children[p[0]], p[1..]))
  }

  function At(n: Node, p: Path): Node
    requires ValidPath(n, p)
    decreases |p|
  {
    if p == [] then n else At(n.children[p[0]], p[1..])
  }

  /** The attributes met on the way down, the container's own excluded. */
  function Chain(n: Node, p: Path): (c: seq<Attrs>)
    requires ValidPath(n, p)
    ensures |c| == |p|
    decreases |p|
  {
    if p == [] then [] else [n.children[p[0]].attrs] + Chain(n.children[p[0]], p[1..])
  }

  /** Every position strictly under the container, in document order. */
  function Descendants(n: Node): seq<Path>
    decreases n, 1
  {
    DescendantsFrom(n.children, 0)
  }

  function DescendantsFrom(cs: seq<Node>, i: nat): seq<Path>
    requires i <= |cs|
    decreases cs, 0, |cs| - i
  {
    if i == |cs| then [] else [[i]] + Under(i, Descendants(cs[i])) + DescendantsFrom(cs, i + 1)
  }

  function Under(i: nat, ps: seq<Path>): seq<Path> { seq(|ps|, k requires 0 <= k < |ps| => [i] + ps[k]) }

  /** Document order: an ancestor before its descendants, an earlier sibling before a later one. */
  predicate Precedes(p: Path, q: Path)
    decreases |p|
  {
    q != [] && (p == [] || p[0] < q[0] || (p[0] == q[0] && Precedes(p[1..], q[1..])))
  }

  lemma UnderMembers(i: nat, ps: seq<Path>, p: Path)
    ensures p in Under(i, ps) <==> p != [] && p[0] == i && p[1..] in ps
  {
    if p != [] && p[0] == i && p[1..] in ps {
      var k :| 0 <= k < |ps| && ps[k] == p[1..];
      assert Under(i, ps)[k] == p;
    }
  }

  lemma {:induction false} DescendantsAreThePositions(n: Node, p: Path)
    ensures p in Descendants(n) <==> p != [] && ValidPath(n, p)
    decreases n, 1
  {
    DescendantsFromAreThePositions(n.children, 0, p);
  }

  lemma {:induction false} DescendantsFromAreThePositions(cs: seq<Node>, i: nat, p: Path)
    requires i <= |cs|
    ensures p in DescendantsFrom(cs, i) <==> p != [] && i <= p[0] < |cs| && ValidPath(cs[p[0]], p[1..])
    decreases cs, 0, |cs| - i
  {
    if i < |cs| {
      UnderMembers(i, Descendants(cs[i]), p);
      DescendantsFromAreThePositions(cs, i + 1, p);
      if p != [] {
        DescendantsAreThePositions(cs[i], p[1..]);
        assert p[1..] == [] ==> p == [p[0]];
      }
    }
  }

  ghost predicate InOrder(ps: seq<Path>) { forall i, j | 0 <= i < j < |ps| :: Precedes(ps[i], ps[j]) }

  lemma {:induction false} DescendantsInOrder(n: Node)
    ensures InOrder(Descendants(n))
    decreases n, 1
  {
    DescendantsFromInOrder(n.children, 0);
  }

  lemma {:induction false} DescendantsFromInOrder(cs: seq<Node>, i: nat)
    requires i <= |cs|
    ensures InOrder(DescendantsFrom(cs, i))
    decreases cs, 0, |cs| - i
  {
    if i < |cs| {
      DescendantsInOrder(cs[i]);
      DescendantsFromInOrder(cs, i + 1);
      var below, later := Under(i, Descendants(cs[i])), DescendantsFrom(cs, i + 1);
      assert InOrder(below) by {
        forall a, b | 0 <= a < b < |below|
          ensures Precedes(below[a], below[b])
        {
          assert below[a][1..] == Descendants(cs[i])[a] && below[b][1..] == Descendants(cs[i])[b];
        }
      }
      forall a | 0 <= a < |below|
        ensures Precedes([i], below[a])
      {
        assert below[a] in below;
        UnderMembers(i, Descendants(cs[i]), below[a]);
        DescendantsAreThePositions(cs[i], below[a][1..]);
      }
      forall b | 0 <= b < |later|
        ensures later[b] != [] && i < later[b][0]
      {
        assert later[b] in later;
        DescendantsFromAreThePositions(cs, i + 1, later[b]);
      }
    }
  }

  lemma {:induction false} PrecedesIsStrict(p: Path, q: Path)
    requires Precedes(p, q)
    ensures p != q && !Precedes(q, p)
    decreases |p|
  {
    if p != [] && p[0] == q[0] {
      PrecedesIsStrict(p[1..], q[1..]);
    }
  }

  // ----- evaluating a selector under the container -----------------------------------

  /** `outer` is the chain of the container's ancestors and the container itself: they can satisfy ancestor compounds. */
  ghost predicate Candidate(tree: Node, outer: seq<Attrs>, sel: Selector, p: Path) {
    p != [] && ValidPath(tree, p) && At(tree, p).focusable && Matches(sel, outer + Chain(tree, p))
  }

  ghost predicate FirstCandidate(tree: Node, outer: seq<Attrs>, sel: Selector, p: Path) {
    Candidate(tree, outer, sel, p) && forall q | Candidate(tree, outer, sel, q) && q != p :: Precedes(p, q)
  }

  /** The positions among `ps` that the selector matches: `querySelectorAll` over the descendants. */
  function Select(tree: Node, outer: seq<Attrs>, sel: Selector, ps: seq<Path>): (r: seq<Path>)
    requires forall p | p in ps :: ValidPath(tree, p)
    ensures forall p | p in r :: p in ps
  {
    if ps == [] then []
    else (if Matches(sel, outer + Chain(tree, ps[0])) then [ps[0]] else []) + Select(tree, outer, sel, ps[1..])
  }

  /** The first of these elements on which `focus()` takes. */
  function FirstFocusable(tree: Node, ps: seq<Path>): Option<Path>
    requires forall p | p in ps :: ValidPath(tree, p)
  {
    if ps == [] then None
    else if At(tree, ps[0]).focusable then Some(ps[0])
    else FirstFocusable(tree, ps[1..])
  }

  lemma SelectTakesOrSkips(tree: Node, outer: seq<Attrs>, sel: Selector, ps: seq<Path>)
    requires ps != [] && forall p | p in ps :: ValidPath(tree, p)
    ensures FirstFocusable(tree, Select(tree, outer, sel, ps))
         == if Matches(sel, outer + Chain(tree, ps[0])) && At(tree, ps[0]).focusable then Some(ps[0])
            else FirstFocusable(tree, Select(tree, outer, sel, ps[1..]))
  {
    var rest := Select(tree, outer, sel, ps[1..]);
    assert ([ps[0]] + rest)[1..] == rest;
    assert [] + rest == rest;
  }

  lemma {:induction false} SelectScans(tree: Node, outer: seq<Attrs>, sel: Selector, ps: seq<Path>)
    requires forall p | p in ps :: p != [] && ValidPath(tree, p)
    requires InOrder(ps)
    ensures var r := FirstFocusable(tree, Select(tree, outer, sel, ps));
            && (r.None? ==> forall p | p in ps :: !Candidate(tree, outer, sel, p))
            && (r.Some? ==>
                  && r.value in ps && Candidate(tree, outer, sel, r.value)
                  && forall q | q in ps && q != r.value && Candidate(tree, outer, sel, q) :: Precedes(r.value, q))
  {
    if ps != [] {
      assert InOrder(ps[1..]);
      assert forall p | p in ps[1..] :: p in ps;
      SelectScans(tree, outer, sel, ps[1..]);
      SelectTakesOrSkips(tree, outer, sel, ps);
      assert ps == [ps[0]] + ps[1..];
      forall q | q in ps[1..]
        ensures Precedes(ps[0], q)
      {
        var k :| 1 <= k < |ps| && ps[k] == q;
      }
    }
  }

  function Query(tree: Node, outer: seq<Attrs>, sel: Selector): (r: seq<Path>)
    ensures forall p | p in r :: p != [] && ValidPath(tree, p)
  {
    DescendantsValid(tree);
    Select(tree, outer, sel, Descendants(tree))
  }

  function FirstMatch(tree: Node, outer: seq<Attrs>, sel: Selector): Option<Path> {
    FirstFocusable(tree, Query(tree, outer, sel))
  }

  lemma DescendantsValid(tree: Node)
    ensures forall p | p in Descendants(tree) :: p != [] && ValidPath(tree, p)
  {
    forall p | p in Descendants(tree) ensures p != [] && ValidPath(tree, p) {
      DescendantsAreThePositions(tree, p);
    }
  }

  /** The scan finds the first candidate in document order, and finds one whenever there is one. */
  lemma FirstMatchIsTheFirstCandidate(tree: Node, outer: seq<Attrs>, sel: Selector, p: Path)
    ensures FirstMatch(tree, outer, sel) == Some(p) <==> FirstCandidate(tree, outer, sel, p)
    ensures FirstMatch(tree, outer, sel) == None <==> forall q :: !Candidate(tree, outer, sel, q)
  {
    DescendantsValid(tree);
    DescendantsInOrder(tree);
    SelectScans(tree, outer, sel, Descendants(tree));
    forall q | Candidate(tree, outer, sel, q) ensures q in Descendants(tree) {
      DescendantsAreThePositions(tree, q);
    }
    var r := FirstMatch(tree, outer, sel);
    if FirstCandidate(tree, outer, sel, p) && r.Some? && r.value != p {
      PrecedesIsStrict(p, r.value);
    }
  }

  // ----- capture ---------------------------------------------------------------------

  const IDENTITY_KEYS: seq<string> :=
    ["action", "card", "signal", "tier", "response", "level", "game", "modality", "position", "relation"]

  function KeyTests(a: Attrs, keys: seq<string>): Compound {
    if keys == [] then []
    else (if "data-" + keys[0] in a then [Equals("data-" + keys[0], a["data-" + keys[0]])] else []) + KeyTests(a, keys[1..])
  }

  /** Every attribute that names the element, with its value: the role and the identity keys. */
  function IdentityTests(a: Attrs): Compound {
    (if "role" in a then [Equals("role", a["role"])] else []) + KeyTests(a, IDENTITY_KEYS)
  }

  function GroupTest(a: Attrs): Option<Test> {
    if "data-action" in a then Some(Equals("data-action", a["data-action"]))
    else if "data-card" in a then Some(Has("data-card"))
    else if "role" in a then Some(Equals("role", a["role"]))
    else None
  }

  /** The identity of each identity-bearing element of a chain. */
  function AncestorCompounds(chain: seq<Attrs>): Selector {
    if chain == [] then []
    else (if IdentityTests(chain[0]) == [] then [] else [IdentityTests(chain[0])]) + AncestorCompounds(chain[1..])
  }

  function ExactSelector(chain: seq<Attrs>): Option<Selector>
    requires chain != []
  {
    var n := |chain| - 1;
    if IdentityTests(chain[n]) == [] then None else Some(AncestorCompounds(chain[..n]) + [IdentityTests(chain[n])])
  }

  function GroupSelector(chain: seq<Attrs>): Option<Selector>
    requires chain != []
  {
    var n := |chain| - 1;
    var t := GroupTest(chain[n]);
    if t.None? then None else Some(AncestorCompounds(chain[..n]) + [[t.value]])
  }

  function RegionSelector(chain: seq<Attrs>): Selector
    requires chain != []
  {
    AncestorCompounds(chain[..|chain| - 1]) + [[Has("data-action")]]
  }

  datatype Snapshot = Snapshot(exact: Option<string>, group: Option<string>, region: string)

  function PrintOption(sel: Option<Selector>): Option<string> {
    if sel.None? then None else Some(PrintSelector(sel.value))
  }

  function Capture(chain: seq<Attrs>): Snapshot
    requires chain != []
  {
    Snapshot(PrintOption(ExactSelector(chain)), PrintOption(GroupSelector(chain)), PrintSelector(RegionSelector(chain)))
  }

  lemma {:induction false} KeyTestsSpec(a: Attrs, keys: seq<string>)
    ensures forall t | t in KeyTests(a, keys) :: t.Equals? && t.name in a && a[t.name] == t.value
    ensures forall k | k in keys && "data-" + k in a :: Equals("data-" + k, a["data-" + k]) in KeyTests(a, keys)
    ensures forall t | t in KeyTests(a, keys) :: exists k :: k in keys && t.name == "data-" + k
  {
    if keys != [] {
      KeyTestsSpec(a, keys[1..]);
      assert keys == [keys[0]] + keys[1..];
    }
  }

  lemma IdentityTestsSpec(a: Attrs)
    ensures Satisfies(a, IdentityTests(a))
    ensures "role" in a ==> Equals("role", a["role"]) in IdentityTests(a)
    ensures forall k | k in IDENTITY_KEYS && "data-" + k in a :: Equals("data-" + k, a["data-" + k]) in IdentityTests(a)
    ensures forall t | t in IdentityTests(a) :: t.Equals? && (t.name == "role" || exists k :: k in IDENTITY_KEYS && t.name == "data-" + k)
  {
    KeyTestsSpec(a, IDENTITY_KEYS);
  }

  lemma {:induction false} AncestorCompoundsSplit(a: seq<Attrs>, b: seq<Attrs>)
    ensures AncestorCompounds(a + b) == AncestorCompounds(a) + AncestorCompounds(b)
  {
    if a == [] {
      assert a + b == b;
    } else {
      AncestorCompoundsSplit(a[1..], b);
      assert a + b == [a[0]] + (a[1..] + b) && a == [a[0]] + a[1..];
      CompoundsCons(a[0], a[1..] + b);
      CompoundsCons(a[0], a[1..]);
      Regrouped(OwnCompound(a[0]), AncestorCompounds(a[1..]), AncestorCompounds(b));
    }
  }

  function OwnCompound(a: Attrs): Selector { if IdentityTests(a) == [] then [] else [IdentityTests(a)] }

  lemma CompoundsCons(a: Attrs, rest: seq<Attrs>)
    ensures AncestorCompounds([a] + rest) == OwnCompound(a) + AncestorCompounds(rest)
  {
    assert ([a] + rest)[1..] == rest;
  }

  lemma Regrouped(a: Selector, b: Selector, c: Selector)
    ensures a + (b + c) == (a + b) + c
  {
  }

  /** A chain meets the compounds taken from it, under any outer ancestors. */
  lemma {:induction false} ChainMeetsItsCompounds(outer: seq<Attrs>, chain: seq<Attrs>)
    ensures Embeds(AncestorCompounds(chain), outer + chain)
  {
    if chain != [] {
      var n := |chain| - 1;
      var init, last := chain[..n], chain[n];
      assert chain == init + [last];
      ChainMeetsItsCompounds(outer, init);
      AncestorCompoundsSplit(init, [last]);
      assert AncestorCompounds([last]) == if IdentityTests(last) == [] then [] else [IdentityTests(last)];
      assert outer + chain == (outer + init) + [last];
      if IdentityTests(last) == [] {
        assert AncestorCompounds(chain) == AncestorCompounds(init);
        EmbedsInLonger(AncestorCompounds(init), outer + init, [last]);
      } else {
        IdentityTestsSpec(last);
        EmbedsSnoc(AncestorCompounds(init), IdentityTests(last), outer + init, last);
      }
    }
  }

  lemma CapturedElementMatches(outer: seq<Attrs>, chain: seq<Attrs>)
    requires chain != [] && ExactSelector(chain).Some?
    ensures Matches(ExactSelector(chain).value, outer + chain)
  {
    var n := |chain| - 1;
    var init, a := chain[..n], chain[n];
    var c := IdentityTests(a);
    assert Satisfies(a, c) by { IdentityTestsSpec(a); }
    assert Embeds(AncestorCompounds(init), outer + init) by { ChainMeetsItsCompounds(outer, init); }
    assert outer + chain == (outer + init) + [a];
    MatchesSnoc(AncestorCompounds(init), c, outer + init, a);
  }

  /** Whatever matches the captured identity belongs to the captured group. */
  lemma ExactMatchIsGroupMatch(chain: seq<Attrs>, other: seq<Attrs>)
    requires chain != [] && ExactSelector(chain).Some? && GroupSelector(chain).Some?
    requires Matches(ExactSelector(chain).value, other)
    ensures Matches(GroupSelector(chain).value, other)
  {
    var n := |chain| - 1;
    var exact, group := ExactSelector(chain).value, GroupSelector(chain).value;
    IdentityTestsSpec(chain[n]);
    assert IDENTITY_KEYS[0] == "action" && IDENTITY_KEYS[1] == "card";
    assert "data-" + IDENTITY_KEYS[0] == "data-action" && "data-" + IDENTITY_KEYS[1] == "data-card";
    assert exact[..|exact| - 1] == AncestorCompounds(chain[..n]) == group[..|group| - 1];
    var leaf := other[|other| - 1];
    assert Satisfies(leaf, IdentityTests(chain[n]));
    assert Satisfies(leaf, [GroupTest(chain[n]).value]);
  }

  // ----- restore ---------------------------------------------------------------------

  datatype Landing = OnElement(p: Path) | OnContainer | Threw

  /** The rungs in order, a text already tried skipped; the container when none takes focus. */
  function Climb(tree: Node, outer: seq<Attrs>, texts: seq<Option<string>>, tried: set<string>): Landing {
    if texts == [] then OnContainer
    else if texts[0].None? || texts[0].value in tried then Climb(tree, outer, texts[1..], tried)
    else
      var sel := ReadSelector(texts[0].value);
      if sel.None? then Threw
      else
        var p := FirstMatch(tree, outer, sel.value);
        if p.Some? then OnElement(p.value) else Climb(tree, outer, texts[1..], tried + {texts[0].value})
  }

  function Texts(s: Snapshot): seq<Option<string>> { [s.exact, s.group, Some(s.region)] }

  function Restore(tree: Node, outer: seq<Attrs>, s: Snapshot): Landing { Climb(tree, outer, Texts(s), {}) }

  /** The ladder without the `tried` set. */
  function ClimbAll(tree: Node, outer: seq<Attrs>, texts: seq<Option<string>>): Landing {
    if texts == [] then OnContainer
    else if texts[0].None? then ClimbAll(tree, outer, texts[1..])
    else
      var sel := ReadSelector(texts[0].value);
      if sel.None? then Threw
      else
        var p := FirstMatch(tree, outer, sel.value);
        if p.Some? then OnElement(p.value) else ClimbAll(tree, outer, texts[1..])
  }

  ghost predicate TakesNothing(tree: Node, outer: seq<Attrs>, text: string) {
    ReadSelector(text).Some? && FirstMatch(tree, outer, ReadSelector(text).value).None?
  }

  /** Skipping what was already tried never changes where focus lands. */
  lemma {:induction false} SkippingTriedChangesNothing(tree: Node, outer: seq<Attrs>, texts: seq<Option<string>>, tried: set<string>)
    requires forall t | t in tried :: TakesNothing(tree, outer, t)
    ensures Climb(tree, outer, texts, tried) == ClimbAll(tree, outer, texts)
  {
    if texts != [] {
      if texts[0].None? || texts[0].value in tried {
        SkippingTriedChangesNothing(tree, outer, texts[1..], tried);
      } else if TakesNothing(tree, outer, texts[0].value) {
        SkippingTriedChangesNothing(tree, outer, texts[1..], tried + {texts[0].value});
      }
    }
  }

  /** The three selectors a snapshot prints, and the ones among them that exist, most specific first. */
  function CapturedSelectors(chain: seq<Attrs>): seq<Option<Selector>>
    requires chain != []
  {
    [ExactSelector(chain), GroupSelector(chain), Some(RegionSelector(chain))]
  }

  function Present(sels: seq<Option<Selector>>): seq<Selector> {
    if sels == [] then [] else (if sels[0].Some? then [sels[0].value] else []) + Present(sels[1..])
  }

  function Rungs(chain: seq<Attrs>): seq<Selector>
    requires chain != []
  {
    Present(CapturedSelectors(chain))
  }

  function Printed(sels: seq<Option<Selector>>): seq<Option<string>> {
    seq(|sels|, i requires 0 <= i < |sels| => PrintOption(sels[i]))
  }

  function ClimbRungs(tree: Node, outer: seq<Attrs>, rungs: seq<Selector>): Landing {
    if rungs == [] then OnContainer
    else
      var p := FirstMatch(tree, outer, rungs[0]);
      if p.Some? then OnElement(p.value) else ClimbRungs(tree, outer, rungs[1..])
  }

  ghost predicate NoCandidate(tree: Node, outer: seq<Attrs>, sel: Selector) {
    forall q :: !Candidate(tree, outer, sel, q)
  }

  /** Where an honest ladder lands: the first taker of the first rung that has one, else the container. */
  ghost predicate LandsHonestly(tree: Node, outer: seq<Attrs>, rungs: seq<Selector>, l: Landing) {
    match l
    case OnElement(p) =>
      exists k | 0 <= k < |rungs| ::
        && FirstCandidate(tree, outer, rungs[k], p)
        && forall j | 0 <= j < k :: NoCandidate(tree, outer, rungs[j])
    case OnContainer => forall j | 0 <= j < |rungs| :: NoCandidate(tree, outer, rungs[j])
    case Threw => false
  }

  lemma {:induction false} ClimbRungsLandsHonestly(tree: Node, outer: seq<Attrs>, rungs: seq<Selector>)
    ensures LandsHonestly(tree, outer, rungs, ClimbRungs(tree, outer, rungs))
  {
    if rungs != [] {
      var p := FirstMatch(tree, outer, rungs[0]);
      FirstMatchIsTheFirstCandidate(tree, outer, rungs[0], if p.Some? then p.value else []);
      if p.None? {
        ClimbRungsLandsHonestly(tree, outer, rungs[1..]);
        var l := ClimbRungs(tree, outer, rungs[1..]);
        if l.OnElement? {
          var k :| 0 <= k < |rungs[1..]| && FirstCandidate(tree, outer, rungs[1..][k], l.p)
                && forall j | 0 <= j < k :: NoCandidate(tree, outer, rungs[1..][j]);
          assert FirstCandidate(tree, outer, rungs[k + 1], l.p);
          forall j | 0 <= j < k + 1 ensures NoCandidate(tree, outer, rungs[j]) {
            assert j > 0 ==> rungs[j] == rungs[1..][j - 1];
          }
        } else {
          forall j | 0 <= j < |rungs| ensures NoCandidate(tree, outer, rungs[j]) {
            assert j > 0 ==> rungs[j] == rungs[1..][j - 1];
          }
        }
      }
    }
  }

  // ----- which captured texts can be read back ---------------------------------------

  /** No identity value on the way to the focused element holds a newline. */
  predicate NewlineFreeChain(chain: seq<Attrs>) { forall a | a in chain :: NoNewlineIn(IdentityTests(a)) }

  /** ... nor U+0000, which a selector text cannot carry either. */
  predicate CleanChain(chain: seq<Attrs>) { forall a | a in chain :: FaithfulIn(IdentityTests(a)) }

  lemma IdentityKeysAreNames(k: string)
    requires k in IDENTITY_KEYS
    ensures IsName("data-" + k)
  {
    forall i | 0 <= i < |IDENTITY_KEYS|
      ensures forall c | c in IDENTITY_KEYS[i] :: IsNameChar(c)
    {
    }
    assert forall c | c in "data-" :: IsNameChar(c);
  }

  lemma {:induction false} AncestorCompoundsSpec(chain: seq<Attrs>)
    ensures Named(AncestorCompounds(chain))
    ensures QuotesNoNewline(AncestorCompounds(chain)) <==> NewlineFreeChain(chain)
    ensures QuotesFaithfully(AncestorCompounds(chain)) <==> CleanChain(chain)
  {
    if chain != [] {
      AncestorCompoundsSpec(chain[1..]);
      IdentityIsNamed(chain[0]);
      assert chain == [chain[0]] + chain[1..];
      CompoundsCons(chain[0], chain[1..]);
      FirstLinkSpec(chain[0], chain[1..]);
      var c, rest := IdentityTests(chain[0]), AncestorCompounds(chain[1..]);
      if c == [] { assert [] + rest == rest; } else { FirstCompoundSpec(c, rest); }
    }
  }

  lemma FirstLinkSpec(a: Attrs, rest: seq<Attrs>)
    ensures NewlineFreeChain([a] + rest) <==> NoNewlineIn(IdentityTests(a)) && NewlineFreeChain(rest)
    ensures CleanChain([a] + rest) <==> FaithfulIn(IdentityTests(a)) && CleanChain(rest)
  {
    assert forall x :: x in [a] + rest <==> x == a || x in rest;
  }

  lemma FirstCompoundSpec(c: Compound, rest: Selector)
    ensures Named([c] + rest) <==> NamedCompound(c) && Named(rest)
    ensures QuotesNoNewline([c] + rest) <==> NoNewlineIn(c) && QuotesNoNewline(rest)
    ensures QuotesFaithfully([c] + rest) <==> FaithfulIn(c) && QuotesFaithfully(rest)
  {
    assert forall x :: x in [c] + rest <==> x == c || x in rest;
  }

  lemma IdentityIsNamed(a: Attrs)
    ensures IdentityTests(a) != [] ==> NamedCompound(IdentityTests(a))
  {
    IdentityTestsSpec(a);
    forall t | t in IdentityTests(a) ensures IsName(t.name) {
      if t.name != "role" {
        var k :| k in IDENTITY_KEYS && t.name == "data-" + k;
        IdentityKeysAreNames(k);
      }
    }
  }

  /** The three captured selectors: well formed, and quoting no more than the identities on the chain. */
  lemma CapturedSelectorsSpec(chain: seq<Attrs>)
    requires chain != []
    ensures Named(RegionSelector(chain))
    ensures ExactSelector(chain).Some? ==> Named(ExactSelector(chain).value)
    ensures ExactSelector(chain).Some? ==> (QuotesNoNewline(ExactSelector(chain).value) <==> NewlineFreeChain(chain))
    ensures ExactSelector(chain).Some? ==> (QuotesFaithfully(ExactSelector(chain).value) <==> CleanChain(chain))
    ensures ExactSelector(chain).None? ==> (QuotesNoNewline(RegionSelector(chain)) <==> NewlineFreeChain(chain))
    ensures NewlineFreeChain(chain) ==> QuotesNoNewline(RegionSelector(chain))
    ensures CleanChain(chain) ==> QuotesFaithfully(RegionSelector(chain))
  {
    var n := |chain| - 1;
    var init, a := chain[..n], chain[n];
    AncestorCompoundsSpec(init);
    IdentityIsNamed(a);
    ChainSplits(chain, init, a);
    var ancestors, c, region := AncestorCompounds(init), IdentityTests(a), [Has("data-action")];
    RegionTestSpec();
    LeafSpec(ancestors, region);
    LeafSpec(ancestors, c);
  }

  lemma RegionTestSpec()
    ensures NamedCompound([Has("data-action")]) && NoNewlineIn([Has("data-action")]) && FaithfulIn([Has("data-action")])
  {
    assert IsName("data-action");
  }

  lemma ChainSplits(chain: seq<Attrs>, init: seq<Attrs>, a: Attrs)
    requires chain != [] && init == chain[..|chain| - 1] && a == chain[|chain| - 1]
    ensures NewlineFreeChain(chain) <==> NewlineFreeChain(init) && NoNewlineIn(IdentityTests(a))
    ensures CleanChain(chain) <==> CleanChain(init) && FaithfulIn(IdentityTests(a))
  {
    assert chain == init + [a];
    assert forall x :: x in chain <==> x in init || x == a;
  }

  /** A leaf under its ancestors adds its own names and values and nothing else. */
  lemma LeafSpec(ancestors: Selector, c: Compound)
    ensures Named(ancestors + [c]) <==> Named(ancestors) && NamedCompound(c)
    ensures QuotesNoNewline(ancestors + [c]) <==> QuotesNoNewline(ancestors) && NoNewlineIn(c)
    ensures QuotesFaithfully(ancestors + [c]) <==> QuotesFaithfully(ancestors) && FaithfulIn(c)
  {
    assert forall x :: x in ancestors + [c] <==> x in ancestors || x == c;
  }

  /** The group test is either one of the identity tests or mere presence of `data-card`. */
  lemma GroupTestSpec(a: Attrs)
    requires GroupTest(a).Some?
    ensures IdentityTests(a) != []
    ensures GroupTest(a).value in IdentityTests(a)
         || (GroupTest(a).value == Has("data-card") && exists t :: t in IdentityTests(a) && t.name == "data-card")
  {
    IdentityTestsSpec(a);
    assert IDENTITY_KEYS[0] == "action" && IDENTITY_KEYS[1] == "card";
    var action, card := "data-" + IDENTITY_KEYS[0], "data-" + IDENTITY_KEYS[1];
    assert action == "data-action" && card == "data-card";
    if "data-action" in a {
      assert Equals("data-action", a["data-action"]) in IdentityTests(a);
    } else if "data-card" in a {
      assert Equals("data-card", a["data-card"]) in IdentityTests(a);
    }
  }

  lemma GroupSelectorSpec(chain: seq<Attrs>)
    requires chain != [] && GroupSelector(chain).Some?
    ensures ExactSelector(chain).Some?
    ensures Named(GroupSelector(chain).value)
    ensures NewlineFreeChain(chain) ==> QuotesNoNewline(GroupSelector(chain).value)
    ensures CleanChain(chain) ==> QuotesFaithfully(GroupSelector(chain).value)
  {
    var n := |chain| - 1;
    var init, a := chain[..n], chain[n];
    var t, c := GroupTest(a).value, IdentityTests(a);
    var ancestors := AncestorCompounds(init);
    AncestorCompoundsSpec(init);
    GroupTestSpec(a);
    IdentityIsNamed(a);
    assert NamedCompound([t]);
    ChainSplits(chain, init, a);
    assert NoNewlineIn(c) ==> NoNewlineIn([t]);
    assert FaithfulIn(c) ==> FaithfulIn([t]);
    LeafSpec(ancestors, [t]);
  }

  // ----- the results -----------------------------------------------------------------

  ghost predicate Printable(sels: seq<Option<Selector>>) {
    forall i | 0 <= i < |sels| && sels[i].Some? :: sels[i].value != [] && Named(sels[i].value)
  }

  lemma CapturedSelectorsPrintable(chain: seq<Attrs>)
    requires chain != []
    ensures Printable(CapturedSelectors(chain))
    ensures Printed(CapturedSelectors(chain)) == Texts(Capture(chain))
  {
    CapturedSelectorsSpec(chain);
    if GroupSelector(chain).Some? {
      GroupSelectorSpec(chain);
    }
    PrintedThree(ExactSelector(chain), GroupSelector(chain), Some(RegionSelector(chain)));
  }

  lemma PrintedThree(a: Option<Selector>, b: Option<Selector>, c: Option<Selector>)
    ensures Printed([a, b, c]) == [PrintOption(a), PrintOption(b), PrintOption(c)]
  {
  }

  /** The selectors as the reader of their texts sees them: U+0000 replaced in every quoted value. */
  function Reread(sels: seq<Selector>): seq<Selector> {
    seq(|sels|, i requires 0 <= i < |sels| => SettledSelector(sels[i]))
  }

  function SettledRungs(chain: seq<Attrs>): seq<Selector>
    requires chain != []
  {
    Reread(Rungs(chain))
  }

  lemma RereadCons(sel: Selector, rest: seq<Selector>)
    ensures Reread([sel] + rest) == [SettledSelector(sel)] + Reread(rest)
    ensures Reread([sel] + rest)[1..] == Reread(rest)
  {
  }

  lemma {:induction false} PrintedLadderClimbsItsRungs(tree: Node, outer: seq<Attrs>, sels: seq<Option<Selector>>)
    requires Printable(sels)
    requires forall i | 0 <= i < |sels| && sels[i].Some? :: QuotesNoNewline(sels[i].value)
    ensures ClimbAll(tree, outer, Printed(sels)) == ClimbRungs(tree, outer, Reread(Present(sels)))
  {
    if sels != [] {
      PrintedLadderClimbsItsRungs(tree, outer, sels[1..]);
      assert Printed(sels)[1..] == Printed(sels[1..]);
      if sels[0].Some? {
        PrintedSelectorReads(sels[0].value);
        RereadCons(sels[0].value, Present(sels[1..]));
      } else {
        assert Present(sels) == Present(sels[1..]);
      }
    }
  }

  lemma {:induction false} PresentMembers(sels: seq<Option<Selector>>)
    ensures forall sel | sel in Present(sels) :: Some(sel) in sels
  {
    if sels != [] { PresentMembers(sels[1..]); }
  }

  /** Without U+0000 the reader sees the rungs themselves. */
  lemma CleanRungsAreReadAsThemselves(chain: seq<Attrs>)
    requires chain != [] && CleanChain(chain)
    ensures SettledRungs(chain) == Rungs(chain)
  {
    CapturedFaithfully(chain);
    CapturedSelectorsPrintable(chain);
    PresentMembers(CapturedSelectors(chain));
    forall i | 0 <= i < |Rungs(chain)| ensures SettledSelector(Rungs(chain)[i]) == Rungs(chain)[i] {
      var sel := Rungs(chain)[i];
      assert sel in Rungs(chain);
      var k :| 0 <= k < 3 && CapturedSelectors(chain)[k] == Some(sel);
      FaithfulSelectorReadsAsItself(sel);
      CleanIsNewlineFree(sel);
      PrintedSelectorReads(sel);
    }
  }

  lemma CleanIsNewlineFree(sel: Selector)
    requires QuotesFaithfully(sel)
    ensures QuotesNoNewline(sel)
  {
    forall c | c in sel ensures NoNewlineIn(c) { assert FaithfulIn(c); }
  }

  lemma FirstRungThrows(tree: Node, outer: seq<Attrs>, sels: seq<Option<Selector>>, k: nat)
    requires Printable(sels) && k < |sels|
    requires sels[k].Some? && !QuotesNoNewline(sels[k].value)
    requires forall i | 0 <= i < k :: sels[i].None?
    ensures ClimbAll(tree, outer, Printed(sels)) == Threw
  {
    assert Printed(sels)[1..] == Printed(sels[1..]);
    if k == 0 {
      PrintedSelectorReads(sels[0].value);
    } else {
      FirstRungThrows(tree, outer, sels[1..], k - 1);
    }
  }

  /** A newline anywhere on the chain is already quoted by the first selector that exists. */
  lemma CapturedNewlines(chain: seq<Attrs>)
    requires chain != []
    ensures var sels := CapturedSelectors(chain);
            if NewlineFreeChain(chain) then forall i | 0 <= i < |sels| && sels[i].Some? :: QuotesNoNewline(sels[i].value)
            else
              var k := if ExactSelector(chain).Some? then 0 else 2;
              && sels[k].Some? && !QuotesNoNewline(sels[k].value)
              && forall i | 0 <= i < k :: sels[i].None?
  {
    EachCapturedNewline(chain);
    var sels := CapturedSelectors(chain);
    assert sels[0] == ExactSelector(chain) && sels[1] == GroupSelector(chain) && sels[2] == Some(RegionSelector(chain));
  }

  lemma EachCapturedNewline(chain: seq<Attrs>)
    requires chain != []
    ensures ExactSelector(chain).Some? ==> (QuotesNoNewline(ExactSelector(chain).value) <==> NewlineFreeChain(chain))
    ensures GroupSelector(chain).Some? ==> ExactSelector(chain).Some?
    ensures GroupSelector(chain).Some? && NewlineFreeChain(chain) ==> QuotesNoNewline(GroupSelector(chain).value)
    ensures NewlineFreeChain(chain) ==> QuotesNoNewline(RegionSelector(chain))
    ensures ExactSelector(chain).None? ==> (QuotesNoNewline(RegionSelector(chain)) <==> NewlineFreeChain(chain))
  {
    CapturedSelectorsSpec(chain);
    if GroupSelector(chain).Some? {
      GroupSelectorSpec(chain);
    }
  }

  /**
   * On any rebuilt tree, restore throws exactly when some captured identity value holds a newline:
   * the printed text is then not a selector. Otherwise it always lands.
   */
  lemma RestoreThrowsIffNewline(tree: Node, outer: seq<Attrs>, chain: seq<Attrs>)
    requires chain != []
    ensures Restore(tree, outer, Capture(chain)) == Threw <==> !NewlineFreeChain(chain)
  {
    SkippingTriedChangesNothing(tree, outer, Texts(Capture(chain)), {});
    CapturedSelectorsPrintable(chain);
    CapturedNewlines(chain);
    if NewlineFreeChain(chain) {
      PrintedLadderClimbsItsRungs(tree, outer, CapturedSelectors(chain));
      ClimbRungsLandsHonestly(tree, outer, SettledRungs(chain));
    } else {
      FirstRungThrows(tree, outer, CapturedSelectors(chain), if ExactSelector(chain).Some? then 0 else 2);
    }
  }

  lemma RestoreClimbsItsRungs(tree: Node, outer: seq<Attrs>, chain: seq<Attrs>)
    requires chain != [] && NewlineFreeChain(chain)
    ensures Restore(tree, outer, Capture(chain)) == ClimbRungs(tree, outer, SettledRungs(chain))
  {
    SkippingTriedChangesNothing(tree, outer, Texts(Capture(chain)), {});
    CapturedSelectorsPrintable(chain);
    CapturedNewlines(chain);
    PrintedLadderClimbsItsRungs(tree, outer, CapturedSelectors(chain));
  }

  lemma CapturedFaithfully(chain: seq<Attrs>)
    requires chain != [] && CleanChain(chain)
    ensures var sels := CapturedSelectors(chain);
            forall i | 0 <= i < |sels| && sels[i].Some? :: QuotesFaithfully(sels[i].value)
  {
    CapturedSelectorsSpec(chain);
    if GroupSelector(chain).Some? {
      GroupSelectorSpec(chain);
    }
  }

  /**
   * For any old chain and any rebuilt tree: restore lands on the first focusable match of the most
   * specific rung that has one, the rungs as their texts are read, else on the container itself - never
   * outside it. Only a newline in a captured identity keeps it from landing at all.
   */
  lemma RestoreLandsHonestly(tree: Node, outer: seq<Attrs>, chain: seq<Attrs>)
    requires chain != []
    ensures if NewlineFreeChain(chain)
            then LandsHonestly(tree, outer, SettledRungs(chain), Restore(tree, outer, Capture(chain)))
            else Restore(tree, outer, Capture(chain)) == Threw
  {
    RestoreThrowsIffNewline(tree, outer, chain);
    if NewlineFreeChain(chain) {
      RestoreClimbsItsRungs(tree, outer, chain);
      ClimbRungsLandsHonestly(tree, outer, SettledRungs(chain));
    }
  }

  /** Without U+0000 these are the captured rungs themselves. */
  lemma CleanRestoreLandsHonestly(tree: Node, outer: seq<Attrs>, chain: seq<Attrs>)
    requires chain != [] && CleanChain(chain)
    ensures LandsHonestly(tree, outer, Rungs(chain), Restore(tree, outer, Capture(chain)))
  {
    CleanChainIsNewlineFree(chain);
    CleanRungsAreReadAsThemselves(chain);
    RestoreLandsHonestly(tree, outer, chain);
  }

  lemma CleanChainIsNewlineFree(chain: seq<Attrs>)
    requires CleanChain(chain)
    ensures NewlineFreeChain(chain)
  {
    forall a | a in chain ensures NoNewlineIn(IdentityTests(a)) { assert FaithfulIn(IdentityTests(a)); }
  }

  /** `p` is the first taker of the first rung that has one. */
  ghost predicate DecidedBy(tree: Node, outer: seq<Attrs>, rungs: seq<Selector>, p: Path) {
    exists k: nat :: DecidedAt(tree, outer, rungs, p, k)
  }

  ghost predicate DecidedAt(tree: Node, outer: seq<Attrs>, rungs: seq<Selector>, p: Path, k: nat) {
    && k < |rungs|
    && FirstCandidate(tree, outer, rungs[k], p)
    && forall j | 0 <= j < k :: NoCandidate(tree, outer, rungs[j])
  }

  lemma DecidedByFirstOrRest(tree: Node, outer: seq<Attrs>, rungs: seq<Selector>, p: Path)
    requires rungs != []
    ensures DecidedBy(tree, outer, rungs, p)
       <==> || FirstCandidate(tree, outer, rungs[0], p)
            || (NoCandidate(tree, outer, rungs[0]) && DecidedBy(tree, outer, rungs[1..], p))
  {
    if DecidedBy(tree, outer, rungs, p) && !FirstCandidate(tree, outer, rungs[0], p) {
      var k: nat :| DecidedAt(tree, outer, rungs, p, k);
      DecidedOneLater(tree, outer, rungs, p, k - 1);
    }
    if NoCandidate(tree, outer, rungs[0]) && DecidedBy(tree, outer, rungs[1..], p) {
      var k: nat :| DecidedAt(tree, outer, rungs[1..], p, k);
      DecidedOneLater(tree, outer, rungs, p, k);
    }
    if FirstCandidate(tree, outer, rungs[0], p) { assert DecidedAt(tree, outer, rungs, p, 0); }
  }

  lemma DecidedOneLater(tree: Node, outer: seq<Attrs>, rungs: seq<Selector>, p: Path, k: nat)
    requires rungs != []
    ensures DecidedAt(tree, outer, rungs, p, k + 1)
       <==> NoCandidate(tree, outer, rungs[0]) && DecidedAt(tree, outer, rungs[1..], p, k)
  {
    var rest := rungs[1..];
    if NoCandidate(tree, outer, rungs[0]) && DecidedAt(tree, outer, rest, p, k) {
      forall j | 0 <= j < k + 1 ensures NoCandidate(tree, outer, rungs[j]) {
        if j > 0 { assert NoCandidate(tree, outer, rest[j - 1]); }
      }
      assert FirstCandidate(tree, outer, rungs[k + 1], p);
    }
    if DecidedAt(tree, outer, rungs, p, k + 1) {
      forall j | 0 <= j < k ensures NoCandidate(tree, outer, rest[j]) {
        assert NoCandidate(tree, outer, rungs[j + 1]);
      }
    }
  }

  /** The ladder lands on an element exactly when that element decides it. */
  lemma {:induction false} ClimbIsDecided(tree: Node, outer: seq<Attrs>, rungs: seq<Selector>, p: Path)
    ensures ClimbRungs(tree, outer, rungs) == OnElement(p) <==> DecidedBy(tree, outer, rungs, p)
  {
    if rungs != [] {
      FirstMatchIsTheFirstCandidate(tree, outer, rungs[0], p);
      DecidedByFirstOrRest(tree, outer, rungs, p);
      ClimbIsDecided(tree, outer, rungs[1..], p);
    }
  }

  /**
   * The round trip, for every tree and every position under its container: capturing, rebuilding the same
   * tree and restoring comes back to the position exactly when no captured identity holds a newline and the
   * position is the first focusable match of the first of its three rungs, as read, that has one.
   */
  lemma RoundTripIff(tree: Node, outer: seq<Attrs>, p: Path)
    requires p != [] && ValidPath(tree, p)
    ensures var chain := Chain(tree, p);
            Restore(tree, outer, Capture(chain)) == OnElement(p)
            <==> NewlineFreeChain(chain) && DecidedBy(tree, outer, SettledRungs(chain), p)
  {
    var chain := Chain(tree, p);
    RestoreThrowsIffNewline(tree, outer, chain);
    if NewlineFreeChain(chain) {
      RestoreClimbsItsRungs(tree, outer, chain);
      ClimbIsDecided(tree, outer, SettledRungs(chain), p);
    }
  }

  /**
   * For a control whose chain holds neither: focus comes back to it exactly when no other focusable
   * control with the same identity and context stands before it.
   */
  lemma SameTreeRoundTrip(tree: Node, outer: seq<Attrs>, p: Path)
    requires p != [] && ValidPath(tree, p)
    requires CleanChain(Chain(tree, p)) && ExactSelector(Chain(tree, p)).Some?
    ensures Restore(tree, outer, Capture(Chain(tree, p))) == OnElement(p)
       <==> FirstCandidate(tree, outer, ExactSelector(Chain(tree, p)).value, p)
  {
    var chain := Chain(tree, p);
    var exact := ExactSelector(chain).value;
    CleanChainIsNewlineFree(chain);
    CleanRungsAreReadAsThemselves(chain);
    RoundTripIff(tree, outer, p);
    CapturedElementMatches(outer, chain);
    OwnRungDecides(tree, outer, Rungs(chain), p);
    assert Rungs(chain)[0] == exact;
  }

  /** A position that the first rung could take is decided by that rung or not at all. */
  lemma OwnRungDecides(tree: Node, outer: seq<Attrs>, rungs: seq<Selector>, p: Path)
    requires rungs != [] && (p != [] && ValidPath(tree, p) && At(tree, p).focusable ==> Candidate(tree, outer, rungs[0], p))
    ensures DecidedBy(tree, outer, rungs, p) <==> FirstCandidate(tree, outer, rungs[0], p)
  {
    if FirstCandidate(tree, outer, rungs[0], p) { assert DecidedAt(tree, outer, rungs, p, 0); }
    if DecidedBy(tree, outer, rungs, p) {
      var k: nat :| DecidedAt(tree, outer, rungs, p, k);
      assert k != 0 ==> NoCandidate(tree, outer, rungs[0]);
    }
  }

  /** In particular, focus returns whenever the control is the only focusable match of its identity. */
  lemma OnlyMatchGetsFocusBack(tree: Node, outer: seq<Attrs>, p: Path)
    requires p != [] && ValidPath(tree, p) && At(tree, p).focusable
    requires CleanChain(Chain(tree, p)) && ExactSelector(Chain(tree, p)).Some?
    requires forall q | Candidate(tree, outer, ExactSelector(Chain(tree, p)).value, q) :: q == p
    ensures Restore(tree, outer, Capture(Chain(tree, p))) == OnElement(p)
  {
    CapturedElementMatches(outer, Chain(tree, p));
    SameTreeRoundTrip(tree, outer, p);
  }

  // ----- U+0000 in an identity -------------------------------------------------------

  /** Two buttons under the container, the second with U+0000 in its action. */
  function TwoButtons(): Node {
    Node(map[], false, [Node(map["data-action" := "a"], true, []), Node(map["data-action" := "\0"], true, [])])
  }

  lemma {:induction false} NoKeyTests(a: Attrs, keys: seq<string>)
    requires forall i | 0 <= i < |keys| :: "data-" + keys[i] !in a
    ensures KeyTests(a, keys) == []
  {
    if keys != [] {
      assert forall i | 0 <= i < |keys[1..]| :: keys[1..][i] == keys[i + 1];
      NoKeyTests(a, keys[1..]);
    }
  }

  lemma OtherKeysAreNotAction(i: nat)
    requires 0 < i < |IDENTITY_KEYS|
    ensures "data-" + IDENTITY_KEYS[i] != "data-action"
  {
    var key := IDENTITY_KEYS[i];
    assert |key| != 6 || key[0] != 'a';
    assert ("data-" + key)[5..] == key && "data-action"[5..] == "action";
  }

  lemma ActionIsTheIdentity(v: string)
    ensures IdentityTests(map["data-action" := v]) == [Equals("data-action", v)]
  {
    var a, rest := map["data-action" := v], IDENTITY_KEYS[1..];
    assert "data-" + IDENTITY_KEYS[0] == "data-action";
    forall i | 0 <= i < |rest| ensures "data-" + rest[i] !in a {
      OtherKeysAreNotAction(i + 1);
    }
    NoKeyTests(a, rest);
    assert "role" !in a by { assert |"role"| != |"data-action"|; }
  }

  function ActionChain(v: string): seq<Attrs> { [map["data-action" := v]] }

  /** The rungs of an action button directly under the container. */
  lemma ActionRungs(v: string)
    ensures ExactSelector(ActionChain(v)) == Some([[Equals("data-action", v)]])
    ensures Rungs(ActionChain(v)) == [[[Equals("data-action", v)]], [[Equals("data-action", v)]], [[Has("data-action")]]]
  {
    ActionIsTheIdentity(v);
    var chain, own, any := ActionChain(v), [Equals("data-action", v)], [Has("data-action")];
    assert AncestorCompounds(chain[..0]) == [];
    assert [] + [own] == [own] && [] + [any] == [any];
    PresentThree([own], [own], [any]);
  }

  lemma PresentThree(a: Selector, b: Selector, c: Selector)
    ensures Present([Some(a), Some(b), Some(c)]) == [a, b, c]
  {
    var all := [Some(a), Some(b), Some(c)];
    assert all[1..] == [Some(b), Some(c)] && all[1..][1..] == [Some(c)] && all[1..][1..][1..] == [];
    assert Present([Some(c)]) == [c];
    assert Present([Some(b), Some(c)]) == [b] + [c];
  }

  lemma ButtonPositions(p: Path)
    ensures p != [] && ValidPath(TwoButtons(), p) <==> p == [0] || p == [1]
  {
    if p != [] && ValidPath(TwoButtons(), p) {
      assert p == [p[0]] + p[1..];
    }
    assert [0][1..] == [] && [1][1..] == [];
  }

  lemma ButtonCandidates(t: Test, p: Path)
    ensures Candidate(TwoButtons(), [], [[t]], p)
       <==> (p == [0] && Satisfies(map["data-action" := "a"], [t])) || (p == [1] && Satisfies(map["data-action" := "\0"], [t]))
  {
    ButtonPositions(p);
    if p == [0] || p == [1] {
      var tree := TwoButtons();
      assert p[1..] == [];
      assert Chain(tree, p) == [tree.children[p[0]].attrs] && At(tree, p) == tree.children[p[0]];
      assert [] + Chain(tree, p) == Chain(tree, p);
      assert Embeds([[t]][..0], Chain(tree, p)[..0]);
    }
  }

  lemma ButtonsTake(q: Path)
    ensures Candidate(TwoButtons(), [], [[Equals("data-action", "\0")]], q) <==> q == [1]
    ensures !Candidate(TwoButtons(), [], [[Equals("data-action", "\U{FFFD}")]], q)
    ensures Candidate(TwoButtons(), [], [[Has("data-action")]], q) <==> q == [0] || q == [1]
  {
    ButtonCandidates(Equals("data-action", "\0"), q);
    ButtonCandidates(Equals("data-action", "\U{FFFD}"), q);
    ButtonCandidates(Has("data-action"), q);
  }

  lemma NulRungsAsRead()
    ensures SettledRungs(ActionChain("\0"))
         == [[[Equals("data-action", "\U{FFFD}")]], [[Equals("data-action", "\U{FFFD}")]], [[Has("data-action")]]]
  {
    var quoted, region: Selector := [[Equals("data-action", "\0")]], [[Has("data-action")]];
    ActionRungs("\0");
    SettledOne(Equals("data-action", "\0"));
    SettledOne(Has("data-action"));
    NulAsRead();
    RereadThree(quoted, quoted, region);
  }

  lemma NulAsRead()
    ensures Settled("\0") == "\U{FFFD}"
  {
  }

  lemma RereadThree(a: Selector, b: Selector, c: Selector)
    ensures Reread([a, b, c]) == [SettledSelector(a), SettledSelector(b), SettledSelector(c)]
  {
  }

  lemma SettledOne(t: Test)
    ensures SettledSelector([[t]]) == [[SettledTest(t)]]
  {
    assert SettledCompound([t]) == [SettledTest(t)];
  }

  lemma DecidedByThird(tree: Node, outer: seq<Attrs>, a: Selector, b: Selector, c: Selector, p: Path)
    requires NoCandidate(tree, outer, a) && NoCandidate(tree, outer, b) && FirstCandidate(tree, outer, c, p)
    ensures DecidedBy(tree, outer, [a, b, c], p)
  {
    var rungs := [a, b, c];
    assert rungs[0] == a && rungs[1] == b && rungs[2] == c;
    assert DecidedAt(tree, outer, rungs, p, 2);
  }

  lemma FirstOfTwo(tree: Node, outer: seq<Attrs>, sel: Selector)
    requires forall q :: Candidate(tree, outer, sel, q) <==> q == [0] || q == [1]
    ensures FirstCandidate(tree, outer, sel, [0])
  {
    assert Precedes([0], [1]);
  }

  lemma RegionDecides()
    ensures DecidedBy(TwoButtons(), [], SettledRungs(ActionChain("\0")), [0])
  {
    var read, region: Selector := [[Equals("data-action", "\U{FFFD}")]], [[Has("data-action")]];
    forall q
      ensures !Candidate(TwoButtons(), [], read, q)
      ensures Candidate(TwoButtons(), [], region, q) <==> q == [0] || q == [1]
    {
      ButtonsTake(q);
    }
    FirstOfTwo(TwoButtons(), [], region);
    DecidedByThird(TwoButtons(), [], read, read, region, [0]);
    NulRungsAsRead();
  }

  lemma NulIsNoNewline()
    ensures NewlineFreeChain(ActionChain("\0"))
  {
    ActionIsTheIdentity("\0");
    OneTestNoNewline("data-action", "\0");
    var a := map["data-action" := "\0"];
    assert NoNewlineIn(IdentityTests(a));
    OneLinkChain(a);
  }

  lemma OneTestNoNewline(name: string, v: string)
    requires |v| == 1 && !IsNewline(v[0])
    ensures NoNewlineIn([Equals(name, v)])
  {
    assert NewlineFree(v);
  }

  lemma OneLinkChain(a: Attrs)
    requires NoNewlineIn(IdentityTests(a))
    ensures NewlineFreeChain([a])
  {
  }

  /** The second button is the only match of its own identity ... */
  lemma NulIsItsOnlyMatch(q: Path)
    ensures ValidPath(TwoButtons(), [1]) && Chain(TwoButtons(), [1]) == ActionChain("\0")
    ensures ExactSelector(ActionChain("\0")).Some?
    ensures Candidate(TwoButtons(), [], ExactSelector(ActionChain("\0")).value, q) <==> q == [1]
  {
    ButtonPositions([1]);
    assert [1][1..] == [];
    ActionRungs("\0");
    ButtonsTake(q);
  }

  /**
   * ... and yet restoring on the same tree puts focus on the first: both quoting rungs are read with
   * U+FFFD, match nothing, and the region rung decides.
   */
  lemma NulIdentityGoesElsewhere()
    ensures Restore(TwoButtons(), [], Capture(ActionChain("\0"))) == OnElement([0])
  {
    NulIsNoNewline();
    RestoreClimbsItsRungs(TwoButtons(), [], ActionChain("\0"));
    RegionDecides();
    ClimbIsDecided(TwoButtons(), [], SettledRungs(ActionChain("\0")), [0]);
  }
}
