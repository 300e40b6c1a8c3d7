/**
 * What the three captured selectors say, told on attributes and positions alone: which element counts as
 * the same control, which as one of its group, and where a restore therefore puts the focus.
 */
module FocusIdentity {
  import opened Optional
  import opened Selectors
  import opened FocusContinuity

  const NAMING: seq<string> := [
    "data-action", "data-card", "data-signal", "data-tier", "data-response", "data-level", "data-game",
    "data-modality", "data-position", "data-relation"
  ]

  /** The attributes that name a control; all others are state, and change between renders. */
  predicate Names(k: string) { k == "role" || k in NAMING }

  predicate Identified(a: Attrs) { exists k | k in a :: Names(k) }

  /** `b` has every name `a` has - as a selector text carries it, so U+0000 became U+FFFD - and maybe more. */
  predicate SameIdentity(a: Attrs, b: Attrs) { forall k | k in a && Names(k) :: k in b && b[k] == Settled(a[k]) }

  /** The same action; for a control without one, any card in place of a card; else the same role. */
  predicate SameGroup(a: Attrs, b: Attrs) {
    if "data-action" in a then "data-action" in b && b["data-action"] == Settled(a["data-action"])
    else if "data-card" in a then "data-card" in b
    else "role" in a && "role" in b && b["role"] == Settled(a["role"])
  }

  /** The ancestors that name something have their likes among these, in order. */
  predicate StandsUnder(ancestors: seq<Attrs>, context: seq<Attrs>)
    decreases |ancestors|
  {
    ancestors == []
    || var n := |ancestors| - 1;
       if !Identified(ancestors[n]) then StandsUnder(ancestors[..n], context)
       else exists k | 0 <= k < |context| :: SameIdentity(ancestors[n], context[k]) && StandsUnder(ancestors[..n], context[..k])
  }

  datatype Rung = Same | Group | AnyAction

  /** What each rung asks of an element, against the one that had the focus. */
  predicate Fits(rung: Rung, a: Attrs, b: Attrs) {
    match rung
    case Same => Identified(a) && SameIdentity(a, b)
    case Group => SameGroup(a, b)
    case AnyAction => "data-action" in b
  }

  /** This position of the rebuilt tree is one the rung would take: it can have focus, fits, and stands under the likes of the old ancestors. */
  ghost predicate Takes(rung: Rung, tree: Node, outer: seq<Attrs>, chain: seq<Attrs>, p: Path)
    requires chain != []
  {
    && p != [] && ValidPath(tree, p) && At(tree, p).focusable
    && Fits(rung, chain[|chain| - 1], At(tree, p).attrs)
    && StandsUnder(chain[..|chain| - 1], outer + Chain(tree, p)[..|p| - 1])
  }

  ghost predicate TakesFirst(rung: Rung, tree: Node, outer: seq<Attrs>, chain: seq<Attrs>, p: Path)
    requires chain != []
  {
    Takes(rung, tree, outer, chain, p) && forall q | Takes(rung, tree, outer, chain, q) && q != p :: Precedes(p, q)
  }

  ghost predicate TakesNone(rung: Rung, tree: Node, outer: seq<Attrs>, chain: seq<Attrs>)
    requires chain != []
  {
    forall q :: !Takes(rung, tree, outer, chain, q)
  }

  /** Some name of the focused element or of an ancestor of it holds a newline. */
  predicate NamesHoldNewline(chain: seq<Attrs>) {
    exists a | a in chain :: exists k | k in a :: Names(k) && !NewlineFree(a[k])
  }

  // ----- identities ------------------------------------------------------------------

  lemma NamingIsTheKeys(i: nat)
    requires i < |NAMING|
    ensures |NAMING| == |IDENTITY_KEYS| && NAMING[i] == "data-" + IDENTITY_KEYS[i]
  {
  }

  lemma TestsAreNames(a: Attrs)
    ensures forall t | t in IdentityTests(a) :: t.Equals? && Names(t.name) && t.name in a && a[t.name] == t.value
    ensures forall k | k in a && Names(k) :: Equals(k, a[k]) in IdentityTests(a)
  {
    IdentityTestsSpec(a);
    forall t | t in IdentityTests(a) ensures Names(t.name) {
      if t.name != "role" {
        var key :| key in IDENTITY_KEYS && t.name == "data-" + key;
        var i :| 0 <= i < |IDENTITY_KEYS| && IDENTITY_KEYS[i] == key;
        NamingIsTheKeys(i);
      }
    }
    forall k | k in a && Names(k) ensures Equals(k, a[k]) in IdentityTests(a) {
      if k != "role" {
        var i :| 0 <= i < |NAMING| && NAMING[i] == k;
        NamingIsTheKeys(i);
        assert IDENTITY_KEYS[i] in IDENTITY_KEYS;
      }
    }
  }

  lemma SettledMembers(c: Compound)
    ensures forall t | t in c :: SettledTest(t) in SettledCompound(c)
    ensures forall u | u in SettledCompound(c) :: exists t :: t in c && u == SettledTest(t)
  {
    forall t | t in c ensures SettledTest(t) in SettledCompound(c) {
      var i :| 0 <= i < |c| && c[i] == t;
      assert SettledCompound(c)[i] == SettledTest(t);
    }
  }

  /** The identity selector of an element, as read, is met by exactly the elements with its names. */
  lemma IdentityMeansSameNames(a: Attrs, b: Attrs)
    ensures IdentityTests(a) != [] <==> Identified(a)
    ensures Satisfies(b, SettledCompound(IdentityTests(a))) <==> SameIdentity(a, b)
  {
    var c := IdentityTests(a);
    TestsAreNames(a);
    SettledMembers(c);
    if c != [] { assert c[0] in c; }
    if Satisfies(b, SettledCompound(c)) {
      forall k | k in a && Names(k) ensures k in b && b[k] == Settled(a[k]) {
        assert SettledTest(Equals(k, a[k])) in SettledCompound(c);
      }
    }
    if SameIdentity(a, b) {
      forall u | u in SettledCompound(c) ensures u.name in b && (u.Equals? ==> b[u.name] == u.value) {
        var t :| t in c && u == SettledTest(t);
      }
    }
  }

  lemma GroupMeansSameGroup(a: Attrs, b: Attrs)
    ensures GroupTest(a).Some? && Satisfies(b, SettledCompound([GroupTest(a).value])) <==> SameGroup(a, b)
  {
    if GroupTest(a).Some? {
      var t := GroupTest(a).value;
      SettledOne(t);
    }
  }

  lemma RegionMeansAnyAction(b: Attrs)
    ensures Satisfies(b, SettledCompound([Has("data-action")])) <==> "data-action" in b
  {
    SettledOne(Has("data-action"));
  }

  lemma SettledOne(t: Test)
    ensures SettledCompound([t]) == [SettledTest(t)]
  {
  }

  // ----- ancestors -------------------------------------------------------------------

  lemma SettledSnoc(sel: Selector, c: Compound)
    ensures SettledSelector(sel + [c]) == SettledSelector(sel) + [SettledCompound(c)]
  {
  }

  lemma EmbedsOneMore(sel: Selector, c: Compound, context: seq<Attrs>)
    ensures Embeds(sel + [c], context)
       <==> exists k | 0 <= k < |context| :: Satisfies(context[k], c) && Embeds(sel, context[..k])
  {
    var all := sel + [c];
    assert all[..|all| - 1] == sel && all[|all| - 1] == c;
  }

  /** The ancestor compounds of a chain, as read, embed exactly where its named ancestors have their likes. */
  lemma {:induction false} AncestorsEmbed(ancestors: seq<Attrs>, context: seq<Attrs>)
    ensures Embeds(SettledSelector(AncestorCompounds(ancestors)), context) <==> StandsUnder(ancestors, context)
    decreases |ancestors|
  {
    if ancestors != [] {
      var n := |ancestors| - 1;
      var init, a := ancestors[..n], ancestors[n];
      assert ancestors == init + [a];
      AncestorCompoundsSplit(init, [a]);
      LastCompound(a);
      IdentityMeansSameNames(a, map[]);
      if !Identified(a) {
        assert AncestorCompounds(ancestors) == AncestorCompounds(init);
        AncestorsEmbed(init, context);
      } else {
        SettledSnoc(AncestorCompounds(init), IdentityTests(a));
        EmbedsOneMore(SettledSelector(AncestorCompounds(init)), SettledCompound(IdentityTests(a)), context);
        forall k | 0 <= k < |context|
          ensures Satisfies(context[k], SettledCompound(IdentityTests(a))) <==> SameIdentity(a, context[k])
          ensures Embeds(SettledSelector(AncestorCompounds(init)), context[..k]) <==> StandsUnder(init, context[..k])
        {
          IdentityMeansSameNames(a, context[k]);
          AncestorsEmbed(init, context[..k]);
        }
      }
    }
  }

  lemma LastCompound(a: Attrs)
    ensures AncestorCompounds([a]) == if IdentityTests(a) == [] then [] else [IdentityTests(a)]
  {
    assert [a] == [a] + [];
    CompoundsCons(a, []);
  }

  // ----- the rungs -------------------------------------------------------------------

  function SelectorOf(rung: Rung, chain: seq<Attrs>): Option<Selector>
    requires chain != []
  {
    match rung
    case Same => ExactSelector(chain)
    case Group => GroupSelector(chain)
    case AnyAction => Some(RegionSelector(chain))
  }

  function LeafOf(rung: Rung, a: Attrs): Compound {
    match rung
    case Same => IdentityTests(a)
    case Group => if GroupTest(a).Some? then [GroupTest(a).value] else []
    case AnyAction => [Has("data-action")]
  }

  lemma LeafFits(rung: Rung, a: Attrs, b: Attrs)
    ensures LeafOf(rung, a) != [] && Satisfies(b, SettledCompound(LeafOf(rung, a))) <==> Fits(rung, a, b)
  {
    IdentityMeansSameNames(a, b);
    GroupMeansSameGroup(a, b);
    RegionMeansAnyAction(b);
  }

  /** A captured selector, as read, matches an element exactly when the element fits and stands under the likes of the old ancestors. */
  lemma RungMatches(rung: Rung, chain: seq<Attrs>, links: seq<Attrs>)
    requires chain != [] && links != []
    ensures SelectorOf(rung, chain).Some? && Matches(SettledSelector(SelectorOf(rung, chain).value), links)
       <==> Fits(rung, chain[|chain| - 1], links[|links| - 1]) && StandsUnder(chain[..|chain| - 1], links[..|links| - 1])
  {
    var n, m := |chain| - 1, |links| - 1;
    var ancestors, leaf := AncestorCompounds(chain[..n]), LeafOf(rung, chain[n]);
    LeafFits(rung, chain[n], links[m]);
    AncestorsEmbed(chain[..n], links[..m]);
    SettledSnoc(ancestors, leaf);
    assert links == links[..m] + [links[m]];
    MatchesSnoc(SettledSelector(ancestors), SettledCompound(leaf), links[..m], links[m]);
    assert SelectorOf(rung, chain) == if leaf == [] then None else Some(ancestors + [leaf]);
  }

  lemma RungDecides(rung: Rung, tree: Node, outer: seq<Attrs>, chain: seq<Attrs>, p: Path)
    requires chain != []
    ensures RungFinds(rung, tree, outer, chain) == Some(p) <==> TakesFirst(rung, tree, outer, chain, p)
    ensures RungFinds(rung, tree, outer, chain) == None <==> TakesNone(rung, tree, outer, chain)
  {
    var sel := SelectorOf(rung, chain);
    forall q
      ensures (sel.Some? && Candidate(tree, outer, SettledSelector(sel.value), q)) <==> Takes(rung, tree, outer, chain, q)
    {
      if q != [] && ValidPath(tree, q) {
        LastLink(tree, outer, q);
        RungMatches(rung, chain, outer + Chain(tree, q));
      }
    }
    if sel.Some? { FirstMatchIsTheFirstCandidate(tree, outer, SettledSelector(sel.value), p); }
  }

  /** One rung of the ladder after another, those that were not captured left out. */
  lemma ClimbOneMore(tree: Node, outer: seq<Attrs>, sel: Option<Selector>, rest: seq<Option<Selector>>)
    ensures ClimbRungs(tree, outer, Reread(Present([sel] + rest)))
         == if sel.Some? && FirstMatch(tree, outer, SettledSelector(sel.value)).Some?
            then OnElement(FirstMatch(tree, outer, SettledSelector(sel.value)).value)
            else ClimbRungs(tree, outer, Reread(Present(rest)))
  {
    assert ([sel] + rest)[1..] == rest;
    if sel.Some? {
      assert Present([sel] + rest) == [sel.value] + Present(rest);
      RereadCons(sel.value, Present(rest));
    } else {
      assert Present([sel] + rest) == Present(rest);
    }
  }

  lemma ClimbThree(tree: Node, outer: seq<Attrs>, a: Option<Selector>, b: Option<Selector>, c: Option<Selector>)
    ensures ClimbRungs(tree, outer, Reread(Present([a, b, c])))
         == if a.Some? && FirstMatch(tree, outer, SettledSelector(a.value)).Some?
            then OnElement(FirstMatch(tree, outer, SettledSelector(a.value)).value)
            else if b.Some? && FirstMatch(tree, outer, SettledSelector(b.value)).Some?
            then OnElement(FirstMatch(tree, outer, SettledSelector(b.value)).value)
            else if c.Some? && FirstMatch(tree, outer, SettledSelector(c.value)).Some?
            then OnElement(FirstMatch(tree, outer, SettledSelector(c.value)).value)
            else OnContainer
  {
    assert [a, b, c] == [a] + [b, c] && [b, c] == [b] + [c] && [c] == [c] + [];
    ClimbOneMore(tree, outer, a, [b, c]);
    ClimbOneMore(tree, outer, b, [c]);
    ClimbOneMore(tree, outer, c, []);
    assert Reread(Present([])) == [];
  }

  lemma NewlinesAreInNames(chain: seq<Attrs>)
    ensures NewlineFreeChain(chain) <==> !NamesHoldNewline(chain)
  {
    forall a | a in chain
      ensures NoNewlineIn(IdentityTests(a)) <==> forall k | k in a && Names(k) :: NewlineFree(a[k])
    {
      TestsAreNames(a);
    }
  }

  /**
   * Where a restore lands, on any old chain and any rebuilt tree, with no selector in sight. It throws
   * exactly when a name on the chain holds a newline. Otherwise the first element with the same names
   * takes the focus; if there is none, the first of its group; if there is none, the first with an
   * action - each under the likes of the old ancestors - and if there is none, the container.
   */
  lemma RestoreByAttributes(tree: Node, outer: seq<Attrs>, chain: seq<Attrs>, p: Path)
    requires chain != []
    ensures var landing := Restore(tree, outer, Capture(chain));
            && (landing == Threw <==> NamesHoldNewline(chain))
            && (landing == OnElement(p)
                <==> !NamesHoldNewline(chain)
                     && (|| TakesFirst(Same, tree, outer, chain, p)
                         || (TakesNone(Same, tree, outer, chain) && TakesFirst(Group, tree, outer, chain, p))
                         || (TakesNone(Same, tree, outer, chain) && TakesNone(Group, tree, outer, chain)
                             && TakesFirst(AnyAction, tree, outer, chain, p))))
            && (landing == OnContainer
                <==> !NamesHoldNewline(chain)
                     && TakesNone(Same, tree, outer, chain)
                     && TakesNone(Group, tree, outer, chain)
                     && TakesNone(AnyAction, tree, outer, chain))
  {
    NewlinesAreInNames(chain);
    RestoreThrowsIffNewline(tree, outer, chain);
    if NewlineFreeChain(chain) {
      RestoreAsksThreeTimes(tree, outer, chain);
      RungDecides(Same, tree, outer, chain, p);
      RungDecides(Group, tree, outer, chain, p);
      RungDecides(AnyAction, tree, outer, chain, p);
    }
  }

  /** What the rung's selector, as read, finds first. */
  function RungFinds(rung: Rung, tree: Node, outer: seq<Attrs>, chain: seq<Attrs>): Option<Path>
    requires chain != []
  {
    var sel := SelectorOf(rung, chain);
    if sel.None? then None else FirstMatch(tree, outer, SettledSelector(sel.value))
  }

  lemma RestoreAsksThreeTimes(tree: Node, outer: seq<Attrs>, chain: seq<Attrs>)
    requires chain != [] && NewlineFreeChain(chain)
    ensures var same, group, any := RungFinds(Same, tree, outer, chain), RungFinds(Group, tree, outer, chain),
                                    RungFinds(AnyAction, tree, outer, chain);
            Restore(tree, outer, Capture(chain))
            == if same.Some? then OnElement(same.value)
               else if group.Some? then OnElement(group.value)
               else if any.Some? then OnElement(any.value)
               else OnContainer
  {
    RestoreClimbsItsRungs(tree, outer, chain);
    ClimbThree(tree, outer, ExactSelector(chain), GroupSelector(chain), Some(RegionSelector(chain)));
  }

  /**
   * A card that was played: nothing with its names is left to take the focus, and another card stands
   * under the likes of its ancestors. The first such card gets it, not the region and not the container.
   */
  lemma ACardGivesWayToACard(tree: Node, outer: seq<Attrs>, chain: seq<Attrs>, p: Path)
    requires chain != [] && !NamesHoldNewline(chain)
    requires "data-card" in chain[|chain| - 1] && "data-action" !in chain[|chain| - 1]
    requires TakesNone(Same, tree, outer, chain)
    requires IsCardUnder(tree, outer, chain, p)
    requires forall q | q != p && IsCardUnder(tree, outer, chain, q) :: Precedes(p, q)
    ensures Restore(tree, outer, Capture(chain)) == OnElement(p)
  {
    CardsAreTheGroup(tree, outer, chain);
    RestoreByAttributes(tree, outer, chain, p);
  }

  lemma CardsAreTheGroup(tree: Node, outer: seq<Attrs>, chain: seq<Attrs>)
    requires chain != [] && "data-card" in chain[|chain| - 1] && "data-action" !in chain[|chain| - 1]
    ensures forall q :: Takes(Group, tree, outer, chain, q) <==> IsCardUnder(tree, outer, chain, q)
  {
  }

  ghost predicate IsCardUnder(tree: Node, outer: seq<Attrs>, chain: seq<Attrs>, p: Path)
    requires chain != []
  {
    && p != [] && ValidPath(tree, p) && At(tree, p).focusable && "data-card" in At(tree, p).attrs
    && StandsUnder(chain[..|chain| - 1], outer + Chain(tree, p)[..|p| - 1])
  }

  lemma {:induction false} LastOfChain(n: Node, p: Path)
    requires p != [] && ValidPath(n, p)
    ensures Chain(n, p)[|p| - 1] == At(n, p).attrs
    decreases |p|
  {
    if p[1..] != [] { LastOfChain(n.children[p[0]], p[1..]); }
  }

  lemma LastLink(tree: Node, outer: seq<Attrs>, p: Path)
    requires p != [] && ValidPath(tree, p)
    ensures var links := outer + Chain(tree, p);
            && |links| == |outer| + |p| && links[|links| - 1] == At(tree, p).attrs
            && links[..|links| - 1] == outer + Chain(tree, p)[..|p| - 1]
  {
    LastOfChain(tree, p);
  }
}
