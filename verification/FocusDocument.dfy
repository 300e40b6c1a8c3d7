/** The imperative half of focus continuity: the loops that print selectors and the moves of `activeElement`. */
module FocusDocument {
  import opened Optional
  import opened Selectors
  import opened FocusContinuity
  import Text

  datatype Active = Elsewhere | Container | Element(p: Path)

  /** `attrs.join("")` of printed tests is the printed compound. */
  lemma {:induction false} JoinedTests(c: Compound, texts: seq<string>)
    requires |texts| == |c| && forall i | 0 <= i < |c| :: texts[i] == PrintTest(c[i])
    ensures Text.Join(texts, "") == PrintCompound(c)
  {
    if |c| == 1 {
      assert PrintCompound(c[1..]) == "";
      assert PrintTest(c[0]) + "" == PrintTest(c[0]);
    } else if |c| > 1 {
      JoinedTests(c[1..], texts[1..]);
      assert texts[0] + "" + Text.Join(texts[1..], "") == texts[0] + Text.Join(texts[1..], "");
    }
  }

  lemma {:induction false} KeyTestsSplit(a: Attrs, keys: seq<string>, k: string)
    ensures KeyTests(a, keys + [k])
         == KeyTests(a, keys) + (if "data-" + k in a then [Equals("data-" + k, a["data-" + k])] else [])
  {
    if keys == [] {
      assert keys + [k] == [k] && [k][1..] == [];
    } else {
      assert (keys + [k])[1..] == keys[1..] + [k];
      KeyTestsSplit(a, keys[1..], k);
    }
  }

  method IdentitySelector(a: Attrs) returns (r: Option<string>)
    ensures r == if IdentityTests(a) == [] then None else Some(PrintCompound(IdentityTests(a)))
  {
    var attrs: seq<string> := [];
    ghost var tests: Compound := [];
    if "role" in a {
      attrs := attrs + ["[role=\"" + EscapeAttrValue(a["role"]) + "\"]"];
      tests := [Equals("role", a["role"])];
      RoleText(a["role"]);
    }
    ghost var role := tests;
    for i := 0 to |IDENTITY_KEYS|
      invariant tests == role + KeyTests(a, IDENTITY_KEYS[..i])
      invariant |attrs| == |tests| && forall j | 0 <= j < |tests| :: attrs[j] == PrintTest(tests[j])
    {
      var key := IDENTITY_KEYS[i];
      assert IDENTITY_KEYS[..i + 1] == IDENTITY_KEYS[..i] + [key];
      KeyTestsSplit(a, IDENTITY_KEYS[..i], key);
      if "data-" + key in a {
        var value := a["data-" + key];
        var text := "[" + ("data-" + key + "=\"" + EscapeAttrValue(value) + "\"]");
        attrs := attrs + [text];
        tests := tests + [Equals("data-" + key, value)];
        EqualsText("data-" + key, value);
      }
    }
    assert IDENTITY_KEYS[..|IDENTITY_KEYS|] == IDENTITY_KEYS;
    assert tests == IdentityTests(a);
    JoinedTests(tests, attrs);
    r := if |attrs| == 0 then None else Some(Text.Join(attrs, ""));
  }

  lemma RoleText(value: string)
    ensures PrintTest(Equals("role", value)) == "[role=\"" + EscapeAttrValue(value) + "\"]"
  {
    EqualsText("role", value);
    assert "[" + ("role" + "=\"") == "[role=\"";
  }

  lemma EqualsText(name: string, value: string)
    ensures PrintTest(Equals(name, value)) == "[" + (name + "=\"" + EscapeAttrValue(value) + "\"]")
  {
  }

  lemma PrintedTest(t: Test)
    ensures PrintCompound([t]) == PrintTest(t)
  {
    assert PrintCompound([t][1..]) == "";
  }

  method GroupSelectorText(a: Attrs) returns (r: Option<string>)
    ensures r == if GroupTest(a).None? then None else Some(PrintCompound([GroupTest(a).value]))
  {
    if GroupTest(a).Some? { PrintedTest(GroupTest(a).value); }
    if "data-action" in a { return Some("[" + ("data-action" + "=\"" + EscapeAttrValue(a["data-action"]) + "\"]")); }
    if "data-card" in a { return Some("[" + ("data-card" + "]")); }
    if "role" in a { return Some("[" + ("role" + "=\"" + EscapeAttrValue(a["role"]) + "\"]")); }
    r := None;
  }

  /** `[...ancestors, leaf].join(" ")` prints the ancestors' selector with the leaf's compound behind it. */
  lemma ScopedText(ancestors: Selector, c: Compound)
    ensures Text.Join(PrintAll(ancestors) + [PrintCompound(c)], " ") == PrintSelector(ancestors + [c])
  {
    assert PrintAll(ancestors + [c]) == PrintAll(ancestors) + [PrintCompound(c)];
  }

  lemma {:induction false} ChainAt(tree: Node, p: Path, i: nat)
    requires ValidPath(tree, p) && i < |p|
    ensures ValidPath(tree, p[..i + 1]) && At(tree, p[..i + 1]).attrs == Chain(tree, p)[i]
  {
    if i > 0 {
      ChainAt(tree.children[p[0]], p[1..], i - 1);
      assert p[..i + 1][1..] == p[1..][..i];
    } else {
      assert p[..1][1..] == [];
    }
  }

  lemma PrintOneMoreAncestor(chain: seq<Attrs>)
    requires chain != []
    ensures var c, rest := IdentityTests(chain[0]), PrintAll(AncestorCompounds(chain[1..]));
            PrintAll(AncestorCompounds(chain)) == if c == [] then rest else [PrintCompound(c)] + rest
  {
    var c, rest := IdentityTests(chain[0]), AncestorCompounds(chain[1..]);
    PrintAllCons(c, rest);
    OneMoreAncestor(chain, c, rest);
  }

  lemma OneMoreAncestor(chain: seq<Attrs>, c: Compound, rest: Selector)
    requires chain != [] && c == IdentityTests(chain[0]) && rest == AncestorCompounds(chain[1..])
    ensures AncestorCompounds(chain) == if c == [] then rest else [c] + rest
  {
    assert [] + rest == rest;
  }

  lemma PrintAllCons(c: Compound, rest: Selector)
    ensures PrintAll([c] + rest) == [PrintCompound(c)] + PrintAll(rest)
  {
  }

  /** The walk from the element's parent up to the container, each identity put in front. */
  method AncestorTexts(tree: Node, p: Path) returns (ancestors: seq<string>)
    requires p != [] && ValidPath(tree, p)
    ensures ancestors == PrintAll(AncestorCompounds(Chain(tree, p)[..|p| - 1]))
  {
    ghost var chain := Chain(tree, p);
    ghost var n := |p| - 1;
    ancestors := [];
    var i := |p| - 1;
    while i > 0
      invariant 0 <= i <= n
      invariant ancestors == PrintAll(AncestorCompounds(chain[i..n]))
    {
      i := i - 1;
      ChainAt(tree, p, i);
      var part := IdentitySelector(At(tree, p[..i + 1]).attrs);
      assert chain[i..n][1..] == chain[i + 1..n];
      PrintOneMoreAncestor(chain[i..n]);
      if part.Some? { ancestors := [part.value] + ancestors; }
    }
    assert chain[0..n] == chain[..n];
  }

  /** The three joined texts are the captured selectors in print. */
  lemma CaptureFromTexts(chain: seq<Attrs>, ancestors: seq<string>, exact: Option<string>, group: Option<string>)
    requires chain != []
    requires ancestors == PrintAll(AncestorCompounds(chain[..|chain| - 1]))
    requires var a := chain[|chain| - 1];
             && exact == (if IdentityTests(a) == [] then None else Some(PrintCompound(IdentityTests(a))))
             && group == if GroupTest(a).None? then None else Some(PrintCompound([GroupTest(a).value]))
    ensures Capture(chain)
         == Snapshot(if exact.None? then None else Some(Text.Join(ancestors + [exact.value], " ")),
                     if group.None? then None else Some(Text.Join(ancestors + [group.value], " ")),
                     Text.Join(ancestors + ["[data-action]"], " "))
  {
    var above, a := AncestorCompounds(chain[..|chain| - 1]), chain[|chain| - 1];
    ScopedText(above, IdentityTests(a));
    if group.Some? { ScopedText(above, [GroupTest(a).value]); }
    ScopedText(above, [Has("data-action")]);
    ActionText();
  }

  lemma ActionText()
    ensures PrintCompound([Has("data-action")]) == "[data-action]"
  {
    PrintedTest(Has("data-action"));
    assert "[data-action]" == PrintTest(Has("data-action"));
  }


  /** One document: the container's content, where focus is, and the container's `tabIndex`. */
  class Document {
    const outer: seq<Attrs>
    var tree: Node
    var active: Active
    var containerTabIndex: int

    /** Only something on which `focus()` takes can be the active element. */
    ghost predicate Valid()
      reads this
    {
      active.Element? ==> active.p != [] && ValidPath(tree, active.p) && At(tree, active.p).focusable
    }

    constructor (outer: seq<Attrs>, tree: Node)
      ensures Valid() && this.tree == tree && this.outer == outer && active == Elsewhere
    {
      this.outer, this.tree, active, containerTabIndex := outer, tree, Elsewhere, 0;
    }

    /** `candidate.focus()`: silently refused by what cannot take focus. */
    method Focus(p: Path)
      requires Valid() && p != [] && ValidPath(tree, p)
      modifies this`active
      ensures Valid()
      ensures active == if At(tree, p).focusable then Element(p) else old(active)
    {
      if At(tree, p).focusable { active := Element(p); }
    }

    /** The wipe and rebuild of a render: focus inside the container falls to the body. */
    method ReplaceChildren(children: seq<Node>)
      requires Valid()
      modifies this`tree, this`active
      ensures Valid()
      ensures tree == old(tree).(children := children)
      ensures active == if old(active).Element? then Elsewhere else old(active)
    {
      tree := tree.(children := children);
      if active.Element? { active := Elsewhere; }
    }

    method CaptureFocus() returns (s: Option<Snapshot>)
      requires Valid()
      ensures s == if active.Element? then Some(Capture(Chain(tree, active.p))) else None
    {
      if !active.Element? { return None; }
      var p := active.p;
      ghost var chain := Chain(tree, p);
      ghost var n := |p| - 1;
      var ancestors := AncestorTexts(tree, p);
      ChainAt(tree, p, n);
      assert p[..n + 1] == p;
      var a := At(tree, p).attrs;
      var exact := IdentitySelector(a);
      var group := GroupSelectorText(a);
      assert a == chain[n];
      CaptureFromTexts(chain, ancestors, exact, group);
      s := Some(Snapshot(
        if exact.None? then None else Some(Text.Join(ancestors + [exact.value], " ")),
        if group.None? then None else Some(Text.Join(ancestors + [group.value], " ")),
        Text.Join(ancestors + ["[data-action]"], " ")));
    }

    /** A null snapshot leaves focus alone; otherwise focus goes where the ladder lands. */
    method RestoreFocus(snapshot: Option<Snapshot>) returns (threw: bool)
      requires Valid()
      modifies this`active, this`containerTabIndex
      ensures Valid()
      ensures snapshot.None? ==> !threw && active == old(active) && containerTabIndex == old(containerTabIndex)
      ensures snapshot.Some? ==>
                match Restore(tree, outer, snapshot.value)
                case Threw => threw && active == old(active)
                case OnElement(p) => !threw && active == Element(p)
                case OnContainer => !threw && active == Container && containerTabIndex == -1
    {
      threw := false;
      if snapshot.None? { return; }
      var tried: set<string> := {};
      var selectors := [snapshot.value.exact, snapshot.value.group, Some(snapshot.value.region)];
      assert selectors[0..] == selectors;
      for k := 0 to |selectors|
        invariant Valid() && active == old(active)
        invariant Climb(tree, outer, selectors[k..], tried) == Restore(tree, outer, snapshot.value)
      {
        assert selectors[k..][1..] == selectors[k + 1..];
        var text := selectors[k];
        if text.None? || text.value in tried { continue; }
        var sel := ReadSelector(text.value);
        if sel.None? { threw := true; return; }
        var candidates := Query(tree, outer, sel.value);
        assert candidates[0..] == candidates;
        for c := 0 to |candidates|
          invariant Valid() && active == old(active)
          invariant FirstFocusable(tree, candidates[c..]) == FirstMatch(tree, outer, sel.value)
        {
          assert candidates[c..][1..] == candidates[c + 1..];
          var candidate := candidates[c];
          assert candidate in candidates;
          Focus(candidate);
          if active == Element(candidate) { return; }
        }
        tried := tried + {text.value};
      }
      containerTabIndex := -1;
      active := Container;
    }

    /** The whole bracket of one render: capture, wipe and rebuild, restore. */
    method Rerender(children: seq<Node>) returns (threw: bool)
      requires Valid()
      modifies this
      ensures Valid() && tree == old(tree).(children := children)
      ensures !old(active).Element? ==> !threw && active == old(active)
      ensures old(active).Element? ==>
                var chain := Chain(old(tree), old(active).p);
                match Restore(tree, outer, Capture(chain))
                case Threw => threw && active == Elsewhere && !NewlineFreeChain(chain)
                case OnElement(p) => !threw && active == Element(p)
                case OnContainer => !threw && active == Container
    {
      var snapshot := CaptureFocus();
      ReplaceChildren(children);
      threw := RestoreFocus(snapshot);
      if old(active).Element? {
        RestoreThrowsIffNewline(tree, outer, Chain(old(tree), old(active).p));
      }
    }
  }
}
