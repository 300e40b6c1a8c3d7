/**
 * The part of Selectors Level 3 that focus continuity relies on: attribute tests, compounds of them
 * and the descendant combinator - as abstract syntax, as the text that names them, as the reader of
 * that text (the string token of section 4.3.5 of CSS Syntax Level 3 inside it) and as matching.
 */
module Selectors {
  import opened Optional
  import Text

  type Attrs = map<string, string>

  datatype Test = Has(name: string) | Equals(name: string, value: string)
  type Compound = seq<Test>
  type Selector = seq<Compound>

  // ----- text ------------------------------------------------------------------------

  /** `value.replace(/[\\"]/g, "\\$&")` */
  function EscapeAttrValue(v: string): string {
    if v == "" then ""
    else (if v[0] == '\\' || v[0] == '"' then ['\\', v[0]] else [v[0]]) + EscapeAttrValue(v[1..])
  }

  /** What stands after the opening bracket of a test. */
  function TestBody(t: Test): string {
    match t
    case Has(name) => name + "]"
    case Equals(name, value) => name + "=\"" + EscapeAttrValue(value) + "\"]"
  }

  function PrintTest(t: Test): string { "[" + TestBody(t) }

  function PrintCompound(c: Compound): string {
    if c == [] then "" else PrintTest(c[0]) + PrintCompound(c[1..])
  }

  function PrintAll(sel: Selector): seq<string> { seq(|sel|, i requires 0 <= i < |sel| => PrintCompound(sel[i])) }

  function PrintSelector(sel: Selector): string { Text.Join(PrintAll(sel), " ") }

  // ----- reading the text back -------------------------------------------------------

  predicate IsNewline(c: char) { c == '\n' || c == '\r' || c == '\U{000C}' }

  /**
   * The characters of a string token up to its closing quote. A newline makes it a bad string, which
   * no selector contains; U+0000 is read as U+FFFD. Hexadecimal escapes and unterminated strings,
   * which the printer above never writes, are not read.
   */
  function ReadString(s: string): (r: Option<(string, string)>)
    ensures r.Some? ==> |r.value.1| < |s|
  {
    if s == "" || IsNewline(s[0]) then None
    else if s[0] == '"' then Some(("", s[1..]))
    else if s[0] == '\\' then
      if |s| < 2 || (s[1] != '\\' && s[1] != '"') then None
      else
        var tail := ReadString(s[2..]);
        if tail.None? then None else Some(([s[1]] + tail.value.0, tail.value.1))
    else
      var tail := ReadString(s[1..]);
      if tail.None? then None else Some(([if s[0] == '\0' then '\U{FFFD}' else s[0]] + tail.value.0, tail.value.1))
  }

  predicate IsNameChar(c: char) { 'a' <= c <= 'z' || c == '-' }
  predicate IsName(n: string) { n != "" && forall c | c in n :: IsNameChar(c) }

  function ReadName(s: string): (r: (string, string))
    ensures r.0 + r.1 == s
  {
    if s == "" || !IsNameChar(s[0]) then ("", s)
    else
      var tail := ReadName(s[1..]);
      ([s[0]] + tail.0, tail.1)
  }

  /** One attribute test, after its opening bracket. */
  function ReadTest(s: string): (r: Option<(Test, string)>)
    ensures r.Some? ==> |r.value.1| < |s|
  {
    var (name, rest) := ReadName(s);
    assert |name| + |rest| == |s|;
    if name == "" || rest == "" then None
    else if rest[0] == ']' then Some((Has(name), rest[1..]))
    else if |rest| < 2 || rest[0] != '=' || rest[1] != '"' then None
    else
      var v := ReadString(rest[2..]);
      if v.None? || v.value.1 == "" || v.value.1[0] != ']' then None
      else Some((Equals(name, v.value.0), v.value.1[1..]))
  }

  function ReadCompound(s: string): (r: Option<(Compound, string)>)
    ensures r.Some? && r.value.0 != [] ==> |r.value.1| < |s|
    decreases |s|
  {
    if s == "" || s[0] != '[' then Some(([], s))
    else
      var t := ReadTest(s[1..]);
      if t.None? then None
      else
        var c := ReadCompound(t.value.1);
        if c.None? then None else Some(([t.value.0] + c.value.0, c.value.1))
  }

  /** `None` is the SyntaxError `querySelectorAll` throws. */
  function ReadSelector(s: string): Option<Selector>
    decreases |s|
  {
    var c := ReadCompound(s);
    if c.None? || c.value.0 == [] then None
    else if c.value.1 == "" then Some([c.value.0])
    else if c.value.1[0] != ' ' then None
    else
      var rest := ReadSelector(c.value.1[1..]);
      if rest.None? then None else Some([c.value.0] + rest.value)
  }

  predicate NewlineFree(v: string) { forall c | c in v :: !IsNewline(c) }

  /** A value as the reader sees it: U+0000 replaced. */
  function Settled(v: string): string { seq(|v|, i requires 0 <= i < |v| => if v[i] == '\0' then '\U{FFFD}' else v[i]) }

  /** The exact effect of escaping a value and reading it back inside double quotes. */
  lemma {:induction false} EscapedValueReadsBack(v: string, rest: string)
    ensures ReadString(EscapeAttrValue(v) + "\"" + rest) == if NewlineFree(v) then Some((Settled(v), rest)) else None
  {
    var text := EscapeAttrValue(v) + "\"" + rest;
    if v == "" {
      assert text == "\"" + rest;
      assert text[1..] == rest;
    } else {
      var tail := EscapeAttrValue(v[1..]) + "\"" + rest;
      EscapedValueReadsBack(v[1..], rest);
      if v[0] == '\\' || v[0] == '"' {
        assert text == ['\\', v[0]] + tail;
        assert text[2..] == tail;
      } else {
        assert text == [v[0]] + tail;
        assert text[1..] == tail;
      }
      assert NewlineFree(v) <==> !IsNewline(v[0]) && NewlineFree(v[1..]) by {
        assert v == [v[0]] + v[1..];
      }
      assert Settled(v) == [if v[0] == '\0' then '\U{FFFD}' else v[0]] + Settled(v[1..]);
    }
  }

  /** A quoted value survives its round trip exactly when it has neither a newline nor U+0000. */
  lemma EscapeRoundTrips(v: string, rest: string)
    ensures ReadString(EscapeAttrValue(v) + "\"" + rest) == Some((v, rest)) <==> NewlineFree(v) && '\0' !in v
  {
    EscapedValueReadsBack(v, rest);
    if NewlineFree(v) {
      if '\0' in v {
        var i :| 0 <= i < |v| && v[i] == '\0';
        assert Settled(v)[i] != v[i];
      } else {
        assert Settled(v) == v;
      }
    }
  }

  predicate Readable(t: Test) { IsName(t.name) && (t.Equals? ==> NewlineFree(t.value)) }
  function SettledTest(t: Test): Test { if t.Has? then t else Equals(t.name, Settled(t.value)) }
  function SettledCompound(c: Compound): Compound { seq(|c|, i requires 0 <= i < |c| => SettledTest(c[i])) }
  function SettledSelector(sel: Selector): Selector { seq(|sel|, i requires 0 <= i < |sel| => SettledCompound(sel[i])) }

  predicate NamedCompound(c: Compound) { c != [] && forall t | t in c :: IsName(t.name) }
  predicate Named(sel: Selector) { forall c | c in sel :: NamedCompound(c) }

  /** Every value quoted is free of newlines, so the text is a selector. */
  predicate NoNewlineIn(c: Compound) { forall t | t in c :: t.Equals? ==> NewlineFree(t.value) }
  predicate QuotesNoNewline(sel: Selector) { forall c | c in sel :: NoNewlineIn(c) }

  /** Every value quoted is read back as itself. */
  predicate FaithfulIn(c: Compound) { forall t | t in c :: t.Equals? ==> NewlineFree(t.value) && '\0' !in t.value }
  predicate QuotesFaithfully(sel: Selector) { forall c | c in sel :: FaithfulIn(c) }

  lemma {:induction false} NameReads(n: string, rest: string)
    requires forall c | c in n :: IsNameChar(c)
    requires rest != "" && !IsNameChar(rest[0])
    ensures ReadName(n + rest) == (n, rest)
  {
    if n == "" {
      assert n + rest == rest;
    } else {
      assert (n + rest)[1..] == n[1..] + rest;
      NameReads(n[1..], rest);
      assert n == [n[0]] + n[1..];
    }
  }

  lemma TestReads(t: Test, rest: string)
    requires IsName(t.name)
    ensures ReadTest(TestBody(t) + rest) == if Readable(t) then Some((SettledTest(t), rest)) else None
  {
    match t
    case Has(name) =>
      var after := "]" + rest;
      assert TestBody(t) + rest == name + after;
      NameReads(name, after);
      assert after[1..] == rest;
    case Equals(name, value) =>
      var after := "]" + rest;
      var quoted := EscapeAttrValue(value) + "\"" + after;
      var tail := "=\"" + quoted;
      assert TestBody(t) + rest == name + tail;
      NameReads(name, tail);
      assert tail[2..] == quoted;
      EscapedValueReadsBack(value, after);
      assert after[1..] == rest;
  }

  predicate AllReadable(c: Compound) { forall t | t in c :: Readable(t) }

  /** One test in front of text whose reading is known. */
  lemma CompoundReadsOneMore(t: Test, tail: string)
    requires IsName(t.name)
    ensures var whole, c := ReadCompound(PrintTest(t) + tail), ReadCompound(tail);
            whole == if Readable(t) && c.Some? then Some(([SettledTest(t)] + c.value.0, c.value.1)) else None
  {
    var text := PrintTest(t) + tail;
    assert text[1..] == TestBody(t) + tail;
    TestReads(t, tail);
  }

  lemma {:induction false} CompoundReads(c: Compound, rest: string)
    requires forall t | t in c :: IsName(t.name)
    requires rest == "" || rest[0] == ' '
    ensures ReadCompound(PrintCompound(c) + rest) == if AllReadable(c) then Some((SettledCompound(c), rest)) else None
  {
    if c == [] {
      assert PrintCompound(c) + rest == rest && SettledCompound(c) == [];
    } else {
      CompoundReads(c[1..], rest);
      CompoundReadsOneMore(c[0], PrintCompound(c[1..]) + rest);
      ReadableCons(c);
      PrintCompoundCons(c, rest);
    }
  }

  lemma PrintCompoundCons(c: Compound, rest: string)
    requires c != []
    ensures PrintCompound(c) + rest == PrintTest(c[0]) + (PrintCompound(c[1..]) + rest)
  {
  }

  lemma ReadableCons(c: Compound)
    requires c != []
    ensures AllReadable(c) <==> Readable(c[0]) && AllReadable(c[1..])
    ensures SettledCompound(c) == [SettledTest(c[0])] + SettledCompound(c[1..])
  {
    assert c == [c[0]] + c[1..];
  }

  lemma SelectorReadsOneMore(c: Compound, rest: string)
    requires c != [] && forall t | t in c :: IsName(t.name)
    ensures var whole, tail := ReadSelector(PrintCompound(c) + (" " + rest)), ReadSelector(rest);
            whole == if AllReadable(c) && tail.Some? then Some([SettledCompound(c)] + tail.value) else None
  {
    CompoundReads(c, " " + rest);
    assert (" " + rest)[1..] == rest;
  }

  lemma PrintSelectorCons(c: Compound, rest: Selector)
    requires rest != []
    ensures PrintSelector([c] + rest) == PrintCompound(c) + (" " + PrintSelector(rest))
  {
    var all := PrintAll([c] + rest);
    assert all[1..] == PrintAll(rest);
    assert all[0] == PrintCompound(([c] + rest)[0]);
    assert Text.Join(all, " ") == all[0] + " " + Text.Join(all[1..], " ");
    assert all[0] + " " + Text.Join(all[1..], " ") == all[0] + (" " + Text.Join(all[1..], " "));
  }

  lemma ValuesCons(c: Compound, rest: Selector)
    requires forall t | t in c :: IsName(t.name)
    ensures AllReadable(c) <==> NoNewlineIn(c)
    ensures QuotesNoNewline([c] + rest) <==> NoNewlineIn(c) && QuotesNoNewline(rest)
    ensures SettledSelector([c] + rest) == [SettledCompound(c)] + SettledSelector(rest)
  {
    assert forall x :: x in [c] + rest <==> x == c || x in rest;
  }

  /** The text of a selector is read back as that selector, or refused exactly when it quotes a newline. */
  lemma {:induction false} PrintedSelectorReads(sel: Selector)
    requires sel != [] && Named(sel)
    ensures ReadSelector(PrintSelector(sel)) == if QuotesNoNewline(sel) then Some(SettledSelector(sel)) else None
  {
    var c, rest := sel[0], sel[1..];
    assert sel == [c] + rest && c in sel && NamedCompound(c);
    assert forall x | x in rest :: x in sel;
    ValuesCons(c, rest);
    if rest == [] {
      CompoundReads(c, "");
      assert PrintSelector(sel) == PrintCompound(c) + "" && SettledSelector(sel) == [SettledCompound(c)];
    } else {
      PrintSelectorCons(c, rest);
      PrintedSelectorReads(rest);
      SelectorReadsOneMore(c, PrintSelector(rest));
    }
  }

  lemma FaithfulSelectorReadsAsItself(sel: Selector)
    requires sel != [] && Named(sel) && QuotesFaithfully(sel)
    ensures ReadSelector(PrintSelector(sel)) == Some(sel)
  {
    PrintedSelectorReads(sel);
    forall c | c in sel ensures NoNewlineIn(c) { assert FaithfulIn(c); }
    forall i | 0 <= i < |sel|
      ensures SettledCompound(sel[i]) == sel[i]
    {
      assert FaithfulIn(sel[i]);
      forall k | 0 <= k < |sel[i]|
        ensures SettledTest(sel[i][k]) == sel[i][k]
      {
        assert sel[i][k] in sel[i];
        if sel[i][k].Equals? {
          assert Settled(sel[i][k].value) == sel[i][k].value;
        }
      }
    }
    assert SettledSelector(sel) == sel;
  }

  // ----- matching --------------------------------------------------------------------

  predicate Satisfies(a: Attrs, c: Compound) {
    forall t | t in c :: t.name in a && (t.Equals? ==> a[t.name] == t.value)
  }

  /** The compounds are met, in order, by some elements of the chain: the descendant combinator. */
  predicate Embeds(sel: Selector, chain: seq<Attrs>)
    decreases |sel|
  {
    sel == []
    || exists k | 0 <= k < |chain| ::
         Satisfies(chain[k], sel[|sel| - 1]) && Embeds(sel[..|sel| - 1], chain[..k])
  }

  /** The element at the end of the chain of its ancestors matches (section 8.1 of Selectors Level 3). */
  predicate Matches(sel: Selector, chain: seq<Attrs>) {
    && sel != [] && chain != []
    && Satisfies(chain[|chain| - 1], sel[|sel| - 1])
    && Embeds(sel[..|sel| - 1], chain[..|chain| - 1])
  }

  lemma EmbedsSnoc(sel: Selector, c: Compound, chain: seq<Attrs>, a: Attrs)
    requires Embeds(sel, chain) && Satisfies(a, c)
    ensures Embeds(sel + [c], chain + [a])
  {
    var all := sel + [c];
    assert all[..|all| - 1] == sel && all[|all| - 1] == c;
    assert (chain + [a])[..|chain|] == chain && (chain + [a])[|chain|] == a;
  }

  lemma MatchesSnoc(sel: Selector, c: Compound, chain: seq<Attrs>, a: Attrs)
    ensures Matches(sel + [c], chain + [a]) <==> Satisfies(a, c) && Embeds(sel, chain)
  {
    var all := sel + [c];
    assert all[..|all| - 1] == sel && all[|all| - 1] == c;
    var links := chain + [a];
    assert links[..|links| - 1] == chain && links[|links| - 1] == a;
  }

  /** A longer chain still meets what a prefix of it met. */
  lemma {:induction false} EmbedsInLonger(sel: Selector, chain: seq<Attrs>, more: seq<Attrs>)
    requires Embeds(sel, chain)
    ensures Embeds(sel, chain + more)
  {
    if sel != [] {
      var k :| 0 <= k < |chain| && Satisfies(chain[k], sel[|sel| - 1]) && Embeds(sel[..|sel| - 1], chain[..k]);
      assert (chain + more)[..k] == chain[..k];
      assert Satisfies((chain + more)[k], sel[|sel| - 1]);
    }
  }
}
