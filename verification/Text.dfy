/** The ECMAScript string operations the panel's parsers are made of: `split`, `join` and `trim`. */
module Text {

  // ----- split and join --------------------------------------------------------------

  /** `s.split(sep)` for a one-character separator: never empty, `"".split(c)` is `[""]`. */
  function Split(s: string, sep: char): (parts: seq<string>)
    ensures |parts| >= 1
  {
    if s == "" then [""]
    else
      var rest := Split(s[1..], sep);
      if s[0] == sep then [""] + rest else [[s[0]] + rest[0]] + rest[1..]
  }

  /** `parts.join(glue)`. */
  function Join(parts: seq<string>, glue: string): string {
    if |parts| == 0 then ""
    else if |parts| == 1 then parts[0]
    else parts[0] + glue + Join(parts[1..], glue)
  }

  /** Text without the separator is one field. */
  lemma {:induction false} SplitOfPlain(s: string, sep: char)
    requires sep !in s
    ensures Split(s, sep) == [s]
  {
    if s != "" {
      SplitOfPlain(s[1..], sep);
      assert s == [s[0]] + s[1..];
    }
  }

  lemma SplitOneMore(x: char, s: string, sep: char)
    ensures var rest := Split(s, sep);
            Split([x] + s, sep) == if x == sep then [""] + rest else [[x] + rest[0]] + rest[1..]
  {
    assert ([x] + s)[1..] == s;
  }

  lemma HeadOfConcat(a: seq<string>, b: seq<string>)
    requires |a| >= 1
    ensures (a + b)[0] == a[0] && (a + b)[1..] == a[1..] + b
  {
  }

  lemma Regroup(first: string, a: seq<string>, b: seq<string>)
    ensures [first] + (a + b) == ([first] + a) + b
  {
  }

  /** A separator cuts the fields of its left side from the fields of its right side. */
  lemma {:induction false} SplitAtSeparator(a: string, b: string, sep: char)
    ensures Split(a + [sep] + b, sep) == Split(a, sep) + Split(b, sep)
  {
    if a == "" {
      assert a + [sep] + b == [sep] + b;
      SplitOneMore(sep, b, sep);
    } else {
      var x, t := a[0], a[1..];
      var rest := t + [sep] + b;
      assert a == [x] + t && a + [sep] + b == [x] + rest;
      SplitAtSeparator(t, b, sep);
      SplitOneMore(x, rest, sep);
      SplitOneMore(x, t, sep);
      var left, right := Split(t, sep), Split(b, sep);
      HeadOfConcat(left, right);
      if x == sep { Regroup("", left, right); } else { Regroup([x] + left[0], left[1..], right); }
    }
  }

  /** `split` undoes `join` when no field contains the separator. */
  lemma {:induction false} SplitOfJoin(parts: seq<string>, sep: char)
    requires |parts| >= 1
    requires forall p | p in parts :: sep !in p
    ensures Split(Join(parts, [sep]), sep) == parts
  {
    SplitOfPlain(parts[0], sep);
    if |parts| > 1 {
      SplitOfJoin(parts[1..], sep);
      SplitAtSeparator(parts[0], Join(parts[1..], [sep]), sep);
      assert parts == [parts[0]] + parts[1..];
    } else {
      assert parts == [parts[0]];
    }
  }

  /** With a space after each separator, every field but the first keeps its space. */
  lemma {:induction false} SplitOfSpacedJoin(parts: seq<string>, sep: char)
    requires |parts| >= 1 && sep != ' '
    requires forall p | p in parts :: sep !in p
    ensures var cut := Split(Join(parts, [sep] + " "), sep);
            && |cut| == |parts| && cut[0] == parts[0]
            && forall i | 1 <= i < |cut| :: cut[i] == " " + parts[i]
  {
    SplitOfPlain(parts[0], sep);
    if |parts| > 1 {
      var rest := Join(parts[1..], [sep] + " ");
      SplitOfSpacedJoin(parts[1..], sep);
      Spaced(parts[0], sep, rest);
      SplitAtSeparator(parts[0], [' '] + rest, sep);
      SplitOneMore(' ', rest, sep);
      SpacedFields(parts, Split(rest, sep));
    }
  }

  lemma Spaced(first: string, sep: char, rest: string)
    ensures first + ([sep] + " ") + rest == first + [sep] + ([' '] + rest)
  {
  }

  lemma SpacedFields(parts: seq<string>, tail: seq<string>)
    requires |parts| == |tail| + 1 && tail != [] && tail[0] == parts[1]
    requires forall i | 1 <= i < |tail| :: tail[i] == " " + parts[i + 1]
    ensures var cut := [parts[0]] + ([[' '] + tail[0]] + tail[1..]);
            |cut| == |parts| && cut[0] == parts[0] && forall i | 1 <= i < |cut| :: cut[i] == " " + parts[i]
  {
    var cut := [parts[0]] + ([[' '] + tail[0]] + tail[1..]);
    assert forall i | 2 <= i < |cut| :: cut[i] == tail[i - 1];
  }

  // ----- trim ------------------------------------------------------------------------

  /** WhiteSpace and LineTerminator of ECMA-262, the characters `trim` removes. */
  predicate IsSpace(c: char) {
    || '\U{0009}' <= c <= '\U{000D}' || c == ' ' || c == '\U{00A0}' || c == '\U{1680}'
    || '\U{2000}' <= c <= '\U{200A}' || c == '\U{2028}' || c == '\U{2029}' || c == '\U{202F}'
    || c == '\U{205F}' || c == '\U{3000}' || c == '\U{FEFF}'
  }

  function TrimStart(s: string): string {
    if s != "" && IsSpace(s[0]) then TrimStart(s[1..]) else s
  }

  function TrimEnd(s: string): string {
    if s != "" && IsSpace(s[|s| - 1]) then TrimEnd(s[..|s| - 1]) else s
  }

  function Trim(s: string): string { TrimEnd(TrimStart(s)) }

  predicate AllSpace(s: string) { forall c | c in s :: IsSpace(c) }

  /** No white space at either end, so `trim` has nothing to remove. */
  predicate Trimmed(s: string) { s == "" || (!IsSpace(s[0]) && !IsSpace(s[|s| - 1])) }

  lemma {:induction false} TrimStartOfPadded(pad: string, s: string)
    requires AllSpace(pad)
    ensures TrimStart(pad + s) == TrimStart(s)
  {
    if pad != "" {
      assert IsSpace(pad[0]);
      assert (pad + s)[1..] == pad[1..] + s;
      TrimStartOfPadded(pad[1..], s);
    } else {
      assert pad + s == s;
    }
  }

  lemma {:induction false} TrimEndOfPadded(s: string, pad: string)
    requires AllSpace(pad)
    ensures TrimEnd(s + pad) == TrimEnd(s)
  {
    if pad != "" {
      var last := |pad| - 1;
      assert IsSpace(pad[last]);
      assert (s + pad)[..|s + pad| - 1] == s + pad[..last];
      TrimEndOfPadded(s, pad[..last]);
    } else {
      assert s + pad == s;
    }
  }

  lemma {:induction false} TrimStartOfSpaces(s: string)
    requires AllSpace(s)
    ensures TrimStart(s) == ""
  {
    if s != "" {
      assert IsSpace(s[0]);
      TrimStartOfSpaces(s[1..]);
    }
  }

  /** `trim` removes exactly the padding around text that neither starts nor ends with white space. */
  lemma TrimOfPadded(before: string, s: string, after: string)
    requires AllSpace(before) && AllSpace(after) && Trimmed(s)
    ensures Trim(before + s + after) == s
  {
    assert before + s + after == before + (s + after);
    TrimStartOfPadded(before, s + after);
    if s == "" {
      assert s + after == after;
      TrimStartOfSpaces(after);
    } else {
      assert (s + after)[0] == s[0];
      TrimEndOfPadded(s, after);
    }
  }
}
