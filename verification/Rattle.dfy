/** The rattle's ticks: two cycles of coprime length walked together, as an unbounded stream and as the loop's array. */
module Rattle {
  const GAPS_MS: seq<nat> := [26, 41, 19, 58, 31, 22, 47, 35, 17, 63, 29, 38]
  const HZ: seq<nat> := [2400, 3100, 1900, 2750, 3400, 2150, 2900]
  const TICKS := |GAPS_MS| * |HZ|
  const CYCLE_MS := 426

  datatype Tick = Tick(atMs: nat, hz: nat, gain: real, decayMs: nat)

  function Gap(i: nat): nat { GAPS_MS[i % |GAPS_MS|] }
  function Pitch(i: nat): nat { HZ[i % |HZ|] }

  /** The instant of tick `i`: the gaps up to and including its own. */
  function At(i: nat): nat { if i == 0 then Gap(0) else At(i - 1) + Gap(i) }

  function TickAt(i: nat): Tick { Tick(At(i), Pitch(i), if i % 3 == 0 then 0.5 else 0.28, 26) }

  /** The sum of the first `n` gaps of one cycle. */
  function Prefix(n: nat): nat
    requires n <= |GAPS_MS|
  {
    if n == 0 then 0 else Prefix(n - 1) + GAPS_MS[n - 1]
  }

  lemma CycleLength()
    ensures Prefix(12) == CYCLE_MS
  {
    assert Prefix(4) == 144;
    assert Prefix(8) == 279;
  }

  /** 426 milliseconds for every twelve ticks, plus a prefix of the cycle. */
  lemma {:induction false} ClosedForm(i: nat)
    ensures At(i) == CYCLE_MS * (i / 12) + Prefix(i % 12 + 1)
  {
    if i > 0 {
      ClosedForm(i - 1);
      PlaceBefore(i);
      if i % 12 == 0 { CycleLength(); }
    }
  }

  /** The tick before: one place back in its cycle, or the last of the cycle before. */
  lemma PlaceBefore(i: nat)
    requires i > 0
    ensures if i % 12 == 0 then (i - 1) / 12 == i / 12 - 1 && (i - 1) % 12 == 11
            else (i - 1) / 12 == i / 12 && (i - 1) % 12 == i % 12 - 1
  {
  }

  lemma {:induction false} TimesIncrease(i: nat, j: nat)
    requires i < j
    ensures At(i) < At(j)
    decreases j
  {
    assert Gap(j) > 0;
    if i < j - 1 { TimesIncrease(i, j - 1); }
  }

  /** Within one cycle no gap and no pitch comes twice. */
  lemma CyclesAreInjective(i: nat, j: nat)
    ensures i < 12 && j < 12 && GAPS_MS[i] == GAPS_MS[j] ==> i == j
    ensures i < 7 && j < 7 && HZ[i] == HZ[j] ==> i == j
  {
  }

  /** Twelve and seven are coprime: 3 * 12 - 5 * 7 == 1. */
  lemma TwelveAndSevenMeetAt84(d: nat)
    ensures d % 12 == 0 && d % 7 == 0 <==> d % 84 == 0
  {
    if d % 12 == 0 && d % 7 == 0 {
      CommonMultipleIsMultipleOf84(d, d / 12, d / 7);
    }
    if d % 84 == 0 {
      MultipleOf84IsCommon(d, d / 84);
    }
  }

  lemma CommonMultipleIsMultipleOf84(d: nat, a: nat, b: nat)
    requires d == 12 * a && d == 7 * b
    ensures d % 84 == 0
  {
    var k := 3 * b - 5 * a;
    assert d == 84 * k;
  }

  lemma MultipleOf84IsCommon(d: nat, q: nat)
    requires d == 84 * q
    ensures d % 12 == 0 && d % 7 == 0
  {
    var m, n := 7 * q, 12 * q;
    assert d == 12 * m && d == 7 * n;
  }

  lemma SameRemainder12(i: nat, j: nat)
    requires i <= j
    ensures i % 12 == j % 12 <==> (j - i) % 12 == 0
  {
  }

  lemma SameRemainder7(i: nat, j: nat)
    requires i <= j
    ensures i % 7 == j % 7 <==> (j - i) % 7 == 0
  {
  }

  /** Two ticks share gap and pitch exactly when 84 divides their distance. */
  lemma SamePhaseIff84(i: nat, j: nat)
    requires i <= j
    ensures Gap(i) == Gap(j) && Pitch(i) == Pitch(j) <==> (j - i) % 84 == 0
  {
    CyclesAreInjective(i % 12, j % 12);
    CyclesAreInjective(i % 7, j % 7);
    SameRemainder12(i, j);
    SameRemainder7(i, j);
    TwelveAndSevenMeetAt84(j - i);
  }

  /** One period later everything is the same but for the time, which is seven cycles on. */
  lemma StreamRepeatsAfter84(i: nat)
    ensures TickAt(i + 84) == TickAt(i).(atMs := TickAt(i).atMs + 7 * CYCLE_MS)
  {
    SamePhaseIff84(i, i + 84);
    ClosedForm(i);
    ClosedForm(i + 84);
    assert (i + 84) / 12 == i / 12 + 7 && (i + 84) % 12 == i % 12;
    assert (i + 84) % 3 == i % 3;
  }

  /**
   * Where in the 0.4 seconds of noise a tick's sound is cut from, in ninety-sevenths of its first half:
   * "a different slice per tick", by its comment, so that no two ticks at one pitch sound the same.
   */
  function Slice(t: Tick): nat { t.atMs % 97 }

  /** The instants of the first cycle. */
  function FirstCycle(r: nat): nat
    requires r < 12
  {
    match r
    case 0 => 26 case 1 => 67 case 2 => 86 case 3 => 144 case 4 => 175 case 5 => 197
    case 6 => 244 case 7 => 279 case 8 => 296 case 9 => 359 case 10 => 388 case _ => 426
  }

  lemma {:induction false} FirstCycleIsPrefix(r: nat)
    requires r < 12
    ensures Prefix(r + 1) == FirstCycle(r)
  {
    if r > 0 { FirstCycleIsPrefix(r - 1); }
  }

  /** How far apart two ticks lie depends on their distance in ticks and the earlier one's place in its cycle alone. */
  function Distance(r: nat, n: nat): int
    requires r < 12
  {
    CYCLE_MS * ((r + n) / 12) + FirstCycle((r + n) % 12) - FirstCycle(r)
  }

  lemma DistanceFromCycle(i: nat, n: nat)
    ensures At(i + n) - At(i) == Distance(i % 12, n)
  {
    AtFromFirstCycle(i);
    AtFromFirstCycle(i + n);
    PlaceAfter(i, n);
  }

  lemma AtFromFirstCycle(i: nat)
    ensures At(i) == CYCLE_MS * (i / 12) + FirstCycle(i % 12)
  {
    ClosedForm(i);
    FirstCycleIsPrefix(i % 12);
  }

  lemma PlaceAfter(i: nat, n: nat)
    ensures (i + n) / 12 == i / 12 + (i % 12 + n) / 12 && (i + n) % 12 == (i % 12 + n) % 12
  {
  }

  lemma OneDistanceIsWhole(r: nat, m: nat)
    requires r < 12 && 1 <= m < 12
    ensures Distance(r, 7 * m) % 97 == 0 <==> r == 8 && m == 5
  {
    if m < 5 { NoneNear(r, m); } else if m < 9 { OneBetween(r, m); } else { NoneFar(r, m); }
  }

  lemma NoneNear(r: nat, m: nat)
    requires r < 12 && 1 <= m < 5
    ensures Distance(r, 7 * m) % 97 != 0
  {
  }

  lemma OneBetween(r: nat, m: nat)
    requires r < 12 && 5 <= m < 9
    ensures Distance(r, 7 * m) % 97 == 0 <==> r == 8 && m == 5
  {
  }

  lemma NoneFar(r: nat, m: nat)
    requires r < 12 && 9 <= m < 12
    ensures Distance(r, 7 * m) % 97 != 0
  {
  }

  /**
   * It holds of a rattle but for four pairs: two of its ticks have one pitch and one slice exactly when
   * the earlier is the ninth of its cycle and the other the thirty-fifth after it - and then loudness
   * and decay agree too, so that the very same sound comes twice.
   */
  lemma SameSoundIff(i: nat, j: nat)
    requires i < j < 84
    ensures TickAt(i).hz == TickAt(j).hz && Slice(TickAt(i)) == Slice(TickAt(j)) <==> i % 12 == 8 && j == i + 35
    ensures i % 12 == 8 && j == i + 35 ==> TickAt(i).(atMs := 0) == TickAt(j).(atMs := 0)
  {
    CyclesAreInjective(i % 7, j % 7);
    SameRemainder7(i, j);
    if (j - i) % 7 == 0 {
      var m := (j - i) / 7;
      assert j == i + 7 * m;
      DistanceFromCycle(i, 7 * m);
      OneDistanceIsWhole(i % 12, m);
      SameResidue(At(i), At(j));
    }
    if i % 12 == 8 && j == i + 35 { SameLoudness(i); }
  }

  lemma SameLoudness(i: nat)
    requires i % 12 == 8
    ensures i % 3 == 2 && (i + 35) % 3 == 1 && (i + 35) % 7 == i % 7
  {
  }

  lemma SameResidue(a: nat, b: nat)
    ensures a % 97 == b % 97 <==> (b - a) % 97 == 0
  {
  }

  /** The loop emits exactly one period of the stream. */
  method RattleTicks() returns (ticks: seq<Tick>)
    ensures |ticks| == 84
    ensures forall i | 0 <= i < 84 :: ticks[i] == TickAt(i)
  {
    ticks := [];
    var atMs := 0;
    assert TICKS == 84;
    for i := 0 to TICKS
      invariant |ticks| == i
      invariant atMs == if i == 0 then 0 else At(i - 1)
      invariant forall k | 0 <= k < i :: ticks[k] == TickAt(k)
    {
      atMs := atMs + Gap(i);
      ticks := ticks + [Tick(atMs, Pitch(i), if i % 3 == 0 then 0.5 else 0.28, 26)];
    }
  }
}
