/** The dice sound's one waveform: a xorshift walk from a fixed seed, written into a sample array. */
module DiceNoise {
  const NOISE_SEED: bv32 := 0x9e3779b9

  // ----- shift and xor ---------------------------------------------------------------

  function Xor(a: bv32, b: bv32): bv32 { a ^ b }
  function Left5(s: bv32): bv32 { s << 5 }
  function Left10(s: bv32): bv32 { s << 10 }
  function Left13(s: bv32): bv32 { s << 13 }
  function Left20(s: bv32): bv32 { s << 20 }
  function Left26(s: bv32): bv32 { s << 26 }
  function Right17(s: bv32): bv32 { s >> 17 }

  function Up5(s: bv32): bv32 { Xor(s, Left5(s)) }
  function Up10(s: bv32): bv32 { Xor(s, Left10(s)) }
  function Up13(s: bv32): bv32 { Xor(s, Left13(s)) }
  function Up20(s: bv32): bv32 { Xor(s, Left20(s)) }
  function Up26(s: bv32): bv32 { Xor(s, Left26(s)) }
  function Down17(s: bv32): bv32 { Xor(s, Right17(s)) }

  lemma Telescopes(a: bv32, b: bv32, c: bv32)
    ensures Xor(Xor(a, b), Xor(b, c)) == Xor(a, c)
  {
  }

  lemma NothingAdded(a: bv32)
    ensures Xor(a, 0) == a
  {
  }

  // Shifting and xoring twice is doing it once by twice as far, and by 32 or more not at all.

  lemma Right17IsLinear(a: bv32, b: bv32)
    ensures Right17(Xor(a, b)) == Xor(Right17(a), Right17(b))
  {
  }

  lemma Right17Twice(s: bv32)
    ensures Right17(Right17(s)) == 0
  {
  }

  lemma Down17Twice(s: bv32)
    ensures Down17(Down17(s)) == s
  {
    Right17IsLinear(s, Right17(s));
    Right17Twice(s);
    Telescopes(s, Right17(s), 0);
    NothingAdded(s);
  }

  lemma Left13IsLinear(a: bv32, b: bv32)
    ensures Left13(Xor(a, b)) == Xor(Left13(a), Left13(b))
  {
  }

  lemma Left13Twice(s: bv32)
    ensures Left13(Left13(s)) == Left26(s)
  {
  }

  lemma Up13Twice(s: bv32)
    ensures Up13(Up13(s)) == Up26(s)
  {
    Left13IsLinear(s, Left13(s));
    Left13Twice(s);
    Telescopes(s, Left13(s), Left26(s));
  }

  lemma Left26IsLinear(a: bv32, b: bv32)
    ensures Left26(Xor(a, b)) == Xor(Left26(a), Left26(b))
  {
  }

  lemma Left26Twice(s: bv32)
    ensures Left26(Left26(s)) == 0
  {
  }

  lemma Up26Twice(s: bv32)
    ensures Up26(Up26(s)) == s
  {
    Left26IsLinear(s, Left26(s));
    Left26Twice(s);
    Telescopes(s, Left26(s), 0);
    NothingAdded(s);
  }

  lemma Left5IsLinear(a: bv32, b: bv32)
    ensures Left5(Xor(a, b)) == Xor(Left5(a), Left5(b))
  {
  }

  lemma Left5Twice(s: bv32)
    ensures Left5(Left5(s)) == Left10(s)
  {
  }

  lemma Up5Twice(s: bv32)
    ensures Up5(Up5(s)) == Up10(s)
  {
    Left5IsLinear(s, Left5(s));
    Left5Twice(s);
    Telescopes(s, Left5(s), Left10(s));
  }

  lemma Left10IsLinear(a: bv32, b: bv32)
    ensures Left10(Xor(a, b)) == Xor(Left10(a), Left10(b))
  {
  }

  lemma Left10Twice(s: bv32)
    ensures Left10(Left10(s)) == Left20(s)
  {
  }

  lemma Up10Twice(s: bv32)
    ensures Up10(Up10(s)) == Up20(s)
  {
    Left10IsLinear(s, Left10(s));
    Left10Twice(s);
    Telescopes(s, Left10(s), Left20(s));
  }

  lemma Left20IsLinear(a: bv32, b: bv32)
    ensures Left20(Xor(a, b)) == Xor(Left20(a), Left20(b))
  {
  }

  lemma Left20Twice(s: bv32)
    ensures Left20(Left20(s)) == 0
  {
  }

  lemma Up20Twice(s: bv32)
    ensures Up20(Up20(s)) == s
  {
    Left20IsLinear(s, Left20(s));
    Left20Twice(s);
    Telescopes(s, Left20(s), 0);
    NothingAdded(s);
  }

  // ----- the walk --------------------------------------------------------------------

  /** It is the xorshift walk of published shifts 13, 17 and 5: from 1 it goes on as printed there. */
  lemma KnownStates()
    ensures Next(1) == 270369 && Next(270369) == 67634689 && Next(67634689) == 2647435461
    ensures Next(NOISE_SEED) == 1359758873
  {
  }

  /** One pass of the loop. The source's signed intermediate values have these same 32 bits. */
  function Next(s: bv32): bv32 { Up5(Down17(Up13(s))) }

  /** One pass undone. */
  function Previous(s: bv32): bv32 { Up26(Up13(Down17(Up20(Up10(Up5(s)))))) }

  lemma UndoneFrom13(s: bv32)
    ensures Up13(Up26(Up13(s))) == s
  {
    Up13Twice(s);
    var t := Up13(s);
    Up13Twice(t);
    assert Up26(t) == Up13(Up13(t));
    Up13Twice(Up13(t));
    assert Up13(Up26(t)) == Up13(Up13(Up13(t)));
    Up26Twice(s);
    Up13Twice(Up26(s));
  }

  lemma FiveCommutesWith10(s: bv32)
    ensures Up5(Up10(s)) == Up10(Up5(s))
  {
    Up5Twice(s);
    Up5Twice(Up5(s));
  }

  lemma FiveCommutesWith20(s: bv32)
    ensures Up5(Up20(s)) == Up20(Up5(s))
  {
    Up10Twice(s);
    Up10Twice(Up5(s));
    FiveCommutesWith10(s);
    FiveCommutesWith10(Up10(s));
  }

  /** All three are powers of one map, so they commute. */
  lemma UndoneFrom5(s: bv32)
    ensures Up5(Up20(Up10(Up5(s)))) == s
  {
    FiveCommutesWith20(Up10(Up5(s)));
    FiveCommutesWith10(Up5(s));
    Up5Twice(s);
    Up10Twice(s);
    Up20Twice(s);
  }

  /** The step is a bijection of the 32-bit words. */
  lemma NextIsABijection(s: bv32)
    ensures Previous(Next(s)) == s && Next(Previous(s)) == s
  {
    var c := Down17(Up13(s));
    Up5Twice(c);
    Up10Twice(c);
    Up20Twice(c);
    Down17Twice(Up13(s));
    Up13Twice(s);
    Up26Twice(s);
    var d := Up20(Up10(Up5(s)));
    var e := Down17(d);
    UndoneFrom13(e);
    Down17Twice(d);
    UndoneFrom5(s);
  }

  /** ... that fixes zero, so a walk from any other word never reaches it. */
  lemma NextIsNeverZero(s: bv32)
    requires s != 0
    ensures Next(s) != 0
  {
    NextIsABijection(s);
    assert Previous(0) == 0;
  }

  /** The state after `n` passes. */
  function Walk(s: bv32, n: nat): bv32 {
    if n == 0 then s else Next(Walk(s, n - 1))
  }

  lemma {:induction false} WalkIsNeverZero(s: bv32, n: nat)
    requires s != 0
    ensures Walk(s, n) != 0
  {
    if n > 0 {
      WalkIsNeverZero(s, n - 1);
      NextIsNeverZero(Walk(s, n - 1));
    }
  }

  /** Two passes in the same state mean the seed itself has come back: no state repeats before the seed does. */
  lemma {:induction false} NoRepeatBeforeTheSeed(s: bv32, i: nat, j: nat)
    requires i <= j
    ensures Walk(s, i) == Walk(s, j) <==> Walk(s, j - i) == s
  {
    if i > 0 {
      NextIsABijection(Walk(s, i - 1));
      NextIsABijection(Walk(s, j - 1));
      NoRepeatBeforeTheSeed(s, i - 1, j - 1);
    }
  }

  /** `(state / 0xffffffff) * 2 - 1`, over the reals. */
  function SampleOf(n: int): real { n as real / 4294967295.0 * 2.0 - 1.0 }

  function Sample(s: bv32): real { SampleOf(s as int) }

  /** Samples rise evenly with the word, up to 1 at the largest. */
  lemma SamplesAreEvenlySpaced(m: int, n: int)
    ensures SampleOf(4294967295) == 1.0
    ensures SampleOf(m) - SampleOf(n) == (m - n) as real * 2.0 / 4294967295.0
  {
    var x, y := m as real, n as real;
    assert x / 4294967295.0 * 2.0 - y / 4294967295.0 * 2.0 == (x - y) * 2.0 / 4294967295.0;
  }

  lemma NonZeroWord(s: bv32)
    requires s != 0
    ensures 0 < s as int <= 4294967295
  {
  }

  lemma SampleOfPositive(n: int)
    requires 0 < n <= 4294967295
    ensures -1.0 < SampleOf(n) <= 1.0
  {
    var x := n as real;
    assert 0.0 < x / 4294967295.0 <= 1.0;
  }

  lemma SampleInRange(s: bv32)
    requires s != 0
    ensures -1.0 < Sample(s) <= 1.0
  {
    NonZeroWord(s);
    SampleOfPositive(s as int);
  }

  /** The first `n` samples. */
  function Noise(n: nat): (samples: seq<real>)
    ensures |samples| == n
  {
    seq(n, i requires 0 <= i < n => Sample(Walk(NOISE_SEED, i + 1)))
  }

  lemma NoiseInRange(n: nat, i: nat)
    requires i < n
    ensures -1.0 < Noise(n)[i] <= 1.0
  {
    WalkIsNeverZero(NOISE_SEED, i + 1);
    SampleInRange(Walk(NOISE_SEED, i + 1));
  }

  /** A shorter buffer holds the beginning of a longer one. */
  lemma ShorterIsAPrefix(m: nat, n: nat)
    requires m <= n
    ensures Noise(n)[..m] == Noise(m)
  {
    assert forall i | 0 <= i < m :: Noise(n)[..m][i] == Noise(m)[i];
  }

  method FillDeterministicNoise(samples: array<real>)
    modifies samples
    ensures samples[..] == Noise(samples.Length)
  {
    var state := NOISE_SEED;
    for i := 0 to samples.Length
      invariant state == Walk(NOISE_SEED, i)
      invariant forall k | 0 <= k < i :: samples[k] == Sample(Walk(NOISE_SEED, k + 1))
    {
      state := Xor(state, Left13(state));
      state := Xor(state, Right17(state));
      state := Xor(state, Left5(state));
      samples[i] := Sample(state);
    }
  }
}
