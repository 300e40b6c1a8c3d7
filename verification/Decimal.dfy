/** `String(n)` and the decimal reading of it, for the whole numbers the panel prints. */
module Decimal {
  import opened Optional

  function Digit(d: nat): char
    requires d < 10
  {
    '0' + d as char
  }

  function Print(n: nat): string {
    if n < 10 then [Digit(n)] else Print(n / 10) + [Digit(n % 10)]
  }

  predicate IsDigit(c: char) { '0' <= c <= '9' }

  function DigitValue(c: char): nat
    requires IsDigit(c)
  {
    c as int - '0' as int
  }

  /** `Number(text)` on plain decimal digits; other spellings of numbers are not read here. */
  function Read(text: string): Option<nat> {
    if text == "" || !IsDigit(text[|text| - 1]) then None
    else if |text| == 1 then Some(DigitValue(text[0]))
    else
      var high := Read(text[..|text| - 1]);
      if high.None? then None else Some(high.value * 10 + DigitValue(text[|text| - 1]))
  }

  lemma {:induction false} ReadOfPrint(n: nat)
    ensures Read(Print(n)) == Some(n)
    ensures Print(n) != "" && forall c | c in Print(n) :: IsDigit(c)
  {
    if n >= 10 {
      ReadOfPrint(n / 10);
      var text := Print(n);
      assert text[..|text| - 1] == Print(n / 10);
    }
  }
}
