/** Base64 as Node's Buffer prints and reads it: sections 4 and 5 of RFC 4648, the reader accepting both alphabets. */
module Base64 {
  import opened Optional

  type Byte = b: int | 0 <= b < 256
  type Sextet = v: int | 0 <= v < 64

  datatype Alphabet = Standard | Url

  function Symbol(a: Alphabet, v: Sextet): char {
    if v < 26 then 'A' + v as char
    else if v < 52 then 'a' + (v - 26) as char
    else if v < 62 then '0' + (v - 52) as char
    else if v == 62 then (if a.Standard? then '+' else '-')
    else (if a.Standard? then '/' else '_')
  }

  function ValueOf(c: char): Option<Sextet> {
    if 'A' <= c <= 'Z' then Some(c as int - 'A' as int)
    else if 'a' <= c <= 'z' then Some(c as int - 'a' as int + 26)
    else if '0' <= c <= '9' then Some(c as int - '0' as int + 52)
    else if c == '+' || c == '-' then Some(62)
    else if c == '/' || c == '_' then Some(63)
    else None
  }

  lemma SymbolRoundTrip(a: Alphabet, v: Sextet)
    ensures ValueOf(Symbol(a, v)) == Some(v)
  {
  }

  /** The 24-bit group as four sextets; the last group may be short. */
  function Sextets(bytes: seq<Byte>): seq<Sextet> {
    if bytes == [] then []
    else if |bytes| == 1 then [bytes[0] / 4, bytes[0] % 4 * 16]
    else if |bytes| == 2 then [bytes[0] / 4, bytes[0] % 4 * 16 + bytes[1] / 16, bytes[1] % 16 * 4]
    else
      [bytes[0] / 4, bytes[0] % 4 * 16 + bytes[1] / 16, bytes[1] % 16 * 4 + bytes[2] / 64, bytes[2] % 64]
      + Sextets(bytes[3..])
  }

  /** Three bytes back from four sextets; a short tail gives the bytes it completes. */
  function Bytes(vs: seq<Sextet>): seq<Byte> {
    if |vs| < 2 then []
    else if |vs| == 2 then [First(vs[0], vs[1])]
    else if |vs| == 3 then [First(vs[0], vs[1]), Second(vs[1], vs[2])]
    else [First(vs[0], vs[1]), Second(vs[1], vs[2]), Third(vs[2], vs[3])] + Bytes(vs[4..])
  }

  function First(a: Sextet, b: Sextet): Byte { (a as int) * 4 + (b as int) / 16 }
  function Second(b: Sextet, c: Sextet): Byte { (b as int) % 16 * 16 + (c as int) / 4 }
  function Third(c: Sextet, d: Sextet): Byte { (c as int) % 4 * 64 + d as int }

  function Symbols(a: Alphabet, vs: seq<Sextet>): string { seq(|vs|, i requires 0 <= i < |vs| => Symbol(a, vs[i])) }

  /** `toString("base64")` pads to a multiple of four, `toString("base64url")` does not. */
  function Encode(a: Alphabet, bytes: seq<Byte>): string {
    Symbols(a, Sextets(bytes))
    + (if a.Url? then "" else if |bytes| % 3 == 1 then "==" else if |bytes| % 3 == 2 then "=" else "")
  }

  /** The test vectors of section 10 of RFC 4648 ... */
  lemma KnownEncodings()
    ensures Encode(Standard, [102, 111, 111, 98, 97, 114]) == "Zm9vYmFy"
    ensures Encode(Standard, [102, 111]) == "Zm8=" && Encode(Url, [102, 111]) == "Zm8"
    ensures Encode(Standard, [102]) == "Zg==" && Encode(Url, [102]) == "Zg"
  {
    assert [102, 111, 111, 98, 97, 114][3..] == [98, 97, 114] && [98, 97, 114][3..] == [];
    assert Sextets([98, 97, 114]) == [24, 38, 5, 50] + [];
    assert Sextets([102, 111, 111, 98, 97, 114]) == [25, 38, 61, 47, 24, 38, 5, 50];
  }

  /** ... and one with the two characters its alphabets differ in. */
  lemma KnownAlphabets()
    ensures Encode(Standard, [251, 255]) == "+/8=" && Encode(Url, [251, 255]) == "-_8"
  {
  }

  /** The sextets a text spells: characters of neither alphabet are ignored and reading stops at padding. */
  function ReadSextets(text: string): seq<Sextet> {
    if text == "" || text[0] == '=' then []
    else if ValueOf(text[0]).None? then ReadSextets(text[1..])
    else [ValueOf(text[0]).value] + ReadSextets(text[1..])
  }

  /** `Buffer.from(text, "base64")` */
  function Decode(text: string): seq<Byte> { Bytes(ReadSextets(text)) }

  lemma {:induction false} SextetsRoundTrip(bytes: seq<Byte>)
    ensures Bytes(Sextets(bytes)) == bytes
  {
    if |bytes| >= 3 {
      var vs := Sextets(bytes);
      assert vs[4..] == Sextets(bytes[3..]);
      SextetsRoundTrip(bytes[3..]);
      GroupRoundTrip(bytes[0], bytes[1], bytes[2]);
      assert bytes == [bytes[0], bytes[1], bytes[2]] + bytes[3..];
    } else if |bytes| == 2 {
      GroupRoundTrip(bytes[0], bytes[1], 0);
    }
  }

  /** Three bytes through one group of four sextets. */
  lemma GroupRoundTrip(x: Byte, y: Byte, z: Byte)
    ensures First(x / 4, x % 4 * 16 + y / 16) == x
    ensures Second(x % 4 * 16 + y / 16, y % 16 * 4 + z / 64) == y
    ensures Third(y % 16 * 4 + z / 64, z % 64) == z
  {
  }

  lemma {:induction false} SymbolsRead(a: Alphabet, vs: seq<Sextet>, padding: string)
    requires padding == "" || padding[0] == '='
    ensures ReadSextets(Symbols(a, vs) + padding) == vs
  {
    var text := Symbols(a, vs) + padding;
    if vs == [] {
      assert text == padding;
    } else {
      SymbolRoundTrip(a, vs[0]);
      SymbolsRead(a, vs[1..], padding);
      assert text[0] == Symbol(a, vs[0]);
      assert text[1..] == Symbols(a, vs[1..]) + padding;
    }
  }

  /** Decoding undoes encoding, for every sequence of bytes and either alphabet. */
  lemma DecodeOfEncode(a: Alphabet, bytes: seq<Byte>)
    ensures Decode(Encode(a, bytes)) == bytes
  {
    SextetsRoundTrip(bytes);
    var padding := if a.Url? then "" else if |bytes| % 3 == 1 then "==" else if |bytes| % 3 == 2 then "=" else "";
    SymbolsRead(a, Sextets(bytes), padding);
  }

  predicate IsUrlChar(c: char) { 'A' <= c <= 'Z' || 'a' <= c <= 'z' || '0' <= c <= '9' || c == '-' || c == '_' }

  /** What the encoder writes: alphabet characters and padding, so neither `$` nor `;` nor white space. */
  lemma EncodedCharacters(a: Alphabet, bytes: seq<Byte>)
    ensures forall c | c in Encode(a, bytes) :: c == '=' || ValueOf(c).Some?
    ensures a.Url? ==> forall c | c in Encode(a, bytes) :: IsUrlChar(c)
    ensures bytes != [] ==> Encode(a, bytes) != ""
  {
    forall c | c in Symbols(a, Sextets(bytes))
      ensures ValueOf(c).Some?
    {
      var i :| 0 <= i < |Sextets(bytes)| && Symbols(a, Sextets(bytes))[i] == c;
      SymbolRoundTrip(a, Sextets(bytes)[i]);
    }
  }
}
