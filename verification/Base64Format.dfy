/** The text form in terms of section 4 of RFC 4648: alphabet, bits and length. */
module Base64Format {
  import opened Wrappers
  import opened Base64
  import opened Base64Changes

  /** A to Z, a to z, 0 to 9, plus and slash, in this order. */
  predicate IsSymbolFor(c: byte, v: nat) {
    || (v < 26 && c == 'A' as int + v)
    || (26 <= v < 52 && c == 'a' as int + v - 26)
    || (52 <= v < 62 && c == '0' as int + v - 52)
    || (v == 62 && c == '+' as int)
    || (v == 63 && c == '/' as int)
  }

  /** The symbols are those of the alphabet, and nothing else has a value. */
  lemma Alphabet(c: byte, v: nat)
    ensures Value(c) == Some(v) <==> IsSymbolFor(c, v)
    ensures v < 64 ==> IsSymbolFor(Symbol(v), v)
    ensures Value(PAD).None? && PAD == '=' as int
  {}

  /** The bits of one to three bytes, high bits first, six to a symbol, and zeros after them. */
  lemma SymbolsCarryBits(chunk: bytes)
    requires 1 <= |chunk| <= 3
    ensures var s := Symbols(chunk);
      var b0, b1, b2 := chunk[0], if |chunk| > 1 then chunk[1] else 0, if |chunk| > 2 then chunk[2] else 0;
      && |s| == |chunk| + 1 && AllSymbols(s)
      && ValueAt(s, 0) == b0 / 4 && ValueAt(s, 1) == b0 % 4 * 16 + b1 / 16
      && (|chunk| > 1 ==> ValueAt(s, 2) == b1 % 16 * 4 + b2 / 64)
      && (|chunk| > 2 ==> ValueAt(s, 3) == b2 % 64)
  {
    var s := Symbols(chunk);
    ChunkRoundTrip(chunk);
    DroppedBitsZero(chunk);
    BytesArePacked(s);
    PackedBits(|s|, ValueAt(s, 0), ValueAt(s, 1), ValueAt(s, 2), ValueAt(s, 3), chunk);
  }

  lemma PackedBits(n: nat, v0: Six, v1: Six, v2: Six, v3: Six, d: bytes)
    requires 2 <= n <= 4 && d == Packed(n, v0, v1, v2, v3)
    requires (n == 2 ==> v1 % 16 == 0) && (n == 3 ==> v2 % 4 == 0)
    ensures |d| == n - 1 && v0 == d[0] / 4
    ensures v1 == d[0] % 4 * 16 + (if n > 2 then d[1] else 0) / 16
    ensures n > 2 ==> v2 == d[1] % 16 * 4 + (if n > 3 then d[2] else 0) / 64
    ensures n > 3 ==> v3 == d[2] % 64
  {}

  /** Four characters for every three bytes or part of them. */
  lemma {:induction false} EncodedLength(data: bytes)
    ensures |Encode(data)| == (|data| + 2) / 3 * 4
    ensures |Unpadded(data)| == |Encode(data)| - |Padding(|data|)|
  {
    if data == [] {
    } else if |data| <= 3 {
      ChunkRoundTrip(data);
    } else {
      ChunkRoundTrip(data[..3]);
      EncodedLength(data[3..]);
      LengthStep(|data| - 3);
    }
  }

  lemma LengthStep(n: nat)
    ensures (n + 5) / 3 * 4 == (n + 2) / 3 * 4 + 4
    ensures |Padding(n + 3)| == |Padding(n)|
  {
    assert (n + 5) / 3 == (n + 2) / 3 + 1 && (n + 3) % 3 == n % 3;
  }
}
