/** The bytes of a cursor one by one, and every bit of its checksum. */
module CursorLayout {
  import opened Wrappers
  import opened ByteStrings
  import opened Cursors

  // ---------------------------------------------------------------------------
  // The checksum, bit by bit
  // ---------------------------------------------------------------------------

  /** Bit k of x, counting from the lowest. */
  predicate Bit(x: nat, k: nat) {
    if k == 0 then x % 2 == 1 else Bit(x / 2, k - 1)
  }

  lemma {:induction false} BitOrBits(a: nat, b: nat, n: nat, k: nat)
    requires k < n
    ensures Bit(BitOr(a, b, n), k) <==> Bit(a, k) || Bit(b, k)
  {
    if k > 0 {
      BitOrBits(a / 2, b / 2, n - 1, k - 1);
    }
  }

  lemma {:induction false} BitShift(x: nat, j: nat, k: nat)
    ensures Bit(x * Pow2(j), k) <==> k >= j && Bit(x, k - j)
  {
    if j > 0 {
      assert x * Pow2(j) == 2 * (x * Pow2(j - 1));
      if k > 0 {
        BitShift(x, j - 1, k - 1);
      }
    }
  }

  lemma {:induction false} BitMod(x: nat, n: nat, k: nat)
    requires k < n
    ensures Bit(x % Pow2(n), k) <==> Bit(x, k)
  {
    ModDouble(x / 2, x % 2, Pow2(n - 1));
    assert x == 2 * (x / 2) + x % 2;
    if k > 0 {
      BitMod(x / 2, n - 1, k - 1);
    }
  }

  /** The byte sums of all prefixes, added up. */
  function PrefixSum(data: bytes): nat {
    if data == [] then 0 else PrefixSum(data[..|data| - 1]) + ByteSum(data)
  }

  lemma ModTwice(x: nat, y: nat)
    ensures (x % 65536 + y % 65536) % 65536 == (x + y) % 65536
  {
    ModStepBy(x, y % 65536);
    ModStepBy(y, x);
  }

  lemma ModStepBy(x: nat, y: nat)
    ensures (x % 65536 + y) % 65536 == (x + y) % 65536
  {
    var q, r := x / 65536, x % 65536;
    var p, t := (r + y) / 65536, (r + y) % 65536;
    ModUnique(x + y, 65536, q + p, t);
  }

  lemma {:induction false} Sum2IsPrefixSum(data: bytes)
    ensures SumsOf(data).sum2 == PrefixSum(data) % 65536
  {
    if data != [] {
      Sum1IsByteSum(data);
      Sum2IsPrefixSum(data[..|data| - 1]);
      ModTwice(PrefixSum(data[..|data| - 1]), ByteSum(data));
    }
  }

  lemma HighBits(x: nat, k: nat)
    requires k < 16
    ensures Bit(x % 65536 * 256 % 65536, k) <==> k >= 8 && Bit(x, k - 8)
  {
    PowersOfTwo();
    BitMod(x % 65536 * 256, 16, k);
    BitShift(x % 65536, 8, k);
    if k >= 8 {
      BitMod(x, 16, k - 8);
    }
  }

  /** Bit k of the checksum is bit k of the byte sum or, in the high byte, bit k - 8 of the sum of the prefix sums. */
  lemma ChecksumBits(data: bytes, k: nat)
    requires k < 16
    ensures Bit(Checksum(data), k) <==> Bit(ByteSum(data), k) || (k >= 8 && Bit(PrefixSum(data), k - 8))
  {
    PowersOfTwo();
    Sum1IsByteSum(data);
    Sum2IsPrefixSum(data);
    BitOrBits(SumsOf(data).sum2 * 256 % 65536, SumsOf(data).sum1, 16, k);
    BitMod(ByteSum(data), 16, k);
    HighBits(PrefixSum(data), k);
  }

  // ---------------------------------------------------------------------------
  // Where the bytes are
  // ---------------------------------------------------------------------------

  /** The number that two bytes make up, the first being the high one. */
  function Word(hi: byte, lo: byte): nat {
    var high: nat := 256 * hi;
    high + lo
  }

  function Quad(d: bytes, i: nat): nat
    requires i + 4 <= |d|
  {
    var high: nat := 65536 * Word(d[i], d[i + 1]);
    high + Word(d[i + 2], d[i + 3])
  }

  /** The number that the eight bytes from position i on make up. */
  function Long(d: bytes, i: nat): nat
    requires i + 8 <= |d|
  {
    0x1_0000_0000 * Quad(d, i) + Quad(d, i + 4)
  }

  lemma FromBe4(s: bytes)
    requires |s| == 4
    ensures FromBe(s) == Quad(s, 0)
  {
    FromBe16(s[0], s[1]);
    assert s[..3][..2] == [s[0], s[1]] && s[..3] == s[..|s| - 1];
  }

  lemma {:induction false} FromBeJoin(x: bytes, y: bytes)
    ensures FromBe(x + y) == FromBe(x) * Pow256(|y|) + FromBe(y)
    decreases |y|
  {
    if y == [] {
      assert x + y == x;
    } else {
      var n := |y| - 1;
      FromBeJoin(x, y[..n]);
      assert (x + y)[..|x + y| - 1] == x + y[..n];
      Distribute(FromBe(x), Pow256(n), FromBe(y[..n]), y[n]);
    }
  }

  lemma Distribute(a: nat, p: nat, b: nat, c: byte)
    ensures 256 * (a * p + b) + c == a * (256 * p) + (256 * b + c)
  {}

  lemma FromBe8(d: bytes, i: nat)
    requires i + 8 <= |d|
    ensures FromBe(d[i..i + 8]) == Long(d, i)
  {
    var x, y := d[i..i + 4], d[i + 4..i + 8];
    FromBe4(x);
    FromBe4(y);
    FromBeJoin(x, y);
    assert x + y == d[i..i + 8];
    assert Pow256(4) == 0x1_0000_0000 by {
      assert Pow256(2) == 65536;
    }
  }

  /** An encoded cursor: the length, the subject, the timestamp, the id and the checksum, high bytes first. */
  lemma EncodeLayout(c: Cursor)
    ensures var d, n := Encode(c), |c.subject|;
      && |d| == n + 20
      && Word(d[0], d[1]) == n % 65536
      && d[2..2 + n] == c.subject
      && Long(d, 2 + n) == c.timestamp && Long(d, 10 + n) == c.id
      && Word(d[18 + n], d[19 + n]) == Checksum(d[..18 + n])
  {
    var d, n := Encode(c), |c.subject|;
    EncodeParts(c);
    BodyLength(c);
    Widths();
    assert d[..2] == Body(c)[..2] == [d[0], d[1]] && d[18 + n..] == [d[18 + n], d[19 + n]];
    FromBe16(d[0], d[1]);
    FromBe16(d[18 + n], d[19 + n]);
    assert d[2 + n..2 + n + 8] == Be(c.timestamp, 8) && d[10 + n..10 + n + 8] == Be(c.id, 8);
    FromBe8(d, 2 + n);
    FromBe8(d, 10 + n);
    FromBeOfBe(c.timestamp, 8);
    FromBeOfBe(c.id, 8);
  }

  /** Every byte string: which refusal it gets, or the cursor that is read from it. */
  lemma DecodeReads(d: bytes, utf8: bytes -> bool)
    ensures var r := Decode(d, utf8);
      && (r == Err(CursorInvalid(TooShort)) <==> |d| < 20)
      && (|d| >= 20 ==>
            var n, m := Word(d[0], d[1]), |d|;
            if Word(d[m - 2], d[m - 1]) != Checksum(d[..m - 2]) then r == Err(CursorInvalid(ChecksumMismatch))
            else if m < n + 20 then r == Err(CursorInvalid(Truncated))
            else if !utf8(d[2..2 + n]) then r == Err(CursorInvalid(BadUtf8))
            else r.Ok? && r.value.subject == d[2..2 + n] && r.value.timestamp == Long(d, 2 + n) && r.value.id == Long(d, 10 + n))
  {
    if |d| >= 20 {
      var m := |d|;
      var rest := d[..m - 2];
      assert d[m - 2..] == [d[m - 2], d[m - 1]];
      FromBe16(d[m - 2], d[m - 1]);
      ParseReads(rest, utf8);
      var n := Word(d[0], d[1]);
      if m >= n + 20 {
        assert rest[2..2 + n] == d[2..2 + n];
        assert Long(rest, 2 + n) == Long(d, 2 + n) && Long(rest, 10 + n) == Long(d, 10 + n);
      }
    }
  }

  lemma ParseReads(rest: bytes, utf8: bytes -> bool)
    requires |rest| >= 18
    ensures var r, n := Parse(rest, utf8), Word(rest[0], rest[1]);
      if |rest| < n + 18 then r == Err(CursorInvalid(Truncated))
      else if !utf8(rest[2..2 + n]) then r == Err(CursorInvalid(BadUtf8))
      else r.Ok? && r.value.subject == rest[2..2 + n] && r.value.timestamp == Long(rest, 2 + n) && r.value.id == Long(rest, 10 + n)
  {
    assert rest[..2] == [rest[0], rest[1]];
    FromBe16(rest[0], rest[1]);
    var n := Word(rest[0], rest[1]);
    if |rest| >= n + 18 {
      FromBe8(rest, 2 + n);
      FromBe8(rest, 10 + n);
    }
  }
}
