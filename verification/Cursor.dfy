/** Pagination cursors: the byte codec, its checksum, and the Base64 text form. */
module Cursors {
  import opened Wrappers
  import opened ByteStrings
  import Base64

  type u64 = n: nat | n <= U64_MAX

  /** The subject is the UTF-8 form of a string. */
  datatype Cursor = Cursor(subject: bytes, timestamp: u64, id: u64)

  datatype Reason = BadBase64 | TooShort | ChecksumMismatch | Truncated | BadUtf8

  datatype PaginationError = CursorInvalid(reason: Reason) | CursorScopeMismatch(expected: bytes, actual: bytes)

  // ---------------------------------------------------------------------------
  // Big-endian integers
  // ---------------------------------------------------------------------------

  lemma FromBe16(hi: byte, lo: byte)
    ensures FromBe([hi, lo]) == 256 * hi + lo
  {
    assert [hi, lo][..1] == [hi];
    assert [hi][..0] == [];
    assert FromBe([hi]) == hi;
  }

  lemma Widths()
    ensures Pow256(2) == 65536 && Pow256(8) == U64_MAX + 1
  {
    assert Pow256(4) == 0x1_0000_0000;
    assert Pow256(6) == 0x1_0000_0000_0000;
  }

  // ---------------------------------------------------------------------------
  // The checksum
  // ---------------------------------------------------------------------------

  datatype Sums = Sums(sum1: nat, sum2: nat)

  /** One iteration: both additions wrap at 16 bits, with no reduction modulo 255. */
  function Add(s: Sums, b: byte): Sums {
    var sum1 := (s.sum1 + b) % 65536;
    Sums(sum1, (s.sum2 + sum1) % 65536)
  }

  function SumsOf(data: bytes): Sums {
    if data == [] then Sums(0, 0) else Add(SumsOf(data[..|data| - 1]), data[|data| - 1])
  }

  /** Bitwise or of the n low bits. */
  function BitOr(a: nat, b: nat, n: nat): nat {
    if n == 0 then 0
    else 2 * BitOr(a / 2, b / 2, n - 1) + (if a % 2 == 1 || b % 2 == 1 then 1 else 0)
  }

  /** `(sum2 << 8) | sum1` in 16 bits: the two sums overlap in the high byte. */
  function Fold(s: Sums): nat {
    BitOr(s.sum2 * 256 % 65536, s.sum1, 16)
  }

  function Checksum(data: bytes): nat {
    Fold(SumsOf(data))
  }

  method Fletcher16(data: bytes) returns (checksum: nat)
    ensures checksum == Checksum(data)
  {
    var sum1: nat := 0;
    var sum2: nat := 0;
    for i := 0 to |data|
      invariant Sums(sum1, sum2) == SumsOf(data[..i])
    {
      assert data[..i + 1][..i] == data[..i];
      sum1 := (sum1 + data[i]) % 65536;
      sum2 := (sum2 + sum1) % 65536;
    }
    assert data[..|data|] == data;
    checksum := BitOr(sum2 * 256 % 65536, sum1, 16);
  }

  lemma {:induction false} BitOrBound(a: nat, b: nat, n: nat)
    ensures BitOr(a, b, n) < Pow2(n)
  {
    if n > 0 {
      BitOrBound(a / 2, b / 2, n - 1);
    }
  }

  lemma ModDouble(y: nat, d: nat, m: nat)
    requires d < 2 && m > 0
    ensures (2 * y + d) % (2 * m) == 2 * (y % m) + d
  {
    var q, r := y / m, y % m;
    assert y == q * m + r;
    ModUnique(2 * y + d, 2 * m, q, 2 * r + d) by {
      assert 2 * y + d == q * (2 * m) + (2 * r + d);
    }
  }

  /** Where the first operand has no bits, the result keeps the bits of the second. */
  lemma {:induction false} BitOrLow(a: nat, b: nat, n: nat, k: nat)
    requires k <= n && a % Pow2(k) == 0
    ensures BitOr(a, b, n) % Pow2(k) == b % Pow2(k)
  {
    if k > 0 {
      var m := Pow2(k - 1);
      ModDouble(a / 2, a % 2, m);
      ModDouble(b / 2, b % 2, m);
      assert a == 2 * (a / 2) + a % 2 && b == 2 * (b / 2) + b % 2;
      BitOrLow(a / 2, b / 2, n - 1, k - 1);
      ModDouble(BitOr(a / 2, b / 2, n - 1), b % 2, m);
    }
  }

  function ByteSum(data: bytes): nat {
    if data == [] then 0 else ByteSum(data[..|data| - 1]) + data[|data| - 1]
  }

  lemma ModStep(x: nat, b: nat)
    ensures (x % 65536 + b) % 65536 == (x + b) % 65536
  {}

  lemma {:induction false} Sum1IsByteSum(data: bytes)
    ensures SumsOf(data).sum1 == ByteSum(data) % 65536
  {
    if data != [] {
      var front := data[..|data| - 1];
      Sum1IsByteSum(front);
      ModStep(ByteSum(front), data[|data| - 1]);
    }
  }

  lemma PowersOfTwo()
    ensures Pow2(8) == 256 && Pow2(16) == 65536
  {
    assert Pow2(4) == 16;
    assert Pow2(12) == 4096;
  }

  lemma ShiftedLowByte(x: nat)
    ensures x * 256 % 65536 % 256 == 0
    ensures x % 65536 % 256 == x % 256
  {
    var y, q := x * 256, x * 256 / 65536;
    assert y % 65536 == (x - 256 * q) * 256;
    ModUnique(y % 65536, 256, x - 256 * q, 0);
    var p := x / 65536;
    assert x % 65536 == (x / 256 - 256 * p) * 256 + x % 256;
    ModUnique(x % 65536, 256, x / 256 - 256 * p, x % 256);
  }

  /** Although the two sums overlap, the low byte of the checksum is the sum of the bytes modulo 256. */
  lemma ChecksumLowByte(data: bytes)
    ensures Checksum(data) < 65536
    ensures Checksum(data) % 256 == ByteSum(data) % 256
  {
    var sum1, sum2 := SumsOf(data).sum1, SumsOf(data).sum2;
    Sum1IsByteSum(data);
    ShiftedLowByte(sum2);
    ShiftedLowByte(ByteSum(data));
    FoldLowByte(sum2 * 256 % 65536, sum1);
  }

  lemma FoldLowByte(high: nat, low: nat)
    requires high % 256 == 0
    ensures BitOr(high, low, 16) < 65536
    ensures BitOr(high, low, 16) % 256 == low % 256
  {
    PowersOfTwo();
    BitOrBound(high, low, 16);
    BitOrLow(high, low, 16, 8);
  }

  lemma {:induction false} ByteSumUpdate(data: bytes, i: nat, b: byte)
    requires i < |data|
    ensures ByteSum(data[i := b]) == ByteSum(data) - data[i] + b
  {
    var n := |data| - 1;
    if i == n {
      assert data[i := b][..n] == data[..n];
    } else {
      ByteSumUpdate(data[..n], i, b);
      assert data[i := b][..n] == data[..n][i := b];
    }
  }

  lemma ResiduesDiffer(d: nat, b: nat, c: nat)
    requires b < 256 && c < 256 && b != c
    ensures (d + b) % 256 != (d + c) % 256
  {}

  /** Replacing one byte by a different one always changes the checksum. */
  lemma ChecksumDetects(data: bytes, i: nat, b: byte)
    requires i < |data| && b != data[i]
    ensures Checksum(data[i := b]) % 256 != Checksum(data) % 256
  {
    ChecksumLowByte(data);
    ChecksumLowByte(data[i := b]);
    ByteSumUpdate(data, i, b);
    ByteAtMostSum(data, i);
    ResiduesDiffer(ByteSum(data) - data[i], b, data[i]);
  }

  lemma {:induction false} ByteAtMostSum(data: bytes, i: nat)
    requires i < |data|
    ensures data[i] <= ByteSum(data)
  {
    if i < |data| - 1 {
      ByteAtMostSum(data[..|data| - 1], i);
    }
  }

  // ---------------------------------------------------------------------------
  // Encoding and decoding
  // ---------------------------------------------------------------------------

  /** Length (truncated to 16 bits), subject, timestamp and id. */
  function Body(c: Cursor): bytes {
    Be(|c.subject| % 65536, 2) + c.subject + Be(c.timestamp, 8) + Be(c.id, 8)
  }

  function Encode(c: Cursor): bytes {
    Body(c) + Be(Checksum(Body(c)), 2)
  }

  /** `utf8` says which byte strings are well-formed UTF-8. */
  function Decode(data: bytes, utf8: bytes -> bool): Result<Cursor, PaginationError> {
    if |data| < 20 then Err(CursorInvalid(TooShort))
    else
      var rest := data[..|data| - 2];
      if Checksum(rest) != FromBe(data[|data| - 2..]) then Err(CursorInvalid(ChecksumMismatch))
      else Parse(rest, utf8)
  }

  function Parse(rest: bytes, utf8: bytes -> bool): Result<Cursor, PaginationError>
    requires |rest| >= 18
  {
    var n := FromBe(rest[..2]);
    if |rest| < 2 + n + 16 then Err(CursorInvalid(Truncated))
    else if !utf8(rest[2..2 + n]) then Err(CursorInvalid(BadUtf8))
    else
      FromBe8Bound(rest[2 + n..10 + n]);
      FromBe8Bound(rest[10 + n..18 + n]);
      Ok(Cursor(rest[2..2 + n], FromBe(rest[2 + n..10 + n]), FromBe(rest[10 + n..18 + n])))
  }

  lemma FromBe8Bound(s: bytes)
    requires |s| == 8
    ensures FromBe(s) <= U64_MAX
  {
    Widths();
    FromBeBound(s);
  }

  function EncodeString(c: Cursor): bytes {
    Base64.Encode(Encode(c))
  }

  function DecodeString(text: bytes, utf8: bytes -> bool): Result<Cursor, PaginationError> {
    match Base64.Decode(text)
    case None => Err(CursorInvalid(BadBase64))
    case Some(data) => Decode(data, utf8)
  }

  /** An encoded cursor is its body and the body's checksum. */
  lemma EncodeParts(c: Cursor)
    ensures var data, body := Encode(c), Body(c);
      && |body| == |c.subject| + 18 && |data| == |body| + 2
      && data[..|data| - 2] == body
      && FromBe(data[|data| - 2..]) == Checksum(body)
  {
    ChecksumLowByte(Body(c));
    Widths();
    FromBeOfBe(Checksum(Body(c)), 2);
    assert Encode(c)[|c.subject| + 18..] == Be(Checksum(Body(c)), 2);
  }

  lemma BodyLength(c: Cursor)
    ensures FromBe(Body(c)[..2]) == |c.subject| % 65536
  {
    Widths();
    FromBeOfBe(|c.subject| % 65536, 2);
    assert Body(c)[..2] == Be(|c.subject| % 65536, 2);
  }

  lemma BodyParts(c: Cursor)
    requires |c.subject| < 65536
    ensures var body, n := Body(c), |c.subject|;
      && |body| == n + 18
      && body[2..2 + n] == c.subject
      && body[2 + n..10 + n] == Be(c.timestamp, 8)
      && body[10 + n..18 + n] == Be(c.id, 8)
  {}

  /** A subject of 65536 bytes or more comes back shorter, if at all. */
  lemma LongSubjectChanges(c: Cursor, utf8: bytes -> bool)
    requires |c.subject| >= 65536
    ensures Decode(Encode(c), utf8) != Ok(c)
  {
    EncodeParts(c);
    BodyLength(c);
    DecodeIsParse(Encode(c), Body(c), utf8);
  }

  lemma ShortSubjectSurvives(c: Cursor, utf8: bytes -> bool)
    requires |c.subject| < 65536 && utf8(c.subject)
    ensures Decode(Encode(c), utf8) == Ok(c)
  {
    EncodeParts(c);
    BodyLength(c);
    ParseBody(c, utf8);
    DecodeIsParse(Encode(c), Body(c), utf8);
  }

  /** Decoding is parsing once the checksum is right. */
  lemma DecodeIsParse(data: bytes, body: bytes, utf8: bytes -> bool)
    requires |body| >= 18 && |data| == |body| + 2 && data[..|data| - 2] == body
    requires FromBe(data[|data| - 2..]) == Checksum(body)
    ensures Decode(data, utf8) == Parse(body, utf8)
  {}

  lemma ParseBody(c: Cursor, utf8: bytes -> bool)
    requires |c.subject| < 65536 && utf8(c.subject)
    requires FromBe(Body(c)[..2]) == |c.subject|
    ensures Parse(Body(c), utf8) == Ok(c)
  {
    BodyParts(c);
    Widths();
    FromBeOfBe(c.timestamp, 8);
    FromBeOfBe(c.id, 8);
  }

  /** Decoding undoes encoding for exactly the cursors whose subject is shorter than 65536 bytes. */
  lemma RoundTripIff(c: Cursor, utf8: bytes -> bool)
    requires utf8(c.subject)
    ensures Decode(Encode(c), utf8) == Ok(c) <==> |c.subject| < 65536
  {
    if |c.subject| < 65536 {
      ShortSubjectSurvives(c, utf8);
    } else {
      LongSubjectChanges(c, utf8);
    }
  }

  /** The same for the text form that travels in requests. */
  lemma StringRoundTripIff(c: Cursor, utf8: bytes -> bool)
    requires utf8(c.subject)
    ensures DecodeString(EncodeString(c), utf8) == Ok(c) <==> |c.subject| < 65536
  {
    Base64.RoundTrip(Encode(c));
    RoundTripIff(c, utf8);
  }

  /** Changing any one byte of any encoded cursor makes decoding report a checksum mismatch. */
  lemma OneByteChangeDetected(c: Cursor, i: nat, b: byte, utf8: bytes -> bool)
    requires i < |Encode(c)| && Encode(c)[i] != b
    ensures Decode(Encode(c)[i := b], utf8) == Err(CursorInvalid(ChecksumMismatch))
  {
    EncodeParts(c);
    ChecksumLowByte(Body(c));
    var data := Encode(c);
    var changed := data[i := b];
    var n := |data| - 2;
    if i < n {
      assert changed[..n] == Body(c)[i := b] && changed[n..] == data[n..];
      ChecksumDetects(Body(c), i, b);
    } else {
      assert changed[..n] == Body(c);
      assert changed[n..] == [changed[n], changed[n + 1]] && data[n..] == [data[n], data[n + 1]];
      FromBe16(changed[n], changed[n + 1]);
      FromBe16(data[n], data[n + 1]);
    }
  }
}
