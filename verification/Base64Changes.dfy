/**
 What a change of one symbol does to the decoded bytes.

 Every symbol carries six bits, which fall into one byte or two neighbours. A change moves
 the sum of those two bytes modulo 256, except in the last symbol of a last chunk that is
 not full, whose low bits are dropped.
*/
module Base64Changes {
  import opened Wrappers
  import opened Base64

  type Six = n: nat | n < 64

  /** The bytes that one to four six-bit values make up. */
  function Packed(n: nat, v0: Six, v1: Six, v2: Six, v3: Six): bytes {
    [v0 * 4 + v1 / 16]
    + (if n > 2 then [v1 % 16 * 16 + v2 / 4] else [])
    + (if n > 3 then [v2 % 4 * 64 + v3] else [])
  }

  lemma BytesOfTriple(chunk: bytes, b0: byte, b1: byte, b2: byte)
    requires 1 <= |chunk| <= 4
    requires var t: nat := b0 * 65536 + b1 * 256 + b2;
      ValueAt(chunk, 0) * 262144 + ValueAt(chunk, 1) * 4096 + ValueAt(chunk, 2) * 64 + ValueAt(chunk, 3) == t
    ensures Bytes(chunk) == [b0] + (if |chunk| > 2 then [b1] else []) + (if |chunk| > 3 then [b2] else [])
  {
    ByteDigits(b0, b1, b2);
  }

  lemma Regroup(v0: Six, v1: Six, v2: Six, v3: Six)
    ensures v0 * 262144 + v1 * 4096 + v2 * 64 + v3
         == (v0 * 4 + v1 / 16) * 65536 + (v1 % 16 * 16 + v2 / 4) * 256 + (v2 % 4 * 64 + v3)
  {
    assert v1 == v1 / 16 * 16 + v1 % 16 && v2 == v2 / 4 * 4 + v2 % 4;
  }

  lemma BytesArePacked(chunk: bytes)
    requires 1 <= |chunk| <= 4
    ensures Bytes(chunk) == Packed(|chunk|, ValueAt(chunk, 0), ValueAt(chunk, 1), ValueAt(chunk, 2), ValueAt(chunk, 3))
  {
    var v0, v1, v2, v3 := ValueAt(chunk, 0), ValueAt(chunk, 1), ValueAt(chunk, 2), ValueAt(chunk, 3);
    Regroup(v0, v1, v2, v3);
    BytesOfTriple(chunk, v0 * 4 + v1 / 16, v1 % 16 * 16 + v2 / 4, v2 % 4 * 64 + v3);
  }

  /** The first of the two neighbouring bytes that symbol `i` reaches. */
  function Place(i: nat): nat {
    i / 4 * 3 + (if i % 4 == 0 then 0 else i % 4 - 1)
  }

  /** Byte `p` and its neighbour, if there is one, added up. */
  function PairSum(d: bytes, p: nat): nat
    requires p < |d|
  {
    var first: nat := d[p];
    var second: nat := if p + 1 < |d| then d[p + 1] else 0;
    first + second
  }

  /** At most bytes `p` and `p + 1` differ, and if one does, so do their sums modulo 256. */
  ghost predicate ChangesPair(d: bytes, d': bytes, p: nat) {
    && |d'| == |d| && p < |d|
    && (forall q :: 0 <= q < |d| && q != p && q != p + 1 ==> d'[q] == d[q])
    && (d' != d ==> PairSum(d', p) % 256 != PairSum(d, p) % 256)
  }

  /** Symbols `v` and `v'` differ in dropped bits only, at position `i` of `n` symbols. */
  predicate SameKeptBits(n: nat, i: nat, v: nat, v': nat) {
    i + 1 == n && ((n % 4 == 2 && v / 16 == v' / 16) || (n % 4 == 3 && v / 4 == v' / 4))
  }

  lemma FirstChange(n: nat, v: Six, v': Six, v1: Six, v2: Six, v3: Six)
    requires v != v'
    ensures var d, d' := Packed(n, v, v1, v2, v3), Packed(n, v', v1, v2, v3); ChangesPair(d, d', 0) && d' != d
  {
    var d, d' := Packed(n, v, v1, v2, v3), Packed(n, v', v1, v2, v3);
    assert d'[0] != d[0];
    Differ(PairSum(d, 0), PairSum(d', 0), 4 * (v' - v));
  }

  lemma SecondChange(n: nat, v0: Six, v: Six, v': Six, v2: Six, v3: Six)
    requires n >= 2 && v != v'
    ensures var d, d' := Packed(n, v0, v, v2, v3), Packed(n, v0, v', v2, v3);
      ChangesPair(d, d', 0) && (d' == d <==> n == 2 && v / 16 == v' / 16)
  {
    var d, d' := Packed(n, v0, v, v2, v3), Packed(n, v0, v', v2, v3);
    var hi: int, lo: int := v' / 16 - v / 16, v' % 16 - v % 16;
    if hi != 0 || n > 2 {
      Differ(PairSum(d, 0), PairSum(d', 0), hi + (if n > 2 then 16 * lo else 0));
    }
  }

  lemma ThirdChange(n: nat, v0: Six, v1: Six, v: Six, v': Six, v3: Six)
    requires n >= 3 && v != v'
    ensures var d, d' := Packed(n, v0, v1, v, v3), Packed(n, v0, v1, v', v3);
      ChangesPair(d, d', 1) && (d' == d <==> n == 3 && v / 4 == v' / 4)
  {
    var d, d' := Packed(n, v0, v1, v, v3), Packed(n, v0, v1, v', v3);
    var hi: int, lo: int := v' / 4 - v / 4, v' % 4 - v % 4;
    if hi != 0 || n > 3 {
      Differ(PairSum(d, 1), PairSum(d', 1), hi + (if n > 3 then 64 * lo else 0));
    }
  }

  lemma FourthChange(n: nat, v0: Six, v1: Six, v2: Six, v: Six, v': Six)
    requires n >= 4 && v != v'
    ensures var d, d' := Packed(n, v0, v1, v2, v), Packed(n, v0, v1, v2, v'); ChangesPair(d, d', 2) && d' != d
  {
    var d, d' := Packed(n, v0, v1, v2, v), Packed(n, v0, v1, v2, v');
    Differ(PairSum(d, 2), PairSum(d', 2), v' - v);
  }

  lemma Differ(a: nat, b: nat, delta: int)
    requires b - a == delta && delta != 0 && -256 < delta < 256
    ensures b % 256 != a % 256
  {}

  lemma ChunkChange(chunk: bytes, k: nat, x: byte)
    requires 1 <= |chunk| <= 4 && k < |chunk| && AllSymbols(chunk) && Value(x).Some? && x != chunk[k]
    ensures ChangesPair(Bytes(chunk), Bytes(chunk[k := x]), Place(k))
    ensures Bytes(chunk[k := x]) == Bytes(chunk) <==> SameKeptBits(|chunk|, k, Value(chunk[k]).value, Value(x).value)
  {
    var chunk', n := chunk[k := x], |chunk|;
    BytesArePacked(chunk);
    BytesArePacked(chunk');
    var v0, v1, v2, v3 := ValueAt(chunk, 0), ValueAt(chunk, 1), ValueAt(chunk, 2), ValueAt(chunk, 3);
    var v' := Value(x).value;
    assert Value(chunk[k]).value != v' && ValueAt(chunk', k) == v';
    assert forall q: nat :: q != k ==> ValueAt(chunk', q) == ValueAt(chunk, q);
    match k {
      case 0 => FirstChange(n, v0, v', v1, v2, v3);
      case 1 => SecondChange(n, v0, v1, v', v2, v3);
      case 2 => ThirdChange(n, v0, v1, v2, v', v3);
      case _ => FourthChange(n, v0, v1, v2, v3, v');
    }
  }

  // ---------------------------------------------------------------------------
  // Texts of several chunks
  // ---------------------------------------------------------------------------

  lemma {:induction false} DecodesIff(s: bytes)
    ensures DecodeSymbols(s).Some? <==> AllSymbols(s)
  {
    if |s| > 4 {
      DecodesIff(s[4..]);
      assert s == s[..4] + s[4..];
    }
  }

  lemma OneChunk(s: bytes)
    requires 1 <= |s| <= 4 && AllSymbols(s)
    ensures DecodeSymbols(s) == Some(Bytes(s))
  {
    assert s[|s|..] == [] && Bytes(s) + [] == Bytes(s);
  }

  lemma FullChunk(s: bytes)
    requires |s| > 4 && AllSymbols(s)
    ensures DecodeSymbols(s).Some? && DecodeSymbols(s[4..]).Some? && |Bytes(s[..4])| == 3
    ensures DecodeSymbols(s).value == Bytes(s[..4]) + DecodeSymbols(s[4..]).value
  {
    DecodesIff(s);
  }

  /** Two byte strings that differ at most in bytes `p` and `p + 1`, visibly so, and are the same or not. */
  ghost predicate Shows(d: bytes, d': bytes, p: nat, same: bool) {
    ChangesPair(d, d', p) && (d' == d <==> same)
  }

  lemma HeadShows(a: bytes, a': bytes, b: bytes, p: nat)
    requires |a| == 3 && Shows(a, a', p, false)
    ensures Shows(a + b, a' + b, p, false)
  {
    assert (a + b)[..3] == a && (a' + b)[..3] == a';
    if p == 2 && b != [] {
      Differ(PairSum(a + b, 2), PairSum(a' + b, 2), (a'[2] as int) - (a[2] as int));
    }
  }

  lemma TailShows(a: bytes, b: bytes, b': bytes, p: nat, same: bool)
    requires |a| == 3 && Shows(b, b', p, same)
    ensures Shows(a + b, a + b', 3 + p, same)
  {
    assert (a + b)[3..] == b && (a + b')[3..] == b';
    if b' != b {
      assert PairSum(a + b, 3 + p) == PairSum(b, p) && PairSum(a + b', 3 + p) == PairSum(b', p);
    }
  }

  lemma NextChunk(n: nat, i: nat, v: nat, v': nat)
    ensures Place(i + 4) == 3 + Place(i)
    ensures SameKeptBits(n + 4, i + 4, v, v') <==> SameKeptBits(n, i, v, v')
  {
    assert (n + 4) % 4 == n % 4 && (i + 4) % 4 == i % 4 && (i + 4) / 4 == i / 4 + 1;
  }

  /** Exchanging one symbol for another leaves the bytes as they are exactly when only dropped bits differ. */
  lemma {:induction false} SymbolChange(s: bytes, i: nat, x: byte)
    requires AllSymbols(s) && i < |s| && Value(x).Some? && x != s[i]
    ensures DecodeSymbols(s).Some? && DecodeSymbols(s[i := x]).Some?
    ensures Shows(DecodeSymbols(s).value, DecodeSymbols(s[i := x]).value, Place(i),
                  SameKeptBits(|s|, i, Value(s[i]).value, Value(x).value))
    decreases |s|
  {
    var s' := s[i := x];
    if |s| <= 4 {
      ChunkChange(s, i, x);
      OneChunk(s);
      OneChunk(s');
    } else if i < 4 {
      ChangeInHead(s, i, x);
    } else {
      SymbolChange(s[4..], i - 4, x);
      ChangeInTail(s, i, x, SameKeptBits(|s| - 4, i - 4, Value(s[i]).value, Value(x).value));
      NextChunk(|s| - 4, i - 4, Value(s[i]).value, Value(x).value);
    }
  }

  lemma ChangeInHead(s: bytes, i: nat, x: byte)
    requires AllSymbols(s) && |s| > 4 && i < 4 && Value(x).Some? && x != s[i]
    ensures DecodeSymbols(s).Some? && DecodeSymbols(s[i := x]).Some?
    ensures Shows(DecodeSymbols(s).value, DecodeSymbols(s[i := x]).value, Place(i), false)
  {
    var s' := s[i := x];
    FullChunk(s);
    FullChunk(s');
    ChunkChange(s[..4], i, x);
    assert s'[..4] == s[..4][i := x] && s'[4..] == s[4..];
    HeadShows(Bytes(s[..4]), Bytes(s'[..4]), DecodeSymbols(s[4..]).value, Place(i));
  }

  lemma ChangeInTail(s: bytes, i: nat, x: byte, same: bool)
    requires AllSymbols(s) && |s| > 4 && 4 <= i < |s| && Value(x).Some?
    requires var r := s[4..];
      && DecodeSymbols(r).Some? && DecodeSymbols(r[i - 4 := x]).Some?
      && Shows(DecodeSymbols(r).value, DecodeSymbols(r[i - 4 := x]).value, Place(i - 4), same)
    ensures DecodeSymbols(s).Some? && DecodeSymbols(s[i := x]).Some?
    ensures Shows(DecodeSymbols(s).value, DecodeSymbols(s[i := x]).value, 3 + Place(i - 4), same)
  {
    var s' := s[i := x];
    FullChunk(s);
    FullChunk(s');
    assert s'[..4] == s[..4] && s'[4..] == s[4..][i - 4 := x];
    TailShows(Bytes(s[..4]), DecodeSymbols(s[4..]).value, DecodeSymbols(s'[4..]).value, Place(i - 4), same);
  }

  /** The byte that the last two of `n` symbols make up. */
  function LastByte(n: nat, v: Six, w: Six): byte {
    if n % 4 == 2 then v * 4 + w / 16 else if n % 4 == 3 then v % 16 * 16 + w / 4 else v % 4 * 64 + w
  }

  /** Of `n` symbols with the values `v` and `w` at the end and the bytes `d`, all but the last have the bytes `t`. */
  predicate Shortens(n: nat, v: Six, w: Six, d: bytes, t: bytes) {
    && d != [] && d[|d| - 1] == LastByte(n, v, w)
    && t == if n % 4 == 2 then d[|d| - 1 := v * 4] else d[..|d| - 1]
  }

  lemma TailShortens(a: bytes, n: nat, v: Six, w: Six, d: bytes, t: bytes)
    requires Shortens(n, v, w, d, t)
    ensures Shortens(n + 4, v, w, a + d, a + t)
  {
    assert (a + d)[..|a + d| - 1] == a + d[..|d| - 1];
    assert (a + d)[|a + d| - 1 := v * 4] == a + d[|d| - 1 := v * 4];
    assert (n + 4) % 4 == n % 4;
  }

  lemma PackedShortens(v0: Six, v1: Six, v2: Six, v3: Six)
    ensures Shortens(2, v0, v1, Packed(2, v0, v1, 0, 0), Packed(1, v0, 0, 0, 0))
    ensures Shortens(3, v1, v2, Packed(3, v0, v1, v2, 0), Packed(2, v0, v1, 0, 0))
    ensures Shortens(4, v2, v3, Packed(4, v0, v1, v2, v3), Packed(3, v0, v1, v2, 0))
  {}

  lemma ChunkShortens(s: bytes)
    requires AllSymbols(s) && 2 <= |s| <= 4
    ensures Shortens(|s|, ValueAt(s, |s| - 2), ValueAt(s, |s| - 1), Bytes(s), Bytes(s[..|s| - 1]))
  {
    var t := s[..|s| - 1];
    BytesArePacked(s);
    BytesArePacked(t);
    PackedShortens(ValueAt(s, 0), ValueAt(s, 1), ValueAt(s, 2), ValueAt(s, 3));
  }

  /** Without its last symbol a text loses its last byte, unless only two bits of it were in that symbol. */
  lemma {:induction false} DropSymbol(s: bytes)
    requires AllSymbols(s) && s != [] && |s| % 4 != 1
    ensures DecodeSymbols(s).Some? && DecodeSymbols(s[..|s| - 1]).Some?
    ensures Shortens(|s|, ValueAt(s, |s| - 2), ValueAt(s, |s| - 1), DecodeSymbols(s).value, DecodeSymbols(s[..|s| - 1]).value)
    decreases |s|
  {
    var n := |s|;
    var t := s[..n - 1];
    if n <= 4 {
      OneChunk(s);
      OneChunk(t);
      ChunkShortens(s);
    } else {
      DropSymbol(s[4..]);
      DropStep(s);
    }
  }

  lemma DropStep(s: bytes)
    requires AllSymbols(s) && |s| > 5
    requires var r := s[4..];
      && DecodeSymbols(r).Some? && DecodeSymbols(r[..|r| - 1]).Some?
      && Shortens(|r|, ValueAt(r, |r| - 2), ValueAt(r, |r| - 1), DecodeSymbols(r).value, DecodeSymbols(r[..|r| - 1]).value)
    ensures DecodeSymbols(s).Some? && DecodeSymbols(s[..|s| - 1]).Some?
    ensures Shortens(|s|, ValueAt(s, |s| - 2), ValueAt(s, |s| - 1), DecodeSymbols(s).value, DecodeSymbols(s[..|s| - 1]).value)
  {
    var n, r, t := |s|, s[4..], s[..|s| - 1];
    FullChunk(s);
    FullChunk(t);
    assert t[..4] == s[..4] && t[4..] == r[..n - 5];
    assert ValueAt(r, n - 6) == ValueAt(s, n - 2) && ValueAt(r, n - 5) == ValueAt(s, n - 1);
    TailShortens(Bytes(s[..4]), n - 4, ValueAt(s, n - 2), ValueAt(s, n - 1),
                 DecodeSymbols(r).value, DecodeSymbols(t[4..]).value);
  }

  /** The symbols of `m` bytes: how many, and that the dropped bits are zero. */
  predicate Shaped(s: bytes, m: nat) {
    && s != [] && AllSymbols(s) && PAD !in s
    && |s| % 4 == (if m % 3 == 0 then 0 else m % 3 + 1)
    && (|s| % 4 == 2 ==> ValueAt(s, |s| - 1) % 16 == 0)
    && (|s| % 4 == 3 ==> ValueAt(s, |s| - 1) % 4 == 0)
  }

  lemma TailShaped(head: bytes, s: bytes, m: nat)
    requires |head| == 4 && AllSymbols(head) && PAD !in head && Shaped(s, m)
    ensures Shaped(head + s, m + 3)
  {
    var t := head + s;
    assert t[|t| - 1] == s[|s| - 1];
    assert |t| % 4 == |s| % 4 && (m + 3) % 3 == m % 3;
  }

  lemma {:induction false} EncodedShape(data: bytes)
    requires data != []
    ensures Shaped(Unpadded(data), |data|)
  {
    if |data| <= 3 {
      ChunkRoundTrip(data);
      DroppedBitsZero(data);
    } else {
      EncodedShape(data[3..]);
      ChunkRoundTrip(data[..3]);
      TailShaped(Symbols(data[..3]), Unpadded(data[3..]), |data| - 3);
    }
  }

  lemma DroppedBitsZero(chunk: bytes)
    requires 1 <= |chunk| <= 3
    ensures AllSymbols(Symbols(chunk)) && |Symbols(chunk)| == |chunk| + 1
    ensures |chunk| == 1 ==> Value(Symbols(chunk)[1]).value % 16 == 0
    ensures |chunk| == 2 ==> Value(Symbols(chunk)[2]).value % 4 == 0
  {
    ChunkRoundTrip(chunk);
    var b0: nat := chunk[0];
    var b1: nat := if |chunk| > 1 then chunk[1] else 0;
    if |chunk| == 1 {
      var t := b0 * 65536;
      assert t / 4096 == b0 * 16;
      SymbolValue(t / 4096 % 64);
      SixteenDivides(b0);
    } else if |chunk| == 2 {
      var t := b0 * 65536 + b1 * 256;
      assert t / 64 == (b0 * 256 + b1) * 4;
      SymbolValue(t / 64 % 64);
      FourDivides(b0 * 256 + b1);
    }
  }

  lemma SixteenDivides(b: nat)
    ensures b * 16 % 64 % 16 == 0
  {}

  lemma FourDivides(b: nat)
    ensures b * 4 % 64 % 4 == 0
  {}

  /** Without the last symbol: the last byte is gone, or has lost the two bits that were in it. */
  lemma LastSymbolDropped(s: bytes, data: bytes)
    requires AllSymbols(s) && s != [] && |s| % 4 != 1 && DecodeSymbols(s) == Some(data)
    ensures data != [] && DecodeSymbols(s[..|s| - 1]).Some?
    ensures LosesLast(|s|, ValueAt(s, |s| - 2), ValueAt(s, |s| - 1), data, DecodeSymbols(s[..|s| - 1]).value)
  {
    DropSymbol(s);
    ShortensLoses(|s|, ValueAt(s, |s| - 2), ValueAt(s, |s| - 1), data, DecodeSymbols(s[..|s| - 1]).value);
  }

  predicate LosesLast(n: nat, v: Six, w: Six, d: bytes, t: bytes)
    requires d != []
  {
    if n % 4 != 2 then t == d[..|d| - 1]
    else t == d[|d| - 1 := v * 4] && (v * 4 == d[|d| - 1] <==> w < 16)
  }

  lemma ShortensLoses(n: nat, v: Six, w: Six, d: bytes, t: bytes)
    requires Shortens(n, v, w, d, t)
    ensures LosesLast(n, v, w, d, t)
  {}

  /** The byte that a symbol with value `w` adds behind an encoded text of `n` symbols. */
  function AddedByte(n: nat, w: Six): byte {
    if n % 4 == 2 then w / 4 else w
  }

  lemma AddedByteIsLast(n: nat, v: Six, w: Six, d: bytes, t: bytes)
    requires (n % 4 == 2 && v % 16 == 0) || (n % 4 == 3 && v % 4 == 0)
    requires Shortens(n + 1, v, w, d, t)
    ensures d == t + [AddedByte(n, w)]
  {
    assert (n + 1) % 4 == (n % 4 + 1) % 4;
    assert d == d[..|d| - 1] + [d[|d| - 1]];
  }

  /** With a symbol put behind an encoded text that is not full, its bits make up one byte more. */
  lemma SymbolAdded(s: bytes, m: nat, data: bytes, x: byte)
    requires Shaped(s, m) && m % 3 != 0 && DecodeSymbols(s) == Some(data) && Value(x).Some?
    ensures DecodeSymbols(s + [x]) == Some(data + [AddedByte(|s|, ValueAt([x], 0))])
  {
    var t := s + [x];
    assert t[..|t| - 1] == s;
    assert ValueAt(t, |t| - 2) == ValueAt(s, |s| - 1) && ValueAt(t, |t| - 1) == ValueAt([x], 0);
    RoomForOne(s, m);
    DropSymbol(t);
    AddedByteIsLast(|s|, ValueAt(s, |s| - 1), ValueAt([x], 0), DecodeSymbols(t).value, data);
  }

  lemma RoomForOne(s: bytes, m: nat)
    requires Shaped(s, m) && m % 3 != 0
    ensures (|s| + 1) % 4 != 1
    ensures var v := ValueAt(s, |s| - 1); (|s| % 4 == 2 && v % 16 == 0) || (|s| % 4 == 3 && v % 4 == 0)
  {}

  // ---------------------------------------------------------------------------
  // Texts with their padding
  // ---------------------------------------------------------------------------

  lemma TrimOnce(s: bytes)
    ensures Trim(s + [PAD]) == Trim(s)
  {
    assert (s + [PAD])[..|s|] == s;
  }

  lemma TrimMore(s: bytes, m: nat)
    ensures Trim(s + Padding(m)) == Trim(s)
  {
    TrimOnce(s);
    TrimOnce(s + [PAD]);
    assert s + [PAD, PAD] == s + [PAD] + [PAD] && s + [] == s;
  }

  /** The text of `data`: its symbols and their padding. */
  predicate TextOf(text: bytes, s: bytes, data: bytes) {
    Shaped(s, |data|) && DecodeSymbols(s) == Some(data) && text == s + Padding(|data|)
  }

  lemma EncodeIsText(data: bytes)
    requires data != []
    ensures TextOf(Encode(data), Unpadded(data), data)
  {
    EncodedShape(data);
    UnpaddedRoundTrip(data);
  }

  /** Another symbol of the alphabet in place of the i-th. */
  lemma SymbolExchanged(text: bytes, s: bytes, data: bytes, i: nat, x: byte)
    requires TextOf(text, s, data) && i < |s| && Value(x).Some? && x != text[i]
    ensures Decode(text[i := x]).Some?
    ensures Shows(data, Decode(text[i := x]).value, Place(i), SameKeptBits(|s|, i, ValueAt(s, i), ValueAt([x], 0)))
  {
    assert text[i := x] == s[i := x] + Padding(|data|);
    TrimMore(s[i := x], |data|);
    SymbolChange(s, i, x);
  }

  lemma RefusedSymbol(s: bytes, i: nat)
    requires i < |s| && Value(s[i]).None? && s[|s| - 1] != PAD
    ensures DecodeSymbols(Trim(s)).None?
  {
    DecodesIff(s);
  }

  /** A foreign character, or one behind padding, is refused; but for padding in the last symbol's place. */
  lemma ForeignRefused(text: bytes, s: bytes, data: bytes, i: nat, x: byte)
    requires TextOf(text, s, data) && i < |text| && x != text[i]
    requires Value(x).None? || i > |s|
    requires x == PAD ==> i + 1 != |s|
    ensures Decode(text[i := x]).None?
  {
    if i < |s| {
      assert text[i := x] == s[i := x] + Padding(|data|);
      TrimMore(s[i := x], |data|);
      RefusedSymbol(s[i := x], i);
    } else if i == |s| {
      assert text[i] == PAD;
      assert text[i := x] == s + [x] || text[i := x] == s + [x] + [PAD];
      TrimOnce(s + [x]);
      RefusedSymbol(s + [x], i);
    } else {
      assert text[i := x] == s + [PAD, x];
      RefusedSymbol(s + [PAD, x], |s|);
    }
  }

  /** Padding in the last symbol's place. */
  lemma LastPaddedAway(text: bytes, s: bytes, data: bytes)
    requires TextOf(text, s, data)
    ensures data != [] && Decode(text[|s| - 1 := PAD]).Some?
    ensures LosesLast(|s|, ValueAt(s, |s| - 2), ValueAt(s, |s| - 1), data, Decode(text[|s| - 1 := PAD]).value)
  {
    var t := s[..|s| - 1];
    LastSymbolDropped(s, data);
    assert text[|s| - 1 := PAD] == t + [PAD] + Padding(|data|);
    TrimMore(t + [PAD], |data|);
    TrimOnce(t);
  }

  /** A symbol in the first padding place. */
  lemma PaddingReplaced(text: bytes, s: bytes, data: bytes, x: byte)
    requires TextOf(text, s, data) && |s| < |text| && Value(x).Some?
    ensures Decode(text[|s| := x]) == Some(data + [AddedByte(|s|, ValueAt([x], 0))])
  {
    assert text[|s| := x] == s + [x] || text[|s| := x] == s + [x] + [PAD];
    TrimOnce(s + [x]);
    SymbolAdded(s, |data|, data, x);
  }
}
