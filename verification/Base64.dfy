/** Base64 as in section 4 of RFC 4648; decoding accepts missing padding. */
module Base64 {
  import opened Wrappers

  const PAD: byte := 61  // '='

  /** The i-th symbol of the alphabet A-Z a-z 0-9 + /. */
  function Symbol(v: nat): byte
    requires v < 64
  {
    if v < 26 then 65 + v
    else if v < 52 then 97 + (v - 26)
    else if v < 62 then 48 + (v - 52)
    else if v == 62 then 43
    else 47
  }

  function Value(c: byte): Option<nat> {
    if 65 <= c <= 90 then Some(c - 65)
    else if 97 <= c <= 122 then Some(c - 97 + 26)
    else if 48 <= c <= 57 then Some(c - 48 + 52)
    else if c == 43 then Some(62)
    else if c == 47 then Some(63)
    else None
  }

  lemma SymbolValue(v: nat)
    requires v < 64
    ensures Value(Symbol(v)) == Some(v) && Symbol(v) != PAD
  {}

  /** The symbols of one chunk of one to three bytes, without padding. */
  function Symbols(chunk: bytes): bytes
    requires 1 <= |chunk| <= 3
  {
    var b0: nat := chunk[0];
    var b1: nat := if |chunk| > 1 then chunk[1] else 0;
    var b2: nat := if |chunk| > 2 then chunk[2] else 0;
    var triple: nat := b0 * 65536 + b1 * 256 + b2;
    [Symbol(triple / 262144 % 64), Symbol(triple / 4096 % 64)]
    + (if |chunk| > 1 then [Symbol(triple / 64 % 64)] else [])
    + (if |chunk| > 2 then [Symbol(triple % 64)] else [])
  }

  function Padding(n: nat): bytes {
    if n % 3 == 1 then [PAD, PAD] else if n % 3 == 2 then [PAD] else []
  }

  function Unpadded(data: bytes): bytes {
    if data == [] then []
    else if |data| <= 3 then Symbols(data)
    else Symbols(data[..3]) + Unpadded(data[3..])
  }

  function Encode(data: bytes): bytes {
    Unpadded(data) + Padding(|data|)
  }

  /** `trim_end_matches('=')`. */
  function Trim(s: bytes): bytes {
    if s != [] && s[|s| - 1] == PAD then Trim(s[..|s| - 1]) else s
  }

  function ValueAt(chunk: bytes, i: nat): (v: nat)
    ensures v < 64
  {
    if i < |chunk| && Value(chunk[i]).Some? then Value(chunk[i]).value else 0
  }

  predicate AllSymbols(chunk: bytes) {
    forall i :: 0 <= i < |chunk| ==> Value(chunk[i]).Some?
  }

  /** The bytes of one chunk of one to four symbols. */
  function Bytes(chunk: bytes): bytes
    requires 1 <= |chunk| <= 4
  {
    var triple := ValueAt(chunk, 0) * 262144 + ValueAt(chunk, 1) * 4096 + ValueAt(chunk, 2) * 64 + ValueAt(chunk, 3);
    [triple / 65536 % 256]
    + (if |chunk| > 2 then [triple / 256 % 256] else [])
    + (if |chunk| > 3 then [triple % 256] else [])
  }

  /** `None` when a symbol is not in the alphabet. */
  function DecodeSymbols(s: bytes): Option<bytes> {
    if s == [] then Some([])
    else
      var chunk := if |s| <= 4 then s else s[..4];
      if !AllSymbols(chunk) then None
      else
        match DecodeSymbols(s[|chunk|..])
        case None => None
        case Some(rest) => Some(Bytes(chunk) + rest)
  }

  function Decode(s: bytes): Option<bytes> {
    DecodeSymbols(Trim(s))
  }

  lemma SixBitDigits(t: nat)
    requires t < 0x100_0000
    ensures t == (t / 262144 % 64) * 262144 + (t / 4096 % 64) * 4096 + (t / 64 % 64) * 64 + t % 64
  {
    var q1, q2, q3 := t / 64, t / 4096, t / 262144;
    assert q2 == q1 / 64 && q3 == q2 / 64;
    assert q3 < 64;
  }

  lemma ByteDigits(b0: byte, b1: byte, b2: byte)
    ensures var t: nat := b0 * 65536 + b1 * 256 + b2; t / 65536 % 256 == b0 && t / 256 % 256 == b1 && t % 256 == b2
  {
    var t: nat := b0 * 65536 + b1 * 256 + b2;
    assert t / 256 == b0 * 256 + b1;
    assert t / 65536 == b0;
  }

  lemma ZeroDigits(b0: byte, b1: byte)
    ensures var t: nat := b0 * 65536 + b1 * 256; t % 64 == 0
    ensures var t: nat := b0 * 65536; t % 64 == 0 && t / 64 % 64 == 0
  {
    var t: nat := b0 * 65536;
    assert t / 64 == b0 * 1024;
  }

  lemma ChunkRoundTrip(chunk: bytes)
    requires 1 <= |chunk| <= 3
    ensures AllSymbols(Symbols(chunk))
    ensures |Symbols(chunk)| == |chunk| + 1
    ensures Bytes(Symbols(chunk)) == chunk
    ensures PAD !in Symbols(chunk)
  {
    var b0: nat := chunk[0];
    var b1: nat := if |chunk| > 1 then chunk[1] else 0;
    var b2: nat := if |chunk| > 2 then chunk[2] else 0;
    var triple: nat := b0 * 65536 + b1 * 256 + b2;
    SixBitDigits(triple);
    ByteDigits(b0, b1, b2);
    ZeroDigits(b0, b1);
    var d0, d1, d2, d3 := triple / 262144 % 64, triple / 4096 % 64, triple / 64 % 64, triple % 64;
    ChunkOf(chunk, d0, d1, d2, d3);
  }

  lemma ChunkOf(chunk: bytes, d0: nat, d1: nat, d2: nat, d3: nat)
    requires 1 <= |chunk| <= 3 && d0 < 64 && d1 < 64 && d2 < 64 && d3 < 64
    requires Symbols(chunk) == [Symbol(d0), Symbol(d1)] + (if |chunk| > 1 then [Symbol(d2)] else [])
                             + (if |chunk| > 2 then [Symbol(d3)] else [])
    requires |chunk| < 3 ==> d3 == 0
    requires |chunk| < 2 ==> d2 == 0
    requires var t := d0 * 262144 + d1 * 4096 + d2 * 64 + d3;
      t / 65536 % 256 == chunk[0]
      && (|chunk| > 1 ==> t / 256 % 256 == chunk[1])
      && (|chunk| > 2 ==> t % 256 == chunk[2])
    ensures AllSymbols(Symbols(chunk)) && |Symbols(chunk)| == |chunk| + 1 && PAD !in Symbols(chunk)
    ensures Bytes(Symbols(chunk)) == chunk
  {
    var s := Symbols(chunk);
    SymbolValue(d0);
    SymbolValue(d1);
    SymbolValue(d2);
    SymbolValue(d3);
    assert ValueAt(s, 0) == d0 && ValueAt(s, 1) == d1 && ValueAt(s, 2) == d2 && ValueAt(s, 3) == d3;
  }

  lemma {:induction false} UnpaddedRoundTrip(data: bytes)
    ensures DecodeSymbols(Unpadded(data)) == Some(data)
    ensures PAD !in Unpadded(data)
  {
    if data == [] {
    } else if |data| <= 3 {
      ChunkRoundTrip(data);
      assert Unpadded(data)[|data| + 1..] == [];
      assert Bytes(Symbols(data)) + [] == data;
    } else {
      ChunkRoundTrip(data[..3]);
      UnpaddedRoundTrip(data[3..]);
      var all := Unpadded(data);
      assert all[..4] == Symbols(data[..3]) && all[4..] == Unpadded(data[3..]);
      assert |all| > 4;
      assert data == data[..3] + data[3..];
    }
  }

  lemma TrimPadding(s: bytes, n: nat)
    requires PAD !in s
    ensures Trim(s + Padding(n)) == s
  {
    assert Trim(s) == s;
    assert (s + [PAD])[..|s|] == s;
    assert (s + [PAD, PAD])[..|s| + 1] == s + [PAD];
  }

  /** Decoding undoes encoding, for all byte strings. */
  lemma RoundTrip(data: bytes)
    ensures Decode(Encode(data)) == Some(data)
  {
    UnpaddedRoundTrip(data);
    TrimPadding(Unpadded(data), |data|);
  }

  // ---------------------------------------------------------------------------
  // The loops
  // ---------------------------------------------------------------------------

  lemma {:induction false} UnpaddedSplit(data: bytes, i: nat)
    requires i <= |data| && i % 3 == 0
    ensures Unpadded(data) == Unpadded(data[..i]) + Unpadded(data[i..])
  {
    if i == 0 {
      assert data[0..] == data;
    } else if |data| <= 3 {
      assert data[..i] == data && data[i..] == [];
    } else {
      UnpaddedSplit(data[3..], i - 3);
      assert data[3..][..i - 3] == data[3..i] && data[3..][i - 3..] == data[i..];
      assert data[..i][..3] == data[..3] && data[..i][3..] == data[3..i];
      if i == 3 {
        assert data[..i] == data[..3] && Unpadded(data[3..i]) == [];
      }
    }
  }

  method EncodeChunk(chunk: bytes) returns (out: bytes)
    requires 1 <= |chunk| <= 3
    ensures out == Symbols(chunk) + Padding(|chunk|)
  {
    var b0: nat := chunk[0];
    var b1: nat := if |chunk| > 1 then chunk[1] else 0;
    var b2: nat := if |chunk| > 2 then chunk[2] else 0;
    var triple: nat := b0 * 65536 + b1 * 256 + b2;
    out := [Symbol(triple / 262144 % 64)];
    out := out + [Symbol(triple / 4096 % 64)];
    if |chunk| > 1 {
      out := out + [Symbol(triple / 64 % 64)];
    } else {
      out := out + [PAD];
    }
    if |chunk| > 2 {
      out := out + [Symbol(triple % 64)];
    } else {
      out := out + [PAD];
    }
  }

  lemma PaddingStep(n: nat, i: nat, j: nat)
    requires i < n && i % 3 == 0 && j == Min(i + 3, n)
    ensures 1 <= j - i <= 3 && (j % 3 == 0 || j == n)
    ensures Padding(i) == [] && Padding(j - i) == Padding(j)
  {}

  lemma EncodeStep(data: bytes, i: nat, j: nat)
    requires i < |data| && i % 3 == 0 && j == Min(i + 3, |data|)
    ensures 1 <= j - i <= 3 && (j % 3 == 0 || j == |data|)
    ensures Unpadded(data[..i]) + Padding(i) + (Symbols(data[i..j]) + Padding(j - i)) == Unpadded(data[..j]) + Padding(j)
  {
    PaddingStep(|data|, i, j);
    UnpaddedSplit(data[..j], i);
    assert data[..j][..i] == data[..i] && data[..j][i..] == data[i..j];
    assert Unpadded(data[i..j]) == Symbols(data[i..j]);
    var a, b, c := Unpadded(data[..i]), Symbols(data[i..j]), Padding(j);
    assert a + [] == a && a + (b + c) == (a + b) + c;
  }

  method EncodeLoop(data: bytes) returns (result: bytes)
    ensures result == Encode(data)
  {
    result := [];
    var i: nat := 0;
    while i < |data|
      invariant 0 <= i <= |data| && (i % 3 == 0 || i == |data|)
      invariant result == Unpadded(data[..i]) + Padding(i)
    {
      var j := Min(i + 3, |data|);
      var symbols := EncodeChunk(data[i..j]);
      EncodeStep(data, i, j);
      result := result + symbols;
      i := j;
    }
    assert i == |data| && data[..i] == data;
  }

  method TrimLoop(s: bytes) returns (n: nat)
    ensures n <= |s| && s[..n] == Trim(s)
  {
    n := |s|;
    assert s[..n] == s;
    while n > 0 && s[n - 1] == PAD
      invariant n <= |s| && Trim(s) == Trim(s[..n])
    {
      assert s[..n][..n - 1] == s[..n - 1];
      n := n - 1;
    }
  }

  method DecodeChunk(chunk: bytes) returns (out: Option<bytes>)
    requires 1 <= |chunk| <= 4
    ensures out == if AllSymbols(chunk) then Some(Bytes(chunk)) else None
  {
    var values: seq<nat> := [0, 0, 0, 0];
    for j := 0 to |chunk|
      invariant |values| == 4
      invariant forall q :: 0 <= q < j ==> Value(chunk[q]).Some? && values[q] == ValueAt(chunk, q)
      invariant forall q :: j <= q < 4 ==> values[q] == 0
    {
      match Value(chunk[j]) {
        case None => return None;
        case Some(v) => values := values[j := v];
      }
    }
    assert AllSymbols(chunk);
    assert forall q :: 0 <= q < 4 ==> values[q] == ValueAt(chunk, q);
    assert forall q :: 0 <= q < |chunk| ==> chunk[q] != PAD;
    assert values[0] == ValueAt(chunk, 0) && values[1] == ValueAt(chunk, 1);
    assert values[2] == ValueAt(chunk, 2) && values[3] == ValueAt(chunk, 3);
    var triple := values[0] * 262144 + values[1] * 4096 + values[2] * 64 + values[3];
    var result: bytes := [triple / 65536 % 256];
    if |chunk| > 2 && chunk[2] != PAD {
      result := result + [triple / 256 % 256];
    }
    if |chunk| > 3 && chunk[3] != PAD {
      result := result + [triple % 256];
    }
    assert result == Bytes(chunk);
    return Some(result);
  }

  lemma DecodeStep(input: bytes, i: nat, j: nat)
    requires i < |input| && j == Min(i + 4, |input|)
    ensures DecodeSymbols(input[i..]) ==
      if !AllSymbols(input[i..j]) then None
      else match DecodeSymbols(input[j..])
        case None => None
        case Some(rest) => Some(Bytes(input[i..j]) + rest)
  {
    assert input[i..j] == if |input[i..]| <= 4 then input[i..] else input[i..][..4];
    assert input[i..][j - i..] == input[j..];
  }

  /** What the loop has decoded so far, followed by the decoding of what is left. */
  function Then(out: bytes, rest: Option<bytes>): Option<bytes> {
    match rest
    case None => None
    case Some(more) => Some(out + more)
  }

  method DecodeLoop(s: bytes) returns (result: Option<bytes>)
    ensures result == Decode(s)
  {
    var n := TrimLoop(s);
    var input := s[..n];
    var out: bytes := [];
    var i := 0;
    assert input[0..] == input;
    assert DecodeSymbols(input).Some? ==> out + DecodeSymbols(input).value == DecodeSymbols(input).value;
    while i < |input|
      invariant 0 <= i <= |input|
      invariant DecodeSymbols(input) == Then(out, DecodeSymbols(input[i..]))
    {
      var j := Min(i + 4, |input|);
      var decoded := DecodeChunk(input[i..j]);
      DecodeStep(input, i, j);
      if decoded.None? {
        return None;
      }
      ThenAssociates(out, decoded.value, DecodeSymbols(input[j..]));
      out := out + decoded.value;
      i := j;
    }
    assert input[i..] == [] && out + [] == out;
    return Some(out);
  }

  lemma ThenAssociates(a: bytes, b: bytes, rest: Option<bytes>)
    ensures Then(a, Then(b, rest)) == Then(a + b, rest)
  {
    if rest.Some? {
      assert a + (b + rest.value) == (a + b) + rest.value;
    }
  }
}
