/** The SCALE encodings used in error-log payloads; encoders fail as the verifier script's do. */
module Scale {
  import opened Wrappers
  import opened ByteStrings

  datatype EncodeError = NegativeCompact | CompactTooLong | U64OutOfRange | NotThirtyTwoBytes | MalformedContext

  type Encoded = Result<bytes, EncodeError>

  /** The number of bytes of v without leading zeros. */
  function ByteLength(v: nat): nat {
    if v == 0 then 0 else 1 + ByteLength(v / 256)
  }

  lemma {:induction false} ByteLengthBounds(v: nat)
    ensures v < Pow256(ByteLength(v))
    ensures v > 0 ==> Pow256(ByteLength(v) - 1) <= v
  {
    if v > 0 {
      ByteLengthBounds(v / 256);
    }
  }

  /** Four modes, told apart by the two low bits of the first byte. */
  function Compact(v: int): Encoded {
    if v < 0 then Err(NegativeCompact)
    else if v < 64 then Ok([4 * v])
    else if v < 0x4000 then Ok(Le(4 * v + 1, 2))
    else if v < 0x4000_0000 then Ok(Le(4 * v + 2, 4))
    else
      AtLeastFour(v);
      var n := ByteLength(v);
      if n > 67 then Err(CompactTooLong) else Ok([4 * (n - 4) + 3] + Le(v, n))
  }

  lemma SmallPowers()
    ensures Pow256(2) == 0x1_0000 && Pow256(3) == 0x100_0000 && Pow256(4) == 0x1_0000_0000
  {}

  lemma AtLeastFour(v: nat)
    requires v >= 0x4000_0000
    ensures ByteLength(v) >= 4
  {
    SmallPowers();
    ByteLengthBounds(v);
    if ByteLength(v) < 4 {
      PowMonotone(ByteLength(v), 3);
    }
  }

  lemma {:induction false} PowMonotone(m: nat, n: nat)
    requires m <= n
    ensures Pow256(m) <= Pow256(n)
  {
    if m < n {
      PowMonotone(m, n - 1);
    }
  }

  /** The length of an encoding, from its first byte. */
  function CompactSize(first: byte): nat {
    if first % 4 == 0 then 1 else if first % 4 == 1 then 2 else if first % 4 == 2 then 4 else first / 4 + 5
  }

  function CompactValue(c: bytes): nat
    requires c != []
  {
    if c[0] % 4 == 0 then c[0] / 4
    else if c[0] % 4 == 3 then FromLe(c[1..])
    else FromLe(c) / 4
  }

  lemma FirstByteMode(u: nat, m: nat, n: nat)
    requires n > 0 && m < 4
    ensures Le(4 * u + m, n)[0] % 4 == m
  {
    var x := 4 * u + m;
    var q, r := x / 256, x % 256;
    ModUnique(r, 4, u - 64 * q, m) by {
      assert x == 256 * q + r;
      assert 4 * (u - 64 * q) + m == r;
      assert u - 64 * q >= 0;
    }
  }

  /** The modes of two and four bytes. */
  lemma WideRoundTrip(u: nat, m: nat, n: nat)
    requires n > 0 && 1 <= m <= 2 && 4 * u + m < Pow256(n)
    ensures var c := Le(4 * u + m, n);
      |c| == n && c[0] % 4 == m && CompactValue(c) == u
  {
    FirstByteMode(u, m, n);
    FromLeOfLe(4 * u + m, n);
  }

  lemma BigRoundTrip(v: nat, n: nat)
    requires 4 <= n <= 67 && v < Pow256(n)
    ensures var c := [4 * (n - 4) + 3] + Le(v, n);
      |c| == n + 1 && c[0] == 4 * (n - 4) + 3 && CompactValue(c) == v && CompactSize(c[0]) == n + 1
  {
    FromLeOfLe(v, n);
    var c := [4 * (n - 4) + 3] + Le(v, n);
    assert c[1..] == Le(v, n);
  }

  /** An encoded integer can be read back, and its first byte gives its length. */
  lemma CompactRoundTrip(v: int)
    requires Compact(v).Ok?
    ensures var c := Compact(v).value;
      c != [] && |c| == CompactSize(c[0]) && CompactValue(c) == v
  {
    SmallPowers();
    if v < 64 {
    } else if v < 0x4000 {
      WideRoundTrip(v, 1, 2);
    } else if v < 0x4000_0000 {
      WideRoundTrip(v, 2, 4);
    } else {
      AtLeastFour(v);
      ByteLengthBounds(v);
      BigRoundTrip(v, ByteLength(v));
    }
  }

  /** Compact integers are prefix-free: two encodings that start the same text are the same. */
  lemma CompactPrefixFree(v: int, r: bytes, w: int, s: bytes)
    requires Compact(v).Ok? && Compact(w).Ok? && Compact(v).value + r == Compact(w).value + s
    ensures v == w && r == s
  {
    CompactRoundTrip(v);
    CompactRoundTrip(w);
    var a, b := Compact(v).value, Compact(w).value;
    assert a[0] == (a + r)[0] && b[0] == (b + s)[0];
    SplitAt(a, r, b, s);
  }

  function U64(v: int): Encoded {
    if v < 0 || v > U64_MAX then Err(U64OutOfRange) else Ok(Le(v, 8))
  }

  lemma U64PrefixFree(v: int, r: bytes, w: int, s: bytes)
    requires U64(v).Ok? && U64(w).Ok? && U64(v).value + r == U64(w).value + s
    ensures v == w && r == s
  {
    assert Pow256(4) == 0x1_0000_0000;
    assert Pow256(8) == U64_MAX + 1;
    SplitAt(Le(v, 8), r, Le(w, 8), s);
    FromLeOfLe(v, 8);
    FromLeOfLe(w, 8);
  }

  function Fixed32(raw: bytes): Encoded {
    if |raw| != 32 then Err(NotThirtyTwoBytes) else Ok(raw)
  }

  /** The first error wins. */
  function Then(a: Encoded, b: Encoded): Encoded {
    if a.Err? then a else if b.Err? then b else Ok(a.value + b.value)
  }

  /** A string is the length of its UTF-8 form followed by that form. */
  function Text(s: bytes): Encoded {
    Then(Compact(|s|), Ok(s))
  }

  lemma TextPrefixFree(v: bytes, r: bytes, w: bytes, s: bytes)
    requires Text(v).Ok? && Text(w).Ok? && Text(v).value + r == Text(w).value + s
    ensures v == w && r == s
  {
    var a, b := Compact(|v|).value, Compact(|w|).value;
    assert a + (v + r) == Text(v).value + r && b + (w + s) == Text(w).value + s;
    CompactPrefixFree(|v|, v + r, |w|, w + s);
    SplitAt(v, r, w, s);
  }

  type Context = seq<seq<bytes>>

  function Item(item: seq<bytes>): Encoded {
    if |item| != 2 then Err(MalformedContext) else Then(Text(item[0]), Text(item[1]))
  }

  function Items(context: Context): Encoded {
    if context == [] then Ok([]) else Then(Items(context[..|context| - 1]), Item(context[|context| - 1]))
  }

  function ContextBytes(context: Context): Encoded {
    Then(Compact(|context|), Items(context))
  }

  /** `encode_context`: the pairs are appended one after another. */
  method EncodeContext(context: Context) returns (out: Encoded)
    ensures out == ContextBytes(context)
  {
    var count := Compact(|context|);
    if count.Err? {
      return count;
    }
    var output := count.value;
    for i := 0 to |context|
      invariant Items(context[..i]).Ok? && output == count.value + Items(context[..i]).value
    {
      assert context[..i + 1][..i] == context[..i];
      var item := Item(context[i]);
      if item.Err? {
        ItemsFail(context, i);
        return item;
      }
      assert Items(context[..i + 1]) == Ok(Items(context[..i]).value + item.value);
      assert count.value + (Items(context[..i]).value + item.value) == output + item.value;
      output := output + item.value;
    }
    assert context[..|context|] == context;
    return Ok(output);
  }

  /** A malformed pair makes the whole context fail with the first such pair's error. */
  lemma {:induction false} ItemsFail(context: Context, i: nat)
    requires i < |context| && Items(context[..i]).Ok? && Item(context[i]).Err?
    ensures Items(context) == Item(context[i])
    decreases |context|
  {
    var n := |context| - 1;
    if i == n {
    } else {
      assert context[..n][..i] == context[..i];
      ItemsFail(context[..n], i);
    }
  }

  lemma ItemPrefixFree(x: seq<bytes>, r: bytes, y: seq<bytes>, s: bytes)
    requires Item(x).Ok? && Item(y).Ok? && Item(x).value + r == Item(y).value + s
    ensures x == y && r == s
  {
    var a, b := Text(x[1]).value, Text(y[1]).value;
    assert Text(x[0]).value + (a + r) == Item(x).value + r;
    assert Text(y[0]).value + (b + s) == Item(y).value + s;
    TextPrefixFree(x[0], a + r, y[0], b + s);
    TextPrefixFree(x[1], r, y[1], s);
  }

  lemma {:induction false} ItemsFromFront(context: Context)
    requires context != [] && Items(context).Ok?
    ensures Item(context[0]).Ok? && Items(context[1..]).Ok?
    ensures Items(context).value == Item(context[0]).value + Items(context[1..]).value
    decreases |context|
  {
    var n := |context| - 1;
    if n == 0 {
      assert context[..0] == [] && context[1..] == [];
    } else {
      var front := context[..n];
      ItemsFromFront(front);
      assert front[1..] == context[1..][..n - 1];
      Associates(Item(context[0]).value, Items(front[1..]).value, Item(context[n]).value);
    }
  }

  lemma {:induction false} ItemsPrefixFree(x: Context, r: bytes, y: Context, s: bytes)
    requires |x| == |y| && Items(x).Ok? && Items(y).Ok? && Items(x).value + r == Items(y).value + s
    ensures x == y && r == s
    decreases |x|
  {
    if x != [] {
      ItemsFromFront(x);
      ItemsFromFront(y);
      var a, b := Items(x[1..]).value, Items(y[1..]).value;
      Associates(Item(x[0]).value, a, r);
      Associates(Item(y[0]).value, b, s);
      ItemPrefixFree(x[0], a + r, y[0], b + s);
      ItemsPrefixFree(x[1..], r, y[1..], s);
      assert x == [x[0]] + x[1..] && y == [y[0]] + y[1..];
    } else {
      assert Items(x).value + r == r && Items(y).value + s == s;
    }
  }

  lemma ContextPrefixFree(x: Context, r: bytes, y: Context, s: bytes)
    requires ContextBytes(x).Ok? && ContextBytes(y).Ok? && ContextBytes(x).value + r == ContextBytes(y).value + s
    ensures x == y && r == s
  {
    var a, b := Items(x).value, Items(y).value;
    assert Compact(|x|).value + (a + r) == ContextBytes(x).value + r;
    assert Compact(|y|).value + (b + s) == ContextBytes(y).value + s;
    CompactPrefixFree(|x|, a + r, |y|, b + s);
    ItemsPrefixFree(x, r, y, s);
  }

  // ---------------------------------------------------------------------------
  // The encodings byte by byte
  // ---------------------------------------------------------------------------

  /** The number that four bytes make up, lowest byte first. */
  function Low4(a: byte, b: byte, c: byte, d: byte): nat {
    var x0: nat, x1: nat, x2: nat, x3: nat := a, b, c, d;
    x0 + 256 * x1 + 65536 * x2 + 0x100_0000 * x3
  }

  lemma FromLe4(s: bytes)
    requires |s| == 4
    ensures FromLe(s) == Low4(s[0], s[1], s[2], s[3])
  {
    FromLeOne(s[3]);
    assert s[1..][1..][1..] == [s[3]];
    assert FromLe(s[1..][1..]) == s[2] + 256 * FromLe([s[3]]);
    assert FromLe(s[1..]) == s[1] + 256 * FromLe(s[1..][1..]);
  }

  lemma FromLeOne(b: byte)
    ensures FromLe([b]) == b
  {
    assert [b][1..] == [];
  }

  lemma FromLe2(s: bytes)
    requires |s| == 2
    ensures FromLe(s) == Low4(s[0], s[1], 0, 0)
  {
    FromLeOne(s[1]);
    assert s[1..] == [s[1]];
  }

  /** The four modes: one, two or four bytes that hold the number and the mode, or a byte that
      tells how many bytes of the number follow, the highest of them not zero. */
  lemma CompactModes(v: int)
    ensures Compact(v).Err? <==> v < 0 || ByteLength(v) > 67
    ensures v < 0 ==> Compact(v) == Err(NegativeCompact)
    ensures v >= 0 && Compact(v).Err? ==> Compact(v) == Err(CompactTooLong)
    ensures Compact(v).Ok? ==>
      var c := Compact(v).value;
      if v < 0x40 then c == [4 * v]
      else if v < 0x4000 then |c| == 2 && Low4(c[0], c[1], 0, 0) == 4 * v + 1
      else if v < 0x4000_0000 then |c| == 4 && Low4(c[0], c[1], c[2], c[3]) == 4 * v + 2
      else |c| >= 5 && c[0] == 4 * (|c| - 5) + 3 && FromLe(c[1..]) == v && v >= Pow256(|c| - 2)
  {
    if v >= 0 {
      CompactFits(v);
    }
    if Compact(v).Ok? {
      SmallPowers();
      var c := Compact(v).value;
      if 0x40 <= v < 0x4000 {
        FromLeOfLe(4 * v + 1, 2);
        FromLe2(c);
      } else if 0x4000 <= v < 0x4000_0000 {
        FromLeOfLe(4 * v + 2, 4);
        FromLe4(c);
      } else if v >= 0x4000_0000 {
        AtLeastFour(v);
        ByteLengthBounds(v);
        FromLeOfLe(v, ByteLength(v));
        assert c[1..] == Le(v, ByteLength(v));
      }
    }
  }

  lemma CompactFits(v: nat)
    ensures v < 0x4000_0000 ==> ByteLength(v) <= 4
  {
    if v < 0x4000_0000 {
      assert ByteLength(v / 0x100_0000) <= 1;
      assert ByteLength(v / 65536) <= 1 + ByteLength(v / 0x100_0000);
      assert ByteLength(v / 256) <= 1 + ByteLength(v / 65536);
    }
  }

  /** Eight bytes, lowest first. */
  lemma U64Bytes(v: int)
    ensures U64(v).Ok? <==> 0 <= v <= 0xFFFF_FFFF_FFFF_FFFF
    ensures U64(v).Ok? ==>
      var c := U64(v).value;
      |c| == 8 && Low4(c[0], c[1], c[2], c[3]) + 0x1_0000_0000 * Low4(c[4], c[5], c[6], c[7]) == v
  {
    if U64(v).Ok? {
      var c := U64(v).value;
      assert Pow256(8) == U64_MAX + 1 by {
        assert Pow256(4) == 0x1_0000_0000;
      }
      FromLeOfLe(v, 8);
      FromLeJoin(c[..4], c[4..]);
      FromLe4(c[..4]);
      FromLe4(c[4..]);
      assert c[..4] + c[4..] == c;
      SmallPowers();
    }
  }

  lemma {:induction false} FromLeJoin(x: bytes, y: bytes)
    ensures FromLe(x + y) == FromLe(x) + Pow256(|x|) * FromLe(y)
  {
    if x == [] {
      assert x + y == y;
    } else {
      FromLeJoin(x[1..], y);
      assert (x + y)[1..] == x[1..] + y;
      Distribute(Pow256(|x| - 1), FromLe(y));
    }
  }

  lemma Distribute(p: nat, b: nat)
    ensures 256 * (p * b) == 256 * p * b
  {}

  /** A text is its length and its bytes; a context is its size and its pairs, one after another. */
  lemma TextBytes(s: bytes, context: Context)
    ensures Text(s) == if Compact(|s|).Ok? then Ok(Compact(|s|).value + s) else Err(Compact(|s|).error)
    ensures ContextBytes(context) ==
      if Compact(|context|).Err? then Err(Compact(|context|).error)
      else if Items(context).Err? then Err(Items(context).error)
      else Ok(Compact(|context|).value + Items(context).value)
  {}

  /** Each further pair adds its key and its value; what is no pair is malformed, and the first error stands. */
  lemma ItemsInOrder(context: Context, item: seq<bytes>)
    ensures Items([]) == Ok([])
    ensures Items(context + [item]) ==
      if Items(context).Err? then Items(context)
      else if |item| != 2 then Err(MalformedContext)
      else if Text(item[0]).Err? then Text(item[0])
      else if Text(item[1]).Err? then Text(item[1])
      else Ok(Items(context).value + (Text(item[0]).value + Text(item[1]).value))
  {
    assert (context + [item])[..|context|] == context;
  }
}
