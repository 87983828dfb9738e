/** Which changes of one character of a cursor's text go unnoticed. */
module CursorChanges {
  import opened Wrappers
  import opened ByteStrings
  import opened Cursors
  import opened CursorLayout
  import Base64
  import Changes = Base64Changes

  // ---------------------------------------------------------------------------
  // The bytes
  // ---------------------------------------------------------------------------

  lemma ByteSumPair(body: bytes, body': bytes, p: nat)
    requires Changes.ChangesPair(body, body', p) && p + 1 < |body|
    ensures ByteSum(body') == ByteSum(body) - Changes.PairSum(body, p) + Changes.PairSum(body', p)
  {
    ByteSumUpdate(body, p, body'[p]);
    ByteSumUpdate(body[p := body'[p]], p + 1, body'[p + 1]);
    assert body[p := body'[p]][p + 1 := body'[p + 1]] == body';
  }

  lemma ResidueMoves(total: int, a: int, b: int)
    requires b % 256 != a % 256
    ensures (total - a + b) % 256 != total % 256
  {}

  /** What the last two bytes stand for, and what an accepted checksum says about the last one. */
  lemma LowBytesCompared(d: bytes, body: bytes)
    requires |d| >= 2 && body == d[..|d| - 2]
    ensures FromBe(d[|d| - 2..]) == Word(d[|d| - 2], d[|d| - 1])
    ensures Checksum(body) == FromBe(d[|d| - 2..]) ==> ByteSum(body) % 256 == d[|d| - 1]
  {
    assert d[|d| - 2..] == [d[|d| - 2], d[|d| - 1]];
    FromBe16(d[|d| - 2], d[|d| - 1]);
    ChecksumLowByte(body);
    LowByte(d[|d| - 2], d[|d| - 1]);
  }

  lemma LowByte(hi: byte, lo: byte)
    ensures Word(hi, lo) % 256 == lo
  {}

  /** A visible change of two neighbouring bytes breaks the checksum, wherever it falls. */
  lemma ChecksumBreaks(data: bytes, d: bytes, p: nat)
    requires |data| >= 2 && Changes.ChangesPair(data, d, p) && d != data
    requires Checksum(data[..|data| - 2]) == FromBe(data[|data| - 2..])
    ensures Checksum(d[..|d| - 2]) != FromBe(d[|d| - 2..])
  {
    var n := |data| - 2;
    var body, body' := data[..n], d[..n];
    LowBytesCompared(data, body);
    LowBytesCompared(d, body');
    if p + 1 < n {
      assert Changes.PairSum(body, p) == Changes.PairSum(data, p) && Changes.PairSum(body', p) == Changes.PairSum(d, p);
      ByteSumPair(body, body', p);
      ResidueMoves(ByteSum(body), Changes.PairSum(body, p), Changes.PairSum(d, p));
    } else if p + 1 == n && d[p] != data[p] {
      assert body' == body[p := d[p]];
      ChecksumDetects(body, p, d[p]);
      ChecksumLowByte(body);
      ChecksumLowByte(body');
    } else {
      assert body' == body;
    }
  }

  /** Such a change of a cursor's bytes is a checksum mismatch. */
  lemma PairChangeDetected(c: Cursor, d: bytes, p: nat, utf8: bytes -> bool)
    requires Changes.ChangesPair(Encode(c), d, p) && d != Encode(c)
    ensures Decode(d, utf8) == Err(CursorInvalid(ChecksumMismatch))
  {
    EncodeParts(c);
    ChecksumBreaks(Encode(c), d, p);
  }

  /** Without its last byte a cursor is refused, whatever the checksum says. */
  lemma ShortenedRejected(c: Cursor, utf8: bytes -> bool)
    requires |c.subject| < 65536
    ensures Decode(Encode(c)[..|Encode(c)| - 1], utf8).Err?
  {
    var d := Encode(c)[..|Encode(c)| - 1];
    EncodeParts(c);
    BodyLength(c);
    if |d| >= 20 {
      assert d[..|d| - 2][..2] == Body(c)[..2];
      ParseTooShort(c, d[..|d| - 2], utf8);
    }
  }

  lemma ParseTooShort(c: Cursor, rest: bytes, utf8: bytes -> bool)
    requires |rest| >= 18 && FromBe(rest[..2]) == |c.subject| && |rest| < |c.subject| + 18
    ensures Parse(rest, utf8) == Err(CursorInvalid(Truncated))
  {}

  /** With a byte added, the bytes decode to the cursor exactly when the checksum happens to fit. */
  lemma LengthenedAcceptedIff(c: Cursor, z: byte, utf8: bytes -> bool)
    requires |c.subject| < 65536 && utf8(c.subject)
    ensures var data := Encode(c);
      Decode(data + [z], utf8) ==
        if Checksum(data[..|data| - 1]) == Word(data[|data| - 1], z) then Ok(c) else Err(CursorInvalid(ChecksumMismatch))
  {
    var data := Encode(c);
    var d := data + [z];
    EncodeParts(c);
    LowBytesCompared(d, d[..|d| - 2]);
    assert d[..|d| - 2] == data[..|data| - 1];
    ParseLonger(c, data[..|data| - 1], utf8);
  }

  lemma ParseLonger(c: Cursor, rest: bytes, utf8: bytes -> bool)
    requires |c.subject| < 65536 && utf8(c.subject)
    requires |rest| >= |Body(c)| && rest[..|Body(c)|] == Body(c)
    ensures |rest| >= 18 && Parse(rest, utf8) == Ok(c)
  {
    var n := |c.subject|;
    BodyLength(c);
    BodyParts(c);
    ParseBody(c, utf8);
    assert rest[..2] == Body(c)[..2] && rest[2..2 + n] == Body(c)[2..2 + n];
    assert rest[2 + n..10 + n] == Body(c)[2 + n..10 + n] && rest[10 + n..18 + n] == Body(c)[10 + n..18 + n];
  }

  // ---------------------------------------------------------------------------
  // The text
  // ---------------------------------------------------------------------------

  /** The character `x` goes unnoticed in place of the i-th one of the text of `data`, whose symbols are `s`. */
  predicate Unnoticed(data: bytes, s: bytes, i: nat, x: byte)
    requires data != []
  {
    var n := |s|;
    if i < n && Base64.Value(x).Some? then
      // another symbol: in the last place, and only dropped bits differ
      Changes.SameKeptBits(n, i, Base64.ValueAt(s, i), Base64.ValueAt([x], 0))
    else if i < n && x == Base64.PAD then
      // the second symbol of the last chunk padded away, and the bits it kept were zero
      i + 1 == n && n % 4 == 2 && Base64.ValueAt(s, i) < 16
    else if i == n && Base64.Value(x).Some? then
      // a symbol in the first padding place adds a byte, and the checksum happens to fit
      Checksum(data[..|data| - 1]) == Word(data[|data| - 1], Changes.AddedByte(n, Base64.ValueAt([x], 0)))
    else false
  }

  lemma TextShape(c: Cursor)
    ensures Encode(c) != [] && Changes.TextOf(EncodeString(c), Base64.Unpadded(Encode(c)), Encode(c))
    ensures Base64.Decode(EncodeString(c)) == Some(Encode(c))
  {
    EncodeParts(c);
    Changes.EncodeIsText(Encode(c));
    Base64.RoundTrip(Encode(c));
  }

  /** Another symbol of the alphabet: the result is as before, or a checksum mismatch. */
  lemma SymbolExchanged(c: Cursor, i: nat, x: byte, utf8: bytes -> bool)
    requires i < |Base64.Unpadded(Encode(c))| <= |EncodeString(c)| && Base64.Value(x).Some? && x != EncodeString(c)[i]
    ensures var s := Base64.Unpadded(Encode(c));
      DecodeString(EncodeString(c)[i := x], utf8) ==
        if Changes.SameKeptBits(|s|, i, Base64.ValueAt(s, i), Base64.ValueAt([x], 0)) then DecodeString(EncodeString(c), utf8)
        else Err(CursorInvalid(ChecksumMismatch))
  {
    var data := Encode(c);
    TextShape(c);
    Changes.SymbolExchanged(EncodeString(c), Base64.Unpadded(data), data, i, x);
    var d := Base64.Decode(EncodeString(c)[i := x]).value;
    if d != data {
      PairChangeDetected(c, d, Changes.Place(i), utf8);
    }
  }

  /** Padding in the last symbol's place. */
  lemma LastPaddedAway(c: Cursor, utf8: bytes -> bool)
    requires |c.subject| < 65536 && utf8(c.subject)
    requires 0 < |Base64.Unpadded(Encode(c))| <= |EncodeString(c)|
    ensures var s := Base64.Unpadded(Encode(c));
      var r := DecodeString(EncodeString(c)[|s| - 1 := Base64.PAD], utf8);
      (r == Ok(c) <==> |s| % 4 == 2 && Base64.ValueAt(s, |s| - 1) < 16) && (r == Ok(c) || r.Err?)
  {
    var data := Encode(c);
    var s := Base64.Unpadded(data);
    TextShape(c);
    Changes.LastPaddedAway(EncodeString(c), s, data);
    var d := Base64.Decode(EncodeString(c)[|s| - 1 := Base64.PAD]).value;
    if |s| % 4 != 2 {
      ShortenedRejected(c, utf8);
    } else if Base64.ValueAt(s, |s| - 1) < 16 {
      assert d == data;
      RoundTripIff(c, utf8);
    } else {
      OneByteChangeDetected(c, |data| - 1, d[|data| - 1], utf8);
    }
  }

  /** A symbol in the first padding place. */
  lemma PaddingReplaced(c: Cursor, x: byte, utf8: bytes -> bool)
    requires |c.subject| < 65536 && utf8(c.subject)
    requires |Base64.Unpadded(Encode(c))| < |EncodeString(c)| && Base64.Value(x).Some?
    ensures var data := Encode(c);
      var n := |Base64.Unpadded(data)|;
      DecodeString(EncodeString(c)[n := x], utf8) ==
        if Checksum(data[..|data| - 1]) == Word(data[|data| - 1], Changes.AddedByte(n, Base64.ValueAt([x], 0))) then Ok(c)
        else Err(CursorInvalid(ChecksumMismatch))
  {
    var data := Encode(c);
    var s := Base64.Unpadded(data);
    TextShape(c);
    Changes.PaddingReplaced(EncodeString(c), s, data, x);
    LengthenedAcceptedIff(c, Changes.AddedByte(|s|, Base64.ValueAt([x], 0)), utf8);
  }

  /** A foreign character, or one behind padding. */
  lemma ForeignRefused(c: Cursor, i: nat, x: byte, utf8: bytes -> bool)
    requires i < |EncodeString(c)| && x != EncodeString(c)[i]
    requires Base64.Value(x).None? || i > |Base64.Unpadded(Encode(c))|
    requires x == Base64.PAD ==> i + 1 != |Base64.Unpadded(Encode(c))|
    ensures DecodeString(EncodeString(c)[i := x], utf8) == Err(CursorInvalid(BadBase64))
  {
    TextShape(c);
    Changes.ForeignRefused(EncodeString(c), Base64.Unpadded(Encode(c)), Encode(c), i, x);
  }

  /** What the change leads to: the same cursor exactly if it goes unnoticed, and else an error. */
  predicate Judged(c: Cursor, i: nat, x: byte, utf8: bytes -> bool)
    requires i < |EncodeString(c)| && Encode(c) != []
  {
    var r := DecodeString(EncodeString(c)[i := x], utf8);
    (r == Ok(c) <==> Unnoticed(Encode(c), Base64.Unpadded(Encode(c)), i, x)) && (r == Ok(c) || r.Err?)
  }

  lemma SymbolJudged(c: Cursor, i: nat, x: byte, utf8: bytes -> bool)
    requires |c.subject| < 65536 && utf8(c.subject) && i < |EncodeString(c)| && x != EncodeString(c)[i]
    requires Base64.Value(x).Some? && Encode(c) != []
    ensures Judged(c, i, x, utf8)
  {
    var n := |Base64.Unpadded(Encode(c))|;
    TextShape(c);
    if i < n {
      SymbolExchanged(c, i, x, utf8);
      StringRoundTripIff(c, utf8);
    } else if i == n {
      PaddingReplaced(c, x, utf8);
    } else {
      ForeignRefused(c, i, x, utf8);
    }
  }

  lemma OtherJudged(c: Cursor, i: nat, x: byte, utf8: bytes -> bool)
    requires |c.subject| < 65536 && utf8(c.subject) && i < |EncodeString(c)| && x != EncodeString(c)[i]
    requires Base64.Value(x).None? && Encode(c) != []
    ensures Judged(c, i, x, utf8)
  {
    TextShape(c);
    if x == Base64.PAD && i + 1 == |Base64.Unpadded(Encode(c))| {
      LastPaddedAway(c, utf8);
    } else {
      ForeignRefused(c, i, x, utf8);
    }
  }

  /**
   * Of all changes of one character of a cursor's text, exactly those described
   * above leave the decoded cursor as it was; every other one is refused.
   */
  lemma OneCharacterUnnoticedIff(c: Cursor, i: nat, x: byte, utf8: bytes -> bool)
    requires |c.subject| < 65536 && utf8(c.subject)
    requires i < |EncodeString(c)| && x != EncodeString(c)[i]
    ensures Encode(c) != []
    ensures Judged(c, i, x, utf8)
  {
    TextShape(c);
    if Base64.Value(x).Some? {
      SymbolJudged(c, i, x, utf8);
    } else {
      OtherJudged(c, i, x, utf8);
    }
  }
}
