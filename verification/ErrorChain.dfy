/** The off-chain verifier of a property token's error log. */
module ErrorChain {
  import opened Wrappers
  import opened ByteStrings
  import opened Digests
  import opened Scale

  /** One exported entry. Digests are the bytes behind their hexadecimal text, so they can have any length. */
  datatype Entry = Entry(
    logId: int,
    account: bytes,
    errorCode: bytes,
    message: bytes,
    timestamp: int,
    context: Context,
    prevHash: bytes,
    entryHash: bytes,
    stateRoot: Option<bytes>
  )

  /** The bytes hashed for an entry: its own hash and its state root are not part of them. */
  function Payload(e: Entry): Encoded {
    Then(U64(e.logId), Then(Fixed32(e.account), Then(Text(e.errorCode), Then(Text(e.message),
      Then(U64(e.timestamp), Then(ContextBytes(e.context), Fixed32(e.prevHash)))))))
  }

  predicate SamePayloadFields(x: Entry, y: Entry) {
    && x.logId == y.logId && x.account == y.account
    && x.errorCode == y.errorCode && x.message == y.message
    && x.timestamp == y.timestamp && x.context == y.context && x.prevHash == y.prevHash
  }

  /** The tail of a payload from the error code on. */
  function PayloadTail(e: Entry): Encoded {
    Then(Text(e.errorCode), Then(Text(e.message), Then(U64(e.timestamp), Then(ContextBytes(e.context), Fixed32(e.prevHash)))))
  }

  lemma PayloadEndInjective(x: Entry, y: Entry)
    requires Then(U64(x.timestamp), Then(ContextBytes(x.context), Fixed32(x.prevHash))).Ok?
    requires Then(U64(x.timestamp), Then(ContextBytes(x.context), Fixed32(x.prevHash)))
          == Then(U64(y.timestamp), Then(ContextBytes(y.context), Fixed32(y.prevHash)))
    ensures x.timestamp == y.timestamp && x.context == y.context && x.prevHash == y.prevHash
  {
    var a, b := Then(ContextBytes(x.context), Fixed32(x.prevHash)), Then(ContextBytes(y.context), Fixed32(y.prevHash));
    U64PrefixFree(x.timestamp, a.value, y.timestamp, b.value);
    ContextPrefixFree(x.context, x.prevHash, y.context, y.prevHash);
  }

  lemma PayloadTailInjective(x: Entry, y: Entry)
    requires PayloadTail(x).Ok? && PayloadTail(x) == PayloadTail(y)
    ensures x.errorCode == y.errorCode && x.message == y.message
    ensures x.timestamp == y.timestamp && x.context == y.context && x.prevHash == y.prevHash
  {
    var c := Then(U64(x.timestamp), Then(ContextBytes(x.context), Fixed32(x.prevHash)));
    var d := Then(U64(y.timestamp), Then(ContextBytes(y.context), Fixed32(y.prevHash)));
    var a, b := Then(Text(x.message), c), Then(Text(y.message), d);
    TextPrefixFree(x.errorCode, a.value, y.errorCode, b.value);
    TextPrefixFree(x.message, c.value, y.message, d.value);
    PayloadEndInjective(x, y);
  }

  /** Entries with the same payload agree in every hashed field. */
  lemma PayloadInjective(x: Entry, y: Entry)
    requires Payload(x).Ok? && Payload(x) == Payload(y)
    ensures SamePayloadFields(x, y)
  {
    var a, b := PayloadTail(x), PayloadTail(y);
    U64PrefixFree(x.logId, Then(Fixed32(x.account), a).value, y.logId, Then(Fixed32(y.account), b).value);
    SplitAt(x.account, a.value, y.account, b.value);
    PayloadTailInjective(x, y);
  }

  /** The payload holds the fields in this order, the account and the predecessor's digest as 32 raw bytes. */
  lemma PayloadLayout(e: Entry)
    ensures Payload(e).Ok? <==>
      && U64(e.logId).Ok? && |e.account| == 32 && Text(e.errorCode).Ok? && Text(e.message).Ok?
      && U64(e.timestamp).Ok? && ContextBytes(e.context).Ok? && |e.prevHash| == 32
    ensures Payload(e).Ok? ==>
      Payload(e).value == U64(e.logId).value + e.account + Text(e.errorCode).value + Text(e.message).value
                          + U64(e.timestamp).value + ContextBytes(e.context).value + e.prevHash
  {
    if Payload(e).Ok? {
      var tail := PayloadTail(e).value;
      assert tail == Text(e.errorCode).value + Text(e.message).value + U64(e.timestamp).value
                     + ContextBytes(e.context).value + e.prevHash;
      assert Payload(e).value == U64(e.logId).value + (e.account + tail);
    }
  }

  // ---------------------------------------------------------------------------
  // Verification
  // ---------------------------------------------------------------------------

  /** The first loop, from the entry whose predecessor has the digest `prev`. */
  function CheckLinks(entries: seq<Entry>, prev: bytes, h: Hash): Result<bool, EncodeError> {
    if entries == [] then Ok(true)
    else
      var e := entries[0];
      if |e.prevHash| != 32 then Err(NotThirtyTwoBytes)
      else if e.prevHash != prev then Ok(false)
      else
        match Payload(e)
        case Err(error) => Err(error)
        case Ok(payload) =>
          if |e.entryHash| != 32 then Err(NotThirtyTwoBytes)
          else if e.entryHash != h(payload) then Ok(false)
          else CheckLinks(entries[1..], e.entryHash, h)
  }

  /** The second loop, after a prefix with the accumulated root `root`. */
  function CheckRoots(entries: seq<Entry>, root: Digest, h: Hash): Result<bool, EncodeError> {
    if entries == [] then Ok(true)
    else
      var e := entries[0];
      if |e.entryHash| != 32 then Err(NotThirtyTwoBytes)
      else
        var next := h(root + e.entryHash);
        if e.stateRoot.None? then CheckRoots(entries[1..], next, h)
        else if |e.stateRoot.value| != 32 then Err(NotThirtyTwoBytes)
        else if e.stateRoot.value != next then Ok(false)
        else CheckRoots(entries[1..], next, h)
  }

  method VerifyEntries(entries: seq<Entry>, h: Hash) returns (ok: Result<bool, EncodeError>)
    ensures ok == (if CheckLinks(entries, ZERO, h) == Ok(true) then CheckRoots(entries, ZERO, h) else CheckLinks(entries, ZERO, h))
  {
    var previous: bytes := ZERO;
    assert entries[0..] == entries;
    for i := 0 to |entries|
      invariant CheckLinks(entries, ZERO, h) == CheckLinks(entries[i..], previous, h)
    {
      var e := entries[i];
      assert entries[i..][0] == e && entries[i..][1..] == entries[i + 1..];
      if |e.prevHash| != 32 {
        return Err(NotThirtyTwoBytes);
      }
      if e.prevHash != previous {
        return Ok(false);
      }
      var payload := Payload(e);
      if payload.Err? {
        return Err(payload.error);
      }
      if |e.entryHash| != 32 {
        return Err(NotThirtyTwoBytes);
      }
      if e.entryHash != h(payload.value) {
        return Ok(false);
      }
      previous := e.entryHash;
    }
    assert entries[|entries|..] == [];
    var root := ZERO;
    for i := 0 to |entries|
      invariant CheckRoots(entries, ZERO, h) == CheckRoots(entries[i..], root, h)
    {
      var e := entries[i];
      assert entries[i..][0] == e && entries[i..][1..] == entries[i + 1..];
      if |e.entryHash| != 32 {
        return Err(NotThirtyTwoBytes);
      }
      root := h(root + e.entryHash);
      if e.stateRoot.Some? {
        if |e.stateRoot.value| != 32 {
          return Err(NotThirtyTwoBytes);
        }
        if e.stateRoot.value != root {
          return Ok(false);
        }
      }
    }
    return Ok(true);
  }

  predicate Verified(entries: seq<Entry>, h: Hash) {
    CheckLinks(entries, ZERO, h) == Ok(true) && CheckRoots(entries, ZERO, h) == Ok(true)
  }

  /** The root accumulated from `seed` over a list of entry digests. */
  function StateRoot(seed: Digest, hashes: seq<Digest>, h: Hash): Digest {
    if hashes == [] then seed else h(StateRoot(seed, hashes[..|hashes| - 1], h) + hashes[|hashes| - 1])
  }

  method ComputeStateRoot(hashes: seq<Digest>, h: Hash) returns (root: Digest)
    ensures root == StateRoot(ZERO, hashes, h)
  {
    root := ZERO;
    for i := 0 to |hashes|
      invariant root == StateRoot(ZERO, hashes[..i], h)
    {
      assert hashes[..i + 1][..i] == hashes[..i];
      root := h(root + hashes[i]);
    }
    assert hashes[..|hashes|] == hashes;
  }

  lemma {:induction false} StateRootFront(seed: Digest, hashes: seq<Digest>, h: Hash)
    requires hashes != []
    ensures StateRoot(seed, hashes, h) == StateRoot(h(seed + hashes[0]), hashes[1..], h)
    decreases |hashes|
  {
    var n := |hashes| - 1;
    if n > 0 {
      StateRootFront(seed, hashes[..n], h);
      assert hashes[..n][1..] == hashes[1..][..n - 1];
    }
  }

  // ---------------------------------------------------------------------------
  // What a verified log says
  // ---------------------------------------------------------------------------

  /** Entry i names its predecessor's digest and carries the digest of its own payload. */
  predicate LinkedAt(entries: seq<Entry>, prev: bytes, i: nat, h: Hash)
    requires i < |entries|
  {
    && entries[i].prevHash == (if i == 0 then prev else entries[i - 1].entryHash)
    && Payload(entries[i]).Ok?
    && entries[i].entryHash == h(Payload(entries[i]).value)
  }

  lemma {:induction false} LinksAt(entries: seq<Entry>, prev: bytes, i: nat, h: Hash)
    requires i < |entries| && CheckLinks(entries, prev, h) == Ok(true)
    ensures LinkedAt(entries, prev, i, h)
  {
    if i > 0 {
      LinksAt(entries[1..], entries[0].entryHash, i - 1, h);
    }
  }

  lemma PayloadNeedsDigest(e: Entry)
    requires Payload(e).Ok?
    ensures |e.prevHash| == 32
  {}

  lemma {:induction false} LinksSuffice(entries: seq<Entry>, prev: bytes, h: Hash)
    requires forall i: nat :: i < |entries| ==> LinkedAt(entries, prev, i, h)
    ensures CheckLinks(entries, prev, h) == Ok(true)
  {
    if entries != [] {
      assert LinkedAt(entries, prev, 0, h);
      PayloadNeedsDigest(entries[0]);
      forall i: nat | i < |entries| - 1 ensures LinkedAt(entries[1..], entries[0].entryHash, i, h) {
        assert LinkedAt(entries, prev, i + 1, h);
      }
      LinksSuffice(entries[1..], entries[0].entryHash, h);
    }
  }

  predicate Digested(entries: seq<Entry>) {
    forall i :: 0 <= i < |entries| ==> |entries[i].entryHash| == 32
  }

  function Hashes(entries: seq<Entry>): (hashes: seq<Digest>)
    requires Digested(entries)
    ensures |hashes| == |entries|
    ensures forall i :: 0 <= i < |entries| ==> hashes[i] == entries[i].entryHash
  {
    if entries == [] then [] else [entries[0].entryHash] + Hashes(entries[1..])
  }

  /** A state root, where given, is the one accumulated up to and including its entry. */
  predicate RootedAt(entries: seq<Entry>, seed: Digest, i: nat, h: Hash)
    requires i < |entries| && Digested(entries)
  {
    entries[i].stateRoot.Some? ==> entries[i].stateRoot.value == StateRoot(seed, Hashes(entries)[..i + 1], h)
  }

  lemma RootedTail(entries: seq<Entry>, seed: Digest, i: nat, h: Hash)
    requires i + 1 < |entries| && Digested(entries)
    ensures RootedAt(entries[1..], h(seed + entries[0].entryHash), i, h) <==> RootedAt(entries, seed, i + 1, h)
  {
    var hashes := Hashes(entries)[..i + 2];
    StateRootFront(seed, hashes, h);
    assert hashes[1..] == Hashes(entries[1..])[..i + 1];
  }

  lemma RootedHead(entries: seq<Entry>, seed: Digest, h: Hash)
    requires entries != [] && Digested(entries)
    ensures StateRoot(seed, Hashes(entries)[..1], h) == h(seed + entries[0].entryHash)
  {
    StateRootFront(seed, Hashes(entries)[..1], h);
  }

  lemma {:induction false} RootsAt(entries: seq<Entry>, seed: Digest, i: nat, h: Hash)
    requires i < |entries| && Digested(entries) && CheckRoots(entries, seed, h) == Ok(true)
    ensures RootedAt(entries, seed, i, h)
  {
    if i == 0 {
      RootedHead(entries, seed, h);
    } else {
      RootsAt(entries[1..], h(seed + entries[0].entryHash), i - 1, h);
      RootedTail(entries, seed, i - 1, h);
    }
  }

  lemma {:induction false} RootsSuffice(entries: seq<Entry>, seed: Digest, h: Hash)
    requires Digested(entries) && forall i: nat :: i < |entries| ==> RootedAt(entries, seed, i, h)
    ensures CheckRoots(entries, seed, h) == Ok(true)
  {
    if entries != [] {
      assert RootedAt(entries, seed, 0, h);
      RootedHead(entries, seed, h);
      forall i: nat | i < |entries| - 1 ensures RootedAt(entries[1..], h(seed + entries[0].entryHash), i, h) {
        assert RootedAt(entries, seed, i + 1, h);
        RootedTail(entries, seed, i, h);
      }
      RootsSuffice(entries[1..], h(seed + entries[0].entryHash), h);
    }
  }

  lemma LinkedDigested(entries: seq<Entry>, h: Hash)
    requires forall i: nat :: i < |entries| ==> LinkedAt(entries, ZERO, i, h)
    ensures Digested(entries)
  {
    forall i | 0 <= i < |entries| ensures |entries[i].entryHash| == 32 {
      assert LinkedAt(entries, ZERO, i, h);
    }
  }

  predicate AllLinked(entries: seq<Entry>, h: Hash) {
    Digested(entries) && forall i: nat :: i < |entries| ==> LinkedAt(entries, ZERO, i, h)
  }

  ghost predicate Consistent(entries: seq<Entry>, h: Hash) {
    && AllLinked(entries, h)
    && (forall i: nat :: i < |entries| ==> RootedAt(entries, ZERO, i, h))
  }

  /** The verifier accepts exactly the logs whose every link, digest and state root is right. */
  lemma VerifiedIffConsistent(entries: seq<Entry>, h: Hash)
    ensures Verified(entries, h) <==> Consistent(entries, h)
  {
    if Verified(entries, h) {
      forall i: nat | i < |entries| ensures LinkedAt(entries, ZERO, i, h) {
        LinksAt(entries, ZERO, i, h);
      }
      LinkedDigested(entries, h);
      forall i: nat | i < |entries| ensures RootedAt(entries, ZERO, i, h) {
        RootsAt(entries, ZERO, i, h);
      }
    }
    if Consistent(entries, h) {
      LinksSuffice(entries, ZERO, h);
      RootsSuffice(entries, ZERO, h);
    }
  }

  /** The verdict of the first loop at the first entry that is not as it should be. */
  lemma {:induction false} LinksVerdict(entries: seq<Entry>, prev: bytes, i: nat, h: Hash)
    requires i < |entries| && !LinkedAt(entries, prev, i, h)
    requires forall j: nat :: j < i ==> LinkedAt(entries, prev, j, h)
    ensures var e := entries[i];
      CheckLinks(entries, prev, h) ==
        if |e.prevHash| != 32 then Err(NotThirtyTwoBytes)
        else if e.prevHash != (if i == 0 then prev else entries[i - 1].entryHash) then Ok(false)
        else if Payload(e).Err? then Err(Payload(e).error)
        else if |e.entryHash| != 32 then Err(NotThirtyTwoBytes)
        else Ok(false)
  {
    if i > 0 {
      assert LinkedAt(entries, prev, 0, h);
      PayloadNeedsDigest(entries[0]);
      forall j: nat | j < i - 1 ensures LinkedAt(entries[1..], entries[0].entryHash, j, h) {
        assert LinkedAt(entries, prev, j + 1, h);
      }
      LinksVerdict(entries[1..], entries[0].entryHash, i - 1, h);
    }
  }

  /** The verdict of the second loop at the first state root that is not the accumulated one. */
  lemma {:induction false} RootsVerdict(entries: seq<Entry>, seed: Digest, i: nat, h: Hash)
    requires i < |entries| && Digested(entries) && !RootedAt(entries, seed, i, h)
    requires forall j: nat :: j < i ==> RootedAt(entries, seed, j, h)
    ensures entries[i].stateRoot.Some?
    ensures CheckRoots(entries, seed, h) == if |entries[i].stateRoot.value| != 32 then Err(NotThirtyTwoBytes) else Ok(false)
  {
    RootedHead(entries, seed, h);
    if i > 0 {
      assert RootedAt(entries, seed, 0, h);
      RootedTail(entries, seed, i - 1, h);
      forall j: nat | j < i - 1 ensures RootedAt(entries[1..], h(seed + entries[0].entryHash), j, h) {
        assert RootedAt(entries, seed, j + 1, h);
        RootedTail(entries, seed, j, h);
      }
      RootsVerdict(entries[1..], h(seed + entries[0].entryHash), i - 1, h);
    }
  }

  // ---------------------------------------------------------------------------
  // Binding
  // ---------------------------------------------------------------------------

  predicate NoZeroIn(inputs: set<bytes>, h: Hash) {
    forall a :: a in inputs ==> h(a) != ZERO
  }

  function RootInput(hashes: seq<Digest>, i: nat, h: Hash): bytes
    requires i < |hashes|
  {
    StateRoot(ZERO, hashes[..i], h) + hashes[i]
  }

  /** Every byte string hashed while the root of the digests is computed. */
  function RootInputs(hashes: seq<Digest>, h: Hash): set<bytes> {
    set i: nat | i < |hashes| :: RootInput(hashes, i, h)
  }

  /** Every payload hashed while the log is verified. */
  function Payloads(entries: seq<Entry>): set<bytes> {
    set e | e in entries && Payload(e).Ok? :: Payload(e).value
  }

  lemma RootInputsPrefix(hashes: seq<Digest>, h: Hash)
    requires hashes != []
    ensures RootInputs(hashes[..|hashes| - 1], h) <= RootInputs(hashes, h)
  {
    var n := |hashes| - 1;
    forall i: nat | i < n ensures RootInput(hashes[..n], i, h) in RootInputs(hashes, h) {
      assert hashes[..n][..i] == hashes[..i];
      assert RootInput(hashes[..n], i, h) == RootInput(hashes, i, h);
    }
  }

  lemma LastRootInput(hashes: seq<Digest>, h: Hash)
    requires hashes != []
    ensures StateRoot(ZERO, hashes, h) == h(RootInput(hashes, |hashes| - 1, h))
    ensures RootInput(hashes, |hashes| - 1, h) in RootInputs(hashes, h)
  {}

  lemma LastAppended(x: seq<Digest>)
    requires x != []
    ensures x == x[..|x| - 1] + [x[|x| - 1]]
  {}

  lemma OnlyEmptyIsZero(x: seq<Digest>, inputs: set<bytes>, h: Hash)
    requires RootInputs(x, h) <= inputs && NoZeroIn(inputs, h)
    ensures StateRoot(ZERO, x, h) == ZERO <==> x == []
  {
    if x != [] {
      LastRootInput(x, h);
    }
  }

  lemma LastBinds(x: seq<Digest>, y: seq<Digest>, inputs: set<bytes>, h: Hash)
    requires x != [] && y != []
    requires RootInputs(x, h) <= inputs && RootInputs(y, h) <= inputs && NoCollisionIn(inputs, h)
    requires StateRoot(ZERO, x, h) == StateRoot(ZERO, y, h)
    ensures var m, n := |x| - 1, |y| - 1;
      StateRoot(ZERO, x[..m], h) == StateRoot(ZERO, y[..n], h) && x[m] == y[n]
  {
    var m, n := |x| - 1, |y| - 1;
    LastRootInput(x, h);
    LastRootInput(y, h);
    SplitAt(StateRoot(ZERO, x[..m], h), x[m], StateRoot(ZERO, y[..n], h), y[n]);
  }

  /** Digest lists with the same root are equal, given equal lengths or no digest of all zeros. */
  lemma {:induction false} RootBindsHashes(x: seq<Digest>, y: seq<Digest>, inputs: set<bytes>, h: Hash)
    requires RootInputs(x, h) <= inputs && RootInputs(y, h) <= inputs && NoCollisionIn(inputs, h)
    requires StateRoot(ZERO, x, h) == StateRoot(ZERO, y, h)
    requires |x| == |y| || NoZeroIn(inputs, h)
    ensures x == y
    decreases |x|
  {
    if x != [] && y != [] {
      var m, n := |x| - 1, |y| - 1;
      LastBinds(x, y, inputs, h);
      RootInputsPrefix(x, h);
      RootInputsPrefix(y, h);
      RootBindsHashes(x[..m], y[..n], inputs, h);
      LastAppended(x);
      LastAppended(y);
    } else if NoZeroIn(inputs, h) {
      OnlyEmptyIsZero(x, inputs, h);
      OnlyEmptyIsZero(y, inputs, h);
    }
  }

  function Inputs(entries: seq<Entry>, h: Hash): set<bytes>
    requires Digested(entries)
  {
    RootInputs(Hashes(entries), h) + Payloads(entries)
  }

  /**
   * Two logs with verified links and the same final root hold the same entries:
   * no field of any entry can differ unless two of the byte strings hashed
   * collide. The lengths agree too, or one digest is all zeros.
   */
  lemma RootBindsLog(a: seq<Entry>, b: seq<Entry>, inputs: set<bytes>, h: Hash)
    requires AllLinked(a, h) && AllLinked(b, h)
    requires Inputs(a, h) <= inputs && Inputs(b, h) <= inputs && NoCollisionIn(inputs, h)
    requires |a| == |b| || NoZeroIn(inputs, h)
    requires StateRoot(ZERO, Hashes(a), h) == StateRoot(ZERO, Hashes(b), h)
    ensures |a| == |b|
    ensures forall i :: 0 <= i < |a| ==> a[i].(stateRoot := None) == b[i].(stateRoot := None)
  {
    RootBindsHashes(Hashes(a), Hashes(b), inputs, h);
    forall i | 0 <= i < |a| ensures a[i].(stateRoot := None) == b[i].(stateRoot := None) {
      assert LinkedAt(a, ZERO, i, h) && LinkedAt(b, ZERO, i, h);
      assert Hashes(a)[i] == Hashes(b)[i];
      assert Payload(a[i]).value in inputs && Payload(b[i]).value in inputs;
      PayloadInjective(a[i], b[i]);
    }
  }

  // ---------------------------------------------------------------------------
  // Logs that the contract writes
  // ---------------------------------------------------------------------------

  /** The entry with its chain fields filled in after a log with last digest `prev` and root `root`. */
  function Seal(e: Entry, prev: Digest, root: Digest, h: Hash): Entry
    requires Payload(e.(prevHash := prev)).Ok?
  {
    var digest := h(Payload(e.(prevHash := prev)).value);
    e.(prevHash := prev, entryHash := digest, stateRoot := Some(h(root + digest)))
  }

  lemma PayloadOkForAnyDigest(e: Entry, prev: Digest)
    requires Payload(e.(prevHash := ZERO)).Ok?
    ensures Payload(e.(prevHash := prev)).Ok?
  {}

  function SealAll(entries: seq<Entry>, prev: Digest, root: Digest, h: Hash): seq<Entry>
    requires forall i :: 0 <= i < |entries| ==> Payload(entries[i].(prevHash := ZERO)).Ok?
  {
    if entries == [] then []
    else
      PayloadOkForAnyDigest(entries[0], prev);
      var e := Seal(entries[0], prev, root, h);
      [e] + SealAll(entries[1..], e.entryHash, e.stateRoot.value, h)
  }

  /** Every log whose chain fields are filled in one entry after another is accepted. */
  lemma {:induction false} SealedLogVerifies(entries: seq<Entry>, prev: Digest, root: Digest, h: Hash)
    requires forall i :: 0 <= i < |entries| ==> Payload(entries[i].(prevHash := ZERO)).Ok?
    ensures CheckLinks(SealAll(entries, prev, root, h), prev, h) == Ok(true)
    ensures CheckRoots(SealAll(entries, prev, root, h), root, h) == Ok(true)
  {
    if entries != [] {
      PayloadOkForAnyDigest(entries[0], prev);
      var e := Seal(entries[0], prev, root, h);
      SealedLogVerifies(entries[1..], e.entryHash, e.stateRoot.value, h);
      SealedPayload(entries[0], prev, root, h);
      var sealed := SealAll(entries, prev, root, h);
      assert sealed[0] == e && sealed[1..] == SealAll(entries[1..], e.entryHash, e.stateRoot.value, h);
    }
  }

  lemma SealedPayload(e: Entry, prev: Digest, root: Digest, h: Hash)
    requires Payload(e.(prevHash := prev)).Ok?
    ensures Payload(Seal(e, prev, root, h)) == Payload(e.(prevHash := prev))
  {}
}
