/** The events service's proof over recorded chain hashes, with an optional anchored root. */
module EventProofs {
  import opened Wrappers
  import opened MerkleTrees
  import opened MerkleProofs
  import opened LeaderboardProofs

  datatype Entry = Entry(chainHash: Option<string>, stateRoot: Option<string>)

  datatype EventProof = EventProof(leaf: string, proof: seq<string>, root: string, verified: bool, leafIndex: nat)

  /** The chain hashes that are present and not empty. */
  function ChainHashes(entries: seq<Entry>): (leaves: seq<string>)
    ensures |leaves| <= |entries|
    ensures forall i :: 0 <= i < |leaves| ==> leaves[i] != ""
  {
    if entries == [] then []
    else
      var rest := ChainHashes(entries[1..]);
      if entries[0].chainHash.Some? && entries[0].chainHash.value != "" then [entries[0].chainHash.value] + rest else rest
  }

  /** The state root of the entry at the index, else of the first entry; the index counts unfiltered entries here. */
  function Anchored(entries: seq<Entry>, index: nat): Option<string>
    requires index < |entries|
  {
    if entries[index].stateRoot.Some? then entries[index].stateRoot else entries[0].stateRoot
  }

  /** The leaves are the recorded chain hashes in order: each further entry adds its own, if it has one. */
  lemma {:induction false} ChainHashesInOrder(entries: seq<Entry>, e: Entry)
    ensures ChainHashes([]) == []
    ensures ChainHashes(entries + [e])
      == ChainHashes(entries) + (if e.chainHash == None || e.chainHash == Some("") then [] else [e.chainHash.value])
  {
    if entries == [] {
      assert entries + [e] == [e] && [e][1..] == [];
    } else {
      ChainHashesInOrder(entries[1..], e);
      assert (entries + [e])[1..] == entries[1..] + [e];
    }
  }

  /** The anchor is the entry's own state root, else the first entry's, else none. */
  lemma AnchorChoice(entries: seq<Entry>, index: nat, root: string)
    requires index < |entries|
    ensures Anchored(entries, index) == Some(root) <==>
      entries[index].stateRoot == Some(root) || (entries[index].stateRoot == None && entries[0].stateRoot == Some(root))
  {}

  /** Builds the next level and records the sibling met on the way. */
  method LevelWithSibling(level: seq<string>, currentIndex: nat, h: Hash) returns (next: seq<string>, sibling: string)
    requires currentIndex < |level| && |level| > 1
    ensures next == Up(level, Node(h))
    ensures sibling == Sibling(level, currentIndex)
  {
    next := [];
    var pushed: seq<string> := [];
    var i := 0;
    while i < |level|
      invariant 0 <= i <= |level| + 1 && i % 2 == 0
      invariant |next| == i / 2 && i / 2 <= |Up(level, Node(h))|
      invariant forall k :: 0 <= k < |next| ==> next[k] == Up(level, Node(h))[k]
      invariant pushed == if currentIndex < i then [Sibling(level, currentIndex)] else []
    {
      var left := level[i];
      var right := if i + 1 < |level| then level[i + 1] else left;
      assert 2 * (i / 2) == i && right == RightOf(level, i / 2);
      next := next + [Node(h)(left, right)];
      if i == currentIndex || i + 1 == currentIndex {
        var siblingIndex := if currentIndex % 2 == 0 then currentIndex + 1 else currentIndex - 1;
        pushed := pushed + [if siblingIndex < |level| then level[siblingIndex] else left];
      }
      i := i + 2;
    }
    sibling := pushed[0];
  }

  method BuildMerkleProof(index: int, entries: seq<Entry>, h: Hash) returns (result: Option<EventProof>)
    ensures result.None? <==> index < 0 || index >= |ChainHashes(entries)|
    ensures result.Some? ==>
      var leaves, anchored := ChainHashes(entries), Anchored(entries, index);
      var computed := Root(Hashed(leaves, h), Node(h));
      result.value == EventProof(leaves[index], Path(Hashed(leaves, h), index, Node(h)),
                                 if anchored.Some? then anchored.value else computed,
                                 anchored.None? || anchored.value == computed, index)
  {
    var leaves := ChainHashes(entries);
    if |leaves| == 0 || index < 0 || index >= |leaves| {
      return None;
    }
    var proof: seq<string> := [];
    var level := Hashed(leaves, h);
    var currentIndex: nat := index;
    while |level| > 1
      invariant level != [] && Root(Hashed(leaves, h), Node(h)) == Root(level, Node(h))
      invariant currentIndex < |level|
      invariant Path(Hashed(leaves, h), index, Node(h)) == proof + Path(level, currentIndex, Node(h))
      decreases |level|
    {
      PathUp(level, currentIndex, proof, h);
      var next, sibling := LevelWithSibling(level, currentIndex, h);
      proof := proof + [sibling];
      currentIndex := currentIndex / 2;
      level := next;
    }
    assert proof + [] == proof;
    var anchored := Anchored(entries, index);
    return Some(EventProof(leaves[index], proof, if anchored.Some? then anchored.value else level[0],
                           anchored.None? || anchored.value == level[0], index));
  }

  /** A result that reports itself verified is accepted by the verifiers; the raw leaf is returned here. */
  lemma VerifiedResultAccepted(entries: seq<Entry>, index: nat, h: Hash)
    requires index < |ChainHashes(entries)| && CollisionFree(h)
    ensures var leaves, anchored := ChainHashes(entries), Anchored(entries, index);
      var computed := Root(Hashed(leaves, h), Node(h));
      anchored.None? || anchored.value == computed ==>
        Accepts(leaves[index], Path(Hashed(leaves, h), index, Node(h)), if anchored.Some? then anchored.value else computed, h)
  {
    Completeness(ChainHashes(entries), index, h);
  }
}
