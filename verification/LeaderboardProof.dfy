/** The leaderboard service's own root and proof computation. */
module LeaderboardProofs {
  import opened Wrappers
  import opened MerkleTrees
  import opened MerkleProofs

  /** The root of an epoch's chain hashes; `closeEpoch` and `rebuildEpochAccumulator` store it. */
  method ComputeMerkleRoot(leaves: seq<string>, h: Hash) returns (root: string)
    ensures root == if leaves == [] then "" else Root(Hashed(leaves, h), Node(h))
  {
    if |leaves| == 0 {
      return "";
    }
    if |leaves| == 1 {
      return h(leaves[0]);
    }
    var current := Hashed(leaves, h);
    while |current| > 1
      invariant current != [] && Root(Hashed(leaves, h), Node(h)) == Root(current, Node(h))
      decreases |current|
    {
      current := NextLevel(current, Node(h));
    }
    return current[0];
  }

  datatype ComputedProof = ComputedProof(leaf: string, proof: seq<string>, leafIndex: nat, root: string, verified: bool)

  lemma PathUp(level: seq<string>, i: nat, done: seq<string>, h: Hash)
    requires i < |level| && |level| > 1
    ensures i / 2 < |Up(level, Node(h))|
    ensures done + Path(level, i, Node(h)) == (done + [Sibling(level, i)]) + Path(Up(level, Node(h)), i / 2, Node(h))
  {
    Associates(done, [Sibling(level, i)], Path(Up(level, Node(h)), i / 2, Node(h)));
  }

  /** The leaf returned is the digest of the leaf asked for. */
  method ComputeProof(leaves: seq<string>, index: int, h: Hash) returns (result: Option<ComputedProof>)
    ensures result.None? <==> index < 0 || index >= |leaves|
    ensures result.Some? ==>
      result.value == ComputedProof(h(leaves[index]), Path(Hashed(leaves, h), index, Node(h)), index,
                                    Root(Hashed(leaves, h), Node(h)), true)
  {
    if |leaves| == 0 || index < 0 || index >= |leaves| {
      return None;
    }
    var proof: seq<string> := [];
    var current := Hashed(leaves, h);
    var currentIndex: nat := index;
    while |current| > 1
      invariant current != [] && Root(Hashed(leaves, h), Node(h)) == Root(current, Node(h))
      invariant currentIndex < |current|
      invariant Path(Hashed(leaves, h), index, Node(h)) == proof + Path(current, currentIndex, Node(h))
      decreases |current|
    {
      PathUp(current, currentIndex, proof, h);
      var siblingIndex := if currentIndex % 2 == 0 then currentIndex + 1 else currentIndex - 1;
      var sibling := if siblingIndex < |current| then current[siblingIndex] else current[currentIndex];
      proof := proof + [sibling];
      currentIndex := currentIndex / 2;
      current := NextLevel(current, Node(h));
    }
    assert proof + [] == proof;
    return Some(ComputedProof(h(leaves[index]), proof, index, current[0], true));
  }

  /**
   * The verifiers hash the leaf they are given, so the leaf returned by
   * ComputeProof verifies only in the degenerate case of a digest that is its
   * own digest, although the proof is right for the raw leaf.
   */
  lemma ComputedLeafVerifiesIff(leaves: seq<string>, i: nat, h: Hash)
    requires i < |leaves| && leaves[i] != "" && CollisionFree(h)
    ensures var proof, root := Path(Hashed(leaves, h), i, Node(h)), Root(Hashed(leaves, h), Node(h));
      && Accepts(leaves[i], proof, root, h)
      && (Accepts(h(leaves[i]), proof, root, h) <==> h(leaves[i]) == leaves[i])
  {
    Completeness(leaves, i, h);
    ProofBindsLeaf(h(leaves[i]), leaves, i, h);
  }
}
