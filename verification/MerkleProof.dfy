/** Hash trees over text: building, proving membership, and checking a proof. */
module MerkleProofs {
  import opened Wrappers
  import opened MerkleTrees

  /** The digest of a text; the same function hashes leaves and nodes. */
  type Hash = string -> string

  function Node(h: Hash): (string, string) -> string {
    (left, right) => h(left + ":" + right)
  }

  /** Digests are non-empty hexadecimal text, so they hold no separator. */
  predicate IsDigest(s: string) {
    s != "" && ':' !in s
  }

  predicate Digests(level: seq<string>) {
    forall i :: 0 <= i < |level| ==> IsDigest(level[i])
  }

  /** The idealised hash: different texts have different digests. */
  ghost predicate CollisionFree(h: Hash) {
    && (forall a, b :: h(a) == h(b) ==> a == b)
    && (forall a :: IsDigest(h(a)))
  }

  /** A text with every separator written differently. */
  function Escape(s: string): (e: string)
    ensures ':' !in e && |e| == 2 * |s|
  {
    if s == "" then "" else (if s[0] == ':' then "0." else "1" + [s[0]]) + Escape(s[1..])
  }

  lemma {:induction false} EscapeInjective(a: string, b: string)
    requires Escape(a) == Escape(b)
    ensures a == b
  {
    if a != "" {
      var x, y := Escape(a), Escape(b);
      assert x[0] == y[0] && x[1] == y[1];
      assert x[2..] == Escape(a[1..]) && y[2..] == Escape(b[1..]);
      EscapeInjective(a[1..], b[1..]);
      assert a == [a[0]] + a[1..] && b == [b[0]] + b[1..];
    }
  }

  /** The idealisation is consistent: there is such a function. */
  lemma CollisionFreeExists() returns (h: Hash)
    ensures CollisionFree(h)
  {
    h := s => "#" + Escape(s);
    forall a, b | h(a) == h(b) ensures a == b {
      assert Escape(a) == ("#" + Escape(a))[1..] && Escape(b) == ("#" + Escape(b))[1..];
      EscapeInjective(a, b);
    }
  }

  predicate Accepts(leaf: string, proof: seq<string>, root: string, h: Hash) {
    leaf != "" && root != "" && Reaches(h(leaf), proof, root, Node(h))
  }

  // ---------------------------------------------------------------------------
  // Reading a node's text back
  // ---------------------------------------------------------------------------

  lemma SplitFirst(a: string, b: string, c: string, d: string)
    requires ':' !in a && ':' !in c && a + ":" + b == c + ":" + d
    ensures a == c && b == d
  {
    var s, t := a + ":" + b, c + ":" + d;
    assert s[|a|] == ':' && t[|c|] == ':';
    assert forall k :: 0 <= k < |a| ==> s[k] == a[k];
    assert forall k :: 0 <= k < |c| ==> t[k] == c[k];
    assert |a| == |c|;
    assert a == s[..|a|] && c == t[..|c|];
    assert b == s[|a| + 1..] && d == t[|c| + 1..];
  }

  lemma SplitLast(a: string, b: string, c: string, d: string)
    requires ':' !in b && ':' !in d && a + ":" + b == c + ":" + d
    ensures a == c && b == d
  {
    var s, t := a + ":" + b, c + ":" + d;
    assert s[|a|] == ':' && t[|c|] == ':';
    assert forall k :: |a| < k < |s| ==> s[k] == b[k - |a| - 1];
    assert forall k :: |c| < k < |t| ==> t[k] == d[k - |c| - 1];
    assert |a| == |c|;
    assert a == s[..|a|] && c == t[..|c|];
    assert b == s[|a| + 1..] && d == t[|c| + 1..];
  }

  lemma UpDigests(level: seq<string>, h: Hash)
    requires CollisionFree(h)
    ensures Digests(Up(level, Node(h)))
  {
    forall i | 0 <= i < |Up(level, Node(h))| ensures IsDigest(Up(level, Node(h))[i]) {
      assert Up(level, Node(h))[i] == h(level[2 * i] + ":" + RightOf(level, i));
    }
  }

  // ---------------------------------------------------------------------------
  // Completeness, and what one generated proof accepts
  // ---------------------------------------------------------------------------

  /** The proof of a non-empty leaf is accepted, and it is as long as there are levels above the leaves. */
  lemma Completeness(leaves: seq<string>, i: nat, h: Hash)
    requires i < |leaves| && leaves[i] != "" && CollisionFree(h)
    ensures Accepts(leaves[i], Path(Hashed(leaves, h), i, Node(h)), Root(Hashed(leaves, h), Node(h)), h)
    ensures |Path(Hashed(leaves, h), i, Node(h))| == Levels(|leaves|)
  {
    var level := Hashed(leaves, h);
    PathReaches(level, i, Node(h));
    PathLength(level, i, Node(h));
    RootIsDigest(level, h);
  }

  lemma {:induction false} RootIsDigest(level: seq<string>, h: Hash)
    requires level != [] && Digests(level) && CollisionFree(h)
    ensures IsDigest(Root(level, Node(h)))
    decreases |level|
  {
    if |level| > 1 {
      UpDigests(level, h);
      RootIsDigest(Up(level, Node(h)), h);
    }
  }

  lemma NodesEqual(a: string, b: string, c: string, d: string, h: Hash)
    requires CollisionFree(h) && Node(h)(a, b) == Node(h)(c, d)
    requires (IsDigest(a) && IsDigest(c)) || (IsDigest(b) && IsDigest(d))
    ensures a == c && b == d
  {
    assert a + ":" + b == c + ":" + d;
    if IsDigest(a) && IsDigest(c) {
      SplitFirst(a, b, c, d);
    } else {
      SplitLast(a, b, c, d);
    }
  }

  /** Only the i-th digest reaches the root along the i-th path, whichever sides are tried. */
  lemma {:induction false} PathBinds(c: string, level: seq<string>, i: nat, h: Hash)
    requires i < |level| && Digests(level) && IsDigest(c) && CollisionFree(h)
    requires Reaches(c, Path(level, i, Node(h)), Root(level, Node(h)), Node(h))
    ensures c == level[i]
    decreases |level|
  {
    if |level| > 1 {
      var up, s := Up(level, Node(h)), Sibling(level, i);
      var path := Path(level, i, Node(h));
      assert path[0] == s && path[1..] == Path(up, i / 2, Node(h));
      UpDigests(level, h);
      ParentOf(level, i, Node(h));
      assert IsDigest(s);
      if Reaches(Node(h)(c, s), path[1..], Root(level, Node(h)), Node(h)) {
        PathBinds(Node(h)(c, s), up, i / 2, h);
        ChildBinds(c, s, level[i], i % 2 == 0, true, h);
      } else {
        PathBinds(Node(h)(s, c), up, i / 2, h);
        ChildBinds(c, s, level[i], i % 2 == 0, false, h);
      }
    }
  }

  lemma ChildBinds(c: string, s: string, x: string, xLeft: bool, cLeft: bool, h: Hash)
    requires IsDigest(c) && IsDigest(s) && IsDigest(x) && CollisionFree(h)
    requires (if cLeft then Node(h)(c, s) else Node(h)(s, c)) == (if xLeft then Node(h)(x, s) else Node(h)(s, x))
    ensures c == x
  {
    var l, r := if cLeft then (c, s) else (s, c), if xLeft then (x, s) else (s, x);
    NodesEqual(l.0, l.1, r.0, r.1, h);
  }

  /** The proof generated for position i accepts the leaf at position i and nothing else. */
  lemma ProofBindsLeaf(x: string, leaves: seq<string>, i: nat, h: Hash)
    requires i < |leaves| && leaves[i] != "" && CollisionFree(h)
    ensures Accepts(x, Path(Hashed(leaves, h), i, Node(h)), Root(Hashed(leaves, h), Node(h)), h) <==> x == leaves[i]
  {
    var level := Hashed(leaves, h);
    Completeness(leaves, i, h);
    if Reaches(h(x), Path(level, i, Node(h)), Root(level, Node(h)), Node(h)) {
      PathBinds(h(x), level, i, h);
    }
  }

  // ---------------------------------------------------------------------------
  // What can be proved at all
  // ---------------------------------------------------------------------------

  /** c occurs in the level or in one above it. */
  predicate InTree(c: string, level: seq<string>, h: Hash)
    decreases |level|
  {
    c in level || (|level| > 1 && InTree(c, Up(level, Node(h)), h))
  }

  /** x is the text `left:right` of a node above the level. */
  predicate IsNodeText(x: string, level: seq<string>, h: Hash)
    decreases |level|
  {
    |level| > 1 &&
    ((exists i: nat :: i < |level| && 2 * i < |level| && x == level[2 * i] + ":" + RightOf(level, i))
     || IsNodeText(x, Up(level, Node(h)), h))
  }

  lemma {:induction false} RootInTree(level: seq<string>, h: Hash)
    requires level != []
    ensures InTree(Root(level, Node(h)), level, h)
    decreases |level|
  {
    if |level| > 1 {
      RootInTree(Up(level, Node(h)), h);
    }
  }

  predicate NoSeparators(leaves: seq<string>) {
    forall i :: 0 <= i < |leaves| ==> ':' !in leaves[i]
  }

  /** Nothing in the level is the digest of a text with a separator. */
  predicate NoNodes(level: seq<string>, a: string, b: string, h: Hash) {
    h(a + ":" + b) !in level
  }

  lemma {:induction false} ChildrenInTree(a: string, b: string, level: seq<string>, h: Hash)
    requires CollisionFree(h) && Digests(level)
    requires InTree(Node(h)(a, b), level, h) && NoNodes(level, a, b, h)
    requires IsDigest(a) || IsDigest(b)
    ensures InTree(a, level, h) && InTree(b, level, h)
    decreases |level|
  {
    var up := Up(level, Node(h));
    var x := Node(h)(a, b);
    assert x == h(a + ":" + b);
    if x in up {
      var i :| 0 <= i < |up| && up[i] == x;
      assert Node(h)(level[2 * i], RightOf(level, i)) == x;
      NodesEqual(a, b, level[2 * i], RightOf(level, i), h);
    } else {
      UpDigests(level, h);
      ChildrenInTree(a, b, up, h);
    }
  }

  /** Whatever reaches the root of a tree over leaves without separators is a node of the tree. */
  lemma {:induction false} ReachesFromTree(c: string, proof: seq<string>, leaves: seq<string>, h: Hash)
    requires leaves != [] && CollisionFree(h) && IsDigest(c)
    requires NoSeparators(leaves)
    requires Reaches(c, proof, Root(Hashed(leaves, h), Node(h)), Node(h))
    ensures InTree(c, Hashed(leaves, h), h)
    decreases |proof|
  {
    var level := Hashed(leaves, h);
    if proof == [] {
      RootInTree(level, h);
    } else {
      var s := proof[0];
      NoNodeAmongLeaves(c, s, leaves, h);
      NoNodeAmongLeaves(s, c, leaves, h);
      if Reaches(Node(h)(c, s), proof[1..], Root(level, Node(h)), Node(h)) {
        ReachesFromTree(Node(h)(c, s), proof[1..], leaves, h);
        ChildrenInTree(c, s, level, h);
      } else {
        ReachesFromTree(Node(h)(s, c), proof[1..], leaves, h);
        ChildrenInTree(s, c, level, h);
      }
    }
  }

  lemma NoNodeAmongLeaves(a: string, b: string, leaves: seq<string>, h: Hash)
    requires CollisionFree(h)
    requires NoSeparators(leaves)
    ensures NoNodes(Hashed(leaves, h), a, b, h)
  {
    assert (a + ":" + b)[|a|] == ':';
  }

  /** Conversely every node of the tree reaches the root by some proof. */
  lemma {:induction false} TreeReaches(c: string, level: seq<string>, h: Hash) returns (proof: seq<string>)
    requires level != [] && InTree(c, level, h)
    ensures Reaches(c, proof, Root(level, Node(h)), Node(h))
    decreases |level|
  {
    if c in level {
      var i :| 0 <= i < |level| && level[i] == c;
      PathReaches(level, i, Node(h));
      proof := Path(level, i, Node(h));
    } else {
      proof := TreeReaches(c, Up(level, Node(h)), h);
    }
  }

  lemma {:induction false} DigestInTree(x: string, level: seq<string>, h: Hash)
    requires CollisionFree(h)
    ensures InTree(h(x), level, h) <==> h(x) in level || IsNodeText(x, level, h)
    decreases |level|
  {
    if |level| > 1 {
      var up := Up(level, Node(h));
      DigestInTree(x, up, h);
      if h(x) in up {
        var i :| 0 <= i < |up| && up[i] == h(x);
        assert h(level[2 * i] + ":" + RightOf(level, i)) == h(x);
      }
      forall i: nat | i < |level| && 2 * i < |level| && x == level[2 * i] + ":" + RightOf(level, i)
        ensures h(x) in up
      {
        assert up[i] == h(x);
      }
    }
  }

  /** Some proof of x is accepted against the root of the leaves. */
  ghost predicate Provable(x: string, leaves: seq<string>, h: Hash)
    requires leaves != []
  {
    exists proof :: Accepts(x, proof, Root(Hashed(leaves, h), Node(h)), h)
  }

  lemma ProvableIffInTree(x: string, leaves: seq<string>, h: Hash)
    requires leaves != [] && CollisionFree(h) && x != "" && NoSeparators(leaves)
    ensures Provable(x, leaves, h) <==> InTree(h(x), Hashed(leaves, h), h)
  {
    var level := Hashed(leaves, h);
    if InTree(h(x), level, h) {
      RootIsDigest(level, h);
      var proof := TreeReaches(h(x), level, h);
      assert Accepts(x, proof, Root(level, Node(h)), h);
    }
    if Provable(x, leaves, h) {
      var proof :| Accepts(x, proof, Root(level, Node(h)), h);
      ReachesFromTree(h(x), proof, leaves, h);
    }
  }

  lemma HashedMember(x: string, leaves: seq<string>, h: Hash)
    requires CollisionFree(h)
    ensures h(x) in Hashed(leaves, h) <==> x in leaves
  {
    if x in leaves {
      var i :| 0 <= i < |leaves| && leaves[i] == x;
      assert Hashed(leaves, h)[i] == h(x);
    }
  }

  /**
   * Over leaves without separators, some proof of x is accepted exactly when x
   * is a leaf or the text of an inner node. The hash does not separate the two.
   */
  lemma ProvableIff(x: string, leaves: seq<string>, h: Hash)
    requires leaves != [] && CollisionFree(h) && x != "" && NoSeparators(leaves)
    ensures Provable(x, leaves, h) <==> x in leaves || IsNodeText(x, Hashed(leaves, h), h)
  {
    ProvableIffInTree(x, leaves, h);
    DigestInTree(x, Hashed(leaves, h), h);
    HashedMember(x, leaves, h);
  }

  lemma {:induction false} NodeTextHasSeparator(x: string, level: seq<string>, h: Hash)
    requires IsNodeText(x, level, h)
    ensures ':' in x
    decreases |level|
  {
    if i: nat :| i < |level| && 2 * i < |level| && x == level[2 * i] + ":" + RightOf(level, i) {
      assert x[|level[2 * i]|] == ':';
    } else {
      NodeTextHasSeparator(x, Up(level, Node(h)), h);
    }
  }

  /** So for texts without separators, what can be proved is exactly membership. */
  lemma ProvableIffMember(x: string, leaves: seq<string>, h: Hash)
    requires leaves != [] && CollisionFree(h) && x != "" && ':' !in x
    requires NoSeparators(leaves)
    ensures Provable(x, leaves, h) <==> x in leaves
  {
    ProvableIff(x, leaves, h);
    if IsNodeText(x, Hashed(leaves, h), h) {
      NodeTextHasSeparator(x, Hashed(leaves, h), h);
    }
  }

  // ---------------------------------------------------------------------------
  // Binding of the whole list
  // ---------------------------------------------------------------------------

  predicate DigestPairs(pairs: set<(string, string)>) {
    forall p :: p in pairs ==> IsDigest(p.0) && IsDigest(p.1)
  }

  lemma {:induction false} PairsAreDigests(level: seq<string>, h: Hash)
    requires Digests(level) && CollisionFree(h)
    ensures DigestPairs(Pairs(level, Node(h)))
    decreases |level|
  {
    if |level| > 1 {
      UpDigests(level, h);
      PairsAreDigests(Up(level, Node(h)), h);
    }
  }

  /** Two lists of leaves of the same length with the same root are the same list. */
  lemma RootBindsLeaves(a: seq<string>, b: seq<string>, h: Hash)
    requires a != [] && |a| == |b| && CollisionFree(h)
    requires Root(Hashed(a, h), Node(h)) == Root(Hashed(b, h), Node(h))
    ensures a == b
  {
    var x, y := Hashed(a, h), Hashed(b, h);
    var pairs := Pairs(x, Node(h)) + Pairs(y, Node(h));
    PairsAreDigests(x, h);
    PairsAreDigests(y, h);
    assert InjectiveOn(Node(h), pairs) by {
      forall p, q | p in pairs && q in pairs && Node(h)(p.0, p.1) == Node(h)(q.0, q.1) ensures p == q {
        NodesEqual(p.0, p.1, q.0, q.1, h);
      }
    }
    RootBinds(x, y, Node(h), pairs);
    forall i | 0 <= i < |a| ensures a[i] == b[i] {
      assert x[i] == y[i];
    }
  }

  /** The lengths must agree: repeating the last of three leaves keeps the root. */
  lemma PaddingAmbiguity(a: string, b: string, c: string, h: Hash)
    ensures Root(Hashed([a, b, c], h), Node(h)) == Root(Hashed([a, b, c, c], h), Node(h))
  {
    var x, y := Hashed([a, b, c], h), Hashed([a, b, c, c], h);
    assert Up(x, Node(h)) == Up(y, Node(h));
  }

  // ---------------------------------------------------------------------------
  // The loops
  // ---------------------------------------------------------------------------

  method BuildMerkleTree(leaves: seq<string>, h: Hash) returns (root: string, layers: seq<seq<string>>)
    ensures leaves == [] ==> root == "" && layers == []
    ensures leaves != [] ==> root == Root(Hashed(leaves, h), Node(h)) && layers == Layers(Hashed(leaves, h), Node(h))
  {
    if |leaves| == 0 {
      return "", [];
    }
    var level := Hashed(leaves, h);
    layers := [level];
    ghost var all := Layers(level, Node(h));
    while |level| > 1
      invariant level != [] && layers != [] && layers[|layers| - 1] == level
      invariant all == layers[..|layers| - 1] + Layers(level, Node(h))
      invariant Root(Hashed(leaves, h), Node(h)) == Root(level, Node(h))
      decreases |level|
    {
      var next := NextLevel(level, Node(h));
      assert layers == layers[..|layers| - 1] + [level];
      layers := layers + [next];
      level := next;
    }
    root := level[0];
  }

  /** The layers are those of a tree. */
  predicate IsTree(layers: seq<seq<string>>, h: Hash) {
    layers == [] || (layers[0] != [] && layers == Layers(layers[0], Node(h)))
  }

  lemma {:induction false} LayerAt(level: seq<string>, k: nat, h: Hash)
    requires level != [] && k < |Layers(level, Node(h))|
    ensures var layers := Layers(level, Node(h));
      && layers[k] != [] && layers[k..] == Layers(layers[k], Node(h))
      && (k + 1 < |layers| <==> |layers[k]| > 1)
      && (k + 1 < |layers| ==> layers[k + 1] == Up(layers[k], Node(h)))
    decreases |level|
  {
    var layers := Layers(level, Node(h));
    if k > 0 {
      var rest := Layers(Up(level, Node(h)), Node(h));
      LayerAt(Up(level, Node(h)), k - 1, h);
      assert layers == [level] + rest;
      assert layers[k..] == rest[k - 1..];
    }
  }

  lemma PathStep(layers: seq<seq<string>>, k: nat, i: nat, done: seq<string>, h: Hash)
    requires layers != [] && IsTree(layers, h) && k + 1 < |layers| && i < |layers[k]|
    ensures i / 2 < |layers[k + 1]|
    ensures done + Path(layers[k], i, Node(h))
      == (done + [Sibling(layers[k], i)]) + Path(layers[k + 1], i / 2, Node(h))
  {
    LayerAt(layers[0], k, h);
  }

  lemma PathTop(layers: seq<seq<string>>, i: nat, h: Hash)
    requires layers != [] && IsTree(layers, h) && i < |layers[|layers| - 1]|
    ensures Path(layers[|layers| - 1], i, Node(h)) == []
  {
    LayerAt(layers[0], |layers| - 1, h);
  }

  method GenerateProof(layers: seq<seq<string>>, index: int, h: Hash) returns (proof: Option<seq<string>>)
    requires IsTree(layers, h)
    ensures proof == if layers == [] || index < 0 || index >= |layers[0]| then None
                     else Some(Path(layers[0], index, Node(h)))
  {
    if index < 0 || index >= (if layers == [] then 0 else |layers[0]|) {
      return None;
    }
    var siblings: seq<string> := [];
    var currentIndex: nat := index;
    for k := 0 to |layers| - 1
      invariant currentIndex < |layers[k]|
      invariant Path(layers[0], index, Node(h)) == siblings + Path(layers[k], currentIndex, Node(h))
    {
      PathStep(layers, k, currentIndex, siblings, h);
      var siblingIndex := if currentIndex % 2 == 0 then currentIndex + 1 else currentIndex - 1;
      var sibling := if siblingIndex < |layers[k]| then layers[k][siblingIndex] else layers[k][currentIndex];
      siblings := siblings + [sibling];
      currentIndex := currentIndex / 2;
    }
    PathTop(layers, currentIndex, h);
    assert siblings + [] == siblings;
    return Some(siblings);
  }

  /** One of the candidates reaches the root. */
  predicate AnyReaches(candidates: seq<string>, proof: seq<string>, root: string, h: Hash) {
    exists k :: 0 <= k < |candidates| && Reaches(candidates[k], proof, root, Node(h))
  }

  lemma AnyReachesAppend(candidates: seq<string>, more: seq<string>, proof: seq<string>, root: string, h: Hash)
    ensures AnyReaches(candidates + more, proof, root, h)
      <==> AnyReaches(candidates, proof, root, h) || AnyReaches(more, proof, root, h)
  {
    var all := candidates + more;
    if k :| 0 <= k < |candidates| && Reaches(candidates[k], proof, root, Node(h)) {
      assert all[k] == candidates[k];
    }
    if k :| 0 <= k < |more| && Reaches(more[k], proof, root, Node(h)) {
      assert all[|candidates| + k] == more[k];
    }
    if k :| 0 <= k < |all| && Reaches(all[k], proof, root, Node(h)) {
      assert all[k] == if k < |candidates| then candidates[k] else more[k - |candidates|];
    }
  }

  lemma AnyReachesOne(c: string, proof: seq<string>, root: string, h: Hash)
    ensures AnyReaches([c], proof, root, h) <==> Reaches(c, proof, root, Node(h))
  {
    assert [c][0] == c;
  }

  lemma AnyReachesTwo(c: string, s: string, proof: seq<string>, root: string, h: Hash)
    ensures AnyReaches([Node(h)(c, s)] + [Node(h)(s, c)], proof, root, h) <==> Reaches(c, [s] + proof, root, Node(h))
  {
    AnyReachesAppend([Node(h)(c, s)], [Node(h)(s, c)], proof, root, h);
    AnyReachesOne(Node(h)(c, s), proof, root, h);
    AnyReachesOne(Node(h)(s, c), proof, root, h);
    assert ([s] + proof)[1..] == proof;
  }

  /** Both orders of every candidate with the sibling. */
  method BothOrders(candidates: seq<string>, sibling: string, ghost rest: seq<string>, ghost root: string, h: Hash)
      returns (next: seq<string>)
    ensures AnyReaches(next, rest, root, h) <==> AnyReaches(candidates, [sibling] + rest, root, h)
  {
    next := [];
    for j := 0 to |candidates|
      invariant AnyReaches(next, rest, root, h) <==> AnyReaches(candidates[..j], [sibling] + rest, root, h)
    {
      var c := candidates[j];
      AnyReachesTwo(c, sibling, rest, root, h);
      AnyReachesAppend(next, [Node(h)(c, sibling)] + [Node(h)(sibling, c)], rest, root, h);
      AnyReachesAppend(candidates[..j], [c], [sibling] + rest, root, h);
      AnyReachesOne(c, [sibling] + rest, root, h);
      assert candidates[..j + 1] == candidates[..j] + [c];
      next := next + ([Node(h)(c, sibling)] + [Node(h)(sibling, c)]);
    }
    assert candidates[..|candidates|] == candidates;
  }

  method VerifyProof(leaf: string, proof: seq<string>, root: string, h: Hash) returns (ok: bool)
    ensures ok == Accepts(leaf, proof, root, h)
  {
    if leaf == "" || root == "" {
      return false;
    }
    var candidates := [h(leaf)];
    AnyReachesOne(h(leaf), proof, root, h);
    assert proof[0..] == proof;
    for i := 0 to |proof|
      invariant AnyReaches(candidates, proof[i..], root, h) <==> Reaches(h(leaf), proof, root, Node(h))
    {
      assert proof[i..] == [proof[i]] + proof[i + 1..];
      candidates := BothOrders(candidates, proof[i], proof[i + 1..], root, h);
    }
    assert proof[|proof|..] == [];
    assert AnyReaches(candidates, [], root, h) <==> root in candidates;
    return root in candidates;
  }
}
