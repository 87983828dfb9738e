/** Binary hash trees that pair an odd last node with itself, over any digest type. */
module MerkleTrees {
  import opened Wrappers

  /** The lowest level: the digests of the leaves. */
  function Hashed<E, D>(leaves: seq<E>, h: E -> D): (level: seq<D>)
    ensures |level| == |leaves|
    ensures forall i :: 0 <= i < |leaves| ==> level[i] == h(leaves[i])
  {
    seq(|leaves|, i requires 0 <= i < |leaves| => h(leaves[i]))
  }

  /** The partner of the i-th left node. */
  function RightOf<D>(level: seq<D>, i: nat): D
    requires 2 * i < |level|
  {
    if 2 * i + 1 < |level| then level[2 * i + 1] else level[2 * i]
  }

  /** The level above. */
  function Up<D>(level: seq<D>, node: (D, D) -> D): (up: seq<D>)
    ensures |up| == (|level| + 1) / 2
    ensures forall i :: 0 <= i < |up| ==> up[i] == node(level[2 * i], RightOf(level, i))
  {
    seq((|level| + 1) / 2, i requires 0 <= i < (|level| + 1) / 2 => node(level[2 * i], RightOf(level, i)))
  }

  function Root<D>(level: seq<D>, node: (D, D) -> D): D
    requires level != []
    decreases |level|
  {
    if |level| == 1 then level[0] else Root(Up(level, node), node)
  }

  /** All levels, from the given one to the root. */
  function Layers<D>(level: seq<D>, node: (D, D) -> D): (layers: seq<seq<D>>)
    requires level != []
    ensures layers != [] && layers[0] == level
    decreases |level|
  {
    if |level| == 1 then [level] else [level] + Layers(Up(level, node), node)
  }

  /** The other child of the parent of node i; node i itself when it has none. */
  function Sibling<D>(level: seq<D>, i: nat): D
    requires i < |level|
  {
    var s: nat := if i % 2 == 0 then i + 1 else i - 1;
    if s < |level| then level[s] else level[i]
  }

  /** The siblings met on the way from node i to the root. */
  function Path<D>(level: seq<D>, i: nat, node: (D, D) -> D): seq<D>
    requires i < |level|
    decreases |level|
  {
    if |level| == 1 then [] else [Sibling(level, i)] + Path(Up(level, node), i / 2, node)
  }

  /** Hashing x with each sibling in turn, on either side, can give the root. */
  predicate Reaches<D(==)>(x: D, proof: seq<D>, root: D, node: (D, D) -> D) {
    if proof == [] then x == root
    else Reaches(node(x, proof[0]), proof[1..], root, node) || Reaches(node(proof[0], x), proof[1..], root, node)
  }

  /** The number of levels above n nodes. */
  function Levels(n: nat): nat {
    if n <= 1 then 0 else 1 + Levels((n + 1) / 2)
  }

  /** That is, the binary logarithm of n rounded up. */
  lemma {:induction false} LevelsIsLogarithm(n: nat)
    requires n > 0
    ensures n <= Pow2(Levels(n))
    ensures n > 1 ==> Levels(n) > 0 && Pow2(Levels(n) - 1) < n
  {
    if n > 1 {
      LevelsIsLogarithm((n + 1) / 2);
    }
  }

  lemma {:induction false} PathLength<D>(level: seq<D>, i: nat, node: (D, D) -> D)
    requires i < |level|
    ensures |Path(level, i, node)| == Levels(|level|)
    decreases |level|
  {
    if |level| > 1 {
      PathLength(Up(level, node), i / 2, node);
    }
  }

  lemma ParentOf<D>(level: seq<D>, i: nat, node: (D, D) -> D)
    requires i < |level| && |level| > 1
    ensures i / 2 < |Up(level, node)|
    ensures var parent := Up(level, node)[i / 2];
      parent == if i % 2 == 0 then node(level[i], Sibling(level, i)) else node(Sibling(level, i), level[i])
  {
    if i % 2 == 0 {
      assert 2 * (i / 2) == i;
    } else {
      assert 2 * (i / 2) + 1 == i;
    }
  }

  /** Every node reaches the root along its own path. */
  lemma {:induction false} PathReaches<D>(level: seq<D>, i: nat, node: (D, D) -> D)
    requires i < |level|
    ensures Reaches(level[i], Path(level, i, node), Root(level, node), node)
    decreases |level|
  {
    if |level| > 1 {
      ParentOf(level, i, node);
      PathReaches(Up(level, node), i / 2, node);
      var path := Path(level, i, node);
      assert path[0] == Sibling(level, i) && path[1..] == Path(Up(level, node), i / 2, node);
    }
  }

  // ---------------------------------------------------------------------------
  // What the root is
  // ---------------------------------------------------------------------------

  lemma UpOfBoth<D>(x: seq<D>, y: seq<D>, node: (D, D) -> D)
    requires |x| % 2 == 0
    ensures Up(x + y, node) == Up(x, node) + Up(y, node)
  {
    var n := |x| / 2;
    forall i | 0 <= i < |Up(x + y, node)| ensures Up(x + y, node)[i] == (Up(x, node) + Up(y, node))[i] {
      if i < n {
        assert RightOf(x + y, i) == RightOf(x, i);
      } else {
        assert RightOf(x + y, i) == RightOf(y, i - n);
      }
    }
  }

  /** Two full halves: the root is the node over their roots, left and right in order. */
  lemma {:induction false} RootOfHalves<D>(x: seq<D>, y: seq<D>, k: nat, node: (D, D) -> D)
    requires |x| == |y| == Pow2(k)
    ensures Root(x + y, node) == node(Root(x, node), Root(y, node))
    decreases k
  {
    if k == 0 {
      assert Up(x + y, node) == [node(x[0], y[0])];
    } else {
      UpOfBoth(x, y, node);
      RootOfHalves(Up(x, node), Up(y, node), k - 1, node);
    }
  }

  /** A level of odd length above one has the root of the level with its last node doubled. */
  lemma LastDoubled<D>(level: seq<D>, node: (D, D) -> D)
    requires |level| % 2 == 1 && |level| > 1
    ensures Root(level + [level[|level| - 1]], node) == Root(level, node)
  {
    var n := |level|;
    var doubled := level + [level[n - 1]];
    assert (n + 2) / 2 == (n + 1) / 2 && |doubled| > 1;
    forall i | 0 <= i < (n + 1) / 2 ensures Up(doubled, node)[i] == Up(level, node)[i] {
      assert doubled[2 * i] == level[2 * i] && RightOf(doubled, i) == RightOf(level, i);
    }
    assert Up(doubled, node) == Up(level, node);
  }

  // ---------------------------------------------------------------------------
  // Binding
  // ---------------------------------------------------------------------------

  function LevelPairs<D(==)>(level: seq<D>): set<(D, D)> {
    set i: nat | i < |level| && 2 * i < |level| :: (level[2 * i], RightOf(level, i))
  }

  /** Every pair that is hashed while the root is computed. */
  function Pairs<D(==)>(level: seq<D>, node: (D, D) -> D): set<(D, D)>
    decreases |level|
  {
    if |level| <= 1 then {} else LevelPairs(level) + Pairs(Up(level, node), node)
  }

  /** No two different pairs of the set have the same digest. */
  predicate InjectiveOn<D(==)>(node: (D, D) -> D, pairs: set<(D, D)>) {
    forall p, q :: p in pairs && q in pairs && node(p.0, p.1) == node(q.0, q.1) ==> p == q
  }

  lemma PairAt<D>(level: seq<D>, i: nat)
    requires 2 * i < |level|
    ensures (level[2 * i], RightOf(level, i)) in LevelPairs(level)
  {}

  lemma UpBinds<D>(x: seq<D>, y: seq<D>, node: (D, D) -> D, pairs: set<(D, D)>)
    requires |x| == |y| && Up(x, node) == Up(y, node)
    requires LevelPairs(x) <= pairs && LevelPairs(y) <= pairs && InjectiveOn(node, pairs)
    ensures x == y
  {
    forall j | 0 <= j < |x| ensures x[j] == y[j] {
      var i := j / 2;
      PairAt(x, i);
      PairAt(y, i);
      assert Up(x, node)[i] == Up(y, node)[i];
      assert j == 2 * i || j == 2 * i + 1;
    }
  }

  /** Levels of the same length with the same root are the same, unless two hashed pairs collide. */
  lemma {:induction false} RootBinds<D>(x: seq<D>, y: seq<D>, node: (D, D) -> D, pairs: set<(D, D)>)
    requires x != [] && |x| == |y|
    requires Pairs(x, node) <= pairs && Pairs(y, node) <= pairs && InjectiveOn(node, pairs)
    requires Root(x, node) == Root(y, node)
    ensures x == y
    decreases |x|
  {
    if |x| > 1 {
      RootBinds(Up(x, node), Up(y, node), node, pairs);
      UpBinds(x, y, node, pairs);
    }
  }

  // ---------------------------------------------------------------------------
  // The loops
  // ---------------------------------------------------------------------------

  /** One level of the tree, built node by node. */
  method NextLevel<D>(level: seq<D>, node: (D, D) -> D) returns (next: seq<D>)
    ensures next == Up(level, node)
  {
    next := [];
    var i := 0;
    while i < |level|
      invariant 0 <= i <= |level| + 1 && i % 2 == 0
      invariant |next| == i / 2 && i / 2 <= |Up(level, node)|
      invariant forall k :: 0 <= k < |next| ==> next[k] == Up(level, node)[k]
    {
      var left := level[i];
      var right := if i + 1 < |level| then level[i + 1] else left;
      assert 2 * (i / 2) == i && right == RightOf(level, i / 2);
      next := next + [node(left, right)];
      i := i + 2;
    }
  }
}
