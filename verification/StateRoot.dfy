/** The contract's state root: a hash tree over byte strings with 32-byte digests. */
module StateRoots {
  import opened Wrappers
  import opened Digests
  import opened MerkleTrees

  /** A node's input is its two children side by side. */
  function Node(h: Hash): (Digest, Digest) -> Digest {
    (left: Digest, right: Digest) => h(Join(left, right))
  }

  function Join(left: Digest, right: Digest): bytes {
    left + right
  }

  /** Every byte string hashed while the root of the entries is computed. */
  function Inputs(entries: seq<bytes>, h: Hash): set<bytes> {
    (set i | 0 <= i < |entries| :: entries[i])
    + (set p | p in Pairs(Hashed(entries, h), Node(h)) :: Join(p.0, p.1))
  }

  method ComputeRoot(entries: seq<bytes>, h: Hash) returns (root: Digest)
    ensures root == if entries == [] then ZERO else Root(Hashed(entries, h), Node(h))
  {
    if |entries| == 0 {
      return ZERO;
    }
    var level := Hashed(entries, h);
    while |level| > 1
      invariant level != [] && Root(Hashed(entries, h), Node(h)) == Root(level, Node(h))
      decreases |level|
    {
      level := NextLevel(level, Node(h));
    }
    return level[0];
  }

  lemma JoinInjective(a: Digest, b: Digest, c: Digest, d: Digest)
    requires Join(a, b) == Join(c, d)
    ensures a == c && b == d
  {
    assert a == Join(a, b)[..32] && b == Join(a, b)[32..];
    assert c == Join(c, d)[..32] && d == Join(c, d)[32..];
  }

  /** Equal roots of equally long lists mean equal lists, unless two of the strings hashed collide. */
  lemma RootBindsEntries(a: seq<bytes>, b: seq<bytes>, h: Hash)
    requires a != [] && |a| == |b|
    requires NoCollisionIn(Inputs(a, h) + Inputs(b, h), h)
    requires Root(Hashed(a, h), Node(h)) == Root(Hashed(b, h), Node(h))
    ensures a == b
  {
    var x, y := Hashed(a, h), Hashed(b, h);
    var pairs := Pairs(x, Node(h)) + Pairs(y, Node(h));
    assert InjectiveOn(Node(h), pairs) by {
      forall p, q | p in pairs && q in pairs && Node(h)(p.0, p.1) == Node(h)(q.0, q.1) ensures p == q {
        assert Join(p.0, p.1) in Inputs(a, h) + Inputs(b, h);
        assert Join(q.0, q.1) in Inputs(a, h) + Inputs(b, h);
        JoinInjective(p.0, p.1, q.0, q.1);
      }
    }
    RootBinds(x, y, Node(h), pairs);
    forall i | 0 <= i < |a| ensures a[i] == b[i] {
      assert h(a[i]) == x[i] && h(b[i]) == y[i];
      assert a[i] in Inputs(a, h) && b[i] in Inputs(b, h);
    }
  }
}
