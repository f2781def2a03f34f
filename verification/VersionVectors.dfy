/** Logical clocks: version counters by node, where a missing entry reads as 0. */
module VersionVectors {

  type Uint64 = x: int | 0 <= x < 0x1_0000_0000_0000_0000

  type VersionVector = map<string, Uint64>

  function At(v: VersionVector, node: string): Uint64 {
    if node in v then v[node] else 0
  }

  /** `v` has seen everything that `w` has. */
  ghost predicate Covers(v: VersionVector, w: VersionVector) {
    forall node :: At(w, node) <= At(v, node)
  }

  method Dominates(v: VersionVector, other: VersionVector) returns (dominates: bool)
    ensures dominates <==> Covers(v, other)
    ensures dominates <==> forall node :: node in other ==> other[node] <= if node in v then v[node] else 0
  {
    var remaining := other.Keys;
    while remaining != {}
      invariant remaining <= other.Keys
      invariant forall node :: node in other.Keys - remaining ==> other[node] <= At(v, node)
      decreases |remaining|
    {
      var node :| node in remaining;
      if At(v, node) < other[node] {
        assert At(other, node) > At(v, node);
        return false;
      }
      remaining := remaining - {node};
    }
    return true;
  }

  function Max(a: Uint64, b: Uint64): Uint64 {
    if a < b then b else a
  }

  /** The entries of a merge: all of the first vector's, and the positive ones of the second. */
  function Merged(v: VersionVector, other: VersionVector): VersionVector {
    map node | node in v.Keys + other.Keys && (node in v || other[node] > 0) :: Max(At(v, node), At(other, node))
  }

  method Merge(v: VersionVector, other: VersionVector) returns (merged: VersionVector)
    ensures merged == Merged(v, other)
    ensures forall node :: node in v ==> node in merged && merged[node] >= v[node]
    ensures forall node :: node in other && other[node] > 0 ==> node in merged && merged[node] >= other[node]
    ensures forall node :: node in merged ==>
      (node in v && merged[node] == v[node]) || (node in other && merged[node] == other[node])
  {
    merged := map[];
    ExceptAll(v);
    MergedNone(v, other);
    var remaining := v.Keys;
    while remaining != {}
      invariant remaining <= v.Keys && merged == Except(v, remaining)
      decreases |remaining|
    {
      var k :| k in remaining;
      ExceptStep(v, remaining, k);
      merged := merged[k := v[k]];
      remaining := remaining - {k};
    }
    ExceptNone(v);
    remaining := other.Keys;
    while remaining != {}
      invariant remaining <= other.Keys && merged == Merged(v, Except(other, remaining))
      decreases |remaining|
    {
      var k :| k in remaining;
      MergedStep(v, other, remaining, k);
      if other[k] > At(merged, k) {
        merged := merged[k := other[k]];
      }
      remaining := remaining - {k};
    }
    ExceptNone(other);
    MergedMeans(v, other);
  }

  /** Each entry comes from one of the vectors, and neither vector has a greater one. */
  lemma MergedMeans(v: VersionVector, other: VersionVector)
    ensures forall node :: node in v ==> node in Merged(v, other) && Merged(v, other)[node] >= v[node]
    ensures forall node :: node in other && other[node] > 0 ==>
      node in Merged(v, other) && Merged(v, other)[node] >= other[node]
    ensures forall node :: node in Merged(v, other) ==>
      (node in v && Merged(v, other)[node] == v[node]) || (node in other && Merged(v, other)[node] == other[node])
  {
  }

  ghost function Except(v: VersionVector, nodes: set<string>): VersionVector {
    map node | node in v && node !in nodes :: v[node]
  }

  lemma ExceptNone(v: VersionVector)
    ensures Except(v, {}) == v
  {
  }

  lemma ExceptAll(v: VersionVector)
    ensures Except(v, v.Keys) == map[]
  {
  }

  lemma MergedNone(v: VersionVector, w: VersionVector)
    ensures Merged(v, Except(w, w.Keys)) == v
  {
  }

  lemma ExceptStep(v: VersionVector, nodes: set<string>, k: string)
    requires k in v && k in nodes
    ensures Except(v, nodes - {k}) == Except(v, nodes)[k := v[k]]
  {
  }

  lemma MergedStep(v: VersionVector, other: VersionVector, nodes: set<string>, k: string)
    requires k in other && k in nodes
    ensures var merged := Merged(v, Except(other, nodes));
      Merged(v, Except(other, nodes - {k})) == if other[k] > At(merged, k) then merged[k := other[k]] else merged
  {
    var merged := Merged(v, Except(other, nodes));
    var a := if other[k] > At(merged, k) then merged[k := other[k]] else merged;
    var b := Merged(v, Except(other, nodes - {k}));
    forall node ensures (node in a <==> node in b) && At(a, node) == At(b, node) {
      MergedKeys(v, Except(other, nodes), node);
      MergedKeys(v, Except(other, nodes - {k}), node);
      MergedKeys(v, Except(other, nodes), k);
    }
    SameVector(a, b);
  }

  /** Covering is a preorder; vectors that cover each other read the same everywhere. */
  lemma CoversIsPreorder(u: VersionVector, v: VersionVector, w: VersionVector)
    ensures Covers(u, u)
    ensures Covers(u, v) && Covers(v, w) ==> Covers(u, w)
    ensures Covers(u, v) && Covers(v, u) <==> forall node :: At(u, node) == At(v, node)
  {
    if Covers(u, v) && Covers(v, w) {
      forall node ensures At(w, node) <= At(u, node) {
        assert At(w, node) <= At(v, node) <= At(u, node);
      }
    }
    if Covers(u, v) && Covers(v, u) {
      forall node ensures At(u, node) == At(v, node) {
        assert At(u, node) <= At(v, node) <= At(u, node);
      }
    }
  }

  lemma MergedAt(v: VersionVector, w: VersionVector, node: string)
    ensures At(Merged(v, w), node) == Max(At(v, node), At(w, node))
  {
  }

  /** A merge is the least vector that covers both. */
  lemma MergeIsLeastUpperBound(v: VersionVector, w: VersionVector, u: VersionVector)
    ensures Covers(Merged(v, w), v) && Covers(Merged(v, w), w)
    ensures Covers(u, v) && Covers(u, w) <==> Covers(u, Merged(v, w))
  {
    forall node
      ensures At(Merged(v, w), node) == Max(At(v, node), At(w, node))
    {
      MergedAt(v, w, node);
    }
    if Covers(u, Merged(v, w)) {
      forall node ensures At(v, node) <= At(u, node) && At(w, node) <= At(u, node) {
        assert At(Merged(v, w), node) <= At(u, node);
      }
    }
  }

  lemma MergeIdempotent(v: VersionVector)
    ensures Merged(v, v) == v
  {
  }

  lemma MergedKeys(v: VersionVector, w: VersionVector, node: string)
    ensures node in Merged(v, w) <==> node in v || At(w, node) > 0
    ensures At(Merged(v, w), node) == Max(At(v, node), At(w, node))
    ensures node in Merged(v, w) ==> Merged(v, w)[node] == Max(At(v, node), At(w, node))
  {
  }

  /** Vectors with the same keys and readings are the same vector. */
  lemma SameVector(a: VersionVector, b: VersionVector)
    requires forall node :: (node in a <==> node in b) && At(a, node) == At(b, node)
    ensures a == b
  {
    forall node | node in a && node in b ensures a[node] == b[node] {
      assert At(a, node) == At(b, node);
    }
  }

  /** Merging is associative on the vectors themselves. */
  lemma MergeAssociative(u: VersionVector, v: VersionVector, w: VersionVector)
    ensures Merged(Merged(u, v), w) == Merged(u, Merged(v, w))
  {
    var a, b := Merged(Merged(u, v), w), Merged(u, Merged(v, w));
    forall node ensures (node in a <==> node in b) && At(a, node) == At(b, node) {
      MergeAssociativeAt(u, v, w, node);
    }
    SameVector(a, b);
  }

  lemma MergeAssociativeAt(u: VersionVector, v: VersionVector, w: VersionVector, node: string)
    ensures node in Merged(Merged(u, v), w) <==> node in Merged(u, Merged(v, w))
    ensures At(Merged(Merged(u, v), w), node) == At(Merged(u, Merged(v, w)), node)
  {
    MergedKeys(u, v, node);
    MergedKeys(v, w, node);
    MergedKeys(Merged(u, v), w, node);
    MergedKeys(u, Merged(v, w), node);
  }

  /**
   It is commutative only when neither vector has a zero entry that the other lacks altogether,
   because a zero entry of the second vector is dropped and one of the first is kept.
   */
  lemma MergeCommutesExactly(v: VersionVector, w: VersionVector)
    ensures Merged(v, w) == Merged(w, v) <==>
      (forall node :: node in v && v[node] == 0 ==> node in w)
        && (forall node :: node in w && w[node] == 0 ==> node in v)
    ensures forall node :: At(Merged(v, w), node) == At(Merged(w, v), node)
  {
    var a, b := Merged(v, w), Merged(w, v);
    if (forall node :: node in v && v[node] == 0 ==> node in w)
      && (forall node :: node in w && w[node] == 0 ==> node in v) {
      forall node ensures node in a <==> node in b {
      }
    } else if node :| node in v && v[node] == 0 && node !in w {
      assert node in a && node !in b;
    } else {
      var node :| node in w && w[node] == 0 && node !in v;
      assert node in b && node !in a;
    }
  }
}
