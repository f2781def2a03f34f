/**
 The Merkle summary of a node's memories: leaves are hashed, sorted by hash, and folded
 level by level, a lone odd node being hashed again on its own.  The hash is a parameter;
 it maps any byte string to 64 hexadecimal characters.
 */
module Merkle {
  import opened Common
  import opened Sorting
  import opened Text

  const ZERO_ROOT := "0000000000000000000000000000000000000000000000000000000000000000"

  // ----- The tree builder -----

  class MerkleNode {
    const hash: string
    const left: MerkleNode?
    const right: MerkleNode?

    constructor (h: string -> string, left: MerkleNode?, right: MerkleNode?, data: string)
      requires left == null ==> right == null
      ensures this.left == left && this.right == right
      ensures hash == h(if left == null then data
                        else if right == null then left.hash
                        else left.hash + right.hash)
    {
      var preimage: string;
      if left == null && right == null {
        preimage := data;
      } else {
        preimage := left.hash;
        if right != null {
          preimage := preimage + right.hash;
        }
      }
      this.hash := h(preimage);
      this.left := left;
      this.right := right;
    }

    constructor Empty()
      ensures hash == ZERO_ROOT && left == null && right == null
    {
      hash := ZERO_ROOT;
      left, right := null, null;
    }
  }

  class MerkleTree {
    const root: MerkleNode?

    constructor (root: MerkleNode?)
      ensures this.root == root
    {
      this.root := root;
    }

    function GetRootHash(): string {
      if root == null then "" else root.hash
    }
  }

  function HashText(hash: string): string {
    hash
  }

  function NodeHash(node: MerkleNode): string {
    node.hash
  }

  /** The preimages of one level's parents: neighbours concatenated, an odd last hash alone. */
  function Pairs(level: seq<string>): seq<string> {
    if |level| <= 1 then level else [level[0] + level[1]] + Pairs(level[2..])
  }

  function NextLevel(h: string -> string, level: seq<string>): (next: seq<string>)
    ensures |next| == |Pairs(level)|
  {
    Map(h, Pairs(level))
  }

  lemma {:induction false} PairsLength(level: seq<string>)
    ensures |Pairs(level)| == (|level| + 1) / 2
  {
    if |level| > 1 {
      PairsLength(level[2..]);
    }
  }

  function FoldRoot(h: string -> string, level: seq<string>): string
    requires level != []
    decreases |level|
  {
    PairsLength(level);
    if |level| == 1 then level[0] else FoldRoot(h, NextLevel(h, level))
  }

  function SortedLeaves(h: string -> string, data: seq<string>): (leaves: seq<string>)
    ensures |leaves| == |data|
  {
    StableSort(HashText, StringLess, Map(h, data))
  }

  function MerkleRoot(h: string -> string, data: seq<string>): string {
    if data == [] then ZERO_ROOT else FoldRoot(h, SortedLeaves(h, data))
  }

  lemma SortedLeavesPermute(h: string -> string, data: seq<string>)
    ensures multiset(SortedLeaves(h, data)) == multiset(Map(h, data))
    ensures SortedBy(HashText, StringLess, SortedLeaves(h, data))
  {
    StringLessIsTotalOrder();
    StableSortMeetsSpec(HashText, StringLess, Map(h, data));
  }

  /** The hashes `depth` levels below `node`, left to right. */
  ghost function Leaves(node: MerkleNode?, depth: nat): seq<string> {
    if node == null then []
    else if depth == 0 then [node.hash]
    else Leaves(node.left, depth - 1) + Leaves(node.right, depth - 1)
  }

  /** Down to `depth`, every node has a left child and holds the hash of its children's hashes. */
  ghost predicate WellHashed(h: string -> string, node: MerkleNode?, depth: nat) {
    node == null || depth == 0 ||
    (&& node.left != null
     && node.hash == h(node.left.hash + if node.right == null then "" else node.right.hash)
     && WellHashed(h, node.left, depth - 1) && WellHashed(h, node.right, depth - 1))
  }

  ghost function LeavesTo(nodes: seq<MerkleNode>, k: nat, depth: nat): seq<string>
    requires k <= |nodes|
  {
    if k == 0 then [] else LeavesTo(nodes, k - 1, depth) + Leaves(nodes[k - 1], depth)
  }

  ghost predicate AllWellHashed(h: string -> string, nodes: seq<MerkleNode>, depth: nat) {
    forall i :: 0 <= i < |nodes| ==> WellHashed(h, nodes[i], depth)
  }

  /** Trees of one depth that together carry `leaves`. */
  ghost predicate Forest(h: string -> string, nodes: seq<MerkleNode>, depth: nat, leaves: seq<string>) {
    AllWellHashed(h, nodes, depth) && LeavesTo(nodes, |nodes|, depth) == leaves
  }

  lemma {:induction false} LeafHashesTo(nodes: seq<MerkleNode>, k: nat)
    requires k <= |nodes|
    ensures LeavesTo(nodes, k, 0) == Map(NodeHash, nodes)[..k]
  {
    if k > 0 {
      LeafHashesTo(nodes, k - 1);
    }
  }

  lemma LeavesAreForest(h: string -> string, nodes: seq<MerkleNode>)
    ensures Forest(h, nodes, 0, Map(NodeHash, nodes))
  {
    LeafHashesTo(nodes, |nodes|);
  }

  lemma {:induction false} LeavesToOfPrefix(nodes: seq<MerkleNode>, node: MerkleNode, k: nat, depth: nat)
    requires k <= |nodes|
    ensures LeavesTo(nodes + [node], k, depth) == LeavesTo(nodes, k, depth)
  {
    if k > 0 {
      LeavesToOfPrefix(nodes, node, k - 1, depth);
    }
  }

  /** One parent over one or two neighbours keeps their leaves. */
  lemma ParentLeaves(nodes: seq<MerkleNode>, i: nat, parent: MerkleNode, depth: nat)
    requires i < |nodes| && parent.left == nodes[i]
    requires parent.right == if i + 1 < |nodes| then nodes[i + 1] else null
    ensures LeavesTo(nodes, i, depth) + Leaves(parent, depth + 1) == LeavesTo(nodes, Min(i + 2, |nodes|), depth)
  {
    assert LeavesTo(nodes, i + 1, depth) == LeavesTo(nodes, i, depth) + Leaves(nodes[i], depth);
    assert Leaves(parent, depth + 1) == Leaves(nodes[i], depth) + Leaves(parent.right, depth);
  }

  lemma ParentWellHashed(h: string -> string, nodes: seq<MerkleNode>, i: nat, parent: MerkleNode, depth: nat)
    requires AllWellHashed(h, nodes, depth) && i < |nodes| && IsParent(h, nodes, i, parent)
    ensures WellHashed(h, parent, depth + 1)
  {
  }

  /** `parent` is what one round of the inner loop makes of position `i`. */
  ghost predicate IsParent(h: string -> string, nodes: seq<MerkleNode>, i: nat, parent: MerkleNode)
    requires i < |nodes|
  {
    && parent.left == nodes[i] && parent.right == (if i + 1 < |nodes| then nodes[i + 1] else null)
    && parent.hash == h(nodes[i].hash + if i + 1 < |nodes| then nodes[i + 1].hash else "")
  }

  lemma AllWellHashedOneMore(h: string -> string, built: seq<MerkleNode>, parent: MerkleNode, depth: nat)
    requires AllWellHashed(h, built, depth) && WellHashed(h, parent, depth)
    ensures AllWellHashed(h, built + [parent], depth)
  {
  }

  lemma ForestOneMore(h: string -> string, nodes: seq<MerkleNode>, i: nat, built: seq<MerkleNode>,
                      parent: MerkleNode, depth: nat)
    requires AllWellHashed(h, nodes, depth) && i < |nodes| && IsParent(h, nodes, i, parent)
    requires Forest(h, built, depth + 1, LeavesTo(nodes, i, depth))
    ensures Forest(h, built + [parent], depth + 1, LeavesTo(nodes, Min(i + 2, |nodes|), depth))
  {
    ParentWellHashed(h, nodes, i, parent, depth);
    AllWellHashedOneMore(h, built, parent, depth + 1);
    LeavesOneMore(nodes, i, built, parent, depth);
  }

  lemma LeavesOneMore(nodes: seq<MerkleNode>, i: nat, built: seq<MerkleNode>, parent: MerkleNode, depth: nat)
    requires i < |nodes| && parent.left == nodes[i]
    requires parent.right == if i + 1 < |nodes| then nodes[i + 1] else null
    requires LeavesTo(built, |built|, depth + 1) == LeavesTo(nodes, i, depth)
    ensures LeavesTo(built + [parent], |built + [parent]|, depth + 1) == LeavesTo(nodes, Min(i + 2, |nodes|), depth)
  {
    LeavesToOfPrefix(built, parent, |built|, depth + 1);
    ParentLeaves(nodes, i, parent, depth);
  }

  /** The tree carries the sorted leaf hashes, all at one depth, under nodes that hash their children. */
  ghost predicate Authenticates(h: string -> string, root: MerkleNode?, leaves: seq<string>) {
    exists depth :: WellHashed(h, root, depth) && Leaves(root, depth) == leaves
  }

  lemma RootAuthenticates(h: string -> string, nodes: seq<MerkleNode>, depth: nat, leaves: seq<string>)
    requires |nodes| == 1 && Forest(h, nodes, depth, leaves)
    ensures Authenticates(h, nodes[0], leaves)
  {
    assert LeavesTo(nodes, 1, depth) == LeavesTo(nodes, 0, depth) + Leaves(nodes[0], depth);
  }

  /**
   The builder, for every outcome of its unstable sort: nodes with equal hashes may come out
   in any order, and the root is `MerkleRoot` all the same.
   */
  method BuildMerkleTree(h: string -> string, data: seq<string>) returns (tree: MerkleTree)
    ensures tree.GetRootHash() == MerkleRoot(h, data)
    ensures data != [] ==> Authenticates(h, tree.root, SortedLeaves(h, data))
  {
    if |data| == 0 {
      var empty := new MerkleNode.Empty();
      tree := new MerkleTree(empty);
      return;
    }

    var nodes: seq<MerkleNode> := [];
    for k := 0 to |data|
      invariant |nodes| == k
      invariant Map(NodeHash, nodes) == Map(h, data[..k])
    {
      var leaf := new MerkleNode(h, null, null, data[k]);
      nodes := nodes + [leaf];
    }
    assert data[..|data|] == data;

    // sort.Slice promises a sorted permutation and nothing about ties
    SortedNodesExist(nodes);
    var sorted: seq<MerkleNode> :| multiset(sorted) == multiset(nodes) && SortedBy(NodeHash, StringLess, sorted);
    SortedNodesHashes(h, data, nodes, sorted);
    nodes := sorted;

    ghost var depth := 0;
    LeavesAreForest(h, nodes);
    while |nodes| > 1
      invariant nodes != []
      invariant FoldRoot(h, Map(NodeHash, nodes)) == MerkleRoot(h, data)
      invariant Forest(h, nodes, depth, SortedLeaves(h, data))
      decreases |nodes|
    {
      PairsLength(Map(NodeHash, nodes));
      nodes := BuildLevel(h, nodes, depth, SortedLeaves(h, data));
      depth := depth + 1;
    }
    RootAuthenticates(h, nodes, depth, SortedLeaves(h, data));
    tree := new MerkleTree(nodes[0]);
  }

  /** The inner loop: one parent for each two neighbours, and one for an odd last node. */
  method BuildLevel(h: string -> string, nodes: seq<MerkleNode>, ghost depth: nat, ghost leaves: seq<string>)
    returns (nextLevel: seq<MerkleNode>)
    requires |nodes| > 1 && Forest(h, nodes, depth, leaves)
    ensures Forest(h, nextLevel, depth + 1, leaves)
    ensures Map(NodeHash, nextLevel) == NextLevel(h, Map(NodeHash, nodes))
    ensures |nextLevel| == |NextLevel(h, Map(NodeHash, nodes))|
  {
    ghost var level := Map(NodeHash, nodes);
    nextLevel := [];
    var i := 0;
    while i < |nodes|
      invariant 0 <= i
      invariant Map(NodeHash, nextLevel) + NextLevel(h, From(level, i)) == NextLevel(h, level)
      invariant Forest(h, nextLevel, depth + 1, LeavesTo(nodes, Min(i, |nodes|), depth))
      decreases |nodes| - i
    {
      var parent;
      if i + 1 < |nodes| {
        parent := new MerkleNode(h, nodes[i], nodes[i + 1], "");
      } else {
        parent := new MerkleNode(h, nodes[i], null, "");
        assert nodes[i].hash + "" == nodes[i].hash;
      }
      LevelStep(h, level, i, Map(NodeHash, nextLevel), parent.hash);
      MapAppendOne(NodeHash, nextLevel, parent);
      ForestOneMore(h, nodes, i, nextLevel, parent, depth);
      nextLevel := nextLevel + [parent];
      i := i + 2;
    }
    assert |Map(NodeHash, nextLevel)| == |nextLevel|;
  }

  ghost function From(level: seq<string>, i: nat): seq<string> {
    if i < |level| then level[i..] else []
  }

  ghost function ParentPreimage(level: seq<string>, i: nat): string
    requires i < |level|
  {
    if i + 1 < |level| then level[i] + level[i + 1] else level[i]
  }

  lemma LevelStep(h: string -> string, level: seq<string>, i: nat, built: seq<string>, parent: string)
    requires i < |level| && parent == h(ParentPreimage(level, i))
    ensures (built + [parent]) + NextLevel(h, From(level, i + 2)) == built + NextLevel(h, From(level, i))
  {
    if i + 1 < |level| {
      assert level[i..][2..] == From(level, i + 2);
    }
    assert Pairs(From(level, i)) == [ParentPreimage(level, i)] + Pairs(From(level, i + 2));
    assert NextLevel(h, From(level, i)) == [parent] + NextLevel(h, From(level, i + 2));
  }

  lemma SortedNodesExist(nodes: seq<MerkleNode>)
    ensures exists s: seq<MerkleNode> :: multiset(s) == multiset(nodes) && SortedBy(NodeHash, StringLess, s)
  {
    StringLessIsTotalOrder();
    StableSortMeetsSpec(NodeHash, StringLess, nodes);
  }

  lemma SortedNodesHashes(h: string -> string, data: seq<string>, nodes: seq<MerkleNode>, sorted: seq<MerkleNode>)
    requires Map(NodeHash, nodes) == Map(h, data)
    requires multiset(sorted) == multiset(nodes) && SortedBy(NodeHash, StringLess, sorted)
    ensures Map(NodeHash, sorted) == SortedLeaves(h, data)
    ensures |sorted| == |data|
  {
    MapKeepsPermutation(NodeHash, sorted, nodes);
    SortedLeavesPermute(h, data);
    StringLessIsTotalOrder();
    SortedPermutationUnique(HashText, StringLess, Map(NodeHash, sorted), SortedLeaves(h, data));
    assert |sorted| == |Map(NodeHash, sorted)|;
  }

  // ----- Equal data give equal roots, for every hash -----

  /** The root depends on the multiset of the data only; no assumption on the hash is needed. */
  lemma RootIgnoresOrder(h: string -> string, data: seq<string>, data': seq<string>)
    requires multiset(data) == multiset(data')
    ensures MerkleRoot(h, data) == MerkleRoot(h, data')
  {
    MapKeepsPermutation(h, data, data');
    SortedLeavesPermute(h, data);
    SortedLeavesPermute(h, data');
    StringLessIsTotalOrder();
    SortedPermutationUnique(HashText, StringLess, SortedLeaves(h, data), SortedLeaves(h, data'));
    assert |multiset(data)| == |data| && |multiset(data')| == |data'|;
  }

  // ----- Equal roots come from equal data -----

  ghost function Elements<T>(s: seq<T>): set<T> {
    set x | x in s
  }

  /** Every string hashed while folding `level` to its root. */
  ghost function InnerPreimages(h: string -> string, level: seq<string>): set<string>
    decreases |level|
  {
    PairsLength(level);
    if |level| <= 1 then {} else Elements(Pairs(level)) + InnerPreimages(h, NextLevel(h, level))
  }

  /** Every string hashed while summarising `data`. */
  ghost function Preimages(h: string -> string, data: seq<string>): set<string> {
    Elements(data) + InnerPreimages(h, SortedLeaves(h, data))
  }

  /** `top` is the level `n` steps above `bottom`, no step starting from a finished tree. */
  ghost predicate Above(h: string -> string, top: seq<string>, bottom: seq<string>, n: nat)
    decreases n
  {
    if n == 0 then top == bottom else |bottom| > 1 && Above(h, top, NextLevel(h, bottom), n - 1)
  }

  /** SHA-256 in hexadecimal: every digest has 64 characters. */
  ghost predicate HashLength(h: string -> string) {
    forall x :: |h(x)| == 64
  }

  ghost predicate Hashes(level: seq<string>) {
    forall i :: 0 <= i < |level| ==> |level[i]| == 64
  }

  lemma FirstPairLength(level: seq<string>)
    requires Hashes(level) && |level| > 1
    ensures Pairs(level) != [] && |Pairs(level)[0]| == 128
  {
  }

  lemma {:induction false} PairsInjective(a: seq<string>, b: seq<string>)
    requires Hashes(a) && Hashes(b)
    requires Pairs(a) == Pairs(b)
    ensures a == b
  {
    PairsLength(a);
    PairsLength(b);
    if |a| > 1 && |b| > 1 {
      assert a[0] + a[1] == Pairs(a)[0] == Pairs(b)[0] == b[0] + b[1];
      assert a[0] == (a[0] + a[1])[..64] && b[0] == (b[0] + b[1])[..64];
      assert a[1] == (a[0] + a[1])[64..] && b[1] == (b[0] + b[1])[64..];
      assert Pairs(a[2..]) == Pairs(a)[1..] && Pairs(b[2..]) == Pairs(b)[1..];
      PairsInjective(a[2..], b[2..]);
      assert a == [a[0], a[1]] + a[2..] && b == [b[0], b[1]] + b[2..];
    } else if |a| > 1 {
      FirstPairLength(a);
    } else if |b| > 1 {
      FirstPairLength(b);
    }
  }

  lemma {:induction false} MapInjective(f: string -> string, domain: set<string>, s: seq<string>, t: seq<string>)
    requires InjectiveOn(f, domain) && Elements(s) <= domain && Elements(t) <= domain
    requires Map(f, s) == Map(f, t)
    ensures s == t
  {
    assert |s| == |t|;
    forall i | 0 <= i < |s| ensures s[i] == t[i] {
      assert f(s[i]) == Map(f, s)[i] == Map(f, t)[i] == f(t[i]);
      assert s[i] in Elements(s) && t[i] in Elements(t);
    }
  }

  /** Equal levels one step up force the relation one step down. */
  lemma {:induction false} Descend(h: string -> string, a: seq<string>, b: seq<string>, n: nat)
    requires HashLength(h) && Hashes(a) && Hashes(b)
    requires |a| > 1 && |b| > 1
    requires InjectiveOn(h, InnerPreimages(h, a) + InnerPreimages(h, b))
    requires Above(h, NextLevel(h, a), NextLevel(h, b), n)
    ensures Above(h, a, b, n)
    decreases n
  {
    if n == 0 {
      MapInjective(h, InnerPreimages(h, a) + InnerPreimages(h, b), Pairs(a), Pairs(b));
      PairsInjective(a, b);
    } else {
      Descend(h, a, NextLevel(h, b), n - 1);
    }
  }

  lemma {:induction false} RootAbove(h: string -> string, level: seq<string>) returns (n: nat)
    requires level != []
    ensures Above(h, [FoldRoot(h, level)], level, n)
    decreases |level|
  {
    PairsLength(level);
    if |level| == 1 {
      n := 0;
    } else {
      n := RootAbove(h, NextLevel(h, level));
      n := n + 1;
    }
  }

  /** Folds with equal roots are levels of one another. */
  lemma {:induction false} SameRootNested(h: string -> string, a: seq<string>, b: seq<string>)
    returns (n: nat, up: bool)
    requires HashLength(h) && Hashes(a) && Hashes(b)
    requires a != [] && b != []
    requires InjectiveOn(h, InnerPreimages(h, a) + InnerPreimages(h, b))
    requires FoldRoot(h, a) == FoldRoot(h, b)
    ensures if up then Above(h, a, b, n) else Above(h, b, a, n)
    decreases |a| + |b|
  {
    PairsLength(a);
    PairsLength(b);
    if |a| == 1 {
      n := RootAbove(h, b);
      up := true;
      assert a == [FoldRoot(h, b)];
    } else if |b| == 1 {
      n := RootAbove(h, a);
      up := false;
      assert b == [FoldRoot(h, a)];
    } else {
      n, up := SameRootNested(h, NextLevel(h, a), NextLevel(h, b));
      if up {
        Descend(h, a, b, n);
      } else {
        Descend(h, b, a, n);
      }
    }
  }

  /** A level above another starts with the hash of a string of at least 64 characters. */
  lemma {:induction false} AboveIsInner(h: string -> string, top: seq<string>, bottom: seq<string>, n: nat)
    returns (p: string)
    requires Hashes(bottom) && HashLength(h)
    requires n > 0 && Above(h, top, bottom, n)
    ensures top != [] && |p| >= 64 && p in InnerPreimages(h, bottom) && top[0] == h(p)
    decreases n
  {
    PairsLength(bottom);
    if n == 1 {
      p := Pairs(bottom)[0];
      assert p in Elements(Pairs(bottom));
    } else {
      p := AboveIsInner(h, top, NextLevel(h, bottom), n - 1);
    }
  }

  lemma LeavesAreHashes(h: string -> string, data: seq<string>)
    requires HashLength(h)
    ensures Hashes(SortedLeaves(h, data))
  {
    SortedLeavesPermute(h, data);
    forall i | 0 <= i < |SortedLeaves(h, data)| ensures |SortedLeaves(h, data)[i]| == 64 {
      assert SortedLeaves(h, data)[i] in multiset(SortedLeaves(h, data));
      assert SortedLeaves(h, data)[i] in multiset(Map(h, data));
      var j := FindIn(Map(h, data), SortedLeaves(h, data)[i]);
    }
  }

  lemma LeafPreimage(h: string -> string, data: seq<string>) returns (x: string)
    requires data != []
    ensures SortedLeaves(h, data) != [] && x in data && SortedLeaves(h, data)[0] == h(x)
  {
    SortedLeavesPermute(h, data);
    assert SortedLeaves(h, data)[0] in multiset(SortedLeaves(h, data));
    assert SortedLeaves(h, data)[0] in multiset(Map(h, data));
    var i := FindIn(Map(h, data), SortedLeaves(h, data)[0]);
    x := data[i];
  }

  lemma {:induction false} RootIsAHash(h: string -> string, level: seq<string>, pre: set<string>)
    requires level != [] && (|level| == 1 ==> exists x :: x in pre && level[0] == h(x))
    ensures exists x :: x in pre + InnerPreimages(h, level) && FoldRoot(h, level) == h(x)
    decreases |level|
  {
    PairsLength(level);
    if |level| > 1 {
      var next := NextLevel(h, level);
      assert Pairs(level)[0] in Elements(Pairs(level));
      assert next[0] == h(Pairs(level)[0]);
      RootIsAHash(h, next, Elements(Pairs(level)));
    }
  }

  /** What the hash must satisfy on the strings that two summaries hash; nothing is asked elsewhere. */
  ghost predicate CollisionFree(h: string -> string, pre: set<string>) {
    InjectiveOn(h, pre) && forall x :: x in pre ==> h(x) != ZERO_ROOT
  }

  /** The two trees cannot differ in height: leaves are shorter than any inner preimage. */
  lemma SameHeight(h: string -> string, data: seq<string>, data': seq<string>, n: nat)
    requires HashLength(h) && data != [] && data' != [] && (forall x :: x in data ==> |x| < 64)
    requires InjectiveOn(h, Preimages(h, data) + Preimages(h, data'))
    requires Above(h, SortedLeaves(h, data), SortedLeaves(h, data'), n)
    ensures SortedLeaves(h, data) == SortedLeaves(h, data')
  {
    if n > 0 {
      LeavesAreHashes(h, data');
      var x := LeafPreimage(h, data);
      var p := AboveIsInner(h, SortedLeaves(h, data), SortedLeaves(h, data'), n);
    }
  }

  /** Equal roots of short leaves mean equal multisets of leaves. */
  lemma RootDeterminesData(h: string -> string, data: seq<string>, data': seq<string>)
    requires HashLength(h)
    requires forall x :: x in data || x in data' ==> |x| < 64
    requires CollisionFree(h, Preimages(h, data) + Preimages(h, data'))
    requires MerkleRoot(h, data) == MerkleRoot(h, data')
    ensures multiset(data) == multiset(data')
  {
    if data == [] || data' == [] {
      NonEmptyRootIsNotZero(h, data);
      NonEmptyRootIsNotZero(h, data');
    } else {
      SameRootSameLeaves(h, data, data');
      SortedLeavesPermute(h, data);
      SortedLeavesPermute(h, data');
      InjectiveMapReflectsPermutation(h, Preimages(h, data) + Preimages(h, data'), data, data');
    }
  }

  lemma InjectiveOnFewer(h: string -> string, domain: set<string>, fewer: set<string>)
    requires InjectiveOn(h, domain) && fewer <= domain
    ensures InjectiveOn(h, fewer)
  {
  }

  lemma SameRootSameLeaves(h: string -> string, data: seq<string>, data': seq<string>)
    requires HashLength(h) && data != [] && data' != []
    requires forall x :: x in data || x in data' ==> |x| < 64
    requires InjectiveOn(h, Preimages(h, data) + Preimages(h, data'))
    requires MerkleRoot(h, data) == MerkleRoot(h, data')
    ensures SortedLeaves(h, data) == SortedLeaves(h, data')
  {
    LeavesAreHashes(h, data);
    LeavesAreHashes(h, data');
    InjectiveOnFewer(h, Preimages(h, data) + Preimages(h, data'),
                     InnerPreimages(h, SortedLeaves(h, data)) + InnerPreimages(h, SortedLeaves(h, data')));
    InjectiveOnFewer(h, Preimages(h, data) + Preimages(h, data'), Preimages(h, data') + Preimages(h, data));
    var n, up := SameRootNested(h, SortedLeaves(h, data), SortedLeaves(h, data'));
    if up {
      SameHeight(h, data, data', n);
    } else {
      SameHeight(h, data', data, n);
    }
  }

  lemma NonEmptyRootIsNotZero(h: string -> string, data: seq<string>)
    requires forall x :: x in Preimages(h, data) ==> h(x) != ZERO_ROOT
    ensures data != [] ==> MerkleRoot(h, data) != ZERO_ROOT
  {
    if data != [] {
      var x := LeafPreimage(h, data);
      assert x in Elements(data);
      SortedLeavesPermute(h, data);
      RootIsAHash(h, SortedLeaves(h, data), Elements(data));
    }
  }

  // ----- Memories as leaves -----

  /** What anti-entropy knows about a memory when it summarises the store. */
  datatype Version = Version(id: Uuid, version: int)

  const INT64_BOUND := 0x8000_0000_0000_0000

  ghost predicate Int64(v: Version) {
    -INT64_BOUND <= v.version < INT64_BOUND
  }

  function Leaf(v: Version): string {
    v.id + DecimalInt(v.version)
  }

  lemma LeafInjective(v: Version, w: Version)
    requires Leaf(v) == Leaf(w)
    ensures v == w
  {
    assert v.id == Leaf(v)[..36] && w.id == Leaf(w)[..36];
    assert DecimalInt(v.version) == Leaf(v)[36..] && DecimalInt(w.version) == Leaf(w)[36..];
    DecimalIntInjective(v.version, w.version);
  }

  lemma LeafLength(v: Version)
    requires Int64(v)
    ensures 37 <= |Leaf(v)| <= 56
  {
    assert Pow10(19) == 10000000000000000000 by {
      assert Pow10(4) == 10000;
      assert Pow10(8) == 100000000;
      assert Pow10(12) == 1000000000000;
      assert Pow10(16) == 10000000000000000;
    }
    DecimalLength(if v.version < 0 then -v.version else v.version, 19);
  }

  /**
   Two nodes' roots agree exactly when their stores hold the same multiset of (id, version),
   whatever order either store is listed in.
   */
  lemma RootsAgreeExactly(h: string -> string, vs: seq<Version>, ws: seq<Version>)
    requires HashLength(h)
    requires forall v :: v in vs || v in ws ==> Int64(v)
    requires CollisionFree(h, Preimages(h, Map(Leaf, vs)) + Preimages(h, Map(Leaf, ws)))
    ensures MerkleRoot(h, Map(Leaf, vs)) == MerkleRoot(h, Map(Leaf, ws)) <==> multiset(vs) == multiset(ws)
  {
    if multiset(vs) == multiset(ws) {
      MapKeepsPermutation(Leaf, vs, ws);
      RootIgnoresOrder(h, Map(Leaf, vs), Map(Leaf, ws));
    }
    if MerkleRoot(h, Map(Leaf, vs)) == MerkleRoot(h, Map(Leaf, ws)) {
      LeavesAreShort(vs);
      LeavesAreShort(ws);
      RootDeterminesData(h, Map(Leaf, vs), Map(Leaf, ws));
      LeavesReflectPermutation(vs, ws);
    }
  }

  lemma LeavesAreShort(vs: seq<Version>)
    requires forall v :: v in vs ==> Int64(v)
    ensures forall x :: x in Map(Leaf, vs) ==> |x| < 64
  {
    forall i | 0 <= i < |vs| ensures |Map(Leaf, vs)[i]| < 64 {
      LeafLength(vs[i]);
    }
  }

  lemma LeavesReflectPermutation(vs: seq<Version>, ws: seq<Version>)
    requires multiset(Map(Leaf, vs)) == multiset(Map(Leaf, ws))
    ensures multiset(vs) == multiset(ws)
  {
    forall v, w | Leaf(v) == Leaf(w) ensures v == w {
      LeafInjective(v, w);
    }
    InjectiveMapReflectsPermutation(Leaf, Elements(vs) + Elements(ws), vs, ws);
  }

  /**
   The length gap matters: the builder has no leaf tag, so with leaves of arbitrary length a
   one-leaf list summarises to the root of a two-leaf list, under any hash at all.
   */
  lemma ArbitraryLeavesConfuse(h: string -> string, x: string, y: string)
    requires !StringLess(h(y), h(x))
    ensures MerkleRoot(h, [h(x) + h(y)]) == MerkleRoot(h, [x, y])
    ensures multiset([h(x) + h(y)]) != multiset([x, y])
  {
    var a, b := h(x), h(y);
    assert Map(h, [x, y]) == [a, b] && [a, b][1..] == [b] && [b][1..] == [];
    assert StableSort(HashText, StringLess, [b]) == [b];
    assert SortedLeaves(h, [x, y]) == [a, b];
    assert Pairs([a, b]) == [a + b];
    assert NextLevel(h, [a, b]) == [h(a + b)];
    assert Map(h, [a + b]) == [h(a + b)] && [h(a + b)][1..] == [];
    assert SortedLeaves(h, [a + b]) == [h(a + b)];
    assert |multiset([a + b])| == 1 && |multiset([x, y])| == 2;
  }
}
