/** Which nodes hold a shard: a window of `replicationFactor` nodes from `hash mod n`. */
module Sharding {
  import opened Common
  import opened Gossip
  import opened Text

  /** The 32-bit hash of a shard key; on a 64-bit `int` the conversion cannot turn negative. */
  type Hash32 = x: int | 0 <= x < 0x1_0000_0000

  datatype ShardingStrategy = ShardingStrategy(replicationFactor: nat, shardHash: string -> Hash32) {

    function ComputeShardKey(tenantID: string, agentID: string, memoryID: string): string {
      tenantID + ":" + agentID + ":" + memoryID
    }

    /** The position that the hash reaches by counting nodes from 0, round after round. */
    function Start(shardKey: string, n: nat): (start: nat)
      requires n > 0
      ensures start < n && exists q: nat :: shardHash(shardKey) == Rounds(q, n, start)
    {
      var hash := shardHash(shardKey);
      assert hash == Rounds(hash / n, n, hash % n);
      hash % n
    }

    method GetReplicaNodes(shardKey: string, allNodes: seq<Node>) returns (replicas: seq<Node>)
      ensures replicas == if allNodes == [] then []
        else Window(allNodes, Start(shardKey, |allNodes|), replicationFactor)
    {
      if |allNodes| == 0 {
        return allNodes;
      }
      var hash := shardHash(shardKey);
      replicas := [];
      var startIdx := hash % |allNodes|;
      var i := 0;
      while i < replicationFactor && i < |allNodes|
        invariant 0 <= i <= Min(replicationFactor, |allNodes|)
        invariant replicas == Window(allNodes, startIdx, i)
      {
        var idx := (startIdx + i) % |allNodes|;
        WrapAround(startIdx, i, |allNodes|);
        replicas := replicas + [allNodes[idx]];
        i := i + 1;
      }
    }

    method IsShardOwner(nodeID: string, shardKey: string, allNodes: seq<Node>) returns (owner: bool)
      ensures owner <==> allNodes != [] && Owns(nodeID, allNodes, Start(shardKey, |allNodes|), replicationFactor)
    {
      var replicas := GetReplicaNodes(shardKey, allNodes);
      for k := 0 to |replicas|
        invariant forall j :: 0 <= j < k ==> replicas[j].id != nodeID
      {
        if replicas[k].id == nodeID {
          return true;
        }
      }
      return false;
    }

    method GetPrimaryNode(shardKey: string, allNodes: seq<Node>) returns (primary: Node?)
      ensures primary == if allNodes == [] || replicationFactor == 0 then null
                         else allNodes[Start(shardKey, |allNodes|)]
    {
      var replicas := GetReplicaNodes(shardKey, allNodes);
      if |replicas| == 0 {
        return null;
      }
      return replicas[0];
    }

    method IsPrimaryOwner(nodeID: string, shardKey: string, allNodes: seq<Node>) returns (primary: bool)
      ensures primary <==> allNodes != [] && replicationFactor > 0 && allNodes[Start(shardKey, |allNodes|)].id == nodeID
    {
      var replicas := GetReplicaNodes(shardKey, allNodes);
      if |replicas| == 0 {
        return false;
      }
      return replicas[0].id == nodeID;
    }
  }

  /** The number of steps in `q` full rounds of `n` nodes and `p` more. */
  function Rounds(q: nat, n: nat, p: nat): nat {
    q * n + p
  }

  /** The list turned round so that `start` comes first, cut to `rf` nodes. */
  function Window(nodes: seq<Node>, start: nat, rf: nat): seq<Node>
    requires start < |nodes|
  {
    (nodes[start..] + nodes[..start])[..Min(rf, |nodes|)]
  }

  ghost predicate Owns(id: string, nodes: seq<Node>, start: nat, rf: nat)
    requires start < |nodes|
  {
    exists i :: 0 <= i < |Window(nodes, start, rf)| && Window(nodes, start, rf)[i].id == id
  }

  // ----- Placement -----

  lemma WrapAround(s: nat, i: nat, n: nat)
    requires s < n && i < n
    ensures (s + i) % n == if s + i < n then s + i else s + i - n
  {
  }

  /** The steps from `start` forward to `i`, going round. */
  function Distance(start: nat, i: nat, n: nat): nat
    requires start < n && i < n
  {
    if start <= i then i - start else i + n - start
  }

  /** The window holds distinct nodes and begins at the primary. */
  lemma WindowIsDistinct(nodes: seq<Node>, start: nat, rf: nat)
    requires DistinctIds(nodes) && start < |nodes| && rf > 0
    ensures DistinctIds(Window(nodes, start, rf))
    ensures Window(nodes, start, rf)[0] == nodes[start]
  {
    var window := Window(nodes, start, rf);
    assert forall i :: 0 <= i < |window| ==>
      window[i] == nodes[if start + i < |nodes| then start + i else start + i - |nodes|];
  }

  /** A node owns a shard exactly when it is fewer than `rf` steps after the start. */
  lemma OwnershipByDistance(nodes: seq<Node>, start: nat, rf: nat, p: nat)
    requires DistinctIds(nodes) && start < |nodes| && p < |nodes|
    ensures Owns(nodes[p].id, nodes, start, rf) <==> Distance(start, p, |nodes|) < rf
  {
    var n, window, d := |nodes|, Window(nodes, start, rf), Distance(start, p, |nodes|);
    if d < rf {
      assert window[d] == nodes[p];
    }
    assert forall i :: 0 <= i < |window| ==> window[i] == nodes[if start + i < n then start + i else start + i - n];
  }

  ghost function OwningStarts(nodes: seq<Node>, rf: nat, p: nat): set<nat>
    requires p < |nodes|
  {
    set start: nat | start < |nodes| && Owns(nodes[p].id, nodes, start, rf)
  }

  /** The start from which position `p` is `d` steps away. */
  function StartAt(n: nat, p: nat, d: nat): (start: nat)
    requires p < n && d < n
    ensures start < n
  {
    if d <= p then p - d else p + n - d
  }

  lemma DistanceFromStart(n: nat, p: nat, d: nat, start: nat)
    requires p < n && d < n && start < n
    ensures Distance(start, p, n) == d <==> start == StartAt(n, p, d)
  {
  }

  lemma {:induction false} StartsWithin(n: nat, p: nat, m: nat)
    requires p < n && m <= n
    ensures |set start: nat | start < n && Distance(start, p, n) < m| == m
  {
    var s := set start: nat | start < n && Distance(start, p, n) < m;
    if m == 0 {
      assert s == {};
    } else {
      StartsWithin(n, p, m - 1);
      var last := StartAt(n, p, m - 1);
      var rest := set start: nat | start < n && Distance(start, p, n) < m - 1;
      forall start: nat | start < n ensures start in s <==> start in rest || start == last {
        DistanceFromStart(n, p, m - 1, start);
      }
      DistanceFromStart(n, p, m - 1, last);
      assert s == rest + {last} && last !in rest;
    }
  }

  /** Load is even: of the n start positions, each node owns exactly min(rf, n). */
  lemma EvenLoad(nodes: seq<Node>, rf: nat, p: nat)
    requires DistinctIds(nodes) && p < |nodes|
    ensures |OwningStarts(nodes, rf, p)| == Min(rf, |nodes|)
  {
    var n := |nodes|;
    var m := Min(rf, n);
    forall start: nat | start < n
      ensures Owns(nodes[p].id, nodes, start, rf) <==> Distance(start, p, n) < m
    {
      OwnershipByDistance(nodes, start, rf, p);
    }
    assert OwningStarts(nodes, rf, p) == set start: nat | start < n && Distance(start, p, n) < m;
    StartsWithin(n, p, m);
  }

  /** A cluster no larger than the replication factor: every listed node owns every shard, in any list order. */
  lemma SmallClusterOwnsAll(nodes: seq<Node>, start: nat, rf: nat, id: string)
    requires DistinctIds(nodes) && start < |nodes| <= rf
    ensures Owns(id, nodes, start, rf) <==> exists p :: 0 <= p < |nodes| && nodes[p].id == id
  {
    if p :| 0 <= p < |nodes| && nodes[p].id == id {
      OwnershipByDistance(nodes, start, rf, p);
    }
  }

  /**
   The node listed first replicates a shard it is not primary for exactly when the window starts
   after it and wraps round to it.
   */
  lemma FirstNodeReplicates(nodes: seq<Node>, start: nat, rf: nat)
    requires DistinctIds(nodes) && start < |nodes|
    ensures Owns(nodes[0].id, nodes, start, rf) && nodes[start].id != nodes[0].id
        <==> start != 0 && |nodes| - start < rf
  {
    OwnershipByDistance(nodes, start, rf, 0);
  }

  lemma RoundsDiffer(q: nat, q': nat, n: nat, s: nat, p: nat, k: nat)
    requires s < n && p < n && k < n && Rounds(q, n, s) + k == Rounds(q', n, p)
    ensures k == Distance(s, p, n)
  {
    assert q' * n - q * n == (q' - q) * n;
    FewRounds(q' - q, n);
  }

  lemma FewRounds(rounds: int, n: int)
    requires n > 0 && -n < rounds * n < 2 * n
    ensures rounds == 0 || rounds == 1
  {
  }

  lemma OneMoreRound(q: nat, n: nat, p: nat)
    ensures Rounds(q + 1, n, p) == Rounds(q, n, p) + n
  {
  }

  /** The hash and `k` more steps, counted round the list, end at position `p`. */
  ghost predicate CountsTo(hash: nat, k: nat, n: nat, p: nat) {
    exists q: nat :: hash + k == Rounds(q, n, p)
  }

  /**
   Placement without reference to a window: a node owns a shard exactly if counting on from the hash
   arrives at it within the first min(replication factor, n) nodes.
   */
  lemma PlacementByHash(ss: ShardingStrategy, key: string, nodes: seq<Node>, p: nat)
    requires DistinctIds(nodes) && p < |nodes|
    ensures Owns(nodes[p].id, nodes, ss.Start(key, |nodes|), ss.replicationFactor) <==>
      exists k: nat :: k < Min(ss.replicationFactor, |nodes|) && CountsTo(ss.shardHash(key), k, |nodes|, p)
  {
    var n, hash, start := |nodes|, ss.shardHash(key), ss.Start(key, |nodes|);
    var d := Distance(start, p, n);
    var q: nat :| hash == Rounds(q, n, start);
    OwnershipByDistance(nodes, start, ss.replicationFactor, p);
    if d < ss.replicationFactor {
      OneMoreRound(q, n, p);
      assert hash + d == Rounds(if start <= p then q else q + 1, n, p);
      assert CountsTo(hash, d, n, p);
    }
    if k: nat :| k < Min(ss.replicationFactor, n) && CountsTo(hash, k, n, p) {
      var q': nat :| hash + k == Rounds(q', n, p);
      RoundsDiffer(q, q', n, start, p, k);
    }
  }

  /** The primary is the node at which counting to the hash ends. */
  lemma PrimaryByHash(ss: ShardingStrategy, key: string, n: nat, p: nat)
    requires p < n
    ensures p == ss.Start(key, n) <==> CountsTo(ss.shardHash(key), 0, n, p)
  {
    var start := ss.Start(key, n);
    var q: nat :| ss.shardHash(key) == Rounds(q, n, start);
    if q': nat :| ss.shardHash(key) + 0 == Rounds(q', n, p) {
      RoundsDiffer(q, q', n, start, p, 0);
    }
    assert ss.shardHash(key) + 0 == Rounds(q, n, start);
  }

  // ----- Shard keys -----

  /** A shard key determines the three ids in it. */
  lemma ShardKeyInjective(ss: ShardingStrategy, t: Uuid, a: Uuid, m: Uuid, t': Uuid, a': Uuid, m': Uuid)
    requires ss.ComputeShardKey(t, a, m) == ss.ComputeShardKey(t', a', m')
    ensures t == t' && a == a' && m == m'
  {
    var k, k' := ss.ComputeShardKey(t, a, m), ss.ComputeShardKey(t', a', m');
    assert t == k[..36] && t' == k'[..36];
    assert a == k[37..73] && a' == k'[37..73];
    assert m == k[74..] && m' == k'[74..];
  }
}
