/** Membership as one node sees it: join, leave and health events update a table of remote nodes. */
module Gossip {

  class Node {
    const id: string
    const host: string
    const port: int
    var lastHeartbeat: int
    var memoryCount: int
    var qdrantStatus: string

    constructor (id: string, host: string, port: int, timestamp: int)
      ensures this.id == id && this.host == host && this.port == port
      ensures lastHeartbeat == timestamp && memoryCount == 0 && qdrantStatus == ""
    {
      this.id, this.host, this.port := id, host, port;
      lastHeartbeat, memoryCount, qdrantStatus := timestamp, 0, "";
    }
  }

  datatype Event =
    | Joined(id: string, host: string, port: int, timestamp: int)
    | Left(id: string, timestamp: int)
    | Health(id: string, memoryCount: int, qdrantStatus: string, timestamp: int)

  datatype Member = Member(host: string, port: int, lastHeartbeat: int, memoryCount: int, qdrantStatus: string)

  type View = map<string, Member>

  function Step(local: string, view: View, event: Event): View {
    match event
    case Joined(id, host, port, timestamp) =>
      if id == local then view else view[id := Member(host, port, timestamp, 0, "")]
    case Left(id, _) => view - {id}
    case Health(id, count, status, timestamp) =>
      if id in view then
        view[id := view[id].(lastHeartbeat := timestamp, memoryCount := count, qdrantStatus := status)]
      else view
  }

  class GossipProtocol {
    const localNode: Node
    const healthCheckTTL: int
    var nodes: map<string, Node>

    ghost predicate Valid()
      reads this
    {
      && localNode.id !in nodes && healthCheckTTL == 30_000
      && forall id :: id in nodes ==> nodes[id].id == id
    }

    ghost function Remote(): View
      reads this, nodes.Values
    {
      map id | id in nodes :: Member(nodes[id].host, nodes[id].port, nodes[id].lastHeartbeat,
                                     nodes[id].memoryCount, nodes[id].qdrantStatus)
    }

    constructor (local: Node)
      ensures Valid() && localNode == local && healthCheckTTL == 30_000
      ensures Remote() == map[]
    {
      localNode := local;
      healthCheckTTL := 30_000;
      nodes := map[];
    }

    method HandleHealthCheck(event: Event)
      requires Valid() && event.Health?
      modifies nodes.Values
      ensures Valid() && nodes == old(nodes)
      ensures Remote() == Step(localNode.id, old(Remote()), event)
    {
      if event.id in nodes {
        var node := nodes[event.id];
        node.lastHeartbeat := event.timestamp;
        node.memoryCount := event.memoryCount;
        node.qdrantStatus := event.qdrantStatus;
      }
    }

    method HandleNodeJoined(event: Event)
      requires Valid() && event.Joined?
      modifies this
      ensures Valid() && fresh(nodes.Values - old(nodes.Values))
      ensures Remote() == Step(localNode.id, old(Remote()), event)
    {
      if event.id == localNode.id {
        return;
      }
      var node := new Node(event.id, event.host, event.port, event.timestamp);
      nodes := nodes[event.id := node];
    }

    method HandleNodeLeft(event: Event)
      requires Valid() && event.Left?
      modifies this
      ensures Valid() && nodes.Values <= old(nodes.Values)
      ensures Remote() == Step(localNode.id, old(Remote()), event)
    {
      nodes := nodes - {event.id};
    }

    predicate IsActive(now: int, node: Node)
      reads node
    {
      now - node.lastHeartbeat < healthCheckTTL
    }

    ghost function ActiveIds(now: int): set<string>
      reads this, nodes.Values
    {
      set id | id in nodes && now - nodes[id].lastHeartbeat < 30_000
    }

    /** Local node first, then the remote nodes heard from within the TTL, in any order. */
    method GetActiveNodes(now: int) returns (active: seq<Node>)
      requires Valid()
      ensures active != [] && active[0] == localNode
      ensures DistinctIds(active) && |active| == 1 + |ActiveIds(now)|
      ensures forall node :: node in active[1..] <==> node in nodes.Values && now - node.lastHeartbeat < 30_000
    {
      var remote: seq<Node> := [];
      var remaining := nodes.Keys;
      while remaining != {}
        invariant remaining <= nodes.Keys && Lists(remote, ActiveIds(now) - remaining)
        decreases |remaining|
      {
        var id :| id in remaining;
        ListActive(remote, remaining, id, now);
        if IsActive(now, nodes[id]) {
          remote := remote + [nodes[id]];
        }
        remaining := remaining - {id};
      }
      active := [localNode] + remote;
      ActiveNodesListed(remote, remaining, now);
    }

    /** `remote` holds the nodes of the ids in `listed`, each once. */
    ghost predicate Lists(remote: seq<Node>, listed: set<string>)
      reads this
    {
      && DistinctIds(remote) && |remote| == |listed| && listed <= nodes.Keys
      && (forall i :: 0 <= i < |remote| ==> remote[i].id in listed && nodes[remote[i].id] == remote[i])
      && (forall id :: id in listed ==> nodes[id] in remote)
    }

    lemma ListOneMore(remote: seq<Node>, listed: set<string>, id: string)
      requires Valid() && Lists(remote, listed) && id in nodes && id !in listed
      ensures Lists(remote + [nodes[id]], listed + {id})
    {
    }

    lemma ListActive(remote: seq<Node>, remaining: set<string>, id: string, now: int)
      requires Valid() && remaining <= nodes.Keys && id in remaining && Lists(remote, ActiveIds(now) - remaining)
      ensures Lists(if IsActive(now, nodes[id]) then remote + [nodes[id]] else remote,
                    ActiveIds(now) - (remaining - {id}))
    {
      var listed := ActiveIds(now) - remaining;
      if IsActive(now, nodes[id]) {
        ListOneMore(remote, listed, id);
        assert ActiveIds(now) - (remaining - {id}) == listed + {id};
      } else {
        assert ActiveIds(now) - (remaining - {id}) == listed;
      }
    }

    lemma ActiveNodesListed(remote: seq<Node>, remaining: set<string>, now: int)
      requires Valid() && remaining == {} && Lists(remote, ActiveIds(now) - remaining)
      ensures var active := [localNode] + remote;
        && DistinctIds(active) && |active| == 1 + |ActiveIds(now)|
        && forall node :: node in active[1..] <==> node in nodes.Values && IsActive(now, node)
    {
      assert ActiveIds(now) - remaining == ActiveIds(now);
      ListedMembers(remote, ActiveIds(now));
      forall node | node in nodes.Values && IsActive(now, node) ensures node in remote {
        var id :| id in nodes && nodes[id] == node;
        assert id in ActiveIds(now);
      }
      assert ([localNode] + remote)[1..] == remote;
    }

    lemma ListedMembers(remote: seq<Node>, listed: set<string>)
      requires Valid() && Lists(remote, listed)
      ensures DistinctIds([localNode] + remote)
      ensures forall node :: node in remote ==> node.id in listed && nodes[node.id] == node
    {
    }

    /** Every known node, the local one first. */
    method GetNodes() returns (all: seq<Node>)
      requires Valid()
      ensures |all| == 1 + |nodes.Keys| && all[0] == localNode
      ensures DistinctIds(all)
      ensures forall node :: node in all[1..] <==> node in nodes.Values
    {
      var remote: seq<Node> := [];
      var remaining := nodes.Keys;
      while remaining != {}
        invariant remaining <= nodes.Keys && Lists(remote, nodes.Keys - remaining)
        decreases |remaining|
      {
        var id :| id in remaining;
        ListAny(remote, remaining, id);
        remote := remote + [nodes[id]];
        remaining := remaining - {id};
      }
      all := [localNode] + remote;
      AllNodesListed(remote, remaining);
    }

    lemma ListAny(remote: seq<Node>, remaining: set<string>, id: string)
      requires Valid() && remaining <= nodes.Keys && id in remaining && Lists(remote, nodes.Keys - remaining)
      ensures Lists(remote + [nodes[id]], nodes.Keys - (remaining - {id}))
    {
      assert nodes.Keys - (remaining - {id}) == (nodes.Keys - remaining) + {id};
      ListOneMore(remote, nodes.Keys - remaining, id);
    }

    lemma AllNodesListed(remote: seq<Node>, remaining: set<string>)
      requires Valid() && remaining == {} && Lists(remote, nodes.Keys - remaining)
      ensures var all := [localNode] + remote;
        && DistinctIds(all) && |all| == 1 + |nodes.Keys|
        && forall node :: node in all[1..] <==> node in nodes.Values
    {
      assert nodes.Keys - remaining == nodes.Keys;
      assert ([localNode] + remote)[1..] == remote;
      ListedMembers(remote, nodes.Keys);
      forall node | node in nodes.Values ensures node in remote {
        var id :| id in nodes && nodes[id] == node;
      }
    }
  }

  ghost predicate DistinctIds(nodes: seq<Node>) {
    forall i, j :: 0 <= i < j < |nodes| ==> nodes[i].id != nodes[j].id
  }

  // ----- The view as a function of the event history -----

  function ViewAfter(local: string, events: seq<Event>): View {
    if events == [] then map[]
    else Step(local, ViewAfter(local, events[..|events| - 1]), events[|events| - 1])
  }

  /** The join at `j` has not been followed by a leave of the same node. */
  ghost predicate StandingJoin(events: seq<Event>, id: string, j: nat) {
    && j < |events| && events[j].Joined? && events[j].id == id
    && forall k :: j < k < |events| && events[k].id == id ==> !events[k].Left?
  }

  /** The most recent join of `id` before position `n`. */
  ghost predicate LatestJoin(events: seq<Event>, id: string, j: nat) {
    && StandingJoin(events, id, j)
    && forall k :: j < k < |events| && events[k].id == id ==> !events[k].Joined?
  }

  /** The most recent event of any kind about `id`. */
  ghost predicate LatestEvent(events: seq<Event>, id: string, j: nat) {
    && j < |events| && events[j].id == id
    && forall k :: j < k < |events| ==> events[k].id != id
  }

  /** What the table holds for a node, given its latest join and the latest event about it. */
  ghost function Recorded(join: Event, latest: Event): Member
    requires join.Joined?
  {
    match latest
    case Health(_, count, status, timestamp) => Member(join.host, join.port, timestamp, count, status)
    case _ => Member(join.host, join.port, latest.timestamp, 0, "")
  }

  lemma {:induction false} LocalNeverListed(local: string, events: seq<Event>)
    ensures local !in ViewAfter(local, events)
  {
    if events != [] {
      LocalNeverListed(local, events[..|events| - 1]);
    }
  }

  lemma {:induction false} StandingJoinListed(local: string, events: seq<Event>, id: string, j: nat)
    requires id != local && StandingJoin(events, id, j)
    ensures id in ViewAfter(local, events)
  {
    var n := |events| - 1;
    if j < n {
      assert StandingJoin(events[..n], id, j);
      StandingJoinListed(local, events[..n], id, j);
    }
  }

  lemma {:induction false} ListedEntry(local: string, events: seq<Event>, id: string) returns (j: nat, k: nat)
    requires id in ViewAfter(local, events)
    ensures LatestJoin(events, id, j) && LatestEvent(events, id, k) && j <= k
    ensures ViewAfter(local, events)[id] == Recorded(events[j], events[k])
  {
    LocalNeverListed(local, events);
    var n := |events| - 1;
    if events[n].id == id && events[n].Joined? {
      j, k := n, n;
    } else {
      j, k := ListedEntry(local, events[..n], id);
      if events[n].id == id {
        k := n;
      }
    }
  }

  /**
   A remote node is in the view exactly when a join of it stands; it then carries the address of
   its latest join and the time of the latest event about it.  The local node never enters.
   */
  lemma ViewIsHistory(local: string, events: seq<Event>, id: string)
    ensures local !in ViewAfter(local, events)
    ensures id != local ==> (id in ViewAfter(local, events) <==> exists j: nat :: StandingJoin(events, id, j))
    ensures id in ViewAfter(local, events) ==>
      exists j: nat, k: nat :: LatestJoin(events, id, j) && LatestEvent(events, id, k) && j <= k
        && ViewAfter(local, events)[id] == Recorded(events[j], events[k])
  {
    LocalNeverListed(local, events);
    if id in ViewAfter(local, events) {
      var j, k := ListedEntry(local, events, id);
      assert StandingJoin(events, id, j);
    }
    if j: nat :| id != local && StandingJoin(events, id, j) {
      StandingJoinListed(local, events, id, j);
    }
  }
}
