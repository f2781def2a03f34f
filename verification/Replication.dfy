/**
 Replication of stored memories.  A manager queues the events it is sent and applies them when
 its node replicates the shard without being its primary.  The cluster is a step system: saves,
 deliveries in any order and number, applications, and republished events.
 */
module Replication {
  import AntiEntropy
  import opened Events
  import opened Gossip
  import opened Sharding
  import opened Storage

  const QUEUE_CAPACITY := 1000

  type Vectors = map<string, seq<real>>

  class QdrantStore {
    var points: Vectors

    constructor ()
      ensures points == map[]
    {
      points := map[];
    }

    method UpsertMemory(id: string, vector: seq<real>, available: bool) returns (err: bool)
      modifies this
      ensures err == !available
      ensures points == if available then old(points)[id := vector] else old(points)
    {
      if available {
        points := points[id := vector];
      }
      return !available;
    }
  }

  /** The row an event asks for: metadata and decay factor are not carried. */
  function ModelOf(event: MemoryStored): MemoryModel {
    MemoryModel(event.memoryID, Row(event.tenantID, event.agentID, event.memoryType, event.content,
                                    event.importance, Null, 0.0, event.version))
  }

  function Enqueued(queue: seq<MemoryStored>, event: MemoryStored): seq<MemoryStored> {
    if |queue| < QUEUE_CAPACITY then queue + [event] else queue
  }

  datatype Stores = Stores(rows: Rows, vectors: Vectors)

  function Applied(s: Stores, event: MemoryStored, reached: bool, fault: Fault, available: bool): Stores {
    if !reached || UpsertFails(s.rows, ModelOf(event), fault) then s
    else Stores(Upserted(s.rows, ModelOf(event)),
                if Writes(s.rows, ModelOf(event)) && available then s.vectors[event.memoryID := event.embedding]
                else s.vectors)
  }

  class ReplicationManager {
    const gossip: GossipProtocol
    const sharding: ShardingStrategy
    const localPostgres: PostgresStore
    const localQdrant: QdrantStore
    var queue: seq<MemoryStored>

    constructor (gossip: GossipProtocol, sharding: ShardingStrategy, db: PostgresStore, qdrant: QdrantStore)
      ensures this.gossip == gossip && this.sharding == sharding && localPostgres == db && localQdrant == qdrant
      ensures queue == []
    {
      this.gossip, this.sharding, localPostgres, localQdrant := gossip, sharding, db, qdrant;
      queue := [];
    }

    ghost function State(): Stores
      reads localPostgres, localQdrant
    {
      Stores(localPostgres.rows, localQdrant.points)
    }

    /** Whether an event reaches the upsert: decided by the hash, the number of active nodes and the factor. */
    ghost predicate Reaches(event: MemoryStored, now: int)
      reads gossip, gossip.nodes.Values
    {
      var n := 1 + |gossip.ActiveIds(now)|;
      var start := sharding.Start(sharding.ComputeShardKey(event.tenantID, event.agentID, event.memoryID), n);
      start != 0 && n - start < sharding.replicationFactor
    }

    /** In terms of the hash: counting to it ends past the local node, and the rest of the round is short enough. */
    lemma ReachesByHash(event: MemoryStored, now: int)
      ensures var n := 1 + |gossip.ActiveIds(now)|;
        var hash := sharding.shardHash(event.tenantID + ":" + event.agentID + ":" + event.memoryID);
        Reaches(event, now) <==>
          exists s: nat :: 0 < s < n && n - s < sharding.replicationFactor && CountsTo(hash, 0, n, s)
    {
      var n := 1 + |gossip.ActiveIds(now)|;
      var key := event.tenantID + ":" + event.agentID + ":" + event.memoryID;
      var start := sharding.Start(key, n);
      assert key == sharding.ComputeShardKey(event.tenantID, event.agentID, event.memoryID);
      PrimaryByHash(sharding, key, n, start);
      assert CountsTo(sharding.shardHash(key), 0, n, start);
      if s: nat :| 0 < s < n && n - s < sharding.replicationFactor && CountsTo(sharding.shardHash(key), 0, n, s) {
        PrimaryByHash(sharding, key, n, s);
      }
    }

    /** The subscription callback and EnqueueMemoryEvent: a full queue drops the event. */
    method EnqueueMemoryEvent(event: MemoryStored)
      modifies this
      ensures queue == Enqueued(old(queue), event)
    {
      if |queue| < QUEUE_CAPACITY {
        queue := queue + [event];
      }
    }

    method ApplyReplication(event: MemoryStored, now: int, fault: Fault, available: bool) returns (err: bool)
      requires gossip.Valid()
      modifies localPostgres, localQdrant
      ensures State() == Applied(old(State()), event, Reaches(event, now), fault, available)
      ensures err <==> (Reaches(event, now) && (UpsertFails(old(localPostgres.rows), ModelOf(event), fault)
                                                || (Writes(old(localPostgres.rows), ModelOf(event)) && !available)))
    {
      var shardKey := sharding.ComputeShardKey(event.tenantID, event.agentID, event.memoryID);
      var localNodeID := gossip.localNode.id;
      var allNodes := gossip.GetActiveNodes(now);
      FirstNodeReplicates(allNodes, sharding.Start(shardKey, |allNodes|), sharding.replicationFactor);

      var owner := sharding.IsShardOwner(localNodeID, shardKey, allNodes);
      if !owner {
        return false;
      }
      var primaryNode := sharding.GetPrimaryNode(shardKey, allNodes);
      if primaryNode != null && primaryNode.id == localNodeID {
        return false;
      }

      var updated, failed := localPostgres.UpsertMemoryWithConflictResolution(ModelOf(event), fault);
      if failed {
        return true;
      }
      if updated {
        err := localQdrant.UpsertMemory(event.memoryID, event.embedding, available);
        return err;
      }
      return false;
    }

    /** One turn of the replication loop; an error is reported and the event is gone. */
    method ProcessNext(now: int, fault: Fault, available: bool)
      requires gossip.Valid() && queue != []
      modifies this, localPostgres, localQdrant
      ensures queue == old(queue)[1..]
      ensures State() == Applied(old(State()), old(queue[0]), Reaches(old(queue[0]), now), fault, available)
    {
      var event := queue[0];
      queue := queue[1..];
      var err := ApplyReplication(event, now, fault, available);
    }
  }

  // ----- The cluster -----

  /** A node's stores and queue, with what it has been sent and has taken from the queue. */
  datatype Peer = Peer(stores: Stores, queue: seq<MemoryStored>, delivered: seq<MemoryStored>,
                       processed: seq<MemoryStored>)

  datatype Origin = Origin(node: string, event: MemoryStored)

  /** `saved` and `republished` record the history of the cluster; nothing reads them. */
  datatype Cluster = Cluster(peers: map<string, Peer>, published: set<MemoryStored>,
                             saved: map<string, Origin>, republished: set<string>)

  datatype Action =
    | Save(node: string, id: string, row: Row, embedding: seq<real>, fault: Fault, available: bool, publishes: bool)
    | Deliver(node: string, event: MemoryStored)
    | Process(node: string, reached: bool, fault: Fault, available: bool)
    | Republish(node: string, id: string)

  function EventOf(id: string, row: Row, content: string, embedding: seq<real>): MemoryStored {
    MemoryStored(id, row.tenantID, row.agentID, content, embedding, row.memoryType, row.importance, row.version)
  }

  /** A save draws an id never drawn before; only published events are delivered, any number of times. */
  predicate Enabled(c: Cluster, a: Action) {
    && a.node in c.peers
    && match a
       case Save(node, id, _, _, _, _, _) => id !in c.saved && id !in c.peers[node].stores.rows
       case Deliver(_, event) => event in c.published
       case Process(node, _, _, _) => c.peers[node].queue != []
       case Republish(node, id) => id in c.peers[node].stores.rows
  }

  function Next(c: Cluster, a: Action): Cluster
    requires Enabled(c, a)
  {
    var peer := c.peers[a.node];
    match a
    case Save(node, id, row, embedding, fault, available, publishes) =>
      if SaveFails(peer.stores.rows, id, fault) then c
      else
        var event := EventOf(id, row, row.content, embedding);
        var vectors := if available then peer.stores.vectors[id := embedding] else peer.stores.vectors;
        c.(peers := c.peers[node := peer.(stores := Stores(peer.stores.rows[id := row], vectors))],
           published := if publishes then c.published + {event} else c.published,
           saved := c.saved[id := Origin(node, event)])
    case Deliver(node, event) =>
      c.(peers := c.peers[node := peer.(queue := Enqueued(peer.queue, event), delivered := peer.delivered + [event])])
    case Process(node, reached, fault, available) =>
      c.(peers := c.peers[node := peer.(stores := Applied(peer.stores, peer.queue[0], reached, fault, available),
                                        queue := peer.queue[1..],
                                        processed := peer.processed + [peer.queue[0]])])
    case Republish(node, id) =>
      // a repair has neither content nor embedding to publish
      c.(published := c.published + {EventOf(id, peer.stores.rows[id], "", [])}, republished := c.republished + {id})
  }

  ghost predicate Legal(c: Cluster, run: seq<Action>)
    decreases |run|
  {
    run == [] || (Enabled(c, run[0]) && Legal(Next(c, run[0]), run[1..]))
  }

  function After(c: Cluster, run: seq<Action>): Cluster
    requires Legal(c, run)
    decreases |run|
  {
    if run == [] then c else After(Next(c, run[0]), run[1..])
  }

  ghost predicate Initial(c: Cluster) {
    && (forall n :: n in c.peers ==> c.peers[n] == Peer(Stores(map[], map[]), [], [], []))
    && c.published == {} && c.saved == map[] && c.republished == {}
  }

  // ----- What every run keeps -----

  /** The columns that events carry, the content apart. */
  ghost predicate SameColumns(row: Row, event: MemoryStored) {
    && row.tenantID == event.tenantID && row.agentID == event.agentID && row.memoryType == event.memoryType
    && row.importance == event.importance && row.version == event.version
  }

  /** The content is the saved one, unless a repair has republished the memory without content. */
  ghost predicate ContentFrom(c: Cluster, id: string, content: string)
    requires id in c.saved
  {
    content == c.saved[id].event.content || (content == "" && id in c.republished)
  }

  ghost predicate Sound(c: Cluster, event: MemoryStored) {
    && event.memoryID in c.saved
    && SameColumns(ModelOf(event).row, c.saved[event.memoryID].event)
    && ContentFrom(c, event.memoryID, event.content)
  }

  ghost predicate RowSound(c: Cluster, id: string, row: Row) {
    && id in c.saved
    && SameColumns(row, c.saved[id].event)
    && ContentFrom(c, id, row.content)
  }

  function IsSubsequence<T(==)>(a: seq<T>, b: seq<T>): bool {
    if a == [] then true
    else if b == [] then false
    else if a[|a| - 1] == b[|b| - 1] then IsSubsequence(a[..|a| - 1], b[..|b| - 1])
    else IsSubsequence(a, b[..|b| - 1])
  }

  ghost predicate PeerInv(c: Cluster, peer: Peer) {
    && (forall id :: id in peer.stores.rows ==> RowSound(c, id, peer.stores.rows[id]))
    && (forall event :: event in peer.queue ==> event in c.published)
  }

  ghost predicate FlowInv(peer: Peer) {
    && |peer.queue| <= QUEUE_CAPACITY
    && IsSubsequence(peer.processed + peer.queue, peer.delivered)
  }

  /** The origin of a memory keeps exactly what it saved. */
  ghost predicate OriginKeeps(c: Cluster, id: string)
    requires id in c.saved
  {
    var origin := c.saved[id];
    && origin.node in c.peers && id in c.peers[origin.node].stores.rows
    && origin.event.memoryID == id
    && c.peers[origin.node].stores.rows[id].content == origin.event.content
  }

  ghost predicate Inv(c: Cluster) {
    && (forall event :: event in c.published ==> Sound(c, event))
    && (forall n :: n in c.peers ==> PeerInv(c, c.peers[n]))
    && (forall id :: id in c.saved ==> OriginKeeps(c, id))
  }

  lemma {:induction false} SubsequenceAppend<T>(a: seq<T>, b: seq<T>, x: T)
    requires IsSubsequence(a, b)
    ensures IsSubsequence(a + [x], b + [x])
    ensures IsSubsequence(a, b + [x])
  {
    assert (a + [x])[..|a|] == a && (b + [x])[..|b|] == b;
    if a != [] && a[|a| - 1] == x {
      SubsequenceDropLast(a, b);
    }
  }

  lemma {:induction false} SubsequenceDropLast<T>(a: seq<T>, b: seq<T>)
    requires IsSubsequence(a, b) && a != []
    ensures IsSubsequence(a[..|a| - 1], b)
  {
    var a' := a[..|a| - 1];
    if a[|a| - 1] == b[|b| - 1] {
      var b' := b[..|b| - 1];
      if a' != [] && a'[|a'| - 1] == b[|b| - 1] {
        SubsequenceDropLast(a', b');
      }
    } else {
      SubsequenceDropLast(a, b[..|b| - 1]);
      if a' != [] && a'[|a'| - 1] == b[|b| - 1] {
        SubsequenceDropLast(a', b[..|b| - 1]);
      }
    }
  }

  /** In a sound cluster an upsert of a published event never takes the update branch. */
  lemma StoredRowsAreNotUpdated(c: Cluster, rows: Rows, event: MemoryStored)
    requires forall id :: id in rows ==> RowSound(c, id, rows[id])
    requires Sound(c, event)
    ensures event.memoryID in rows ==> !Writes(rows, ModelOf(event)) && Upserted(rows, ModelOf(event)) == rows
  {
  }

  lemma InvInitial(c: Cluster)
    requires Initial(c)
    ensures Inv(c)
  {
  }

  /** History only grows. */
  ghost predicate Grows(c: Cluster, c': Cluster) {
    && (forall id :: id in c.saved ==> id in c'.saved && c'.saved[id] == c.saved[id])
    && c.published <= c'.published && c.republished <= c'.republished
  }

  lemma PeerInvGrows(c: Cluster, c': Cluster, peer: Peer)
    requires PeerInv(c, peer) && Grows(c, c')
    ensures PeerInv(c', peer)
  {
    forall id | id in peer.stores.rows ensures RowSound(c', id, peer.stores.rows[id]) {
      assert RowSound(c, id, peer.stores.rows[id]);
    }
  }

  /** It is enough to look at the acting peer, the events published and the origins. */
  lemma InvByParts(c: Cluster, c': Cluster, node: string)
    requires Inv(c) && Grows(c, c') && node in c.peers && node in c'.peers
    requires c'.peers == c.peers[node := c'.peers[node]] && PeerInv(c', c'.peers[node])
    requires forall event :: event in c'.published && event !in c.published ==> Sound(c', event)
    requires forall id :: id in c'.saved ==> OriginKeeps(c', id)
    ensures Inv(c')
  {
    forall n | n in c'.peers ensures PeerInv(c', c'.peers[n]) {
      if n != node {
        assert c'.peers[n] == c.peers[n];
        PeerInvGrows(c, c', c.peers[n]);
      }
    }
    forall event | event in c'.published ensures Sound(c', event) {
      if event in c.published {
        assert Sound(c, event);
      }
    }
  }

  /** Rows that are kept keep the origins. */
  lemma OriginsKept(c: Cluster, c': Cluster, node: string)
    requires forall id :: id in c.saved ==> OriginKeeps(c, id)
    requires node in c.peers && node in c'.peers && c'.saved == c.saved
    requires c'.peers == c.peers[node := c'.peers[node]]
    requires forall id :: id in c.peers[node].stores.rows ==>
      id in c'.peers[node].stores.rows && c'.peers[node].stores.rows[id] == c.peers[node].stores.rows[id]
    ensures forall id :: id in c'.saved ==> OriginKeeps(c', id)
  {
    forall id | id in c'.saved ensures OriginKeeps(c', id) {
      assert OriginKeeps(c, id);
    }
  }

  lemma SaveKeepsInv(c: Cluster, a: Action)
    requires Inv(c) && a.Save? && Enabled(c, a) && !SaveFails(c.peers[a.node].stores.rows, a.id, a.fault)
    ensures Inv(Next(c, a))
  {
    var c' := Next(c, a);
    SaveEffect(c, a);
    PeerInvGrows(c, c', c.peers[a.node]);
    PeerAfterSave(c', a, c.peers[a.node], c'.peers[a.node]);
    forall id | id in c'.saved ensures OriginKeeps(c', id) {
      if id != a.id {
        assert OriginKeeps(c, id);
        OriginKeptBySave(c, a, id);
      }
    }
    InvByParts(c, c', a.node);
  }

  lemma SaveEffect(c: Cluster, a: Action)
    requires a.Save? && Enabled(c, a) && !SaveFails(c.peers[a.node].stores.rows, a.id, a.fault)
    ensures var c' := Next(c, a);
      && Grows(c, c') && a.node in c'.peers && c'.peers == c.peers[a.node := c'.peers[a.node]]
      && c'.peers[a.node].queue == c.peers[a.node].queue
      && c'.peers[a.node].stores.rows == c.peers[a.node].stores.rows[a.id := a.row]
      && c'.saved == c.saved[a.id := Origin(a.node, EventOf(a.id, a.row, a.row.content, a.embedding))]
      && OriginKeeps(c', a.id) && RowSound(c', a.id, a.row)
      && forall event :: event in c'.published && event !in c.published ==> Sound(c', event)
  {
  }

  lemma PeerAfterSave(c': Cluster, a: Action, peer: Peer, peer': Peer)
    requires a.Save? && PeerInv(c', peer) && RowSound(c', a.id, a.row)
    requires peer'.queue == peer.queue && peer'.stores.rows == peer.stores.rows[a.id := a.row]
    ensures PeerInv(c', peer')
  {
    forall id | id in peer'.stores.rows ensures RowSound(c', id, peer'.stores.rows[id]) {
      if id != a.id {
        assert RowSound(c', id, peer.stores.rows[id]);
      }
    }
  }

  lemma OriginKeptBySave(c: Cluster, a: Action, id: string)
    requires a.Save? && Enabled(c, a) && !SaveFails(c.peers[a.node].stores.rows, a.id, a.fault)
    requires id in c.saved && OriginKeeps(c, id)
    ensures OriginKeeps(Next(c, a), id)
  {
  }

  lemma DeliverKeepsInv(c: Cluster, a: Action)
    requires Inv(c) && a.Deliver? && Enabled(c, a)
    ensures Inv(Next(c, a))
  {
    var c' := Next(c, a);
    DeliverEffect(c, a);
    PeerInvGrows(c, c', c.peers[a.node]);
    PeerWithQueue(c', c.peers[a.node], c'.peers[a.node]);
    OriginsKept(c, c', a.node);
    InvByParts(c, c', a.node);
  }

  lemma DeliverEffect(c: Cluster, a: Action)
    requires a.Deliver? && Enabled(c, a)
    ensures var c' := Next(c, a);
      && Grows(c, c') && c'.saved == c.saved && c'.published == c.published
      && c'.peers.Keys == c.peers.Keys && c'.peers == c.peers[a.node := c'.peers[a.node]]
      && c'.peers[a.node].stores == c.peers[a.node].stores
      && forall event :: event in c'.peers[a.node].queue && event !in c.peers[a.node].queue ==> event in c'.published
  {
  }

  lemma PeerWithQueue(c: Cluster, peer: Peer, peer': Peer)
    requires PeerInv(c, peer) && peer'.stores == peer.stores
    requires forall event :: event in peer'.queue && event !in peer.queue ==> event in c.published
    ensures PeerInv(c, peer')
  {
  }

  /** What an application finds: a sound event, and a table where its upsert can only insert. */
  lemma HeadIsSound(c: Cluster, n: string)
    requires Inv(c) && n in c.peers && c.peers[n].queue != []
    ensures Sound(c, c.peers[n].queue[0])
    ensures var rows, event := c.peers[n].stores.rows, c.peers[n].queue[0];
      event.memoryID in rows ==> !Writes(rows, ModelOf(event))
  {
    var peer := c.peers[n];
    assert PeerInv(c, peer) && peer.queue[0] in peer.queue;
    StoredRowsAreNotUpdated(c, peer.stores.rows, peer.queue[0]);
  }

  /** An application leaves every stored row alone and inserts at most the event's row. */
  lemma AppliedInsertsOnly(s: Stores, event: MemoryStored, reached: bool, fault: Fault, available: bool)
    requires event.memoryID in s.rows ==> !Writes(s.rows, ModelOf(event))
    ensures var rows := Applied(s, event, reached, fault, available).rows;
      rows == s.rows || (event.memoryID !in s.rows && rows == s.rows[event.memoryID := ModelOf(event).row])
  {
  }

  lemma ProcessKeepsInv(c: Cluster, a: Action)
    requires Inv(c) && a.Process? && Enabled(c, a)
    ensures Inv(Next(c, a))
  {
    var c' := Next(c, a);
    HeadIsSound(c, a.node);
    ProcessEffect(c, a);
    OriginsKept(c, c', a.node);
    InvByParts(c, c', a.node);
  }

  lemma ProcessEffect(c: Cluster, a: Action)
    requires a.Process? && Enabled(c, a) && PeerInv(c, c.peers[a.node])
    requires var rows, event := c.peers[a.node].stores.rows, c.peers[a.node].queue[0];
      Sound(c, event) && (event.memoryID in rows ==> !Writes(rows, ModelOf(event)))
    ensures var c' := Next(c, a);
      && Grows(c, c') && c'.saved == c.saved && c'.published == c.published
      && a.node in c'.peers && c'.peers == c.peers[a.node := c'.peers[a.node]]
      && PeerInv(c', c'.peers[a.node])
      && forall id :: id in c.peers[a.node].stores.rows ==>
           id in c'.peers[a.node].stores.rows && c'.peers[a.node].stores.rows[id] == c.peers[a.node].stores.rows[id]
  {
    var c' := Next(c, a);
    var peer, peer' := c.peers[a.node], c'.peers[a.node];
    AppliedInsertsOnly(peer.stores, peer.queue[0], a.reached, a.fault, a.available);
    PeerAfterApplication(c, c', peer, peer');
  }

  lemma PeerAfterApplication(c: Cluster, c': Cluster, peer: Peer, peer': Peer)
    requires PeerInv(c, peer) && peer.queue != [] && Sound(c, peer.queue[0])
    requires c'.saved == c.saved && c'.republished == c.republished && c'.published == c.published
    requires peer'.queue == peer.queue[1..]
    requires peer'.stores.rows == peer.stores.rows
          || peer'.stores.rows == peer.stores.rows[peer.queue[0].memoryID := ModelOf(peer.queue[0]).row]
    ensures PeerInv(c', peer')
  {
    forall id | id in peer'.stores.rows ensures RowSound(c', id, peer'.stores.rows[id]) {
      if id in peer.stores.rows {
        assert RowSound(c, id, peer.stores.rows[id]);
      }
    }
  }

  lemma RepublishKeepsInv(c: Cluster, a: Action)
    requires Inv(c) && a.Republish? && Enabled(c, a)
    ensures Inv(Next(c, a))
  {
    var c' := Next(c, a);
    assert PeerInv(c, c.peers[a.node]);
    RepublishEffect(c, a);
    PeerInvGrows(c, c', c.peers[a.node]);
    OriginsKept(c, c', a.node);
    InvByParts(c, c', a.node);
  }

  lemma RepublishEffect(c: Cluster, a: Action)
    requires a.Republish? && Enabled(c, a) && PeerInv(c, c.peers[a.node])
    ensures var c' := Next(c, a);
      && Grows(c, c') && c'.saved == c.saved && c'.peers == c.peers
      && c'.peers == c.peers[a.node := c'.peers[a.node]]
      && forall event :: event in c'.published && event !in c.published ==> Sound(c', event)
  {
    assert RowSound(c, a.id, c.peers[a.node].stores.rows[a.id]);
  }

  lemma NextKeepsPeers(c: Cluster, a: Action)
    requires Enabled(c, a)
    ensures Next(c, a).peers.Keys == c.peers.Keys
    ensures a.Save? && SaveFails(c.peers[a.node].stores.rows, a.id, a.fault) ==> Next(c, a) == c
  {
  }

  lemma InvNext(c: Cluster, a: Action)
    requires Inv(c) && Enabled(c, a)
    ensures Inv(Next(c, a)) && Next(c, a).peers.Keys == c.peers.Keys
  {
    NextKeepsPeers(c, a);
    if a.Deliver? {
      DeliverKeepsInv(c, a);
    } else if a.Process? {
      ProcessKeepsInv(c, a);
    } else if a.Republish? {
      RepublishKeepsInv(c, a);
    } else if !SaveFails(c.peers[a.node].stores.rows, a.id, a.fault) {
      SaveKeepsInv(c, a);
    }
  }

  lemma {:induction false} InvAfter(c: Cluster, run: seq<Action>)
    requires Inv(c) && Legal(c, run)
    ensures Inv(After(c, run)) && After(c, run).peers.Keys == c.peers.Keys
    decreases |run|
  {
    if run != [] {
      InvNext(c, run[0]);
      InvAfter(Next(c, run[0]), run[1..]);
    }
  }

  predicate Holds(c: Cluster, n: string, id: string) {
    n in c.peers && id in c.peers[n].stores.rows
  }

  function RowAt(c: Cluster, n: string, id: string): Row
    requires Holds(c, n, id)
  {
    c.peers[n].stores.rows[id]
  }

  lemma RowKept(c: Cluster, a: Action, n: string, id: string)
    requires Inv(c) && Enabled(c, a) && Holds(c, n, id)
    ensures Holds(Next(c, a), n, id) && RowAt(Next(c, a), n, id) == RowAt(c, n, id)
  {
    if a.Process? {
      HeadIsSound(c, a.node);
      AppliedKeepsRow(c, a, n, id);
    } else {
      OtherActionsKeepRow(c, a, n, id);
    }
  }

  lemma OtherActionsKeepRow(c: Cluster, a: Action, n: string, id: string)
    requires Enabled(c, a) && Holds(c, n, id) && !a.Process?
    ensures Holds(Next(c, a), n, id) && RowAt(Next(c, a), n, id) == RowAt(c, n, id)
  {
  }

  lemma AppliedKeepsRow(c: Cluster, a: Action, n: string, id: string)
    requires Enabled(c, a) && Holds(c, n, id) && a.Process?
    requires var rows, event := c.peers[a.node].stores.rows, c.peers[a.node].queue[0];
      event.memoryID in rows ==> !Writes(rows, ModelOf(event))
    ensures Holds(Next(c, a), n, id) && RowAt(Next(c, a), n, id) == RowAt(c, n, id)
  {
    AppliedInsertsOnly(c.peers[a.node].stores, c.peers[a.node].queue[0], a.reached, a.fault, a.available);
  }

  /** Once a node stores a memory, nothing in any run changes the row; so versions never decrease. */
  lemma {:induction false} RowsAreFrozen(c: Cluster, run: seq<Action>, n: string, id: string)
    requires Inv(c) && Legal(c, run) && Holds(c, n, id)
    ensures Holds(After(c, run), n, id) && RowAt(After(c, run), n, id) == RowAt(c, n, id)
    decreases |run|
  {
    if run != [] {
      InvNext(c, run[0]);
      RowKept(c, run[0], n, id);
      RowsAreFrozen(Next(c, run[0]), run[1..], n, id);
    }
  }

  lemma FlowNext(c: Cluster, a: Action, n: string)
    requires Enabled(c, a) && n in c.peers && FlowInv(c.peers[n])
    ensures n in Next(c, a).peers && FlowInv(Next(c, a).peers[n])
  {
    var peer := c.peers[n];
    if a.node == n && a.Deliver? {
      SubsequenceAppend(peer.processed + peer.queue, peer.delivered, a.event);
      assert peer.processed + (peer.queue + [a.event]) == peer.processed + peer.queue + [a.event];
    } else if a.node == n && a.Process? {
      assert (peer.processed + [peer.queue[0]]) + peer.queue[1..] == peer.processed + peer.queue;
    }
  }

  lemma {:induction false} FlowAfter(c: Cluster, run: seq<Action>, n: string)
    requires Legal(c, run) && n in c.peers && FlowInv(c.peers[n])
    ensures n in After(c, run).peers && FlowInv(After(c, run).peers[n])
    decreases |run|
  {
    if run != [] {
      FlowNext(c, run[0], n);
      FlowAfter(Next(c, run[0]), run[1..], n);
    }
  }

  /** Every run keeps every queue within its capacity and takes events in the order they were sent. */
  lemma QueuesAreBounded(c: Cluster, run: seq<Action>, n: string)
    requires Initial(c) && Legal(c, run) && n in c.peers
    ensures n in After(c, run).peers
    ensures var peer := After(c, run).peers[n];
      |peer.queue| <= 1000 && IsSubsequence(peer.processed + peer.queue, peer.delivered)
  {
    FlowAfter(c, run, n);
  }

  /** Only a full queue drops: the event is queued last if fewer than 1000 wait, and else lost. */
  lemma DroppedExactly(c: Cluster, n: string, event: MemoryStored)
    requires Enabled(c, Deliver(n, event))
    ensures var before, after := c.peers[n].queue, Next(c, Deliver(n, event)).peers[n].queue;
      && (|before| < 1000 <==> after == before + [event])
      && (|before| >= 1000 ==> after == before)
  {
    assert |c.peers[n].queue + [event]| != |c.peers[n].queue|;
  }

  ghost predicate NothingLost(peer: Peer) {
    |peer.delivered| <= 1000 ==> peer.processed + peer.queue == peer.delivered
  }

  lemma NothingLostNext(c: Cluster, a: Action, n: string)
    requires Enabled(c, a) && n in c.peers && NothingLost(c.peers[n])
    ensures n in Next(c, a).peers && NothingLost(Next(c, a).peers[n])
  {
    var peer := c.peers[n];
    if a.node == n && a.Deliver? {
      assert |peer.processed + peer.queue| == |peer.processed| + |peer.queue|;
      assert peer.processed + (peer.queue + [a.event]) == peer.processed + peer.queue + [a.event];
    } else if a.node == n && a.Process? {
      assert (peer.processed + [peer.queue[0]]) + peer.queue[1..] == peer.processed + peer.queue;
    }
  }

  lemma {:induction false} NothingLostAfter(c: Cluster, run: seq<Action>, n: string)
    requires Legal(c, run) && n in c.peers && NothingLost(c.peers[n])
    ensures n in After(c, run).peers && NothingLost(After(c, run).peers[n])
    decreases |run|
  {
    if run != [] {
      NothingLostNext(c, run[0], n);
      NothingLostAfter(Next(c, run[0]), run[1..], n);
    }
  }

  /** A node that has been sent no more than 1000 events has lost none, and takes them in order. */
  lemma FewEventsAreNeverLost(c: Cluster, run: seq<Action>, n: string)
    requires Initial(c) && Legal(c, run) && n in c.peers
    ensures n in After(c, run).peers
    ensures var peer := After(c, run).peers[n];
      |peer.delivered| <= 1000 ==> peer.processed + peer.queue == peer.delivered
  {
    NothingLostAfter(c, run, n);
  }

  /** A row without the columns that events do not carry. */
  function EventColumns(row: Row): Row {
    row.(metadata := Null, decayFactor := 0.0)
  }

  /** Every row anywhere carries the columns of the one save of its id; only the content may have been lost. */
  lemma RowsComeFromSaves(c: Cluster, run: seq<Action>, n: string, id: string)
    requires Initial(c) && Legal(c, run) && Holds(After(c, run), n, id)
    ensures id in After(c, run).saved
    ensures var row, event := RowAt(After(c, run), n, id), After(c, run).saved[id].event;
      || EventColumns(row) == ModelOf(event).row
      || (EventColumns(row) == ModelOf(event).row.(content := "") && id in After(c, run).republished)
  {
    InvInitial(c);
    InvAfter(c, run);
    var c' := After(c, run);
    assert PeerInv(c', c'.peers[n]);
    assert RowSound(c', id, RowAt(c', n, id));
  }

  /** Any two nodes that hold a memory agree on its columns, unless a repair has republished it. */
  lemma ReplicasAgree(c: Cluster, run: seq<Action>, m: string, n: string, id: string)
    requires Initial(c) && Legal(c, run)
    requires Holds(After(c, run), m, id) && Holds(After(c, run), n, id)
    requires id !in After(c, run).republished
    ensures EventColumns(RowAt(After(c, run), m, id)) == EventColumns(RowAt(After(c, run), n, id))
  {
    RowsComeFromSaves(c, run, m, id);
    RowsComeFromSaves(c, run, n, id);
  }

  /** An event that comes back to the node that saved the memory changes nothing there. */
  lemma EchoIsIgnored(c: Cluster, run: seq<Action>, event: MemoryStored, reached: bool, fault: Fault, available: bool)
    requires Initial(c) && Legal(c, run) && event in After(c, run).published
    ensures event.memoryID in After(c, run).saved
    ensures var origin := After(c, run).saved[event.memoryID].node;
      && Holds(After(c, run), origin, event.memoryID)
      && var stores := After(c, run).peers[origin].stores;
      Applied(stores, event, reached, fault, available) == stores
  {
    InvInitial(c);
    InvAfter(c, run);
    var c' := After(c, run);
    assert Sound(c', event) && OriginKeeps(c', event.memoryID);
    var peer := c'.peers[c'.saved[event.memoryID].node];
    assert PeerInv(c', peer);
    StoredRowsAreNotUpdated(c', peer.stores.rows, event);
  }

  // ----- What a processed event leaves -----

  /** `a` applies the head of a queue to the stores without a database fault. */
  predicate Applies(c: Cluster, a: Action) {
    Enabled(c, a) && a.Process? && a.reached && a.fault.NoFault?
  }

  function Head(c: Cluster, n: string): MemoryStored
    requires n in c.peers && c.peers[n].queue != []
  {
    c.peers[n].queue[0]
  }

  /** The row that a node shows once it has applied an event: the one it had, or else the event's. */
  function Arrived(c: Cluster, n: string, event: MemoryStored): Row {
    if Holds(c, n, event.memoryID) then RowAt(c, n, event.memoryID) else ModelOf(event).row
  }

  lemma AppliedIsHeld(c: Cluster, a: Action)
    requires Inv(c) && Applies(c, a)
    ensures var event := Head(c, a.node);
      && Holds(Next(c, a), a.node, event.memoryID)
      && RowAt(Next(c, a), a.node, event.memoryID) == Arrived(c, a.node, event)
  {
    HeadIsSound(c, a.node);
  }

  /**
   The first arrival decides for good: once a node has applied an event it holds the memory in every
   later run, with the row it already had or else the event's; so it has the saved content exactly
   when that row has.
   */
  lemma FirstArrivalDecides(c: Cluster, a: Action, later: seq<Action>)
    requires Inv(c) && Applies(c, a) && Legal(Next(c, a), later)
    ensures var n, event, c' := a.node, Head(c, a.node), After(Next(c, a), later);
      && event.memoryID in c.saved && Holds(c', n, event.memoryID)
      && RowAt(c', n, event.memoryID) == Arrived(c, n, event)
      && (RowAt(c', n, event.memoryID).content == c.saved[event.memoryID].event.content <==>
          Arrived(c, n, event).content == c.saved[event.memoryID].event.content)
  {
    HeadIsSound(c, a.node);
    AppliedIsHeld(c, a);
    InvNext(c, a);
    RowsAreFrozen(Next(c, a), later, a.node, Head(c, a.node).memoryID);
  }

  lemma {:induction false} LegalSplit(c: Cluster, run: seq<Action>, i: nat)
    requires Legal(c, run) && i <= |run|
    ensures Legal(c, run[..i]) && Legal(After(c, run[..i]), run[i..])
    ensures After(After(c, run[..i]), run[i..]) == After(c, run)
    decreases i
  {
    if i == 0 {
      assert run[..0] == [] && run[0..] == run;
    } else {
      LegalSplit(Next(c, run[0]), run[1..], i - 1);
      assert run[..i][0] == run[0] && run[..i][1..] == run[1..][..i - 1] && run[i..] == run[1..][i - 1..];
    }
  }

  /** Action `i` of the run applies an event about `id` on node `n`. */
  ghost predicate AppliesAt(c: Cluster, run: seq<Action>, i: nat, n: string, id: string)
    requires Legal(c, run)
  {
    && i < |run|
    && (LegalSplit(c, run, i);
        Applies(After(c, run[..i]), run[i]) && run[i].node == n && Head(After(c, run[..i]), n).memoryID == id)
  }

  /** A node that has ever applied an event about a memory holds the memory from then on. */
  lemma AppliedStaysHeld(c: Cluster, run: seq<Action>, i: nat, n: string, id: string)
    requires Inv(c) && Legal(c, run) && AppliesAt(c, run, i, n, id)
    ensures Holds(After(c, run), n, id)
  {
    LegalSplit(c, run, i);
    InvAfter(c, run[..i]);
    assert run[i..][0] == run[i];
    FirstArrivalDecides(After(c, run[..i]), run[i], run[i..][1..]);
  }

  /** Convergence: nodes that have applied events about a memory, any at any time, all hold it and agree on it. */
  lemma AppliersAgree(c: Cluster, run: seq<Action>, i: nat, m: string, j: nat, n: string, id: string)
    requires Initial(c) && Legal(c, run) && AppliesAt(c, run, i, m, id) && AppliesAt(c, run, j, n, id)
    ensures Holds(After(c, run), m, id) && Holds(After(c, run), n, id)
    ensures id !in After(c, run).republished ==>
      EventColumns(RowAt(After(c, run), m, id)) == EventColumns(RowAt(After(c, run), n, id))
  {
    InvInitial(c);
    AppliedStaysHeld(c, run, i, m, id);
    AppliedStaysHeld(c, run, j, n, id);
    if id !in After(c, run).republished {
      ReplicasAgree(c, run, m, n, id);
    }
  }

  // ----- Repairs -----

  /** What the listing that feeds anti-entropy returns for a table: every row once, without its content. */
  ghost predicate Lists(ms: seq<AntiEntropy.Memory>, rows: Rows) {
    && AntiEntropy.PrimaryKey(ms)
    && (forall m :: m in ms ==> m.id in rows && ListsRow(m, rows[m.id]))
    && (forall id :: id in rows ==> exists m :: m in ms && m.id == id)
  }

  predicate ListsRow(m: AntiEntropy.Memory, row: Row) {
    && m.tenantID == row.tenantID && m.agentID == row.agentID && m.memoryType == row.memoryType
    && m.importance == row.importance && m.version == row.version && m.content == ""
  }

  /** Whatever a repair publishes is a republication of a row that the node holds. */
  lemma RepairsAreRepublications(c: Cluster, n: string, ss: ShardingStrategy, md5: string -> string,
                                 ms: seq<AntiEntropy.Memory>, d: AntiEntropy.ShardDigest, event: MemoryStored)
    requires n in c.peers && Lists(ms, c.peers[n].stores.rows)
    requires event in AntiEntropy.DigestRepairs(ss, md5, ms, d)
    ensures Enabled(c, Republish(n, event.memoryID))
    ensures Next(c, Republish(n, event.memoryID)).published == c.published + {event}
  {
    AntiEntropy.HasKeyHasIds(ss, ms, d.shardKey);
    var m :| m in ms && AntiEntropy.KeyOf(ss, m) == d.shardKey;
    AntiEntropy.ContradictionRepublishesRow(ss, md5, ms, m, d);
    assert event == AntiEntropy.RepairEvent(m);
  }

  lemma OtherText(text: string)
    ensures text + "x" != text
  {
    assert |text + "x"| == |text| + 1;
  }

  /** And every republication is what some contradicting digest makes the node publish. */
  lemma RepublicationsAreRepairs(c: Cluster, n: string, ss: ShardingStrategy, md5: string -> string,
                                 ms: seq<AntiEntropy.Memory>, id: string) returns (d: AntiEntropy.ShardDigest)
    requires n in c.peers && Lists(ms, c.peers[n].stores.rows) && Enabled(c, Republish(n, id))
    ensures AntiEntropy.DigestRepairs(ss, md5, ms, d) == [EventOf(id, c.peers[n].stores.rows[id], "", [])]
  {
    var m :| m in ms && m.id == id;
    d := AntiEntropy.ShardDigest(AntiEntropy.KeyOf(ss, m), md5(m.id) + "x", 1);
    OtherText(md5(m.id));
    AntiEntropy.ContradictionRepublishesRow(ss, md5, ms, m, d);
  }

  /** Node `m` republishes a memory, and node `n` receives and applies it. */
  function RepairRun(c: Cluster, m: string, n: string, id: string): seq<Action>
    requires Holds(c, m, id)
  {
    [Republish(m, id), Deliver(n, EventOf(id, RowAt(c, m, id), "", [])), Process(n, true, NoFault, true)]
  }

  lemma ThreeActions(c: Cluster, a0: Action, a1: Action, a2: Action)
    requires Enabled(c, a0) && Enabled(Next(c, a0), a1) && Enabled(Next(Next(c, a0), a1), a2)
    ensures Legal(c, [a0, a1, a2]) && After(c, [a0, a1, a2]) == Next(Next(Next(c, a0), a1), a2)
  {
    var c1 := Next(c, a0);
    var c2 := Next(c1, a1);
    assert [a0, a1, a2][1..] == [a1, a2] && [a1, a2][1..] == [a2] && [a2][1..] == [];
    assert Legal(Next(c2, a2), []) && Legal(c2, [a2]) && Legal(c1, [a1, a2]);
    assert After(c2, [a2]) == After(Next(c2, a2), []) && After(c1, [a1, a2]) == After(c2, [a2]);
  }

  lemma RepublishedEffect(c: Cluster, m: string, id: string, n: string)
    requires Holds(c, m, id) && n in c.peers
    ensures var event, c1 := EventOf(id, RowAt(c, m, id), "", []), Next(c, Republish(m, id));
      c1.peers == c.peers && Enabled(c1, Deliver(n, event))
  {
  }

  lemma DeliveredEffect(c: Cluster, n: string, event: MemoryStored)
    requires Enabled(c, Deliver(n, event)) && c.peers[n].queue == []
    ensures var c1 := Next(c, Deliver(n, event));
      && n in c1.peers && c1.peers[n].queue == [event] && c1.peers[n].stores == c.peers[n].stores
      && Enabled(c1, Process(n, true, NoFault, true))
  {
  }

  lemma RepairRunEffect(c: Cluster, m: string, n: string, id: string)
    requires Inv(c) && Holds(c, m, id) && n in c.peers && c.peers[n].queue == []
    ensures Legal(c, RepairRun(c, m, n, id))
    ensures var c' := After(c, RepairRun(c, m, n, id));
      Holds(c', n, id) && RowAt(c', n, id) == Arrived(c, n, EventOf(id, RowAt(c, m, id), "", []))
  {
    var event := EventOf(id, RowAt(c, m, id), "", []);
    var c1 := Next(c, Republish(m, id));
    RepublishedEffect(c, m, id, n);
    InvNext(c, Republish(m, id));
    var c2 := Next(c1, Deliver(n, event));
    DeliveredEffect(c1, n, event);
    InvNext(c1, Deliver(n, event));
    AppliedIsHeld(c2, Process(n, true, NoFault, true));
    ThreeActions(c, Republish(m, id), Deliver(n, event), Process(n, true, NoFault, true));
  }

  /**
   A repair leaves the replica with the saved content, in every later run, exactly if it held the
   memory before and held it so; a replica that did not hold it ends with the empty content.
   */
  lemma RepairRestoresExactly(c: Cluster, m: string, n: string, id: string, later: seq<Action>)
    requires Inv(c) && Holds(c, m, id) && n in c.peers && c.peers[n].queue == []
    requires Legal(c, RepairRun(c, m, n, id)) && Legal(After(c, RepairRun(c, m, n, id)), later)
    ensures id in c.saved
    ensures var c', saved := After(After(c, RepairRun(c, m, n, id)), later), c.saved[id].event.content;
      && Holds(c', m, id) && RowAt(c', m, id) == RowAt(c, m, id)
      && Holds(c', n, id) && RowAt(c', n, id) == Arrived(c, n, EventOf(id, RowAt(c, m, id), "", []))
      && (RowAt(c', n, id).content == saved <==>
          if Holds(c, n, id) then RowAt(c, n, id).content == saved else saved == "")
  {
    assert PeerInv(c, c.peers[m]) && RowSound(c, id, RowAt(c, m, id));
    RepairRunEffect(c, m, n, id);
    InvAfter(c, RepairRun(c, m, n, id));
    RowsAreFrozen(c, RepairRun(c, m, n, id), m, id);
    RowsAreFrozen(After(c, RepairRun(c, m, n, id)), later, m, id);
    RowsAreFrozen(After(c, RepairRun(c, m, n, id)), later, n, id);
  }

  // ----- Vectors -----

  predicate Indexed(c: Cluster, n: string, id: string) {
    n in c.peers && id in c.peers[n].stores.vectors
  }

  function VectorAt(c: Cluster, n: string, id: string): seq<real>
    requires Indexed(c, n, id)
  {
    c.peers[n].stores.vectors[id]
  }

  /** The vector of a memory is the same in two clusters, or missing in both. */
  predicate SameVector(c: Cluster, c': Cluster, n: string, id: string) {
    && (Indexed(c', n, id) <==> Indexed(c, n, id))
    && (Indexed(c, n, id) && Indexed(c', n, id) ==> VectorAt(c', n, id) == VectorAt(c, n, id))
  }

  /** An action that meets a stored row leaves the vector of that memory alone, present or missing. */
  lemma VectorKept(c: Cluster, a: Action, n: string, id: string)
    requires Inv(c) && Enabled(c, a) && Holds(c, n, id)
    ensures SameVector(c, Next(c, a), n, id)
  {
    if a.Process? {
      HeadIsSound(c, a.node);
      AppliedKeepsVector(c, a, n, id);
    } else {
      OtherActionsKeepVector(c, a, n, id);
    }
  }

  lemma OtherActionsKeepVector(c: Cluster, a: Action, n: string, id: string)
    requires Enabled(c, a) && Holds(c, n, id) && !a.Process?
    ensures SameVector(c, Next(c, a), n, id)
  {
  }

  lemma AppliedKeepsVector(c: Cluster, a: Action, n: string, id: string)
    requires Enabled(c, a) && Holds(c, n, id) && a.Process?
    requires var rows, event := c.peers[a.node].stores.rows, c.peers[a.node].queue[0];
      event.memoryID in rows ==> !Writes(rows, ModelOf(event))
    ensures SameVector(c, Next(c, a), n, id)
  {
  }

  /** Once a node holds a memory, no run adds, removes or changes its vector. */
  lemma {:induction false} VectorsAreFrozen(c: Cluster, run: seq<Action>, n: string, id: string)
    requires Inv(c) && Legal(c, run) && Holds(c, n, id)
    ensures Holds(After(c, run), n, id) && SameVector(c, After(c, run), n, id)
    decreases |run|
  {
    if run != [] {
      InvNext(c, run[0]);
      RowKept(c, run[0], n, id);
      VectorKept(c, run[0], n, id);
      VectorsAreFrozen(Next(c, run[0]), run[1..], n, id);
    }
  }

  /** The index right after an application: the event's embedding, if the row was taken and the index reached. */
  lemma AppliedVector(c: Cluster, a: Action)
    requires Inv(c) && Applies(c, a)
    ensures var n, event, c' := a.node, Head(c, a.node), Next(c, a);
      if !Holds(c, n, event.memoryID) && a.available then
        Indexed(c', n, event.memoryID) && VectorAt(c', n, event.memoryID) == event.embedding
      else SameVector(c, c', n, event.memoryID)
  {
    HeadIsSound(c, a.node);
    if Holds(c, a.node, Head(c, a.node).memoryID) {
      AppliedKeepsVector(c, a, a.node, Head(c, a.node).memoryID);
    } else {
      InsertedVector(c, a);
    }
  }

  lemma InsertedVector(c: Cluster, a: Action)
    requires Applies(c, a) && !Holds(c, a.node, Head(c, a.node).memoryID)
    ensures var n, event, c' := a.node, Head(c, a.node), Next(c, a);
      if a.available then Indexed(c', n, event.memoryID) && VectorAt(c', n, event.memoryID) == event.embedding
      else SameVector(c, c', n, event.memoryID)
  {
  }

  /**
   What the index holds after any later run: the embedding of the event, if the node took its row and
   reached the index, and otherwise what it held before; so a vector lost to a failed write stays lost.
   */
  lemma LostVectorIsNotRetried(c: Cluster, a: Action, later: seq<Action>)
    requires Inv(c) && Applies(c, a) && Legal(Next(c, a), later)
    ensures var n, event, c' := a.node, Head(c, a.node), After(Next(c, a), later);
      && Holds(c', n, event.memoryID)
      && (Indexed(c', n, event.memoryID) <==>
          Indexed(c, n, event.memoryID) || (!Holds(c, n, event.memoryID) && a.available))
      && (if !Holds(c, n, event.memoryID) && a.available then VectorAt(c', n, event.memoryID) == event.embedding
          else SameVector(c, c', n, event.memoryID))
  {
    AppliedIsHeld(c, a);
    AppliedVector(c, a);
    InvNext(c, a);
    VectorsAreFrozen(Next(c, a), later, a.node, Head(c, a.node).memoryID);
  }

  // ----- Saves -----

  /** What a save does: the row as given, its vector if the index is reached, and the event if it is published. */
  lemma SaveExactly(c: Cluster, a: Action)
    requires a.Save? && Enabled(c, a)
    ensures var c' := Next(c, a);
      var event := MemoryStored(a.id, a.row.tenantID, a.row.agentID, a.row.content, a.embedding, a.row.memoryType,
                                a.row.importance, a.row.version);
      if a.fault.NoFault? || a.fault.SelectFault? then
        && Holds(c', a.node, a.id) && RowAt(c', a.node, a.id) == a.row
        && c'.saved == c.saved[a.id := Origin(a.node, event)]
        && (if a.available then Indexed(c', a.node, a.id) && VectorAt(c', a.node, a.id) == a.embedding
            else SameVector(c, c', a.node, a.id))
        && c'.published == c.published + if a.publishes then {event} else {}
      else c' == c
  {
  }

  /** A saved memory keeps its row and its vector at its origin in every later run. */
  lemma SavesAreDurable(c: Cluster, a: Action, later: seq<Action>)
    requires Inv(c) && a.Save? && Enabled(c, a) && a.fault.NoFault? && Legal(Next(c, a), later)
    ensures var c' := After(Next(c, a), later);
      && Holds(c', a.node, a.id) && RowAt(c', a.node, a.id) == a.row
      && (a.available ==> Indexed(c', a.node, a.id) && VectorAt(c', a.node, a.id) == a.embedding)
  {
    SaveExactly(c, a);
    InvNext(c, a);
    RowsAreFrozen(Next(c, a), later, a.node, a.id);
    VectorsAreFrozen(Next(c, a), later, a.node, a.id);
  }

  // ----- Where vectors come from -----

  /** The embedding is the saved one, or the empty one of a republication. */
  ghost predicate VectorFrom(c: Cluster, id: string, vector: seq<real>) {
    && id in c.saved
    && (vector == c.saved[id].event.embedding || (vector == [] && id in c.republished))
  }

  ghost predicate EventVectors(c: Cluster, events: set<MemoryStored>) {
    forall event :: event in events ==> VectorFrom(c, event.memoryID, event.embedding)
  }

  ghost predicate PeerVectors(c: Cluster, peer: Peer) {
    forall id :: id in peer.stores.vectors ==> VectorFrom(c, id, peer.stores.vectors[id])
  }

  ghost predicate VectorInv(c: Cluster) {
    EventVectors(c, c.published) && forall n :: n in c.peers ==> PeerVectors(c, c.peers[n])
  }

  lemma VectorsGrow(c: Cluster, c': Cluster, peer: Peer, events: set<MemoryStored>)
    requires Grows(c, c') && PeerVectors(c, peer) && EventVectors(c, events)
    ensures PeerVectors(c', peer) && EventVectors(c', events)
  {
    forall id | id in peer.stores.vectors ensures VectorFrom(c', id, peer.stores.vectors[id]) {
      assert VectorFrom(c, id, peer.stores.vectors[id]);
    }
    forall event | event in events ensures VectorFrom(c', event.memoryID, event.embedding) {
      assert VectorFrom(c, event.memoryID, event.embedding);
    }
  }

  /** It is enough to look at the acting peer and the events published. */
  lemma VectorInvByParts(c: Cluster, c': Cluster, node: string)
    requires VectorInv(c) && Grows(c, c') && node in c.peers && node in c'.peers
    requires c'.peers == c.peers[node := c'.peers[node]] && PeerVectors(c', c'.peers[node])
    requires EventVectors(c', c'.published - c.published)
    ensures VectorInv(c')
  {
    forall n | n in c'.peers ensures PeerVectors(c', c'.peers[n]) {
      if n != node {
        VectorsGrow(c, c', c.peers[n], c.published);
      }
    }
    VectorsGrow(c, c', c.peers[node], c.published);
    forall event | event in c'.published ensures VectorFrom(c', event.memoryID, event.embedding) {
      assert event in c.published || event in c'.published - c.published;
    }
  }

  lemma SaveVectors(c: Cluster, a: Action)
    requires a.Save? && Enabled(c, a) && !SaveFails(c.peers[a.node].stores.rows, a.id, a.fault)
    requires PeerVectors(c, c.peers[a.node]) && Grows(c, Next(c, a))
    ensures PeerVectors(Next(c, a), Next(c, a).peers[a.node])
    ensures EventVectors(Next(c, a), Next(c, a).published - c.published)
  {
    VectorsGrow(c, Next(c, a), c.peers[a.node], {});
  }

  lemma ApplicationVectors(c: Cluster, a: Action)
    requires a.Process? && Enabled(c, a) && Grows(c, Next(c, a)) && PeerVectors(c, c.peers[a.node])
    requires VectorFrom(c, Head(c, a.node).memoryID, Head(c, a.node).embedding)
    ensures PeerVectors(Next(c, a), Next(c, a).peers[a.node]) && Next(c, a).published == c.published
  {
    VectorsGrow(c, Next(c, a), c.peers[a.node], {});
  }

  lemma NextGrows(c: Cluster, a: Action)
    requires Enabled(c, a)
    ensures Grows(c, Next(c, a)) && a.node in Next(c, a).peers
    ensures Next(c, a).peers == c.peers[a.node := Next(c, a).peers[a.node]]
  {
  }

  lemma VectorInvNext(c: Cluster, a: Action)
    requires Inv(c) && VectorInv(c) && Enabled(c, a)
    ensures VectorInv(Next(c, a))
  {
    NextGrows(c, a);
    VectorsGrow(c, Next(c, a), c.peers[a.node], {});
    if a.Process? {
      QueuedArePublished(c, a.node);
      ApplicationVectors(c, a);
    } else if a.Save? {
      if SaveFails(c.peers[a.node].stores.rows, a.id, a.fault) {
        return;
      }
      SaveVectors(c, a);
    } else if a.Republish? {
      RepublishVectors(c, a);
    }
    VectorInvByParts(c, Next(c, a), a.node);
  }

  lemma QueuedArePublished(c: Cluster, n: string)
    requires Inv(c) && VectorInv(c) && n in c.peers && c.peers[n].queue != []
    ensures VectorFrom(c, Head(c, n).memoryID, Head(c, n).embedding)
  {
    assert PeerInv(c, c.peers[n]) && Head(c, n) in c.peers[n].queue;
  }

  lemma RepublishVectors(c: Cluster, a: Action)
    requires Inv(c) && a.Republish? && Enabled(c, a)
    ensures EventVectors(Next(c, a), Next(c, a).published - c.published)
  {
    assert PeerInv(c, c.peers[a.node]) && RowSound(c, a.id, c.peers[a.node].stores.rows[a.id]);
  }

  lemma {:induction false} VectorInvAfter(c: Cluster, run: seq<Action>)
    requires Inv(c) && VectorInv(c) && Legal(c, run)
    ensures VectorInv(After(c, run))
    decreases |run|
  {
    if run != [] {
      InvNext(c, run[0]);
      VectorInvNext(c, run[0]);
      VectorInvAfter(Next(c, run[0]), run[1..]);
    }
  }

  /** Every vector anywhere is the one its memory was saved with, unless a repair has republished the memory. */
  lemma VectorsComeFromSaves(c: Cluster, run: seq<Action>, n: string, id: string)
    requires Initial(c) && Legal(c, run) && Indexed(After(c, run), n, id)
    ensures id in After(c, run).saved
    ensures var vector, saved := VectorAt(After(c, run), n, id), After(c, run).saved[id].event.embedding;
      vector == saved || (vector == [] && id in After(c, run).republished)
  {
    InvInitial(c);
    VectorInvAfter(c, run);
    assert PeerVectors(After(c, run), After(c, run).peers[n]);
  }
}
