/**
 One reconciliation cycle: summarise the local memories, group them by shard key, publish a digest
 per group, and republish the memories of every shard whose checksum differs from a peer's.
 */
module AntiEntropy {
  import opened Common
  import opened Events
  import opened Merkle
  import opened Sharding
  import opened Sorting
  import opened Text

  /** The columns that the cycle reads; the listing leaves the content empty. */
  datatype Memory = Memory(id: Uuid, tenantID: Uuid, agentID: Uuid, content: string, memoryType: string,
                           importance: real, version: int)

  datatype ShardDigest = ShardDigest(shardKey: string, checksum: string, count: nat)

  function KeyOf(ss: ShardingStrategy, m: Memory): string {
    ss.ComputeShardKey(m.tenantID, m.agentID, m.id)
  }

  function Concat(ids: seq<string>): string {
    if ids == [] then "" else ids[0] + Concat(ids[1..])
  }

  /** The checksum is the hash of the ids written one after the other. */
  method ComputeChecksum(md5: string -> string, sortedIDs: seq<string>) returns (checksum: string)
    ensures checksum == md5(Concat(sortedIDs))
  {
    var written := "";
    for k := 0 to |sortedIDs|
      invariant written + Concat(sortedIDs[k..]) == Concat(sortedIDs)
    {
      assert sortedIDs[k..][1..] == sortedIDs[k + 1..];
      written := written + sortedIDs[k];
    }
    assert sortedIDs[|sortedIDs|..] == [] && written + "" == written;
    checksum := md5(written);
  }

  function IdIf(ss: ShardingStrategy, key: string): Memory -> seq<string> {
    (m: Memory) => if KeyOf(ss, m) == key then [m.id] else []
  }

  /** The ids of those of the first `k` memories that have shard key `key`, in listing order. */
  function IdsTo(ss: ShardingStrategy, ms: seq<Memory>, k: nat, key: string): seq<string>
    requires k <= |ms|
  {
    FlatMap(IdIf(ss, key), ms, k)
  }

  function IdsIn(ss: ShardingStrategy, ms: seq<Memory>, key: string): seq<string> {
    IdsTo(ss, ms, |ms|, key)
  }

  ghost predicate HasKey(ss: ShardingStrategy, ms: seq<Memory>, key: string) {
    exists m :: m in ms && KeyOf(ss, m) == key
  }

  function StringKey(s: string): string {
    s
  }

  function SortStrings(ids: seq<string>): seq<string> {
    StableSort(StringKey, StringLess, ids)
  }

  function SortedIds(ss: ShardingStrategy, ms: seq<Memory>, key: string): (ids: seq<string>)
    ensures |ids| == |IdsIn(ss, ms, key)|
  {
    SortStrings(IdsIn(ss, ms, key))
  }

  function DigestOf(ss: ShardingStrategy, md5: string -> string, ms: seq<Memory>, key: string): ShardDigest {
    ShardDigest(key, md5(Concat(SortedIds(ss, ms, key))), |IdsIn(ss, ms, key)|)
  }

  /** The shard groups: ids appended under their shard key, memory by memory. */
  function GroupsOf(ss: ShardingStrategy, ms: seq<Memory>, k: nat): map<string, seq<string>>
    requires k <= |ms|
  {
    if k == 0 then map[]
    else
      var groups := GroupsOf(ss, ms, k - 1);
      var key := KeyOf(ss, ms[k - 1]);
      groups[key := (if key in groups then groups[key] else []) + [ms[k - 1].id]]
  }

  /** The grouping loop partitions: a key's group holds the ids of exactly its own memories, in listing order. */
  method GroupByShard(ss: ShardingStrategy, ms: seq<Memory>) returns (groups: map<string, seq<string>>)
    ensures groups == GroupsOf(ss, ms, |ms|)
    ensures forall key :: key in groups <==> HasKey(ss, ms, key)
    ensures forall key :: key in groups ==> groups[key] == IdsIn(ss, ms, key)
  {
    groups := map[];
    for k := 0 to |ms|
      invariant groups == GroupsOf(ss, ms, k)
    {
      var key := KeyOf(ss, ms[k]);
      groups := groups[key := (if key in groups then groups[key] else []) + [ms[k].id]];
    }
    forall key
      ensures key in groups <==> HasKey(ss, ms, key)
      ensures key in groups ==> groups[key] == IdsIn(ss, ms, key)
    {
      GroupsPartition(ss, ms, key);
    }
  }

  lemma {:induction false} GroupOf(ss: ShardingStrategy, ms: seq<Memory>, k: nat, key: string)
    requires k <= |ms|
    ensures key in GroupsOf(ss, ms, k) <==> IdsTo(ss, ms, k, key) != []
    ensures key in GroupsOf(ss, ms, k) ==> GroupsOf(ss, ms, k)[key] == IdsTo(ss, ms, k, key)
  {
    if k > 0 {
      GroupOf(ss, ms, k - 1, key);
    }
  }

  lemma GroupsPartition(ss: ShardingStrategy, ms: seq<Memory>, key: string)
    ensures key in GroupsOf(ss, ms, |ms|) <==> HasKey(ss, ms, key)
    ensures key in GroupsOf(ss, ms, |ms|) ==> GroupsOf(ss, ms, |ms|)[key] == IdsIn(ss, ms, key)
  {
    GroupOf(ss, ms, |ms|, key);
    HasKeyHasIds(ss, ms, key);
  }

  lemma {:induction false} IdsToMembers(ss: ShardingStrategy, ms: seq<Memory>, k: nat, key: string)
    requires k <= |ms|
    ensures IdsTo(ss, ms, k, key) != [] <==> exists i :: 0 <= i < k && KeyOf(ss, ms[i]) == key
  {
    if k > 0 {
      IdsToMembers(ss, ms, k - 1, key);
    }
  }

  lemma HasKeyHasIds(ss: ShardingStrategy, ms: seq<Memory>, key: string)
    ensures HasKey(ss, ms, key) <==> IdsIn(ss, ms, key) != []
  {
    IdsToMembers(ss, ms, |ms|, key);
    if i :| 0 <= i < |ms| && KeyOf(ss, ms[i]) == key {
      assert ms[i] in ms;
    }
  }

  function TotalCount(digests: seq<ShardDigest>): nat {
    if digests == [] then 0 else TotalCount(digests[..|digests| - 1]) + digests[|digests| - 1].count
  }

  /** One digest for each shard key, in any order. */
  ghost predicate Digests(ss: ShardingStrategy, md5: string -> string, ms: seq<Memory>, digests: seq<ShardDigest>) {
    && (forall i :: 0 <= i < |digests| ==>
          HasKey(ss, ms, digests[i].shardKey) && digests[i] == DigestOf(ss, md5, ms, digests[i].shardKey))
    && (forall i, j :: 0 <= i < j < |digests| ==> digests[i].shardKey != digests[j].shardKey)
    && (forall key :: HasKey(ss, ms, key) ==> DigestOf(ss, md5, ms, key) in digests)
  }

  function KeyFunction(ss: ShardingStrategy): Memory -> string {
    (m: Memory) => KeyOf(ss, m)
  }

  function SortedIdsFunction(ss: ShardingStrategy, ms: seq<Memory>): string -> seq<string> {
    (key: string) => SortedIds(ss, ms, key)
  }

  /** The groups after the loop over them, which sorts each in place. */
  ghost function SortedGroups(ss: ShardingStrategy, ms: seq<Memory>): map<string, seq<string>> {
    TableOf(KeyFunction(ss), SortedIdsFunction(ss, ms), ms, |ms|)
  }

  lemma SortedGroupOf(ss: ShardingStrategy, ms: seq<Memory>, key: string)
    ensures key in SortedGroups(ss, ms) <==> IdsIn(ss, ms, key) != []
    ensures key in SortedGroups(ss, ms) ==> SortedGroups(ss, ms)[key] == SortedIds(ss, ms, key)
  {
    TableAt(KeyFunction(ss), SortedIdsFunction(ss, ms), ms, |ms|, key);
    IdsToMembers(ss, ms, |ms|, key);
    assert forall i :: 0 <= i < |ms| ==> KeyFunction(ss)(ms[i]) == KeyOf(ss, ms[i]);
  }

  /** Every group sorted but those in `remaining`. */
  ghost predicate SortedExcept(ss: ShardingStrategy, ms: seq<Memory>, remaining: set<string>,
                               groups: map<string, seq<string>>) {
    && groups.Keys == GroupsOf(ss, ms, |ms|).Keys
    && forall key :: key in groups ==>
         groups[key] == if key in remaining then IdsIn(ss, ms, key) else SortedIds(ss, ms, key)
  }

  lemma NoneSorted(ss: ShardingStrategy, ms: seq<Memory>)
    ensures SortedExcept(ss, ms, GroupsOf(ss, ms, |ms|).Keys, GroupsOf(ss, ms, |ms|))
  {
    forall key | key in GroupsOf(ss, ms, |ms|) ensures GroupsOf(ss, ms, |ms|)[key] == IdsIn(ss, ms, key) {
      GroupsPartition(ss, ms, key);
    }
  }

  lemma SortOneMore(ss: ShardingStrategy, ms: seq<Memory>, remaining: set<string>, groups: map<string, seq<string>>,
                    key: string)
    requires SortedExcept(ss, ms, remaining, groups) && key in remaining && key in groups
    ensures groups[key] == IdsIn(ss, ms, key)
    ensures SortedExcept(ss, ms, remaining - {key}, groups[key := SortedIds(ss, ms, key)])
  {
  }

  lemma AllSorted(ss: ShardingStrategy, ms: seq<Memory>, groups: map<string, seq<string>>)
    requires SortedExcept(ss, ms, {}, groups)
    ensures groups == SortedGroups(ss, ms)
  {
    var sorted := SortedGroups(ss, ms);
    forall key
      ensures (key in groups <==> key in sorted) && (key in groups && key in sorted ==> groups[key] == sorted[key])
    {
      SortedGroupOf(ss, ms, key);
      GroupOf(ss, ms, |ms|, key);
    }
  }

  /** Sorts each group where it lies and digests it; the groups stay sorted for the repairs. */
  method ComputeDigests(ss: ShardingStrategy, md5: string -> string, ms: seq<Memory>,
                        shardGroups: map<string, seq<string>>)
    returns (digests: seq<ShardDigest>, groups: map<string, seq<string>>)
    requires shardGroups == GroupsOf(ss, ms, |ms|)
    ensures Digests(ss, md5, ms, digests) && TotalCount(digests) == |ms|
    ensures groups == SortedGroups(ss, ms)
  {
    digests, groups := [], shardGroups;
    var remaining := shardGroups.Keys;
    NoDigests(ss, md5, ms, shardGroups.Keys);
    NoneSorted(ss, ms);
    while remaining != {}
      invariant remaining <= shardGroups.Keys
      invariant DigestsFor(ss, md5, ms, shardGroups.Keys - remaining, digests)
      invariant SortedExcept(ss, ms, remaining, groups)
      decreases |remaining|
    {
      var key :| key in remaining;
      SortOneMore(ss, ms, remaining, groups, key);
      var ids := SortStrings(groups[key]);
      groups := groups[key := ids];
      var checksum := ComputeChecksum(md5, ids);
      DigestOneMore(ss, md5, ms, shardGroups.Keys, remaining, key, digests);
      digests := digests + [ShardDigest(key, checksum, |ids|)];
      remaining := remaining - {key};
    }
    AllDigests(ss, md5, ms, shardGroups.Keys, digests);
    AllSorted(ss, ms, groups);
  }

  /** The digests of the shards in `keys`, one each. */
  ghost predicate DigestsFor(ss: ShardingStrategy, md5: string -> string, ms: seq<Memory>, keys: set<string>,
                             digests: seq<ShardDigest>) {
    && TotalCount(digests) == CountTo(ss, ms, |ms|, keys)
    && (forall i :: 0 <= i < |digests| ==>
          digests[i].shardKey in keys && digests[i] == DigestOf(ss, md5, ms, digests[i].shardKey))
    && (forall i, j :: 0 <= i < j < |digests| ==> digests[i].shardKey != digests[j].shardKey)
    && (forall key :: key in keys ==> DigestOf(ss, md5, ms, key) in digests)
  }

  lemma NoDigests(ss: ShardingStrategy, md5: string -> string, ms: seq<Memory>, keys: set<string>)
    ensures DigestsFor(ss, md5, ms, keys - keys, [])
  {
    NoneCounted(ss, ms, |ms|);
    assert keys - keys == {};
  }

  lemma DigestOneMore(ss: ShardingStrategy, md5: string -> string, ms: seq<Memory>, keys: set<string>,
                      remaining: set<string>,
                      key: string, digests: seq<ShardDigest>)
    requires key in remaining && remaining <= keys && DigestsFor(ss, md5, ms, keys - remaining, digests)
    ensures DigestsFor(ss, md5, ms, keys - (remaining - {key}), digests + [DigestOf(ss, md5, ms, key)])
  {
    var digest := DigestOf(ss, md5, ms, key);
    assert (digests + [digest])[..|digests|] == digests;
    assert keys - (remaining - {key}) == (keys - remaining) + {key};
    CountOneMore(ss, ms, |ms|, keys - remaining, key);
  }

  lemma AllDigests(ss: ShardingStrategy, md5: string -> string, ms: seq<Memory>, keys: set<string>,
                   digests: seq<ShardDigest>)
    requires keys == GroupsOf(ss, ms, |ms|).Keys && DigestsFor(ss, md5, ms, keys - {}, digests)
    ensures Digests(ss, md5, ms, digests) && TotalCount(digests) == |ms|
  {
    assert keys - {} == keys;
    forall key ensures key in keys <==> HasKey(ss, ms, key) {
      GroupsPartition(ss, ms, key);
    }
    forall m | m in ms ensures KeyOf(ss, m) in keys {
      assert HasKey(ss, ms, KeyOf(ss, m));
    }
    AllCounted(ss, ms, |ms|, keys);
  }

  /** How many of the first `k` memories fall under the keys in `keys`. */
  ghost function CountTo(ss: ShardingStrategy, ms: seq<Memory>, k: nat, keys: set<string>): nat
    requires k <= |ms|
  {
    if k == 0 then 0 else CountTo(ss, ms, k - 1, keys) + if KeyOf(ss, ms[k - 1]) in keys then 1 else 0
  }

  lemma {:induction false} NoneCounted(ss: ShardingStrategy, ms: seq<Memory>, k: nat)
    requires k <= |ms|
    ensures CountTo(ss, ms, k, {}) == 0
  {
    if k > 0 {
      NoneCounted(ss, ms, k - 1);
    }
  }

  lemma {:induction false} CountOneMore(ss: ShardingStrategy, ms: seq<Memory>, k: nat, keys: set<string>, key: string)
    requires key !in keys && k <= |ms|
    ensures CountTo(ss, ms, k, keys + {key}) == CountTo(ss, ms, k, keys) + |IdsTo(ss, ms, k, key)|
  {
    if k > 0 {
      CountOneMore(ss, ms, k - 1, keys, key);
    }
  }

  lemma {:induction false} AllCounted(ss: ShardingStrategy, ms: seq<Memory>, k: nat, keys: set<string>)
    requires k <= |ms| && forall m :: m in ms ==> KeyOf(ss, m) in keys
    ensures CountTo(ss, ms, k, keys) == k
  {
    if k > 0 {
      AllCounted(ss, ms, k - 1, keys);
    }
  }

  type PeerDigests = map<string, seq<ShardDigest>>

  /** A digest contradicts what this node holds for the digest's shard. */
  ghost predicate Contradicts(ss: ShardingStrategy, md5: string -> string, ms: seq<Memory>, d: ShardDigest) {
    IdsIn(ss, ms, d.shardKey) != [] && d.checksum != DigestOf(ss, md5, ms, d.shardKey).checksum
  }

  ghost function DigestFunction(ss: ShardingStrategy, md5: string -> string, ms: seq<Memory>): string -> ShardDigest {
    (key: string) => DigestOf(ss, md5, ms, key)
  }

  /** The digest of each shard of this node, by key. */
  ghost function IndexOf(ss: ShardingStrategy, md5: string -> string, ms: seq<Memory>): map<string, ShardDigest> {
    TableOf(KeyFunction(ss), DigestFunction(ss, md5, ms), ms, |ms|)
  }

  lemma IndexedShard(ss: ShardingStrategy, md5: string -> string, ms: seq<Memory>, key: string)
    ensures key in IndexOf(ss, md5, ms) <==> IdsIn(ss, ms, key) != []
    ensures key in IndexOf(ss, md5, ms) ==> IndexOf(ss, md5, ms)[key] == DigestOf(ss, md5, ms, key)
  {
    TableAt(KeyFunction(ss), DigestFunction(ss, md5, ms), ms, |ms|, key);
    IdsToMembers(ss, ms, |ms|, key);
    assert forall i :: 0 <= i < |ms| ==> KeyFunction(ss)(ms[i]) == KeyOf(ss, ms[i]);
  }

  method IndexDigests(digests: seq<ShardDigest>) returns (index: map<string, ShardDigest>)
    requires forall i, j :: 0 <= i < j < |digests| ==> digests[i].shardKey != digests[j].shardKey
    ensures forall key :: key in index <==> exists d :: d in digests && d.shardKey == key
    ensures forall key :: key in index ==> index[key] in digests && index[key].shardKey == key
  {
    index := map[];
    for k := 0 to |digests|
      invariant forall key :: key in index <==> exists i :: 0 <= i < k && digests[i].shardKey == key
      invariant forall key :: key in index ==> index[key] in digests && index[key].shardKey == key
    {
      index := index[digests[k].shardKey := digests[k]];
    }
  }

  /** What looking an id up in an index of the first `k` rows finds: of two rows with one id, the later. */
  function RowTo(rows: seq<Memory>, k: nat, id: string): Option<Memory>
    requires k <= |rows|
  {
    if k == 0 then None else if rows[k - 1].id == id then Some(rows[k - 1]) else RowTo(rows, k - 1, id)
  }

  /** What a repair publishes for a row: the columns as listed, and no embedding. */
  function RepairEvent(m: Memory): MemoryStored {
    MemoryStored(m.id, m.tenantID, m.agentID, m.content, [], m.memoryType, m.importance, m.version)
  }

  /** The events for those of the first `k` ids that have a row. */
  function EventsTo(rows: seq<Memory>, ids: seq<string>, k: nat): seq<MemoryStored>
    requires k <= |ids|
  {
    if k == 0 then []
    else
      var found := RowTo(rows, |rows|, ids[k - 1]);
      EventsTo(rows, ids, k - 1) + match found case Some(m) => [RepairEvent(m)] case None => []
  }

  /** How many of the `n` publications from number `first` on succeed. */
  function Successes(published: nat -> bool, first: nat, n: nat): nat {
    if n == 0 then 0 else Successes(published, first, n - 1) + if published(first + n - 1) then 1 else 0
  }

  /** The publications of `attempted`, numbered from `first` on, of which `repaired` succeeded. */
  ghost predicate Counted(published: nat -> bool, first: nat, attempted: seq<MemoryStored>, repaired: nat) {
    repaired == Successes(published, first, |attempted|)
  }

  lemma {:induction false} SuccessesConcat(published: nat -> bool, first: nat, m: nat, n: nat)
    ensures Successes(published, first, m + n) == Successes(published, first, m) + Successes(published, first + m, n)
  {
    if n > 0 {
      SuccessesConcat(published, first, m, n - 1);
    }
  }

  lemma CountedConcat(published: nat -> bool, first: nat, before: seq<MemoryStored>, m: nat,
                      again: seq<MemoryStored>, n: nat)
    requires Counted(published, first, before, m) && Counted(published, first + |before|, again, n)
    ensures Counted(published, first, before + again, m + n)
  {
    SuccessesConcat(published, first, |before|, |again|);
    assert |before + again| == |before| + |again|;
  }

  /** Publishes the row of every listed id that has one; `published` tells which publications succeed. */
  method RepairShard(memIDs: seq<string>, all: seq<Memory>, published: nat -> bool, first: nat)
    returns (attempted: seq<MemoryStored>, repaired: nat)
    ensures attempted == EventsTo(all, memIDs, |memIDs|)
    ensures Counted(published, first, attempted, repaired)
  {
    var memIndex: map<string, Memory> := map[];
    for k := 0 to |all|
      invariant forall id :: id in memIndex <==> RowTo(all, k, id).Some?
      invariant forall id :: id in memIndex ==> RowTo(all, k, id) == Some(memIndex[id])
    {
      memIndex := memIndex[all[k].id := all[k]];
    }
    attempted, repaired := [], 0;
    for k := 0 to |memIDs|
      invariant attempted == EventsTo(all, memIDs, k)
      invariant repaired == Successes(published, first, |attempted|)
    {
      if memIDs[k] in memIndex {
        if published(first + |attempted|) {
          repaired := repaired + 1;
        }
        attempted := attempted + [RepairEvent(memIndex[memIDs[k]])];
      }
    }
  }

  /** The events for one shard, in the order of its sorted ids. */
  ghost function ShardEvents(ss: ShardingStrategy, ms: seq<Memory>, key: string): seq<MemoryStored> {
    EventsTo(ms, SortedIds(ss, ms, key), |SortedIds(ss, ms, key)|)
  }

  /** What one digest makes this node publish. */
  ghost function DigestRepairs(ss: ShardingStrategy, md5: string -> string, ms: seq<Memory>,
                               d: ShardDigest): seq<MemoryStored> {
    if Contradicts(ss, md5, ms, d) then ShardEvents(ss, ms, d.shardKey) else []
  }

  ghost function DigestRepairer(ss: ShardingStrategy, md5: string -> string, ms: seq<Memory>)
    : ShardDigest -> seq<MemoryStored>
  {
    d => DigestRepairs(ss, md5, ms, d)
  }

  /** What one peer's digests make it publish, one digest after the other. */
  ghost function PeerRepairs(f: ShardDigest -> seq<MemoryStored>, pd: PeerDigests, peer: string): seq<MemoryStored> {
    if peer in pd then FlatMap(f, pd[peer], |pd[peer]|) else []
  }

  ghost function PeerRepairer(f: ShardDigest -> seq<MemoryStored>, pd: PeerDigests): string -> seq<MemoryStored> {
    peer => PeerRepairs(f, pd, peer)
  }

  /** What a whole round over the peers makes it publish. */
  ghost function Repairs(ss: ShardingStrategy, md5: string -> string, ms: seq<Memory>, pd: PeerDigests,
                         peers: seq<string>): seq<MemoryStored> {
    FlatMap(PeerRepairer(DigestRepairer(ss, md5, ms), pd), peers, |peers|)
  }

  method CompareDigest(ss: ShardingStrategy, md5: string -> string, ms: seq<Memory>, groups: map<string, seq<string>>,
                       localIndex: map<string, ShardDigest>, d: ShardDigest, published: nat -> bool, first: nat)
    returns (attempted: seq<MemoryStored>, repaired: nat)
    requires groups == SortedGroups(ss, ms) && localIndex == IndexOf(ss, md5, ms)
    ensures attempted == DigestRepairer(ss, md5, ms)(d)
    ensures Counted(published, first, attempted, repaired)
  {
    SortedGroupOf(ss, ms, d.shardKey);
    IndexedShard(ss, md5, ms, d.shardKey);
    attempted, repaired := [], 0;
    if d.shardKey in localIndex && localIndex[d.shardKey].checksum != d.checksum {
      attempted, repaired := RepairShard(groups[d.shardKey], ms, published, first);
    }
  }

  /** The inner comparison loop: one peer's digests against the local index. */
  method CompareWithPeer(ss: ShardingStrategy, md5: string -> string, ms: seq<Memory>, groups: map<string, seq<string>>,
                         localIndex: map<string, ShardDigest>, ds: seq<ShardDigest>, published: nat -> bool, first: nat)
    returns (attempted: seq<MemoryStored>, repaired: nat)
    requires groups == SortedGroups(ss, ms) && localIndex == IndexOf(ss, md5, ms)
    ensures attempted == FlatMap(DigestRepairer(ss, md5, ms), ds, |ds|)
    ensures Counted(published, first, attempted, repaired)
  {
    attempted, repaired := [], 0;
    for k := 0 to |ds|
      invariant attempted == FlatMap(DigestRepairer(ss, md5, ms), ds, k)
      invariant Counted(published, first, attempted, repaired)
    {
      var again, n := CompareDigest(ss, md5, ms, groups, localIndex, ds[k], published, first + |attempted|);
      CountedConcat(published, first, attempted, repaired, again, n);
      attempted, repaired := attempted + again, repaired + n;
    }
  }

  datatype ShardSync = ShardSync(merkleRoot: string, digests: seq<ShardDigest>)

  function VersionOf(m: Memory): Version {
    Version(m.id, m.version)
  }

  /** Every peer once, in some order: Go ranges over a map as it pleases. */
  ghost predicate IsOrderOf(peers: seq<string>, keys: set<string>) {
    && (forall peer :: peer in peers <==> peer in keys)
    && (forall i, j :: 0 <= i < j < |peers| ==> peers[i] != peers[j])
  }

  ghost predicate RepairedInSomeOrder(ss: ShardingStrategy, md5: string -> string, ms: seq<Memory>,
                                      pd: PeerDigests, attempted: seq<MemoryStored>) {
    exists peers :: IsOrderOf(peers, pd.Keys) && attempted == Repairs(ss, md5, ms, pd, peers)
  }

  /** What a cycle over a listing does. */
  ghost predicate Reconciled(h: string -> string, md5: string -> string, ss: ShardingStrategy, memories: seq<Memory>,
                             peerDigests: PeerDigests, sync: ShardSync, attempted: seq<MemoryStored>) {
    && sync.merkleRoot == MerkleRoot(h, Map(Leaf, Map(VersionOf, memories)))
    && Digests(ss, md5, memories, sync.digests) && TotalCount(sync.digests) == |memories|
    && RepairedInSomeOrder(ss, md5, memories, peerDigests, attempted)
  }

  /**
   The whole cycle: what it broadcasts, what it republishes, and how many it counts as repaired.
   A listing that fails ends it at once; a broadcast that fails does not.
   */
  method RunCycle(h: string -> string, md5: string -> string, ss: ShardingStrategy, listing: Option<seq<Memory>>,
                  peerDigests: PeerDigests, published: nat -> bool)
    returns (sync: Option<ShardSync>, attempted: seq<MemoryStored>, repaired: nat)
    ensures listing.None? ==> sync == None && attempted == []
    ensures listing.Some? ==>
      sync.Some? && Reconciled(h, md5, ss, listing.value, peerDigests, sync.value, attempted)
    ensures Counted(published, 0, attempted, repaired)
  {
    if listing.None? {
      return None, [], 0;
    }
    var memories := listing.value;
    var data := ListLeaves(memories);
    var tree := BuildMerkleTree(h, data);
    var localRoot := tree.GetRootHash();

    var shardGroups := GroupByShard(ss, memories);
    var localDigests, groups := ComputeDigests(ss, md5, memories, shardGroups);
    sync := Some(ShardSync(localRoot, localDigests));

    var localIndex := IndexDigests(localDigests);
    IndexIsLocal(ss, md5, memories, localDigests, localIndex);
    attempted, repaired := CompareWithPeers(ss, md5, memories, groups, localIndex, peerDigests, published);
  }

  method ListLeaves(memories: seq<Memory>) returns (data: seq<string>)
    ensures data == Map(Leaf, Map(VersionOf, memories))
  {
    data := [];
    for k := 0 to |memories|
      invariant data == Map(Leaf, Map(VersionOf, memories[..k]))
    {
      assert memories[..k + 1] == memories[..k] + [memories[k]];
      MapAppendOne(VersionOf, memories[..k], memories[k]);
      MapAppendOne(Leaf, Map(VersionOf, memories[..k]), VersionOf(memories[k]));
      data := data + [memories[k].id + DecimalInt(memories[k].version)];
    }
    assert memories[..|memories|] == memories;
  }

  method CompareWithPeers(ss: ShardingStrategy, md5: string -> string, ms: seq<Memory>,
                          groups: map<string, seq<string>>,
                          localIndex: map<string, ShardDigest>, peerDigests: PeerDigests, published: nat -> bool)
    returns (attempted: seq<MemoryStored>, repaired: nat)
    requires groups == SortedGroups(ss, ms) && localIndex == IndexOf(ss, md5, ms)
    ensures RepairedInSomeOrder(ss, md5, ms, peerDigests, attempted)
    ensures Counted(published, 0, attempted, repaired)
  {
    attempted, repaired := [], 0;
    ghost var peers: seq<string> := [];
    var remaining := peerDigests.Keys;
    while remaining != {}
      invariant remaining <= peerDigests.Keys && IsOrderOf(peers, peerDigests.Keys - remaining)
      invariant attempted == Repairs(ss, md5, ms, peerDigests, peers)
      invariant Counted(published, 0, attempted, repaired)
      decreases |remaining|
    {
      var peer :| peer in remaining;
      var again, n := CompareWithPeer(ss, md5, ms, groups, localIndex, peerDigests[peer], published, |attempted|);
      CountedConcat(published, 0, attempted, repaired, again, n);
      OrderOneMore(peers, peerDigests.Keys, remaining, peer);
      RepairsOneMore(ss, md5, ms, peerDigests, peers, peer);
      attempted, repaired := attempted + again, repaired + n;
      peers, remaining := peers + [peer], remaining - {peer};
    }
    assert peerDigests.Keys - remaining == peerDigests.Keys;
  }

  lemma RepairsOneMore(ss: ShardingStrategy, md5: string -> string, ms: seq<Memory>, pd: PeerDigests,
                       peers: seq<string>, peer: string)
    requires peer in pd
    ensures Repairs(ss, md5, ms, pd, peers + [peer])
         == Repairs(ss, md5, ms, pd, peers) + FlatMap(DigestRepairer(ss, md5, ms), pd[peer], |pd[peer]|)
  {
    FlatMapOneMore(PeerRepairer(DigestRepairer(ss, md5, ms), pd), peers, peer);
  }

  lemma OrderOneMore(peers: seq<string>, keys: set<string>, remaining: set<string>, peer: string)
    requires remaining <= keys && IsOrderOf(peers, keys - remaining) && peer in remaining
    ensures IsOrderOf(peers + [peer], keys - (remaining - {peer}))
  {
    forall p ensures p in peers + [peer] <==> p in peers || p == peer {
    }
  }

  lemma IndexIsLocal(ss: ShardingStrategy, md5: string -> string, ms: seq<Memory>, digests: seq<ShardDigest>,
                     index: map<string, ShardDigest>)
    requires Digests(ss, md5, ms, digests)
    requires forall key :: key in index <==> exists d :: d in digests && d.shardKey == key
    requires forall key :: key in index ==> index[key] in digests && index[key].shardKey == key
    ensures index == IndexOf(ss, md5, ms)
  {
    var indexed := IndexOf(ss, md5, ms);
    forall key ensures (key in index <==> key in indexed) && (key in indexed ==> index[key] == indexed[key]) {
      IndexedShard(ss, md5, ms, key);
      HasKeyHasIds(ss, ms, key);
      if HasKey(ss, ms, key) {
        assert DigestOf(ss, md5, ms, key) in digests;
      }
    }
  }

  // ----- Why no computed digest ever contradicts another -----

  /** The id is the primary key of the table that is listed. */
  ghost predicate PrimaryKey(ms: seq<Memory>) {
    forall i, j :: 0 <= i < j < |ms| ==> ms[i].id != ms[j].id
  }

  lemma SameKeySameMemory(ss: ShardingStrategy, ss': ShardingStrategy, m: Memory, m': Memory)
    requires KeyOf(ss, m) == KeyOf(ss', m')
    ensures m.id == m'.id && m.tenantID == m'.tenantID && m.agentID == m'.agentID
  {
    ShardKeyInjective(ss, m.tenantID, m.agentID, m.id, m'.tenantID, m'.agentID, m'.id);
  }

  lemma KeysDiffer(ss: ShardingStrategy, ms: seq<Memory>, i: nat, j: nat)
    requires PrimaryKey(ms) && i < |ms| && j < |ms| && i != j
    ensures KeyOf(ss, ms[i]) != KeyOf(ss, ms[j])
  {
    if KeyOf(ss, ms[i]) == KeyOf(ss, ms[j]) {
      SameKeySameMemory(ss, ss, ms[i], ms[j]);
    }
  }

  /** The shard key contains the memory id, so every shard group is a single memory. */
  lemma GroupsAreSingletons(ss: ShardingStrategy, ms: seq<Memory>, i: nat)
    requires PrimaryKey(ms) && i < |ms|
    ensures IdsIn(ss, ms, KeyOf(ss, ms[i])) == [ms[i].id]
  {
    var f := IdIf(ss, KeyOf(ss, ms[i]));
    forall j | 0 <= j < |ms| && j != i ensures f(ms[j]) == [] {
      KeysDiffer(ss, ms, i, j);
    }
    FlatMapSingle(f, ms, |ms|, i);
  }

  lemma SortedAlone(ss: ShardingStrategy, ms: seq<Memory>, m: Memory)
    requires PrimaryKey(ms) && m in ms
    ensures SortedIds(ss, ms, KeyOf(ss, m)) == IdsIn(ss, ms, KeyOf(ss, m)) == [m.id]
  {
    var i :| 0 <= i < |ms| && ms[i] == m;
    GroupsAreSingletons(ss, ms, i);
    var ids := [m.id];
    assert ids[1..] == [] && StableSort(StringKey, StringLess, ids[1..]) == [];
    assert SortStrings(ids) == ids;
  }

  lemma ComputedDigest(ss: ShardingStrategy, md5: string -> string, ms: seq<Memory>, m: Memory)
    requires PrimaryKey(ms) && m in ms
    ensures DigestOf(ss, md5, ms, KeyOf(ss, m)) == ShardDigest(KeyOf(ss, m), md5(m.id), 1)
  {
    SortedAlone(ss, ms, m);
    var ids := [m.id];
    assert Concat(ids) == m.id + Concat(ids[1..]) == m.id + "";
    assert m.id + "" == m.id;
  }

  /** `d` was computed by a peer from its own table. */
  ghost predicate Computed(md5: string -> string, d: ShardDigest) {
    exists ss, ms :: PrimaryKey(ms) && HasKey(ss, ms, d.shardKey) && d == DigestOf(ss, md5, ms, d.shardKey)
  }

  /**
   A digest that any node computed from any table never contradicts another node's, however
   different the two tables are: the cycle republishes nothing for it.
   */
  lemma ComputedDigestsAgree(ss: ShardingStrategy, md5: string -> string, ms: seq<Memory>, d: ShardDigest)
    requires PrimaryKey(ms) && Computed(md5, d)
    ensures !Contradicts(ss, md5, ms, d)
  {
    HasKeyHasIds(ss, ms, d.shardKey);
    if HasKey(ss, ms, d.shardKey) {
      var m :| m in ms && KeyOf(ss, m) == d.shardKey;
      var ss', ms' :| PrimaryKey(ms') && HasKey(ss', ms', d.shardKey) && d == DigestOf(ss', md5, ms', d.shardKey);
      var m' :| m' in ms' && KeyOf(ss', m') == d.shardKey;
      SameKeySameMemory(ss, ss', m, m');
      ComputedDigest(ss, md5, ms, m);
      ComputedDigest(ss', md5, ms', m');
    }
  }

  lemma NoPeerRepairs(ss: ShardingStrategy, md5: string -> string, ms: seq<Memory>, ds: seq<ShardDigest>)
    requires PrimaryKey(ms) && forall d :: d in ds ==> Computed(md5, d)
    ensures FlatMap(DigestRepairer(ss, md5, ms), ds, |ds|) == []
  {
    var f := DigestRepairer(ss, md5, ms);
    forall i | 0 <= i < |ds| ensures f(ds[i]) == [] {
      ComputedDigestsAgree(ss, md5, ms, ds[i]);
    }
    FlatMapEmpty(f, ds, |ds|);
  }

  /** So a cycle that has only heard computed digests repairs nothing, in any order. */
  lemma NothingToRepair(ss: ShardingStrategy, md5: string -> string, ms: seq<Memory>, pd: PeerDigests,
                        peers: seq<string>)
    requires PrimaryKey(ms)
    requires forall peer, d :: peer in pd && d in pd[peer] ==> Computed(md5, d)
    ensures Repairs(ss, md5, ms, pd, peers) == []
  {
    var f := PeerRepairer(DigestRepairer(ss, md5, ms), pd);
    forall i | 0 <= i < |peers| ensures f(peers[i]) == [] {
      if peers[i] in pd {
        NoPeerRepairs(ss, md5, ms, pd[peers[i]]);
      }
    }
    FlatMapEmpty(f, peers, |peers|);
  }

  /** A foreign digest that does contradict this node makes it republish the one row of that shard. */
  lemma ContradictionRepublishesRow(ss: ShardingStrategy, md5: string -> string, ms: seq<Memory>, m: Memory,
                                    d: ShardDigest)
    requires PrimaryKey(ms) && m in ms && d.shardKey == KeyOf(ss, m)
    ensures DigestRepairs(ss, md5, ms, d) == if d.checksum == md5(m.id) then [] else [RepairEvent(m)]
  {
    SortedAlone(ss, ms, m);
    ComputedDigest(ss, md5, ms, m);
    var i :| 0 <= i < |ms| && ms[i] == m;
    RowOfMember(ms, i, |ms|);
    var ids: seq<string> := [m.id];
    assert EventsTo(ms, ids, 1) == EventsTo(ms, ids, 0) + [RepairEvent(m)];
  }

  lemma {:induction false} RowOfMember(ms: seq<Memory>, i: nat, k: nat)
    requires PrimaryKey(ms) && i < k <= |ms|
    ensures RowTo(ms, k, ms[i].id) == Some(ms[i])
  {
    if i < k - 1 {
      RowOfMember(ms, i, k - 1);
    }
  }

  /** Two tables give one digest for every shard that both hold. */
  lemma SharedShardsAgree(ss: ShardingStrategy, md5: string -> string, ms: seq<Memory>, ms': seq<Memory>, key: string)
    requires PrimaryKey(ms) && PrimaryKey(ms') && HasKey(ss, ms, key) && HasKey(ss, ms', key)
    ensures DigestOf(ss, md5, ms, key) == DigestOf(ss, md5, ms', key)
  {
    var m :| m in ms && KeyOf(ss, m) == key;
    var m' :| m' in ms' && KeyOf(ss, m') == key;
    SameKeySameMemory(ss, ss, m, m');
    ComputedDigest(ss, md5, ms, m);
    ComputedDigest(ss, md5, ms', m');
  }

  /**
   Yet the roots do tell the tables apart: they differ exactly when the tables differ in an id or a
   version, while no digest of a shard that both hold ever differs.
   */
  lemma RootsSeeWhatDigestsMiss(h: string -> string, md5: string -> string, ss: ShardingStrategy,
                                ms: seq<Memory>, ms': seq<Memory>)
    requires HashLength(h) && PrimaryKey(ms) && PrimaryKey(ms')
    requires forall m :: m in ms || m in ms' ==> Int64(VersionOf(m))
    requires CollisionFree(h, Preimages(h, Map(Leaf, Map(VersionOf, ms)))
                           + Preimages(h, Map(Leaf, Map(VersionOf, ms'))))
    ensures MerkleRoot(h, Map(Leaf, Map(VersionOf, ms))) != MerkleRoot(h, Map(Leaf, Map(VersionOf, ms')))
       <==> multiset(Map(VersionOf, ms)) != multiset(Map(VersionOf, ms'))
    ensures forall key :: HasKey(ss, ms, key) && HasKey(ss, ms', key) ==>
      DigestOf(ss, md5, ms, key) == DigestOf(ss, md5, ms', key)
  {
    RootsAgreeExactly(h, Map(VersionOf, ms), Map(VersionOf, ms'));
    forall key | HasKey(ss, ms, key) && HasKey(ss, ms', key)
      ensures DigestOf(ss, md5, ms, key) == DigestOf(ss, md5, ms', key)
    {
      SharedShardsAgree(ss, md5, ms, ms', key);
    }
  }

  /** Only ids and owners reach the digests: tables that agree on them, row by row, have the same digests. */
  lemma DigestsSeeOnlyIds(ss: ShardingStrategy, md5: string -> string, ms: seq<Memory>, ms': seq<Memory>, key: string)
    requires |ms| == |ms'|
    requires forall i :: 0 <= i < |ms| ==>
      ms[i].id == ms'[i].id && ms[i].tenantID == ms'[i].tenantID && ms[i].agentID == ms'[i].agentID
    ensures DigestOf(ss, md5, ms, key) == DigestOf(ss, md5, ms', key)
  {
    FlatMapSame(IdIf(ss, key), ms, ms', |ms|);
  }

  // ----- What the digests and the counts are -----

  /** The digested ids are those of the shard in ascending order. */
  lemma SortedIdsAscend(ss: ShardingStrategy, ms: seq<Memory>, key: string)
    ensures multiset(SortedIds(ss, ms, key)) == multiset(IdsIn(ss, ms, key))
    ensures forall i, j :: 0 <= i < j < |SortedIds(ss, ms, key)| ==>
      !StringLess(SortedIds(ss, ms, key)[j], SortedIds(ss, ms, key)[i])
  {
    StringLessIsTotalOrder();
    StableSortPermutes(StringKey, StringLess, IdsIn(ss, ms, key));
    StableSortSorted(StringKey, StringLess, IdsIn(ss, ms, key));
    assert SortedBy(StringKey, StringLess, SortedIds(ss, ms, key));
  }

  /** So a digest does not depend on the order of the listing, ids repeated or not. */
  lemma DigestIgnoresOrder(ss: ShardingStrategy, md5: string -> string, ms: seq<Memory>, ms': seq<Memory>, key: string)
    requires multiset(ms) == multiset(ms')
    ensures DigestOf(ss, md5, ms, key) == DigestOf(ss, md5, ms', key)
  {
    FlatMapPermutes(IdIf(ss, key), ms, ms');
    SameSortedIds(IdsIn(ss, ms, key), IdsIn(ss, ms', key));
    assert |multiset(IdsIn(ss, ms, key))| == |IdsIn(ss, ms, key)|;
    assert |multiset(IdsIn(ss, ms', key))| == |IdsIn(ss, ms', key)|;
  }

  lemma SameSortedIds(ids: seq<string>, ids': seq<string>)
    requires multiset(ids) == multiset(ids')
    ensures SortStrings(ids) == SortStrings(ids')
  {
    StringLessIsTotalOrder();
    StableSortPermutes(StringKey, StringLess, ids);
    StableSortPermutes(StringKey, StringLess, ids');
    StableSortSorted(StringKey, StringLess, ids);
    StableSortSorted(StringKey, StringLess, ids');
    SortedPermutationUnique(StringKey, StringLess, SortStrings(ids), SortStrings(ids'));
  }

  /** The text that is hashed: every id once, in order, with nothing in between. */
  lemma {:induction false} ConcatAppends(ids: seq<string>, more: seq<string>)
    ensures Concat(ids + more) == Concat(ids) + Concat(more)
    ensures |ids| == 1 ==> Concat(ids) == ids[0]
  {
    if ids == [] {
      assert ids + more == more;
    } else {
      ConcatAppends(ids[1..], more);
      assert (ids + more)[1..] == ids[1..] + more;
      assert |ids| == 1 ==> ids[1..] == [] && ids[0] + "" == ids[0];
    }
  }

  /** The count of repairs is the number of publications that succeed. */
  lemma {:induction false} SuccessesAreCounted(published: nat -> bool, first: nat, n: nat)
    ensures Successes(published, first, n) == |set i: nat | first <= i < first + n && published(i)|
  {
    var all := set i: nat | first <= i < first + n && published(i);
    if n == 0 {
      assert all == {};
    } else {
      SuccessesAreCounted(published, first, n - 1);
      var before := set i: nat | first <= i < first + (n - 1) && published(i);
      var last := first + n - 1;
      assert all == before + (if published(last) then {last} else {}) && last !in before;
    }
  }

  /** An id finds its last row, and nothing if it has none. */
  lemma {:induction false} RowIsLast(rows: seq<Memory>, k: nat, id: string)
    requires k <= |rows|
    ensures RowTo(rows, k, id).None? <==> forall i :: 0 <= i < k ==> rows[i].id != id
    ensures RowTo(rows, k, id).Some? ==> exists i ::
      && 0 <= i < k && rows[i] == RowTo(rows, k, id).value && rows[i].id == id
      && forall j :: i < j < k ==> rows[j].id != id
  {
    if k > 0 {
      RowIsLast(rows, k - 1, id);
    }
  }
}
