/**
 The TTL-based LRU cache: a map of entries into a list kept in recency order.  The class is proved
 against its list of slots; what callers rely on is proved of every run of that list.
 */
module Cache {
  import opened Common

  /** One cached value as the list shows it, most recently touched first. */
  datatype Slot<V> = Slot(key: string, value: V, expiresAt: int)

  // ----- The cache as a list -----

  function Lookup<V>(slots: seq<Slot<V>>, key: string): (found: Option<Slot<V>>)
    ensures found.Some? ==> found.value in slots && found.value.key == key
    ensures found.None? ==> forall i :: 0 <= i < |slots| ==> slots[i].key != key
  {
    if slots == [] then None
    else if slots[0].key == key then Some(slots[0])
    else Lookup(slots[1..], key)
  }

  function Removed<V>(slots: seq<Slot<V>>, key: string): seq<Slot<V>> {
    if slots == [] then []
    else if slots[0].key == key then slots[1..]
    else [slots[0]] + Removed(slots[1..], key)
  }

  /** A stored value is served through its expiry instant, and no later. */
  function Read<V>(slots: seq<Slot<V>>, key: string, now: int): Option<V> {
    var found := Lookup(slots, key);
    if found.Some? && now <= found.value.expiresAt then Some(found.value.value) else None
  }

  function AfterGet<V>(slots: seq<Slot<V>>, key: string, now: int): seq<Slot<V>> {
    var found := Lookup(slots, key);
    if found.None? then slots
    else if now > found.value.expiresAt then Removed(slots, key)
    else [found.value] + Removed(slots, key)
  }

  function AfterSet<V>(slots: seq<Slot<V>>, key: string, value: V, now: int, capacity: nat, ttl: int): seq<Slot<V>> {
    var front := Slot(key, value, now + ttl);
    if Lookup(slots, key).Some? then [front] + Removed(slots, key)
    else if |slots| + 1 > capacity then ([front] + slots)[..|slots|]
    else [front] + slots
  }

  // ----- The class -----

  class Entry<V> {
    const key: string
    var value: V
    var expiresAt: int

    constructor (key: string, value: V, expiresAt: int)
      ensures this.key == key && this.value == value && this.expiresAt == expiresAt
    {
      this.key, this.value, this.expiresAt := key, value, expiresAt;
    }
  }

  ghost function SlotsOf<V>(order: seq<Entry<V>>): (slots: seq<Slot<V>>)
    reads order
    ensures |slots| == |order|
  {
    if order == [] then []
    else [Slot(order[0].key, order[0].value, order[0].expiresAt)] + SlotsOf(order[1..])
  }

  /** The index that a list calls for. */
  ghost function ItemsOf<V>(order: seq<Entry<V>>): map<string, Entry<V>> {
    if order == [] then map[] else ItemsOf(order[1..])[order[0].key := order[0]]
  }

  /** No two elements of the list share a key. */
  ghost predicate DistinctKeys<V>(order: seq<Entry<V>>) {
    order == [] || (order[0].key !in ItemsOf(order[1..]) && DistinctKeys(order[1..]))
  }

  /** The list without an element. */
  function Unlinked<T(==)>(order: seq<T>, element: T): seq<T> {
    if order == [] then []
    else if order[0] == element then order[1..]
    else [order[0]] + Unlinked(order[1..], element)
  }

  class MemoryCache<V> {
    const capacity: nat
    const ttl: int
    var items: map<string, Entry<V>>
    var order: seq<Entry<V>>

    ghost predicate Valid()
      reads this
    {
      && capacity > 0 && ttl > 0
      && |order| <= capacity
      && DistinctKeys(order) && items == ItemsOf(order)
    }

    ghost function Slots(): seq<Slot<V>>
      reads this, order
    {
      SlotsOf(order)
    }

    constructor (capacity: int, ttl: int)
      ensures Valid() && Slots() == []
      ensures this.capacity == if capacity <= 0 then 256 else capacity
      ensures this.ttl == if ttl <= 0 then 30_000 else ttl
    {
      this.capacity := if capacity <= 0 then 256 else capacity;
      this.ttl := if ttl <= 0 then 30_000 else ttl;
      items := map[];
      order := [];
    }

    method Get(key: string, now: int) returns (result: Option<V>)
      requires Valid()
      modifies this
      ensures Valid()
      ensures result == Read(old(Slots()), key, now)
      ensures Slots() == AfterGet(old(Slots()), key, now)
    {
      LookupIsItem(order, key);
      if key !in items {
        return None;
      }
      var entry := items[key];
      UnlinkItem(order, key);
      if now > entry.expiresAt {
        order := Unlinked(order, entry);
        items := items - {key};
        return None;
      }
      PushFront(entry, Unlinked(order, entry));
      order := [entry] + Unlinked(order, entry);
      return Some(entry.value);
    }

    method Set(key: string, value: V, now: int)
      requires Valid()
      modifies this, order
      ensures Valid() && (forall entry :: entry in order ==> entry in old(order) || fresh(entry))
      ensures Slots() == AfterSet(old(Slots()), key, value, now, capacity, ttl)
    {
      LookupIsItem(order, key);
      if key in items {
        Refresh(key, value, now);
        return;
      }
      PushNew(key, value, now);
      if |order| > capacity {
        EvictLast();
      }
    }

    /** Links an entry for a key that is not present. */
    method PushNew(key: string, value: V, now: int)
      requires Valid() && key !in items
      modifies this
      ensures DistinctKeys(order) && items == ItemsOf(order)
      ensures |order| == |old(order)| + 1 && order[1..] == old(order) && fresh(order[0])
      ensures Slots() == [Slot(key, value, now + ttl)] + old(Slots())
    {
      var entry := new Entry(key, value, now + ttl);
      PushFront(entry, order);
      order := [entry] + order;
      items := items[key := entry];
    }

    /** Drops the back of the list and its map entry. */
    method EvictLast()
      requires order != [] && DistinctKeys(order) && items == ItemsOf(order)
      modifies this
      ensures order == old(order)[..|old(order)| - 1]
      ensures DistinctKeys(order) && items == ItemsOf(order)
      ensures Slots() == old(Slots())[..|old(order)| - 1]
    {
      DropLast(order);
      var last := order[|order| - 1];
      order := order[..|order| - 1];
      items := items - {last.key};
    }

    /** The branch of Set for a key that is present: the entry is overwritten and moved to the front. */
    method Refresh(key: string, value: V, now: int)
      requires Valid() && key in items
      modifies this, order
      ensures Valid() && (forall entry :: entry in order ==> entry in old(order))
      ensures Slots() == [Slot(key, value, now + ttl)] + Removed(old(Slots()), key)
    {
      LookupIsItem(order, key);
      UnlinkItem(order, key);
      var entry := items[key];
      var rest := Unlinked(order, entry);
      entry.value := value;
      entry.expiresAt := now + ttl;
      PushFront(entry, rest);
      order := [entry] + rest;
    }
  }

  lemma PushFront<V>(entry: Entry<V>, order: seq<Entry<V>>)
    requires DistinctKeys(order) && entry.key !in ItemsOf(order)
    ensures DistinctKeys([entry] + order)
    ensures ItemsOf([entry] + order) == ItemsOf(order)[entry.key := entry]
    ensures SlotsOf([entry] + order) == [Slot(entry.key, entry.value, entry.expiresAt)] + SlotsOf(order)
  {
    assert ([entry] + order)[1..] == order;
  }

  lemma {:induction false} LookupIsItem<V>(order: seq<Entry<V>>, key: string)
    requires DistinctKeys(order)
    ensures var items := ItemsOf(order);
      && (key in items ==> items[key] in order && items[key].key == key)
      && Lookup(SlotsOf(order), key)
         == if key in items then Some(Slot(key, items[key].value, items[key].expiresAt)) else None
  {
    if order != [] {
      LookupIsItem(order[1..], key);
      assert SlotsOf(order)[1..] == SlotsOf(order[1..]);
    }
  }

  lemma {:induction false} UnlinkItem<V>(order: seq<Entry<V>>, key: string)
    requires DistinctKeys(order) && key in ItemsOf(order)
    ensures var entry := ItemsOf(order)[key]; var rest := Unlinked(order, entry);
      && DistinctKeys(rest) && ItemsOf(rest) == ItemsOf(order) - {key} && ItemsOf(rest)[key := entry] == ItemsOf(order)
      && SlotsOf(rest) == Removed(SlotsOf(order), key)
      && |rest| == |order| - 1 && entry !in rest && entry.key == key && (forall e :: e in rest ==> e in order)
  {
    var entry := ItemsOf(order)[key];
    assert SlotsOf(order)[1..] == SlotsOf(order[1..]);
    if order[0].key == key {
      NotListed(order[1..], entry);
    } else {
      UnlinkItem(order[1..], key);
      assert order[0] != entry;
      assert Unlinked(order, entry)[1..] == Unlinked(order[1..], entry);
    }
  }

  lemma {:induction false} NotListed<V>(order: seq<Entry<V>>, entry: Entry<V>)
    requires entry.key !in ItemsOf(order)
    ensures entry !in order && ItemsOf(order) - {entry.key} == ItemsOf(order)
  {
    if order != [] {
      NotListed(order[1..], entry);
    }
  }

  lemma {:induction false} DropLast<V>(order: seq<Entry<V>>)
    requires DistinctKeys(order) && order != []
    ensures var n := |order| - 1;
      && order[n].key in ItemsOf(order) && DistinctKeys(order[..n])
      && ItemsOf(order[..n]) == ItemsOf(order) - {order[n].key}
      && SlotsOf(order[..n]) == SlotsOf(order)[..n]
  {
    var n := |order| - 1;
    if n > 0 {
      DropLast(order[1..]);
      assert order[1..][..n - 1] == order[..n][1..];
    } else {
      assert order[1..] == [] && order[..0] == [];
    }
  }

  /** The map and the list are two views of the same entries. */
  lemma {:induction false} MapMatchesList<V>(order: seq<Entry<V>>)
    requires DistinctKeys(order)
    ensures |ItemsOf(order)| == |order|
    ensures forall key :: key in ItemsOf(order) ==> ItemsOf(order)[key] in order && ItemsOf(order)[key].key == key
    ensures forall entry :: entry in order ==> entry.key in ItemsOf(order) && ItemsOf(order)[entry.key] == entry
  {
    if order != [] {
      MapMatchesList(order[1..]);
      assert order == [order[0]] + order[1..];
    }
  }

  // ----- Runs of operations -----

  datatype Op<V> = GetOp(key: string, now: int) | SetOp(key: string, value: V, now: int)

  function Step<V>(slots: seq<Slot<V>>, op: Op<V>, capacity: nat, ttl: int): seq<Slot<V>> {
    match op
    case GetOp(key, now) => AfterGet(slots, key, now)
    case SetOp(key, value, now) => AfterSet(slots, key, value, now, capacity, ttl)
  }

  function Run<V>(ops: seq<Op<V>>, capacity: nat, ttl: int): seq<Slot<V>> {
    if ops == [] then [] else Step(Run(ops[..|ops| - 1], capacity, ttl), ops[|ops| - 1], capacity, ttl)
  }

  ghost predicate LastSet<V>(ops: seq<Op<V>>, key: string, j: nat) {
    && j < |ops| && ops[j].SetOp? && ops[j].key == key
    && forall k :: j < k < |ops| && ops[k].SetOp? ==> ops[k].key != key
  }

  ghost predicate FromLastSet<V>(ops: seq<Op<V>>, slot: Slot<V>, ttl: int) {
    exists j: nat :: LastSet(ops, slot.key, j) && slot == Slot(slot.key, ops[j].value, ops[j].now + ttl)
  }

  /** No two slots share a key. */
  ghost predicate Distinct<V>(slots: seq<Slot<V>>) {
    slots == [] || (Lookup(slots[1..], slots[0].key).None? && Distinct(slots[1..]))
  }

  lemma {:induction false} RemovedLookup<V>(slots: seq<Slot<V>>, removed: string, key: string)
    requires Distinct(slots)
    ensures Distinct(Removed(slots, removed))
    ensures Lookup(Removed(slots, removed), key) == if key == removed then None else Lookup(slots, key)
    ensures |Removed(slots, removed)| == |slots| - if Lookup(slots, removed).Some? then 1 else 0
  {
    if slots != [] && slots[0].key != removed {
      RemovedLookup(slots[1..], removed, key);
      RemovedLookup(slots[1..], removed, slots[0].key);
      assert Removed(slots, removed)[1..] == Removed(slots[1..], removed);
    }
  }

  lemma {:induction false} TakeLookup<V>(slots: seq<Slot<V>>, n: nat, key: string)
    requires Distinct(slots) && n <= |slots|
    ensures Distinct(slots[..n])
    ensures Lookup(slots[..n], key).Some? ==> Lookup(slots[..n], key) == Lookup(slots, key)
  {
    if n > 0 {
      TakeLookup(slots[1..], n - 1, key);
      TakeLookup(slots[1..], n - 1, slots[0].key);
      assert slots[..n][1..] == slots[1..][..n - 1];
    }
  }

  lemma FrontLookup<V>(front: Slot<V>, slots: seq<Slot<V>>, key: string)
    requires Distinct(slots) && Lookup(slots, front.key).None?
    ensures Distinct([front] + slots)
    ensures Lookup([front] + slots, key) == if front.key == key then Some(front) else Lookup(slots, key)
  {
    assert ([front] + slots)[1..] == slots;
  }

  /** A Set keeps the slots distinct and within capacity, shows its own key, and brings in no other. */
  lemma SetKeeps<V>(slots: seq<Slot<V>>, other: string, value: V, now: int, capacity: nat, ttl: int, key: string)
    requires Distinct(slots) && |slots| <= capacity && capacity > 0
    ensures var slots' := AfterSet(slots, other, value, now, capacity, ttl);
      && Distinct(slots') && |slots'| <= capacity
      && (if other == key then Lookup(slots', key) == Some(Slot(key, value, now + ttl))
          else Lookup(slots', key).Some? ==> Lookup(slots', key) == Lookup(slots, key))
  {
    var front := Slot(other, value, now + ttl);
    if Lookup(slots, other).Some? {
      RemovedLookup(slots, other, key);
      RemovedLookup(slots, other, other);
      FrontLookup(front, Removed(slots, other), key);
    } else {
      FrontLookup(front, slots, key);
      if |slots| + 1 > capacity {
        TakeLookup([front] + slots, |slots|, key);
        assert ([front] + slots)[..|slots|][0] == front;
      }
    }
  }

  lemma GetKeeps<V>(slots: seq<Slot<V>>, other: string, now: int, key: string)
    requires Distinct(slots)
    ensures var slots' := AfterGet(slots, other, now);
      && Distinct(slots') && |slots'| <= |slots|
      && (Lookup(slots', key).Some? ==> Lookup(slots', key) == Lookup(slots, key))
  {
    var found := Lookup(slots, other);
    if found.Some? {
      RemovedLookup(slots, other, key);
      RemovedLookup(slots, other, other);
      FrontLookup(found.value, Removed(slots, other), key);
    }
  }

  /** One operation keeps the slots distinct and within capacity; it adds at most the slot it sets. */
  lemma StepKeeps<V>(slots: seq<Slot<V>>, op: Op<V>, capacity: nat, ttl: int, key: string)
    requires Distinct(slots) && |slots| <= capacity && capacity > 0
    ensures var slots' := Step(slots, op, capacity, ttl);
      && Distinct(slots') && |slots'| <= capacity
      && (if op.SetOp? && op.key == key then Lookup(slots', key) == Some(Slot(key, op.value, op.now + ttl))
          else Lookup(slots', key).Some? ==> Lookup(slots', key) == Lookup(slots, key))
  {
    match op
    case GetOp(other, now) => GetKeeps(slots, other, now, key);
    case SetOp(other, value, now) => SetKeeps(slots, other, value, now, capacity, ttl, key);
  }

  lemma {:induction false} RunKeeps<V>(ops: seq<Op<V>>, capacity: nat, ttl: int)
    requires capacity > 0
    ensures Distinct(Run(ops, capacity, ttl)) && |Run(ops, capacity, ttl)| <= capacity
  {
    if ops != [] {
      RunKeeps(ops[..|ops| - 1], capacity, ttl);
      StepKeeps(Run(ops[..|ops| - 1], capacity, ttl), ops[|ops| - 1], capacity, ttl, "");
    }
  }

  /** A slot always shows the latest Set of its key. */
  lemma {:induction false} SlotsShowLastSet<V>(ops: seq<Op<V>>, capacity: nat, ttl: int, key: string)
    requires capacity > 0
    ensures Lookup(Run(ops, capacity, ttl), key).Some? ==>
      FromLastSet(ops, Lookup(Run(ops, capacity, ttl), key).value, ttl)
  {
    if ops != [] {
      var n := |ops| - 1;
      var before := Run(ops[..n], capacity, ttl);
      RunKeeps(ops[..n], capacity, ttl);
      StepKeeps(before, ops[n], capacity, ttl, key);
      SlotsShowLastSet(ops[..n], capacity, ttl, key);
      var slot := Lookup(Run(ops, capacity, ttl), key);
      if slot.Some? {
        if ops[n].SetOp? && ops[n].key == key {
          assert LastSet(ops, key, n);
        } else {
          assert slot == Lookup(before, key);
          LastSetStays(ops, slot.value, ttl);
        }
      }
    }
  }

  lemma LastSetStays<V>(ops: seq<Op<V>>, slot: Slot<V>, ttl: int)
    requires ops != [] && FromLastSet(ops[..|ops| - 1], slot, ttl)
    requires ops[|ops| - 1].SetOp? ==> ops[|ops| - 1].key != slot.key
    ensures FromLastSet(ops, slot, ttl)
  {
    var before := ops[..|ops| - 1];
    var j: nat :| LastSet(before, slot.key, j) && slot == Slot(slot.key, before[j].value, before[j].now + ttl);
    assert LastSet(ops, slot.key, j);
  }

  /** A hit returns what the latest Set of the key stored, at most the TTL ago. */
  lemma HitReturnsLatest<V>(ops: seq<Op<V>>, capacity: nat, ttl: int, key: string, now: int) returns (j: nat)
    requires capacity > 0 && Read(Run(ops, capacity, ttl), key, now).Some?
    ensures LastSet(ops, key, j) && now <= ops[j].now + ttl
    ensures Read(Run(ops, capacity, ttl), key, now) == Some(ops[j].value)
  {
    SlotsShowLastSet(ops, capacity, ttl, key);
    var slot := Lookup(Run(ops, capacity, ttl), key).value;
    j :| LastSet(ops, slot.key, j) && slot == Slot(slot.key, ops[j].value, ops[j].now + ttl);
  }

  // ----- When a hit is guaranteed -----

  /** A key is touched by a Set of it and by a Get that finds it. */
  predicate Touches<V>(slots: seq<Slot<V>>, op: Op<V>) {
    op.SetOp? || Read(slots, op.key, op.now).Some?
  }

  /** The other keys touched since `key` was last touched. */
  function Since<V>(ops: seq<Op<V>>, key: string, capacity: nat, ttl: int): set<string> {
    if ops == [] then {}
    else
      var n := |ops| - 1;
      var earlier := Since(ops[..n], key, capacity, ttl);
      if !Touches(Run(ops[..n], capacity, ttl), ops[n]) then earlier
      else if ops[n].key == key then {}
      else earlier + {ops[n].key}
  }

  /** The keys in front of `key` in the list. */
  function Ahead<V>(slots: seq<Slot<V>>, key: string): set<string> {
    if slots == [] || slots[0].key == key then {} else {slots[0].key} + Ahead(slots[1..], key)
  }

  lemma AheadOfFront<V>(front: Slot<V>, slots: seq<Slot<V>>, key: string)
    ensures Ahead([front] + slots, key) == if front.key == key then {} else {front.key} + Ahead(slots, key)
  {
    assert ([front] + slots)[1..] == slots;
  }

  lemma {:induction false} AheadAreListed<V>(slots: seq<Slot<V>>, key: string, other: string)
    requires other in Ahead(slots, key)
    ensures Lookup(slots, other).Some? && other != key
  {
    if slots[0].key != other {
      AheadAreListed(slots[1..], key, other);
    }
  }

  lemma {:induction false} AheadSize<V>(slots: seq<Slot<V>>, key: string)
    requires Distinct(slots)
    ensures |Ahead(slots, key)| <= |slots|
    ensures Lookup(slots, key).Some? ==> |Ahead(slots, key)| < |slots|
  {
    if slots != [] && slots[0].key != key {
      AheadSize(slots[1..], key);
    }
  }

  lemma {:induction false} AheadOfRemoved<V>(slots: seq<Slot<V>>, removed: string, key: string)
    requires Distinct(slots) && removed != key
    ensures Ahead(Removed(slots, removed), key) == Ahead(slots, key) - {removed}
  {
    if slots != [] && slots[0].key != key {
      if slots[0].key == removed {
        if removed in Ahead(slots[1..], key) {
          AheadAreListed(slots[1..], key, removed);
        }
      } else {
        AheadOfRemoved(slots[1..], removed, key);
        AheadOfFront(slots[0], Removed(slots[1..], removed), key);
      }
    }
  }

  /** Cutting the list behind a key leaves the key and what is ahead of it. */
  lemma {:induction false} AheadOfTake<V>(slots: seq<Slot<V>>, n: nat, key: string)
    requires Distinct(slots) && n <= |slots| && Lookup(slots, key).Some? && |Ahead(slots, key)| < n
    ensures Lookup(slots[..n], key).Some? && Ahead(slots[..n], key) == Ahead(slots, key)
  {
    assert slots[..n][1..] == slots[1..][..n - 1];
    if slots[0].key != key {
      if slots[0].key in Ahead(slots[1..], key) {
        AheadAreListed(slots[1..], key, slots[0].key);
      }
      AheadOfTake(slots[1..], n - 1, key);
    }
  }

  lemma {:induction false} AheadOfPrefix<V>(slots: seq<Slot<V>>, n: nat, key: string)
    requires n <= |slots| && Lookup(slots[..n], key).Some?
    ensures Ahead(slots[..n], key) == Ahead(slots, key)
  {
    assert slots[..n][1..] == slots[1..][..n - 1];
    if slots[0].key != key {
      AheadOfPrefix(slots[1..], n - 1, key);
    }
  }

  lemma MovedToFront<V>(slots: seq<Slot<V>>, front: Slot<V>, key: string)
    requires Distinct(slots) && front.key != key
    ensures var slots' := [front] + Removed(slots, front.key);
      Lookup(slots', key) == Lookup(slots, key) && Ahead(slots', key) == Ahead(slots, key) + {front.key}
  {
    RemovedLookup(slots, front.key, key);
    AheadOfRemoved(slots, front.key, key);
    AheadOfFront(front, Removed(slots, front.key), key);
    assert ([front] + Removed(slots, front.key))[1..] == Removed(slots, front.key);
  }

  lemma PushedToFront<V>(slots: seq<Slot<V>>, front: Slot<V>, key: string)
    requires Distinct(slots) && front.key != key && Lookup(slots, front.key).None?
    ensures var slots' := [front] + slots;
      && Distinct(slots') && Lookup(slots', key) == Lookup(slots, key)
      && Ahead(slots', key) == Ahead(slots, key) + {front.key}
  {
    AheadOfFront(front, slots, key);
    assert ([front] + slots)[1..] == slots;
  }

  /** What an operation touches besides `key`. */
  function Touched<V>(slots: seq<Slot<V>>, op: Op<V>): set<string> {
    if Touches(slots, op) then {op.key} else {}
  }

  /**
   An operation on another key puts at most that key ahead; it drops `key` only from the back of a
   full list, and loses a key ahead only to an expiry.
   */
  lemma OtherOperation<V>(slots: seq<Slot<V>>, op: Op<V>, capacity: nat, ttl: int, key: string)
    requires Distinct(slots) && |slots| <= capacity && capacity > 0
    requires op.key != key && Lookup(slots, key).Some?
    ensures var slots' := Step(slots, op, capacity, ttl);
      && (|Ahead(slots, key) + Touched(slots, op)| < capacity ==> Lookup(slots', key).Some?)
      && (Lookup(slots', key).Some? ==> Ahead(slots', key) <= Ahead(slots, key) + Touched(slots, op))
      && (Lookup(slots', key).Some? && (Lookup(slots, op.key).Some? ==> Touches(slots, op)) ==>
           Ahead(slots', key) == Ahead(slots, key) + Touched(slots, op))
  {
    if op.GetOp? {
      OtherGet(slots, op, key);
    } else {
      OtherSet(slots, op.key, op.value, op.now, capacity, ttl, key);
    }
  }

  lemma OtherSet<V>(slots: seq<Slot<V>>, other: string, value: V, now: int, capacity: nat, ttl: int, key: string)
    requires Distinct(slots) && |slots| <= capacity && capacity > 0
    requires other != key && Lookup(slots, key).Some?
    ensures var slots' := AfterSet(slots, other, value, now, capacity, ttl);
      && (|Ahead(slots, key) + {other}| < capacity ==> Lookup(slots', key).Some?)
      && (Lookup(slots', key).Some? ==> Ahead(slots', key) == Ahead(slots, key) + {other})
  {
    var front := Slot(other, value, now + ttl);
    if Lookup(slots, other).Some? {
      MovedToFront(slots, front, key);
    } else {
      PushedToFront(slots, front, key);
      if |slots| + 1 > capacity {
        CutBack([front] + slots, |slots|, key);
      }
    }
  }

  lemma CutBack<V>(slots: seq<Slot<V>>, n: nat, key: string)
    requires Distinct(slots) && n <= |slots| && Lookup(slots, key).Some?
    ensures |Ahead(slots, key)| < n ==> Lookup(slots[..n], key).Some?
    ensures Lookup(slots[..n], key).Some? ==> Ahead(slots[..n], key) == Ahead(slots, key)
  {
    if |Ahead(slots, key)| < n {
      AheadOfTake(slots, n, key);
    }
    if Lookup(slots[..n], key).Some? {
      AheadOfPrefix(slots, n, key);
    }
  }

  lemma OtherGet<V>(slots: seq<Slot<V>>, op: Op<V>, key: string)
    requires Distinct(slots) && op.GetOp? && op.key != key && Lookup(slots, key).Some?
    ensures var slots' := AfterGet(slots, op.key, op.now);
      && Lookup(slots', key).Some?
      && (if Lookup(slots, op.key).None? then slots' == slots
          else if Touches(slots, op) then Ahead(slots', key) == Ahead(slots, key) + {op.key}
          else Ahead(slots', key) <= Ahead(slots, key))
  {
    var found := Lookup(slots, op.key);
    if found.Some? && op.now <= found.value.expiresAt {
      MovedToFront(slots, found.value, key);
    } else if found.Some? {
      RemovedLookup(slots, op.key, key);
      AheadOfRemoved(slots, op.key, key);
    }
  }

  lemma OwnOperation<V>(slots: seq<Slot<V>>, op: Op<V>, capacity: nat, ttl: int)
    requires Distinct(slots) && |slots| <= capacity && capacity > 0 && Touches(slots, op)
    ensures Lookup(Step(slots, op, capacity, ttl), op.key).Some? && Ahead(Step(slots, op, capacity, ttl), op.key) == {}
  {
    var slots' := Step(slots, op, capacity, ttl);
    assert slots' != [] && slots'[0].key == op.key;
  }

  ghost predicate NotAfter<V>(ops: seq<Op<V>>, now: int) {
    forall i :: 0 <= i < |ops| ==> ops[i].now <= now
  }

  /** What an unexpired key keeps: it is listed, behind keys touched since. */
  ghost predicate Stays<V>(ops: seq<Op<V>>, capacity: nat, ttl: int, key: string) {
    && Lookup(Run(ops, capacity, ttl), key).Some?
    && Ahead(Run(ops, capacity, ttl), key) <= Since(ops, key, capacity, ttl)
  }

  lemma StaysByOwnTouch<V>(ops: seq<Op<V>>, op: Op<V>, capacity: nat, ttl: int)
    requires capacity > 0 && Touches(Run(ops, capacity, ttl), op)
    ensures Stays(ops + [op], capacity, ttl, op.key)
  {
    assert (ops + [op])[..|ops|] == ops;
    RunKeeps(ops, capacity, ttl);
    OwnOperation(Run(ops, capacity, ttl), op, capacity, ttl);
  }

  lemma StaysThroughOther<V>(ops: seq<Op<V>>, op: Op<V>, capacity: nat, ttl: int, key: string)
    requires capacity > 0 && op.key != key && Stays(ops, capacity, ttl, key)
    requires |Since(ops + [op], key, capacity, ttl)| < capacity
    ensures Stays(ops + [op], capacity, ttl, key)
  {
    assert (ops + [op])[..|ops|] == ops;
    RunKeeps(ops, capacity, ttl);
    KeyStaysThrough(Run(ops, capacity, ttl), op, capacity, ttl, key, Since(ops, key, capacity, ttl));
  }

  lemma SinceGrows<V>(ops: seq<Op<V>>, op: Op<V>, capacity: nat, ttl: int, key: string)
    requires !(op.key == key && Touches(Run(ops, capacity, ttl), op))
    ensures |Since(ops, key, capacity, ttl)| <= |Since(ops + [op], key, capacity, ttl)|
  {
    assert (ops + [op])[..|ops|] == ops;
    SubsetSize(Since(ops, key, capacity, ttl), Since(ops + [op], key, capacity, ttl));
  }

  /** While few enough other keys are touched, an unexpired key stays. */
  lemma {:induction false} KeyStays<V>(ops: seq<Op<V>>, capacity: nat, ttl: int, key: string, now: int, j: nat)
    requires capacity > 0 && LastSet(ops, key, j) && now <= ops[j].now + ttl && NotAfter(ops, now)
    requires |Since(ops, key, capacity, ttl)| < capacity
    ensures Stays(ops, capacity, ttl, key)
  {
    var n := |ops| - 1;
    var before, op := ops[..n], ops[n];
    assert ops == before + [op];
    if op.key == key && Touches(Run(before, capacity, ttl), op) {
      StaysByOwnTouch(before, op, capacity, ttl);
    } else {
      SinceGrows(before, op, capacity, ttl, key);
      assert LastSet(before, key, j);
      KeyStays(before, capacity, ttl, key, now, j);
      if op.key == key {
        UnexpiredIsFound(before, capacity, ttl, key, op.now, j);
      } else {
        StaysThroughOther(before, op, capacity, ttl, key);
      }
    }
  }

  lemma KeyStaysThrough<V>(slots: seq<Slot<V>>, op: Op<V>, capacity: nat, ttl: int, key: string, since: set<string>)
    requires Distinct(slots) && |slots| <= capacity && capacity > 0 && op.key != key
    requires Lookup(slots, key).Some? && Ahead(slots, key) <= since && |since + Touched(slots, op)| < capacity
    ensures Lookup(Step(slots, op, capacity, ttl), key).Some?
    ensures Ahead(Step(slots, op, capacity, ttl), key) <= since + Touched(slots, op)
  {
    SubsetSize(Ahead(slots, key) + Touched(slots, op), since + Touched(slots, op));
    OtherOperation(slots, op, capacity, ttl, key);
  }

  lemma {:induction false} SubsetSize(a: set<string>, b: set<string>)
    requires a <= b
    ensures |a| <= |b|
  {
    if a != {} {
      var x :| x in a;
      SubsetSize(a - {x}, b - {x});
    }
  }

  lemma UnexpiredIsFound<V>(ops: seq<Op<V>>, capacity: nat, ttl: int, key: string, now: int, j: nat)
    requires capacity > 0 && LastSet(ops, key, j) && now <= ops[j].now + ttl
    requires Lookup(Run(ops, capacity, ttl), key).Some?
    ensures Read(Run(ops, capacity, ttl), key, now) == Some(ops[j].value)
  {
    SlotsShowLastSet(ops, capacity, ttl, key);
    var slot := Lookup(Run(ops, capacity, ttl), key).value;
    var k: nat :| LastSet(ops, slot.key, k) && slot == Slot(slot.key, ops[k].value, ops[k].now + ttl);
    assert k == j;
  }

  /** An unexpired key is a hit as long as fewer than `capacity` other keys were touched since it was. */
  lemma GuaranteedHit<V>(ops: seq<Op<V>>, capacity: nat, ttl: int, key: string, now: int, j: nat)
    requires capacity > 0 && LastSet(ops, key, j) && now <= ops[j].now + ttl
    requires NotAfter(ops, now)
    requires |Since(ops, key, capacity, ttl)| < capacity
    ensures Read(Run(ops, capacity, ttl), key, now) == Some(ops[j].value)
  {
    KeyStays(ops, capacity, ttl, key, now, j);
    UnexpiredIsFound(ops, capacity, ttl, key, now, j);
  }

  /** No Get of the run has found an entry past its expiry. */
  ghost predicate NoExpiredGets<V>(ops: seq<Op<V>>, capacity: nat, ttl: int) {
    forall n :: 0 <= n < |ops| && ops[n].GetOp? && Lookup(Run(ops[..n], capacity, ttl), ops[n].key).Some? ==>
      Touches(Run(ops[..n], capacity, ttl), ops[n])
  }

  /** Without expiries the keys ahead are exactly the keys touched since. */
  lemma {:induction false} AheadIsSince<V>(ops: seq<Op<V>>, capacity: nat, ttl: int, key: string)
    requires capacity > 0 && NoExpiredGets(ops, capacity, ttl) && Lookup(Run(ops, capacity, ttl), key).Some?
    ensures Ahead(Run(ops, capacity, ttl), key) == Since(ops, key, capacity, ttl)
  {
    if ops != [] {
      var n := |ops| - 1;
      var before, op := Run(ops[..n], capacity, ttl), ops[n];
      RunKeeps(ops[..n], capacity, ttl);
      forall m | 0 <= m < n ensures ops[..n][..m] == ops[..m] {
      }
      assert NoExpiredGets(ops[..n], capacity, ttl);
      if op.key == key && Touches(before, op) {
        OwnOperation(before, op, capacity, ttl);
      } else {
        StepKeeps(before, op, capacity, ttl, key);
        AheadIsSince(ops[..n], capacity, ttl, key);
        if op.key != key {
          OtherOperation(before, op, capacity, ttl, key);
        }
      }
    }
  }

  /**
   When no Get has met an expired entry, a key is served exactly if it was set at most the TTL ago
   and fewer than `capacity` other keys have been touched since.
   */
  lemma HitExactly<V>(ops: seq<Op<V>>, capacity: nat, ttl: int, key: string, now: int)
    requires capacity > 0 && NoExpiredGets(ops, capacity, ttl)
    requires NotAfter(ops, now)
    ensures Read(Run(ops, capacity, ttl), key, now).Some? <==>
      (exists j: nat :: LastSet(ops, key, j) && now <= ops[j].now + ttl) && |Since(ops, key, capacity, ttl)| < capacity
  {
    if Read(Run(ops, capacity, ttl), key, now).Some? {
      var j := HitReturnsLatest(ops, capacity, ttl, key, now);
      RunKeeps(ops, capacity, ttl);
      AheadIsSince(ops, capacity, ttl, key);
      AheadSize(Run(ops, capacity, ttl), key);
    }
    if |Since(ops, key, capacity, ttl)| < capacity {
      if j: nat :| LastSet(ops, key, j) && now <= ops[j].now + ttl {
        GuaranteedHit(ops, capacity, ttl, key, now, j);
      }
    }
  }

  // ----- Hits in any run, expired entries included -----

  /** A Get that misses leaves no entry behind: what it found expired is gone. */
  lemma MissLeavesNothing<V>(ops: seq<Op<V>>, capacity: nat, ttl: int, key: string, now: int)
    requires capacity > 0 && Read(Run(ops, capacity, ttl), key, now).None?
    ensures Lookup(Run(ops + [GetOp(key, now)], capacity, ttl), key).None?
  {
    assert (ops + [GetOp(key, now)])[..|ops|] == ops;
    RunKeeps(ops, capacity, ttl);
    RemovedLookup(Run(ops, capacity, ttl), key, key);
  }

  /** The other keys touched since `key` was, less those that a Get has missed since they were. */
  function Crowd<V>(ops: seq<Op<V>>, key: string, capacity: nat, ttl: int): set<string> {
    if ops == [] then {}
    else
      var n := |ops| - 1;
      var earlier := Crowd(ops[..n], key, capacity, ttl);
      var touches := Touches(Run(ops[..n], capacity, ttl), ops[n]);
      if ops[n].key == key then (if touches then {} else earlier)
      else if touches then earlier + {ops[n].key}
      else earlier - {ops[n].key}
  }

  /** `key` has been touched, and its crowd has stayed below the capacity ever since. */
  predicate Kept<V>(ops: seq<Op<V>>, key: string, capacity: nat, ttl: int) {
    ops != [] &&
    var n := |ops| - 1;
    || (ops[n].key == key && Touches(Run(ops[..n], capacity, ttl), ops[n]))
    || (Kept(ops[..n], key, capacity, ttl) && |Crowd(ops, key, capacity, ttl)| < capacity)
  }

  /** What an operation on another key does to the keys ahead, exactly. */
  lemma AheadAfterOther<V>(slots: seq<Slot<V>>, op: Op<V>, capacity: nat, ttl: int, key: string)
    requires Distinct(slots) && |slots| <= capacity && capacity > 0
    requires op.key != key && Lookup(slots, key).Some?
    ensures var slots' := Step(slots, op, capacity, ttl);
      && (Lookup(slots', key).Some? ==>
            Ahead(slots', key)
            == if Touches(slots, op) then Ahead(slots, key) + {op.key} else Ahead(slots, key) - {op.key})
      && (!Touches(slots, op) || |Ahead(slots, key) + {op.key}| < capacity ==> Lookup(slots', key).Some?)
  {
    if op.SetOp? {
      OtherSet(slots, op.key, op.value, op.now, capacity, ttl, key);
    } else {
      OtherGet(slots, op, key);
      var found := Lookup(slots, op.key);
      if found.Some? && op.now > found.value.expiresAt {
        AheadOfRemoved(slots, op.key, key);
      } else if found.None? && op.key in Ahead(slots, key) {
        AheadAreListed(slots, key, op.key);
      }
    }
  }

  lemma ListedByOwnTouch<V>(ops: seq<Op<V>>, op: Op<V>, capacity: nat, ttl: int)
    requires capacity > 0 && Touches(Run(ops, capacity, ttl), op)
    ensures Lookup(Run(ops + [op], capacity, ttl), op.key).Some? && Ahead(Run(ops + [op], capacity, ttl), op.key) == {}
    ensures Crowd(ops + [op], op.key, capacity, ttl) == {} && Kept(ops + [op], op.key, capacity, ttl)
  {
    assert (ops + [op])[..|ops|] == ops;
    RunKeeps(ops, capacity, ttl);
    OwnOperation(Run(ops, capacity, ttl), op, capacity, ttl);
  }

  lemma OnlyOwnTouchLists<V>(ops: seq<Op<V>>, op: Op<V>, capacity: nat, ttl: int, key: string)
    requires capacity > 0 && !(op.key == key && Touches(Run(ops, capacity, ttl), op))
    requires Lookup(Run(ops + [op], capacity, ttl), key).Some?
    ensures op.key != key && Lookup(Run(ops, capacity, ttl), key).Some?
  {
    assert (ops + [op])[..|ops|] == ops;
    RunKeeps(ops, capacity, ttl);
    StepKeeps(Run(ops, capacity, ttl), op, capacity, ttl, key);
    if op.key == key {
      MissLeavesNothing(ops, capacity, ttl, key, op.now);
    }
  }

  /** The keys ahead of a listed key are its crowd, whatever has expired. */
  lemma {:induction false} CrowdIsAhead<V>(ops: seq<Op<V>>, capacity: nat, ttl: int, key: string)
    requires capacity > 0 && Lookup(Run(ops, capacity, ttl), key).Some?
    ensures Ahead(Run(ops, capacity, ttl), key) == Crowd(ops, key, capacity, ttl) && Kept(ops, key, capacity, ttl)
  {
    if ops != [] {
      var n := |ops| - 1;
      var before, op := ops[..n], ops[n];
      assert ops == before + [op];
      RunKeeps(ops, capacity, ttl);
      AheadSize(Run(ops, capacity, ttl), key);
      if op.key == key && Touches(Run(before, capacity, ttl), op) {
        ListedByOwnTouch(before, op, capacity, ttl);
      } else {
        OnlyOwnTouchLists(before, op, capacity, ttl, key);
        CrowdIsAhead(before, capacity, ttl, key);
        RunKeeps(before, capacity, ttl);
        AheadAfterOther(Run(before, capacity, ttl), op, capacity, ttl, key);
      }
    }
  }

  /** A key that is kept and unexpired is listed. */
  lemma {:induction false} KeptIsListed<V>(ops: seq<Op<V>>, capacity: nat, ttl: int, key: string, now: int, j: nat)
    requires capacity > 0 && LastSet(ops, key, j) && now <= ops[j].now + ttl && NotAfter(ops, now)
    requires Kept(ops, key, capacity, ttl)
    ensures Lookup(Run(ops, capacity, ttl), key).Some?
  {
    var n := |ops| - 1;
    var before, op := ops[..n], ops[n];
    assert ops == before + [op];
    if op.key == key && Touches(Run(before, capacity, ttl), op) {
      ListedByOwnTouch(before, op, capacity, ttl);
    } else {
      assert LastSet(before, key, j);
      KeptIsListed(before, capacity, ttl, key, now, j);
      CrowdIsAhead(before, capacity, ttl, key);
      if op.key == key {
        UnexpiredIsFound(before, capacity, ttl, key, op.now, j);
      } else {
        RunKeeps(before, capacity, ttl);
        AheadAfterOther(Run(before, capacity, ttl), op, capacity, ttl, key);
      }
    }
  }

  /**
   The criterion for any run, expired entries and all: a key is served exactly if it was last set at
   most the TTL ago and its crowd has stayed below the capacity since its last touch.
   */
  lemma HitCriterion<V>(ops: seq<Op<V>>, capacity: nat, ttl: int, key: string, now: int)
    requires capacity > 0 && NotAfter(ops, now)
    ensures Read(Run(ops, capacity, ttl), key, now).Some? <==>
      (exists j: nat :: LastSet(ops, key, j) && now <= ops[j].now + ttl) && Kept(ops, key, capacity, ttl)
  {
    if Read(Run(ops, capacity, ttl), key, now).Some? {
      var j := HitReturnsLatest(ops, capacity, ttl, key, now);
      CrowdIsAhead(ops, capacity, ttl, key);
    }
    if Kept(ops, key, capacity, ttl) {
      if j: nat :| LastSet(ops, key, j) && now <= ops[j].now + ttl {
        KeptIsListed(ops, capacity, ttl, key, now, j);
        UnexpiredIsFound(ops, capacity, ttl, key, now, j);
      }
    }
  }
}
