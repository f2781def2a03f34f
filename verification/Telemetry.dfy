/**
 The telemetry object: eleven atomic counters that any number of calls update while a page is being
 written.  A method that takes several atomic steps is given what other calls do in between.
 */
module Telemetry {
  import opened LagMaximum
  import opened Metrics

  /** The eleven atomic counters, in the order in which a page or a snapshot loads them. */
  datatype Cell =
    | StoreCount | RetrieveCount | AuditWriteCount | AuditReadCount | AuthDeniedCount | CacheHitCount | CacheMissCount
    | LagNanos | LagMaxNanos | StoreNanos | RetrieveNanos

  function Get(c: Counters, cell: Cell): int {
    match cell
    case StoreCount => c.store
    case RetrieveCount => c.retrieve
    case AuditWriteCount => c.auditWrite
    case AuditReadCount => c.auditRead
    case AuthDeniedCount => c.authDenied
    case CacheHitCount => c.cacheHit
    case CacheMissCount => c.cacheMiss
    case LagNanos => c.lagNanos
    case LagMaxNanos => c.lagMaxNanos
    case StoreNanos => c.storeNanos
    case RetrieveNanos => c.retrieveNanos
  }

  function Put(c: Counters, cell: Cell, value: int): Counters {
    match cell
    case StoreCount => c.(store := value)
    case RetrieveCount => c.(retrieve := value)
    case AuditWriteCount => c.(auditWrite := value)
    case AuditReadCount => c.(auditRead := value)
    case AuthDeniedCount => c.(authDenied := value)
    case CacheHitCount => c.(cacheHit := value)
    case CacheMissCount => c.(cacheMiss := value)
    case LagNanos => c.(lagNanos := value)
    case LagMaxNanos => c.(lagMaxNanos := value)
    case StoreNanos => c.(storeNanos := value)
    case RetrieveNanos => c.(retrieveNanos := value)
  }

  /** What any call may do to the counters in one step: add to one of them, or swap in a new maximum. */
  datatype Atomic = Add(cell: Cell, amount: int) | Swap(max: int)

  function Do(c: Counters, a: Atomic): Counters {
    match a
    case Add(cell, amount) => Put(c, cell, Wrap(Get(c, cell) + amount))
    case Swap(max) => c.(lagMaxNanos := max)
  }

  function DoAll(c: Counters, steps: seq<Atomic>): Counters {
    if steps == [] then c else Do(DoAll(c, steps[..|steps| - 1]), steps[|steps| - 1])
  }

  /** The counters when load number `i` happens; `env[i]` is what other calls do since the load before. */
  function AtLoad(c: Counters, env: seq<seq<Atomic>>, i: nat): Counters
    requires i < |env|
  {
    DoAll(if i == 0 then c else AtLoad(c, env, i - 1), env[i])
  }

  /** What eleven separate loads see. */
  function Seen(c: Counters, env: seq<seq<Atomic>>): Counters
    requires |env| == 11
  {
    Counters(AtLoad(c, env, 0).store, AtLoad(c, env, 1).retrieve, AtLoad(c, env, 2).auditWrite,
             AtLoad(c, env, 3).auditRead, AtLoad(c, env, 4).authDenied, AtLoad(c, env, 5).cacheHit,
             AtLoad(c, env, 6).cacheMiss, AtLoad(c, env, 7).lagNanos, AtLoad(c, env, 8).lagMaxNanos,
             AtLoad(c, env, 9).storeNanos, AtLoad(c, env, 10).retrieveNanos)
  }

  class Telemetry {
    var counters: Counters

    constructor ()
      ensures counters == Counters(0, 0, 0, 0, 0, 0, 0, 0, 0, 0, 0)
    {
      counters := Counters(0, 0, 0, 0, 0, 0, 0, 0, 0, 0, 0);
    }

    /** Other calls take their steps. */
    method Interfere(steps: seq<Atomic>)
      modifies this
      ensures counters == DoAll(old(counters), steps)
    {
      for k := 0 to |steps|
        invariant counters == DoAll(old(counters), steps[..k])
      {
        assert steps[..k + 1][..k] == steps[..k];
        counters := Do(counters, steps[k]);
      }
      assert steps[..|steps|] == steps;
    }

    /** The two additions of a store, with whatever other calls do in between. */
    method RecordStore(nanos: int, between: seq<Atomic>)
      modifies this
      ensures counters == DoAll(old(counters), [Add(StoreCount, 1)] + between + [Add(StoreNanos, nanos)])
    {
      ghost var before := counters;
      counters := Do(counters, Add(StoreCount, 1));
      Interfere(between);
      counters := Do(counters, Add(StoreNanos, nanos));
      AroundSteps(before, Add(StoreCount, 1), between, Add(StoreNanos, nanos));
    }

    method RecordRetrieve(nanos: int, between: seq<Atomic>)
      modifies this
      ensures counters == DoAll(old(counters), [Add(RetrieveCount, 1)] + between + [Add(RetrieveNanos, nanos)])
    {
      ghost var before := counters;
      counters := Do(counters, Add(RetrieveCount, 1));
      Interfere(between);
      counters := Do(counters, Add(RetrieveNanos, nanos));
      AroundSteps(before, Add(RetrieveCount, 1), between, Add(RetrieveNanos, nanos));
    }

    /** The loads, one after the other, other calls going on in between. */
    method LoadAll(env: seq<seq<Atomic>>) returns (loaded: Counters)
      requires |env| == 11
      modifies this
      ensures loaded == Seen(old(counters), env) && counters == AtLoad(old(counters), env, 10)
    {
      Interfere(env[0]);
      var store := counters.store;
      Interfere(env[1]);
      var retrieve := counters.retrieve;
      Interfere(env[2]);
      var auditWrite := counters.auditWrite;
      Interfere(env[3]);
      var auditRead := counters.auditRead;
      Interfere(env[4]);
      var authDenied := counters.authDenied;
      Interfere(env[5]);
      var cacheHit := counters.cacheHit;
      Interfere(env[6]);
      var cacheMiss := counters.cacheMiss;
      Interfere(env[7]);
      var lagNanos := counters.lagNanos;
      Interfere(env[8]);
      var lagMaxNanos := counters.lagMaxNanos;
      Interfere(env[9]);
      var storeNanos := counters.storeNanos;
      Interfere(env[10]);
      var retrieveNanos := counters.retrieveNanos;
      loaded := Counters(store, retrieve, auditWrite, auditRead, authDenied, cacheHit, cacheMiss,
                         lagNanos, lagMaxNanos, storeNanos, retrieveNanos);
    }

    /** Loads the counters, then writes the page metric by metric. */
    method Handler(fl: real -> real, env: seq<seq<Atomic>>) returns (text: string)
      requires |env| == 11
      modifies this
      ensures text == Page(PageOf(SnapshotOf(fl, Seen(old(counters), env))))
      ensures counters == AtLoad(old(counters), env, 10)
    {
      var loaded := LoadAll(env);
      text := WritePage(PageOf(SnapshotOf(fl, loaded)));
    }
  }

  lemma {:induction false} DoAllConcat(c: Counters, first: seq<Atomic>, second: seq<Atomic>)
    ensures DoAll(c, first + second) == DoAll(DoAll(c, first), second)
  {
    if second == [] {
      assert first + second == first;
    } else {
      var n := |second| - 1;
      DoAllConcat(c, first, second[..n]);
      assert (first + second)[..|first + second| - 1] == first + second[..n];
    }
  }

  lemma AroundSteps(c: Counters, first: Atomic, between: seq<Atomic>, last: Atomic)
    ensures DoAll(c, [first] + between + [last]) == Do(DoAll(Do(c, first), between), last)
  {
    DoAllConcat(c, [first] + between, [last]);
    DoAllConcat(c, [first], between);
    assert [first][..0] == [] && [last][..0] == [];
    assert DoAll(c, [first]) == Do(DoAll(c, []), first);
    assert DoAll(DoAll(c, [first] + between), [last]) == Do(DoAll(DoAll(c, [first] + between), []), last);
  }

  // ----- What interleaved calls add up to -----

  function Total(steps: seq<Atomic>, cell: Cell): int {
    if steps == [] then 0
    else
      var last := steps[|steps| - 1];
      Total(steps[..|steps| - 1], cell) + if last.Add? && last.cell == cell then last.amount else 0
  }

  predicate Is64(x: int) {
    Wrap(x) == x
  }

  lemma DoAt(c: Counters, a: Atomic, cell: Cell)
    requires cell != LagMaxNanos
    ensures Get(Do(c, a), cell) == if a.Add? && a.cell == cell then Wrap(Get(c, cell) + a.amount) else Get(c, cell)
  {
  }

  /** However the steps of any calls interleave, each counter ends at its total, modulo 2^64. */
  lemma {:induction false} StepsAddUp(c: Counters, steps: seq<Atomic>, cell: Cell)
    requires cell != LagMaxNanos && Is64(Get(c, cell))
    ensures Get(DoAll(c, steps), cell) == Wrap(Get(c, cell) + Total(steps, cell))
  {
    if steps != [] {
      var n := |steps| - 1;
      StepsAddUp(c, steps[..n], cell);
      DoAt(DoAll(c, steps[..n]), steps[n], cell);
      WrapAdd(Get(c, cell) + Total(steps[..n], cell), if steps[n].Add? then steps[n].amount else 0);
    }
  }

  /** No step takes anything away. */
  ghost predicate OnlyGrows(env: seq<seq<Atomic>>) {
    forall i, a :: 0 <= i < |env| && a in env[i] && a.Add? ==> a.amount >= 0
  }

  lemma {:induction false} TotalNotNegative(steps: seq<Atomic>, cell: Cell)
    requires forall a :: a in steps && a.Add? ==> a.amount >= 0
    ensures Total(steps, cell) >= 0
  {
    if steps != [] {
      assert steps[|steps| - 1] in steps;
      TotalNotNegative(steps[..|steps| - 1], cell);
    }
  }

  /** What is added to a counter up to load number `i`. */
  function TotalAtLoad(env: seq<seq<Atomic>>, i: nat, cell: Cell): int
    requires i < |env|
  {
    (if i == 0 then 0 else TotalAtLoad(env, i - 1, cell)) + Total(env[i], cell)
  }

  lemma {:induction false} LoadsAddUp(c: Counters, env: seq<seq<Atomic>>, i: nat, cell: Cell)
    requires i < |env| && cell != LagMaxNanos && Is64(Get(c, cell))
    ensures Get(AtLoad(c, env, i), cell) == Wrap(Get(c, cell) + TotalAtLoad(env, i, cell))
  {
    if i > 0 {
      LoadsAddUp(c, env, i - 1, cell);
      WrapIs64(Get(c, cell) + TotalAtLoad(env, i - 1, cell));
      WrapAdd(Get(c, cell) + TotalAtLoad(env, i - 1, cell), Total(env[i], cell));
      StepsAddUp(AtLoad(c, env, i - 1), env[i], cell);
    } else {
      StepsAddUp(c, env[0], cell);
    }
  }

  lemma WrapIs64(x: int)
    ensures Is64(Wrap(x))
  {
  }

  lemma {:induction false} LaterLoadsAddMore(env: seq<seq<Atomic>>, i: nat, j: nat, cell: Cell)
    requires i <= j < |env| && OnlyGrows(env)
    ensures 0 <= TotalAtLoad(env, i, cell) <= TotalAtLoad(env, j, cell)
  {
    TotalNotNegative(env[j], cell);
    if i < j {
      LaterLoadsAddMore(env, i, j - 1, cell);
    } else if i > 0 {
      LaterLoadsAddMore(env, i - 1, i - 1, cell);
    }
  }

  function LoadNumber(cell: Cell): (i: nat)
    ensures i < 11
  {
    match cell
    case StoreCount => 0
    case RetrieveCount => 1
    case AuditWriteCount => 2
    case AuditReadCount => 3
    case AuthDeniedCount => 4
    case CacheHitCount => 5
    case CacheMissCount => 6
    case LagNanos => 7
    case LagMaxNanos => 8
    case StoreNanos => 9
    case RetrieveNanos => 10
  }

  /**
   The page may mix instants, but while nothing wraps every counter on it lies between the value
   when the page began and the value when it was done.
   */
  lemma SeenIsBetween(c: Counters, env: seq<seq<Atomic>>, cell: Cell)
    requires |env| == 11 && OnlyGrows(env) && cell != LagMaxNanos
    requires Get(c, cell) >= 0 && Get(c, cell) + TotalAtLoad(env, 10, cell) < 0x8000_0000_0000_0000
    ensures Get(c, cell) <= Get(Seen(c, env), cell) <= Get(AtLoad(c, env, 10), cell)
  {
    var i := LoadNumber(cell);
    SeenAtLoad(c, env, cell);
    LaterLoadsAddMore(env, i, 10, cell);
    LoadsAddUp(c, env, i, cell);
    LoadsAddUp(c, env, 10, cell);
  }

  lemma SeenAtLoad(c: Counters, env: seq<seq<Atomic>>, cell: Cell)
    requires |env| == 11
    ensures Get(Seen(c, env), cell) == Get(AtLoad(c, env, LoadNumber(cell)), cell)
  {
  }
}
