/**
 Recording replication lag without a lock: each call adds to a sum, then loads the maximum and
 retries a compare-and-swap until the stored maximum is at least its duration.  Calls interleave
 at every atomic operation.
 */
module LagMaximum {

  /** A 64-bit signed counter wraps round. */
  function Wrap(x: int): int {
    (x + 0x8000_0000_0000_0000) % 0x1_0000_0000_0000_0000 - 0x8000_0000_0000_0000
  }

  datatype Call = Started | Added | Loaded(current: int) | Returned

  /** The two shared counters and the progress of each call. */
  datatype System = System(sum: int, max: int, calls: seq<Call>)

  function Initial(n: nat): System {
    System(0, 0, seq(n, _ => Started))
  }

  predicate Enabled(s: System, i: nat) {
    i < |s.calls| && !s.calls[i].Returned?
  }

  /** The next atomic operation of call `i`, whose duration is `d`. */
  function Next(s: System, i: nat, d: int): System
    requires Enabled(s, i)
  {
    match s.calls[i]
    case Started => System(Wrap(s.sum + d), s.max, s.calls[i := Added])
    case Added => s.(calls := s.calls[i := Loaded(s.max)])
    case Loaded(current) =>
      if d <= current then s.(calls := s.calls[i := Returned])
      else if s.max == current then System(s.sum, d, s.calls[i := Returned])
      else s.(calls := s.calls[i := Added])
    case Returned => s
  }

  /** A schedule names the call that moves next. */
  ghost predicate Legal(s: System, ds: seq<int>, schedule: seq<nat>)
    requires |ds| == |s.calls|
    decreases |schedule|
  {
    schedule == [] || (Enabled(s, schedule[0]) && Legal(Next(s, schedule[0], ds[schedule[0]]), ds, schedule[1..]))
  }

  function After(s: System, ds: seq<int>, schedule: seq<nat>): System
    requires |ds| == |s.calls| && Legal(s, ds, schedule)
    decreases |schedule|
  {
    if schedule == [] then s else After(Next(s, schedule[0], ds[schedule[0]]), ds, schedule[1..])
  }

  // ----- Invariants -----

  /** The sum of the durations of the calls that have added theirs. */
  function AddedTotal(ds: seq<int>, calls: seq<Call>): int
    requires |ds| == |calls|
  {
    if ds == [] then 0
    else AddedTotal(ds[1..], calls[1..]) + (if calls[0].Started? then 0 else ds[0])
  }

  ghost predicate Inv(s: System, ds: seq<int>) {
    && |ds| == |s.calls|
    && s.sum == Wrap(AddedTotal(ds, s.calls))
    && s.max >= 0
    && (s.max == 0 || exists i :: 0 <= i < |ds| && s.calls[i].Returned? && ds[i] == s.max)
    && (forall i :: 0 <= i < |ds| && s.calls[i].Returned? ==> ds[i] <= s.max)
    && (forall i :: 0 <= i < |ds| && s.calls[i].Loaded? ==> s.calls[i].current <= s.max)
  }

  lemma WrapAdd(a: int, b: int)
    ensures Wrap(Wrap(a) + b) == Wrap(a + b)
  {
  }

  lemma {:induction false} AddedTotalUpdate(ds: seq<int>, calls: seq<Call>, i: nat, c: Call)
    requires |ds| == |calls| && i < |ds|
    ensures AddedTotal(ds, calls[i := c]) == AddedTotal(ds, calls)
      + (if calls[i].Started? && !c.Started? then ds[i] else if !calls[i].Started? && c.Started? then -ds[i] else 0)
  {
    if i > 0 {
      AddedTotalUpdate(ds[1..], calls[1..], i - 1, c);
      assert calls[i := c][1..] == calls[1..][i - 1 := c];
    } else {
      assert calls[i := c][1..] == calls[1..];
    }
  }

  lemma {:induction false} NothingAdded(ds: seq<int>, calls: seq<Call>)
    requires |ds| == |calls| && forall i :: 0 <= i < |calls| ==> calls[i].Started?
    ensures AddedTotal(ds, calls) == 0
  {
    if ds != [] {
      NothingAdded(ds[1..], calls[1..]);
    }
  }

  lemma InvInitial(ds: seq<int>)
    ensures Inv(Initial(|ds|), ds)
  {
    NothingAdded(ds, Initial(|ds|).calls);
  }

  lemma InvNext(s: System, ds: seq<int>, i: nat)
    requires Inv(s, ds) && Enabled(s, i)
    ensures Inv(Next(s, i, ds[i]), ds)
    ensures s.max <= Next(s, i, ds[i]).max
  {
    var s' := Next(s, i, ds[i]);
    AddedTotalUpdate(ds, s.calls, i, s'.calls[i]);
    WrapAdd(AddedTotal(ds, s.calls), ds[i]);
    assert s'.calls == s.calls[i := s'.calls[i]];
    if s'.max != s.max {
      assert s'.calls[i].Returned? && ds[i] == s'.max;
    } else if s.max != 0 {
      var k :| 0 <= k < |ds| && s.calls[k].Returned? && ds[k] == s.max;
      assert s'.calls[k].Returned?;
    }
  }

  /** A compare-and-swap that fails does so because the maximum has grown since the load. */
  lemma FailedSwapMeansProgress(s: System, ds: seq<int>, i: nat)
    requires Inv(s, ds) && Enabled(s, i) && s.calls[i].Loaded? && Next(s, i, ds[i]).calls[i].Added?
    ensures s.calls[i].current < s.max
  {
  }

  /** The maximum never decreases, whatever the schedule. */
  lemma {:induction false} MaximumGrows(s: System, ds: seq<int>, schedule: seq<nat>)
    requires Inv(s, ds) && Legal(s, ds, schedule)
    ensures Inv(After(s, ds, schedule), ds)
    ensures s.max <= After(s, ds, schedule).max
    decreases |schedule|
  {
    if schedule != [] {
      InvNext(s, ds, schedule[0]);
      MaximumGrows(Next(s, schedule[0], ds[schedule[0]]), ds, schedule[1..]);
    }
  }

  // ----- At rest -----

  function Maximum(ds: seq<int>): int {
    if ds == [] then 0
    else var m := Maximum(ds[1..]); if ds[0] > m then ds[0] else m
  }

  function Sum(ds: seq<int>): int {
    if ds == [] then 0 else ds[0] + Sum(ds[1..])
  }

  lemma {:induction false} MaximumIsLeast(ds: seq<int>, m: int)
    requires m >= 0 && (forall i :: 0 <= i < |ds| ==> ds[i] <= m)
    requires m == 0 || exists i :: 0 <= i < |ds| && ds[i] == m
    ensures Maximum(ds) == m
  {
    MaximumBounds(ds);
    if m != 0 {
      var i :| 0 <= i < |ds| && ds[i] == m;
    }
    if Maximum(ds) != 0 {
      assert exists i :: 0 <= i < |ds| && ds[i] == Maximum(ds);
    }
  }

  lemma {:induction false} MaximumBounds(ds: seq<int>)
    ensures Maximum(ds) >= 0
    ensures forall i :: 0 <= i < |ds| ==> ds[i] <= Maximum(ds)
    ensures Maximum(ds) == 0 || exists i :: 0 <= i < |ds| && ds[i] == Maximum(ds)
  {
    if ds != [] {
      MaximumBounds(ds[1..]);
      assert ds == [ds[0]] + ds[1..];
      if Maximum(ds[1..]) != 0 {
        var i :| 0 <= i < |ds[1..]| && ds[1..][i] == Maximum(ds[1..]);
        assert ds[i + 1] == Maximum(ds[1..]);
      }
    }
  }

  lemma {:induction false} EverythingAdded(ds: seq<int>, calls: seq<Call>)
    requires |ds| == |calls| && forall i :: 0 <= i < |calls| ==> calls[i].Returned?
    ensures AddedTotal(ds, calls) == Sum(ds)
  {
    if ds != [] {
      EverythingAdded(ds[1..], calls[1..]);
    }
  }

  /** When all calls have returned, the counters hold the total (as 64 bits) and the greatest duration. */
  lemma AtRest(ds: seq<int>, schedule: seq<nat>)
    requires Legal(Initial(|ds|), ds, schedule)
    requires forall i :: 0 <= i < |ds| && i < |After(Initial(|ds|), ds, schedule).calls| ==>
      After(Initial(|ds|), ds, schedule).calls[i].Returned?
    ensures After(Initial(|ds|), ds, schedule).max == Maximum(ds)
    ensures After(Initial(|ds|), ds, schedule).sum == Wrap(Sum(ds))
  {
    InvInitial(ds);
    MaximumGrows(Initial(|ds|), ds, schedule);
    var s := After(Initial(|ds|), ds, schedule);
    EverythingAdded(ds, s.calls);
    MaximumIsLeast(ds, s.max);
  }

  // ----- No schedule runs for ever -----

  /**
   The operations a call may still need, with a fee that its return will release; a loaded value
   that is out of date costs one more round than a fresh one.
   */
  function Weight(c: Call, max: int, fee: nat): nat {
    match c
    case Started => 6 + fee
    case Added => 4 + fee
    case Loaded(current) => (if current == max then 3 else 5) + fee
    case Returned => 0
  }

  function Weights(calls: seq<Call>, max: int, fee: nat): nat {
    if calls == [] then 0 else Weight(calls[0], max, fee) + Weights(calls[1..], max, fee)
  }

  /** The fee pays for every fresh value that a new maximum makes out of date. */
  function Measure(s: System): nat {
    Weights(s.calls, s.max, 2 * |s.calls|)
  }

  lemma {:induction false} WeightsUpdate(calls: seq<Call>, max: int, fee: nat, i: nat, c: Call)
    requires i < |calls|
    ensures Weights(calls[i := c], max, fee) == Weights(calls, max, fee) - Weight(calls[i], max, fee)
      + Weight(c, max, fee)
  {
    if i > 0 {
      WeightsUpdate(calls[1..], max, fee, i - 1, c);
      assert calls[i := c][1..] == calls[1..][i - 1 := c];
    } else {
      assert calls[i := c][1..] == calls[1..];
    }
  }

  lemma {:induction false} WeightsNewMaximum(calls: seq<Call>, max: int, max': int, fee: nat)
    ensures Weights(calls, max', fee) <= Weights(calls, max, fee) + 2 * |calls|
  {
    if calls != [] {
      WeightsNewMaximum(calls[1..], max, max', fee);
    }
  }

  /** Every atomic operation of every call decreases the measure. */
  lemma MeasureDecreases(s: System, ds: seq<int>, i: nat)
    requires Inv(s, ds) && Enabled(s, i)
    ensures Measure(Next(s, i, ds[i])) < Measure(s)
  {
    var s' := Next(s, i, ds[i]);
    var fee := 2 * |s.calls|;
    WeightsUpdate(s.calls, s.max, fee, i, s'.calls[i]);
    assert s'.calls == s.calls[i := s'.calls[i]];
    if s'.max != s.max {
      WeightsNewMaximum(s'.calls, s.max, s'.max, fee);
    }
  }

  lemma {:induction false} InitialWeights(calls: seq<Call>, fee: nat)
    requires forall i :: 0 <= i < |calls| ==> calls[i].Started?
    ensures Weights(calls, 0, fee) == |calls| * (6 + fee)
  {
    if calls != [] {
      InitialWeights(calls[1..], fee);
    }
  }

  lemma {:induction false} ScheduleBounded(s: System, ds: seq<int>, schedule: seq<nat>)
    requires Inv(s, ds) && Legal(s, ds, schedule)
    ensures |schedule| <= Measure(s)
    decreases |schedule|
  {
    if schedule != [] {
      MeasureDecreases(s, ds, schedule[0]);
      InvNext(s, ds, schedule[0]);
      ScheduleBounded(Next(s, schedule[0], ds[schedule[0]]), ds, schedule[1..]);
    }
  }

  /** Retries cannot go on: any schedule of n calls ends within n * (2n + 6) operations. */
  lemma RetriesEnd(ds: seq<int>, schedule: seq<nat>)
    requires Legal(Initial(|ds|), ds, schedule)
    ensures |schedule| <= |ds| * (6 + 2 * |ds|)
  {
    InvInitial(ds);
    ScheduleBounded(Initial(|ds|), ds, schedule);
    InitialWeights(Initial(|ds|).calls, 2 * |ds|);
  }
}
