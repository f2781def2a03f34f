/**
 The circuit breaker.  Execute holds the lock twice and calls the protected function in between, so
 any number of calls can be in flight; the two locked sections are the steps of the system below.
 */
module Breaker {

  datatype State = Closed | Open | HalfOpen

  datatype Breaker = Breaker(state: State, failureCount: nat, lastFailure: int)

  datatype Settings = Settings(threshold: int, timeout: int)

  /** The first locked section lets a call through unless the breaker is open and still cooling down. */
  predicate Admits(b: Breaker, settings: Settings, now: int) {
    !b.state.Open? || now - b.lastFailure > settings.timeout
  }

  function AfterAdmission(b: Breaker, settings: Settings, now: int): Breaker {
    if b.state.Open? && Admits(b, settings, now) then b.(state := HalfOpen) else b
  }

  /** The second locked section records the outcome. */
  function AfterOutcome(b: Breaker, settings: Settings, failed: bool, now: int): Breaker {
    if failed then
      Breaker(if b.failureCount + 1 >= settings.threshold then Open else b.state, b.failureCount + 1, now)
    else if b.state.HalfOpen? then Breaker(Closed, 0, b.lastFailure)
    else b
  }

  class CircuitBreaker {
    var state: State
    var failureCount: nat
    var lastFailure: int
    const threshold: int
    const timeout: int

    ghost function Value(): Breaker
      reads this
    {
      Breaker(state, failureCount, lastFailure)
    }

    constructor (threshold: int, timeout: int)
      ensures this.threshold == threshold && this.timeout == timeout
      ensures state == Closed && failureCount == 0
    {
      this.threshold, this.timeout := threshold, timeout;
      state, failureCount, lastFailure := Closed, 0, 0;
    }

    method Begin(now: int) returns (admitted: bool)
      modifies this
      ensures admitted <==> Admits(old(Value()), Settings(threshold, timeout), now)
      ensures admitted <==> old(state) != Open || now > old(lastFailure) + timeout
      ensures Value() == AfterAdmission(old(Value()), Settings(threshold, timeout), now)
    {
      if state == Open {
        if now - lastFailure > timeout {
          state := HalfOpen;
        } else {
          return false;
        }
      }
      return true;
    }

    method End(failed: bool, now: int)
      modifies this
      ensures Value() == AfterOutcome(old(Value()), Settings(threshold, timeout), failed, now)
    {
      if failed {
        failureCount := failureCount + 1;
        lastFailure := now;
        if failureCount >= threshold {
          state := Open;
        }
        return;
      }
      if state == HalfOpen {
        state := Closed;
        failureCount := 0;
      }
    }
  }

  // ----- Interleaved calls -----

  /** The breaker and the number of calls between their two locked sections. */
  datatype System = System(breaker: Breaker, inFlight: nat)

  datatype Action = Call(now: int) | Return(failed: bool, now: int)

  predicate Enabled(s: System, a: Action) {
    a.Return? ==> s.inFlight > 0
  }

  function Next(s: System, settings: Settings, a: Action): System
    requires Enabled(s, a)
  {
    match a
    case Call(now) =>
      System(AfterAdmission(s.breaker, settings, now),
             if Admits(s.breaker, settings, now) then s.inFlight + 1 else s.inFlight)
    case Return(failed, now) =>
      System(AfterOutcome(s.breaker, settings, failed, now), s.inFlight - 1)
  }

  function Initial(): System {
    System(Breaker(Closed, 0, 0), 0)
  }

  ghost predicate Legal(s: System, settings: Settings, run: seq<Action>)
    decreases |run|, 0
  {
    run == [] || (Legal(s, settings, run[..|run| - 1]) && Enabled(After(s, settings, run[..|run| - 1]), run[|run| - 1]))
  }

  function After(s: System, settings: Settings, run: seq<Action>): System
    requires Legal(s, settings, run)
    decreases |run|, 1
  {
    if run == [] then s else Next(After(s, settings, run[..|run| - 1]), settings, run[|run| - 1])
  }

  lemma {:induction false} PrefixLegal(s: System, settings: Settings, run: seq<Action>, i: nat)
    requires Legal(s, settings, run) && i <= |run|
    ensures Legal(s, settings, run[..i])
  {
    if i < |run| {
      PrefixLegal(s, settings, run[..|run| - 1], i);
      assert run[..|run| - 1][..i] == run[..i];
    } else {
      assert run[..i] == run;
    }
  }

  // ----- When the breaker is closed -----

  function Failures(run: seq<Action>): nat {
    if run == [] then 0
    else Failures(run[..|run| - 1]) + (if run[|run| - 1].Return? && run[|run| - 1].failed then 1 else 0)
  }

  /** Position `i` of a run is a success that arrives while the breaker is half open. */
  ghost predicate Closes(s: System, settings: Settings, run: seq<Action>, i: nat)
    requires Legal(s, settings, run)
  {
    && i < |run| && run[i].Return? && !run[i].failed
    && (PrefixLegal(s, settings, run, i); After(s, settings, run[..i]).breaker.state.HalfOpen?)
  }

  /** `from` follows the latest half-open success, or is the beginning when there was none. */
  ghost predicate SinceClosing(s: System, settings: Settings, run: seq<Action>, from: nat)
    requires Legal(s, settings, run)
  {
    && from <= |run| && (from > 0 ==> Closes(s, settings, run, from - 1))
    && forall i: nat :: from <= i < |run| ==> !Closes(s, settings, run, i)
  }

  lemma {:induction false} LatestClosing(s: System, settings: Settings, run: seq<Action>) returns (from: nat)
    requires Legal(s, settings, run)
    ensures SinceClosing(s, settings, run, from)
  {
    from := |run|;
    while from > 0 && !Closes(s, settings, run, from - 1)
      invariant from <= |run|
      invariant forall i: nat :: from <= i < |run| ==> !Closes(s, settings, run, i)
    {
      from := from - 1;
    }
  }

  lemma {:induction false} CountIsFailures(settings: Settings, run: seq<Action>, from: nat)
    requires Legal(Initial(), settings, run) && SinceClosing(Initial(), settings, run, from)
    ensures After(Initial(), settings, run).breaker.failureCount == Failures(run[from..])
  {
    var n := |run| - 1;
    if from == |run| {
      assert run[from..] == [];
      if from > 0 {
        assert Closes(Initial(), settings, run, n);
      }
    } else {
      var before := run[..n];
      assert !Closes(Initial(), settings, run, n);
      PrefixCloses(settings, run, from);
      CountIsFailures(settings, before, from);
      assert run[from..][..|run[from..]| - 1] == before[from..];
    }
  }

  lemma PrefixCloses(settings: Settings, run: seq<Action>, from: nat)
    requires Legal(Initial(), settings, run) && SinceClosing(Initial(), settings, run, from) && from < |run|
    ensures SinceClosing(Initial(), settings, run[..|run| - 1], from)
  {
    var before := run[..|run| - 1];
    forall i: nat | i < |before|
      ensures Closes(Initial(), settings, before, i) <==> Closes(Initial(), settings, run, i)
    {
      assert before[..i] == run[..i];
    }
  }

  predicate ClosedBelowThreshold(settings: Settings, b: Breaker) {
    b.state.Closed? <==> b.failureCount < settings.threshold
  }

  lemma {:induction false} StateFollowsCount(settings: Settings, run: seq<Action>)
    requires settings.threshold >= 1 && Legal(Initial(), settings, run)
    ensures ClosedBelowThreshold(settings, After(Initial(), settings, run).breaker)
  {
    if run != [] {
      StateFollowsCount(settings, run[..|run| - 1]);
    }
  }

  lemma NoLaterClosing(s: System, settings: Settings, run: seq<Action>, f: nat, g: nat)
    requires Legal(s, settings, run) && SinceClosing(s, settings, run, f) && SinceClosing(s, settings, run, g)
    ensures g <= f
  {
  }

  /**
   After any interleaving of calls the breaker is closed exactly when fewer than `threshold`
   failures, consecutive or not, have been recorded since it last closed from half open.
   */
  lemma ClosedExactly(settings: Settings, run: seq<Action>) returns (from: nat)
    requires settings.threshold >= 1 && Legal(Initial(), settings, run)
    ensures SinceClosing(Initial(), settings, run, from)
    ensures forall f: nat :: SinceClosing(Initial(), settings, run, f) ==> f == from
    ensures After(Initial(), settings, run).breaker.state.Closed? <==> Failures(run[from..]) < settings.threshold
  {
    from := LatestClosing(Initial(), settings, run);
    forall f: nat | SinceClosing(Initial(), settings, run, f) ensures f == from {
      NoLaterClosing(Initial(), settings, run, f, from);
      NoLaterClosing(Initial(), settings, run, from, f);
    }
    CountIsFailures(settings, run, from);
    StateFollowsCount(settings, run);
  }

  /** The threshold has to be positive: otherwise the new breaker itself breaks the rule. */
  lemma ThresholdMustBePositive(settings: Settings)
    ensures (forall run: seq<Action> | Legal(Initial(), settings, run) ::
               ClosedBelowThreshold(settings, After(Initial(), settings, run).breaker))
        <==> settings.threshold >= 1
  {
    if settings.threshold >= 1 {
      forall run: seq<Action> | Legal(Initial(), settings, run)
        ensures ClosedBelowThreshold(settings, After(Initial(), settings, run).breaker)
      {
        StateFollowsCount(settings, run);
      }
    } else {
      assert Legal(Initial(), settings, []);
      assert After(Initial(), settings, []) == Initial();
    }
  }

  /**
   Who is let through, in every reachable state: a call is in flight after its first locked section
   exactly if the breaker was closed or half open, or its latest failure is older than the timeout.
   */
  lemma AdmissionExactly(s: System, settings: Settings, run: seq<Action>, now: int)
    requires Legal(s, settings, run)
    ensures var before := After(s, settings, run); var after := Next(before, settings, Call(now));
      && (after.inFlight == before.inFlight + 1 <==>
            before.breaker.state.Closed?
            || before.breaker.state.HalfOpen?
            || now > before.breaker.lastFailure + settings.timeout)
      && (after.inFlight != before.inFlight + 1 ==> after == before)
  {
  }

  /** So a breaker that has recorded too few failures since it last closed never refuses a call. */
  lemma {:induction false} ClosedAdmitsAll(settings: Settings, run: seq<Action>, from: nat, now: int)
    requires settings.threshold >= 1 && Legal(Initial(), settings, run) && SinceClosing(Initial(), settings, run, from)
    requires Failures(run[from..]) < settings.threshold
    ensures var before := After(Initial(), settings, run);
      Next(before, settings, Call(now)).inFlight == before.inFlight + 1
  {
    CountIsFailures(settings, run, from);
    StateFollowsCount(settings, run);
    AdmissionExactly(Initial(), settings, run, now);
  }

  // ----- Cooling down -----

  ghost predicate Within(run: seq<Action>, from: int, to: int) {
    forall i :: 0 <= i < |run| ==> from <= run[i].now <= to
  }

  /**
   A failure at `t` that leaves the breaker open shuts it until the clock has passed `t + timeout`:
   whatever calls return meanwhile, it stays open and admits nobody.
   */
  lemma {:induction false} OpenAdmitsNobody(s: System, settings: Settings, run: seq<Action>, t: int)
    requires s.breaker.state.Open? && s.breaker.lastFailure >= t
    requires Legal(s, settings, run) && Within(run, t, t + settings.timeout)
    ensures var s' := After(s, settings, run);
      && s'.breaker.state.Open? && s'.breaker.lastFailure >= t && s'.inFlight <= s.inFlight
      && forall now :: now <= t + settings.timeout ==> !Admits(s'.breaker, settings, now)
  {
    if run != [] {
      OpenAdmitsNobody(s, settings, run[..|run| - 1], t);
    }
  }

  /** Action `i` of the run is a failure, and no later clock reads earlier. */
  ghost predicate FailsAt(run: seq<Action>, i: nat) {
    && i < |run| && run[i].Return? && run[i].failed
    && forall j :: i < j < |run| ==> run[i].now <= run[j].now
  }

  lemma {:induction false} LastFailureIsLatest(s: System, settings: Settings, run: seq<Action>, i: nat)
    requires Legal(s, settings, run) && FailsAt(run, i)
    ensures After(s, settings, run).breaker.lastFailure >= run[i].now
  {
    var n := |run| - 1;
    if i < n {
      assert FailsAt(run[..n], i);
      LastFailureIsLatest(s, settings, run[..n], i);
    }
  }

  /**
   In any run, a call that an open breaker admits comes more than the timeout after every failure
   recorded so far, and turns the breaker half open.
   */
  lemma {:induction false} ReopeningWaits(s: System, settings: Settings, run: seq<Action>, i: nat, call: Action)
    requires Legal(s, settings, run) && FailsAt(run, i) && call.Call?
    requires After(s, settings, run).breaker.state.Open?
    requires Admits(After(s, settings, run).breaker, settings, call.now)
    ensures call.now > run[i].now + settings.timeout
    ensures Next(After(s, settings, run), settings, call).breaker.state.HalfOpen?
  {
    LastFailureIsLatest(s, settings, run, i);
  }

  /** A half-open breaker admits every caller; the first outcome of any call in flight decides. */
  lemma FirstOutcomeDecides(s: System, settings: Settings, run: seq<Action>, failed: bool, now: int)
    requires s.breaker.state.HalfOpen? && s.breaker.failureCount + 1 >= settings.threshold
    requires Legal(s, settings, run) && (forall i :: 0 <= i < |run| ==> run[i].Call?) && s.inFlight + |run| > 0
    ensures After(s, settings, run) == System(s.breaker, s.inFlight + |run|)
    ensures Next(After(s, settings, run), settings, Return(failed, now)).breaker.state
         == if failed then Open else Closed
  {
    HalfOpenAdmitsAll(s, settings, run);
  }

  lemma {:induction false} HalfOpenAdmitsAll(s: System, settings: Settings, run: seq<Action>)
    requires s.breaker.state.HalfOpen?
    requires Legal(s, settings, run) && (forall i :: 0 <= i < |run| ==> run[i].Call?)
    ensures After(s, settings, run) == System(s.breaker, s.inFlight + |run|)
  {
    if run != [] {
      HalfOpenAdmitsAll(s, settings, run[..|run| - 1]);
    }
  }
}
