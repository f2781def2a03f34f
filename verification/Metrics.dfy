/**
 The metrics page and the client that reads it back.  The service prints its counters as text; the
 TypeScript client finds each metric with a multi-line regular expression.  Floating-point values
 are modelled as reals; `fl` rounds a decimal literal to the number the client computes with.
 */
module Metrics {
  import opened Common
  import opened LagMaximum
  import opened Text

  datatype Counters = Counters(store: int, retrieve: int, auditWrite: int, auditRead: int, authDenied: int,
                               cacheHit: int, cacheMiss: int, lagNanos: int, lagMaxNanos: int,
                               storeNanos: int, retrieveNanos: int)

  datatype Snapshot = Snapshot(storeCount: int, retrieveCount: int, auditWriteCount: int, auditReadCount: int,
                               authDeniedCount: int, cacheHitCount: int, cacheMissCount: int, cacheHitRate: real,
                               replicationLagAvgMs: real, replicationLagMaxMs: real, storeLatencyAvgMs: real,
                               retrieveLatencyAvgMs: real, totalRequests: int)

  const NANOS_PER_MS := 1_000_000.0

  predicate Exact(fl: real -> real, n: int) {
    fl(n as real) == n as real
  }

  /** Rounding to a double leaves the integers up to 2^53 alone. */
  ghost predicate ExactIntegers(fl: real -> real) {
    forall n: int :: 0 <= n <= 0x20_0000_0000_0000 ==> Exact(fl, n)
  }

  /** Rounding never reverses an order. */
  ghost predicate Monotone(fl: real -> real) {
    forall x, y :: x <= y ==> fl(x) <= fl(y)
  }

  function Quotient(fl: real -> real, a: real, b: real): real {
    if b == 0.0 then 0.0 else fl(a / b)
  }

  function AverageMs(fl: real -> real, nanos: int, count: int): real {
    if count > 0 then fl(Quotient(fl, fl(nanos as real), fl(count as real)) / NANOS_PER_MS) else 0.0
  }

  function Rate(fl: real -> real, hits: int, misses: int): real {
    var total := Wrap(hits + misses);
    if total > 0 then fl(Quotient(fl, fl(hits as real), fl(total as real)) * 100.0) else 0.0
  }

  function MaxMs(fl: real -> real, nanos: int): real {
    fl(fl(nanos as real) / NANOS_PER_MS)
  }

  function SnapshotOf(fl: real -> real, c: Counters): Snapshot {
    Snapshot(c.store, c.retrieve, c.auditWrite, c.auditRead, c.authDenied, c.cacheHit, c.cacheMiss,
             Rate(fl, c.cacheHit, c.cacheMiss), AverageMs(fl, c.lagNanos, c.store), MaxMs(fl, c.lagMaxNanos),
             AverageMs(fl, c.storeNanos, c.store), AverageMs(fl, c.retrieveNanos, c.retrieve),
             Wrap(c.store + c.retrieve))
  }

  // ----- The printed page -----

  /** Thousandths nearest to a non-negative value, ties to even. */
  function Thousandths(x: real): nat
    requires x >= 0.0
  {
    var scaled := x * 1000.0;
    var low := scaled.Floor;
    var rest := scaled - low as real;
    if rest < 0.5 || (rest == 0.5 && low % 2 == 0) then low else low + 1
  }

  function Padded(n: nat): string
    requires n < 1000
  {
    [DigitChar(n / 100), DigitChar(n / 10 % 10), DigitChar(n % 10)]
  }

  /** The %.3f verb. */
  function Fixed3(x: real): string {
    if x < 0.0 then "-" + Millis(Thousandths(-x)) else Millis(Thousandths(x))
  }

  function Millis(m: nat): string {
    Decimal(m / 1000) + "." + Padded(m % 1000)
  }

  datatype Metric = Metric(name: string, help: string, kind: string, value: string)

  function Page(ms: seq<Metric>): string {
    if ms == [] then "" else Lines(ms[0]) + Page(ms[1..])
  }

  function Lines(m: Metric): string {
    HelpLine(m) + "\n" + (TypeLine(m) + "\n" + (SampleLine(m) + "\n"))
  }

  function HelpLine(m: Metric): string {
    "# HELP " + m.name + " " + m.help
  }

  function TypeLine(m: Metric): string {
    "# TYPE " + m.name + " " + m.kind
  }

  function SampleLine(m: Metric): string {
    m.name + " " + m.value
  }

  // ----- The client's regular expression -----

  /** The line terminators that anchors recognise in multi-line mode. */
  predicate Terminates(c: char) {
    c == '\n' || c == '\r' || c == '\U{2028}' || c == '\U{2029}'
  }

  /** The characters of the class \s. */
  predicate IsSpace(c: char) {
    || Terminates(c) || c == ' ' || c == '\t' || c == '\U{000B}' || c == '\U{000C}' || c == '\U{00A0}'
    || c == '\U{1680}' || '\U{2000}' <= c <= '\U{200A}' || c == '\U{202F}' || c == '\U{205F}'
    || c == '\U{3000}' || c == '\U{FEFF}'
  }

  predicate IsNumeric(c: char) {
    IsDigit(c) || c == '.'
  }

  function DropSpaces(s: string): string {
    if s != "" && IsSpace(s[0]) then DropSpaces(s[1..]) else s
  }

  function TakeNumeric(s: string): (taken: string)
    ensures taken <= s
  {
    if s != "" && IsNumeric(s[0]) then [s[0]] + TakeNumeric(s[1..]) else ""
  }

  /** `name\s+([0-9.]+)$` at the start of `s`: no character of one class is in the other, so nothing backtracks. */
  function MatchHere(s: string, name: string): Option<string> {
    if !(name <= s) then None
    else
      var after := s[|name|..];
      var digits := DropSpaces(after);
      var captured := TakeNumeric(digits);
      var rest := digits[|captured|..];
      if digits == after || captured == "" || !(rest == "" || Terminates(rest[0])) then None else Some(captured)
  }

  /** The first match of the whole expression in the rest of a text, `atStart` telling whether a line begins here. */
  function FirstMatch(s: string, atStart: bool, name: string): Option<string>
    decreases |s|
  {
    if atStart && MatchHere(s, name).Some? then MatchHere(s, name)
    else if s == "" then None
    else FirstMatch(s[1..], Terminates(s[0]), name)
  }

  predicate Numeric(s: string) {
    s != "" && forall i :: 0 <= i < |s| ==> IsNumeric(s[i])
  }

  /** A metric name: letters and underscores, and so no space and no comment sign. */
  predicate IsName(name: string) {
    name != "" && forall i :: 0 <= i < |name| ==> 'a' <= name[i] <= 'z' || name[i] == '_'
  }

  predicate OneLine(s: string) {
    forall i :: 0 <= i < |s| ==> !Terminates(s[i])
  }

  /** A value as printed: not empty, beginning with no space, without a line end. */
  predicate IsValue(s: string) {
    s != "" && !IsSpace(s[0]) && OneLine(s)
  }

  predicate WellFormed(m: Metric) {
    IsName(m.name) && OneLine(m.help) && OneLine(m.kind) && IsValue(m.value)
  }

  // ----- Matching line by line -----

  lemma {:induction false} MidLineSkips(line: string, rest: string, name: string)
    requires OneLine(line)
    ensures FirstMatch(line + "\n" + rest, false, name) == FirstMatch(rest, true, name)
  {
    var s := line + "\n" + rest;
    if line == "" {
      assert s[1..] == rest;
    } else {
      assert s[0] == line[0] && s[1..] == line[1..] + "\n" + rest;
      MidLineSkips(line[1..], rest, name);
    }
  }

  lemma UnmatchedLineSkips(line: string, rest: string, name: string)
    requires OneLine(line) && line != "" && MatchHere(line + "\n" + rest, name).None?
    ensures FirstMatch(line + "\n" + rest, true, name) == FirstMatch(rest, true, name)
  {
    var s := line + "\n" + rest;
    assert s[0] == line[0] && s[1..] == line[1..] + "\n" + rest;
    MidLineSkips(line[1..], rest, name);
  }

  lemma {:induction false} TakeNumericLine(value: string, rest: string)
    requires OneLine(value)
    ensures TakeNumeric(value + "\n" + rest) == TakeNumeric(value)
    ensures TakeNumeric(value) == value <==> forall i :: 0 <= i < |value| ==> IsNumeric(value[i])
  {
    var s := value + "\n" + rest;
    if value != "" {
      assert s[0] == value[0] && s[1..] == value[1..] + "\n" + rest;
      TakeNumericLine(value[1..], rest);
      assert value == [value[0]] + value[1..];
    }
  }

  lemma AfterName(m: Metric, rest: string)
    requires WellFormed(m)
    ensures var s, digits := SampleLine(m) + "\n" + rest, m.value + "\n" + rest;
      m.name <= s && s[|m.name|..] == " " + digits && DropSpaces(" " + digits) == digits
  {
    var digits := m.value + "\n" + rest;
    assert SampleLine(m) + "\n" + rest == m.name + (" " + digits);
    assert (" " + digits)[1..] == digits && digits[0] == m.value[0];
  }

  lemma AfterValue(value: string, rest: string)
    requires IsValue(value)
    ensures var digits := value + "\n" + rest; var captured := TakeNumeric(digits);
      && captured <= value && digits[|captured|..] != ""
      && (Numeric(value) ==> captured == value && digits[|captured|..][0] == '\n')
      && (!Numeric(value) ==> !Terminates(digits[|captured|..][0]))
  {
    var digits := value + "\n" + rest;
    TakeNumericLine(value, rest);
    var captured := TakeNumeric(digits);
    assert digits[|captured|] == if |captured| < |value| then value[|captured|] else '\n';
  }

  /** A sample line matches its own name exactly when its value is made of digits and points. */
  lemma SampleMatches(m: Metric, rest: string)
    requires WellFormed(m)
    ensures MatchHere(SampleLine(m) + "\n" + rest, m.name) == if Numeric(m.value) then Some(m.value) else None
  {
    AfterName(m, rest);
    AfterValue(m.value, rest);
  }

  /** It matches no other name. */
  lemma OtherNamesDiffer(m: Metric, rest: string, name: string)
    requires WellFormed(m) && IsName(name) && name != m.name
    ensures MatchHere(SampleLine(m) + "\n" + rest, name).None?
  {
    var s := SampleLine(m) + "\n" + rest;
    assert s == m.name + (" " + m.value + "\n" + rest);
    assert s[|m.name|] == ' ';
    if name <= s && |name| < |m.name| {
      assert s[|name|..][0] == m.name[|name|];
    }
  }

  lemma CommentsNeverMatch(line: string, rest: string, name: string)
    requires line != "" && line[0] == '#' && IsName(name)
    ensures MatchHere(line + "\n" + rest, name).None?
  {
    var s := line + "\n" + rest;
    assert s[0] == '#';
  }

  lemma NameIsOneLine(name: string)
    requires IsName(name)
    ensures OneLine(name)
  {
  }

  lemma LinesMatch(m: Metric, rest: string, name: string)
    requires WellFormed(m) && IsName(name)
    ensures FirstMatch(Lines(m) + rest, true, name)
         == if name == m.name && Numeric(m.value) then Some(m.value) else FirstMatch(rest, true, name)
  {
    NameIsOneLine(m.name);
    var sample := SampleLine(m) + "\n" + rest;
    var typed := TypeLine(m) + "\n" + sample;
    assert Lines(m) + rest == HelpLine(m) + "\n" + typed;
    CommentsNeverMatch(HelpLine(m), typed, name);
    UnmatchedLineSkips(HelpLine(m), typed, name);
    CommentsNeverMatch(TypeLine(m), sample, name);
    UnmatchedLineSkips(TypeLine(m), sample, name);
    if name == m.name {
      SampleMatches(m, rest);
    } else {
      OtherNamesDiffer(m, rest, name);
    }
    if !(name == m.name && Numeric(m.value)) {
      UnmatchedLineSkips(SampleLine(m), rest, name);
    }
  }

  /** On a page of distinct metrics each name finds its own value, and a value with a sign finds nothing. */
  lemma {:induction false} PageLookup(ms: seq<Metric>, i: nat)
    requires i < |ms| && (forall m :: m in ms ==> WellFormed(m))
    requires forall j, k :: 0 <= j < k < |ms| ==> ms[j].name != ms[k].name
    ensures FirstMatch(Page(ms), true, ms[i].name) == if Numeric(ms[i].value) then Some(ms[i].value) else None
  {
    assert ms[i] in ms && ms[0] in ms;
    LinesMatch(ms[0], Page(ms[1..]), ms[i].name);
    if i > 0 {
      PageLookup(ms[1..], i - 1);
    } else if !Numeric(ms[0].value) {
      NameAbsent(ms[1..], ms[0].name);
    }
  }

  lemma {:induction false} NameAbsent(ms: seq<Metric>, name: string)
    requires IsName(name) && (forall m :: m in ms ==> WellFormed(m) && m.name != name)
    ensures FirstMatch(Page(ms), true, name).None?
  {
    if ms != [] {
      LinesMatch(ms[0], Page(ms[1..]), name);
      NameAbsent(ms[1..], name);
    } else {
      assert MatchHere("", name).None?;
    }
  }

  // ----- The page of the service -----

  datatype Label = Label(name: string, help: string)

  function Labels(): seq<Label> {
    [ Label("memos_store_requests_total", "Total Store requests"),
      Label("memos_retrieve_requests_total", "Total Retrieve requests"),
      Label("memos_audit_writes_total", "Total audit log writes"),
      Label("memos_audit_reads_total", "Total audit log reads"),
      Label("memos_auth_denied_total", "Total denied authorization checks"),
      Label("memos_cache_hits_total", "Total cache hits"),
      Label("memos_cache_misses_total", "Total cache misses"),
      Label("memos_replication_lag_ms_avg", "Average replication lag in milliseconds"),
      Label("memos_replication_lag_ms_max", "Maximum replication lag in milliseconds"),
      Label("memos_store_latency_ms_avg", "Average Store latency in milliseconds"),
      Label("memos_retrieve_latency_ms_avg", "Average Retrieve latency in milliseconds") ]
  }

  /** The values that the page prints with the %d verb, in its order. */
  function Counts(s: Snapshot): seq<int> {
    [ s.storeCount, s.retrieveCount, s.auditWriteCount, s.auditReadCount, s.authDeniedCount,
      s.cacheHitCount, s.cacheMissCount ]
  }

  /** And those that it prints with the %.3f verb. */
  function Gauges(s: Snapshot): seq<real> {
    [ s.replicationLagAvgMs, s.replicationLagMaxMs, s.storeLatencyAvgMs, s.retrieveLatencyAvgMs ]
  }

  function MetricAt(tag: Label, s: Snapshot, i: nat): Metric
    requires i < 11
  {
    if i < 7 then Metric(tag.name, tag.help, "counter", DecimalInt(Counts(s)[i]))
    else Metric(tag.name, tag.help, "gauge", Fixed3(Gauges(s)[i - 7]))
  }

  function PageWith(labels: seq<Label>, s: Snapshot): (ms: seq<Metric>)
    requires |labels| == 11
    ensures |ms| == 11 && forall i :: 0 <= i < 11 ==> ms[i] == MetricAt(labels[i], s, i)
  {
    seq(11, i requires 0 <= i < 11 => MetricAt(labels[i], s, i))
  }

  function PageOf(s: Snapshot): seq<Metric> {
    PageWith(Labels(), s)
  }

  ghost predicate GoodLabels(labels: seq<Label>) {
    && |labels| == 11
    && (forall i :: 0 <= i < 11 ==> IsName(labels[i].name) && OneLine(labels[i].help))
    && (forall i, j :: 0 <= i < j < 11 ==> labels[i].name != labels[j].name)
  }

  // Scanning a literal is costly, so the labels are scanned a few at a time.

  lemma NameLiterals1()
    ensures IsName("memos_store_requests_total")
    ensures IsName("memos_retrieve_requests_total")
    ensures IsName("memos_audit_writes_total")
    ensures IsName("memos_audit_reads_total")
  {
  }

  lemma NameLiterals2()
    ensures IsName("memos_auth_denied_total")
    ensures IsName("memos_cache_hits_total")
    ensures IsName("memos_cache_misses_total")
    ensures IsName("memos_replication_lag_ms_avg")
  {
  }

  lemma NameLiterals3()
    ensures IsName("memos_replication_lag_ms_max")
    ensures IsName("memos_store_latency_ms_avg")
    ensures IsName("memos_retrieve_latency_ms_avg")
  {
  }

  lemma HelpLiterals1()
    ensures OneLine("Total Store requests")
    ensures OneLine("Total Retrieve requests")
  {
  }

  lemma HelpLiterals2()
    ensures OneLine("Total audit log writes")
    ensures OneLine("Total audit log reads")
  {
  }

  lemma HelpLiterals3()
    ensures OneLine("Total denied authorization checks")
    ensures OneLine("Total cache hits")
  {
  }

  lemma HelpLiterals4()
    ensures OneLine("Total cache misses")
    ensures OneLine("Average replication lag in milliseconds")
  {
  }

  lemma HelpLiterals5()
    ensures OneLine("Maximum replication lag in milliseconds")
    ensures OneLine("Average Store latency in milliseconds")
  {
  }

  lemma HelpLiterals6()
    ensures OneLine("Average Retrieve latency in milliseconds")
  {
  }

  lemma NamesAreNames()
    ensures forall i :: 0 <= i < |Labels()| ==> IsName(Labels()[i].name)
  {
    NameLiterals1();
    NameLiterals2();
    NameLiterals3();
  }

  lemma HelpsAreOneLine()
    ensures forall i :: 0 <= i < |Labels()| ==> OneLine(Labels()[i].help)
  {
    HelpLiterals1();
    HelpLiterals2();
    HelpLiterals3();
    HelpLiterals4();
    HelpLiterals5();
    HelpLiterals6();
  }

  lemma NamesDiffer()
    ensures forall i, j :: 0 <= i < j < |Labels()| ==> Labels()[i].name != Labels()[j].name
  {
  }

  lemma LabelsAreGood()
    ensures GoodLabels(Labels())
  {
    NamesAreNames();
    HelpsAreOneLine();
    NamesDiffer();
  }

  lemma DigitsAreValues(s: string)
    requires AllDigits(s) && s != ""
    ensures IsValue(s) && Numeric(s)
  {
  }

  lemma IntegersAreValues(i: int)
    ensures IsValue(DecimalInt(i))
    ensures Numeric(DecimalInt(i)) <==> i >= 0
  {
    var digits := Decimal(if i < 0 then -i else i);
    NatValueOfDecimal(if i < 0 then -i else i);
    DigitsAreValues(digits);
    if i < 0 {
      assert DecimalInt(i)[0] == '-' && DecimalInt(i) == ['-'] + digits;
      assert forall k :: 1 <= k < |DecimalInt(i)| ==> DecimalInt(i)[k] == digits[k - 1];
    }
  }

  lemma NatValueAppend(s: string, c: char)
    requires AllDigits(s) && IsDigit(c)
    ensures AllDigits(s + [c]) && NatValue(s + [c]) == 10 * NatValue(s) + DigitValue(c)
  {
    assert (s + [c])[..|s|] == s;
  }

  lemma DigitReads(d: nat)
    requires d < 10
    ensures IsDigit(DigitChar(d)) && DigitValue(DigitChar(d)) == d
  {
  }

  lemma PaddedDigits(n: nat)
    requires n < 1000
    ensures AllDigits(Padded(n)) && NatValue(Padded(n)) == n
  {
    var a, b, c := n / 100, n / 10 % 10, n % 10;
    DigitReads(a);
    DigitReads(b);
    DigitReads(c);
    NatValueAppend([], DigitChar(a));
    NatValueAppend([] + [DigitChar(a)], DigitChar(b));
    NatValueAppend([] + [DigitChar(a)] + [DigitChar(b)], DigitChar(c));
    assert Padded(n) == [] + [DigitChar(a)] + [DigitChar(b)] + [DigitChar(c)];
    assert n == 100 * a + 10 * b + c;
  }

  lemma MillisAreValues(m: nat)
    ensures IsValue(Millis(m)) && Numeric(Millis(m))
  {
    NatValueOfDecimal(m / 1000);
    PaddedDigits(m % 1000);
    DigitsAreValues(Decimal(m / 1000));
    var head := Decimal(m / 1000) + ".";
    assert forall k :: 0 <= k < |Millis(m)| ==>
      Millis(m)[k] == if k < |head| then head[k] else Padded(m % 1000)[k - |head|];
  }

  lemma GaugesAreValues(x: real)
    ensures IsValue(Fixed3(x))
    ensures Numeric(Fixed3(x)) <==> x >= 0.0
  {
    var m := Thousandths(if x < 0.0 then -x else x);
    MillisAreValues(m);
    if x < 0.0 {
      assert Fixed3(x)[0] == '-' && Fixed3(x) == ['-'] + Millis(m);
      assert forall k :: 1 <= k < |Fixed3(x)| ==> Fixed3(x)[k] == Millis(m)[k - 1];
    }
  }

  lemma MetricIsWellFormed(tag: Label, s: Snapshot, i: nat)
    requires i < 11 && IsName(tag.name) && OneLine(tag.help)
    ensures WellFormed(MetricAt(tag, s, i))
  {
    if i < 7 {
      IntegersAreValues(Counts(s)[i]);
      assert OneLine("counter");
    } else {
      GaugesAreValues(Gauges(s)[i - 7]);
      assert OneLine("gauge");
    }
  }

  // ----- What the client reads -----

  /** A JavaScript number. */
  datatype Number = NaN | Finite(value: real)

  function PointAt(s: string): (p: nat)
    ensures p <= |s| && (forall i :: 0 <= i < p ==> s[i] != '.') && (p < |s| ==> s[p] == '.')
  {
    if s == "" || s[0] == '.' then 0 else 1 + PointAt(s[1..])
  }

  /** A decimal with a whole part, and a fraction over a power of ten. */
  function Fixed(whole: nat, fraction: nat, scale: nat): real
    requires scale > 0
  {
    whole as real + fraction as real / scale as real
  }

  /** The conversion of a string of digits and points; a second point makes it not a number. */
  function NumberOf(fl: real -> real, s: string): Number {
    var p := PointAt(s);
    var whole, fraction := s[..p], if p < |s| then s[p + 1..] else "";
    if AllDigits(whole) && AllDigits(fraction) && (whole != "" || fraction != "") then
      Pow10Positive(|fraction|);
      Finite(fl(Fixed(NatValue(whole), NatValue(fraction), Pow10(|fraction|))))
    else NaN
  }

  lemma {:induction false} Pow10Positive(k: nat)
    ensures Pow10(k) > 0
  {
    if k > 0 {
      Pow10Positive(k - 1);
    }
  }

  function GetMetric(fl: real -> real, text: string, name: string): Number {
    match FirstMatch(text, true, name)
    case None => Finite(0.0)
    case Some(captured) => NumberOf(fl, captured)
  }

  function Add(fl: real -> real, a: Number, b: Number): Number {
    if a.Finite? && b.Finite? then Finite(fl(a.value + b.value)) else NaN
  }

  function Percentage(fl: real -> real, part: Number, total: Number): Number {
    if total.Finite? && total.value > 0.0 then
      if part.Finite? then Finite(fl(fl(part.value / total.value) * 100.0)) else NaN
    else Finite(0.0)
  }

  datatype ClientSnapshot = ClientSnapshot(
    storeCount: Number, retrieveCount: Number, auditWriteCount: Number, auditReadCount: Number, authDeniedCount: Number,
    cacheHitCount: Number, cacheMissCount: Number, cacheHitRate: Number, replicationLagAvgMs: Number,
    replicationLagMaxMs: Number, storeLatencyAvgMs: Number, retrieveLatencyAvgMs: Number, totalRequests: Number)

  /** The client's snapshot, from what it finds under each name. */
  function Assemble(fl: real -> real, getMetric: string -> Number): ClientSnapshot {
    var storeCount := getMetric("memos_store_requests_total");
    var retrieveCount := getMetric("memos_retrieve_requests_total");
    var cacheHitCount := getMetric("memos_cache_hits_total");
    var cacheMissCount := getMetric("memos_cache_misses_total");
    var totalCache := Add(fl, cacheHitCount, cacheMissCount);
    ClientSnapshot(
      storeCount, retrieveCount, getMetric("memos_audit_writes_total"), getMetric("memos_audit_reads_total"),
      getMetric("memos_auth_denied_total"), cacheHitCount, cacheMissCount,
      Percentage(fl, cacheHitCount, totalCache), getMetric("memos_replication_lag_ms_avg"),
      getMetric("memos_replication_lag_ms_max"), getMetric("memos_store_latency_ms_avg"),
      getMetric("memos_retrieve_latency_ms_avg"), Add(fl, storeCount, retrieveCount))
  }

  function ParsePrometheusTelemetry(fl: real -> real, text: string): ClientSnapshot {
    Assemble(fl, name => GetMetric(fl, text, name))
  }

  lemma {:induction false} NoPoint(s: string)
    requires AllDigits(s)
    ensures PointAt(s) == |s|
  {
    if s != "" {
      NoPoint(s[1..]);
    }
  }

  lemma {:induction false} FirstPoint(s: string, t: string)
    requires AllDigits(s)
    ensures PointAt(s + "." + t) == |s|
  {
    if s != "" {
      FirstPoint(s[1..], t);
      assert (s + "." + t)[1..] == s[1..] + "." + t;
    }
  }

  lemma FixedWhole(n: nat)
    ensures Fixed(n, 0, 1) == n as real
  {
  }

  lemma NumberOfDecimal(fl: real -> real, n: nat)
    ensures NumberOf(fl, Decimal(n)) == Finite(fl(n as real))
  {
    var s := Decimal(n);
    NatValueOfDecimal(n);
    NoPoint(s);
    assert s[..|s|] == s;
    assert NatValue("") == 0 && Pow10(0) == 1;
    FixedWhole(n);
  }

  lemma SplitAtPoint(whole: string, fraction: string)
    requires AllDigits(whole)
    ensures var s := whole + "." + fraction;
      PointAt(s) == |whole| < |s| && s[..|whole|] == whole && s[|whole| + 1..] == fraction
  {
    FirstPoint(whole, fraction);
  }

  lemma NumberOfPoint(fl: real -> real, whole: string, fraction: string)
    requires AllDigits(whole) && AllDigits(fraction) && whole != "" && |fraction| == 3
    ensures NumberOf(fl, whole + "." + fraction) == Finite(fl(Fixed(NatValue(whole), NatValue(fraction), 1000)))
  {
    SplitAtPoint(whole, fraction);
    assert Pow10(3) == 1000;
  }

  lemma MillisSplit(m: nat)
    ensures Fixed(m / 1000, m % 1000, 1000) == m as real / 1000.0
  {
    assert m == m / 1000 * 1000 + m % 1000;
  }

  lemma NumberOfMillis(fl: real -> real, m: nat)
    ensures NumberOf(fl, Millis(m)) == Finite(fl(m as real / 1000.0))
  {
    NatValueOfDecimal(m / 1000);
    PaddedDigits(m % 1000);
    NumberOfPoint(fl, Decimal(m / 1000), Padded(m % 1000));
    MillisSplit(m);
  }

  /** A page that a lookup by name can be trusted on. */
  ghost predicate Readable(ms: seq<Metric>) {
    (forall m :: m in ms ==> WellFormed(m)) && forall j, k :: 0 <= j < k < |ms| ==> ms[j].name != ms[k].name
  }

  lemma PageIsReadable(labels: seq<Label>, s: Snapshot)
    requires GoodLabels(labels)
    ensures Readable(PageWith(labels, s))
  {
    forall i | 0 <= i < 11 ensures WellFormed(PageWith(labels, s)[i]) {
      MetricIsWellFormed(labels[i], s, i);
    }
  }

  lemma MetricIsRead(fl: real -> real, ms: seq<Metric>, i: nat)
    requires Readable(ms) && i < |ms|
    ensures GetMetric(fl, Page(ms), ms[i].name)
         == if Numeric(ms[i].value) then NumberOf(fl, ms[i].value) else Finite(0.0)
  {
    PageLookup(ms, i);
  }

  /** What the client shows for a counter: its value, or 0 when the counter has wrapped below zero. */
  function Shown(fl: real -> real, value: int): Number {
    Finite(if value >= 0 then fl(value as real) else 0.0)
  }

  /** What the client shows for a gauge: its value to three decimals, or 0 when it is negative. */
  function ShownGauge(fl: real -> real, x: real): Number {
    Finite(if x >= 0.0 then fl(Thousandths(x) as real / 1000.0) else 0.0)
  }

  lemma CounterText(fl: real -> real, value: int)
    ensures (if Numeric(DecimalInt(value)) then NumberOf(fl, DecimalInt(value)) else Finite(0.0)) == Shown(fl, value)
  {
    IntegersAreValues(value);
    if value >= 0 {
      NumberOfDecimal(fl, value);
    }
  }

  lemma GaugeText(fl: real -> real, x: real)
    ensures (if Numeric(Fixed3(x)) then NumberOf(fl, Fixed3(x)) else Finite(0.0)) == ShownGauge(fl, x)
  {
    GaugesAreValues(x);
    if x >= 0.0 {
      NumberOfMillis(fl, Thousandths(x));
    }
  }

  /** What the client shows for the metric at position `i` of the page. */
  function ShownAt(fl: real -> real, s: Snapshot, i: nat): Number
    requires i < 11
  {
    if i < 7 then Shown(fl, Counts(s)[i]) else ShownGauge(fl, Gauges(s)[i - 7])
  }

  lemma PositionIsRead(fl: real -> real, labels: seq<Label>, s: Snapshot, i: nat)
    requires GoodLabels(labels) && i < 11
    ensures GetMetric(fl, Page(PageWith(labels, s)), labels[i].name) == ShownAt(fl, s, i)
  {
    PageIsReadable(labels, s);
    MetricIsRead(fl, PageWith(labels, s), i);
    if i < 7 {
      CounterText(fl, Counts(s)[i]);
    } else {
      GaugeText(fl, Gauges(s)[i - 7]);
    }
  }

  /** The names that the client asks for are those of the page. */
  lemma ClientAsksForLabels()
    ensures |Labels()| == 11
    ensures Labels()[0].name == "memos_store_requests_total"
    ensures Labels()[1].name == "memos_retrieve_requests_total"
    ensures Labels()[2].name == "memos_audit_writes_total"
    ensures Labels()[3].name == "memos_audit_reads_total"
    ensures Labels()[4].name == "memos_auth_denied_total"
    ensures Labels()[5].name == "memos_cache_hits_total"
    ensures Labels()[6].name == "memos_cache_misses_total"
    ensures Labels()[7].name == "memos_replication_lag_ms_avg"
    ensures Labels()[8].name == "memos_replication_lag_ms_max"
    ensures Labels()[9].name == "memos_store_latency_ms_avg"
    ensures Labels()[10].name == "memos_retrieve_latency_ms_avg"
  {
  }

  /** What the client makes of the counters, whatever their values. */
  ghost predicate ReadsCounters(fl: real -> real, r: ClientSnapshot, s: Snapshot) {
    && r.storeCount == Shown(fl, s.storeCount) && r.retrieveCount == Shown(fl, s.retrieveCount)
    && r.auditWriteCount == Shown(fl, s.auditWriteCount) && r.auditReadCount == Shown(fl, s.auditReadCount)
    && r.authDeniedCount == Shown(fl, s.authDeniedCount)
    && r.cacheHitCount == Shown(fl, s.cacheHitCount) && r.cacheMissCount == Shown(fl, s.cacheMissCount)
    && r.cacheHitRate == Percentage(fl, r.cacheHitCount, Add(fl, r.cacheHitCount, r.cacheMissCount))
    && r.totalRequests == Add(fl, r.storeCount, r.retrieveCount)
  }

  lemma CountersAreRead(fl: real -> real, s: Snapshot)
    ensures ReadsCounters(fl, ParsePrometheusTelemetry(fl, Page(PageOf(s))), s)
  {
    LabelsAreGood();
    ClientAsksForLabels();
    forall i: nat | i < 7 ensures GetMetric(fl, Page(PageOf(s)), Labels()[i].name) == Shown(fl, Counts(s)[i]) {
      PositionIsRead(fl, Labels(), s, i);
    }
  }

  /** The client's gauges are the service's to three decimals, and 0 for the negative ones. */
  lemma GaugesAreRead(fl: real -> real, s: Snapshot)
    ensures var r := ParsePrometheusTelemetry(fl, Page(PageOf(s)));
      && r.replicationLagAvgMs == ShownGauge(fl, s.replicationLagAvgMs)
      && r.replicationLagMaxMs == ShownGauge(fl, s.replicationLagMaxMs)
      && r.storeLatencyAvgMs == ShownGauge(fl, s.storeLatencyAvgMs)
      && r.retrieveLatencyAvgMs == ShownGauge(fl, s.retrieveLatencyAvgMs)
  {
    LabelsAreGood();
    ClientAsksForLabels();
    forall i: nat | i < 4 ensures GetMetric(fl, Page(PageOf(s)), Labels()[i + 7].name) == ShownGauge(fl, Gauges(s)[i]) {
      PositionIsRead(fl, Labels(), s, i + 7);
    }
  }

  function Unrounded(): real -> real {
    x => x
  }

  /**
   What the averages are, rounding aside: nanoseconds over a count over a million.  The replication lag
   too is divided by the number of stores, not of replications.
   */
  lemma AveragesAreMeans(c: Counters)
    ensures var s := SnapshotOf(Unrounded(), c);
      && (if c.store > 0 then s.storeLatencyAvgMs * 1_000_000.0 * c.store as real == c.storeNanos as real
          else s.storeLatencyAvgMs == 0.0)
      && (if c.retrieve > 0 then s.retrieveLatencyAvgMs * 1_000_000.0 * c.retrieve as real == c.retrieveNanos as real
          else s.retrieveLatencyAvgMs == 0.0)
      && (if c.store > 0 then s.replicationLagAvgMs * 1_000_000.0 * c.store as real == c.lagNanos as real
          else s.replicationLagAvgMs == 0.0)
      && s.replicationLagMaxMs * 1_000_000.0 == c.lagMaxNanos as real
  {
    AverageIsMean(c.storeNanos, c.store);
    AverageIsMean(c.retrieveNanos, c.retrieve);
    AverageIsMean(c.lagNanos, c.store);
  }

  lemma AverageIsMean(nanos: int, count: int)
    ensures if count > 0 then AverageMs(Unrounded(), nanos, count) * 1_000_000.0 * count as real == nanos as real
            else AverageMs(Unrounded(), nanos, count) == 0.0
  {
    if count > 0 {
      var mean := nanos as real / count as real;
      assert AverageMs(Unrounded(), nanos, count) == mean / NANOS_PER_MS;
      assert mean / NANOS_PER_MS * 1_000_000.0 == mean;
      assert mean * count as real == nanos as real;
    }
  }

  /** The hit rate is the share of hits in hundredths, and 0 when nothing was looked up. */
  lemma RateIsShare(c: Counters)
    requires c.cacheHit >= 0 && c.cacheMiss >= 0 && c.cacheHit + c.cacheMiss < 0x8000_0000_0000_0000
    ensures var rate := SnapshotOf(Unrounded(), c).cacheHitRate;
      && rate * (c.cacheHit + c.cacheMiss) as real == 100.0 * c.cacheHit as real
      && (c.cacheHit + c.cacheMiss == 0 ==> rate == 0.0)
  {
    var total := c.cacheHit + c.cacheMiss;
    assert Wrap(total) == total;
    if total > 0 {
      var share := c.cacheHit as real / total as real;
      assert share * 100.0 * total as real == share * total as real * 100.0;
    }
  }

  lemma ThousandthsAreNear(x: real)
    requires x >= 0.0
    ensures -0.0005 <= Thousandths(x) as real / 1000.0 - x <= 0.0005
  {
  }

  const DOUBLE_INTEGERS := 0x20_0000_0000_0000

  /** The range in which a double can hold any integer. */
  predicate InRange(n: int) {
    0 <= n < DOUBLE_INTEGERS
  }

  predicate CountersInRange(c: Counters) {
    && InRange(c.store) && InRange(c.retrieve) && InRange(c.auditWrite) && InRange(c.auditRead)
    && InRange(c.authDenied) && InRange(c.cacheHit) && InRange(c.cacheMiss)
  }

  lemma ShownExactly(fl: real -> real, n: int)
    requires ExactIntegers(fl) && InRange(n)
    ensures Shown(fl, n) == Finite(n as real)
  {
    assert Exact(fl, n);
  }

  /** Two counters in range add up without wrapping; only the sum may have to be rounded. */
  lemma SumsRounded(fl: real -> real, a: int, b: int)
    requires ExactIntegers(fl) && InRange(a) && InRange(b)
    ensures Add(fl, Shown(fl, a), Shown(fl, b)) == Finite(fl((a + b) as real))
    ensures Wrap(a + b) == a + b
  {
    ShownExactly(fl, a);
    ShownExactly(fl, b);
    assert a as real + b as real == (a + b) as real;
  }

  lemma PositiveStaysPositive(fl: real -> real, n: int)
    requires ExactIntegers(fl) && Monotone(fl) && n > 0
    ensures fl(n as real) > 0.0
  {
    assert Exact(fl, 1) && fl(1.0) <= fl(n as real);
  }

  lemma RatesAgree(fl: real -> real, hits: int, misses: int)
    requires ExactIntegers(fl) && Monotone(fl) && InRange(hits) && InRange(misses)
    ensures Percentage(fl, Shown(fl, hits), Add(fl, Shown(fl, hits), Shown(fl, misses)))
         == Finite(Rate(fl, hits, misses))
  {
    ShownExactly(fl, hits);
    SumsRounded(fl, hits, misses);
    assert Exact(fl, hits);
    if hits + misses > 0 {
      PositiveStaysPositive(fl, hits + misses);
    } else {
      assert Exact(fl, 0);
    }
  }

  /**
   The round trip: the client's snapshot of the page holds every counter of the service's own
   snapshot exactly, and derives the same hit rate and the same total, the total as a double.
   */
  lemma ClientSeesSnapshot(fl: real -> real, c: Counters)
    requires ExactIntegers(fl) && Monotone(fl) && CountersInRange(c)
    ensures SeesCounters(fl, ParsePrometheusTelemetry(fl, Page(PageOf(SnapshotOf(fl, c)))), SnapshotOf(fl, c))
  {
    var s := SnapshotOf(fl, c);
    SnapshotHolds(fl, c);
    CountersAreRead(fl, s);
    CountersSeen(fl, c, s, ParsePrometheusTelemetry(fl, Page(PageOf(s))));
  }

  /** What a snapshot says about the counters. */
  ghost predicate HoldsCounters(fl: real -> real, c: Counters, s: Snapshot) {
    && s.storeCount == c.store && s.retrieveCount == c.retrieve && s.auditWriteCount == c.auditWrite
    && s.auditReadCount == c.auditRead && s.authDeniedCount == c.authDenied
    && s.cacheHitCount == c.cacheHit && s.cacheMissCount == c.cacheMiss
    && s.cacheHitRate == Rate(fl, c.cacheHit, c.cacheMiss) && s.totalRequests == Wrap(c.store + c.retrieve)
  }

  lemma SnapshotHolds(fl: real -> real, c: Counters)
    ensures HoldsCounters(fl, c, SnapshotOf(fl, c))
  {
  }

  lemma CountersSeen(fl: real -> real, c: Counters, s: Snapshot, r: ClientSnapshot)
    requires ExactIntegers(fl) && Monotone(fl) && CountersInRange(c) && ReadsCounters(fl, r, s)
    requires HoldsCounters(fl, c, s)
    ensures SeesCounters(fl, r, s)
  {
    SumsRounded(fl, c.store, c.retrieve);
    RatesAgree(fl, c.cacheHit, c.cacheMiss);
    ShownExactly(fl, s.storeCount);
    ShownExactly(fl, s.retrieveCount);
    ShownExactly(fl, s.auditWriteCount);
    ShownExactly(fl, s.auditReadCount);
    ShownExactly(fl, s.authDeniedCount);
    ShownExactly(fl, s.cacheHitCount);
    ShownExactly(fl, s.cacheMissCount);
  }

  ghost predicate SeesCounters(fl: real -> real, r: ClientSnapshot, s: Snapshot) {
    && r.storeCount == Finite(s.storeCount as real) && r.retrieveCount == Finite(s.retrieveCount as real)
    && r.auditWriteCount == Finite(s.auditWriteCount as real) && r.auditReadCount == Finite(s.auditReadCount as real)
    && r.authDeniedCount == Finite(s.authDeniedCount as real)
    && r.cacheHitCount == Finite(s.cacheHitCount as real) && r.cacheMissCount == Finite(s.cacheMissCount as real)
    && r.totalRequests == Finite(fl(s.totalRequests as real)) && r.cacheHitRate == Finite(s.cacheHitRate)
  }

  // ----- Writing the page -----

  method WritePage(ms: seq<Metric>) returns (text: string)
    ensures text == Page(ms)
  {
    text := "";
    for k := 0 to |ms|
      invariant text == Page(ms[..k])
    {
      PageAppend(ms[..k], ms[k]);
      assert ms[..k + 1] == ms[..k] + [ms[k]];
      text := WriteMetric(text, ms[k]);
    }
    assert ms[..|ms|] == ms;
  }

  /** The three formatted writes of one metric. */
  method WriteMetric(text: string, m: Metric) returns (longer: string)
    ensures longer == text + Lines(m)
  {
    var help, kind, sample := HelpLine(m) + "\n", TypeLine(m) + "\n", SampleLine(m) + "\n";
    longer := text + help;
    longer := longer + kind;
    longer := longer + sample;
    ConcatThree(text, help, kind, sample);
  }

  lemma ConcatThree(s: string, a: string, b: string, c: string)
    ensures s + a + b + c == s + (a + (b + c))
  {
  }

  lemma {:induction false} PageAppend(ms: seq<Metric>, m: Metric)
    ensures Page(ms + [m]) == Page(ms) + Lines(m)
  {
    if ms == [] {
      OnePage(m);
      assert ms + [m] == [m];
    } else {
      PageAppend(ms[1..], m);
      assert (ms + [m])[1..] == ms[1..] + [m];
      ConcatTwo(Lines(ms[0]), Page(ms[1..]), Lines(m));
    }
  }

  lemma OnePage(m: Metric)
    ensures Page([m]) == Lines(m)
  {
    var lines := Lines(m);
    assert [m][1..] == [] && lines + "" == lines;
  }

  lemma ConcatTwo(a: string, b: string, c: string)
    ensures a + b + c == a + (b + c)
  {
  }
}
