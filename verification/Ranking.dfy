/** The ranking formula: a mean of four scores with normalised weights.  Floats are reals. */
module Ranking {

  datatype Weights = Weights(alpha: real, beta: real, gamma: real, delta: real)

  const DEFAULT_WEIGHTS := Weights(0.4, 0.3, 0.2, 0.1)

  datatype MemoryScore = MemoryScore(finalScore: real, semanticScore: real, temporalScore: real,
                                     importanceScore: real, reinforcementScore: real)

  /** The transcendental functions, of which only signs and ranges matter. */
  datatype Functions = Functions(exp: real -> real, tanh: real -> real)

  ghost predicate Sound(f: Functions) {
    (forall x :: f.exp(x) > 0.0) && (forall x :: x >= 0.0 ==> 0.0 <= f.tanh(x) < 1.0)
  }

  function Min(a: real, b: real): real {
    if a <= b then a else b
  }

  function Max(a: real, b: real): real {
    if a <= b then b else a
  }

  function Total(w: Weights): real {
    w.alpha + w.beta + w.gamma + w.delta
  }

  function WeightedMean(w: Weights, s: real, t: real, i: real, r: real): real
    requires Total(w) != 0.0
  {
    var total := Total(w);
    w.alpha / total * s + w.beta / total * t + w.gamma / total * i + w.delta / total * r
  }

  function Exponent(rate: real, ageDays: real): real {
    -rate * ageDays
  }

  /** Recall falls off exponentially from the importance, and is cut off at 1. */
  function Retention(f: Functions, importance: real, exponent: real): real {
    Min(1.0, importance * f.exp(exponent))
  }

  function ComputeRank(f: Functions, semantic: real, importance: real, reinforcement: real, decayFactor: real,
                       ageDays: real, w: Weights): MemoryScore
    requires Total(w) != 0.0
  {
    var s := Min(1.0, Max(0.0, semantic));
    var lambda := Max(0.01, decayFactor);
    var t := Retention(f, importance, Exponent(lambda, ageDays));
    var i := Min(1.0, Max(0.0, importance));
    var r := f.tanh(reinforcement / 10.0);
    MemoryScore(WeightedMean(w, s, t, i, r), s, t, i, r)
  }

  /** A request overrides a weight only with a positive one; reinforcement cannot be overridden. */
  function Overridden(alpha: real, beta: real, gamma: real): Weights {
    Weights(if alpha > 0.0 then alpha else DEFAULT_WEIGHTS.alpha,
            if beta > 0.0 then beta else DEFAULT_WEIGHTS.beta,
            if gamma > 0.0 then gamma else DEFAULT_WEIGHTS.gamma,
            DEFAULT_WEIGHTS.delta)
  }

  ghost predicate Positive(w: Weights) {
    w.alpha > 0.0 && w.beta > 0.0 && w.gamma > 0.0 && w.delta > 0.0
  }

  lemma OverriddenIsPositive(alpha: real, beta: real, gamma: real)
    ensures Positive(Overridden(alpha, beta, gamma)) && Total(Overridden(alpha, beta, gamma)) > 0.0
  {
  }

  lemma TwoAtLeast(a: real, b: real, x: real, y: real, low: real, m: real)
    requires a >= 0.0 && b >= 0.0 && low <= x && low <= y && m == a + b
    ensures m * low <= a * x + b * y
  {
    assert m * low == a * low + b * low;
    assert a * low <= a * x;
    assert b * low <= b * y;
  }

  lemma TwoAtMost(a: real, b: real, x: real, y: real, high: real, m: real)
    requires a >= 0.0 && b >= 0.0 && x <= high && y <= high && m == a + b
    ensures a * x + b * y <= m * high
  {
    assert m * high == a * high + b * high;
    assert a * x <= a * high;
    assert b * y <= b * high;
  }

  lemma MeanAtLeast(a: real, b: real, c: real, d: real, s: real, t: real, i: real, r: real, low: real)
    requires a >= 0.0 && b >= 0.0 && c >= 0.0 && d >= 0.0 && a + b + c + d == 1.0
    requires low <= s && low <= t && low <= i && low <= r
    ensures low <= a * s + b * t + c * i + d * r
  {
    var m, n := a + b, c + d;
    TwoAtLeast(a, b, s, t, low, m);
    TwoAtLeast(c, d, i, r, low, n);
    assert m * low + n * low == low by { assert (m + n) * low == low; }
  }

  lemma MeanAtMost(a: real, b: real, c: real, d: real, s: real, t: real, i: real, r: real, high: real)
    requires a >= 0.0 && b >= 0.0 && c >= 0.0 && d >= 0.0 && a + b + c + d == 1.0
    requires s <= high && t <= high && i <= high && r <= high
    ensures a * s + b * t + c * i + d * r <= high
  {
    var m, n := a + b, c + d;
    TwoAtMost(a, b, s, t, high, m);
    TwoAtMost(c, d, i, r, high, n);
    assert m * high + n * high == high by { assert (m + n) * high == high; }
  }

  lemma NormalisedSum(w: Weights)
    requires Positive(w)
    ensures var t := Total(w);
      && t > 0.0 && w.alpha / t >= 0.0 && w.beta / t >= 0.0 && w.gamma / t >= 0.0 && w.delta / t >= 0.0
      && w.alpha / t + w.beta / t + w.gamma / t + w.delta / t == 1.0
  {
    var t := Total(w);
    assert w.alpha / t + w.beta / t + w.gamma / t + w.delta / t == (w.alpha + w.beta + w.gamma + w.delta) / t;
  }

  /** The final score lies between the least and the greatest of the four component scores. */
  lemma ScoreIsMean(f: Functions, semantic: real, importance: real, reinforcement: real, decayFactor: real,
                    ageDays: real,
                    w: Weights, low: real, high: real)
    requires Positive(w)
    requires var m := ComputeRank(f, semantic, importance, reinforcement, decayFactor, ageDays, w);
      && low <= m.semanticScore <= high && low <= m.temporalScore <= high
      && low <= m.importanceScore <= high && low <= m.reinforcementScore <= high
    ensures low <= ComputeRank(f, semantic, importance, reinforcement, decayFactor, ageDays, w).finalScore <= high
  {
    var m := ComputeRank(f, semantic, importance, reinforcement, decayFactor, ageDays, w);
    WeightedMeanIsBetween(w, m.semanticScore, m.temporalScore, m.importanceScore, m.reinforcementScore, low, high);
  }

  lemma WeightedMeanIsBetween(w: Weights, s: real, t: real, i: real, r: real, low: real, high: real)
    requires Positive(w)
    requires low <= s <= high && low <= t <= high && low <= i <= high && low <= r <= high
    ensures low <= WeightedMean(w, s, t, i, r) <= high
  {
    NormalisedSum(w);
    var total := Total(w);
    MeanAtLeast(w.alpha / total, w.beta / total, w.gamma / total, w.delta / total, s, t, i, r, low);
    MeanAtMost(w.alpha / total, w.beta / total, w.gamma / total, w.delta / total, s, t, i, r, high);
  }

  lemma ProductSign(a: real, b: real)
    requires a >= 0.0 && b > 0.0
    ensures a * b >= 0.0
  {
  }

  /** For memories of non-negative importance and reinforcement every score is in [0, 1]. */
  lemma ScoreInUnitInterval(f: Functions, semantic: real, importance: real, reinforcement: real, decayFactor: real,
                            ageDays: real, w: Weights)
    requires Sound(f) && Positive(w) && importance >= 0.0 && reinforcement >= 0.0
    ensures 0.0 <= ComputeRank(f, semantic, importance, reinforcement, decayFactor, ageDays, w).finalScore <= 1.0
  {
    var lambda := Max(0.01, decayFactor);
    ProductSign(importance, f.exp(Exponent(lambda, ageDays)));
    assert reinforcement / 10.0 >= 0.0;
    ScoreIsMean(f, semantic, importance, reinforcement, decayFactor, ageDays, w, 0.0, 1.0);
  }

  /** With the default weights the score is the documented sum: 0.4 S + 0.3 T + 0.2 I + 0.1 C. */
  lemma DefaultScore(f: Functions, semantic: real, importance: real, reinforcement: real, decayFactor: real,
                     ageDays: real)
    ensures var m := ComputeRank(f, semantic, importance, reinforcement, decayFactor, ageDays, DEFAULT_WEIGHTS);
      m.finalScore == 0.4 * m.semanticScore + 0.3 * m.temporalScore + 0.2 * m.importanceScore
        + 0.1 * m.reinforcementScore
  {
    assert Total(DEFAULT_WEIGHTS) == 1.0;
  }

  lemma SameShare(x: real, total: real, c: real)
    requires total > 0.0 && c > 0.0
    ensures c * total > 0.0 && c * x / (c * total) == x / total
  {
    assert x / total * (c * total) == c * (x / total * total) == c * x;
  }

  /** Only the proportions of the weights matter. */
  lemma WeightsAreRelative(w: Weights, c: real, s: real, t: real, i: real, r: real)
    requires Positive(w) && c > 0.0
    ensures var scaled := Weights(c * w.alpha, c * w.beta, c * w.gamma, c * w.delta);
      Total(scaled) > 0.0 && WeightedMean(scaled, s, t, i, r) == WeightedMean(w, s, t, i, r)
  {
    var total := Total(w);
    assert c * w.alpha + c * w.beta + c * w.gamma + c * w.delta == c * total;
    SameShare(w.alpha, total, c);
    SameShare(w.beta, total, c);
    SameShare(w.gamma, total, c);
    SameShare(w.delta, total, c);
  }

  // ----- What each component measures -----

  /** What is assumed of the functions when scores are compared. */
  ghost predicate Rising(f: Functions) {
    && (forall x, y :: x <= y ==> f.exp(x) <= f.exp(y)) && f.exp(0.0) == 1.0
    && (forall x, y :: x <= y ==> f.tanh(x) <= f.tanh(y))
  }

  lemma ProductsGrow(a: real, b: real, x: real, y: real)
    requires 0.0 <= a <= b && 0.0 <= x <= y
    ensures a * x <= b * y
  {
    assert a * x <= b * x;
    assert b * x <= b * y;
  }

  lemma Scaled(a: real, x: real, y: real)
    requires a >= 0.0 && x <= y
    ensures a * x <= a * y
  {
  }

  lemma RetentionRises(f: Functions, importance: real, x: real, y: real)
    requires Rising(f) && importance >= 0.0 && x <= y
    ensures Retention(f, importance, x) <= Retention(f, importance, y)
  {
    Scaled(importance, f.exp(x), f.exp(y));
  }

  lemma ExponentFalls(rate: real, rate': real, age: real, age': real)
    requires 0.0 <= rate <= rate' && 0.0 <= age <= age'
    ensures Exponent(rate', age') <= Exponent(rate, age)
  {
    ProductsGrow(rate, rate', age, age');
  }

  /** The temporal score never rises with age or with the decay factor. */
  lemma TemporalFallsWithAge(f: Functions, semantic: real, importance: real, reinforcement: real, w: Weights,
                             decay: real, age: real, decay': real, age': real)
    requires Rising(f) && Positive(w) && importance >= 0.0 && 0.0 <= age <= age' && decay <= decay'
    ensures ComputeRank(f, semantic, importance, reinforcement, decay', age', w).temporalScore
         <= ComputeRank(f, semantic, importance, reinforcement, decay, age, w).temporalScore
  {
    var lambda, lambda' := Max(0.01, decay), Max(0.01, decay');
    ExponentFalls(lambda, lambda', age, age');
    RetentionRises(f, importance, Exponent(lambda', age'), Exponent(lambda, age));
  }

  /** A fresh memory is recalled at its importance. */
  lemma TemporalAtBirth(f: Functions, semantic: real, importance: real, reinforcement: real, decay: real, w: Weights)
    requires Rising(f) && Positive(w)
    ensures ComputeRank(f, semantic, importance, reinforcement, decay, 0.0, w).temporalScore == Min(1.0, importance)
  {
    assert Exponent(Max(0.01, decay), 0.0) == 0.0;
    assert importance * 1.0 == importance;
  }

  /** Retention decays exponentially at the memory's own rate, but never slower than at 0.01 a day. */
  lemma ForgettingCurve(f: Functions, semantic: real, importance: real, reinforcement: real, decay: real, age: real,
                        w: Weights, rate: real)
    requires Positive(w) && rate == if decay >= 0.01 then decay else 0.01
    ensures ComputeRank(f, semantic, importance, reinforcement, decay, age, w).temporalScore
         == Min(1.0, importance * f.exp(-rate * age))
  {
    assert Max(0.01, decay) == rate && Exponent(rate, age) == -rate * age;
  }

  /** Each of the other components follows its own input: similarity and importance as they are between 0 and 1. */
  lemma ComponentsMeasure(f: Functions, semantic: real, importance: real, reinforcement: real, more: real,
                          decay: real, age: real, w: Weights)
    requires Rising(f) && Positive(w) && reinforcement <= more
    ensures var m := ComputeRank(f, semantic, importance, reinforcement, decay, age, w);
      && (0.0 <= semantic <= 1.0 ==> m.semanticScore == semantic) && 0.0 <= m.semanticScore <= 1.0
      && (0.0 <= importance <= 1.0 ==> m.importanceScore == importance) && 0.0 <= m.importanceScore <= 1.0
      && m.reinforcementScore <= ComputeRank(f, semantic, importance, more, decay, age, w).reinforcementScore
      && m.reinforcementScore == f.tanh(reinforcement / 10.0)
  {
  }

  lemma MeanTimesTotal(w: Weights, s: real, t: real, i: real, r: real)
    requires Positive(w)
    ensures WeightedMean(w, s, t, i, r) * Total(w) == w.alpha * s + w.beta * t + w.gamma * i + w.delta * r
  {
    var total := Total(w);
    ShareTimesTotal(w.alpha, total, s);
    ShareTimesTotal(w.beta, total, t);
    ShareTimesTotal(w.gamma, total, i);
    ShareTimesTotal(w.delta, total, r);
    var a, b, c, d := w.alpha / total * s, w.beta / total * t, w.gamma / total * i, w.delta / total * r;
    assert (a + b + c + d) * total == a * total + b * total + c * total + d * total;
  }

  lemma ShareTimesTotal(x: real, total: real, y: real)
    requires total > 0.0
    ensures x / total * y * total == x * y
  {
    assert x / total * y * total == x / total * total * y;
  }

  /** `score` is the mean of four components, weighted by `a`, `b`, `g` and 0.1. */
  predicate Weighs(score: real, s: real, t: real, i: real, r: real, a: real, b: real, g: real) {
    score * (a + b + g + 0.1) == a * s + b * t + g * i + 0.1 * r
  }

  lemma MeanWeighs(s: real, t: real, i: real, r: real, a: real, b: real, g: real)
    requires a > 0.0 && b > 0.0 && g > 0.0
    ensures Weighs(WeightedMean(Weights(a, b, g, 0.1), s, t, i, r), s, t, i, r, a, b, g)
  {
    MeanTimesTotal(Weights(a, b, g, 0.1), s, t, i, r);
  }

  /**
   The score of a request: the components weighted as the request asks where it asks for a positive
   weight, and by 0.4, 0.3 and 0.2 where it does not; reinforcement always weighs 0.1.
   */
  lemma RequestedScore(f: Functions, semantic: real, importance: real, reinforcement: real, decay: real, age: real,
                       alpha: real, beta: real, gamma: real, a: real, b: real, g: real)
    requires a == (if alpha > 0.0 then alpha else 0.4) && b == (if beta > 0.0 then beta else 0.3)
    requires g == if gamma > 0.0 then gamma else 0.2
    ensures Total(Overridden(alpha, beta, gamma)) > 0.0
    ensures var m := ComputeRank(f, semantic, importance, reinforcement, decay, age, Overridden(alpha, beta, gamma));
      Weighs(m.finalScore, m.semanticScore, m.temporalScore, m.importanceScore, m.reinforcementScore, a, b, g)
  {
    assert Overridden(alpha, beta, gamma) == Weights(a, b, g, 0.1);
    var m := ComputeRank(f, semantic, importance, reinforcement, decay, age, Weights(a, b, g, 0.1));
    MeanWeighs(m.semanticScore, m.temporalScore, m.importanceScore, m.reinforcementScore, a, b, g);
  }
}
