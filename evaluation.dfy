/**
 * The offline evaluation of the system: SystemTester runs the heuristics,
 * then the ML classifier, over a list of labelled URLs and counts the
 * results as true or false positives and negatives, where "positive" means
 * "not safe". Reading and writing the CSV files is left out; the rows are
 * given as (url, expected) pairs.
 */
module Evaluation {
  import opened Wrappers
  import opened Text
  import Heuristics
  import opened Oracles
  import Handlers

  /** SystemTester.analyze: the heuristics' verdict in lower case, else "unknown" without a classifier, else the classifier's label as it is. */
  function Predict(analyze: string -> Heuristics.Outcome, classifier: Option<Classifier>, url: string): string
  {
    var o := analyze(url);
    if o.verdict != Heuristics.Unknown then Lower(o.verdict.Name())
    else if classifier.None? then "unknown"
    else classifier.value(url).verdict
  }

  /**
   * On a link the bot does not unshorten, the tester predicts the bot's
   * verdict up to case, whenever the bot completes.
   */
  lemma PredictMatchesBot(s: Services, url: string)
    requires !ShouldResolve(s, url)
    ensures var b := Handlers.Analysis(s, url);
      b.Returned? ==> b.value.verdict.Some? && Lower(b.value.verdict.value) == Lower(Predict(s.analyze, s.classifier, url))
  {
    var b := Handlers.Analysis(s, url);
    if b.Returned? && s.analyze(url).verdict == Heuristics.Unknown && s.classifier.Some? {
      LowerOfUpper(s.classifier.value(url).verdict);
    } else if b.Returned? && s.analyze(url).verdict != Heuristics.Unknown {
      LowerIdempotent(s.analyze(url).verdict.Name());
    }
  }

  /** One row of the results table. */
  datatype TestResult = TestResult(url: string, expected: string, predicted: string, correct: bool)

  /** A labelled row run through the tester: the expected label lowered, the prediction, and whether they agree. */
  function Evaluate(analyze: string -> Heuristics.Outcome, classifier: Option<Classifier>, url: string, expected: string): TestResult
  {
    var e := Lower(expected);
    var p := Predict(analyze, classifier, url);
    TestResult(url, e, p, e == p)
  }

  /** run_tests over rows already read: one result per row, in order. */
  method RunTests(analyze: string -> Heuristics.Outcome, classifier: Option<Classifier>, rows: seq<(string, string)>)
    returns (results: seq<TestResult>)
    ensures |results| == |rows|
    ensures forall i :: 0 <= i < |rows| ==> results[i] == Evaluate(analyze, classifier, rows[i].0, rows[i].1)
  {
    results := [];
    for i := 0 to |rows|
      invariant |results| == i
      invariant forall j :: 0 <= j < i ==> results[j] == Evaluate(analyze, classifier, rows[j].0, rows[j].1)
    {
      var url := rows[i].0;
      var expected := Lower(rows[i].1);
      var predicted := Predict(analyze, classifier, url);
      results := results + [TestResult(url, expected, predicted, expected == predicted)];
    }
  }

  /** Where a result falls; "positive" means the URL is not safe. */
  datatype Cell = TruePositive | TrueNegative | FalsePositive | FalseNegative

  /** The branch of calculate_metrics that counts the result. */
  function CellOf(r: TestResult): Cell
  {
    var expectedSafe := r.expected == "safe";
    var predictedSafe := r.predicted == "safe";
    if expectedSafe && predictedSafe then TrueNegative
    else if expectedSafe && !predictedSafe then FalsePositive
    else if !expectedSafe && !predictedSafe then TruePositive
    else FalseNegative
  }

  /**
   * The cells: true negative when both are safe, false positive when only
   * the expectation is, true positive when neither is (whatever the two
   * threat classes), false negative when only the prediction is.
   */
  lemma CellMeaning(r: TestResult)
    ensures CellOf(r) == TrueNegative <==> r.expected == "safe" && r.predicted == "safe"
    ensures CellOf(r) == FalsePositive <==> r.expected == "safe" && r.predicted != "safe"
    ensures CellOf(r) == TruePositive <==> r.expected != "safe" && r.predicted != "safe"
    ensures CellOf(r) == FalseNegative <==> r.expected != "safe" && r.predicted == "safe"
  {
  }

  /** The number of results that fall in cell `c`. */
  function Count(results: seq<TestResult>, c: Cell): nat
  {
    if results == [] then 0
    else Count(results[..|results| - 1], c) + (if CellOf(results[|results| - 1]) == c then 1 else 0)
  }

  /** The number of results flagged correct. */
  function CountCorrect(results: seq<TestResult>): nat
  {
    if results == [] then 0
    else CountCorrect(results[..|results| - 1]) + (if results[|results| - 1].correct then 1 else 0)
  }

  /** Every result falls in exactly one cell, so the four counts add up to the number of results. */
  lemma {:induction false} CellsPartition(results: seq<TestResult>)
    ensures Count(results, TruePositive) + Count(results, TrueNegative) +
            Count(results, FalsePositive) + Count(results, FalseNegative) == |results|
  {
    if results != [] {
      CellsPartition(results[..|results| - 1]);
    }
  }

  lemma {:induction false} CorrectAtMostTotal(results: seq<TestResult>)
    ensures CountCorrect(results) <= |results|
  {
    if results != [] {
      CorrectAtMostTotal(results[..|results| - 1]);
    }
  }

  /**
   * A result whose flag says the labels agree is never a false positive or
   * negative, so the correct results are at most the true ones.
   */
  lemma {:induction false} CorrectAreTrue(results: seq<TestResult>)
    requires forall i :: 0 <= i < |results| ==> results[i].correct == (results[i].expected == results[i].predicted)
    ensures CountCorrect(results) <= Count(results, TruePositive) + Count(results, TrueNegative)
  {
    if results != [] {
      CorrectAreTrue(results[..|results| - 1]);
    }
  }

  datatype Metrics = Metrics(
    total: nat, correct: nat, tp: nat, tn: nat, fp: nat, fn: nat,
    accuracy: real, precision: real, recall: real, f1: real)

  /** a / b, or 0 when b is 0. */
  function Ratio(a: nat, b: nat): real
  {
    if b > 0 then a as real / b as real else 0.0
  }

  /** 2pr / (p + r), or 0 when p + r is 0. */
  function F1(p: real, r: real): real
  {
    if p + r > 0.0 then 2.0 * p * r / (p + r) else 0.0
  }

  /** calculate_metrics(results) as a value. */
  function MetricsOf(results: seq<TestResult>): Metrics
  {
    var tp := Count(results, TruePositive);
    var tn := Count(results, TrueNegative);
    var fp := Count(results, FalsePositive);
    var fn := Count(results, FalseNegative);
    var precision := Ratio(tp, tp + fp);
    var recall := Ratio(tp, tp + fn);
    Metrics(|results|, CountCorrect(results), tp, tn, fp, fn,
            Ratio(CountCorrect(results), |results|), precision, recall, F1(precision, recall))
  }

  lemma CountStep(results: seq<TestResult>, i: nat, c: Cell)
    requires i < |results|
    ensures Count(results[..i + 1], c) == Count(results[..i], c) + (if CellOf(results[i]) == c then 1 else 0)
  {
    assert results[..i + 1][..i] == results[..i];
  }

  /** calculate_metrics: one pass over the results bumping one of the four counters. */
  method CalculateMetrics(results: seq<TestResult>) returns (m: Metrics)
    ensures m == MetricsOf(results)
  {
    var tp, tn, fp, fn := 0, 0, 0, 0;
    for i := 0 to |results|
      invariant tp == Count(results[..i], TruePositive) && tn == Count(results[..i], TrueNegative)
      invariant fp == Count(results[..i], FalsePositive) && fn == Count(results[..i], FalseNegative)
    {
      CountStep(results, i, TruePositive);
      CountStep(results, i, TrueNegative);
      CountStep(results, i, FalsePositive);
      CountStep(results, i, FalseNegative);
      var expectedSafe := results[i].expected == "safe";
      var predictedSafe := results[i].predicted == "safe";
      if expectedSafe && predictedSafe {
        tn := tn + 1;
      } else if expectedSafe && !predictedSafe {
        fp := fp + 1;
      } else if !expectedSafe && !predictedSafe {
        tp := tp + 1;
      } else {
        fn := fn + 1;
      }
    }
    assert results[..|results|] == results;
    var total := |results|;
    var correct := CountCorrect(results);
    var accuracy := if total > 0 then correct as real / total as real else 0.0;
    var precision := if tp + fp > 0 then tp as real / (tp + fp) as real else 0.0;
    var recall := if tp + fn > 0 then tp as real / (tp + fn) as real else 0.0;
    var f1 := if precision + recall > 0.0 then 2.0 * precision * recall / (precision + recall) else 0.0;
    m := Metrics(total, correct, tp, tn, fp, fn, accuracy, precision, recall, f1);
  }

  lemma RatioBounds(a: nat, b: nat)
    requires a <= b
    ensures 0.0 <= Ratio(a, b) <= 1.0
  {
  }

  lemma F1Bounds(p: real, r: real)
    requires 0.0 <= p <= 1.0 && 0.0 <= r <= 1.0
    ensures 0.0 <= F1(p, r) <= 1.0
  {
    if p + r > 0.0 {
      ProductBelow(p, r);
      QuotientBounds(2.0 * p * r, p + r);
    }
  }

  lemma ProductBelow(p: real, r: real)
    requires 0.0 <= p <= 1.0 && 0.0 <= r <= 1.0
    ensures 0.0 <= 2.0 * p * r <= p + r
  {
    NonNegativeProduct(p, r);
    NonNegativeProduct(p, 1.0 - r);
    NonNegativeProduct(r, 1.0 - p);
    assert p * (1.0 - r) == p - p * r;
    assert r * (1.0 - p) == r - p * r;
    assert 2.0 * p * r == 2.0 * (p * r);
  }

  lemma NonNegativeProduct(a: real, b: real)
    requires 0.0 <= a && 0.0 <= b
    ensures 0.0 <= a * b
  {
  }

  lemma QuotientBounds(x: real, d: real)
    requires 0.0 <= x <= d && d > 0.0
    ensures 0.0 <= x / d <= 1.0
  {
    assert x / d * d == x;
  }

  /**
   * The counts add up to the total and the correct results are at most the
   * total; every ratio lies in [0, 1], and is 0 when its denominator is.
   */
  lemma MetricsSound(results: seq<TestResult>)
    ensures var m := MetricsOf(results);
      m.tp + m.tn + m.fp + m.fn == m.total && m.correct <= m.total &&
      0.0 <= m.accuracy <= 1.0 && 0.0 <= m.precision <= 1.0 && 0.0 <= m.recall <= 1.0 && 0.0 <= m.f1 <= 1.0 &&
      (m.total == 0 ==> m.accuracy == 0.0) &&
      (m.tp + m.fp == 0 ==> m.precision == 0.0) &&
      (m.tp + m.fn == 0 ==> m.recall == 0.0) &&
      (m.precision + m.recall == 0.0 ==> m.f1 == 0.0)
  {
    var m := MetricsOf(results);
    CellsPartition(results);
    CorrectAtMostTotal(results);
    RatioBounds(m.correct, m.total);
    RatioBounds(m.tp, m.tp + m.fp);
    RatioBounds(m.tp, m.tp + m.fn);
    F1Bounds(m.precision, m.recall);
  }
}
