/** Operational metrics over predictions, with rates as exact numbers. */
module Metrics {
  import opened Prelude
  import opened Lists
  import opened Harness

  datatype Report = Report(
    total: nat, unavailable: nat, coverage: Option<real>, evaluable: nat, correct: nat, incorrect: nat,
    recall: Option<real>, precision: Option<real>, falsePositiveRate: Option<real>, reviewBurden: Option<real>,
    synthetic: bool)

  predicate IsCorrect(p: Record) {
    !p.unavailable && p.verdict == p.expected
  }

  predicate Gone(p: Record) {
    p.unavailable
  }

  predicate Present(p: Record) {
    !p.unavailable
  }

  predicate Held(p: Record) {
    p.action != Proceed
  }

  function Ratio(numerator: nat, denominator: nat): Option<real> {
    if denominator == 0 then None else Some(numerator as real / denominator as real)
  }

  function Positives(ps: seq<Record>, critical: bool, block: bool): nat {
    CountIf(ps, (p: Record) => p.critical == critical && (p.action == Block) == block)
  }

  function Evaluable(ps: seq<Record>): seq<Record> {
    Filter(ps, Present)
  }

  function Compute(ps: seq<Record>): Report
  {
    var unavailable := CountIf(ps, Gone);
    var evaluable := Evaluable(ps);
    var correct := CountIf(evaluable, IsCorrect);
    CountAtMost(ps, Gone);
    CountAtMost(evaluable, IsCorrect);
    var tp, fn := Positives(evaluable, true, true), Positives(evaluable, true, false);
    var fp, tn := Positives(evaluable, false, true), Positives(evaluable, false, false);
    Report(|ps|, unavailable, Ratio(|ps| - unavailable, |ps|), |evaluable|, correct, |evaluable| - correct,
           Ratio(tp, tp + fn), Ratio(tp, tp + fp), Ratio(fp, fp + tn),
           Ratio(CountIf(ps, Held), |ps|),
           exists i | 0 <= i < |ps| :: ps[i].synthetic)
  }

  lemma CountAtMost<T>(s: seq<T>, p: T -> bool)
    ensures CountIf(s, p) <= |s|
  {
    LengthIsCount(s, p);
  }

  /** Every prediction falls into exactly one of three buckets, and correctness counts the same
      over all predictions as over the evaluable ones. */
  lemma ThreeBuckets(ps: seq<Record>)
    ensures var r := Compute(ps);
      && r.total == r.unavailable + r.correct + r.incorrect
      && r.evaluable == r.correct + r.incorrect
      && r.correct == CountIf(ps, IsCorrect)
  {
    LengthIsCount(ps, Present);
    FilterCounts(ps, Present, IsCorrect, IsCorrect);
    CountNot(ps, Gone, Present);
  }

  lemma {:induction false} CountNot<T>(s: seq<T>, p: T -> bool, q: T -> bool)
    requires forall x | x in s :: p(x) != q(x)
    ensures CountIf(s, p) + CountIf(s, q) == |s|
  {
    if s != [] {
      assert s[0] in s;
      forall x | x in s[1..]
        ensures p(x) != q(x)
      {
        assert x in s;
      }
      CountNot(s[1..], p, q);
    }
  }

  /** The four outcomes behind recall, precision and false-positive rate partition the evaluable records. */
  lemma {:induction false} FourOutcomes(ps: seq<Record>)
    ensures Positives(ps, true, true) + Positives(ps, true, false)
            + Positives(ps, false, true) + Positives(ps, false, false) == |ps|
  {
    if ps != [] {
      FourOutcomes(ps[1..]);
    }
  }

  predicate IsRate(r: Option<real>) {
    r.Some? ==> 0.0 <= r.value <= 1.0
  }

  lemma RatioIsRate(n: nat, d: nat)
    requires n <= d
    ensures IsRate(Ratio(n, d))
  {
    if d > 0 {
      Bounded(n as real, d as real);
    }
  }

  lemma Bounded(n: real, d: real)
    requires 0.0 <= n <= d && d > 0.0
    ensures 0.0 <= n / d <= 1.0
  {
    assert n / d * d == n;
  }

  /** No rate is ever outside its range, and one is reported exactly when there is something to divide by. */
  lemma RatesAreRates(ps: seq<Record>)
    ensures var r := Compute(ps);
      && IsRate(r.coverage) && IsRate(r.recall) && IsRate(r.precision)
      && IsRate(r.falsePositiveRate) && IsRate(r.reviewBurden)
      && (r.coverage.None? <==> ps == []) && (r.reviewBurden.None? <==> ps == [])
      && (r.recall.None? && r.falsePositiveRate.None? <==> r.evaluable == 0)
  {
    var e := Evaluable(ps);
    FourOutcomes(e);
    CountAtMost(ps, Held);
    RatioIsRate(|ps| - CountIf(ps, Gone), |ps|) by {
      CountAtMost(ps, Gone);
    }
    RatioIsRate(CountIf(ps, Held), |ps|);
    RatioIsRate(Positives(e, true, true), Positives(e, true, true) + Positives(e, true, false));
    RatioIsRate(Positives(e, true, true), Positives(e, true, true) + Positives(e, false, true));
    RatioIsRate(Positives(e, false, true), Positives(e, false, true) + Positives(e, false, false));
  }

  // ----- what the rates are rates of

  predicate Caught(p: Record) {
    !p.unavailable && p.critical && p.action == Block
  }

  predicate Critical(p: Record) {
    !p.unavailable && p.critical
  }

  predicate Blocked(p: Record) {
    !p.unavailable && p.action == Block
  }

  predicate FalseAlarm(p: Record) {
    !p.unavailable && !p.critical && p.action == Block
  }

  predicate Harmless(p: Record) {
    !p.unavailable && !p.critical
  }

  /** Two of the four outcomes together, counted over all predictions at once. */
  lemma {:induction false} OutcomesTogether(ps: seq<Record>)
    ensures var e := Evaluable(ps);
      && Positives(e, true, true) == CountIf(ps, Caught)
      && Positives(e, false, true) == CountIf(ps, FalseAlarm)
      && Positives(e, true, true) + Positives(e, true, false) == CountIf(ps, Critical)
      && Positives(e, true, true) + Positives(e, false, true) == CountIf(ps, Blocked)
      && Positives(e, false, true) + Positives(e, false, false) == CountIf(ps, Harmless)
  {
    if ps != [] {
      OutcomesTogether(ps[1..]);
      var rest := Evaluable(ps[1..]);
      assert Present(ps[0]) ==> Evaluable(ps)[1..] == rest && Evaluable(ps)[0] == ps[0];
      assert Gone(ps[0]) ==> Evaluable(ps) == rest;
    }
  }

  lemma SameRatio(r: Option<real>, n: nat, d: nat, n': nat, d': nat)
    requires r == Ratio(n, d) && n == n' && d == d'
    ensures r == Ratio(n', d')
  {
  }

  lemma RatesAre(ps: seq<Record>, r: Report)
    requires r == Compute(ps)
    ensures var e := Evaluable(ps);
      && r.recall == Ratio(Positives(e, true, true), Positives(e, true, true) + Positives(e, true, false))
      && r.precision == Ratio(Positives(e, true, true), Positives(e, true, true) + Positives(e, false, true))
      && r.falsePositiveRate == Ratio(Positives(e, false, true), Positives(e, false, true) + Positives(e, false, false))
  {
  }

  /** Recall is the blocked share of critical failures, precision the critical share of blocks, and the
      false-positive rate the blocked share of the rest, all over the evaluable predictions. */
  lemma RatesMean(ps: seq<Record>, r: Report)
    requires r == Compute(ps)
    ensures r.recall == Ratio(CountIf(ps, Caught), CountIf(ps, Critical))
    ensures r.precision == Ratio(CountIf(ps, Caught), CountIf(ps, Blocked))
    ensures r.falsePositiveRate == Ratio(CountIf(ps, FalseAlarm), CountIf(ps, Harmless))
  {
    var e := Evaluable(ps);
    var tp, fn, fp, tn := Positives(e, true, true), Positives(e, true, false),
                          Positives(e, false, true), Positives(e, false, false);
    RatesAre(ps, r);
    OutcomesTogether(ps);
    SameRatio(r.recall, tp, tp + fn, CountIf(ps, Caught), CountIf(ps, Critical));
    SameRatio(r.precision, tp, tp + fp, CountIf(ps, Caught), CountIf(ps, Blocked));
    SameRatio(r.falsePositiveRate, fp, fp + tn, CountIf(ps, FalseAlarm), CountIf(ps, Harmless));
  }

  /** What every other number of a report is a number of: the predictions that are unavailable, right, and reviewed or
      blocked. */
  lemma {:induction false} ReportMeans(ps: seq<Record>, r: Report)
    requires r == Compute(ps)
    ensures var available := CountIf(ps, (p: Record) => !p.unavailable);
      && r.total == |ps| && r.evaluable == available && r.unavailable + available == |ps|
      && r.coverage == Ratio(available, |ps|)
      && r.correct == CountIf(ps, (p: Record) => !p.unavailable && p.verdict == p.expected)
      && r.reviewBurden == Ratio(CountIf(ps, (p: Record) => p.action == Review || p.action == Block), |ps|)
      && (r.synthetic <==> exists p :: p in ps && p.synthetic)
  {
    var available := (p: Record) => !p.unavailable;
    ThreeBuckets(ps);
    LengthIsCount(ps, Present);
    CountSame(ps, Present, available);
    CountNot(ps, Gone, available);
    CountSame(ps, IsCorrect, (p: Record) => !p.unavailable && p.verdict == p.expected);
    CountSame(ps, Held, (p: Record) => p.action == Review || p.action == Block);
    if r.synthetic {
      var i :| 0 <= i < |ps| && ps[i].synthetic;
      assert ps[i] in ps;
    }
  }
}
