/** What each sensor is worth: the metrics with and without it. */
module Ablation {
  import opened Prelude
  import opened Lists
  import opened Sorting
  import opened Harness
  import opened Metrics

  datatype Result = Result(
    sensor: string, baseline: Report, ablated: Report, coverageDelta: Option<real>, recallDelta: Option<real>,
    precisionDelta: Option<real>, falsePositiveDelta: Option<real>, burdenDelta: Option<real>,
    moved: nat, synthetic: bool)

  function Delta(baseline: Option<real>, ablated: Option<real>): Option<real> {
    if baseline.Some? && ablated.Some? then Some(ablated.value - baseline.value) else None
  }

  /** Pairs that were available before and are not any more. */
  function Moved(before: seq<Record>, after: seq<Record>): nat {
    if before == [] || after == [] then 0
    else (if !before[0].unavailable && after[0].unavailable then 1 else 0) + Moved(before[1..], after[1..])
  }

  function Without(config: Config, sensor: string): Config {
    config.(disabled := config.disabled + {sensor})
  }

  function Ablated(dataset: seq<Trajectory>, config: Config, sensor: string, policies: Policies): Result {
    var before, after := RunHarness(dataset, config, policies), RunHarness(dataset, Without(config, sensor), policies);
    var b, a := Compute(before), Compute(after);
    Result(sensor, b, a, Delta(b.coverage, a.coverage), Delta(b.recall, a.recall), Delta(b.precision, a.precision),
           Delta(b.falsePositiveRate, a.falsePositiveRate), Delta(b.reviewBurden, a.reviewBurden),
           Moved(before, after), b.synthetic || a.synthetic)
  }

  /** One result for every named sensor, in order. */
  function RunAblation(dataset: seq<Trajectory>, config: Config, sensors: seq<string>,
                       policies: Policies): seq<Result> {
    Map(sensors, sensor => Ablated(dataset, config, sensor, policies))
  }

  lemma {:induction false} MovedIsDifference(before: seq<Record>, after: seq<Record>)
    requires |before| == |after|
    requires forall i | 0 <= i < |before| :: before[i].unavailable ==> after[i].unavailable
    ensures CountIf(after, Gone) == CountIf(before, Gone) + Moved(before, after)
  {
    if before != [] {
      forall i | 0 <= i < |before[1..]|
        ensures before[1..][i].unavailable ==> after[1..][i].unavailable
      {
        assert before[1..][i] == before[i + 1] && after[1..][i] == after[i + 1];
      }
      MovedIsDifference(before[1..], after[1..]);
    }
  }

  /** Whatever the policies do, the ablated run has exactly the baseline's unavailable predictions and the
      moved ones. */
  lemma UnavailableGrowsByMoved(dataset: seq<Trajectory>, config: Config, sensor: string, policies: Policies)
    ensures var r := Ablated(dataset, config, sensor, policies);
      r.ablated.unavailable == r.baseline.unavailable + r.moved && r.ablated.total == r.baseline.total == |dataset|
  {
    var rows := Sort(dataset, IdLe);
    SortKeeps(dataset, IdLe);
    var before, after := RunHarness(dataset, config, policies), RunHarness(dataset, Without(config, sensor), policies);
    forall i | 0 <= i < |before|
      ensures before[i].unavailable ==> after[i].unavailable
    {
      if before[i].unavailable {
        UnavailableIsMonotone(rows[i], config, Without(config, sensor), policies);
      }
    }
    MovedIsDifference(before, after);
  }

  lemma RealDifference(n: real, m: real, d: real)
    requires d != 0.0
    ensures (n - m) / d - n / d == -m / d
  {
  }

  lemma DifferenceOfRatios(n: nat, m: nat, d: nat)
    requires d > 0 && m <= n
    ensures Delta(Ratio(n, d), Ratio(n - m, d)) == Some(-(m as real) / d as real)
  {
    RealDifference(n as real, m as real, d as real);
    assert (n - m) as real == n as real - m as real;
  }

  lemma ReportsDiffer(b: Report, a: Report, moved: nat)
    requires b.total == a.total > 0 && a.unavailable == b.unavailable + moved <= a.total
    requires b.coverage == Ratio(b.total - b.unavailable, b.total)
    requires a.coverage == Ratio(a.total - a.unavailable, a.total)
    ensures Delta(b.coverage, a.coverage) == Some(-(moved as real) / a.total as real)
  {
    DifferenceOfRatios(b.total - b.unavailable, moved, b.total);
  }

  lemma CoverageIs(ps: seq<Record>)
    ensures var r := Compute(ps);
      r.unavailable <= r.total == |ps| && r.coverage == Ratio(r.total - r.unavailable, r.total)
  {
    CountAtMost(ps, Gone);
  }

  predicate CoverageFits(r: Report) {
    r.unavailable <= r.total && r.coverage == Ratio(r.total - r.unavailable, r.total)
  }

  lemma {:induction false} AblatedCoverage(dataset: seq<Trajectory>, config: Config, sensor: string, policies: Policies)
    ensures var r := Ablated(dataset, config, sensor, policies);
      && CoverageFits(r.baseline) && CoverageFits(r.ablated)
      && r.coverageDelta == Delta(r.baseline.coverage, r.ablated.coverage)
  {
    CoverageIs(RunHarness(dataset, config, policies));
    CoverageIs(RunHarness(dataset, Without(config, sensor), policies));
  }

  lemma DeltaIsShare(r: Result, total: nat)
    requires CoverageFits(r.baseline) && CoverageFits(r.ablated)
    requires r.coverageDelta == Delta(r.baseline.coverage, r.ablated.coverage)
    requires r.ablated.unavailable == r.baseline.unavailable + r.moved && r.ablated.total == r.baseline.total == total
    ensures r.coverageDelta == if total == 0 then None else Some(-(r.moved as real) / total as real)
  {
    if total > 0 {
      ReportsDiffer(r.baseline, r.ablated, r.moved);
    }
  }

  /** The coverage delta is minus the share of moved trajectories, exactly. */
  lemma CoverageDeltaIsMovedShare(dataset: seq<Trajectory>, config: Config, sensor: string, policies: Policies)
    ensures var r := Ablated(dataset, config, sensor, policies);
      r.coverageDelta == if |dataset| == 0 then None else Some(-(r.moved as real) / |dataset| as real)
  {
    UnavailableGrowsByMoved(dataset, config, sensor, policies);
    AblatedCoverage(dataset, config, sensor, policies);
    DeltaIsShare(Ablated(dataset, config, sensor, policies), |dataset|);
  }

  /** So it is for every sensor of an ablation, and the results come in the order the sensors were named. */
  lemma {:induction false} EveryDeltaIsShare(
    dataset: seq<Trajectory>, config: Config, sensors: seq<string>, policies: Policies, i: nat
  )
    requires i < |sensors|
    ensures var r := RunAblation(dataset, config, sensors, policies)[i];
      && r.sensor == sensors[i] && r.ablated.unavailable == r.baseline.unavailable + r.moved
      && r.coverageDelta == if |dataset| == 0 then None else Some(-(r.moved as real) / |dataset| as real)
  {
    ResultAt(dataset, config, sensors, policies, i);
    SensorShare(dataset, config, sensors[i], policies, RunAblation(dataset, config, sensors, policies)[i]);
  }

  lemma {:induction false} ResultAt(
    dataset: seq<Trajectory>, config: Config, sensors: seq<string>, policies: Policies, i: nat
  )
    requires i < |sensors|
    ensures RunAblation(dataset, config, sensors, policies)[i] == Ablated(dataset, config, sensors[i], policies)
  {
  }

  lemma {:induction false} SensorShare(
    dataset: seq<Trajectory>, config: Config, sensor: string, policies: Policies, r: Result
  )
    requires r == Ablated(dataset, config, sensor, policies)
    ensures r.sensor == sensor && r.ablated.unavailable == r.baseline.unavailable + r.moved
    ensures r.coverageDelta == if |dataset| == 0 then None else Some(-(r.moved as real) / |dataset| as real)
  {
    UnavailableGrowsByMoved(dataset, config, sensor, policies);
    CoverageDeltaIsMovedShare(dataset, config, sensor, policies);
  }

  /** A sensor that delivered nothing in the dataset moves nothing. */
  lemma IdleSensorMovesNothing(dataset: seq<Trajectory>, config: Config, sensor: string, policies: Policies)
    requires forall t, e | t in dataset && e in t.pool :: !FromDisabled(e, {sensor})
    ensures Ablated(dataset, config, sensor, policies).moved == 0
  {
    var rows := Sort(dataset, IdLe);
    SortKeeps(dataset, IdLe);
    SameElements(rows, dataset);
    var before, after := RunHarness(dataset, config, policies), RunHarness(dataset, Without(config, sensor), policies);
    forall i | 0 <= i < |before|
      ensures before[i].unavailable == after[i].unavailable
    {
      assert rows[i] in dataset;
      IdleRow(rows[i], config, sensor, policies);
    }
    NothingMoved(before, after);
  }

  lemma IdleRow(t: Trajectory, config: Config, sensor: string, policies: Policies)
    requires forall e | e in t.pool :: !FromDisabled(e, {sensor})
    ensures Predict(t, config, policies).unavailable == Predict(t, Without(config, sensor), policies).unavailable
  {
    UnavailableIff(t, config, policies);
    UnavailableIff(t, Without(config, sensor), policies);
    SameExcluded(t.pool, config.disabled, sensor);
  }

  lemma SameExcluded(pool: seq<Evidence>, disabled: set<string>, sensor: string)
    requires forall e | e in pool :: !FromDisabled(e, {sensor})
    ensures ExcludedIds(pool, disabled + {sensor}) == ExcludedIds(pool, disabled)
  {
    forall i | 0 <= i < |pool|
      ensures FromDisabled(pool[i], disabled + {sensor}) == FromDisabled(pool[i], disabled)
    {
      assert pool[i] in pool;
    }
  }

  lemma {:induction false} NothingMoved(before: seq<Record>, after: seq<Record>)
    requires |before| == |after|
    requires forall i | 0 <= i < |before| :: before[i].unavailable == after[i].unavailable
    ensures Moved(before, after) == 0
  {
    if before != [] {
      forall i | 0 <= i < |before[1..]|
        ensures before[1..][i].unavailable == after[1..][i].unavailable
      {
        assert before[1..][i] == before[i + 1] && after[1..][i] == after[i + 1];
      }
      NothingMoved(before[1..], after[1..]);
    }
  }

  /** A delta is there exactly when both rates are, and added to the baseline's gives the ablated one. */
  predicate Leads(baseline: Option<real>, delta: Option<real>, ablated: Option<real>) {
    && (delta.Some? <==> baseline.Some? && ablated.Some?)
    && (delta.Some? ==> baseline.value + delta.value == ablated.value)
  }

  /** All five deltas lead from the metrics of the run as configured to those of the run without the sensor. */
  lemma DeltasLead(dataset: seq<Trajectory>, config: Config, sensor: string, policies: Policies)
    ensures var r := Ablated(dataset, config, sensor, policies);
      && r.baseline == Compute(RunHarness(dataset, config, policies))
      && r.ablated == Compute(RunHarness(dataset, Config(config.disabled + {sensor}, config.risk), policies))
      && Leads(r.baseline.coverage, r.coverageDelta, r.ablated.coverage)
      && Leads(r.baseline.recall, r.recallDelta, r.ablated.recall)
      && Leads(r.baseline.precision, r.precisionDelta, r.ablated.precision)
      && Leads(r.baseline.falsePositiveRate, r.falsePositiveDelta, r.ablated.falsePositiveRate)
      && Leads(r.baseline.reviewBurden, r.burdenDelta, r.ablated.reviewBurden)
  {
  }

  /** An ablation result is marked synthetic exactly when some trajectory of the dataset is. */
  lemma SyntheticIff(dataset: seq<Trajectory>, config: Config, sensor: string, policies: Policies)
    ensures Ablated(dataset, config, sensor, policies).synthetic <==> exists t :: t in dataset && t.synthetic
  {
    RunSynthetic(dataset, config, policies);
    RunSynthetic(dataset, Without(config, sensor), policies);
  }

  lemma {:induction false} RunSynthetic(dataset: seq<Trajectory>, config: Config, policies: Policies)
    ensures Compute(RunHarness(dataset, config, policies)).synthetic <==> exists t :: t in dataset && t.synthetic
  {
    SortKeeps(dataset, IdLe);
    SameElements(Sort(dataset, IdLe), dataset);
    RowsSynthetic(Sort(dataset, IdLe), RunHarness(dataset, config, policies));
  }

  lemma {:induction false} RowsSynthetic(rows: seq<Trajectory>, rs: seq<Record>)
    requires |rows| == |rs| && forall i | 0 <= i < |rs| :: rs[i].synthetic == rows[i].synthetic
    ensures Compute(rs).synthetic <==> exists t :: t in rows && t.synthetic
  {
    if Compute(rs).synthetic {
      var i :| 0 <= i < |rs| && rs[i].synthetic;
      assert rows[i] in rows && rows[i].synthetic;
    }
    forall t | t in rows && t.synthetic
      ensures Compute(rs).synthetic
    {
      var i :| 0 <= i < |rows| && rows[i] == t;
      assert rs[i].synthetic;
    }
  }
}
