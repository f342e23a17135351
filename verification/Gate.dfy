/** The regression gate: whether a run may pass, and what its passing guarantees. */
module Gate {
  import opened Prelude
  import opened Lists
  import opened Sorting
  import opened Harness
  import opened Metrics
  import opened Regression
  import opened RegressionLaws
  import opened Slices

  datatype GateVerdict = Pass | Untested | Inconclusive | Blocked

  function Severity(v: GateVerdict): nat {
    match v
    case Pass => 0
    case Untested => 1
    case Inconclusive => 2
    case Blocked => 3
  }

  datatype Rule = Rule(slice: Key, maxRegressions: nat)

  datatype Budget = Budget(calibrated: bool, rules: seq<Rule>)

  /** The first slice with the key. */
  function FindSlice(slices: seq<Slice>, key: Key): Option<Slice> {
    if slices == [] then None else if slices[0].key == key then Some(slices[0]) else FindSlice(slices[1..], key)
  }

  function RegressedAmong(cases: seq<Case>, ids: seq<string>): nat {
    CountIf(cases, (k: Case) => k.id in ids && k.kind == Regressed)
  }

  function EvaluateRule(rule: Rule, cases: seq<Case>, slices: seq<Slice>): GateVerdict {
    match FindSlice(slices, rule.slice)
    case None => Untested
    case Some(s) =>
      if s.ids == [] then Untested
      else if RegressedAmong(cases, s.ids) > rule.maxRegressions then Blocked
      else Pass
  }

  predicate SomeRule(rules: seq<Rule>, cases: seq<Case>, slices: seq<Slice>, v: GateVerdict) {
    exists i | 0 <= i < |rules| :: EvaluateRule(rules[i], cases, slices) == v
  }

  /** The verdict the gate must give. */
  function Decide(r: Comparison, slices: seq<Slice>, budget: Budget): GateVerdict {
    if !budget.calibrated || budget.rules == [] then Untested
    else if r.baselineHash != r.currentHash then Inconclusive
    else if SomeRule(budget.rules, r.cases, slices, Blocked) then Blocked
    else if SomeRule(budget.rules, r.cases, slices, Untested) then Untested
    else Pass
  }

  /** The gate. Without a calibrated, non-empty budget nothing passes; runs over different data are not
      compared; otherwise the worst rule decides. */
  method EvaluateGate(r: Comparison, slices: seq<Slice>, budget: Budget) returns (verdict: GateVerdict)
    ensures verdict == Decide(r, slices, budget)
    ensures (!budget.calibrated || budget.rules == []) ==> verdict == Untested
    ensures budget.calibrated && budget.rules != [] && r.baselineHash != r.currentHash ==> verdict == Inconclusive
    ensures budget.calibrated && budget.rules != [] && r.baselineHash == r.currentHash ==>
      && (verdict == Blocked <==> SomeRule(budget.rules, r.cases, slices, Blocked))
      && (verdict == Pass <==>
          forall i | 0 <= i < |budget.rules| :: EvaluateRule(budget.rules[i], r.cases, slices) == Pass)
  {
    if !budget.calibrated || budget.rules == [] {
      return Untested;
    }
    if r.baselineHash != r.currentHash {
      return Inconclusive;
    }
    verdict := Pass;
    ghost var rules := budget.rules;
    for i := 0 to |budget.rules|
      invariant verdict == Pass || SomeRule(rules[..i], r.cases, slices, verdict)
      invariant forall j | 0 <= j < i :: Severity(EvaluateRule(rules[j], r.cases, slices)) <= Severity(verdict)
      invariant verdict != Inconclusive
    {
      var v := EvaluateRule(budget.rules[i], r.cases, slices);
      SomeMore(rules, i, r.cases, slices, verdict);
      SomeMore(rules, i, r.cases, slices, v);
      if Severity(v) > Severity(verdict) {
        verdict := v;
      }
    }
    assert rules[..|rules|] == rules;
  }

  lemma SomeMore(rules: seq<Rule>, i: nat, cases: seq<Case>, slices: seq<Slice>, v: GateVerdict)
    requires i < |rules|
    ensures SomeRule(rules[..i + 1], cases, slices, v) <==>
      SomeRule(rules[..i], cases, slices, v) || EvaluateRule(rules[i], cases, slices) == v
  {
    assert rules[..i + 1][i] == rules[i] && forall j | 0 <= j < i :: rules[..i + 1][j] == rules[..i][j];
  }

  // ----- what passing guarantees

  lemma {:induction false} FindSliceIs(slices: seq<Slice>, s: Slice)
    requires s in slices && forall i, j | 0 <= i < j < |slices| :: slices[i].key != slices[j].key
    ensures FindSlice(slices, s.key) == Option.Some(s)
  {
    if slices[0] != s {
      assert slices == [slices[0]] + slices[1..];
      var k :| 0 <= k < |slices| && slices[k] == s;
      forall i, j | 0 <= i < j < |slices[1..]|
        ensures slices[1..][i].key != slices[1..][j].key
      {
        assert slices[1..][i] == slices[i + 1] && slices[1..][j] == slices[j + 1];
      }
      FindSliceIs(slices[1..], s);
    }
  }

  /** The overall slice of a dataset holds every id in it. */
  lemma OverallHolds(slices: seq<Slice>, ts: seq<Trajectory>, id: string)
    requires Complete(slices, ts)
    ensures FindSlice(slices, Overall).Some?
    ensures id in FindSlice(slices, Overall).value.ids <==> exists i | 0 <= i < |ts| :: ts[i].id == id
  {
    assert Occurs(ts, Overall);
    FindSliceIs(slices, Slice(Overall, Members(ts, Overall)));
    SortKeeps(IdsIn(ts, Overall), StringLe);
    SameElements(Members(ts, Overall), IdsIn(ts, Overall));
    OverallIds(ts, id);
  }

  lemma {:induction false} OverallIds(ts: seq<Trajectory>, id: string)
    ensures id in IdsIn(ts, Overall) <==> exists i | 0 <= i < |ts| :: ts[i].id == id
  {
    if ts != [] {
      var front, last := ts[..|ts| - 1], ts[|ts| - 1];
      OverallIds(front, id);
      assert ts == front + [last] && ts[|ts| - 1] == last;
      if exists i | 0 <= i < |front| :: front[i].id == id {
        var i :| 0 <= i < |front| && front[i].id == id;
        assert ts[i].id == id;
      }
    }
  }

  ghost predicate RunsOver(c: seq<Record>, ts: seq<Trajectory>) {
    forall p | p in c :: exists i | 0 <= i < |ts| :: ts[i].id == p.id
  }

  /** Every prediction of a harness run is for a trajectory of its dataset. */
  lemma HarnessRunsOver(ts: seq<Trajectory>, config: Config, policies: Policies)
    ensures RunsOver(RunHarness(ts, config, policies), ts)
  {
    var rows, c := Sort(ts, IdLe), RunHarness(ts, config, policies);
    SortKeeps(ts, IdLe);
    SameElements(rows, ts);
    forall p | p in c
      ensures exists i | 0 <= i < |ts| :: ts[i].id == p.id
    {
      var k :| 0 <= k < |c| && c[k] == p;
      assert rows[k] in rows;
      var i :| 0 <= i < |ts| && ts[i] == rows[k];
    }
  }

  /** A regressed case is one of the current run's. */
  lemma RegressedIsCurrent(b: seq<Record>, c: seq<Record>, ts: seq<Trajectory>, k: Case)
    requires RunsOver(c, ts) && k in Cases(b, c) && k.kind == Regressed
    ensures exists i | 0 <= i < |ts| :: ts[i].id == k.id
  {
    var n :| 0 <= n < |Cases(b, c)| && Cases(b, c)[n] == k;
    assert k == CaseOf(ById(b), ById(c), AllIds(b, c)[n]);
    ByIdKeys(c);
    assert ById(c)[k.id] in c;
  }

  lemma AllRegressedCounted(b: seq<Record>, c: seq<Record>, ts: seq<Trajectory>, slices: seq<Slice>)
    requires RunsOver(c, ts) && Complete(slices, ts)
    ensures FindSlice(slices, Overall).Some?
    ensures RegressedAmong(Cases(b, c), FindSlice(slices, Overall).value.ids) == InClass(Cases(b, c), Regressed)
  {
    OverallHolds(slices, ts, "");
    var ids := FindSlice(slices, Overall).value.ids;
    forall k | k in Cases(b, c)
      ensures (k.id in ids && k.kind == Regressed) == (k.kind == Regressed)
    {
      if k.kind == Regressed {
        RegressedIsCurrent(b, c, ts, k);
        OverallHolds(slices, ts, k.id);
      }
    }
    CountSame(Cases(b, c), (k: Case) => k.id in ids && k.kind == Regressed, (k: Case) => k.kind == Regressed);
  }

  lemma PassedRule(r: Comparison, slices: seq<Slice>, budget: Budget, rule: Rule)
    requires Decide(r, slices, budget) == Pass && rule in budget.rules
    ensures EvaluateRule(rule, r.cases, slices) == Pass
  {
    var i :| 0 <= i < |budget.rules| && budget.rules[i] == rule;
    assert !SomeRule(budget.rules, r.cases, slices, Blocked) && !SomeRule(budget.rules, r.cases, slices, Untested);
    assert EvaluateRule(budget.rules[i], r.cases, slices) != Blocked;
    assert EvaluateRule(budget.rules[i], r.cases, slices) != Untested;
  }

  /** What the current run gained. */
  function Gains(cases: seq<Case>): nat {
    InClass(cases, Improved) + NowRightIn(cases, NewlyEvaluable) + NowRightIn(cases, Added)
  }

  /** Correct predictions that the comparison does not hold against the current run. */
  function Excused(cases: seq<Case>): nat {
    WasRightIn(cases, NewlyUnavailable) + WasRightIn(cases, Removed)
  }

  lemma DropIs(b: seq<Record>, c: seq<Record>)
    ensures var cases := Cases(b, c);
      Compute(b).correct - Compute(c).correct
      == InClass(cases, Regressed) + Excused(cases) - Gains(cases) + Overwritten(b) - Overwritten(c)
  {
    CorrectCountGeneral(b, c);
    BalanceIsClasses(Cases(b, c));
  }

  /** When the gate passes a budget with an overall rule of `k`, the number of correct predictions fell by at most
      `k`, plus those that were correct and are now unavailable or gone, plus the correct records that a repeated id
      hid in the baseline and not in the current run. */
  lemma PassBoundsDrop(b: Run, c: Run, ts: seq<Trajectory>, slices: seq<Slice>, budget: Budget, k: nat)
    requires RunsOver(c.predictions, ts) && Complete(slices, ts)
    requires Decide(Compared(b, c), slices, budget) == Pass && Rule(Overall, k) in budget.rules
    ensures Compute(b.predictions).correct - Compute(c.predictions).correct
         <= k + Excused(Compared(b, c).cases) + Overwritten(b.predictions) - Overwritten(c.predictions)
  {
    PassedRule(Compared(b, c), slices, budget, Rule(Overall, k));
    AllRegressedCounted(b.predictions, c.predictions, ts, slices);
    DropIs(b.predictions, c.predictions);
  }

  lemma UniqueIdsBound(b: Run, c: Run, ts: seq<Trajectory>, slices: seq<Slice>, budget: Budget, k: nat)
    requires NoRepeats(Ids(b.predictions)) && RunsOver(c.predictions, ts) && Complete(slices, ts)
    requires Decide(Compared(b, c), slices, budget) == Pass && Rule(Overall, k) in budget.rules
    ensures Compute(b.predictions).correct - Compute(c.predictions).correct <= k + Excused(Compared(b, c).cases)
  {
    PassBoundsDrop(b, c, ts, slices, budget, k);
    UniqueIdsNothingOverwritten(b.predictions);
  }

  // ----- when the promised bound holds

  /** The bound without that last part: what a budget of `k` regressions promises. */
  predicate KeepsPromise(b: seq<Record>, c: seq<Record>, k: nat) {
    Compute(b).correct - Compute(c).correct <= k + Excused(Cases(b, c))
  }

  /** The gate passes the comparison under one overall rule of `k`. */
  predicate Passes(b: seq<Record>, c: seq<Record>, slices: seq<Slice>, k: nat, hash: string) {
    Decide(Compared(Run(hash, b), Run(hash, c)), slices, Budget(true, [Rule(Overall, k)])) == Pass
  }

  lemma {:induction false} ElsewhereSame(ps: seq<Record>, i: nat, q: Record, id: string)
    requires i < |ps| && q.id == ps[i].id && id != q.id
    ensures Lookup(ById(ps[i := q]), id) == Lookup(ById(ps), id)
    decreases |ps|
  {
    var n := |ps| - 1;
    if i < n {
      assert ps[i := q][..n] == ps[..n][i := q];
      ElsewhereSame(ps[..n], i, q, id);
    } else {
      assert ps[i := q][..n] == ps[..n];
    }
  }

  /** A row that a later one with its id replaces anyway can be anything. */
  lemma {:induction false} EarlierIsHidden(ps: seq<Record>, i: nat, j: nat, q: Record, id: string)
    requires i < j < |ps| && ps[i].id == ps[j].id == q.id
    ensures Lookup(ById(ps[i := q]), id) == Lookup(ById(ps), id)
    decreases |ps|
  {
    var n := |ps| - 1;
    assert ps[i := q][..n] == ps[..n][i := q] && ps[i := q][n] == ps[n];
    if j < n {
      EarlierIsHidden(ps[..n], i, j, q, id);
    } else if id != q.id {
      ElsewhereSame(ps[..n], i, q, id);
    }
  }

  lemma SameLookups(a: map<string, Record>, b: map<string, Record>)
    requires forall id :: Lookup(a, id) == Lookup(b, id)
    ensures a == b
  {
    forall id
      ensures id in a <==> id in b
    {
      assert Lookup(a, id) == Lookup(b, id);
    }
    forall id | id in a
      ensures a[id] == b[id]
    {
      assert Lookup(a, id) == Lookup(b, id);
    }
  }

  lemma OneFewerCorrect(ps: seq<Record>, i: nat, q: Record)
    requires i < |ps| && IsCorrect(ps[i]) && !IsCorrect(q)
    ensures Compute(ps).correct - Compute(ps[i := q]).correct == 1
  {
    var front, back := ps[..i], ps[i + 1..];
    ThreeBuckets(ps);
    ThreeBuckets(ps[i := q]);
    assert ps == front + ([ps[i]] + back) && ps[i := q] == front + ([q] + back);
    CountAppend(front, [ps[i]] + back, IsCorrect);
    CountAppend(front, [q] + back, IsCorrect);
    CountAppend([ps[i]], back, IsCorrect);
    CountAppend([q], back, IsCorrect);
    CountOne(ps[i]);
    CountOne(q);
  }

  lemma SameMaps(b: seq<Record>, i: nat, j: nat, q: Record)
    requires i < j < |b| && b[i].id == b[j].id == q.id
    ensures ById(b) == ById(b[i := q])
  {
    forall id
      ensures Lookup(ById(b), id) == Lookup(ById(b[i := q]), id)
    {
      EarlierIsHidden(b, i, j, q, id);
    }
    SameLookups(ById(b), ById(b[i := q]));
  }

  lemma OneRule(r: Comparison, slices: seq<Slice>, rule: Rule)
    requires r.baselineHash == r.currentHash && EvaluateRule(rule, r.cases, slices) == Pass
    ensures Decide(r, slices, Budget(true, [rule])) == Pass
  {
  }

  lemma StillOver(b: seq<Record>, i: nat, q: Record, ts: seq<Trajectory>)
    requires i < |b| && q.id == b[i].id && RunsOver(b, ts)
    ensures RunsOver(b[i := q], ts) && ts != []
  {
    assert b[i] in b;
    forall r | r in b[i := q]
      ensures exists k | 0 <= k < |ts| :: ts[k].id == r.id
    {
      var k :| 0 <= k < |b| && b[i := q][k] == r;
      assert b[k] in b && b[k].id == r.id;
    }
  }

  lemma PassesWhenSame(b: seq<Record>, c: seq<Record>, ts: seq<Trajectory>, slices: seq<Slice>, hash: string)
    requires ById(b) == ById(c) && RunsOver(c, ts) && ts != [] && Complete(slices, ts)
    ensures Passes(b, c, slices, 0, hash) && Excused(Cases(b, c)) == 0
  {
    SameMapCases(b, c);
    OverallPassesIff(b, c, ts, slices, 0);
    OneRule(Compared(Run(hash, b), Run(hash, c)), slices, Rule(Overall, 0));
  }

  /** A repeated id does hide a drop: when an earlier row of it goes from correct to wrong, the comparison sees only
      the last, and a budget that tolerates no regression passes. */
  lemma HiddenDrop(b: seq<Record>, i: nat, j: nat, q: Record, ts: seq<Trajectory>, slices: seq<Slice>, hash: string)
    requires i < j < |b| && b[i].id == b[j].id == q.id && IsCorrect(b[i]) && !IsCorrect(q)
    requires RunsOver(b, ts) && Complete(slices, ts)
    ensures Passes(b, b[i := q], slices, 0, hash)
    ensures Compute(b).correct - Compute(b[i := q]).correct == 1 && Excused(Cases(b, b[i := q])) == 0
  {
    SameMaps(b, i, j, q);
    StillOver(b, i, q, ts);
    PassesWhenSame(b, b[i := q], ts, slices, hash);
    OneFewerCorrect(b, i, q);
  }

  function RightRow(id: string): Record {
    Record(id, 0, Verified, Proceed, Verified, false, 0, [], [], [], false, false, false)
  }

  lemma RepeatBreaks(ids: seq<string>, i: nat, j: nat, ts: seq<Trajectory>, slices: seq<Slice>, hash: string)
    returns (b: seq<Record>, c: seq<Record>)
    requires Complete(slices, ts) && i < j < |ids| && ids[i] == ids[j]
    requires forall id | id in ids :: exists i | 0 <= i < |ts| :: ts[i].id == id
    ensures Ids(b) == ids && Ids(c) == ids && Passes(b, c, slices, 0, hash) && !KeepsPromise(b, c, 0)
  {
    b := Map(ids, RightRow);
    var q := RightRow(ids[i]).(verdict := Unverified);
    c := b[i := q];
    assert Ids(b) == ids && Ids(c) == ids;
    RowsOver(b, ts);
    HiddenDrop(b, i, j, q, ts, slices, hash);
  }

  lemma UniqueKeeps(b: seq<Record>, c: seq<Record>, ts: seq<Trajectory>, slices: seq<Slice>, k: nat, hash: string)
    requires NoRepeats(Ids(b)) && Complete(slices, ts) && Passes(b, c, slices, k, hash)
    requires forall id | id in Ids(c) :: exists i | 0 <= i < |ts| :: ts[i].id == id
    ensures KeepsPromise(b, c, k)
  {
    RowsOver(c, ts);
    UniqueIdsBound(Run(hash, b), Run(hash, c), ts, slices, Budget(true, [Rule(Overall, k)]), k);
  }

  /** The promise holds for all runs over these rows, under every budget that passes them, if and only if no id
      repeats. */
  lemma PromiseIffUniqueIds(ids: seq<string>, ts: seq<Trajectory>, slices: seq<Slice>, hash: string)
    requires Complete(slices, ts) && forall id | id in ids :: exists i | 0 <= i < |ts| :: ts[i].id == id
    ensures (forall b: seq<Record>, c: seq<Record>, k: nat
               | Ids(b) == ids && Ids(c) == ids && Passes(b, c, slices, k, hash) :: KeepsPromise(b, c, k))
       <==> NoRepeats(ids)
  {
    if NoRepeats(ids) {
      forall b: seq<Record>, c: seq<Record>, k: nat | Ids(b) == ids && Ids(c) == ids && Passes(b, c, slices, k, hash)
        ensures KeepsPromise(b, c, k)
      {
        UniqueKeeps(b, c, ts, slices, k, hash);
      }
    } else {
      var i, j :| 0 <= i < j < |ids| && ids[i] == ids[j];
      var b, c := RepeatBreaks(ids, i, j, ts, slices, hash);
      assert Passes(b, c, slices, 0, hash) && !KeepsPromise(b, c, 0);
    }
  }

  lemma RowsOver(c: seq<Record>, ts: seq<Trajectory>)
    requires forall id | id in Ids(c) :: exists i | 0 <= i < |ts| :: ts[i].id == id
    ensures RunsOver(c, ts)
  {
    forall p | p in c
      ensures exists i | 0 <= i < |ts| :: ts[i].id == p.id
    {
      var k :| 0 <= k < |c| && c[k] == p;
      assert Ids(c)[k] == p.id && Ids(c)[k] in Ids(c);
    }
  }

  lemma CountOne(p: Record)
    ensures CountIf([p], IsCorrect) == if IsCorrect(p) then 1 else 0
  {
    assert [p][1..] == [];
  }

  /** Runs that stand for the same records show no case that changed. */
  lemma SameMapCases(b: seq<Record>, c: seq<Record>)
    requires ById(b) == ById(c)
    ensures InClass(Cases(b, c), Regressed) == 0 && Excused(Cases(b, c)) == 0
  {
    AllIdsAre(b, c);
    var cases := Cases(b, c);
    forall i | 0 <= i < |cases|
      ensures cases[i].kind == Unchanged
    {
      assert AllIds(b, c)[i] in AllIds(b, c);
    }
    CountPositive(cases, (k: Case) => k.kind == Regressed);
    CountPositive(cases, (k: Case) => WasRight(k, NewlyUnavailable));
    CountPositive(cases, (k: Case) => WasRight(k, Removed));
  }

  lemma SameRows(ts: seq<Trajectory>, before: Config, after: Config, was: Policies, now: Policies)
    ensures Ids(RunHarness(ts, before, was)) == Ids(RunHarness(ts, after, now))
  {
    var rows := Sort(ts, IdLe);
    var b, c := Ids(RunHarness(ts, before, was)), Ids(RunHarness(ts, after, now));
    assert |b| == |rows| == |c|;
    assert forall i | 0 <= i < |rows| :: b[i] == rows[i].id == c[i];
  }

  lemma HarnessIdsOnce(ts: seq<Trajectory>, config: Config, policies: Policies)
    requires NoRepeats(Map(ts, (t: Trajectory) => t.id))
    ensures NoRepeats(Ids(RunHarness(ts, config, policies)))
  {
    var ids, rows := Map(ts, (t: Trajectory) => t.id), Sort(ts, IdLe);
    SortKeeps(ts, IdLe);
    forall i, j | 0 <= i < j < |ts|
      ensures ts[i] != ts[j]
    {
      assert ids[i] != ids[j];
    }
    NoRepeatsReordered(ts, rows);
    SameElements(rows, ts);
    DistinctRows(ts, rows);
    var got := Ids(RunHarness(ts, config, policies));
    assert forall i | 0 <= i < |rows| :: got[i] == rows[i].id;
  }

  lemma DistinctRows(ts: seq<Trajectory>, rows: seq<Trajectory>)
    requires NoRepeats(Map(ts, (t: Trajectory) => t.id)) && NoRepeats(rows) && forall t :: t in rows <==> t in ts
    ensures forall i, j | 0 <= i < j < |rows| :: rows[i].id != rows[j].id
  {
    var ids := Map(ts, (t: Trajectory) => t.id);
    forall i, j | 0 <= i < j < |rows|
      ensures rows[i].id != rows[j].id
    {
      assert rows[i] in rows && rows[j] in rows;
      var k :| 0 <= k < |ts| && ts[k] == rows[i];
      var l :| 0 <= l < |ts| && ts[l] == rows[j];
      assert ids[k] != ids[l];
    }
  }

  /** The whole chain, for two harness runs over one dataset, any policies, any configurations: nothing is ever
      removed, and with unique ids nothing is hidden either. */
  lemma PassedRunsDropBounded(ts: seq<Trajectory>, before: Config, after: Config, was: Policies, now: Policies,
                              hash: string, slices: seq<Slice>, budget: Budget, k: nat)
    requires Complete(slices, ts) && Rule(Overall, k) in budget.rules
    requires var b, c := Run(hash, RunHarness(ts, before, was)), Run(hash, RunHarness(ts, after, now));
      Decide(Compared(b, c), slices, budget) == Pass
    ensures var b, c := RunHarness(ts, before, was), RunHarness(ts, after, now);
      && Compute(b).correct - Compute(c).correct
           <= k + WasRightIn(Cases(b, c), NewlyUnavailable) + Overwritten(b) - Overwritten(c)
      && (NoRepeats(Map(ts, (t: Trajectory) => t.id)) ==> Overwritten(b) == 0)
  {
    var b, c := RunHarness(ts, before, was), RunHarness(ts, after, now);
    HarnessRunsOver(ts, after, now);
    PassBoundsDrop(Run(hash, b), Run(hash, c), ts, slices, budget, k);
    SameRows(ts, before, after, was, now);
    NothingRemoved(b, c);
    if NoRepeats(Map(ts, (t: Trajectory) => t.id)) {
      HarnessIdsOnce(ts, before, was);
      UniqueIdsNothingOverwritten(b);
    }
  }

  /** An overall rule passes exactly when the dataset is not empty and at most `k` cases regressed. */
  lemma OverallPassesIff(b: seq<Record>, c: seq<Record>, ts: seq<Trajectory>, slices: seq<Slice>, k: nat)
    requires RunsOver(c, ts) && Complete(slices, ts)
    ensures EvaluateRule(Rule(Overall, k), Cases(b, c), slices) == Pass <==>
      ts != [] && InClass(Cases(b, c), Regressed) <= k
  {
    AllRegressedCounted(b, c, ts, slices);
    var ids := FindSlice(slices, Overall).value.ids;
    if ts != [] {
      OverallHolds(slices, ts, ts[0].id);
    } else if ids != [] {
      OverallHolds(slices, ts, ids[0]);
    }
  }

  /** A run compared with itself is never blocked, whatever the slices and the budget. */
  lemma SameRunNeverBlocked(r: Run, slices: seq<Slice>, budget: Budget)
    ensures Decide(Compared(r, r), slices, budget) != Blocked
  {
    var ps, rules := r.predictions, budget.rules;
    SameRunUnchanged(ps);
    forall i | 0 <= i < |rules|
      ensures EvaluateRule(rules[i], Cases(ps, ps), slices) != Blocked
    {
      match FindSlice(slices, rules[i].slice) {
        case None =>
        case Some(s) => CountPositive(Cases(ps, ps), (k: Case) => k.id in s.ids && k.kind == Regressed);
      }
    }
  }
}
