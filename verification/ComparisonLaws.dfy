/** What a comparison and the gate on it say, read off the compared rows and the dataset alone. */
module ComparisonLaws {
  import opened Prelude
  import opened Lists
  import opened Sorting
  import opened Harness
  import opened Regression
  import opened RegressionLaws
  import opened Slices
  import SliceLaws
  import opened Gate

  // ----- the cases

  /** A run's last row with its id. */
  ghost predicate Stands(ps: seq<Record>, p: Record) {
    exists i: nat :: IsLast(ps, i) && ps[i] == p
  }

  lemma {:induction false} StandingRow(ps: seq<Record>, id: string)
    ensures forall p :: Lookup(ById(ps), id) == Some(p) <==> Stands(ps, p) && p.id == id
    ensures Lookup(ById(ps), id) == None <==> id !in Ids(ps)
  {
    ByIdKeys(ps);
    if id in ById(ps) {
      var i := LastRow(ps, id);
      LastIsKept(ps, i);
    }
    forall p | Stands(ps, p) && p.id == id
      ensures Lookup(ById(ps), id) == Some(p)
    {
      var i: nat :| IsLast(ps, i) && ps[i] == p;
      LastIsKept(ps, i);
    }
  }

  lemma {:induction false} LastRow(ps: seq<Record>, id: string) returns (i: nat)
    requires id in Ids(ps)
    ensures IsLast(ps, i) && ps[i].id == id
  {
    var n := |ps| - 1;
    var front := ps[..n];
    if ps[n].id == id {
      i := n;
    } else {
      assert forall k | 0 <= k < n :: Ids(ps)[k] == ps[k].id == Ids(front)[k];
      var k :| 0 <= k < |ps| && Ids(ps)[k] == id;
      assert Ids(front)[k] == id;
      i := LastRow(front, id);
    }
  }

  /** One case for every id of either run, in ascending order of the ids. */
  lemma {:induction false} CasesCoverIds(b: seq<Record>, c: seq<Record>)
    ensures Ascending(Map(Cases(b, c), (k: Case) => k.id))
    ensures forall id :: id in Map(Cases(b, c), (k: Case) => k.id) <==> id in Ids(b) || id in Ids(c)
  {
    AllIdsAre(b, c);
    ByIdKeys(b);
    ByIdKeys(c);
    var cases := Cases(b, c);
    assert forall i | 0 <= i < |cases| :: cases[i].id == AllIds(b, c)[i];
    assert Map(cases, (k: Case) => k.id) == AllIds(b, c);
  }

  /** A case carries the two rows that stand for its id. */
  lemma {:induction false} CaseCarries(b: seq<Record>, c: seq<Record>, k: Case)
    requires k in Cases(b, c)
    ensures forall p :: k.baseline == Some(p) <==> Stands(b, p) && p.id == k.id
    ensures forall p :: k.current == Some(p) <==> Stands(c, p) && p.id == k.id
    ensures k.baseline.None? <==> k.id !in Ids(b)
    ensures k.current.None? <==> k.id !in Ids(c)
  {
    var id := CaseFrom(b, c, k);
    StandingRow(b, k.id);
    StandingRow(c, k.id);
    assert k.baseline == Lookup(ById(b), k.id) && k.current == Lookup(ById(c), k.id);
  }

  /** What the class of a case says about its two rows. */
  predicate ClassFits(kind: Class, x: Record, y: Record) {
    var both := !x.unavailable && !y.unavailable;
    && (kind == Unchanged <==> x == y)
    && (kind == NewlyUnavailable <==> !x.unavailable && y.unavailable)
    && (kind == NewlyEvaluable <==> x.unavailable && !y.unavailable)
    && (kind == Regressed <==> both && x.verdict == x.expected && y.verdict != y.expected)
    && (kind == Improved <==> both && x.verdict != x.expected && y.verdict == y.expected)
  }

  /** The ids that are new in `to`, ascending. */
  ghost predicate New(added: seq<nat>, from: seq<nat>, to: seq<nat>) {
    && (forall i, j | 0 <= i < j < |added| :: added[i] <= added[j])
    && (forall id :: id in added <==> id in to && id !in from)
  }

  ghost predicate DeltaFits(d: EvidenceDelta, x: Record, y: Record) {
    && New(d.countedAdded, x.counted, y.counted) && New(d.countedRemoved, y.counted, x.counted)
    && New(d.discountedAdded, x.discounted, y.discounted) && New(d.discountedRemoved, y.discounted, x.discounted)
    && New(d.missingAdded, x.missing, y.missing) && New(d.missingRemoved, y.missing, x.missing)
  }

  lemma AddedAreNew(from: seq<nat>, to: seq<nat>)
    ensures New(AddedIds(from, to), from, to)
  {
    forall id
      ensures id in AddedIds(from, to) <==> id in to && id !in from
      ensures Sorted(AddedIds(from, to), NatLe)
    {
      AddedIdsAre(from, to, id);
    }
    assert Sorted(AddedIds(from, to), NatLe);
  }

  lemma {:induction false} BetweenFits(x: Record, y: Record)
    ensures DeltaFits(Between(x, y), x, y)
  {
    AddedAreNew(x.counted, y.counted);
    AddedAreNew(y.counted, x.counted);
    AddedAreNew(x.discounted, y.discounted);
    AddedAreNew(y.discounted, x.discounted);
    AddedAreNew(x.missing, y.missing);
    AddedAreNew(y.missing, x.missing);
  }

  predicate SameEvidence(x: Record, y: Record) {
    SameIds(x.counted, y.counted) && SameIds(x.discounted, y.discounted) && SameIds(x.missing, y.missing)
  }

  lemma CaseFrom(b: seq<Record>, c: seq<Record>, k: Case) returns (id: string)
    requires k in Cases(b, c)
    ensures (id in ById(b) || id in ById(c)) && k == CaseOf(ById(b), ById(c), id)
  {
    var i :| 0 <= i < |Cases(b, c)| && Cases(b, c)[i] == k;
    id := AllIds(b, c)[i];
    AllIdsAre(b, c);
    assert id in AllIds(b, c);
  }

  /** The class of every case, in terms of the rows it carries. */
  lemma {:induction false} ClassSays(b: seq<Record>, c: seq<Record>, k: Case)
    requires k in Cases(b, c)
    ensures k.kind == Added <==> k.baseline.None?
    ensures k.kind == Removed <==> k.current.None?
    ensures k.baseline.Some? && k.current.Some? ==> ClassFits(k.kind, k.baseline.value, k.current.value)
  {
    var id := CaseFrom(b, c, k);
    if id in ById(b) && id in ById(c) {
      ClassifyFits(ById(b)[id], ById(c)[id]);
    }
  }

  lemma ClassifyFits(x: Record, y: Record)
    ensures ClassFits(Classify(x, y), x, y) && Classify(x, y) != Added && Classify(x, y) != Removed
  {
  }

  /** Its evidence delta likewise: none when the ids are the same, otherwise the ids that came and those that went. */
  lemma {:induction false} DeltaSays(b: seq<Record>, c: seq<Record>, k: Case)
    requires k in Cases(b, c)
    ensures k.baseline.None? || k.current.None? ==> k.delta.None?
    ensures k.baseline.Some? && k.current.Some? ==>
      if SameEvidence(k.baseline.value, k.current.value) then k.delta.None?
      else k.delta.Some? && DeltaFits(k.delta.value, k.baseline.value, k.current.value)
  {
    var id := CaseFrom(b, c, k);
    if id in ById(b) && id in ById(c) {
      NoDeltaIff(ById(b)[id], ById(c)[id]);
      BetweenFits(ById(b)[id], ById(c)[id]);
    }
  }

  // ----- the gate

  /** A trajectory counts towards a slice: any does towards the overall one, otherwise some of its evidence must
      name the sensor or the provider. */
  predicate Counts(t: Trajectory, key: Key) {
    key == Overall || exists i | 0 <= i < |t.pool| :: Names(t.pool[i], key)
  }

  predicate Names(e: Evidence, key: Key) {
    && e.source.Some?
    && (key.Sensor? ==> e.source.value.sensor == key.name)
    && (key.ByProvider? ==> e.source.value.provider == Some(key.provider))
  }

  lemma CountsIff(t: Trajectory, key: Key)
    ensures Belongs(t, key) <==> Counts(t, key)
  {
    match key {
      case Overall =>
      case Sensor(name) => BelongsIff(t, name, Unknown);
      case ByProvider(p) => BelongsIff(t, "", p);
    }
  }

  ghost predicate Tested(ts: seq<Trajectory>, key: Key) {
    exists t :: t in ts && Counts(t, key)
  }

  ghost predicate Touches(ts: seq<Trajectory>, key: Key, id: string) {
    exists t :: t in ts && Counts(t, key) && t.id == id
  }

  /** How many regressed cases carry the id of a trajectory that counts towards the slice. */
  ghost function Regressions(cases: seq<Case>, ts: seq<Trajectory>, key: Key): nat {
    CountIf(cases, (k: Case) => k.kind == Regressed && Touches(ts, key, k.id))
  }

  ghost predicate TooMany(rule: Rule, cases: seq<Case>, ts: seq<Trajectory>) {
    Regressions(cases, ts, rule.slice) > rule.maxRegressions
  }

  lemma {:induction false} MembersAre(ts: seq<Trajectory>, key: Key, id: string)
    ensures id in Members(ts, key) <==> Touches(ts, key, id)
  {
    SliceLaws.IdsInAre(ts, key, id);
    forall t
      ensures Belongs(t, key) <==> Counts(t, key)
    {
      CountsIff(t, key);
    }
    if key == Overall {
      SortKeeps(IdsIn(ts, key), StringLe);
      SameElements(Members(ts, key), IdsIn(ts, key));
    } else {
      TreeOfIs(IdsIn(ts, key));
    }
  }

  /** The members of a slice in ascending order: a set, but every trajectory of the whole. */
  lemma {:induction false} MembersAscend(ts: seq<Trajectory>, key: Key)
    ensures Sorted(Members(ts, key), StringLe)
    ensures if key == Overall then |Members(ts, key)| == |ts| else NoRepeats(Members(ts, key))
  {
    if key == Overall {
      StringSound();
      SortSorts(IdsIn(ts, key), StringLe);
      SortKeeps(IdsIn(ts, key), StringLe);
      if ts != [] {
        SliceLaws.OverallIdAt(ts, 0);
      }
    } else {
      TreeOfIs(IdsIn(ts, key));
    }
  }

  /** A complete breakdown has a slice for the whole and for exactly what some evidence names. */
  lemma {:induction false} SlicedIff(slices: seq<Slice>, ts: seq<Trajectory>, key: Key)
    requires Complete(slices, ts)
    ensures (exists s :: s in slices && s.key == key) <==> key == Overall || Tested(ts, key)
  {
    TestedIff(ts, key);
    if Occurs(ts, key) {
      OccursTested(ts, key);
      assert Slice(key, Members(ts, key)) in slices;
    }
  }

  /** And in each, ascending, the ids of exactly the trajectories that count towards it. */
  lemma {:induction false} SliceSays(slices: seq<Slice>, ts: seq<Trajectory>, s: Slice, id: string)
    requires Complete(slices, ts) && s in slices
    ensures id in s.ids <==> Touches(ts, s.key, id)
    ensures Sorted(s.ids, StringLe)
    ensures if s.key == Overall then |s.ids| == |ts| else NoRepeats(s.ids)
  {
    MembersAre(ts, s.key, id);
    MembersAscend(ts, s.key);
  }

  lemma OccursTested(ts: seq<Trajectory>, key: Key)
    requires key != Overall ==> Occurs(ts, key)
    ensures key == Overall || Tested(ts, key)
  {
    if key != Overall {
      var i :| 0 <= i < |ts| && key in KeysOf(ts[i]);
      CountsIff(ts[i], key);
      assert ts[i] in ts;
    }
  }

  lemma {:induction false} TestedIff(ts: seq<Trajectory>, key: Key)
    ensures Members(ts, key) != [] <==> Tested(ts, key)
    ensures Tested(ts, key) ==> Occurs(ts, key)
  {
    if Members(ts, key) != [] {
      var id := Members(ts, key)[0];
      MembersAre(ts, key, id);
    }
    forall t | t in ts && Counts(t, key)
      ensures t.id in Members(ts, key) && Occurs(ts, key)
    {
      MembersAre(ts, key, t.id);
      CountsIff(t, key);
      var i :| 0 <= i < |ts| && ts[i] == t;
    }
  }

  lemma {:induction false} NoSlice(slices: seq<Slice>, key: Key)
    ensures FindSlice(slices, key).None? <==> forall s | s in slices :: s.key != key
    ensures FindSlice(slices, key).Some? ==>
      FindSlice(slices, key).value in slices && FindSlice(slices, key).value.key == key
  {
    if slices != [] {
      NoSlice(slices[1..], key);
      assert slices == [slices[0]] + slices[1..];
    }
  }

  lemma {:induction false} CountMembers(cases: seq<Case>, ts: seq<Trajectory>, key: Key)
    ensures RegressedAmong(cases, Members(ts, key)) == Regressions(cases, ts, key)
  {
    forall k | k in cases
      ensures (k.id in Members(ts, key) && k.kind == Regressed) == (k.kind == Regressed && Touches(ts, key, k.id))
    {
      MembersAre(ts, key, k.id);
    }
    CountSame(cases, (k: Case) => k.id in Members(ts, key) && k.kind == Regressed,
              (k: Case) => k.kind == Regressed && Touches(ts, key, k.id));
  }

  /** A rule on any slice is untested exactly when no trajectory counts towards the slice, and blocks exactly when
      more than its number of regressed cases carry the id of one that does. */
  lemma {:induction false} RuleIff(rule: Rule, cases: seq<Case>, ts: seq<Trajectory>, slices: seq<Slice>)
    requires Complete(slices, ts)
    ensures EvaluateRule(rule, cases, slices) ==
      if !Tested(ts, rule.slice) then Untested
      else if TooMany(rule, cases, ts) then Blocked
      else Pass
  {
    var key := rule.slice;
    NoSlice(slices, key);
    TestedIff(ts, key);
    CountMembers(cases, ts, key);
    if Occurs(ts, key) {
      assert Slice(key, Members(ts, key)) in slices;
      FindSliceIs(slices, Slice(key, Members(ts, key)));
    }
  }

  /** The gate over a dataset. It blocks exactly when the two runs are over the same data and a rule of a calibrated
      budget counts too many regressions; it passes exactly when, besides, every rule is tested and within bounds. */
  lemma {:induction false} GateIff(r: Comparison, ts: seq<Trajectory>, slices: seq<Slice>, budget: Budget)
    requires Complete(slices, ts)
    ensures var ready := budget.calibrated && budget.rules != [];
      var same := r.baselineHash == r.currentHash;
      var v := Decide(r, slices, budget);
      && (v == Inconclusive <==> ready && !same)
      && (v == Blocked <==> ready && same && exists rule :: rule in budget.rules && TooMany(rule, r.cases, ts))
      && (v == Pass <==> ready && same && forall rule | rule in budget.rules ::
            Tested(ts, rule.slice) && !TooMany(rule, r.cases, ts))
  {
    forall rule: Rule
      ensures EvaluateRule(rule, r.cases, slices) == Blocked <==> TooMany(rule, r.cases, ts)
      ensures EvaluateRule(rule, r.cases, slices) == Pass <==> Tested(ts, rule.slice) && !TooMany(rule, r.cases, ts)
      ensures EvaluateRule(rule, r.cases, slices) != Inconclusive
    {
      RuleIff(rule, r.cases, ts, slices);
      NoneUntested(r.cases, ts, rule.slice);
    }
    RulesBy(budget.rules, r.cases, slices, Blocked);
    RulesBy(budget.rules, r.cases, slices, Untested);
  }

  /** For two runs: inconclusive exactly when a ready budget meets runs over different data, blocked exactly when over
      the same data a rule counts too many of the cases between them. */
  lemma {:induction false} GateOnRuns(b: Run, c: Run, ts: seq<Trajectory>, slices: seq<Slice>, budget: Budget)
    requires Complete(slices, ts) && budget.calibrated && budget.rules != []
    ensures var v, cases := Decide(Compared(b, c), slices, budget), Cases(b.predictions, c.predictions);
      && (v == Inconclusive <==> b.datasetHash != c.datasetHash)
      && (v == Blocked <==>
          b.datasetHash == c.datasetHash && exists rule :: rule in budget.rules && TooMany(rule, cases, ts))
  {
    GateIff(Compared(b, c), ts, slices, budget);
  }

  lemma RulesBy(rules: seq<Rule>, cases: seq<Case>, slices: seq<Slice>, v: GateVerdict)
    ensures SomeRule(rules, cases, slices, v) <==>
            exists rule :: rule in rules && EvaluateRule(rule, cases, slices) == v
  {
    if SomeRule(rules, cases, slices, v) {
      var i :| 0 <= i < |rules| && EvaluateRule(rules[i], cases, slices) == v;
      assert rules[i] in rules;
    }
  }

  lemma {:induction false} NoneUntested(cases: seq<Case>, ts: seq<Trajectory>, key: Key)
    ensures !Tested(ts, key) ==> Regressions(cases, ts, key) == 0
  {
    if !Tested(ts, key) {
      CountPositive(cases, (k: Case) => k.kind == Regressed && Touches(ts, key, k.id));
    }
  }
}
