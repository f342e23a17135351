/** Conservation of correct predictions between two compared runs. */
module RegressionLaws {
  import opened Prelude
  import opened Lists
  import opened Sorting
  import opened Harness
  import opened Metrics
  import opened Regression

  // ----- correct records and correct ids

  predicate RightAt(m: map<string, Record>, id: string) {
    id in m && IsCorrect(m[id])
  }

  /** The ids whose standing record is correct. */
  function RightIds(m: map<string, Record>): set<string> {
    set id | id in m && IsCorrect(m[id])
  }

  /** How many correct records a later row with the same id replaced. */
  function Overwritten(ps: seq<Record>): nat {
    if ps == [] then 0
    else
      var front, last := ps[..|ps| - 1], ps[|ps| - 1];
      Overwritten(front) + if RightAt(ById(front), last.id) then 1 else 0
  }

  lemma RightIdsUpdated(m: map<string, Record>, p: Record)
    ensures RightIds(m[p.id := p]) == if IsCorrect(p) then RightIds(m) + {p.id} else RightIds(m) - {p.id}
  {
  }

  /** A run's correct count is its number of correct ids plus the correct records that were replaced. */
  lemma {:induction false} CorrectCountIs(ps: seq<Record>)
    ensures CountIf(ps, IsCorrect) == |RightIds(ById(ps))| + Overwritten(ps)
  {
    if ps != [] {
      var front, last := ps[..|ps| - 1], ps[|ps| - 1];
      CorrectCountIs(front);
      RightIdsUpdated(ById(front), last);
      assert ps == front + [last];
      CountAppend(front, [last], IsCorrect);
    } else {
      assert RightIds(ById(ps)) == {};
    }
  }

  /** With unique ids nothing is replaced. */
  lemma {:induction false} UniqueIdsNothingOverwritten(ps: seq<Record>)
    requires NoRepeats(Ids(ps))
    ensures Overwritten(ps) == 0
  {
    if ps != [] {
      var front, last := ps[..|ps| - 1], ps[|ps| - 1];
      assert forall i | 0 <= i < |front| :: Ids(front)[i] == Ids(ps)[i];
      UniqueIdsNothingOverwritten(front);
      ByIdKeys(front);
      assert Ids(ps)[|ps| - 1] == last.id;
    }
  }

  // ----- the identity

  function CaseBalance(k: Case): int {
    match k.kind
    case Improved => 1
    case Regressed => -1
    case NewlyEvaluable => if k.current.Some? && IsCorrect(k.current.value) then 1 else 0
    case NewlyUnavailable => if k.baseline.Some? && IsCorrect(k.baseline.value) then -1 else 0
    case Added => if k.current.Some? && IsCorrect(k.current.value) then 1 else 0
    case Removed => if k.baseline.Some? && IsCorrect(k.baseline.value) then -1 else 0
    case _ => 0
  }

  predicate NowRight(k: Case, kind: Class) {
    k.kind == kind && k.current.Some? && IsCorrect(k.current.value)
  }

  predicate WasRight(k: Case, kind: Class) {
    k.kind == kind && k.baseline.Some? && IsCorrect(k.baseline.value)
  }

  function NowRightIn(cases: seq<Case>, kind: Class): nat {
    CountIf(cases, (k: Case) => NowRight(k, kind))
  }

  function WasRightIn(cases: seq<Case>, kind: Class): nat {
    CountIf(cases, (k: Case) => WasRight(k, kind))
  }

  /** Every class accounts for exactly the change in correctness of its case. */
  lemma CaseAccounts(b: map<string, Record>, c: map<string, Record>, id: string)
    requires id in b || id in c
    ensures CaseBalance(CaseOf(b, c, id)) == (if RightAt(c, id) then 1 else 0) - (if RightAt(b, id) then 1 else 0)
  {
  }

  function Balance(cases: seq<Case>): int {
    if cases == [] then 0 else CaseBalance(cases[0]) + Balance(cases[1..])
  }

  lemma {:induction false} BalanceIsClasses(cases: seq<Case>)
    ensures Balance(cases) ==
      InClass(cases, Improved) - InClass(cases, Regressed)
      + NowRightIn(cases, NewlyEvaluable) - WasRightIn(cases, NewlyUnavailable)
      + NowRightIn(cases, Added) - WasRightIn(cases, Removed)
  {
    if cases != [] {
      BalanceIsClasses(cases[1..]);
    }
  }

  lemma {:induction false} BalanceIsDifference(b: map<string, Record>, c: map<string, Record>, ids: seq<string>,
                                               cases: seq<Case>)
    requires forall id | id in ids :: id in b || id in c
    requires |cases| == |ids| && forall i | 0 <= i < |ids| :: cases[i] == CaseOf(b, c, ids[i])
    ensures Balance(cases) == CountIf(ids, id => RightAt(c, id)) - CountIf(ids, id => RightAt(b, id))
  {
    if ids != [] {
      assert ids[0] in ids && forall id | id in ids[1..] :: id in ids;
      CaseAccounts(b, c, ids[0]);
      BalanceIsDifference(b, c, ids[1..], cases[1..]);
    }
  }

  lemma AllIdsAre(b: seq<Record>, c: seq<Record>)
    ensures Ascending(AllIds(b, c)) && NoRepeats(AllIds(b, c))
    ensures forall id :: id in AllIds(b, c) <==> id in ById(b) || id in ById(c)
  {
    TreeOfIs(Ids(b) + Ids(c));
    ByIdKeys(b);
    ByIdKeys(c);
  }

  lemma RightCounted(m: map<string, Record>, ids: seq<string>)
    requires NoRepeats(ids) && forall id | id in m :: id in ids
    ensures CountIf(ids, id => RightAt(m, id)) == |RightIds(m)|
  {
    CountIsCardinality(ids, id => RightAt(m, id));
    assert Chosen(ids, id => RightAt(m, id)) == RightIds(m);
  }

  /** The number of correct ids changes by exactly what the classes say, whatever the two runs are. */
  lemma CorrectIdsBalance(b: seq<Record>, c: seq<Record>)
    ensures |RightIds(ById(c))| - |RightIds(ById(b))| == Balance(Cases(b, c))
  {
    AllIdsAre(b, c);
    var ids := AllIds(b, c);
    RightCounted(ById(b), ids);
    RightCounted(ById(c), ids);
    BalanceIsDifference(ById(b), ById(c), ids, Cases(b, c));
  }

  /** With unique ids the correct counts of the two reports differ by exactly: improved, minus regressed, plus
      newly evaluable and correct, minus newly unavailable that were correct, plus added and correct, minus
      removed that were correct. */
  lemma CorrectCountBalance(b: seq<Record>, c: seq<Record>)
    requires NoRepeats(Ids(b)) && NoRepeats(Ids(c))
    ensures var cases := Cases(b, c);
      Compute(c).correct - Compute(b).correct ==
        InClass(cases, Improved) - InClass(cases, Regressed)
        + NowRightIn(cases, NewlyEvaluable) - WasRightIn(cases, NewlyUnavailable)
        + NowRightIn(cases, Added) - WasRightIn(cases, Removed)
  {
    CorrectCountGeneral(b, c);
    UniqueIdsNothingOverwritten(b);
    UniqueIdsNothingOverwritten(c);
    BalanceIsClasses(Cases(b, c));
  }

  /** In general the replaced correct records of each run are missing from the balance, so it holds exactly
      when both runs replaced equally many. */
  lemma CorrectCountGeneral(b: seq<Record>, c: seq<Record>)
    ensures Compute(c).correct - Compute(b).correct == Balance(Cases(b, c)) + Overwritten(c) - Overwritten(b)
  {
    ThreeBuckets(b);
    ThreeBuckets(c);
    CorrectCountIs(b);
    CorrectCountIs(c);
    CorrectIdsBalance(b, c);
  }

  lemma BalanceIffEqualOverwritten(b: seq<Record>, c: seq<Record>)
    ensures Compute(c).correct - Compute(b).correct == Balance(Cases(b, c)) <==> Overwritten(c) == Overwritten(b)
  {
    CorrectCountGeneral(b, c);
  }

  /** A repeated id does break it: dropping a duplicate of one correct row shows as no change at all. */
  lemma DuplicateBreaksBalance(p: Record)
    requires IsCorrect(p)
    ensures Compute([p]).correct - Compute([p, p]).correct == -1
    ensures Balance(Cases([p, p], [p])) == 0
  {
    var twice := [p, p];
    assert twice[..1] == [p] && [p][..0] == [];
    var none: seq<Record> := [];
    assert ById(none) == map[] && ById([p]) == map[p.id := p];
    assert Overwritten(none) == 0 && Overwritten([p]) == 0;
    assert RightAt(ById(twice[..1]), p.id) && Overwritten(twice) == 1;
    CorrectCountGeneral(twice, [p]);
    ThreeBuckets([p]);
    ThreeBuckets(twice);
    assert twice[1..] == [p] && [p][1..] == [];
    CountAppend([p], [p], IsCorrect);
    assert [p] + [p] == twice && CountIf([p], IsCorrect) == 1;
  }

  // ----- a run against itself

  /** Comparing a run with itself finds only unchanged cases. */
  lemma SameRunUnchanged(ps: seq<Record>)
    ensures forall i | 0 <= i < |Cases(ps, ps)| :: Cases(ps, ps)[i].kind == Unchanged
  {
    AllIdsAre(ps, ps);
    forall i | 0 <= i < |Cases(ps, ps)|
      ensures Cases(ps, ps)[i].kind == Unchanged
    {
      assert AllIds(ps, ps)[i] in AllIds(ps, ps);
    }
  }

  lemma StillThere(b: map<string, Record>, c: map<string, Record>, id: string)
    requires id in c
    ensures CaseOf(b, c, id).kind != Removed
  {
  }

  /** When every id of the baseline is in the current run too, nothing was removed. */
  lemma NothingRemoved(b: seq<Record>, c: seq<Record>)
    requires forall id | id in Ids(b) :: id in Ids(c)
    ensures WasRightIn(Cases(b, c), Removed) == 0
  {
    var ids, cases := AllIds(b, c), Cases(b, c);
    TreeOfIs(Ids(b) + Ids(c));
    ByIdKeys(c);
    forall i | 0 <= i < |cases|
      ensures !WasRight(cases[i], Removed)
    {
      assert ids[i] in ids;
      StillThere(ById(b), ById(c), ids[i]);
    }
    CountPositive(cases, (k: Case) => WasRight(k, Removed));
  }
}
