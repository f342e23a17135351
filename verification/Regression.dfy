/** Case-by-case comparison of two runs. */
module Regression {
  import opened Prelude
  import opened Lists
  import opened Sorting
  import opened Harness
  import opened Metrics

  datatype Class =
    | Unchanged | ChangedNoOutcomeShift | Improved | Regressed | NewlyUnavailable | NewlyEvaluable | Added | Removed

  datatype EvidenceDelta = EvidenceDelta(
    countedAdded: seq<nat>, countedRemoved: seq<nat>, discountedAdded: seq<nat>, discountedRemoved: seq<nat>,
    missingAdded: seq<nat>, missingRemoved: seq<nat>)

  datatype Case = Case(
    id: string, kind: Class, baseline: Option<Record>, current: Option<Record>, delta: Option<EvidenceDelta>)

  /** A frozen run: the hash of the dataset it ran over and its predictions. */
  datatype Run = Run(datasetHash: string, predictions: seq<Record>)

  datatype Tally = Tally(regressed: nat, improved: nat, added: nat, removed: nat)

  datatype Comparison = Comparison(baselineHash: string, currentHash: string, cases: seq<Case>, tally: Tally)

  predicate NatLe(a: nat, b: nat) {
    a <= b
  }

  /** Ids in `to` but not in `from`, sorted. */
  function AddedIds(from: seq<nat>, to: seq<nat>): seq<nat> {
    Sort(Filter(to, id => id !in from), NatLe)
  }

  function Between(b: Record, c: Record): EvidenceDelta {
    EvidenceDelta(AddedIds(b.counted, c.counted), AddedIds(c.counted, b.counted),
                  AddedIds(b.discounted, c.discounted), AddedIds(c.discounted, b.discounted),
                  AddedIds(b.missing, c.missing), AddedIds(c.missing, b.missing))
  }

  const NO_DELTA := EvidenceDelta([], [], [], [], [], [])

  function Classify(b: Record, c: Record): Class {
    if b == c then Unchanged
    else if !b.unavailable && c.unavailable then NewlyUnavailable
    else if b.unavailable && !c.unavailable then NewlyEvaluable
    else if IsCorrect(b) && !IsCorrect(c) then Regressed
    else if !IsCorrect(b) && IsCorrect(c) then Improved
    else ChangedNoOutcomeShift
  }

  /** The records by id; a later row with the same id replaces an earlier one. */
  function ById(ps: seq<Record>): map<string, Record> {
    if ps == [] then map[] else ById(ps[..|ps| - 1])[ps[|ps| - 1].id := ps[|ps| - 1]]
  }

  function Lookup(m: map<string, Record>, id: string): Option<Record> {
    if id in m then Some(m[id]) else None
  }

  /** The case of an id that occurs in at least one run. */
  function CaseOf(b: map<string, Record>, c: map<string, Record>, id: string): Case {
    if id in b && id in c then
      Case(id, Classify(b[id], c[id]), Some(b[id]), Some(c[id]),
           if Between(b[id], c[id]) == NO_DELTA then None else Some(Between(b[id], c[id])))
    else if id in c then Case(id, Added, None, Some(c[id]), None)
    else Case(id, Removed, Lookup(b, id), None, None)
  }

  function Ids(ps: seq<Record>): seq<string> {
    Map(ps, (p: Record) => p.id)
  }

  function AllIds(b: seq<Record>, c: seq<Record>): seq<string> {
    TreeOf(Ids(b) + Ids(c))
  }

  function CasesOf(b: map<string, Record>, c: map<string, Record>, ids: seq<string>): (r: seq<Case>)
    ensures |r| == |ids| && forall i | 0 <= i < |ids| :: r[i] == CaseOf(b, c, ids[i])
  {
    if ids == [] then [] else CasesOf(b, c, ids[..|ids| - 1]) + [CaseOf(b, c, ids[|ids| - 1])]
  }

  function Cases(b: seq<Record>, c: seq<Record>): seq<Case> {
    CasesOf(ById(b), ById(c), AllIds(b, c))
  }

  function InClass(cases: seq<Case>, kind: Class): nat {
    CountIf(cases, (k: Case) => k.kind == kind)
  }

  lemma {:induction false} ByIdKeys(ps: seq<Record>)
    ensures forall id :: id in ById(ps) <==> id in Ids(ps)
    ensures forall id | id in ById(ps) :: ById(ps)[id].id == id && ById(ps)[id] in ps
  {
    if ps != [] {
      var front, last := ps[..|ps| - 1], ps[|ps| - 1];
      ByIdKeys(front);
      assert ps == front + [last];
      assert Ids(ps) == Ids(front) + [last.id];
    }
  }

  /** The counters after a run of cases. */
  function TallyOf(cases: seq<Case>): Tally {
    if cases == [] then Tally(0, 0, 0, 0) else Counted(TallyOf(cases[..|cases| - 1]), cases[|cases| - 1].kind)
  }

  function Counted(t: Tally, kind: Class): Tally {
    match kind
    case Regressed => t.(regressed := t.regressed + 1)
    case Improved => t.(improved := t.improved + 1)
    case Added => t.(added := t.added + 1)
    case Removed => t.(removed := t.removed + 1)
    case _ => t
  }

  lemma {:induction false} CountNext(cases: seq<Case>, k: Case, kind: Class)
    ensures InClass(cases + [k], kind) == InClass(cases, kind) + if k.kind == kind then 1 else 0
  {
    CountAppend(cases, [k], (k: Case) => k.kind == kind);
  }

  /** Each counter is the number of cases of its class. */
  lemma {:induction false} TallyCounts(cases: seq<Case>)
    ensures TallyOf(cases) ==
      Tally(InClass(cases, Regressed), InClass(cases, Improved), InClass(cases, Added), InClass(cases, Removed))
  {
    if cases != [] {
      var front, last := cases[..|cases| - 1], cases[|cases| - 1];
      TallyCounts(front);
      assert cases == front + [last];
      CountNext(front, last, Regressed);
      CountNext(front, last, Improved);
      CountNext(front, last, Added);
      CountNext(front, last, Removed);
    }
  }

  /** Row `i` is the last with its id. */
  predicate IsLast(ps: seq<Record>, i: nat) {
    i < |ps| && forall j | i < j < |ps| :: ps[j].id != ps[i].id
  }

  /** Of the rows with one id the last is kept. */
  lemma {:induction false} LastIsKept(ps: seq<Record>, i: nat)
    requires IsLast(ps, i)
    ensures ps[i].id in ById(ps) && ById(ps)[ps[i].id] == ps[i]
  {
    if i < |ps| - 1 {
      var front := ps[..|ps| - 1];
      assert forall j | 0 <= j < |front| :: front[j] == ps[j];
      LastIsKept(front, i);
    }
  }

  method Index(ps: seq<Record>) returns (m: map<string, Record>)
    ensures m == ById(ps)
    ensures forall id :: id in m <==> id in Ids(ps)
    ensures forall i: nat | IsLast(ps, i) :: ps[i].id in m && m[ps[i].id] == ps[i]
  {
    m := map[];
    for i := 0 to |ps|
      invariant m == ById(ps[..i])
    {
      m := m[ps[i].id := ps[i]];
      assert ps[..i + 1][..i] == ps[..i];
    }
    assert ps[..|ps|] == ps;
    ByIdKeys(ps);
    forall i: nat | IsLast(ps, i)
      ensures ps[i].id in m && m[ps[i].id] == ps[i]
    {
      LastIsKept(ps, i);
    }
  }

  lemma {:induction false} NextCase(b: map<string, Record>, c: map<string, Record>, ids: seq<string>, i: nat, k: Case)
    requires i < |ids| && k == CaseOf(b, c, ids[i])
    ensures CasesOf(b, c, ids[..i + 1]) == CasesOf(b, c, ids[..i]) + [k]
  {
    assert ids[..i + 1][..i] == ids[..i];
  }

  lemma {:induction false} NextTally(cases: seq<Case>, k: Case)
    ensures TallyOf(cases + [k]) == Counted(TallyOf(cases), k.kind)
  {
    assert (cases + [k])[..|cases|] == cases;
  }

  method CompareIds(b: map<string, Record>, c: map<string, Record>, ids: seq<string>) returns (cases: seq<Case>,
                    tally: Tally)
    ensures cases == CasesOf(b, c, ids) && tally == TallyOf(cases)
  {
    cases, tally := [], Tally(0, 0, 0, 0);
    for i := 0 to |ids|
      invariant cases == CasesOf(b, c, ids[..i]) && tally == TallyOf(cases)
    {
      var k := CaseOf(b, c, ids[i]);
      NextCase(b, c, ids, i, k);
      NextTally(cases, k);
      tally := Counted(tally, k.kind);
      cases := cases + [k];
    }
    assert ids[..|ids|] == ids;
  }

  /** The whole comparison. */
  function Compared(baseline: Run, current: Run): Comparison {
    var cases := Cases(baseline.predictions, current.predictions);
    Comparison(baseline.datasetHash, current.datasetHash, cases, TallyOf(cases))
  }

  /** Every id of either run, in order, with its class; the counters count the classes. */
  method Compare(baseline: Run, current: Run) returns (r: Comparison)
    ensures r == Compared(baseline, current)
    ensures r.tally.regressed == InClass(r.cases, Regressed) && r.tally.improved == InClass(r.cases, Improved)
    ensures r.tally.added == InClass(r.cases, Added) && r.tally.removed == InClass(r.cases, Removed)
  {
    var b := Index(baseline.predictions);
    var c := Index(current.predictions);
    var cases, tally := CompareIds(b, c, AllIds(baseline.predictions, current.predictions));
    TallyCounts(cases);
    r := Comparison(baseline.datasetHash, current.datasetHash, cases, tally);
  }

  // ----- what moved evidence means

  lemma AddedIdsAre(from: seq<nat>, to: seq<nat>, id: nat)
    ensures id in AddedIds(from, to) <==> id in to && id !in from
    ensures Sorted(AddedIds(from, to), NatLe)
  {
    var kept := Filter(to, id => id !in from);
    SortKeeps(kept, NatLe);
    SameElements(Sort(kept, NatLe), kept);
    FilterKeeps(to, id => id !in from, id);
    SortSorts(kept, NatLe);
  }

  predicate SameIds(a: seq<nat>, b: seq<nat>) {
    (forall x | x in a :: x in b) && (forall x | x in b :: x in a)
  }

  lemma NothingAdded(from: seq<nat>, to: seq<nat>)
    ensures AddedIds(from, to) == [] <==> forall x | x in to :: x in from
  {
    forall x
      ensures x in AddedIds(from, to) <==> x in to && x !in from
    {
      AddedIdsAre(from, to, x);
    }
    if AddedIds(from, to) != [] {
      assert AddedIds(from, to)[0] in AddedIds(from, to);
    }
  }

  /** A case reports no evidence delta exactly when all three sets of ids are the same in both runs. */
  lemma NoDeltaIff(b: Record, c: Record)
    ensures Between(b, c) == NO_DELTA <==>
      SameIds(b.counted, c.counted) && SameIds(b.discounted, c.discounted) && SameIds(b.missing, c.missing)
  {
    NothingAdded(b.counted, c.counted);
    NothingAdded(c.counted, b.counted);
    NothingAdded(b.discounted, c.discounted);
    NothingAdded(c.discounted, b.discounted);
    NothingAdded(b.missing, c.missing);
    NothingAdded(c.missing, b.missing);
  }
}
