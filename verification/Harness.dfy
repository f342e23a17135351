/** Running a labelled dataset through the policies, with sensors switched off. */
module Harness {
  import opened Prelude
  import opened Lists
  import opened Sorting

  datatype Provider = ClaudeCode | Codex | OpenCode | Unknown

  datatype Source = Source(sensor: string, provider: Option<Provider>)

  /** Ids stand for UUIDs; `body` for everything only the policies look at. */
  datatype Evidence = Evidence(id: nat, source: Option<Source>, body: nat)

  datatype Link = Link(evidenceId: nat, body: nat)

  datatype Availability =
    | Available | Unsupported | Unavailable | Redacted | CollectionFailed | Disabled | NotKnown
    | Unrecognized(name: string)

  datatype Graph = Graph(links: seq<Link>, missing: seq<Availability>)

  datatype Verdict = Verified | Unverified | Contradicted | ToReview | NoVerdict

  datatype Action = Proceed | Review | Block

  datatype RiskClass = Strict | Balanced | Lenient

  datatype Trajectory = Trajectory(
    id: string, claim: nat, graph: Graph, pool: seq<Evidence>, expected: Verdict, critical: bool, synthetic: bool)

  datatype Fused = Fused(verdict: Verdict, uncertainty: nat, counted: seq<nat>, discounted: seq<nat>, missing: seq<nat>)

  /** The fusion and decision policies, of which nothing is assumed. */
  datatype Policies = Policies(fuse: (nat, Graph, seq<Evidence>) -> Fused, decide: (Fused, RiskClass) -> Action)

  datatype Config = Config(disabled: set<string>, risk: RiskClass)

  datatype Record = Record(
    id: string, claim: nat, verdict: Verdict, action: Action, expected: Verdict, critical: bool,
    uncertainty: nat, counted: seq<nat>, discounted: seq<nat>, missing: seq<nat>,
    unavailable: bool, ablated: bool, synthetic: bool)

  predicate Concerning(a: Availability) {
    a.Unsupported? || a.Unavailable? || a.CollectionFailed? || a.Redacted? || a.Disabled?
  }

  predicate FromDisabled(e: Evidence, disabled: set<string>) {
    e.source.Some? && e.source.value.sensor in disabled
  }

  /** The ids of all evidence that a disabled sensor delivered. */
  function ExcludedIds(pool: seq<Evidence>, disabled: set<string>): set<nat> {
    set i | 0 <= i < |pool| && FromDisabled(pool[i], disabled) :: pool[i].id
  }

  /** Pool and graph without the evidence of disabled sensors, and whether anything went. */
  function Ablate(pool: seq<Evidence>, graph: Graph, disabled: set<string>): (seq<Evidence>, Graph, bool) {
    if disabled == {} then (pool, graph, false)
    else
      var excluded := ExcludedIds(pool, disabled);
      (Filter(pool, (e: Evidence) => e.id !in excluded),
       graph.(links := Filter(graph.links, (l: Link) => l.evidenceId !in excluded)),
       excluded != {})
  }

  predicate HasConcern(g: Graph) {
    exists i | 0 <= i < |g.missing| :: Concerning(g.missing[i])
  }

  predicate InPool(pool: seq<Evidence>, id: nat) {
    exists j | 0 <= j < |pool| :: pool[j].id == id
  }

  /** Some link points at evidence that is not there. */
  predicate Dangling(g: Graph, pool: seq<Evidence>) {
    exists i | 0 <= i < |g.links| :: !InPool(pool, g.links[i].evidenceId)
  }

  /** Whether the evidence a trajectory needs could not be resolved, judged from the inputs alone. */
  predicate EvidenceUnavailable(graph: Graph, pool: seq<Evidence>, removed: bool) {
    HasConcern(graph) || Dangling(graph, pool) || (removed && graph.links == [])
  }

  function Predict(t: Trajectory, config: Config, policies: Policies): Record {
    var (pool, graph, removed) := Ablate(t.pool, t.graph, config.disabled);
    var fused := policies.fuse(t.claim, graph, pool);
    Record(t.id, t.claim, fused.verdict, policies.decide(fused, config.risk), t.expected, t.critical,
           fused.uncertainty, fused.counted, fused.discounted, fused.missing,
           EvidenceUnavailable(graph, pool, removed), removed, t.synthetic)
  }

  predicate IdLe(a: Trajectory, b: Trajectory) {
    StringLe(a.id, b.id)
  }

  function RunHarness(dataset: seq<Trajectory>, config: Config, policies: Policies): seq<Record> {
    Map(Sort(dataset, IdLe), t => Predict(t, config, policies))
  }

  // ----- the order of the rows does not matter

  lemma IdSound()
    ensures Sound(IdLe)
  {
    forall x: Trajectory, y: Trajectory
      ensures IdLe(x, y) || IdLe(y, x)
    {
      StringTotal(x.id, y.id);
    }
    forall x: Trajectory, y: Trajectory, z: Trajectory | IdLe(x, y) && IdLe(y, z)
      ensures IdLe(x, z)
    {
      StringTransitive(x.id, y.id, z.id);
    }
  }

  /** The rows with one id, in order. */
  function WithId(rows: seq<Trajectory>, id: string): seq<Trajectory> {
    Filter(rows, (t: Trajectory) => t.id == id)
  }

  /** Rows with the same id keep their order when a row is inserted before its first equal. */
  lemma {:induction false} InsertIsStable(x: Trajectory, s: seq<Trajectory>, id: string)
    ensures WithId(Insert(x, s, IdLe), id) == (if x.id == id then [x] else []) + WithId(s, id)
  {
    if s != [] && !IdLe(x, s[0]) {
      InsertIsStable(x, s[1..], id);
      StringTotal(x.id, s[0].id);
      var rest := Insert(x, s[1..], IdLe);
      assert ([s[0]] + rest)[1..] == rest;
    } else {
      assert ([x] + s)[1..] == s;
    }
  }

  lemma {:induction false} SortIsStable(s: seq<Trajectory>, id: string)
    ensures WithId(Sort(s, IdLe), id) == WithId(s, id)
  {
    if s != [] {
      SortIsStable(s[1..], id);
      InsertIsStable(s[0], Sort(s[1..], IdLe), id);
    }
  }

  lemma InWithId(s: seq<Trajectory>, t: Trajectory, id: string)
    ensures t in WithId(s, id) <==> t in s && t.id == id
  {
    FilterKeeps(s, (u: Trajectory) => u.id == id, t);
  }

  ghost predicate SameById(a: seq<Trajectory>, b: seq<Trajectory>) {
    forall id :: WithId(a, id) == WithId(b, id)
  }

  /** Sorted rows begin with a row whose id occurs wherever the same rows occur. */
  lemma FirstIdLeast(a: seq<Trajectory>, b: seq<Trajectory>)
    requires Sorted(a, IdLe) && SameById(a, b) && a != [] && b != []
    ensures StringLe(a[0].id, b[0].id)
  {
    IdSound();
    FirstIsLeast(a, IdLe);
    InWithId(b, b[0], b[0].id);
    InWithId(a, b[0], b[0].id);
  }

  lemma NoRows(a: seq<Trajectory>, b: seq<Trajectory>)
    requires SameById(a, b) && a == []
    ensures b == []
  {
    if b != [] {
      InWithId(b, b[0], b[0].id);
      InWithId(a, b[0], b[0].id);
    }
  }

  lemma RestWithId(a: seq<Trajectory>, id: string)
    requires a != []
    ensures WithId(a, id) == (if a[0].id == id then [a[0]] else []) + WithId(a[1..], id)
  {
  }

  lemma SameRest(a: seq<Trajectory>, b: seq<Trajectory>)
    requires SameById(a, b) && a != [] && b != [] && a[0].id == b[0].id
    ensures a[0] == b[0] && SameById(a[1..], b[1..])
  {
    forall id
      ensures WithId(a[1..], id) == WithId(b[1..], id)
      ensures id == a[0].id ==> a[0] == b[0]
    {
      assert WithId(a, id) == WithId(b, id);
      RestWithId(a, id);
      RestWithId(b, id);
      SameTails(WithId(a, id), a[0], WithId(a[1..], id), b[0], WithId(b[1..], id), a[0].id == id);
    }
    assert WithId(a[1..], a[0].id) == WithId(b[1..], a[0].id);
  }

  lemma SameTails<T>(s: seq<T>, x: T, a: seq<T>, y: T, b: seq<T>, more: bool)
    requires s == (if more then [x] else []) + a == (if more then [y] else []) + b
    ensures a == b && (more ==> x == y)
  {
    if more {
      assert s[0] == x == y && s[1..] == a == b;
    } else {
      assert s == a == b;
    }
  }

  lemma {:induction false} SortedSameById(a: seq<Trajectory>, b: seq<Trajectory>)
    requires Sorted(a, IdLe) && Sorted(b, IdLe) && SameById(a, b)
    ensures a == b
  {
    if a == [] || b == [] {
      NoRowsEither(a, b);
    } else {
      FirstIdLeast(a, b);
      FirstIdLeast(b, a);
      StringTotal(a[0].id, b[0].id);
      SameRest(a, b);
      SortedSameById(a[1..], b[1..]);
      assert a == [a[0]] + a[1..] && b == [b[0]] + b[1..];
    }
  }

  lemma NoRowsEither(a: seq<Trajectory>, b: seq<Trajectory>)
    requires SameById(a, b) && (a == [] || b == [])
    ensures a == b == []
  {
    if a == [] {
      NoRows(a, b);
    } else {
      NoRows(b, a);
    }
  }

  /** Two files are run in the same order exactly when, for every id, their rows with that id agree in order. */
  lemma SameOrderIff(a: seq<Trajectory>, b: seq<Trajectory>)
    ensures Sort(a, IdLe) == Sort(b, IdLe) <==> SameById(a, b)
  {
    forall id
      ensures WithId(Sort(a, IdLe), id) == WithId(a, id) && WithId(Sort(b, IdLe), id) == WithId(b, id)
    {
      SortIsStable(a, id);
      SortIsStable(b, id);
    }
    if SameById(a, b) {
      IdSound();
      SortSorts(a, IdLe);
      SortSorts(b, IdLe);
      SortedSameById(Sort(a, IdLe), Sort(b, IdLe));
    }
  }

  /** Files whose rows agree in order for every id give the same predictions, whatever the order otherwise. */
  lemma RowOrderIrrelevant(a: seq<Trajectory>, b: seq<Trajectory>, config: Config, policies: Policies)
    requires SameById(a, b)
    ensures RunHarness(a, config, policies) == RunHarness(b, config, policies)
  {
    SameOrderIff(a, b);
  }

  ghost predicate DistinctIds(dataset: seq<Trajectory>) {
    forall x, y | x in dataset && y in dataset && x.id == y.id :: x == y
  }

  /** In particular files with the same rows in any order, when no two different rows share an id. */
  lemma DistinctRowsReordered(a: seq<Trajectory>, b: seq<Trajectory>, config: Config, policies: Policies)
    requires multiset(a) == multiset(b) && DistinctIds(a)
    ensures SameById(a, b) && RunHarness(a, config, policies) == RunHarness(b, config, policies)
  {
    IdSound();
    SortSorts(a, IdLe);
    SortSorts(b, IdLe);
    SortKeeps(a, IdLe);
    SortKeeps(b, IdLe);
    SameElements(Sort(a, IdLe), a);
    forall x, y | x in Sort(a, IdLe) && y in Sort(a, IdLe) && IdLe(x, y) && IdLe(y, x)
      ensures x == y
    {
      StringTotal(x.id, y.id);
    }
    SortedUnique(Sort(a, IdLe), Sort(b, IdLe), IdLe);
    SameOrderIff(a, b);
  }

  /** Two different rows with one id do keep the order of the file: swapping them swaps their predictions. */
  lemma RowOrderMatters(t: Trajectory, u: Trajectory, config: Config, policies: Policies)
    requires t.id == u.id && t.expected != u.expected
    ensures RunHarness([t, u], config, policies) != RunHarness([u, t], config, policies)
  {
    TwoRowsKept(t, u);
    TwoRowsKept(u, t);
    assert RunHarness([t, u], config, policies)[0].expected == t.expected;
    assert RunHarness([u, t], config, policies)[0].expected == u.expected;
  }

  /** A policy that verifies what one row holds and nothing else. */
  function Singling(t: Trajectory): Policies {
    Policies((claim, graph, pool) =>
               Fused(if claim == t.claim && graph == t.graph && pool == t.pool then Verified else Unverified,
                     0, [], [], []),
             (fused, risk) => Proceed)
  }

  const ALL_SENSORS := Config({}, Balanced)

  lemma RowsTold(t: Trajectory, u: Trajectory)
    requires Predict(t, ALL_SENSORS, Singling(t)) == Predict(u, ALL_SENSORS, Singling(t))
    ensures t == u
  {
    assert Predict(t, ALL_SENSORS, Singling(t)).verdict == Verified;
    assert Predict(u, ALL_SENSORS, Singling(t)).verdict == Verified;
  }

  lemma SameRunsSameRows(a: seq<Trajectory>, b: seq<Trajectory>, i: nat)
    requires forall config, policies :: RunHarness(a, config, policies) == RunHarness(b, config, policies)
    requires i < |Sort(a, IdLe)|
    ensures i < |Sort(b, IdLe)| && Sort(a, IdLe)[i] == Sort(b, IdLe)[i]
  {
    var x, y := Sort(a, IdLe), Sort(b, IdLe);
    var p := Singling(x[i]);
    assert RunHarness(a, ALL_SENSORS, p) == RunHarness(b, ALL_SENSORS, p);
    assert RunHarness(a, ALL_SENSORS, p)[i] == Predict(x[i], ALL_SENSORS, p);
    assert RunHarness(b, ALL_SENSORS, p)[i] == Predict(y[i], ALL_SENSORS, p);
    RowsTold(x[i], y[i]);
  }

  /** The promise as it stands: two files give the same predictions under every configuration and all policies if and
      only if, for every id, their rows with that id agree in order. */
  lemma RowOrderIff(a: seq<Trajectory>, b: seq<Trajectory>)
    ensures (forall config, policies :: RunHarness(a, config, policies) == RunHarness(b, config, policies))
       <==> SameById(a, b)
  {
    if SameById(a, b) {
      forall config, policies
        ensures RunHarness(a, config, policies) == RunHarness(b, config, policies)
      {
        RowOrderIrrelevant(a, b, config, policies);
      }
    } else if forall config, policies :: RunHarness(a, config, policies) == RunHarness(b, config, policies) {
      var p := Policies((claim, graph, pool) => Fused(Verified, 0, [], [], []), (fused, risk) => Proceed);
      assert |RunHarness(a, ALL_SENSORS, p)| == |RunHarness(b, ALL_SENSORS, p)|;
      forall i | 0 <= i < |Sort(a, IdLe)|
        ensures Sort(a, IdLe)[i] == Sort(b, IdLe)[i]
      {
        SameRunsSameRows(a, b, i);
      }
      SameOrderIff(a, b);
      assert false;
    }
  }

  lemma TwoRowsKept(t: Trajectory, u: Trajectory)
    requires t.id == u.id
    ensures Sort([t, u], IdLe) == [t, u]
  {
    StringTotal(t.id, u.id);
    var s := [t, u];
    assert s[1..] == [u] && [u][1..] == [];
    assert Sort([u], IdLe) == [u];
  }

  // ----- switching a sensor off can only take evidence away

  predicate AllExcluded(g: Graph, excluded: set<nat>) {
    forall i | 0 <= i < |g.links| :: g.links[i].evidenceId in excluded
  }

  lemma PoolKept(pool: seq<Evidence>, excluded: set<nat>, id: nat)
    ensures InPool(Filter(pool, (e: Evidence) => e.id !in excluded), id) <==> InPool(pool, id) && id !in excluded
  {
    var keep := (e: Evidence) => e.id !in excluded;
    var kept := Filter(pool, keep);
    if InPool(kept, id) {
      var j :| 0 <= j < |kept| && kept[j].id == id;
      FilterKeeps(pool, keep, kept[j]);
      assert kept[j] in pool;
    }
    if InPool(pool, id) && id !in excluded {
      var j :| 0 <= j < |pool| && pool[j].id == id;
      FilterKeeps(pool, keep, pool[j]);
      var k :| 0 <= k < |kept| && kept[k] == pool[j];
    }
  }

  lemma DanglingKept(g: Graph, pool: seq<Evidence>, excluded: set<nat>)
    requires forall id | id in excluded :: InPool(pool, id)
    ensures var links := Filter(g.links, (l: Link) => l.evidenceId !in excluded);
      Dangling(g.(links := links), Filter(pool, (e: Evidence) => e.id !in excluded)) <==> Dangling(g, pool)
  {
    var keep := (l: Link) => l.evidenceId !in excluded;
    var links := Filter(g.links, keep);
    var kept := Filter(pool, (e: Evidence) => e.id !in excluded);
    if Dangling(g.(links := links), kept) {
      var i :| 0 <= i < |links| && !InPool(kept, links[i].evidenceId);
      FilterKeeps(g.links, keep, links[i]);
      PoolKept(pool, excluded, links[i].evidenceId);
      var k :| 0 <= k < |g.links| && g.links[k] == links[i];
      assert !InPool(pool, g.links[k].evidenceId);
    }
    if Dangling(g, pool) {
      var i :| 0 <= i < |g.links| && !InPool(pool, g.links[i].evidenceId);
      FilterKeeps(g.links, keep, g.links[i]);
      PoolKept(pool, excluded, g.links[i].evidenceId);
      var k :| 0 <= k < |links| && links[k] == g.links[i];
      assert !InPool(kept, links[k].evidenceId);
    }
  }

  lemma NoLinksLeft(g: Graph, excluded: set<nat>)
    ensures Filter(g.links, (l: Link) => l.evidenceId !in excluded) == [] <==> AllExcluded(g, excluded)
  {
    var keep := (l: Link) => l.evidenceId !in excluded;
    var links := Filter(g.links, keep);
    if links != [] {
      FilterKeeps(g.links, keep, links[0]);
      var k :| 0 <= k < |g.links| && g.links[k] == links[0];
      assert g.links[k].evidenceId !in excluded;
    } else {
      forall i | 0 <= i < |g.links|
        ensures g.links[i].evidenceId in excluded
      {
        FilterKeeps(g.links, keep, g.links[i]);
      }
    }
  }

  /** A trajectory is unavailable exactly when a concern was noted, a link never had its evidence, or
      some disabled sensor delivered evidence and every link pointed at such evidence. */
  lemma UnavailableIff(t: Trajectory, config: Config, policies: Policies)
    ensures Predict(t, config, policies).unavailable <==>
      || HasConcern(t.graph)
      || Dangling(t.graph, t.pool)
      || (ExcludedIds(t.pool, config.disabled) != {} && AllExcluded(t.graph, ExcludedIds(t.pool, config.disabled)))
  {
    var excluded := ExcludedIds(t.pool, config.disabled);
    var (pool, graph, removed) := Ablate(t.pool, t.graph, config.disabled);
    if config.disabled == {} {
      assert excluded == {};
    } else {
      forall id | id in excluded
        ensures InPool(t.pool, id)
      {
      }
      DanglingKept(t.graph, t.pool, excluded);
      NoLinksLeft(t.graph, excluded);
    }
  }

  /** Disabling more sensors never makes an unavailable trajectory available. */
  lemma UnavailableIsMonotone(t: Trajectory, few: Config, many: Config, policies: Policies)
    requires few.disabled <= many.disabled && Predict(t, few, policies).unavailable
    ensures Predict(t, many, policies).unavailable
  {
    UnavailableIff(t, few, policies);
    UnavailableIff(t, many, policies);
    assert ExcludedIds(t.pool, few.disabled) <= ExcludedIds(t.pool, many.disabled);
  }

  /** Sensors that delivered nothing to a trajectory can be disabled without any effect on its prediction:
      the policies see the same inputs. */
  lemma IdleSensorsChangeNothing(t: Trajectory, config: Config, policies: Policies)
    requires ExcludedIds(t.pool, config.disabled) == {}
    ensures Predict(t, config, policies) == Predict(t, config.(disabled := {}), policies)
  {
    FilterAll(t.pool, (e: Evidence) => e.id !in ExcludedIds(t.pool, config.disabled));
    FilterAll(t.graph.links, (l: Link) => l.evidenceId !in ExcludedIds(t.pool, config.disabled));
  }
}
