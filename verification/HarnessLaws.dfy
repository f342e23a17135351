/** What a prediction may depend on, said of the trajectory alone. */
module HarnessLaws {
  import opened Prelude
  import opened Lists
  import opened Sorting
  import opened Harness

  /** Evidence with this id was delivered by a disabled sensor. */
  predicate Hidden(pool: seq<Evidence>, disabled: set<string>, id: nat) {
    exists i | 0 <= i < |pool| :: pool[i].id == id && pool[i].source.Some? && pool[i].source.value.sensor in disabled
  }

  lemma HiddenIsExcluded(pool: seq<Evidence>, disabled: set<string>, id: nat)
    ensures Hidden(pool, disabled, id) <==> id in ExcludedIds(pool, disabled)
  {
  }

  function VisibleLinks(t: Trajectory, disabled: set<string>): seq<Link> {
    Filter(t.graph.links, (l: Link) => !Hidden(t.pool, disabled, l.evidenceId))
  }

  function VisiblePool(t: Trajectory, disabled: set<string>): seq<Evidence> {
    Filter(t.pool, (e: Evidence) => !Hidden(t.pool, disabled, e.id))
  }

  /** The rest of the input, also when nothing is disabled and nothing is filtered. */
  lemma {:induction false} AblateLeaves(t: Trajectory, disabled: set<string>)
    ensures var (pool, graph, removed) := Ablate(t.pool, t.graph, disabled);
      && pool == VisiblePool(t, disabled) && graph == Graph(VisibleLinks(t, disabled), t.graph.missing)
      && (removed <==> exists e :: e in t.pool && e.source.Some? && e.source.value.sensor in disabled)
  {
    var excluded := ExcludedIds(t.pool, disabled);
    forall id
      ensures Hidden(t.pool, disabled, id) <==> id in excluded
    {
      HiddenIsExcluded(t.pool, disabled, id);
    }
    FilterSame(t.pool, (e: Evidence) => e.id !in excluded, (e: Evidence) => !Hidden(t.pool, disabled, e.id));
    FilterSame(t.graph.links, (l: Link) => l.evidenceId !in excluded,
               (l: Link) => !Hidden(t.pool, disabled, l.evidenceId));
    if disabled == {} {
      FilterAll(t.pool, (e: Evidence) => !Hidden(t.pool, disabled, e.id));
      FilterAll(t.graph.links, (l: Link) => !Hidden(t.pool, disabled, l.evidenceId));
    }
    if excluded != {} {
      var id :| id in excluded;
      var i :| 0 <= i < |t.pool| && FromDisabled(t.pool[i], disabled) && t.pool[i].id == id;
      assert t.pool[i] in t.pool;
    }
    forall e | e in t.pool && e.source.Some? && e.source.value.sensor in disabled
      ensures excluded != {} && disabled != {}
    {
      var i :| 0 <= i < |t.pool| && t.pool[i] == e;
      assert FromDisabled(t.pool[i], disabled) && e.id in excluded;
    }
  }

  // ----- what the policies are given

  /** A policy that reports what it was given. */
  function Reporting(): Policies {
    Policies((claim: nat, graph: Graph, pool: seq<Evidence>) =>
               Fused(NoVerdict, claim, Map(graph.links, (l: Link) => l.evidenceId),
                     Map(pool, (e: Evidence) => e.id), Map(graph.links, (l: Link) => l.body)),
             (fused, risk) => if risk == Strict then Block else if risk == Balanced then Review else Proceed)
  }

  lemma {:induction false} FilterOfMap<T, U>(s: seq<T>, f: T -> U, keep: T -> bool, also: U -> bool)
    requires forall x | x in s :: keep(x) == also(f(x))
    ensures Map(Filter(s, keep), f) == Filter(Map(s, f), also)
  {
    if s != [] {
      assert s[0] in s && forall x | x in s[1..] :: x in s;
      FilterOfMap(s[1..], f, keep, also);
      var rest := Filter(s[1..], keep);
      assert keep(s[0]) ==> ([s[0]] + rest)[1..] == rest;
      assert [] + rest == rest;
      assert Map(s, f)[1..] == Map(s[1..], f);
    }
  }

  /** The policies are given the links and the evidence whose ids no disabled sensor delivered, all of them,
      in order, and the risk class of the configuration. */
  lemma {:induction false} GivenTheRest(t: Trajectory, config: Config)
    ensures var r := Predict(t, config, Reporting());
      && r.counted == Filter(Map(t.graph.links, (l: Link) => l.evidenceId),
                             (id: nat) => !Hidden(t.pool, config.disabled, id))
      && r.discounted == Filter(Map(t.pool, (e: Evidence) => e.id),
                                (id: nat) => !Hidden(t.pool, config.disabled, id))
      && r.uncertainty == t.claim
      && (r.action == Block <==> config.risk == Strict) && (r.action == Proceed <==> config.risk == Lenient)
  {
    AblateLeaves(t, config.disabled);
    FilterOfMap(t.graph.links, (l: Link) => l.evidenceId,
                (l: Link) => !Hidden(t.pool, config.disabled, l.evidenceId),
                (id: nat) => !Hidden(t.pool, config.disabled, id));
    FilterOfMap(t.pool, (e: Evidence) => e.id,
                (e: Evidence) => !Hidden(t.pool, config.disabled, e.id),
                (id: nat) => !Hidden(t.pool, config.disabled, id));
  }

  /** Two records that say the same, whatever was available. */
  predicate SaySame(a: Record, b: Record) {
    && a.verdict == b.verdict && a.action == b.action && a.uncertainty == b.uncertainty
    && a.counted == b.counted && a.discounted == b.discounted && a.missing == b.missing
  }

  /** Trajectories that agree on the claim, the noted gaps and everything outside the hidden evidence get the
      same verdict, action and id lists, whatever the policies. */
  lemma {:induction false} HiddenCannotMatter(t: Trajectory, u: Trajectory, config: Config, policies: Policies)
    requires t.claim == u.claim && t.graph.missing == u.graph.missing
    requires VisibleLinks(t, config.disabled) == VisibleLinks(u, config.disabled)
    requires VisiblePool(t, config.disabled) == VisiblePool(u, config.disabled)
    ensures SaySame(Predict(t, config, policies), Predict(u, config, policies))
  {
    AblateLeaves(t, config.disabled);
    AblateLeaves(u, config.disabled);
  }

  /** In particular a link to hidden evidence, wherever it stands. */
  lemma {:induction false} HiddenLinkIgnored(
    t: Trajectory, i: nat, l: Link, config: Config, policies: Policies, u: Trajectory
  )
    requires i <= |t.graph.links| && Hidden(t.pool, config.disabled, l.evidenceId)
    requires u == t.(graph := t.graph.(links := t.graph.links[..i] + ([l] + t.graph.links[i..])))
    ensures SaySame(Predict(t, config, policies), Predict(u, config, policies))
  {
    var keep := (l: Link) => !Hidden(t.pool, config.disabled, l.evidenceId);
    FilterInserted(t.graph.links, i, l, keep);
    assert VisibleLinks(u, config.disabled) == VisibleLinks(t, config.disabled);
    HiddenCannotMatter(t, u, config, policies);
  }

  lemma {:induction false} FilterInserted<T>(s: seq<T>, i: nat, x: T, keep: T -> bool)
    requires i <= |s| && !keep(x)
    ensures Filter(s[..i] + ([x] + s[i..]), keep) == Filter(s, keep)
  {
    assert s == s[..i] + s[i..];
    FilterAppend(s[..i], s[i..], keep);
    FilterAppend(s[..i], [x] + s[i..], keep);
    assert ([x] + s[i..])[1..] == s[i..];
  }

  /** And a piece of evidence from a disabled sensor, wherever it stands, when its id is its own. */
  lemma {:induction false} HiddenEvidenceIgnored(
    t: Trajectory, i: nat, e: Evidence, config: Config, policies: Policies, u: Trajectory
  )
    requires i <= |t.pool| && e.source.Some? && e.source.value.sensor in config.disabled
    requires forall x | x in t.pool :: x.id != e.id
    requires forall l | l in t.graph.links :: l.evidenceId != e.id
    requires u == t.(pool := t.pool[..i] + ([e] + t.pool[i..]))
    ensures SaySame(Predict(t, config, policies), Predict(u, config, policies))
  {
    var off := config.disabled;
    forall id
      ensures Hidden(u.pool, off, id) <==> Hidden(t.pool, off, id) || id == e.id
    {
      HiddenInserted(t.pool, i, e, off, id, u.pool);
    }
    var keep, also := (x: Evidence) => !Hidden(t.pool, off, x.id), (x: Evidence) => !Hidden(u.pool, off, x.id);
    FilterInserted(t.pool, i, e, also);
    FilterSame(t.pool, keep, also);
    FilterSame(t.graph.links, (l: Link) => !Hidden(t.pool, off, l.evidenceId),
               (l: Link) => !Hidden(u.pool, off, l.evidenceId));
    HiddenCannotMatter(t, u, config, policies);
  }

  lemma {:induction false} HiddenInserted(
    pool: seq<Evidence>, i: nat, e: Evidence, off: set<string>, id: nat, longer: seq<Evidence>
  )
    requires i <= |pool| && e.source.Some? && e.source.value.sensor in off
    requires longer == pool[..i] + ([e] + pool[i..])
    ensures Hidden(longer, off, id) <==> Hidden(pool, off, id) || id == e.id
  {
    assert longer[i] == e;
    forall k | 0 <= k < |pool|
      ensures pool[k] == longer[if k < i then k else k + 1]
    {
    }
    forall k | 0 <= k < |longer| && k != i
      ensures longer[k] == pool[if k < i then k else k - 1]
    {
    }
  }

  /** A record holds what fusing the visible part gives and the decision on it under the configured risk class;
      everything else in it is the trajectory's own. */
  lemma {:induction false} RecordIs(t: Trajectory, config: Config, policies: Policies)
    ensures var r := Predict(t, config, policies);
      && r.id == t.id && r.claim == t.claim && r.expected == t.expected
      && r.critical == t.critical && r.synthetic == t.synthetic
      && Fused(r.verdict, r.uncertainty, r.counted, r.discounted, r.missing)
         == policies.fuse(t.claim, Graph(VisibleLinks(t, config.disabled), t.graph.missing),
                          VisiblePool(t, config.disabled))
      && r.action == policies.decide(Fused(r.verdict, r.uncertainty, r.counted, r.discounted, r.missing), config.risk)
      && (r.ablated <==> exists e :: e in t.pool && e.source.Some? && e.source.value.sensor in config.disabled)
  {
    AblateLeaves(t, config.disabled);
  }

  /** When a trajectory is unavailable, read off the trajectory itself: some gap is noted as neither available nor
      unknown, or a link points at no evidence at all, or some evidence is hidden and every link points at such. */
  lemma {:induction false} UnavailableMeans(t: Trajectory, config: Config, policies: Policies)
    ensures Predict(t, config, policies).unavailable <==>
      || (exists a :: a in t.graph.missing && a != Available && a != NotKnown && !a.Unrecognized?)
      || (exists l :: l in t.graph.links && forall e | e in t.pool :: e.id != l.evidenceId)
      || ((exists e :: e in t.pool && Hidden(t.pool, config.disabled, e.id))
          && forall l | l in t.graph.links :: Hidden(t.pool, config.disabled, l.evidenceId))
  {
    UnavailableIff(t, config, policies);
    ConcernIff(t.graph);
    DanglingIff(t.graph, t.pool);
    AllHiddenIff(t, config.disabled);
  }

  lemma ConcernIff(g: Graph)
    ensures HasConcern(g) <==> exists a :: a in g.missing && a != Available && a != NotKnown && !a.Unrecognized?
  {
    if HasConcern(g) {
      var i :| 0 <= i < |g.missing| && Concerning(g.missing[i]);
      assert g.missing[i] in g.missing;
    }
    forall a | a in g.missing && a != Available && a != NotKnown && !a.Unrecognized?
      ensures HasConcern(g)
    {
      var i :| 0 <= i < |g.missing| && g.missing[i] == a;
      assert Concerning(g.missing[i]);
    }
  }

  lemma InPoolIff(pool: seq<Evidence>, id: nat)
    ensures InPool(pool, id) <==> exists e :: e in pool && e.id == id
  {
    if InPool(pool, id) {
      var j :| 0 <= j < |pool| && pool[j].id == id;
      assert pool[j] in pool;
    }
  }

  lemma DanglingIff(g: Graph, pool: seq<Evidence>)
    ensures Dangling(g, pool) <==> exists l :: l in g.links && forall e | e in pool :: e.id != l.evidenceId
  {
    if Dangling(g, pool) {
      var i :| 0 <= i < |g.links| && !InPool(pool, g.links[i].evidenceId);
      InPoolIff(pool, g.links[i].evidenceId);
      assert g.links[i] in g.links;
    }
    forall l | l in g.links && forall e | e in pool :: e.id != l.evidenceId
      ensures Dangling(g, pool)
    {
      var i :| 0 <= i < |g.links| && g.links[i] == l;
      InPoolIff(pool, l.evidenceId);
      assert !InPool(pool, g.links[i].evidenceId);
    }
  }

  lemma {:induction false} AllHiddenIff(t: Trajectory, disabled: set<string>)
    ensures ExcludedIds(t.pool, disabled) != {} <==> exists e :: e in t.pool && Hidden(t.pool, disabled, e.id)
    ensures AllExcluded(t.graph, ExcludedIds(t.pool, disabled)) <==>
            forall l | l in t.graph.links :: Hidden(t.pool, disabled, l.evidenceId)
  {
    forall id
      ensures Hidden(t.pool, disabled, id) <==> id in ExcludedIds(t.pool, disabled)
    {
      HiddenIsExcluded(t.pool, disabled, id);
    }
    if ExcludedIds(t.pool, disabled) != {} {
      var id :| id in ExcludedIds(t.pool, disabled);
      var i :| 0 <= i < |t.pool| && FromDisabled(t.pool[i], disabled) && t.pool[i].id == id;
      assert t.pool[i] in t.pool;
    }
    if forall l | l in t.graph.links :: Hidden(t.pool, disabled, l.evidenceId) {
      forall i | 0 <= i < |t.graph.links|
        ensures t.graph.links[i].evidenceId in ExcludedIds(t.pool, disabled)
      {
        assert t.graph.links[i] in t.graph.links;
      }
    }
  }

  // ----- the run

  /** Every row is predicted once, and the records stand in ascending order of their ids. */
  lemma {:induction false} RunsEveryRow(dataset: seq<Trajectory>, config: Config, policies: Policies)
    ensures var rs := RunHarness(dataset, config, policies);
      && |rs| == |dataset|
      && multiset(rs) == multiset(Map(dataset, t => Predict(t, config, policies)))
      && forall i, j | 0 <= i < j < |rs| :: StringLe(rs[i].id, rs[j].id)
  {
    IdSound();
    SortSorts(dataset, IdLe);
    SortKeeps(dataset, IdLe);
    MappedReordered(Sort(dataset, IdLe), dataset, t => Predict(t, config, policies));
  }
}
