/** Breaking a dataset down by sensor and by provider. */
module Slices {
  import opened Prelude
  import opened Lists
  import opened Sorting
  import opened Harness

  datatype Key = Overall | Sensor(name: string) | ByProvider(provider: Provider)

  datatype Slice = Slice(key: Key, ids: seq<string>)

  function ProviderText(p: Provider): string {
    match p
    case ClaudeCode => "ClaudeCode"
    case Codex => "Codex"
    case OpenCode => "OpenCode"
    case Unknown => "Unknown"
  }

  function Label(key: Key): string {
    match key
    case Overall => "overall"
    case Sensor(name) => "sensor:" + name
    case ByProvider(p) => "provider:" + ProviderText(p)
  }

  predicate LabelLe(a: Slice, b: Slice) {
    StringLe(Label(a.key), Label(b.key))
  }

  /** The keys of the providers in a pool, one for each piece of evidence that names one. */
  function ProviderKeys(pool: seq<Evidence>): seq<Key> {
    if pool == [] then []
    else ProviderKeys(pool[..|pool| - 1]) + ProviderKey(pool[|pool| - 1])
  }

  function ProviderKey(e: Evidence): seq<Key> {
    if e.source.Some? && e.source.value.provider.Some? then [ByProvider(e.source.value.provider.value)] else []
  }

  /** The names of the sensors in a pool, one for each piece of evidence that names one. */
  function SensorNames(pool: seq<Evidence>): seq<string> {
    if pool == [] then []
    else SensorNames(pool[..|pool| - 1]) + SensorName(pool[|pool| - 1])
  }

  function SensorKeys(names: seq<string>): seq<Key> {
    if names == [] then [] else SensorKeys(names[..|names| - 1]) + [Sensor(names[|names| - 1])]
  }

  function SensorName(e: Evidence): seq<string> {
    if e.source.Some? then [e.source.value.sensor] else []
  }

  /** The slices a trajectory belongs to besides the overall one. */
  function KeysOf(t: Trajectory): seq<Key> {
    ProviderKeys(t.pool) + SensorKeys(TreeOf(SensorNames(t.pool)))
  }

  predicate Belongs(t: Trajectory, key: Key) {
    key == Overall || key in KeysOf(t)
  }

  function IdsIn(ts: seq<Trajectory>, key: Key): seq<string> {
    if ts == [] then []
    else IdsIn(ts[..|ts| - 1], key) + if Belongs(ts[|ts| - 1], key) then [ts[|ts| - 1].id] else []
  }

  /** The ids of a slice: all of them with repetition for the overall slice, else as an ordered set. */
  function Members(ts: seq<Trajectory>, key: Key): seq<string> {
    if key == Overall then Sort(IdsIn(ts, key), StringLe) else TreeOf(IdsIn(ts, key))
  }

  predicate Occurs(ts: seq<Trajectory>, key: Key) {
    key == Overall || exists i | 0 <= i < |ts| :: key in KeysOf(ts[i])
  }

  // ----- the tables the loops fill

  type Table = map<Key, seq<string>>

  function Row(table: Table, key: Key): seq<string> {
    if key in table then table[key] else []
  }

  function Enter(table: Table, key: Key, id: string): Table {
    table[key := TreeInsert(id, Row(table, key))]
  }

  /** The table with an id entered under every one of some keys. */
  function EnterAll(table: Table, keys: seq<Key>, id: string): Table {
    if keys == [] then table else Enter(EnterAll(table, keys[..|keys| - 1], id), keys[|keys| - 1], id)
  }

  function Tabulated(ts: seq<Trajectory>): Table {
    if ts == [] then map[] else EnterAll(Tabulated(ts[..|ts| - 1]), KeysOf(ts[|ts| - 1]), ts[|ts| - 1].id)
  }

  lemma {:induction false} EnterTwice(x: string, s: seq<string>)
    ensures TreeInsert(x, TreeInsert(x, s)) == TreeInsert(x, s)
  {
    if s != [] && x != s[0] && !StringLe(x, s[0]) {
      EnterTwice(x, s[1..]);
      var r := TreeInsert(x, s);
      assert r[0] == s[0] && r[1..] == TreeInsert(x, s[1..]);
    }
  }

  /** Entering an id under a key any number of times is entering it once. */
  lemma {:induction false} EnterAllIs(table: Table, keys: seq<Key>, id: string, key: Key)
    ensures key in EnterAll(table, keys, id) <==> key in table || key in keys
    ensures Row(EnterAll(table, keys, id), key)
         == if key in keys then TreeInsert(id, Row(table, key)) else Row(table, key)
  {
    if keys != [] {
      var front, last := keys[..|keys| - 1], keys[|keys| - 1];
      EnterAllIs(table, front, id, key);
      EnterTwice(id, Row(table, key));
      assert keys == front + [last];
    }
  }

  lemma {:induction false} EnterAllAppend(table: Table, a: seq<Key>, b: seq<Key>, id: string)
    ensures EnterAll(table, a + b, id) == EnterAll(EnterAll(table, a, id), b, id)
  {
    if b == [] {
      assert a + b == a;
    } else {
      EnterAllAppend(table, a, b[..|b| - 1], id);
      assert (a + b)[..|a + b| - 1] == a + b[..|b| - 1];
    }
  }

  method EnterProviders(table: Table, t: Trajectory) returns (r: Table, sensors: seq<string>)
    ensures r == EnterAll(table, ProviderKeys(t.pool), t.id) && sensors == TreeOf(SensorNames(t.pool))
  {
    r, sensors := table, [];
    for j := 0 to |t.pool|
      invariant r == EnterAll(table, ProviderKeys(t.pool[..j]), t.id) && sensors == TreeOf(SensorNames(t.pool[..j]))
    {
      var e := t.pool[j];
      assert t.pool[..j + 1][..j] == t.pool[..j];
      EnterAllAppend(table, ProviderKeys(t.pool[..j]), ProviderKey(e), t.id);
      TreeAppend(SensorNames(t.pool[..j]), SensorName(e));
      if e.source.Some? {
        sensors := TreeInsert(e.source.value.sensor, sensors);
        if e.source.value.provider.Some? {
          r := Enter(r, ByProvider(e.source.value.provider.value), t.id);
        }
      }
    }
    assert t.pool[..|t.pool|] == t.pool;
  }

  lemma {:induction false} TreeAppend(names: seq<string>, more: seq<string>)
    requires |more| <= 1
    ensures TreeOf(names + more) == if more == [] then TreeOf(names) else TreeInsert(more[0], TreeOf(names))
  {
    if more == [] {
      assert names + more == names;
    } else {
      assert (names + more)[..|names|] == names;
    }
  }

  method EnterSensors(table: Table, sensors: seq<string>, id: string) returns (r: Table)
    ensures r == EnterAll(table, SensorKeys(sensors), id)
  {
    r := table;
    for j := 0 to |sensors|
      invariant r == EnterAll(table, SensorKeys(sensors[..j]), id)
    {
      NextSensor(table, sensors, j, id);
      r := Enter(r, Sensor(sensors[j]), id);
    }
    assert sensors[..|sensors|] == sensors;
  }

  lemma {:induction false} NextSensor(table: Table, sensors: seq<string>, j: nat, id: string)
    requires j < |sensors|
    ensures EnterAll(table, SensorKeys(sensors[..j + 1]), id)
         == Enter(EnterAll(table, SensorKeys(sensors[..j]), id), Sensor(sensors[j]), id)
  {
    assert sensors[..j + 1][..j] == sensors[..j];
    var keys := SensorKeys(sensors[..j]) + [Sensor(sensors[j])];
    assert keys[..|keys| - 1] == SensorKeys(sensors[..j]);
  }

  lemma NextKeys(ts: seq<Trajectory>, front: seq<Trajectory>, last: Trajectory, key: Key)
    requires ts == front + [last]
    ensures key in Tabulated(ts) <==> key in Tabulated(front) || key in KeysOf(last)
  {
    assert ts[..|ts| - 1] == front;
    EnterAllIs(Tabulated(front), KeysOf(last), last.id, key);
  }

  lemma {:induction false} TabulatedKeys(ts: seq<Trajectory>, key: Key)
    requires key != Overall
    ensures key in Tabulated(ts) <==> Occurs(ts, key)
  {
    if ts != [] {
      var front, last := ts[..|ts| - 1], ts[|ts| - 1];
      calc {
        key in Tabulated(ts);
      <==>
        { NextKeys(ts, front, last, key); }
        key in Tabulated(front) || key in KeysOf(last);
      <==>
        { TabulatedKeys(front, key); }
        Occurs(front, key) || key in KeysOf(last);
      <==>
        { OccursNext(front, last, ts, key); }
        Occurs(ts, key);
      }
    }
  }

  lemma {:induction false} TabulatedRow(ts: seq<Trajectory>, key: Key)
    requires key != Overall
    ensures Row(Tabulated(ts), key) == TreeOf(IdsIn(ts, key))
  {
    if ts != [] {
      var front, last := ts[..|ts| - 1], ts[|ts| - 1];
      TabulatedRow(front, key);
      EnterAllIs(Tabulated(front), KeysOf(last), last.id, key);
      TreeAppend(IdsIn(front, key), if Belongs(last, key) then [last.id] else []);
    }
  }

  lemma OccursNext(front: seq<Trajectory>, last: Trajectory, ts: seq<Trajectory>, key: Key)
    requires ts == front + [last] && key != Overall
    ensures Occurs(ts, key) <==> Occurs(front, key) || key in KeysOf(last)
  {
    assert ts[|front|] == last && forall i | 0 <= i < |front| :: ts[i] == front[i];
    if Occurs(front, key) {
      var i :| 0 <= i < |front| && key in KeysOf(front[i]);
      assert key in KeysOf(ts[i]);
    }
  }

  method Tabulate(ts: seq<Trajectory>) returns (table: Table)
    ensures table == Tabulated(ts)
  {
    table := map[];
    for i := 0 to |ts|
      invariant table == Tabulated(ts[..i])
    {
      assert ts[..i + 1][..i] == ts[..i];
      ghost var before := table;
      var sensors;
      table, sensors := EnterProviders(table, ts[i]);
      table := EnterSensors(table, sensors, ts[i].id);
      EnterAllAppend(before, ProviderKeys(ts[i].pool), SensorKeys(sensors), ts[i].id);
    }
    assert ts[..|ts|] == ts;
  }

  // ----- the result

  /** Exactly one slice for the overall key and for every key that occurs, with exactly its members. */
  ghost predicate Complete(slices: seq<Slice>, ts: seq<Trajectory>) {
    && (forall s | s in slices :: Occurs(ts, s.key) && s.ids == Members(ts, s.key))
    && (forall key | Occurs(ts, key) :: Slice(key, Members(ts, key)) in slices)
    && (forall i, j | 0 <= i < j < |slices| :: slices[i].key != slices[j].key)
  }

  lemma LabelSound()
    ensures Sound(LabelLe)
  {
    forall x: Slice, y: Slice
      ensures LabelLe(x, y) || LabelLe(y, x)
    {
      StringTotal(Label(x.key), Label(y.key));
    }
    forall x: Slice, y: Slice, z: Slice | LabelLe(x, y) && LabelLe(y, z)
      ensures LabelLe(x, z)
    {
      StringTransitive(Label(x.key), Label(y.key), Label(z.key));
    }
  }

  /** Everything about a list of slices that sorting keeps. */
  lemma SortedComplete(slices: seq<Slice>, ts: seq<Trajectory>)
    requires Complete(slices, ts)
    ensures Complete(Sort(slices, LabelLe), ts) && Sorted(Sort(slices, LabelLe), LabelLe)
  {
    LabelSound();
    SortSorts(slices, LabelLe);
    SortKeeps(slices, LabelLe);
    SameElements(Sort(slices, LabelLe), slices);
    KeysOnceSorted(slices, Sort(slices, LabelLe));
  }

  lemma KeysOnceSorted(slices: seq<Slice>, sorted: seq<Slice>)
    requires multiset(slices) == multiset(sorted)
    requires forall i, j | 0 <= i < j < |slices| :: slices[i].key != slices[j].key
    ensures forall i, j | 0 <= i < j < |sorted| :: sorted[i].key != sorted[j].key
  {
    NoRepeatsReordered(slices, sorted);
    SameElements(slices, sorted);
    forall i, j | 0 <= i < j < |sorted|
      ensures sorted[i].key != sorted[j].key
    {
      assert sorted[i] in sorted && sorted[j] in sorted;
      var k :| 0 <= k < |slices| && slices[k] == sorted[i];
      var l :| 0 <= l < |slices| && slices[l] == sorted[j];
      assert k != l;
    }
  }

  /** A list of slices that says exactly what a table says. */
  ghost predicate Listed(slices: seq<Slice>, table: Table, keys: set<Key>) {
    && (forall s | s in slices :: s.key in keys && s.key in table && s.ids == table[s.key])
    && (forall key | key in keys :: key in table && Slice(key, table[key]) in slices)
    && (forall i, j | 0 <= i < j < |slices| :: slices[i].key != slices[j].key)
  }

  lemma ListedOne(slices: seq<Slice>, table: Table, keys: set<Key>, key: Key)
    requires Listed(slices, table, keys) && key in table && key !in keys
    ensures Listed(slices + [Slice(key, table[key])], table, keys + {key})
  {
    var more := slices + [Slice(key, table[key])];
    forall i, j | 0 <= i < j < |more|
      ensures more[i].key != more[j].key
    {
      assert more[i] in slices;
    }
  }

  method ListSlices(table: Table) returns (slices: seq<Slice>)
    ensures Listed(slices, table, table.Keys)
  {
    slices := [];
    var todo := table.Keys;
    ghost var done := {};
    while todo != {}
      invariant done !! todo && done + todo == table.Keys && Listed(slices, table, done)
      decreases |todo|
    {
      var key :| key in todo;
      ListedOne(slices, table, done, key);
      slices := slices + [Slice(key, table[key])];
      todo, done := todo - {key}, done + {key};
    }
    assert done == table.Keys;
  }

  lemma {:induction false} NotOverall(pool: seq<Evidence>)
    ensures Overall !in ProviderKeys(pool)
  {
    if pool != [] {
      NotOverall(pool[..|pool| - 1]);
    }
  }

  /** A trajectory belongs to a sensor's slice exactly when some evidence of its pool names the sensor. */
  lemma {:induction false} SensorNamesAre(pool: seq<Evidence>, name: string)
    ensures name in SensorNames(pool) <==>
      exists i | 0 <= i < |pool| :: pool[i].source.Some? && pool[i].source.value.sensor == name
  {
    if pool != [] {
      var front, last := pool[..|pool| - 1], pool[|pool| - 1];
      SensorNamesAre(front, name);
      assert pool == front + [last];
      if name in SensorNames(front) {
        var i :| 0 <= i < |front| && front[i].source.Some? && front[i].source.value.sensor == name;
        assert pool[i] == front[i];
      }
    }
  }

  lemma {:induction false} ProviderKeysAre(pool: seq<Evidence>, p: Provider)
    ensures ByProvider(p) in ProviderKeys(pool) <==>
      exists i | 0 <= i < |pool| :: pool[i].source.Some? && pool[i].source.value.provider == Some(p)
  {
    if pool != [] {
      var front, last := pool[..|pool| - 1], pool[|pool| - 1];
      ProviderKeysAre(front, p);
      assert pool == front + [last];
      if ByProvider(p) in ProviderKeys(front) {
        var i :| 0 <= i < |front| && front[i].source.Some? && front[i].source.value.provider == Some(p);
        assert pool[i] == front[i];
      }
    }
  }

  /** Membership said in terms of the evidence alone. */
  lemma BelongsIff(t: Trajectory, name: string, p: Provider)
    ensures Belongs(t, Sensor(name)) <==>
      exists i | 0 <= i < |t.pool| :: t.pool[i].source.Some? && t.pool[i].source.value.sensor == name
    ensures Belongs(t, ByProvider(p)) <==>
      exists i | 0 <= i < |t.pool| :: t.pool[i].source.Some? && t.pool[i].source.value.provider == Some(p)
  {
    SensorNamesAre(t.pool, name);
    ProviderKeysAre(t.pool, p);
    OnlyProviders(t.pool, name);
    TreeOfIs(SensorNames(t.pool));
    SensorKeysAre(TreeOf(SensorNames(t.pool)), name, p);
  }

  lemma {:induction false} SensorKeysAre(names: seq<string>, name: string, p: Provider)
    ensures Sensor(name) in SensorKeys(names) <==> name in names
    ensures ByProvider(p) !in SensorKeys(names) && Overall !in SensorKeys(names)
  {
    if names != [] {
      SensorKeysAre(names[..|names| - 1], name, p);
      assert names == names[..|names| - 1] + [names[|names| - 1]];
    }
  }

  lemma {:induction false} OnlyProviders(pool: seq<Evidence>, name: string)
    ensures Sensor(name) !in ProviderKeys(pool)
  {
    if pool != [] {
      OnlyProviders(pool[..|pool| - 1], name);
    }
  }

  lemma {:induction false} NoOverallRow(ts: seq<Trajectory>)
    ensures Overall !in Tabulated(ts)
  {
    if ts != [] {
      var last := ts[|ts| - 1];
      NoOverallRow(ts[..|ts| - 1]);
      EnterAllIs(Tabulated(ts[..|ts| - 1]), KeysOf(last), last.id, Overall);
      NotOverall(last.pool);
      SensorKeysAre(TreeOf(SensorNames(last.pool)), "", Unknown);
    }
  }

  lemma RowsAreMembers(ts: seq<Trajectory>, key: Key)
    ensures key in Tabulated(ts) <==> key != Overall && Occurs(ts, key)
    ensures key in Tabulated(ts) ==> Tabulated(ts)[key] == Members(ts, key)
  {
    NoOverallRow(ts);
    if key != Overall {
      TabulatedKeys(ts, key);
      TabulatedRow(ts, key);
    }
  }

  lemma ListedMember(slices: seq<Slice>, ts: seq<Trajectory>, s: Slice)
    requires Listed(slices, Tabulated(ts), Tabulated(ts).Keys) && s in slices
    ensures s.key != Overall && Occurs(ts, s.key) && s.ids == Members(ts, s.key)
  {
    RowsAreMembers(ts, s.key);
  }

  lemma MemberListed(slices: seq<Slice>, ts: seq<Trajectory>, key: Key)
    requires Listed(slices, Tabulated(ts), Tabulated(ts).Keys) && key != Overall && Occurs(ts, key)
    ensures Slice(key, Members(ts, key)) in slices
  {
    RowsAreMembers(ts, key);
  }

  lemma ListedIsComplete(slices: seq<Slice>, ts: seq<Trajectory>, all: seq<Slice>)
    requires Listed(slices, Tabulated(ts), Tabulated(ts).Keys)
    requires all == [Slice(Overall, Members(ts, Overall))] + slices
    ensures Complete(all, ts)
  {
    forall s | s in all
      ensures Occurs(ts, s.key) && s.ids == Members(ts, s.key)
    {
      if s in slices {
        ListedMember(slices, ts, s);
      }
    }
    forall key | Occurs(ts, key)
      ensures Slice(key, Members(ts, key)) in all
    {
      if key == Overall {
        assert all[0] in all;
      } else {
        MemberListed(slices, ts, key);
      }
    }
    OverallOnce(slices, ts, all);
  }

  lemma OverallOnce(slices: seq<Slice>, ts: seq<Trajectory>, all: seq<Slice>)
    requires Listed(slices, Tabulated(ts), Tabulated(ts).Keys) && |all| == |slices| + 1 && all[0].key == Overall
    requires all[1..] == slices
    ensures forall i, j | 0 <= i < j < |all| :: all[i].key != all[j].key
  {
    NoOverallRow(ts);
    assert forall s | s in slices :: s.key != Overall;
    forall i, j | 0 <= i < j < |all|
      ensures all[i].key != all[j].key
    {
      assert all[j] == all[1..][j - 1];
      assert i > 0 ==> all[i] == all[1..][i - 1];
    }
  }

  /** The slices of a dataset: complete, and ordered by label. */
  method ComputeSlices(ts: seq<Trajectory>) returns (slices: seq<Slice>)
    ensures Complete(slices, ts) && Sorted(slices, LabelLe)
  {
    var table := Tabulate(ts);
    slices := ListSlices(table);
    ListedIsComplete(slices, ts, [Slice(Overall, Members(ts, Overall))] + slices);
    slices := [Slice(Overall, Members(ts, Overall))] + slices;
    SortedComplete(slices, ts);
    slices := Sort(slices, LabelLe);
  }
}
