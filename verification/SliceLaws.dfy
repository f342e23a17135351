/** The breakdown does not depend on the order of the dataset. */
module SliceLaws {
  import opened Prelude
  import opened Lists
  import opened Sorting
  import Text
  import opened Harness
  import opened Slices

  // ----- labels

  lemma ProvidersDiffer(p: Provider, q: Provider)
    ensures ProviderText(p) == ProviderText(q) <==> p == q
  {
    assert |"ClaudeCode"| == 10 && |"Codex"| == 5 && |"OpenCode"| == 8 && |"Unknown"| == 7;
  }

  lemma LabelStarts(key: Key)
    ensures Label(key) != ""
    ensures Label(key)[0] == match key case Overall => 'o' case Sensor(_) => 's' case ByProvider(_) => 'p'
  {
  }

  /** A label tells its key. */
  lemma LabelTells(a: Key, b: Key)
    ensures Label(a) == Label(b) <==> a == b
  {
    LabelStarts(a);
    LabelStarts(b);
    match (a, b) {
      case (Sensor(x), Sensor(y)) =>
        Text.AfterPrefix("sensor:", x);
        Text.AfterPrefix("sensor:", y);
      case (ByProvider(p), ByProvider(q)) =>
        Text.AfterPrefix("provider:", ProviderText(p));
        Text.AfterPrefix("provider:", ProviderText(q));
        ProvidersDiffer(p, q);
      case _ =>
    }
  }

  // ----- lists without repetition

  lemma OnceEach<T>(a: seq<T>, b: seq<T>)
    requires NoRepeats(a) && NoRepeats(b) && forall x :: x in a <==> x in b
    ensures multiset(a) == multiset(b)
  {
    forall x
      ensures multiset(a)[x] == multiset(b)[x]
    {
      if x in a {
        CountedOnce(a, x);
        CountedOnce(b, x);
      } else {
        assert x !in multiset(a) && x !in multiset(b);
      }
    }
  }

  lemma SameTrees(a: seq<string>, b: seq<string>)
    requires forall x :: x in a <==> x in b
    ensures TreeOf(a) == TreeOf(b)
  {
    TreeOfIs(a);
    TreeOfIs(b);
    OnceEach(TreeOf(a), TreeOf(b));
    StringSound();
    forall x, y | x in TreeOf(a) && y in TreeOf(a) && StringLe(x, y) && StringLe(y, x)
      ensures x == y
    {
      StringTotal(x, y);
    }
    SortedUnique(TreeOf(a), TreeOf(b), StringLe);
  }

  // ----- members

  lemma {:induction false} IdsInAre(ts: seq<Trajectory>, key: Key, id: string)
    ensures id in IdsIn(ts, key) <==> exists t :: t in ts && Belongs(t, key) && t.id == id
  {
    if ts != [] {
      var front, last := ts[..|ts| - 1], ts[|ts| - 1];
      IdsInAre(front, key, id);
      assert ts == front + [last];
    }
  }

  lemma {:induction false} OverallIdAt(ts: seq<Trajectory>, i: nat)
    requires i < |ts|
    ensures |IdsIn(ts, Overall)| == |ts| && IdsIn(ts, Overall)[i] == ts[i].id
    decreases |ts|
  {
    var n := |ts| - 1;
    if n > 0 {
      OverallIdAt(ts[..n], if i < n then i else 0);
    }
  }

  lemma OverallIds(ts: seq<Trajectory>)
    ensures IdsIn(ts, Overall) == Map(ts, (t: Trajectory) => t.id)
  {
    var ids, mapped := IdsIn(ts, Overall), Map(ts, (t: Trajectory) => t.id);
    if ts != [] {
      OverallIdAt(ts, 0);
      forall i | 0 <= i < |ts|
        ensures ids[i] == mapped[i]
      {
        OverallIdAt(ts, i);
      }
    }
  }

  lemma SameMembers(a: seq<Trajectory>, b: seq<Trajectory>, key: Key)
    requires multiset(a) == multiset(b)
    ensures Members(a, key) == Members(b, key)
  {
    if key == Overall {
      OverallIds(a);
      OverallIds(b);
      MappedReordered(a, b, (t: Trajectory) => t.id);
      SortStrings(IdsIn(a, key), IdsIn(b, key));
    } else {
      SameElements(a, b);
      forall id
        ensures id in IdsIn(a, key) <==> id in IdsIn(b, key)
      {
        IdsInAre(a, key, id);
        IdsInAre(b, key, id);
      }
      SameTrees(IdsIn(a, key), IdsIn(b, key));
    }
  }

  lemma OccursThere(a: seq<Trajectory>, b: seq<Trajectory>, key: Key)
    requires (forall t | t in a :: t in b) && Occurs(a, key)
    ensures Occurs(b, key)
  {
    if key != Overall {
      var i :| 0 <= i < |a| && key in KeysOf(a[i]);
      assert a[i] in a;
      var j :| 0 <= j < |b| && b[j] == a[i];
    }
  }

  lemma SliceThere(a: seq<Trajectory>, b: seq<Trajectory>, x: seq<Slice>, y: seq<Slice>, s: Slice)
    requires multiset(a) == multiset(b) && Complete(x, a) && Complete(y, b) && s in x
    ensures s in y
  {
    SameElements(a, b);
    OccursThere(a, b, s.key);
    SameMembers(a, b, s.key);
    assert s == Slice(s.key, Members(a, s.key));
  }

  /** One dataset in two orders breaks down into the same list of slices. */
  lemma SlicesOrderIrrelevant(a: seq<Trajectory>, b: seq<Trajectory>, x: seq<Slice>, y: seq<Slice>)
    requires multiset(a) == multiset(b) && Complete(x, a) && Complete(y, b)
    requires Sorted(x, LabelLe) && Sorted(y, LabelLe)
    ensures x == y
  {
    forall s
      ensures s in x <==> s in y
    {
      if s in x {
        SliceThere(a, b, x, y, s);
      }
      if s in y {
        SliceThere(b, a, y, x, s);
      }
    }
    OnceEach(x, y);
    LabelSound();
    LabelsApart(x);
    SortedUnique(x, y, LabelLe);
  }

  lemma LabelsApart(x: seq<Slice>)
    requires forall i, j | 0 <= i < j < |x| :: x[i].key != x[j].key
    ensures forall s, t | s in x && t in x && LabelLe(s, t) && LabelLe(t, s) :: s == t
  {
    forall s, t | s in x && t in x && LabelLe(s, t) && LabelLe(t, s)
      ensures s == t
    {
      StringTotal(Label(s.key), Label(t.key));
      LabelTells(s.key, t.key);
      var i :| 0 <= i < |x| && x[i] == s;
      var j :| 0 <= j < |x| && x[j] == t;
    }
  }

  // ----- the order of the list

  lemma AfterSameChar(c: char, a: string, b: string, x: string, y: string)
    requires x == [c] + a && y == [c] + b
    ensures StringLe(x, y) <==> StringLe(a, b)
  {
    assert x[1..] == a && y[1..] == b;
  }

  lemma {:induction false} AfterSamePrefix(p: string, a: string, b: string)
    ensures StringLe(p + a, p + b) <==> StringLe(a, b)
  {
    if p == "" {
      Text.NothingAdded(a);
      Text.NothingAdded(b);
    } else {
      Text.HeadTail(p);
      Text.Assoc([p[0]], p[1..], a);
      Text.Assoc([p[0]], p[1..], b);
      AfterSameChar(p[0], p[1..] + a, p[1..] + b, p + a, p + b);
      AfterSamePrefix(p[1..], a, b);
    }
  }

  /** Labels put the whole first, then the providers by name, then the sensors by name. */
  lemma {:induction false} LabelOrder(key: Key, name: string, other: string, p: Provider)
    ensures StringLe(Label(Overall), Label(key)) && (StringLe(Label(key), Label(Overall)) <==> key == Overall)
    ensures StringLe(Label(ByProvider(p)), Label(Sensor(name)))
    ensures !StringLe(Label(Sensor(name)), Label(ByProvider(p)))
    ensures StringLe(Label(Sensor(name)), Label(Sensor(other))) <==> StringLe(name, other)
  {
    assert Label(Overall)[0] == 'o' && Label(ByProvider(p))[0] == 'p' && Label(Sensor(name))[0] == 's';
    assert key.Sensor? ==> Label(key)[0] == 's';
    assert key.ByProvider? ==> Label(key)[0] == 'p';
    StringTotal(Label(Overall), Label(Overall));
    AfterSamePrefix("sensor:", name, other);
  }

  lemma {:induction false} ProviderOrder()
    ensures var text := (p: Provider) => Label(ByProvider(p));
      && StringLe(text(ClaudeCode), text(Codex)) && text(ClaudeCode) != text(Codex)
      && StringLe(text(Codex), text(OpenCode)) && text(Codex) != text(OpenCode)
      && StringLe(text(OpenCode), text(Unknown)) && text(OpenCode) != text(Unknown)
  {
    AfterSamePrefix("provider:", "ClaudeCode", "Codex");
    AfterSamePrefix("provider:", "Codex", "OpenCode");
    AfterSamePrefix("provider:", "OpenCode", "Unknown");
    var a, b := "ClaudeCode", "Codex";
    assert a[1] == 'l' && b[1] == 'o' && a[1..][0] == 'l' && b[1..][0] == 'o';
    assert Label(ByProvider(ClaudeCode))[10] == 'l' && Label(ByProvider(Codex))[10] == 'o';
    assert Label(ByProvider(OpenCode))[9] == 'O' && Label(ByProvider(Unknown))[9] == 'U';
    assert Label(ByProvider(Codex))[9] == 'C';
  }
}
