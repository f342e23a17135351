/** Filtering, counting and ordering of sequences. */
module Lists {

  function Filter<T>(s: seq<T>, keep: T -> bool): seq<T> {
    if s == [] then [] else (if keep(s[0]) then [s[0]] else []) + Filter(s[1..], keep)
  }

  function CountIf<T>(s: seq<T>, p: T -> bool): nat {
    if s == [] then 0 else (if p(s[0]) then 1 else 0) + CountIf(s[1..], p)
  }

  function Map<T, U>(s: seq<T>, f: T -> U): (r: seq<U>)
    ensures |r| == |s| && forall i | 0 <= i < |s| :: r[i] == f(s[i])
  {
    if s == [] then [] else [f(s[0])] + Map(s[1..], f)
  }

  lemma {:induction false} FilterKeeps<T>(s: seq<T>, keep: T -> bool, x: T)
    ensures x in Filter(s, keep) <==> x in s && keep(x)
  {
    if s != [] {
      FilterKeeps(s[1..], keep, x);
      assert x in s <==> x == s[0] || x in s[1..];
    }
  }

  lemma {:induction false} FilterAll<T>(s: seq<T>, keep: T -> bool)
    requires forall x | x in s :: keep(x)
    ensures Filter(s, keep) == s
  {
    if s != [] {
      assert s[0] in s && forall x | x in s[1..] :: x in s;
      FilterAll(s[1..], keep);
    }
  }

  lemma {:induction false} FilterSame<T>(s: seq<T>, keep: T -> bool, also: T -> bool)
    requires forall x | x in s :: keep(x) == also(x)
    ensures Filter(s, keep) == Filter(s, also)
  {
    if s != [] {
      assert s[0] in s && forall x | x in s[1..] :: x in s;
      FilterSame(s[1..], keep, also);
    }
  }

  lemma JoinedAgain<T>(a: seq<T>, b: seq<T>, c: seq<T>)
    ensures a + (b + c) == (a + b) + c
  {
  }

  lemma {:induction false} FilterAppend<T>(a: seq<T>, b: seq<T>, keep: T -> bool)
    ensures Filter(a + b, keep) == Filter(a, keep) + Filter(b, keep)
  {
    if a == [] {
      assert a + b == b;
    } else {
      var first := if keep(a[0]) then [a[0]] else [];
      assert (a + b)[1..] == a[1..] + b && (a + b)[0] == a[0];
      FilterAppend(a[1..], b, keep);
      JoinedAgain(first, Filter(a[1..], keep), Filter(b, keep));
    }
  }

  lemma {:induction false} FilterCounts<T>(s: seq<T>, keep: T -> bool, p: T -> bool, both: T -> bool)
    requires forall x | x in s :: both(x) == (keep(x) && p(x))
    ensures CountIf(Filter(s, keep), p) == CountIf(s, both)
  {
    if s != [] {
      assert s[0] in s && forall x | x in s[1..] :: x in s;
      FilterCounts(s[1..], keep, p, both);
      var rest := Filter(s[1..], keep);
      assert keep(s[0]) ==> ([s[0]] + rest)[1..] == rest;
      assert [] + rest == rest;
    }
  }

  lemma {:induction false} LengthIsCount<T>(s: seq<T>, keep: T -> bool)
    ensures |Filter(s, keep)| == CountIf(s, keep) <= |s|
  {
    if s != [] {
      LengthIsCount(s[1..], keep);
    }
  }

  /** Counting by cases: what holds of every element carries over to the counts. */
  lemma {:induction false} CountSame<T>(s: seq<T>, p: T -> bool, q: T -> bool)
    requires forall x | x in s :: p(x) == q(x)
    ensures CountIf(s, p) == CountIf(s, q)
  {
    if s != [] {
      assert s[0] in s;
      forall x | x in s[1..]
        ensures p(x) == q(x)
      {
        assert x in s;
      }
      CountSame(s[1..], p, q);
    }
  }

  lemma {:induction false} CountPositive<T>(s: seq<T>, p: T -> bool)
    ensures CountIf(s, p) > 0 <==> exists i | 0 <= i < |s| :: p(s[i])
  {
    if s != [] {
      CountPositive(s[1..], p);
      assert forall i | 0 <= i < |s[1..]| :: s[1..][i] == s[i + 1];
      if exists i | 0 <= i < |s| :: p(s[i]) {
        var i :| 0 <= i < |s| && p(s[i]);
        assert i > 0 ==> s[1..][i - 1] == s[i];
      }
    }
  }

  lemma {:induction false} CountAppend<T>(a: seq<T>, b: seq<T>, p: T -> bool)
    ensures CountIf(a + b, p) == CountIf(a, p) + CountIf(b, p)
  {
    if a == [] {
      assert a + b == b;
    } else {
      assert (a + b)[1..] == a[1..] + b;
      CountAppend(a[1..], b, p);
    }
  }

  predicate NoRepeats<T(==)>(s: seq<T>) {
    forall i, j | 0 <= i < j < |s| :: s[i] != s[j]
  }

  function Chosen<T(==)>(s: seq<T>, p: T -> bool): set<T> {
    set x | x in s && p(x)
  }

  lemma ChosenFirst<T>(s: seq<T>, p: T -> bool)
    requires s != []
    ensures Chosen(s, p) == if p(s[0]) then Chosen(s[1..], p) + {s[0]} else Chosen(s[1..], p)
  {
    assert s == [s[0]] + s[1..];
  }

  /** Without repetition, counting is the size of a set. */
  lemma {:induction false} CountIsCardinality<T>(s: seq<T>, p: T -> bool)
    requires NoRepeats(s)
    ensures CountIf(s, p) == |Chosen(s, p)|
  {
    if s != [] {
      CountIsCardinality(s[1..], p);
      ChosenFirst(s, p);
      assert s[0] !in s[1..];
    }
  }

  lemma CountedTwice<T>(s: seq<T>, i: nat, j: nat)
    requires i < j < |s|
    ensures s[i] == s[j] ==> multiset(s)[s[i]] >= 2
  {
    assert s == s[..j] + s[j..];
    assert s[i] in s[..j] && s[j] in s[j..];
  }

  lemma {:induction false} CountedOnce<T>(s: seq<T>, x: T)
    requires NoRepeats(s)
    ensures multiset(s)[x] <= 1
  {
    if s != [] {
      CountedOnce(s[1..], x);
      assert s == [s[0]] + s[1..];
      assert s[0] !in s[1..];
    }
  }

  /** Reordering introduces no repetition. */
  lemma NoRepeatsReordered<T>(a: seq<T>, b: seq<T>)
    requires NoRepeats(a) && multiset(a) == multiset(b)
    ensures NoRepeats(b)
  {
    forall i, j | 0 <= i < j < |b|
      ensures b[i] != b[j]
    {
      CountedTwice(b, i, j);
      CountedOnce(a, b[i]);
    }
  }

  lemma TakeOut<T>(s: seq<T>, j: nat)
    requires j < |s|
    ensures multiset(s[..j] + s[j + 1..]) == multiset(s) - multiset{s[j]}
  {
    assert s == s[..j] + [s[j]] + s[j + 1..];
  }

  lemma HeadOff<T>(s: seq<T>)
    requires s != []
    ensures multiset(s[1..]) == multiset(s) - multiset{s[0]} && s[0] in multiset(s)
  {
    assert s == [s[0]] + s[1..];
  }

  lemma MatchFirst<T>(a: seq<T>, b: seq<T>) returns (j: nat)
    requires a != [] && multiset(a) == multiset(b)
    ensures j < |b| && b[j] == a[0] && multiset(a[1..]) == multiset(b[..j] + b[j + 1..])
  {
    HeadOff(a);
    j :| 0 <= j < |b| && b[j] == a[0];
    TakeOut(b, j);
  }
}
