/** Stable sorting, ordered sets, and the order of strings. */
module Sorting {
  import opened Lists

  type Order<!T> = (T, T) -> bool

  /** Total and transitive, as a comparison must be. */
  ghost predicate Sound<T(!new)>(le: Order<T>) {
    && (forall x, y :: le(x, y) || le(y, x))
    && (forall x, y, z :: le(x, y) && le(y, z) ==> le(x, z))
  }

  predicate Sorted<T>(s: seq<T>, le: Order<T>) {
    forall i, j | 0 <= i < j < |s| :: le(s[i], s[j])
  }

  function Insert<T>(x: T, s: seq<T>, le: Order<T>): seq<T> {
    if s == [] || le(x, s[0]) then [x] + s else [s[0]] + Insert(x, s[1..], le)
  }

  /** The library's stable sort, by its result. */
  function Sort<T>(s: seq<T>, le: Order<T>): seq<T> {
    if s == [] then [] else Insert(s[0], Sort(s[1..], le), le)
  }

  lemma {:induction false} InsertKeeps<T>(x: T, s: seq<T>, le: Order<T>)
    ensures multiset(Insert(x, s, le)) == multiset(s) + multiset{x}
  {
    if s == [] || le(x, s[0]) {
      Prepended(x, s);
    } else {
      InsertKeeps(x, s[1..], le);
      Prepended(s[0], Insert(x, s[1..], le));
      Prepended(s[0], s[1..]);
      assert s == [s[0]] + s[1..];
    }
  }

  lemma Prepended<T>(x: T, s: seq<T>)
    ensures multiset([x] + s) == multiset(s) + multiset{x}
  {
  }

  lemma SameElements<T>(a: seq<T>, b: seq<T>)
    requires multiset(a) == multiset(b)
    ensures |a| == |b| && forall x :: x in a <==> x in b
  {
    assert |multiset(a)| == |a| && |multiset(b)| == |b|;
    forall x
      ensures x in a <==> x in b
    {
      assert x in a <==> x in multiset(a);
      assert x in b <==> x in multiset(b);
    }
  }

  lemma {:induction false} SortedPrepend<T(!new)>(x: T, s: seq<T>, le: Order<T>)
    requires Sorted(s, le) && forall y | y in s :: le(x, y)
    ensures Sorted([x] + s, le)
  {
  }

  lemma {:induction false} InsertSorts<T(!new)>(x: T, s: seq<T>, le: Order<T>)
    requires Sound(le) && Sorted(s, le)
    ensures Sorted(Insert(x, s, le), le)
  {
    if s == [] {
    } else if le(x, s[0]) {
      SortedPrepend(x, s, le);
    } else {
      InsertSorts(x, s[1..], le);
      InsertKeeps(x, s[1..], le);
      var rest := Insert(x, s[1..], le);
      forall y | y in rest
        ensures le(s[0], y)
      {
        assert y in multiset(rest);
        assert y == x || y in s[1..];
      }
      SortedPrepend(s[0], rest, le);
    }
  }

  lemma {:induction false} SortKeeps<T>(s: seq<T>, le: Order<T>)
    ensures multiset(Sort(s, le)) == multiset(s) && |Sort(s, le)| == |s|
  {
    if s != [] {
      SortKeeps(s[1..], le);
      InsertKeeps(s[0], Sort(s[1..], le), le);
      assert s == [s[0]] + s[1..];
      SameElements(Sort(s, le), s);
    }
  }

  lemma {:induction false} SortSorts<T(!new)>(s: seq<T>, le: Order<T>)
    requires Sound(le)
    ensures Sorted(Sort(s, le), le)
  {
    if s != [] {
      SortSorts(s[1..], le);
      InsertSorts(s[0], Sort(s[1..], le), le);
    }
  }

  /** When no two different elements tie, there is only one sorted order. */
  lemma {:induction false} SortedUnique<T(!new)>(a: seq<T>, b: seq<T>, le: Order<T>)
    requires Sound(le) && Sorted(a, le) && Sorted(b, le) && multiset(a) == multiset(b)
    requires forall x, y | x in a && y in a && le(x, y) && le(y, x) :: x == y
    ensures a == b
  {
    SameElements(a, b);
    if a != [] {
      SameFirst(a, b, le);
      SortedTails(a, b, le);
      SortedUnique(a[1..], b[1..], le);
      SameAgain(a, b);
    }
  }

  lemma SortedTails<T(!new)>(a: seq<T>, b: seq<T>, le: Order<T>)
    requires a != [] && b != [] && a[0] == b[0] && Sorted(a, le) && Sorted(b, le) && multiset(a) == multiset(b)
    ensures Sorted(a[1..], le) && Sorted(b[1..], le) && multiset(a[1..]) == multiset(b[1..])
    ensures forall x | x in a[1..] :: x in a
  {
    HeadOff(a);
    HeadOff(b);
  }

  lemma SameAgain<T>(a: seq<T>, b: seq<T>)
    requires a != [] && b != [] && a[0] == b[0] && a[1..] == b[1..]
    ensures a == b
  {
    assert a == [a[0]] + a[1..] && b == [b[0]] + b[1..];
  }

  lemma SameFirst<T(!new)>(a: seq<T>, b: seq<T>, le: Order<T>)
    requires Sound(le) && Sorted(a, le) && Sorted(b, le) && a != [] && b != [] && forall x :: x in a <==> x in b
    requires forall x, y | x in a && y in a && le(x, y) && le(y, x) :: x == y
    ensures a[0] == b[0]
  {
    FirstIsLeast(a, le);
    FirstIsLeast(b, le);
    assert a[0] in a && b[0] in b;
  }

  lemma FirstIsLeast<T(!new)>(s: seq<T>, le: Order<T>)
    requires Sound(le) && Sorted(s, le) && s != []
    ensures forall x | x in s :: le(s[0], x)
  {
  }

  lemma {:induction false} MappedReordered<T, U>(a: seq<T>, b: seq<T>, f: T -> U)
    requires multiset(a) == multiset(b)
    ensures multiset(Map(a, f)) == multiset(Map(b, f))
    decreases |a|
  {
    SameElements(a, b);
    if a != [] {
      var j := MatchFirst(a, b);
      MappedReordered(a[1..], b[..j] + b[j + 1..], f);
      MapCut(b, j, f);
      Prepended(f(a[0]), Map(a[1..], f));
    }
  }

  lemma {:induction false} MapAppend<T, U>(a: seq<T>, b: seq<T>, f: T -> U)
    ensures Map(a + b, f) == Map(a, f) + Map(b, f)
  {
    if a == [] {
      assert a + b == b;
    } else {
      assert (a + b)[1..] == a[1..] + b;
      MapAppend(a[1..], b, f);
    }
  }

  lemma {:induction false} MapCut<T, U>(b: seq<T>, j: nat, f: T -> U)
    requires j < |b|
    ensures multiset(Map(b, f)) == multiset(Map(b[..j] + b[j + 1..], f)) + multiset{f(b[j])}
  {
    var before, here, after := b[..j], [b[j]], b[j + 1..];
    assert b == before + (here + after);
    MapAppend(before, here + after, f);
    MapAppend(here, after, f);
    MapAppend(before, after, f);
    assert here[1..] == [] && Map(here, f) == [f(b[j])];
  }

  // ----- strings

  /** Lexicographic order by code point, which is also the order of the UTF-8 bytes. */
  predicate StringLe(a: string, b: string) {
    a == "" || (b != "" && (a[0] < b[0] || (a[0] == b[0] && StringLe(a[1..], b[1..]))))
  }

  lemma {:induction false} StringTotal(a: string, b: string)
    ensures StringLe(a, b) || StringLe(b, a)
    ensures StringLe(a, b) && StringLe(b, a) ==> a == b
  {
    if a != "" && b != "" {
      StringTotal(a[1..], b[1..]);
      assert a == [a[0]] + a[1..] && b == [b[0]] + b[1..];
    }
  }

  lemma {:induction false} StringTransitive(a: string, b: string, c: string)
    requires StringLe(a, b) && StringLe(b, c)
    ensures StringLe(a, c)
  {
    if a != "" && b != "" && c != "" && a[0] == b[0] == c[0] {
      StringTransitive(a[1..], b[1..], c[1..]);
    }
  }

  predicate FirstDiffers(a: string, b: string, k: nat) {
    k < |a| && k < |b| && a[..k] == b[..k] && a[k] < b[k]
  }

  lemma DiffersLater(a: string, b: string, k: nat)
    requires a != "" && b != "" && a[0] == b[0]
    ensures FirstDiffers(a, b, k + 1) <==> FirstDiffers(a[1..], b[1..], k)
  {
    if k + 1 < |a| && k + 1 < |b| {
      assert a[..k + 1] == [a[0]] + a[1..][..k] && b[..k + 1] == [b[0]] + b[1..][..k];
      assert a[..k + 1][1..] == a[1..][..k] && b[..k + 1][1..] == b[1..][..k];
    }
  }

  /** One string comes before another exactly when it is a beginning of it, or has the smaller character
      where the two first differ. */
  lemma {:induction false} StringLeIff(a: string, b: string)
    ensures StringLe(a, b) <==> a <= b || exists k: nat :: FirstDiffers(a, b, k)
  {
    if a != "" && b != "" && a[0] == b[0] {
      StringLeIff(a[1..], b[1..]);
      assert a <= b <==> a[1..] <= b[1..] by {
        assert a == [a[0]] + a[1..] && b == [b[0]] + b[1..];
      }
      if FirstLater(a, b) {
        var k: nat :| FirstDiffers(a[1..], b[1..], k);
        DiffersLater(a, b, k);
      }
      forall k: nat | FirstDiffers(a, b, k)
        ensures FirstLater(a, b)
      {
        DiffersLater(a, b, k - 1);
      }
    } else if a != "" && b != "" {
      assert a[..0] == b[..0];
      assert a[0] < b[0] ==> FirstDiffers(a, b, 0);
      assert forall k: nat | FirstDiffers(a, b, k) && k > 0 :: a[..k][0] == b[..k][0];
    }
  }

  ghost predicate FirstLater(a: string, b: string)
    requires a != "" && b != ""
  {
    exists k: nat :: FirstDiffers(a[1..], b[1..], k)
  }

  lemma StringSound()
    ensures Sound(StringLe)
  {
    forall x, y
      ensures StringLe(x, y) || StringLe(y, x)
    {
      StringTotal(x, y);
    }
    forall x, y, z | StringLe(x, y) && StringLe(y, z)
      ensures StringLe(x, z)
    {
      StringTransitive(x, y, z);
    }
  }

  /** Any two orders of the same strings sort to the same list. */
  lemma SortStrings(a: seq<string>, b: seq<string>)
    requires multiset(a) == multiset(b)
    ensures Sort(a, StringLe) == Sort(b, StringLe)
  {
    StringSound();
    SortSorts(a, StringLe);
    SortSorts(b, StringLe);
    SortKeeps(a, StringLe);
    SortKeeps(b, StringLe);
    forall x, y | StringLe(x, y) && StringLe(y, x)
      ensures x == y
    {
      StringTotal(x, y);
    }
    SortedUnique(Sort(a, StringLe), Sort(b, StringLe), StringLe);
  }

  // ----- ordered sets of strings

  /** Ascending without repetition: the way an ordered set is iterated. */
  predicate Ascending(s: seq<string>) {
    forall i, j | 0 <= i < j < |s| :: StringLe(s[i], s[j]) && s[i] != s[j]
  }

  function TreeInsert(x: string, s: seq<string>): seq<string> {
    if s == [] then [x]
    else if x == s[0] then s
    else if StringLe(x, s[0]) then [x] + s
    else [s[0]] + TreeInsert(x, s[1..])
  }

  function TreeOf(xs: seq<string>): seq<string> {
    if xs == [] then [] else TreeInsert(xs[|xs| - 1], TreeOf(xs[..|xs| - 1]))
  }

  lemma {:induction false} TreeInsertIs(x: string, s: seq<string>)
    requires Ascending(s)
    ensures Ascending(TreeInsert(x, s))
    ensures forall y :: y in TreeInsert(x, s) <==> y == x || y in s
  {
    if s == [] || x == s[0] {
    } else if StringLe(x, s[0]) {
      AscendingPrepend(x, s);
    } else {
      TreeInsertIs(x, s[1..]);
      StringTotal(x, s[0]);
      assert s == [s[0]] + s[1..];
      AscendingPrepend(s[0], TreeInsert(x, s[1..]));
    }
  }

  lemma AscendingPrepend(x: string, s: seq<string>)
    requires Ascending(s)
    requires s == [] || (StringLe(x, s[0]) && x != s[0]) || forall y | y in s :: StringLe(x, y) && x != y
    ensures Ascending([x] + s)
  {
    forall i | 0 <= i < |s|
      ensures StringLe(x, s[i]) && x != s[i]
    {
      assert s[i] in s;
      if i > 0 && StringLe(x, s[0]) {
        StringTransitive(x, s[0], s[i]);
        StringTotal(s[0], s[i]);
      }
    }
  }

  lemma {:induction false} TreeOfIs(xs: seq<string>)
    ensures Ascending(TreeOf(xs))
    ensures forall y :: y in TreeOf(xs) <==> y in xs
  {
    if xs != [] {
      var front, last := xs[..|xs| - 1], xs[|xs| - 1];
      TreeOfIs(front);
      TreeInsertIs(last, TreeOf(front));
      assert xs == front + [last];
    }
  }
}
