/** What the digest of an aggregate tells about its participants. */
module FederatedDigest {
  import opened Prelude
  import opened Lists
  import opened Sorting
  import opened Federated
  import Text
  import Crc32

  // ----- one part

  lemma {:induction false} OnlyDigits(n: nat)
    ensures Digits(n) != "" && forall c | c in Digits(n) :: '0' <= c <= '9'
  {
    if n >= 10 {
      OnlyDigits(n / 10);
    }
  }

  lemma {:induction false} DigitsTell(m: nat, n: nat)
    requires Digits(m) == Digits(n)
    ensures m == n
  {
    var s := Digits(m);
    assert s[|s| - 1] == ('0' as int + m % 10) as char == ('0' as int + n % 10) as char;
    assert s[..|s| - 1] == (if m < 10 then "" else Digits(m / 10)) == (if n < 10 then "" else Digits(n / 10));
    OnlyDigits(m / 10);
    OnlyDigits(n / 10);
    if m >= 10 && n >= 10 {
      DigitsTell(m / 10, n / 10);
    }
  }

  lemma ColonInside(a: string, x: string, b: string, y: string)
    requires a + (":" + x) == b + (":" + y) && |x| < |y|
    ensures ':' in y
  {
    var t := a + (":" + x);
    assert t[|a|] == ':' && y[|a| - |b| - 1] == t[|a|];
  }

  /** Text before the last colon, and digits after it, can be told apart. */
  lemma LastColon(a: string, x: string, b: string, y: string)
    requires a + (":" + x) == b + (":" + y) && ':' !in x && ':' !in y
    ensures a == b && x == y
  {
    if |x| < |y| {
      ColonInside(a, x, b, y);
    } else if |y| < |x| {
      ColonInside(b, y, a, x);
    } else {
      var t := a + (":" + x);
      assert a == t[..|a|] && b == t[..|b|];
      assert x == t[|a| + 1..] && y == t[|b| + 1..];
    }
  }

  /** Whose statistic it is, and which. */
  function Who(s: Statistic): (string, nat) {
    (s.tenant, s.revision)
  }

  function PartOf(who: (string, nat)): string {
    who.0 + ":" + Digits(who.1)
  }

  lemma PartTells(v: (string, nat), w: (string, nat))
    requires PartOf(v) == PartOf(w)
    ensures v == w
  {
    OnlyDigits(v.1);
    OnlyDigits(w.1);
    assert PartOf(v) == v.0 + (":" + Digits(v.1)) && PartOf(w) == w.0 + (":" + Digits(w.1));
    LastColon(v.0, Digits(v.1), w.0, Digits(w.1));
    DigitsTell(v.1, w.1);
  }

  // ----- the whole text

  /** The parts can be read back from the text when none contains the separator. */
  lemma {:induction false} PartsReadBack(parts: seq<string>)
    requires parts != [] && forall x | x in parts :: '|' !in x
    ensures Text.Split(Join(parts), '|') == parts
  {
    assert parts[0] in parts;
    if |parts| == 1 {
      Text.SplitWhole(parts[0], '|');
    } else {
      PartsReadBack(parts[1..]);
      Text.SplitAt(parts[0], '|', Join(parts[1..]));
      assert Join(parts) == parts[0] + "|" + Join(parts[1..]);
    }
  }

  lemma PutBack<T>(a: seq<T>, b: seq<T>, j: nat)
    requires a != [] && j < |b| && a[0] == b[j] && multiset(a[1..]) == multiset(b[..j] + b[j + 1..])
    ensures multiset(a) == multiset(b)
  {
    assert a == [a[0]] + a[1..];
    TakeOut(b, j);
    assert b[j] in multiset(b);
  }

  lemma {:induction false} MappedFirst<T, U>(a: seq<T>, b: seq<T>, f: T -> U) returns (j: nat)
    requires a != [] && multiset(Map(a, f)) == multiset(Map(b, f))
    ensures j < |b| && f(b[j]) == f(a[0])
  {
    var x, y := Map(a, f), Map(b, f);
    assert x[0] == f(a[0]) && x[0] in multiset(x);
    assert x[0] in multiset(y);
    j :| 0 <= j < |y| && y[j] == x[0];
  }

  lemma {:induction false} FirstAmong<T, U>(a: seq<T>, b: seq<T>, f: T -> U) returns (j: nat)
    requires a != [] && multiset(Map(a, f)) == multiset(Map(b, f))
    ensures j < |b| && f(b[j]) == f(a[0])
    ensures multiset(Map(a[1..], f)) == multiset(Map(b[..j] + b[j + 1..], f))
  {
    j := MappedFirst(a, b, f);
    MapCut(b, j, f);
    Prepended(f(a[0]), Map(a[1..], f));
    assert Map(a, f) == [f(a[0])] + Map(a[1..], f);
    Cancel(multiset(Map(a[1..], f)), multiset(Map(b[..j] + b[j + 1..], f)), f(a[0]));
  }

  lemma Cancel<U>(m: multiset<U>, n: multiset<U>, e: U)
    requires m + multiset{e} == n + multiset{e}
    ensures m == n
  {
    assert m == m + multiset{e} - multiset{e} && n == n + multiset{e} - multiset{e};
  }

  lemma {:induction false} Unmapped<T(!new), U>(a: seq<T>, b: seq<T>, f: T -> U)
    requires (forall x, y | f(x) == f(y) :: x == y) && multiset(Map(a, f)) == multiset(Map(b, f))
    ensures multiset(a) == multiset(b)
    decreases |a|
  {
    if a == [] {
      SameElements(Map(a, f), Map(b, f));
    } else {
      var j := FirstAmong(a, b, f);
      Unmapped(a[1..], b[..j] + b[j + 1..], f);
      PutBack(a, b, j);
    }
  }

  predicate PipeFree(stats: seq<Statistic>) {
    forall s | s in stats :: '|' !in s.tenant
  }

  lemma PartsPipeFree(stats: seq<Statistic>)
    requires PipeFree(stats)
    ensures forall x | x in Map(stats, Part) :: '|' !in x
  {
    forall x | x in Map(stats, Part)
      ensures '|' !in x
    {
      var i :| 0 <= i < |stats| && Map(stats, Part)[i] == x;
      assert stats[i] in stats;
      OnlyDigits(stats[i].revision);
    }
  }

  lemma PartsAre(stats: seq<Statistic>)
    ensures Map(stats, Part) == Map(Map(stats, Who), PartOf)
  {
  }

  lemma SameTextSameParts(a: seq<Statistic>, b: seq<Statistic>)
    requires a != [] && b != [] && PipeFree(a) && PipeFree(b) && Revisions(a) == Revisions(b)
    ensures multiset(Map(a, Part)) == multiset(Map(b, Part))
  {
    var x, y := Sort(Map(a, Part), StringLe), Sort(Map(b, Part), StringLe);
    SortKeeps(Map(a, Part), StringLe);
    SortKeeps(Map(b, Part), StringLe);
    SameElements(x, Map(a, Part));
    SameElements(y, Map(b, Part));
    PartsPipeFree(a);
    PartsPipeFree(b);
    PartsReadBack(x);
    PartsReadBack(y);
  }

  /** With no separator in a tenant id, the text under the digest tells exactly which tenants took part with which
      revisions: whenever a tenant is added, removed or revised, it changes. */
  lemma RevisionsTell(a: seq<Statistic>, b: seq<Statistic>)
    requires a != [] && b != [] && PipeFree(a) && PipeFree(b)
    ensures Revisions(a) == Revisions(b) <==> multiset(Map(a, Who)) == multiset(Map(b, Who))
  {
    PartsAre(a);
    PartsAre(b);
    if Revisions(a) == Revisions(b) {
      SameTextSameParts(a, b);
      forall v, w | PartOf(v) == PartOf(w)
        ensures v == w
      {
        PartTells(v, w);
      }
      Unmapped(Map(a, Who), Map(b, Who), PartOf);
    }
    if multiset(Map(a, Who)) == multiset(Map(b, Who)) {
      MappedReordered(Map(a, Who), Map(b, Who), PartOf);
      SortStrings(Map(a, Part), Map(b, Part));
    }
  }

  // ----- where it does not

  lemma SortedStays(parts: seq<string>)
    requires Sorted(parts, StringLe)
    ensures Sort(parts, StringLe) == parts
  {
    StringSound();
    SortSorts(parts, StringLe);
    SortKeeps(parts, StringLe);
    forall x, y | StringLe(x, y) && StringLe(y, x)
      ensures x == y
    {
      StringTotal(x, y);
    }
    SortedUnique(Sort(parts, StringLe), parts, StringLe);
  }

  /** Tenants whose ids begin with ever later characters. */
  predicate Spread(stats: seq<Statistic>) {
    && (forall s | s in stats :: s.tenant != "")
    && forall i, j | 0 <= i < j < |stats| :: stats[i].tenant[0] < stats[j].tenant[0]
  }

  lemma SpreadIsSorted(stats: seq<Statistic>)
    requires Spread(stats)
    ensures Sort(Map(stats, Part), StringLe) == Map(stats, Part)
  {
    var parts := Map(stats, Part);
    forall i | 0 <= i < |parts|
      ensures parts[i] != "" && parts[i][0] == stats[i].tenant[0]
    {
      assert stats[i] in stats && parts[i] == Part(stats[i]);
    }
    SortedStays(parts);
  }

  /** Two tenants as one: the id of the second with the part of the first before it. */
  function Merged(p: Statistic, q: Statistic): Statistic {
    q.(tenant := Part(p) + "|" + q.tenant)
  }

  lemma Joined(x: string, y: string, tail: seq<string>)
    ensures Join([x, y] + tail) == Join([x + "|" + y] + tail)
  {
    assert ([x, y] + tail)[1..] == [y] + tail && ([y] + tail)[1..] == tail;
    assert ([x + "|" + y] + tail)[1..] == tail;
    if tail != [] {
      assert x + "|" + (y + "|" + Join(tail)) == (x + "|" + y) + "|" + Join(tail);
    }
  }

  lemma MergedPart(p: Statistic, q: Statistic)
    ensures Part(Merged(p, q)) == Part(p) + "|" + Part(q)
  {
  }

  lemma MergedSpread(p: Statistic, q: Statistic, rest: seq<Statistic>)
    requires Spread([p, q] + rest)
    ensures Spread([Merged(p, q)] + rest)
  {
    var a, b := [p, q] + rest, [Merged(p, q)] + rest;
    assert a[0] in a && Part(p)[0] == p.tenant[0];
    forall i | 1 <= i < |b|
      ensures b[i] == a[i + 1] && b[i] in a
    {
    }
  }

  /** With a separator in a tenant id the text does not tell: any two tenants among others can be replaced by one. */
  lemma SeparatorConfuses(p: Statistic, q: Statistic, rest: seq<Statistic>, encode: string -> seq<byte>)
    requires Spread([p, q] + rest)
    ensures var a, b := [p, q] + rest, [Merged(p, q)] + rest;
      && Revisions(a) == Revisions(b) && Digest(a, encode) == Digest(b, encode)
      && (Accepted(a) && |rest| >= 2 ==> Accepted(b))
      && multiset(Map(a, Who)) != multiset(Map(b, Who))
  {
    var a, b := [p, q] + rest, [Merged(p, q)] + rest;
    MergedSpread(p, q, rest);
    SpreadIsSorted(a);
    SpreadIsSorted(b);
    MergedPart(p, q);
    Joined(Part(p), Part(q), Map(rest, Part));
    TwoAndRest(p, q, rest);
    StillAcceptedMerged(p, q, rest);
    if multiset(Map(a, Who)) == multiset(Map(b, Who)) {
      SameElements(Map(a, Who), Map(b, Who));
    }
  }

  lemma TwoAndRest(p: Statistic, q: Statistic, rest: seq<Statistic>)
    ensures Map([p, q] + rest, Part) == [Part(p), Part(q)] + Map(rest, Part)
    ensures Map([Merged(p, q)] + rest, Part) == [Part(Merged(p, q))] + Map(rest, Part)
  {
    MapAppend([p, q], rest, Part);
    MapAppend([Merged(p, q)], rest, Part);
    assert Map([p, q], Part) == [Part(p), Part(q)] && Map([Merged(p, q)], Part) == [Part(Merged(p, q))];
  }

  lemma StillAcceptedMerged(p: Statistic, q: Statistic, rest: seq<Statistic>)
    ensures Accepted([p, q] + rest) && |rest| >= 2 ==> Accepted([Merged(p, q)] + rest)
  {
    var a, b := [p, q] + rest, [Merged(p, q)] + rest;
    if Accepted(a) && |rest| >= 2 {
      forall i | 0 <= i < |b|
        ensures b[i].context == a[0].context && Exportable(b[i])
      {
        assert b[i] == if i == 0 then Merged(p, q) else a[i + 1];
        assert a[1] == q;
      }
    }
  }

  // ----- the checksum of the text

  /** The digests differ exactly when the checksums of the texts do. */
  lemma DigestsDifferIff(a: seq<Statistic>, b: seq<Statistic>, encode: string -> seq<byte>)
    ensures Digest(a, encode) != Digest(b, encode) <==>
      Crc32.Crc(encode(Revisions(a))) != Crc32.Crc(encode(Revisions(b)))
  {
    var x, y := Crc32.Crc(encode(Revisions(a))), Crc32.Crc(encode(Revisions(b)));
    if Hex(x as nat) == Hex(y as nat) {
      HexInjective(x as nat, y as nat);
      WordInjective(x, y);
    }
  }

  function Below(n: nat): set<nat> {
    if n == 0 then {} else Below(n - 1) + {n - 1}
  }

  lemma {:induction false} BelowIs(n: nat)
    ensures |Below(n)| == n && forall i: nat :: i in Below(n) <==> i < n
  {
    if n > 0 {
      BelowIs(n - 1);
    }
  }

  function Image(f: nat -> nat, k: nat): set<nat> {
    if k == 0 then {} else Image(f, k - 1) + {f(k - 1)}
  }

  lemma {:induction false} NotInImage(f: nat -> nat, k: nat, x: nat)
    requires forall i: nat | i < k :: f(i) != x
    ensures x !in Image(f, k)
  {
    if k > 0 {
      NotInImage(f, k - 1, x);
    }
  }

  lemma {:induction false} ImageBelow(f: nat -> nat, k: nat, n: nat)
    requires forall i: nat | i < k :: f(i) < n
    ensures forall x | x in Image(f, k) :: x < n
  {
    if k > 0 {
      ImageBelow(f, k - 1, n);
    }
  }

  lemma {:induction false} ImageHas(f: nat -> nat, k: nat)
    requires forall i: nat, j: nat | i < j < k :: f(i) != f(j)
    ensures |Image(f, k)| == k
  {
    if k > 0 {
      ImageHas(f, k - 1);
      NotInImage(f, k - 1, f(k - 1));
    }
  }

  /** More things than places. */
  lemma Crowded(f: nat -> nat, n: nat)
    requires forall i: nat | i <= n :: f(i) < n
    ensures exists i: nat, j: nat | i < j <= n :: f(i) == f(j)
  {
    if forall i: nat, j: nat | i < j <= n :: f(i) != f(j) {
      ImageHas(f, n + 1);
      ImageBelow(f, n + 1, n);
      BelowIs(n);
      Smaller(Image(f, n + 1), Below(n));
    }
  }

  lemma Smaller(a: set<nat>, b: set<nat>)
    requires a <= b
    ensures |a| <= |b|
  {
    assert b == a + (b - a);
  }

  /** So the promise that the digest changes with every tenant cannot hold: next to any others, some two tenants can
      stand in for each other under one digest. */
  lemma DigestMustCollide(others: seq<Statistic>, s: Statistic, encode: string -> seq<byte>)
    ensures exists i: nat, j: nat | i < j ::
      Digest(others + [s.(tenant := Digits(i))], encode) == Digest(others + [s.(tenant := Digits(j))], encode)
  {
    var f := (i: nat) => Crc32.Crc(encode(Revisions(others + [s.(tenant := Digits(i))]))) as nat;
    Crowded(f, 0x1_0000_0000);
    var i: nat, j: nat :| i < j <= 0x1_0000_0000 && f(i) == f(j);
    WordInjective(Crc32.Crc(encode(Revisions(others + [s.(tenant := Digits(i))]))),
                  Crc32.Crc(encode(Revisions(others + [s.(tenant := Digits(j))]))));
  }
}
