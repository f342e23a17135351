/** Aggregating calibration statistics over tenants without trusting any one of them. */
module Federated {
  import opened Prelude
  import opened Lists
  import opened Sorting
  import opened DedupKeys
  import Crc32

  const MIN_PARTICIPATING_TENANTS := 3
  const MINIMUM_COHORT_SAMPLE_SUPPORT := 30

  datatype Statistic = Statistic(tenant: string, context: string, evaluable: nat, residual: real, revision: nat)

  datatype Refusal =
    | TooFewParticipants(got: nat, required: nat)
    | ParticipantBelowSupportThreshold(tenant: string)
    | ContextLabelMismatch

  datatype Summary = Summary(purpose: string, context: string, tenants: nat, digest: string, aggregate: real)

  predicate RealLe(a: real, b: real) {
    a <= b
  }

  function Residual(s: Statistic): real {
    s.residual
  }

  /** The middle of the sorted values, or the mean of the two middle ones. */
  function Median(values: seq<real>): real
    requires values != []
  {
    var sorted, n := Sort(values, RealLe), |values|;
    SortKeeps(values, RealLe);
    if n % 2 == 1 then sorted[n / 2] else (sorted[n / 2 - 1] + sorted[n / 2]) / 2.0
  }

  function Digits(n: nat): string {
    if n < 10 then [('0' as int + n) as char] else Digits(n / 10) + [('0' as int + n % 10) as char]
  }

  function Part(s: Statistic): string {
    s.tenant + ":" + Digits(s.revision)
  }

  function Join(parts: seq<string>): string {
    if parts == [] then "" else if |parts| == 1 then parts[0] else parts[0] + "|" + Join(parts[1..])
  }

  /** The digest over the sorted tenants and revisions; `encode` gives the bytes of a text. */
  function Digest(stats: seq<Statistic>, encode: string -> seq<byte>): string {
    Hex(Crc32.Crc(encode(Revisions(stats))) as nat)
  }

  function Revisions(stats: seq<Statistic>): string {
    Join(Sort(Map(stats, Part), StringLe))
  }

  /** Lower-case hexadecimal without leading zeros. */
  function Hex(n: nat): string {
    if n < 16 then [HexDigit(n)] else Hex(n / 16) + [HexDigit(n % 16)]
  }

  lemma {:induction false} HexInjective(a: nat, b: nat)
    requires Hex(a) == Hex(b)
    ensures a == b
  {
    var s := Hex(a);
    HexRoundTrip(a % 16);
    HexRoundTrip(b % 16);
    assert s[|s| - 1] == HexDigit(a % 16) == HexDigit(b % 16);
    assert s[..|s| - 1] == (if a < 16 then "" else Hex(a / 16)) == (if b < 16 then "" else Hex(b / 16));
    if a >= 16 && b >= 16 {
      HexInjective(a / 16, b / 16);
    }
  }

  predicate Exportable(s: Statistic) {
    s.evaluable >= MINIMUM_COHORT_SAMPLE_SUPPORT
  }

  predicate Accepted(stats: seq<Statistic>) {
    && |stats| >= MIN_PARTICIPATING_TENANTS
    && (forall i | 0 <= i < |stats| :: stats[i].context == stats[0].context)
    && (forall i | 0 <= i < |stats| :: Exportable(stats[i]))
  }

  function Export(purpose: string, stats: seq<Statistic>, encode: string -> seq<byte>): Summary
    requires stats != []
  {
    Summary(purpose, stats[0].context, |stats|, Digest(stats, encode), Median(Map(stats, Residual)))
  }

  /** The export, or the first reason there is none. */
  method BuildAggregateExport(purpose: string, stats: seq<Statistic>, encode: string -> seq<byte>)
    returns (r: Result<Summary, Refusal>)
    ensures r.Ok? <==> Accepted(stats)
    ensures r.Ok? ==> r.value == Export(purpose, stats, encode)
    ensures |stats| < MIN_PARTICIPATING_TENANTS <==> r == Err(TooFewParticipants(|stats|, MIN_PARTICIPATING_TENANTS))
    ensures r == Err(ContextLabelMismatch) <==>
      |stats| >= MIN_PARTICIPATING_TENANTS && exists i | 0 <= i < |stats| :: stats[i].context != stats[0].context
    ensures r.Err? && r.error.ParticipantBelowSupportThreshold? ==>
      exists i | 0 <= i < |stats| ::
        stats[i].tenant == r.error.tenant && !Exportable(stats[i]) && forall j | 0 <= j < i :: Exportable(stats[j])
  {
    if |stats| < MIN_PARTICIPATING_TENANTS {
      return Err(TooFewParticipants(|stats|, MIN_PARTICIPATING_TENANTS));
    }
    if exists i | 0 <= i < |stats| :: stats[i].context != stats[0].context {
      return Err(ContextLabelMismatch);
    }
    for i := 0 to |stats|
      invariant forall j | 0 <= j < i :: Exportable(stats[j])
    {
      if !Exportable(stats[i]) {
        return Err(ParticipantBelowSupportThreshold(stats[i].tenant));
      }
    }
    var crc := Crc32.Crc32Of(encode(Revisions(stats)));
    return Ok(Summary(purpose, stats[0].context, |stats|, Hex(crc as nat), Median(Map(stats, Residual))));
  }

  // ----- order statistics

  function Under(v: seq<real>, m: real): nat {
    CountIf(v, (x: real) => x < m)
  }

  function UpTo(v: seq<real>, m: real): nat {
    CountIf(v, (x: real) => x <= m)
  }

  lemma {:induction false} CountInserted<T>(x: T, s: seq<T>, le: Order<T>, p: T -> bool)
    ensures CountIf(Insert(x, s, le), p) == CountIf(s, p) + if p(x) then 1 else 0
  {
    if s == [] || le(x, s[0]) {
      assert ([x] + s)[1..] == s;
    } else {
      CountInserted(x, s[1..], le, p);
      var rest := Insert(x, s[1..], le);
      assert ([s[0]] + rest)[1..] == rest;
    }
  }

  lemma {:induction false} CountSorted<T>(s: seq<T>, le: Order<T>, p: T -> bool)
    ensures CountIf(Sort(s, le), p) == CountIf(s, p)
  {
    if s != [] {
      CountSorted(s[1..], le, p);
      CountInserted(s[0], Sort(s[1..], le), le, p);
    }
  }

  lemma {:induction false} CountCut<T>(s: seq<T>, k: nat, p: T -> bool)
    requires k <= |s|
    ensures CountIf(s, p) == CountIf(s[..k], p) + CountIf(s[k..], p)
    ensures CountIf(s[..k], p) <= k
  {
    assert s == s[..k] + s[k..];
    CountAppend(s[..k], s[k..], p);
    LengthIsCount(s[..k], p);
  }

  lemma {:induction false} CountAll<T>(s: seq<T>, p: T -> bool, all: bool)
    requires forall x | x in s :: p(x) == all
    ensures CountIf(s, p) == if all then |s| else 0
  {
    if s != [] {
      assert s[0] in s && forall x | x in s[1..] :: x in s;
      CountAll(s[1..], p, all);
    }
  }

  lemma RealSound()
    ensures Sound(RealLe)
  {
  }

  /** In a sorted list, few values lie under a value that position `k` reaches. */
  lemma UnderReached(s: seq<real>, k: nat, m: real)
    requires Sorted(s, RealLe) && k < |s|
    ensures s[k] >= m ==> Under(s, m) <= k
    ensures s[k] > m ==> UpTo(s, m) <= k
  {
    CountCut(s, k, (x: real) => x < m);
    CountCut(s, k, (x: real) => x <= m);
    if s[k] >= m {
      CountAll(s[k..], (x: real) => x < m, false);
    }
    if s[k] > m {
      CountAll(s[k..], (x: real) => x <= m, false);
    }
  }

  lemma UpToReached(s: seq<real>, k: nat, m: real)
    requires Sorted(s, RealLe) && k < |s|
    ensures s[k] <= m ==> UpTo(s, m) > k
    ensures s[k] < m ==> Under(s, m) > k
  {
    CountCut(s, k + 1, (x: real) => x < m);
    CountCut(s, k + 1, (x: real) => x <= m);
    if s[k] <= m {
      CountAll(s[..k + 1], (x: real) => x <= m, true);
    }
    if s[k] < m {
      CountAll(s[..k + 1], (x: real) => x < m, true);
    }
  }

  function Kth(v: seq<real>, k: nat): real
    requires k < |v|
  {
    SortKeeps(v, RealLe);
    Sort(v, RealLe)[k]
  }

  /** The k-th smallest value is the only one with at most `k` values under it and more than `k` up to it. */
  lemma KthIff(v: seq<real>, k: nat, m: real)
    requires k < |v|
    ensures Kth(v, k) == m <==> Under(v, m) <= k < UpTo(v, m)
  {
    RealSound();
    SortSorts(v, RealLe);
    SortKeeps(v, RealLe);
    var s := Sort(v, RealLe);
    CountSorted(v, RealLe, (x: real) => x < m);
    CountSorted(v, RealLe, (x: real) => x <= m);
    UnderReached(s, k, m);
    UpToReached(s, k, m);
  }

  // ----- robustness

  lemma MedianIs(v: seq<real>)
    requires v != []
    ensures |v| % 2 == 1 ==> Median(v) == Kth(v, |v| / 2)
    ensures |v| % 2 == 0 ==> Median(v) == (Kth(v, |v| / 2 - 1) + Kth(v, |v| / 2)) / 2.0
  {
  }

  function Inside(v: seq<real>, lo: real, hi: real): nat {
    CountIf(v, (x: real) => lo <= x <= hi)
  }

  lemma {:induction false} InsideBounds(v: seq<real>, lo: real, hi: real)
    ensures Under(v, lo) + Inside(v, lo, hi) <= |v|
    ensures Inside(v, lo, hi) <= UpTo(v, hi)
  {
    if v != [] {
      InsideBounds(v[1..], lo, hi);
    }
  }

  /** When more than half of the values lie in a range, every position in the middle does. */
  lemma MiddleInside(v: seq<real>, k: nat, lo: real, hi: real)
    requires k < |v| && 2 * Inside(v, lo, hi) > |v| && |v| / 2 - 1 <= k <= |v| / 2
    requires |v| % 2 == 1 ==> k == |v| / 2
    ensures lo <= Kth(v, k) <= hi
  {
    RealSound();
    SortSorts(v, RealLe);
    SortKeeps(v, RealLe);
    InsideBounds(v, lo, hi);
    var s := Sort(v, RealLe);
    CountSorted(v, RealLe, (x: real) => x < lo);
    CountSorted(v, RealLe, (x: real) => x <= hi);
    UpToReached(s, k, lo);
    UnderReached(s, k, hi);
  }

  /** With more than half of the values in a range, the aggregate is in it too, whatever the others are. */
  lemma MajorityHolds(v: seq<real>, lo: real, hi: real)
    requires v != [] && 2 * Inside(v, lo, hi) > |v|
    ensures lo <= Median(v) <= hi
  {
    MedianIs(v);
    MiddleInside(v, |v| / 2, lo, hi);
    if |v| % 2 == 0 {
      MiddleInside(v, |v| / 2 - 1, lo, hi);
    }
  }

  predicate Between(v: seq<real>, lo: real, hi: real) {
    forall x | x in v :: lo <= x <= hi
  }

  /** With more honest values than others, the aggregate stays in the honest range. */
  lemma HonestMajority(honest: seq<real>, others: seq<real>, lo: real, hi: real)
    requires |honest| > |others| && Between(honest, lo, hi)
    ensures lo <= Median(honest + others) <= hi
  {
    CountAppend(honest, others, (x: real) => lo <= x <= hi);
    CountAll(honest, (x: real) => lo <= x <= hi, true);
    MajorityHolds(honest + others, lo, hi);
  }

  function Copies(x: real, m: nat): (v: seq<real>)
    ensures |v| == m && forall i | 0 <= i < m :: v[i] == x
  {
    seq(m, i => x)
  }

  /** At least as many equal values above the honest ones take over the upper middle. */
  lemma TakesUpperMiddle(honest: seq<real>, hi: real, x: real, m: nat)
    requires m >= |honest| && m > 0 && x > hi && forall y | y in honest :: y <= hi
    ensures Kth(honest + Copies(x, m), (|honest| + m) / 2) == x
  {
    var v, c := honest + Copies(x, m), Copies(x, m);
    CountAppend(honest, c, (y: real) => y < x);
    CountAppend(honest, c, (y: real) => y <= x);
    CountAll(honest, (y: real) => y < x, true);
    CountAll(honest, (y: real) => y <= x, true);
    CountAll(c, (y: real) => y < x, false);
    CountAll(c, (y: real) => y <= x, true);
    KthIff(v, (|honest| + m) / 2, x);
  }

  lemma KthInside(v: seq<real>, k: nat, lo: real)
    requires k < |v| && forall y | y in v :: y >= lo
    ensures Kth(v, k) >= lo
  {
    SortKeeps(v, RealLe);
    SameElements(Sort(v, RealLe), v);
    assert Kth(v, k) in Sort(v, RealLe);
  }

  /** At least as many others as honest values can always push the aggregate out of the honest range. */
  lemma HalfBreaks(honest: seq<real>, m: nat, lo: real, hi: real) returns (x: real)
    requires honest != [] && Between(honest, lo, hi) && m >= |honest|
    ensures Median(honest + Copies(x, m)) > hi
  {
    x := 2.0 * hi - lo + 1.0;
    assert lo <= honest[0] <= hi < x by { assert honest[0] in honest; }
    var v := honest + Copies(x, m);
    TakesUpperMiddle(honest, hi, x, m);
    MedianIs(v);
    if |v| % 2 == 0 {
      assert forall y | y in v :: y in honest || y == x;
      KthInside(v, |v| / 2 - 1, lo);
    }
  }

  /** The honest range holds against every choice of `m` other values exactly when more than half are honest. */
  lemma RobustIff(honest: seq<real>, m: nat, lo: real, hi: real)
    requires honest != [] && Between(honest, lo, hi)
    ensures (forall others: seq<real> | |others| == m :: lo <= Median(honest + others) <= hi) <==> |honest| > m
  {
    if |honest| > m {
      forall others: seq<real> | |others| == m
        ensures lo <= Median(honest + others) <= hi
      {
        HonestMajority(honest, others, lo, hi);
      }
    } else {
      var x := HalfBreaks(honest, m, lo, hi);
      assert |Copies(x, m)| == m;
    }
  }

  predicate HonestBetween(honest: seq<Statistic>, lo: real, hi: real) {
    forall s | s in honest :: lo <= s.residual <= hi
  }

  lemma HonestResiduals(honest: seq<Statistic>, lo: real, hi: real)
    requires HonestBetween(honest, lo, hi)
    ensures Between(Map(honest, Residual), lo, hi)
  {
    var v := Map(honest, Residual);
    forall x | x in v
      ensures lo <= x <= hi
    {
      var i :| 0 <= i < |v| && v[i] == x;
      assert honest[i] in honest;
    }
  }

  /** An accepted export with more honest participants than others reports an aggregate in the honest range. */
  lemma ExportHolds(honest: seq<Statistic>, others: seq<Statistic>, purpose: string, encode: string -> seq<byte>,
                    lo: real, hi: real)
    requires |honest| > |others| && HonestBetween(honest, lo, hi)
    ensures lo <= Export(purpose, honest + others, encode).aggregate <= hi
  {
    HonestResiduals(honest, lo, hi);
    MapAppend(honest, others, Residual);
    HonestMajority(Map(honest, Residual), Map(others, Residual), lo, hi);
  }

  /** The same participants with another residual. */
  function Claiming(others: seq<Statistic>, x: real): (r: seq<Statistic>)
    ensures |r| == |others| && forall i | 0 <= i < |others| :: r[i] == others[i].(residual := x)
  {
    Map(others, (s: Statistic) => s.(residual := x))
  }

  /** Otherwise the others, keeping everything else about themselves, can be accepted with an aggregate above it. */
  lemma ExportBreaks(honest: seq<Statistic>, others: seq<Statistic>, purpose: string, encode: string -> seq<byte>,
                     lo: real, hi: real) returns (x: real)
    requires honest != [] && |others| >= |honest| && HonestBetween(honest, lo, hi) && Accepted(honest + others)
    ensures Accepted(honest + Claiming(others, x))
    ensures Export(purpose, honest + Claiming(others, x), encode).aggregate > hi
  {
    HonestResiduals(honest, lo, hi);
    x := HalfBreaks(Map(honest, Residual), |others|, lo, hi);
    var lies := Claiming(others, x);
    StillAccepted(honest, others, x);
    MapAppend(honest, lies, Residual);
    assert Map(lies, Residual) == Copies(x, |others|);
  }

  lemma StillAccepted(honest: seq<Statistic>, others: seq<Statistic>, x: real)
    requires honest != [] && Accepted(honest + others)
    ensures Accepted(honest + Claiming(others, x))
  {
    var all, changed := honest + others, honest + Claiming(others, x);
    forall i | 0 <= i < |changed|
      ensures changed[i].context == changed[0].context && Exportable(changed[i])
    {
      assert all[i].context == all[0].context && Exportable(all[i]);
    }
  }

  /** Among accepted exports the honest range is kept, whatever the others claim, exactly when the honest are more. */
  lemma ExportRobustIff(honest: seq<Statistic>, others: seq<Statistic>, purpose: string, encode: string -> seq<byte>,
                        lo: real, hi: real)
    requires honest != [] && HonestBetween(honest, lo, hi) && Accepted(honest + others)
    ensures (forall lies: seq<Statistic> | |lies| == |others| && Accepted(honest + lies) ::
               lo <= Export(purpose, honest + lies, encode).aggregate <= hi)
       <==> |honest| > |others|
  {
    if |honest| > |others| {
      forall lies: seq<Statistic> | |lies| == |others| && Accepted(honest + lies)
        ensures lo <= Export(purpose, honest + lies, encode).aggregate <= hi
      {
        ExportHolds(honest, lies, purpose, encode, lo, hi);
      }
    } else {
      var x := ExportBreaks(honest, others, purpose, encode, lo, hi);
      assert |Claiming(others, x)| == |others|;
    }
  }

  lemma {:induction false} CountUpdated(v: seq<real>, i: nat, x: real, p: real -> bool)
    requires i < |v|
    ensures CountIf(v[i := x], p) == CountIf(v, p) - (if p(v[i]) then 1 else 0) + if p(x) then 1 else 0
  {
    if i == 0 {
      assert v[0 := x][1..] == v[1..];
    } else {
      assert v[i := x][1..] == v[1..][i - 1 := x];
      CountUpdated(v[1..], i - 1, x, p);
    }
  }

  lemma KthUnmoved(v: seq<real>, i: nat, x: real, k: nat, up: bool)
    requires i < |v| && k < |v|
    requires if up then v[i] > Kth(v, k) && x >= Kth(v, k) else v[i] < Kth(v, k) && x <= Kth(v, k)
    ensures Kth(v[i := x], k) == Kth(v, k)
  {
    var m := Kth(v, k);
    KthIff(v, k, m);
    CountUpdated(v, i, x, (y: real) => y < m);
    CountUpdated(v, i, x, (y: real) => y <= m);
    KthIff(v[i := x], k, m);
  }

  /** Moving a value that is above the upper middle anywhere not below it changes nothing. */
  lemma RaisingChangesNothing(v: seq<real>, i: nat, x: real)
    requires i < |v| && v[i] > Kth(v, |v| / 2) && x >= Kth(v, |v| / 2)
    ensures Median(v[i := x]) == Median(v)
  {
    KthUnmoved(v, i, x, |v| / 2, true);
    if |v| % 2 == 0 {
      MiddlesOrdered(v);
      KthUnmoved(v, i, x, |v| / 2 - 1, true);
    }
    MedianIs(v);
    MedianIs(v[i := x]);
  }

  /** Likewise below the lower middle. */
  lemma LoweringChangesNothing(v: seq<real>, i: nat, x: real)
    requires i < |v|
    requires var k := if |v| % 2 == 0 then |v| / 2 - 1 else |v| / 2; v[i] < Kth(v, k) && x <= Kth(v, k)
    ensures Median(v[i := x]) == Median(v)
  {
    if |v| % 2 == 0 {
      MiddlesOrdered(v);
      KthUnmoved(v, i, x, |v| / 2 - 1, false);
    }
    KthUnmoved(v, i, x, |v| / 2, false);
    MedianIs(v);
    MedianIs(v[i := x]);
  }

  lemma MiddlesOrdered(v: seq<real>)
    requires v != [] && |v| % 2 == 0
    ensures Kth(v, |v| / 2 - 1) <= Kth(v, |v| / 2)
  {
    RealSound();
    SortSorts(v, RealLe);
    SortKeeps(v, RealLe);
    assert RealLe(Sort(v, RealLe)[|v| / 2 - 1], Sort(v, RealLe)[|v| / 2]);
  }

  // ----- order of the participants

  lemma MedianReordered(v: seq<real>, u: seq<real>)
    requires v != [] && multiset(v) == multiset(u)
    ensures |u| == |v| && Median(v) == Median(u)
  {
    RealSound();
    SameElements(v, u);
    SortSorts(v, RealLe);
    SortSorts(u, RealLe);
    SortKeeps(v, RealLe);
    SortKeeps(u, RealLe);
    SortedUnique(Sort(v, RealLe), Sort(u, RealLe), RealLe);
  }

  /** The same participants in another order are accepted alike and give the same summary. */
  lemma OrderIrrelevant(a: seq<Statistic>, b: seq<Statistic>, purpose: string, encode: string -> seq<byte>)
    requires multiset(a) == multiset(b)
    ensures Accepted(a) <==> Accepted(b)
    ensures Accepted(a) ==> Export(purpose, a, encode) == Export(purpose, b, encode)
  {
    SameElements(a, b);
    AcceptedReordered(a, b);
    AcceptedReordered(b, a);
    if Accepted(a) {
      MappedReordered(a, b, Part);
      SortStrings(Map(a, Part), Map(b, Part));
      MappedReordered(a, b, Residual);
      MedianReordered(Map(a, Residual), Map(b, Residual));
    }
  }

  lemma AcceptedReordered(a: seq<Statistic>, b: seq<Statistic>)
    requires |a| == |b| && forall x :: x in a <==> x in b
    ensures Accepted(a) ==> Accepted(b) && a[0].context == b[0].context
  {
    if Accepted(a) {
      forall i | 0 <= i < |b|
        ensures b[i].context == a[0].context && Exportable(b[i])
      {
        assert b[i] in b;
        var k :| 0 <= k < |a| && a[k] == b[i];
      }
    }
  }

  lemma WordInjective(a: bv32, b: bv32)
    requires a as nat == b as nat
    ensures a == b
  {
    var n := a as nat;
    assert n as bv32 == a && n as bv32 == b;
  }

  /** When the bytes of two revision lists differ, and only inside four consecutive bytes, so do the digests: a
      changed revision digit or a few changed characters of a tenant id are always seen. */
  lemma DigestSeesSmallChange(a: seq<Statistic>, b: seq<Statistic>, encode: string -> seq<byte>,
                              prefix: seq<byte>, w: seq<byte>, v: seq<byte>, suffix: seq<byte>)
    requires encode(Revisions(a)) == prefix + w + suffix && encode(Revisions(b)) == prefix + v + suffix
    requires |w| == |v| <= 4 && w != v
    ensures Digest(a, encode) != Digest(b, encode)
  {
    Crc32.FourByteWindow(prefix, w, v, suffix);
    var x, y := Crc32.Crc(prefix + w + suffix), Crc32.Crc(prefix + v + suffix);
    if Hex(x as nat) == Hex(y as nat) {
      HexInjective(x as nat, y as nat);
      WordInjective(x, y);
    }
  }
}
