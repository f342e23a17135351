/** The export in plain numbers and texts. */
module FederatedLaws {
  import opened Prelude
  import opened Lists
  import opened Sorting
  import opened DedupKeys
  import opened Federated
  import opened FederatedDigest
  import Text
  import Crc32

  /** Exported are exactly three or more statistics of one context with at least thirty observations each. */
  lemma {:induction false} AcceptedMeans(stats: seq<Statistic>)
    ensures Accepted(stats) <==>
      && |stats| >= 3
      && (forall s, t | s in stats && t in stats :: s.context == t.context)
      && (forall s | s in stats :: s.evaluable >= 30)
  {
    forall i | 0 <= i < |stats|
      ensures stats[i] in stats && stats[0] in stats
    {
    }
    forall s | s in stats
      ensures exists i | 0 <= i < |stats| :: stats[i] == s
    {
    }
  }

  /** An export states its purpose, the context of every participant and their number. */
  lemma {:induction false} ExportSays(purpose: string, stats: seq<Statistic>, encode: string -> seq<byte>, s: Statistic)
    requires Accepted(stats) && s in stats
    ensures var e := Export(purpose, stats, encode);
      e.purpose == purpose && e.context == s.context && e.tenants == |stats|
  {
    AcceptedMeans(stats);
    assert stats[0] in stats;
  }

  /** A value in place `k` of the residuals, by counting: at most `k` are under it and more than `k` up to it. */
  predicate InPlace(stats: seq<Statistic>, k: nat, m: real) {
    var v := Map(stats, Residual);
    Under(v, m) <= k < UpTo(v, m)
  }

  /** The aggregate of an odd number of residuals is the one in the middle place. */
  lemma {:induction false} OddAggregateIff(purpose: string, stats: seq<Statistic>, encode: string -> seq<byte>, m: real)
    requires |stats| % 2 == 1
    ensures Export(purpose, stats, encode).aggregate == m <==> InPlace(stats, |stats| / 2, m)
  {
    MedianIs(Map(stats, Residual));
    KthIff(Map(stats, Residual), |stats| / 2, m);
  }

  /** That of an even number is halfway between the two in the middle places. */
  lemma {:induction false} EvenAggregateIs(
    purpose: string, stats: seq<Statistic>, encode: string -> seq<byte>, lower: real, upper: real
  )
    requires stats != [] && |stats| % 2 == 0
    requires InPlace(stats, |stats| / 2 - 1, lower) && InPlace(stats, |stats| / 2, upper)
    ensures Export(purpose, stats, encode).aggregate == (lower + upper) / 2.0
  {
    EvenMedian(Map(stats, Residual), |stats| / 2, lower, upper);
  }

  lemma {:induction false} EvenMedian(v: seq<real>, k: nat, lower: real, upper: real)
    requires v != [] && |v| == 2 * k
    requires Under(v, lower) <= k - 1 < UpTo(v, lower) && Under(v, upper) <= k < UpTo(v, upper)
    ensures Median(v) == (lower + upper) / 2.0
  {
    assert |v| % 2 == 0 && |v| / 2 == k;
    MedianIs(v);
    KthIff(v, k - 1, lower);
    KthIff(v, k, upper);
  }

  // ----- the text under the digest, and the digest

  /** The value of a digit, and of a text of digits to some base. */
  function Value(c: char): nat {
    if '0' <= c <= '9' then c as nat - '0' as nat else if 'a' <= c <= 'f' then c as nat - 'a' as nat + 10 else 0
  }

  function Number(s: string, base: nat): nat {
    if s == "" then 0 else Number(s[..|s| - 1], base) * base + Value(s[|s| - 1])
  }

  /** Revisions are written in decimal, without leading zeros. */
  lemma {:induction false} DigitsRead(n: nat)
    ensures Digits(n) != "" && Number(Digits(n), 10) == n && (Digits(n)[0] == '0' <==> n == 0)
  {
    var s := Digits(n);
    assert Value(s[|s| - 1]) == n % 10;
    if n >= 10 {
      DigitsRead(n / 10);
      assert s[..|s| - 1] == Digits(n / 10);
    } else {
      assert s[..|s| - 1] == "";
    }
  }

  /** Digests are written in hexadecimal, without leading zeros. */
  lemma {:induction false} HexReads(n: nat)
    ensures Hex(n) != "" && Number(Hex(n), 16) == n && (Hex(n)[0] == '0' <==> n == 0)
  {
    var s := Hex(n);
    assert Value(HexDigit(n % 16)) == n % 16;
    if n >= 16 {
      HexReads(n / 16);
      assert s[..|s| - 1] == Hex(n / 16);
    } else {
      assert s[..|s| - 1] == "";
    }
  }

  /** The text under the digest, cut at its separators: in ascending order, one piece for each participant, its
      tenant, a colon and its revision. */
  lemma {:induction false} TextUnderDigest(stats: seq<Statistic>)
    requires stats != [] && forall s | s in stats :: '|' !in s.tenant
    ensures var pieces := Text.Split(Revisions(stats), '|');
      && (forall i, j | 0 <= i < j < |pieces| :: StringLe(pieces[i], pieces[j]))
      && multiset(pieces) == multiset(Map(stats, (s: Statistic) => s.tenant + ":" + Digits(s.revision)))
  {
    var parts := Map(stats, Part);
    var sorted := Sort(parts, StringLe);
    PartsPipeFree(stats);
    StringSound();
    SortSorts(parts, StringLe);
    SortKeeps(parts, StringLe);
    SameElements(sorted, parts);
    PartsReadBack(sorted);
    assert parts == Map(stats, (s: Statistic) => s.tenant + ":" + Digits(s.revision));
  }

  /** The digest is the checksum of that text, as a number. */
  lemma {:induction false} DigestReads(stats: seq<Statistic>, encode: string -> seq<byte>)
    ensures Number(Digest(stats, encode), 16) == Crc32.Crc(encode(Revisions(stats))) as nat
  {
    HexReads(Crc32.Crc(encode(Revisions(stats))) as nat);
  }
}
