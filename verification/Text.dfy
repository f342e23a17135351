/** The string operations the modelled code relies on. */
module Text {
  import opened Prelude

  /** The Unicode White_Space code points, which `trim` strips. */
  predicate IsWhitespace(c: char) {
    var n := c as int;
    || 0x9 <= n <= 0xD || n == 0x20 || n == 0x85 || n == 0xA0 || n == 0x1680
    || 0x2000 <= n <= 0x200A || n == 0x2028 || n == 0x2029 || n == 0x202F
    || n == 0x205F || n == 0x3000
  }

  /** The characters with the Unicode property White_Space, one by one. */
  const WHITE_SPACE: seq<int> := [
    0x9, 0xA, 0xB, 0xC, 0xD, 0x20, 0x85, 0xA0, 0x1680,
    0x2000, 0x2001, 0x2002, 0x2003, 0x2004, 0x2005, 0x2006, 0x2007, 0x2008, 0x2009, 0x200A,
    0x2028, 0x2029, 0x202F, 0x205F, 0x3000
  ]

  lemma WhitespaceIs(c: char)
    ensures IsWhitespace(c) <==> c as int in WHITE_SPACE
  {
  }

  predicate Blank(s: string) {
    forall i | 0 <= i < |s| :: IsWhitespace(s[i])
  }

  function TrimStart(s: string): string {
    if s != "" && IsWhitespace(s[0]) then TrimStart(s[1..]) else s
  }

  function TrimEnd(s: string): string {
    if s != "" && IsWhitespace(s[|s| - 1]) then TrimEnd(s[..|s| - 1]) else s
  }

  function Trim(s: string): string {
    TrimEnd(TrimStart(s))
  }

  /** The pieces between separators: always at least one, and none of them holds `sep`. */
  function Split(s: string, sep: char): (parts: seq<string>)
    ensures |parts| >= 1
    ensures forall i | 0 <= i < |parts| :: sep !in parts[i]
  {
    if s == "" then [""]
    else
      var rest := Split(s[1..], sep);
      if s[0] == sep then [""] + rest else [[s[0]] + rest[0]] + rest[1..]
  }

  /** A separator-free piece followed by a separator is split off whole. */
  lemma {:induction false} SplitAt(piece: string, sep: char, rest: string)
    requires sep !in piece
    ensures Split(piece + [sep] + rest, sep) == [piece] + Split(rest, sep)
  {
    var s := piece + [sep] + rest;
    if piece == "" {
      assert s[1..] == rest;
    } else {
      assert piece[0] in piece && s[1..] == piece[1..] + [sep] + rest;
      SplitAt(piece[1..], sep, rest);
      assert piece == [piece[0]] + piece[1..];
    }
  }

  lemma {:induction false} SplitWhole(piece: string, sep: char)
    requires sep !in piece
    ensures Split(piece, sep) == [piece]
  {
    if piece != "" {
      SplitWhole(piece[1..], sep);
      assert piece[0] in piece && piece == [piece[0]] + piece[1..];
    }
  }

  // ----- trimming

  lemma {:induction false} TrimStartCuts(s: string)
    ensures |TrimStart(s)| <= |s|
    ensures Blank(s[..|s| - |TrimStart(s)|]) && s[|s| - |TrimStart(s)|..] == TrimStart(s)
    ensures TrimStart(s) != "" ==> !IsWhitespace(TrimStart(s)[0])
  {
    if s != "" && IsWhitespace(s[0]) {
      TrimStartCuts(s[1..]);
      var n := |s| - |TrimStart(s)|;
      assert s[..n] == [s[0]] + s[1..][..n - 1];
    }
  }

  lemma {:induction false} TrimStartIs(gap: string, rest: string)
    requires Blank(gap) && (rest == "" || !IsWhitespace(rest[0]))
    ensures TrimStart(gap + rest) == rest
  {
    if gap == "" {
      assert gap + rest == rest;
    } else {
      assert (gap + rest)[1..] == gap[1..] + rest;
      TrimStartIs(gap[1..], rest);
    }
  }

  lemma {:induction false} TrimEndCuts(s: string)
    ensures |TrimEnd(s)| <= |s|
    ensures s[..|TrimEnd(s)|] == TrimEnd(s) && Blank(s[|TrimEnd(s)|..])
    ensures TrimEnd(s) != "" ==> !IsWhitespace(TrimEnd(s)[|TrimEnd(s)| - 1])
  {
    if s != "" && IsWhitespace(s[|s| - 1]) {
      var front := s[..|s| - 1];
      TrimEndCuts(front);
      var n := |TrimEnd(s)|;
      assert s[n..] == front[n..] + [s[|s| - 1]];
      assert s[..n] == front[..n];
    }
  }

  lemma {:induction false} TrimEndIs(rest: string, gap: string)
    requires Blank(gap) && (rest == "" || !IsWhitespace(rest[|rest| - 1]))
    ensures TrimEnd(rest + gap) == rest
  {
    if gap == "" {
      assert rest + gap == rest;
    } else {
      var s := rest + gap;
      assert s[..|s| - 1] == rest + gap[..|gap| - 1];
      TrimEndIs(rest, gap[..|gap| - 1]);
    }
  }

  /** Trimming takes a blank off each side of a text that begins and ends with something else. */
  lemma TrimIs(left: string, rest: string, right: string)
    requires Blank(left) && Blank(right)
    requires rest == "" || (!IsWhitespace(rest[0]) && !IsWhitespace(rest[|rest| - 1]))
    ensures Trim(left + rest + right) == rest
  {
    if rest == "" {
      assert left + rest + right == (left + right) + "";
      TrimStartIs(left + right, "");
    } else {
      assert left + rest + right == left + (rest + right);
      TrimStartIs(left, rest + right);
      TrimEndIs(rest, right);
    }
  }

  lemma TrimParts(s: string) returns (left: string, right: string)
    ensures s == left + Trim(s) + right && Blank(left) && Blank(right)
    ensures Trim(s) != "" ==> !IsWhitespace(Trim(s)[0]) && !IsWhitespace(Trim(s)[|Trim(s)| - 1])
  {
    TrimStartCuts(s);
    TrimEndCuts(TrimStart(s));
    left := s[..|s| - |TrimStart(s)|];
    right := TrimStart(s)[|Trim(s)|..];
  }

  lemma BlankAppend(a: string, b: string)
    ensures Blank(a + b) <==> Blank(a) && Blank(b)
  {
    if Blank(a + b) {
      assert forall i | 0 <= i < |a| :: (a + b)[i] == a[i];
      assert forall i | 0 <= i < |b| :: (a + b)[|a| + i] == b[i];
    }
  }

  // ----- searching

  /** The index of the first `c`, or the length when there is none. */
  function IndexOf(s: string, c: char): (n: nat)
    ensures n <= |s|
  {
    if s == "" || s[0] == c then 0 else 1 + IndexOf(s[1..], c)
  }

  lemma {:induction false} IndexOfIs(s: string, c: char, rest: string)
    requires c !in s && (rest == "" || rest[0] == c)
    ensures IndexOf(s + rest, c) == |s|
  {
    if s == "" {
      assert s + rest == rest;
    } else {
      assert s[0] in s && (s + rest)[1..] == s[1..] + rest;
      IndexOfIs(s[1..], c, rest);
    }
  }

  lemma {:induction false} IndexOfFinds(s: string, c: char)
    ensures c !in s[..IndexOf(s, c)]
    ensures IndexOf(s, c) < |s| ==> s[IndexOf(s, c)] == c
  {
    if s != "" && s[0] != c {
      IndexOfFinds(s[1..], c);
      var n := IndexOf(s, c);
      assert s[..n] == [s[0]] + s[1..][..n - 1];
    }
  }

  predicate OccursAt(s: string, pat: string, i: nat) {
    i + |pat| <= |s| && s[i..i + |pat|] == pat
  }

  /** The first occurrence from `i` on. */
  function FindFrom(s: string, pat: string, i: nat): (r: Option<nat>)
    ensures r.Some? ==> i <= r.value && OccursAt(s, pat, r.value)
    ensures forall k | i <= k && (r.Some? ==> k < r.value) :: !OccursAt(s, pat, k)
    decreases |s| - i
  {
    if OccursAt(s, pat, i) then Some(i)
    else if i >= |s| then None
    else FindFrom(s, pat, i + 1)
  }

  function Find(s: string, pat: string): Option<nat> {
    FindFrom(s, pat, 0)
  }

  /** How many non-overlapping occurrences there are from `i` on, taken left to right. */
  function CountFrom(s: string, pat: string, i: nat): nat
    requires pat != ""
    decreases |s| - i
  {
    match FindFrom(s, pat, i)
    case None => 0
    case Some(j) => 1 + CountFrom(s, pat, j + |pat|)
  }

  function Count(s: string, pat: string): nat
    requires pat != ""
  {
    CountFrom(s, pat, 0)
  }

  lemma FindIs(s: string, pat: string, i: nat)
    requires OccursAt(s, pat, i)
    requires forall k: nat | k < i :: !OccursAt(s, pat, k)
    ensures Find(s, pat) == Some(i)
  {
  }

  lemma CountZero(s: string, pat: string)
    requires pat != ""
    ensures Count(s, pat) == 0 <==> Find(s, pat) == None
  {
  }

  lemma NoOverlap(s: string, pat: string, j: nat, i: nat)
    requires pat != "" && pat[0] !in pat[1..]
    requires OccursAt(s, pat, j) && j < i < j + |pat|
    ensures !OccursAt(s, pat, i)
  {
    assert s[i] == s[j..j + |pat|][i - j] == pat[1..][i - j - 1];
    assert i + |pat| <= |s| ==> s[i..i + |pat|][0] == s[i];
  }

  /** A pattern whose first character does not recur in it and that is counted once occurs once. */
  lemma CountedOnce(s: string, pat: string, i: nat)
    requires pat != "" && pat[0] !in pat[1..]
    requires Count(s, pat) == 1 && OccursAt(s, pat, i)
    ensures Find(s, pat) == Some(i)
  {
    var j := Find(s, pat).value;
    assert CountFrom(s, pat, j + |pat|) == 0 && FindFrom(s, pat, j + |pat|) == None;
    forall k | j < k < j + |pat|
      ensures !OccursAt(s, pat, k)
    {
      NoOverlap(s, pat, j, k);
    }
  }

  // ----- taking strings apart and putting them together

  lemma HeadTail(s: string)
    requires s != ""
    ensures s == [s[0]] + s[1..]
  {
  }

  lemma Around(s: string, i: nat)
    requires i < |s|
    ensures s == s[..i] + ([s[i]] + s[i + 1..])
  {
  }

  lemma Halves(s: string, i: nat)
    requires i <= |s|
    ensures s == s[..i] + s[i..]
  {
  }

  lemma Assoc(a: string, b: string, c: string)
    ensures (a + b) + c == a + (b + c)
  {
  }

  lemma NothingAdded(s: string)
    ensures s + "" == s == "" + s
  {
  }

  lemma CutOut(s: string, pat: string, i: nat)
    requires OccursAt(s, pat, i)
    ensures s == s[..i] + (pat + s[i + |pat|..])
  {
  }

  lemma AfterPrefix(a: string, b: string)
    ensures (a + b)[..|a|] == a && (a + b)[|a|..] == b
  {
  }
}
