/** What the reader must report, line by line, said without its own functions. */
module TailLaws {
  import opened Prelude
  import opened Text
  import opened RolloutTail
  import opened TailRuns

  /** What one line of the file is worth: its text if it decodes and is not blank. */
  function Worth(raw: seq<byte>, decode: Decoder): seq<string> {
    if decode(raw).Some? && !Blank(decode(raw).value) then [decode(raw).value] else []
  }

  lemma {:induction false} TrimmedAway(s: string)
    ensures Trim(s) == "" <==> Blank(s)
  {
    if Blank(s) {
      TrimIs(s, "", "");
      assert s + "" + "" == s;
    } else {
      var left, right := TrimParts(s);
      BlankAppend(left + Trim(s), right);
      BlankAppend(left, Trim(s));
    }
  }

  lemma EmitsItsWorth(raw: seq<byte>, decode: Decoder)
    ensures Emit(raw, decode) == Worth(raw, decode)
  {
    if decode(raw).Some? {
      TrimmedAway(decode(raw).value);
    }
  }

  lemma SingleLine(raw: seq<byte>)
    requires NEWLINE !in raw
    ensures Lines(raw + [NEWLINE]) == [raw] && Rest(raw + [NEWLINE]) == []
    ensures LineEnd(raw + [NEWLINE], 0) == |raw| && RestStart(raw + [NEWLINE], 0, 0) == |raw| + 1
  {
    var x := raw + [NEWLINE];
    EndOf(x, 0, |raw|);
    NextLine(x, 0, 0, |raw|);
    assert x[..|raw|] == raw;
  }

  lemma {:induction false} EndOf(s: seq<byte>, i: nat, n: nat)
    requires i <= n < |s| && s[n] == NEWLINE && NEWLINE !in s[i..n]
    ensures LineEnd(s, i) == n
    decreases n - i
  {
    if i < n {
      assert s[i] == s[i..n][0] && s[i + 1..n] == s[i..n][1..];
      EndOf(s, i + 1, n);
    }
  }

  lemma {:induction false} OneEmitted(raw: seq<byte>, maxLine: nat, decode: Decoder)
    ensures Short([raw], maxLine) == if |raw| < maxLine then [raw] else []
    ensures TooLong([raw], maxLine) == if |raw| < maxLine then 0 else 1
    ensures Emitted([raw], decode) == Worth(raw, decode)
    ensures Malformed([raw], decode) == if decode(raw).None? then 1 else 0
  {
    assert [raw][1..] == [];
    EmitsItsWorth(raw, decode);
  }

  /** Nothing is reported of nothing. */
  lemma NothingYet(maxLine: nat, decode: Decoder, lines: seq<string>, skipped: nat, skipping: bool)
    requires Faithful([], maxLine, decode, lines, skipped, skipping)
    ensures lines == [] && skipped == 0 && !skipping
  {
  }

  /** One more whole line: its text is added if it fits the window, decodes and is not blank; it counts as skipped if
      it does not fit or does not decode; nothing else changes. */
  lemma OneMoreLine(c: seq<byte>, raw: seq<byte>, maxLine: nat, decode: Decoder,
                    lines: seq<string>, skipped: nat, lines': seq<string>, skipped': nat, skipping': bool)
    requires Rest(c) == [] && NEWLINE !in raw
    requires Faithful(c, maxLine, decode, lines, skipped, false)
    requires Faithful(c + (raw + [NEWLINE]), maxLine, decode, lines', skipped', skipping')
    ensures !skipping'
    ensures lines' == lines + if |raw| < maxLine then Worth(raw, decode) else []
    ensures skipped' == skipped + if |raw| < maxLine && decode(raw).Some? then 0 else 1
  {
    SingleLine(raw);
    AppendToWhole(c, raw + [NEWLINE]);
    OneEmitted(raw, maxLine, decode);
    ShortAppend(Lines(c), [raw], maxLine);
    EmittedAppend(Short(Lines(c), maxLine), Short([raw], maxLine), decode);
    assert Emitted([], decode) == [] && Malformed([], decode) == 0;
  }

  /** A line that is still open is reported once, as skipped, as soon as it has outgrown the window. */
  lemma StillOpen(c: seq<byte>, raw: seq<byte>, maxLine: nat, decode: Decoder,
                  lines: seq<string>, skipped: nat, lines': seq<string>, skipped': nat, skipping': bool)
    requires Rest(c) == [] && NEWLINE !in raw && raw != []
    requires Faithful(c, maxLine, decode, lines, skipped, false)
    requires Faithful(c + raw, maxLine, decode, lines', skipped', skipping')
    ensures skipping' && |raw| >= maxLine && lines' == lines && skipped' == skipped + 1
  {
    NoEnd(raw, 0);
    AppendWithinLine(c, raw);
  }

  lemma {:induction false} NoEnd(s: seq<byte>, i: nat)
    requires i <= |s| && NEWLINE !in s
    ensures LineEnd(s, i) == |s|
    decreases |s| - i
  {
    if i < |s| {
      assert s[i] in s;
      NoEnd(s, i + 1);
    }
  }

  /** One read of one appended line. */
  lemma ReadOneLine(content: seq<byte>, cur: Cursor, raw: seq<byte>, maxLine: nat, decode: Decoder)
    requires NEWLINE !in raw && |raw| < maxLine && cur.offset == |content| && !cur.skipping
    ensures ReadAt(content + (raw + [NEWLINE]), cur, maxLine, decode)
         == TailRead(Worth(raw, decode), cur.(offset := |content| + |raw| + 1), if decode(raw).None? then 1 else 0)
  {
    var all := content + (raw + [NEWLINE]);
    SingleLine(raw);
    OneEmitted(raw, maxLine, decode);
    assert Window(all, cur.offset, maxLine) == raw + [NEWLINE];
  }
}
