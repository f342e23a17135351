/** The reader against a plain line splitter, over every interleaving of writes and reads. */
module TailRuns {
  import opened Prelude
  import opened Text
  import opened RolloutTail

  // ----- the reference: split the bytes at newlines, no window, no cursor

  function Lines(s: seq<byte>): seq<seq<byte>> {
    LinesFrom(s, 0, 0)
  }

  function Rest(s: seq<byte>): seq<byte> {
    s[RestStart(s, 0, 0)..]
  }

  /** The lines that fit a window of `maxLine` bytes together with their newline. */
  function Short(raws: seq<seq<byte>>, maxLine: nat): seq<seq<byte>> {
    if raws == [] then [] else (if |raws[0]| < maxLine then [raws[0]] else []) + Short(raws[1..], maxLine)
  }

  function TooLong(raws: seq<seq<byte>>, maxLine: nat): nat {
    if raws == [] then 0 else (if |raws[0]| < maxLine then 0 else 1) + TooLong(raws[1..], maxLine)
  }

  /** What must have been reported once exactly the bytes `consumed` have been read. */
  ghost predicate Faithful(consumed: seq<byte>, maxLine: nat, decode: Decoder, lines: seq<string>, skipped: nat,
                           skipping: bool) {
    && lines == Emitted(Short(Lines(consumed), maxLine), decode)
    && skipped == Malformed(Short(Lines(consumed), maxLine), decode) + TooLong(Lines(consumed), maxLine)
                  + (if Rest(consumed) == [] then 0 else 1)
    && (skipping <==> Rest(consumed) != [])
    && (skipping ==> |Rest(consumed)| >= maxLine)
  }

  // ----- splitting and concatenation

  lemma SliceOfSuffix<T>(s: seq<T>, k: nat, i: nat, j: nat)
    requires i <= j && k + j <= |s|
    ensures s[k..][i..j] == s[k + i..k + j]
  {
  }

  /** A suffix is split as the whole is from there on. */
  lemma {:induction false} Shift(s: seq<byte>, k: nat, t: seq<byte>, start: nat, i: nat)
    requires k <= |s| && t == s[k..] && start <= i <= |t|
    ensures LinesFrom(t, start, i) == LinesFrom(s, k + start, k + i)
    ensures k + RestStart(t, start, i) == RestStart(s, k + start, k + i)
    ensures k + LineEnd(t, i) == LineEnd(s, k + i)
    decreases |t| - i
  {
    EndShift(s, k, t, i);
    if i < |t| {
      if t[i] == NEWLINE {
        Shift(s, k, t, i + 1, i + 1);
        SliceOfSuffix(s, k, start, i);
      } else {
        Shift(s, k, t, start, i + 1);
      }
    }
  }

  lemma {:induction false} EndShift(s: seq<byte>, k: nat, t: seq<byte>, i: nat)
    requires k <= |s| && t == s[k..] && i <= |t|
    ensures k + LineEnd(t, i) == LineEnd(s, k + i)
    decreases |t| - i
  {
    if i < |t| && t[i] != NEWLINE {
      EndShift(s, k, t, i + 1);
    }
  }

  /** More bytes only continue the line that is open. */
  lemma {:induction false} Extend(a: seq<byte>, ab: seq<byte>, start: nat, i: nat)
    requires start <= i <= |a| && a <= ab
    ensures LinesFrom(ab, start, i) == LinesFrom(a, start, i) + LinesFrom(ab, RestStart(a, start, i), |a|)
    ensures RestStart(ab, start, i) == RestStart(ab, RestStart(a, start, i), |a|)
    decreases |a| - i
  {
    if i < |a| {
      if a[i] == NEWLINE {
        Extend(a, ab, i + 1, i + 1);
        assert ab[start..i] == a[start..i];
      } else {
        Extend(a, ab, start, i + 1);
      }
    }
  }

  lemma {:induction false} EndInPrefix(a: seq<byte>, ab: seq<byte>, i: nat)
    requires i <= |a| && a <= ab && LineEnd(ab, i) < |a|
    ensures LineEnd(a, i) == LineEnd(ab, i)
    decreases |a| - i
  {
    if i < |a| && a[i] != NEWLINE {
      EndInPrefix(a, ab, i + 1);
    }
  }

  /** After whole lines, further bytes are split on their own. */
  lemma {:induction false} AppendToWhole(c: seq<byte>, x: seq<byte>)
    requires Rest(c) == []
    ensures Lines(c + x) == Lines(c) + Lines(x)
    ensures Rest(c + x) == Rest(x)
  {
    Extend(c, c + x, 0, 0);
    assert (c + x)[|c|..] == x;
    Shift(c + x, |c|, x, 0, 0);
  }

  /** Bytes without a newline only lengthen the line that is open. */
  lemma {:induction false} AppendWithinLine(c: seq<byte>, x: seq<byte>)
    requires LineEnd(x, 0) == |x|
    ensures Lines(c + x) == Lines(c)
    ensures Rest(c + x) == Rest(c) + x
  {
    Extend(c, c + x, 0, 0);
    assert (c + x)[|c|..] == x;
    Shift(c + x, |c|, x, 0, 0);
    NextLine(c + x, RestStart(c, 0, 0), |c|, |c + x|);
  }

  lemma {:induction false} CloseLine(c: seq<byte>, x: seq<byte>, s: seq<byte>, n: nat)
    requires s == c + x && n == LineEnd(x, 0) < |x|
    ensures Lines(s) == Lines(c) + ([s[RestStart(c, 0, 0)..|c| + n]] + LinesFrom(s, |c| + n + 1, |c| + n + 1))
    ensures RestStart(s, 0, 0) == RestStart(s, |c| + n + 1, |c| + n + 1)
  {
    Extend(c, s, 0, 0);
    assert s[|c|..] == x;
    Shift(s, |c|, x, 0, 0);
    NextLine(s, RestStart(c, 0, 0), |c|, |c| + n);
  }

  /** The first newline completes the line that was open. */
  lemma {:induction false} AppendClosingLine(c: seq<byte>, x: seq<byte>, n: nat)
    requires n == LineEnd(x, 0) < |x|
    ensures Lines(c + x) == Lines(c) + ([Rest(c) + x[..n]] + LinesFrom(x, n + 1, n + 1))
    ensures Rest(c + x) == x[RestStart(x, n + 1, n + 1)..]
  {
    var s := c + x;
    CloseLine(c, x, s, n);
    assert s[|c|..] == x;
    Shift(s, |c|, x, n + 1, n + 1);
    assert s[RestStart(c, 0, 0)..|c| + n] == Rest(c) + x[..n];
  }

  /** Cutting a buffer after its last newline keeps its lines. */
  lemma {:induction false} CutRest(w: seq<byte>, i: nat, x: seq<byte>)
    requires i <= |w| && x == w[..RestStart(w, i, i)]
    ensures LinesFrom(x, i, i) == LinesFrom(w, i, i) && RestStart(x, i, i) == |x|
    decreases |w| - i
  {
    var n := LineEnd(w, i);
    NextLine(w, i, i, n);
    if n < |w| {
      CutRest(w, n + 1, x);
      EndInPrefix(x, w, i);
      NextLine(x, i, i, n);
      assert x[i..n] == w[i..n];
    }
  }

  // ----- counting over concatenations

  lemma {:induction false} EmittedAppend(a: seq<seq<byte>>, b: seq<seq<byte>>, decode: Decoder)
    ensures Emitted(a + b, decode) == Emitted(a, decode) + Emitted(b, decode)
    ensures Malformed(a + b, decode) == Malformed(a, decode) + Malformed(b, decode)
  {
    if a == [] {
      assert a + b == b;
    } else {
      assert (a + b)[1..] == a[1..] + b;
      EmittedAppend(a[1..], b, decode);
    }
  }

  lemma {:induction false} ShortAppend(a: seq<seq<byte>>, b: seq<seq<byte>>, maxLine: nat)
    ensures Short(a + b, maxLine) == Short(a, maxLine) + Short(b, maxLine)
    ensures TooLong(a + b, maxLine) == TooLong(a, maxLine) + TooLong(b, maxLine)
  {
    if a == [] {
      assert a + b == b;
    } else {
      assert (a + b)[1..] == a[1..] + b;
      ShortAppend(a[1..], b, maxLine);
    }
  }

  lemma {:induction false} AllShort(w: seq<byte>, start: nat, i: nat, maxLine: nat)
    requires start <= i <= |w| <= maxLine
    ensures Short(LinesFrom(w, start, i), maxLine) == LinesFrom(w, start, i)
    ensures TooLong(LinesFrom(w, start, i), maxLine) == 0
    decreases |w| - i
  {
    if i < |w| {
      if w[i] == NEWLINE {
        AllShort(w, i + 1, i + 1, maxLine);
        assert LinesFrom(w, start, i)[1..] == LinesFrom(w, i + 1, i + 1);
      } else {
        AllShort(w, start, i + 1, maxLine);
      }
    }
  }

  // ----- one read keeps the account faithful

  lemma {:induction false} CutRestAfter(w: seq<byte>, n: nat, x: seq<byte>)
    requires n == LineEnd(w, 0) < |w| && x == w[..RestStart(w, n + 1, n + 1)]
    ensures LineEnd(x, 0) == n < |x| && x[..n] == w[..n]
    ensures LinesFrom(x, n + 1, n + 1) == LinesFrom(w, n + 1, n + 1) && RestStart(x, n + 1, n + 1) == |x|
  {
    CutRest(w, n + 1, x);
    EndInPrefix(x, w, 0);
  }

  /** Short lines `more` after the lines `before`. */
  lemma {:induction false} CountMore(before: seq<seq<byte>>, more: seq<seq<byte>>, maxLine: nat, decode: Decoder)
    requires Short(more, maxLine) == more && TooLong(more, maxLine) == 0
    ensures Emitted(Short(before + more, maxLine), decode)
         == Emitted(Short(before, maxLine), decode) + Emitted(more, decode)
    ensures Malformed(Short(before + more, maxLine), decode)
         == Malformed(Short(before, maxLine), decode) + Malformed(more, decode)
    ensures TooLong(before + more, maxLine) == TooLong(before, maxLine)
  {
    ShortAppend(before, more, maxLine);
    EmittedAppend(Short(before, maxLine), more, decode);
  }

  /** A long line after the lines `before` is counted and not emitted. */
  lemma {:induction false} CountLong(before: seq<seq<byte>>, long: seq<byte>, maxLine: nat)
    requires |long| >= maxLine
    ensures Short(before + [long], maxLine) == Short(before, maxLine)
    ensures TooLong(before + [long], maxLine) == TooLong(before, maxLine) + 1
  {
    ShortAppend(before, [long], maxLine);
    assert [long][1..] == [];
    assert Short([long], maxLine) == [] && TooLong([long], maxLine) == 1;
  }

  lemma {:induction false} TakeWholeLines(c: seq<byte>, w: seq<byte>, next: seq<byte>, maxLine: nat, decode: Decoder,
                                          lines: seq<string>, skipped: nat)
    requires Faithful(c, maxLine, decode, lines, skipped, false)
    requires |w| <= maxLine && next == c + w[..RestStart(w, 0, 0)]
    ensures Faithful(next, maxLine, decode, lines + Emitted(LinesFrom(w, 0, 0), decode),
                     skipped + Malformed(LinesFrom(w, 0, 0), decode), false)
  {
    CutRest(w, 0, w[..RestStart(w, 0, 0)]);
    AppendToWhole(c, w[..RestStart(w, 0, 0)]);
    AllShort(w, 0, 0, maxLine);
    CountMore(Lines(c), LinesFrom(w, 0, 0), maxLine, decode);
  }

  lemma {:induction false} FillWindow(c: seq<byte>, w: seq<byte>, next: seq<byte>, maxLine: nat, decode: Decoder,
                                      lines: seq<string>, skipped: nat)
    requires Faithful(c, maxLine, decode, lines, skipped, false)
    requires LineEnd(w, 0) == |w| >= maxLine >= 1 && next == c + w
    ensures Faithful(next, maxLine, decode, lines, skipped + 1, true)
  {
    AppendWithinLine(c, w);
  }

  lemma {:induction false} KeepSkipping(c: seq<byte>, w: seq<byte>, next: seq<byte>, maxLine: nat, decode: Decoder,
                                        lines: seq<string>, skipped: nat)
    requires Faithful(c, maxLine, decode, lines, skipped, true)
    requires LineEnd(w, 0) == |w| && next == c + w
    ensures Faithful(next, maxLine, decode, lines, skipped, true)
  {
    AppendWithinLine(c, w);
  }

  lemma {:induction false} StopSkipping(c: seq<byte>, w: seq<byte>, n: nat, next: seq<byte>, maxLine: nat,
                                        decode: Decoder,
                                        lines: seq<string>, skipped: nat)
    requires Faithful(c, maxLine, decode, lines, skipped, true)
    requires n == LineEnd(w, 0) < |w| <= maxLine && next == c + w[..RestStart(w, n + 1, n + 1)]
    ensures Faithful(next, maxLine, decode, lines + Emitted(LinesFrom(w, n + 1, n + 1), decode),
                     skipped + Malformed(LinesFrom(w, n + 1, n + 1), decode), false)
  {
    var x, more := w[..RestStart(w, n + 1, n + 1)], LinesFrom(w, n + 1, n + 1);
    var before, long := Lines(c), Rest(c) + x[..n];
    assert Lines(next) == before + [long] + more && Rest(next) == [] by {
      CutRestAfter(w, n, x);
      AppendClosingLine(c, x, n);
      assert before + [long] + more == before + ([long] + more);
    }
    AllShort(w, n + 1, n + 1, maxLine);
    CountLong(before, long, maxLine);
    CountMore(before + [long], more, maxLine, decode);
  }

  lemma {:induction false} NoNewlineNoLines(w: seq<byte>)
    ensures RestStart(w, 0, 0) == 0 <==> LineEnd(w, 0) == |w|
    ensures LineEnd(w, 0) == |w| ==> LinesFrom(w, 0, 0) == []
  {
    NextLine(w, 0, 0, LineEnd(w, 0));
  }

  lemma Advance(content: seq<byte>, origin: nat, offset: nat, maxLine: nat, step: nat)
    requires origin <= offset <= |content| && step <= |Window(content, offset, maxLine)|
    ensures offset + step <= |content|
    ensures content[origin..offset + step] == content[origin..offset] + Window(content, offset, maxLine)[..step]
  {
  }

  lemma {:induction false} ReadOutsideLine(content: seq<byte>, origin: nat, cur: Cursor, maxLine: nat, decode: Decoder,
                                           lines: seq<string>, skipped: nat, r: TailRead)
    requires maxLine >= 1 && origin <= cur.offset < |content| && !cur.skipping
    requires Faithful(content[origin..cur.offset], maxLine, decode, lines, skipped, cur.skipping)
    requires r == ReadAt(content, cur, maxLine, decode)
    ensures cur.offset <= r.cursor.offset <= |content|
    ensures Faithful(content[origin..r.cursor.offset], maxLine, decode, lines + r.lines,
                     skipped + r.skipped, r.cursor.skipping)
  {
    var c, w := content[origin..cur.offset], Window(content, cur.offset, maxLine);
    NoNewlineNoLines(w);
    Advance(content, origin, cur.offset, maxLine, r.cursor.offset - cur.offset);
    if LineEnd(w, 0) == |w| >= maxLine {
      assert w[..|w|] == w && lines + [] == lines;
      FillWindow(c, w, content[origin..r.cursor.offset], maxLine, decode, lines, skipped);
    } else {
      TakeWholeLines(c, w, content[origin..r.cursor.offset], maxLine, decode, lines, skipped);
    }
  }

  lemma {:induction false} ReadInsideLine(content: seq<byte>, origin: nat, cur: Cursor, maxLine: nat, decode: Decoder,
                                          lines: seq<string>, skipped: nat, r: TailRead)
    requires maxLine >= 1 && origin <= cur.offset < |content| && cur.skipping
    requires Faithful(content[origin..cur.offset], maxLine, decode, lines, skipped, cur.skipping)
    requires r == ReadAt(content, cur, maxLine, decode)
    ensures cur.offset <= r.cursor.offset <= |content|
    ensures Faithful(content[origin..r.cursor.offset], maxLine, decode, lines + r.lines,
                     skipped + r.skipped, r.cursor.skipping)
  {
    var c, w := content[origin..cur.offset], Window(content, cur.offset, maxLine);
    Advance(content, origin, cur.offset, maxLine, r.cursor.offset - cur.offset);
    if LineEnd(w, 0) == |w| {
      assert w[..|w|] == w && lines + [] == lines;
      KeepSkipping(c, w, content[origin..r.cursor.offset], maxLine, decode, lines, skipped);
    } else {
      StopSkipping(c, w, LineEnd(w, 0), content[origin..r.cursor.offset], maxLine, decode, lines, skipped);
    }
  }

  /** Whatever was faithfully reported stays so across one read, which only moves forward. */
  lemma {:induction false} ReadStaysFaithful(content: seq<byte>, origin: nat, cur: Cursor, maxLine: nat,
                                             decode: Decoder,
                                             lines: seq<string>, skipped: nat, r: TailRead)
    requires maxLine >= 1 && origin <= cur.offset <= |content|
    requires Faithful(content[origin..cur.offset], maxLine, decode, lines, skipped, cur.skipping)
    requires r == ReadAt(content, cur, maxLine, decode)
    ensures cur.offset <= r.cursor.offset <= |content|
    ensures Faithful(content[origin..r.cursor.offset], maxLine, decode, lines + r.lines,
                     skipped + r.skipped, r.cursor.skipping)
    ensures r.cursor.dev == cur.dev && r.cursor.ino == cur.ino
  {
    if cur.offset == |content| {
      assert lines + [] == lines;
    } else if cur.skipping {
      ReadInsideLine(content, origin, cur, maxLine, decode, lines, skipped, r);
    } else {
      ReadOutsideLine(content, origin, cur, maxLine, decode, lines, skipped, r);
    }
  }

  // ----- whole runs: any interleaving of appends by the writer and reads

  datatype Event = Append(bytes: seq<byte>) | Read

  datatype World = World(file: File, cursor: Option<Cursor>, lines: seq<string>, skipped: nat)

  datatype Setup = Setup(start: Start, maxLine: nat, decode: Decoder)

  function Step(w: World, e: Event, s: Setup): World {
    match e
    case Append(bytes) => w.(file := w.file.(content := w.file.content + bytes))
    case Read =>
      var r := ReadAt(w.file.content, Resolve(w.cursor, s.start, w.file), s.maxLine, s.decode);
      World(w.file, Some(r.cursor), w.lines + r.lines, w.skipped + r.skipped)
  }

  function Run(w: World, events: seq<Event>, s: Setup): World
    decreases |events|
  {
    if events == [] then w else Run(Step(w, events[0], s), events[1..], s)
  }

  /** Everything between `origin` and the cursor has been faithfully reported. */
  ghost predicate Tracking(w: World, origin: nat, s: Setup) {
    && w.cursor.Some?
    && w.cursor.value.dev == w.file.dev && w.cursor.value.ino == w.file.ino
    && origin <= w.cursor.value.offset <= |w.file.content|
    && Faithful(w.file.content[origin..w.cursor.value.offset], s.maxLine, s.decode, w.lines, w.skipped,
                w.cursor.value.skipping)
  }

  lemma {:induction false} StepStaysFaithful(w: World, e: Event, origin: nat, s: Setup)
    requires s.maxLine >= 1 && Tracking(w, origin, s)
    ensures Tracking(Step(w, e, s), origin, s)
    ensures w.file.content <= Step(w, e, s).file.content
    ensures w.cursor.value.offset <= Step(w, e, s).cursor.value.offset
  {
    var cur, next := w.cursor.value, Step(w, e, s);
    match e {
      case Append(bytes) =>
        assert next.file.content[origin..cur.offset] == w.file.content[origin..cur.offset];
      case Read =>
        assert Resolve(w.cursor, s.start, w.file) == cur;
        ReadStaysFaithful(w.file.content, origin, cur, s.maxLine, s.decode, w.lines, w.skipped,
                          ReadAt(w.file.content, cur, s.maxLine, s.decode));
    }
  }

  /** However appends and reads interleave, what has been reported is exactly what the plain
      splitter finds in the bytes consumed so far. */
  lemma {:induction false} RunStaysFaithful(w: World, events: seq<Event>, origin: nat, s: Setup)
    requires s.maxLine >= 1 && Tracking(w, origin, s)
    ensures Tracking(Run(w, events, s), origin, s)
    ensures w.file.content <= Run(w, events, s).file.content
    ensures w.cursor.value.offset <= Run(w, events, s).cursor.value.offset
    decreases |events|
  {
    if events != [] {
      StepStaysFaithful(w, events[0], origin, s);
      RunStaysFaithful(Step(w, events[0], s), events[1..], origin, s);
    }
  }

  lemma NothingReported(maxLine: nat, decode: Decoder)
    ensures Faithful([], maxLine, decode, [], 0, false)
  {
  }

  /** Where the first read of a run finds the position to report from. */
  function FirstOrigin(length: nat, events: seq<Event>, start: Start): nat
    decreases |events|
  {
    if start.Beginning? then 0
    else if events == [] || events[0] == Read then length
    else FirstOrigin(length + |events[0].bytes|, events[1..], start)
  }

  lemma {:induction false} FirstReadStaysFaithful(file: File, events: seq<Event>, s: Setup)
    requires s.maxLine >= 1 && events != [] && events[0] == Read
    ensures Tracking(Run(World(file, None, [], 0), events, s), Resolve(None, s.start, file).offset, s)
  {
    var cur := Resolve(None, s.start, file);
    var seen := World(file, Some(cur), [], 0);
    assert file.content[cur.offset..cur.offset] == [];
    NothingReported(s.maxLine, s.decode);
    assert Step(World(file, None, [], 0), Read, s) == Step(seen, Read, s);
    RunStaysFaithful(seen, events, cur.offset, s);
  }

  /** A run that starts without a cursor reports from the position its first read resolves to. */
  lemma {:induction false} FirstSightStaysFaithful(file: File, events: seq<Event>, s: Setup)
    requires s.maxLine >= 1
    ensures var w := Run(World(file, None, [], 0), events, s);
            if Read in events then Tracking(w, FirstOrigin(|file.content|, events, s.start), s)
            else w.cursor.None? && w.lines == [] && w.skipped == 0
    decreases |events|
  {
    if events != [] {
      if events[0] == Read {
        FirstReadStaysFaithful(file, events, s);
      } else {
        var longer := file.(content := file.content + events[0].bytes);
        assert Step(World(file, None, [], 0), events[0], s) == World(longer, None, [], 0);
        FirstSightStaysFaithful(longer, events[1..], s);
        assert events == [events[0]] + events[1..];
      }
    }
  }

  // ----- reads reach a fixpoint that depends on the bytes alone

  /** Where reading `content` from `origin` comes to rest: after the last newline, or at the end when
      the unfinished line is already too long. */
  function Settled(content: seq<byte>, origin: nat, maxLine: nat): nat
    requires origin <= |content|
  {
    var rest := Rest(content[origin..]);
    if |rest| >= maxLine then |content| else |content| - |rest|
  }

  lemma {:induction false} StuckMeansSettled(content: seq<byte>, origin: nat, cur: Cursor, maxLine: nat,
                                             decode: Decoder,
                                             lines: seq<string>, skipped: nat, r: TailRead)
    requires maxLine >= 1 && origin <= cur.offset <= |content|
    requires Faithful(content[origin..cur.offset], maxLine, decode, lines, skipped, cur.skipping)
    requires r == ReadAt(content, cur, maxLine, decode) && r.cursor.offset == cur.offset
    ensures r == TailRead([], cur, 0)
    ensures cur.offset == Settled(content, origin, maxLine)
  {
    var c, s := content[origin..cur.offset], content[origin..];
    if cur.offset == |content| {
      assert c == s;
    } else {
      var w := Window(content, cur.offset, maxLine);
      NoNewlineNoLines(w);
      assert LineEnd(w, 0) == |w| < maxLine && !cur.skipping;
      assert s == c + w;
      AppendWithinLine(c, w);
    }
  }

  function Reads(n: nat): (events: seq<Event>)
    ensures |events| == n
  {
    if n == 0 then [] else [Read] + Reads(n - 1)
  }

  lemma {:induction false} StuckStays(w: World, n: nat, s: Setup)
    requires Step(w, Read, s) == w
    ensures Run(w, Reads(n), s) == w
  {
    if n > 0 {
      assert Reads(n)[1..] == Reads(n - 1);
      StuckStays(w, n - 1, s);
    }
  }

  lemma ReadMovesOrRests(w: World, origin: nat, s: Setup)
    requires s.maxLine >= 1 && Tracking(w, origin, s)
    ensures var next := Step(w, Read, s);
      && next.file == w.file && next.cursor.Some? && w.cursor.value.offset <= next.cursor.value.offset
      && (next.cursor.value.offset == w.cursor.value.offset ==>
          next == w && w.cursor.value.offset == Settled(w.file.content, origin, s.maxLine))
  {
    var cur := w.cursor.value;
    var r := ReadAt(w.file.content, cur, s.maxLine, s.decode);
    assert Resolve(w.cursor, s.start, w.file) == cur;
    if r.cursor.offset == cur.offset {
      StuckMeansSettled(w.file.content, origin, cur, s.maxLine, s.decode, w.lines, w.skipped, r);
      assert w.lines + [] == w.lines;
    }
  }

  /** As many reads as there are unread bytes are enough to come to rest. */
  lemma {:induction false} ReadsSettle(w: World, origin: nat, n: nat, s: Setup)
    requires s.maxLine >= 1 && Tracking(w, origin, s)
    requires n >= |w.file.content| - w.cursor.value.offset
    ensures var done := Run(w, Reads(n), s);
            && Tracking(done, origin, s) && done.file == w.file
            && done.cursor.value.offset == Settled(w.file.content, origin, s.maxLine)
            && Step(done, Read, s) == done
    decreases n
  {
    var next := Step(w, Read, s);
    StepStaysFaithful(w, Read, origin, s);
    ReadMovesOrRests(w, origin, s);
    if next.cursor.value.offset == w.cursor.value.offset {
      StuckStays(w, n, s);
    } else {
      assert n > 0 && Reads(n)[1..] == Reads(n - 1);
      ReadsSettle(next, origin, n - 1, s);
    }
  }

  /** Once the reader has come to rest on the same bytes, two runs have reported the same lines, the same number of
      skipped lines and the same cursor. */
  lemma RestsAgree(a: World, b: World, origin: nat, m: nat, n: nat, s: Setup)
    requires s.maxLine >= 1 && Tracking(a, origin, s) && Tracking(b, origin, s)
    requires a.file == b.file
    requires m >= |a.file.content| - a.cursor.value.offset && n >= |b.file.content| - b.cursor.value.offset
    ensures Run(a, Reads(m), s) == Run(b, Reads(n), s)
  {
    ReadsSettle(a, origin, m, s);
    ReadsSettle(b, origin, n, s);
  }

  /** The bytes that a schedule appends. */
  function Appended(events: seq<Event>): seq<byte>
    decreases |events|
  {
    if events == [] then [] else (if events[0].Append? then events[0].bytes else []) + Appended(events[1..])
  }

  lemma {:induction false} RunAppends(w: World, events: seq<Event>, s: Setup)
    ensures Run(w, events, s).file == w.file.(content := w.file.content + Appended(events))
    decreases |events|
  {
    if events == [] {
      assert w.file.content + [] == w.file.content;
    } else {
      RunAppends(Step(w, events[0], s), events[1..], s);
      var first := if events[0].Append? then events[0].bytes else [];
      assert w.file.content + first + Appended(events[1..]) == w.file.content + (first + Appended(events[1..]));
      assert w.file.content + [] == w.file.content;
    }
  }

  /** The schedule does not matter: two schedules that append the same bytes, however they cut them up and however
      reads fall in between, end in the same lines, skip count and cursor after enough further reads. */
  lemma ScheduleIndependent(w: World, a: seq<Event>, b: seq<Event>, origin: nat, m: nat, n: nat, s: Setup)
    requires s.maxLine >= 1 && Tracking(w, origin, s) && Appended(a) == Appended(b)
    requires m >= |w.file.content| + |Appended(a)| && n >= |w.file.content| + |Appended(a)|
    ensures Run(Run(w, a, s), Reads(m), s) == Run(Run(w, b, s), Reads(n), s)
  {
    RunStaysFaithful(w, a, origin, s);
    RunStaysFaithful(w, b, origin, s);
    RunAppends(w, a, s);
    RunAppends(w, b, s);
    RestsAgree(Run(w, a, s), Run(w, b, s), origin, m, n, s);
  }

  lemma {:induction false} AppendedRead(events: seq<Event>)
    ensures Appended(events + [Read]) == Appended(events)
    decreases |events|
  {
    if events == [] {
      assert (events + [Read])[1..] == [];
    } else {
      assert (events + [Read])[1..] == events[1..] + [Read];
      AppendedRead(events[1..]);
    }
  }

  /** Likewise from a file seen for the first time and read from its beginning, once each has read at all. */
  lemma ScheduleIndependentFromStart(file: File, a: seq<Event>, b: seq<Event>, m: nat, n: nat, s: Setup)
    requires s.maxLine >= 1 && s.start.Beginning? && Appended(a) == Appended(b)
    requires m >= |file.content| + |Appended(a)| && n >= |file.content| + |Appended(a)|
    ensures var w := World(file, None, [], 0);
      Run(Run(w, a + [Read], s), Reads(m), s) == Run(Run(w, b + [Read], s), Reads(n), s)
  {
    var w := World(file, None, [], 0);
    FirstSightStaysFaithful(file, a + [Read], s);
    FirstSightStaysFaithful(file, b + [Read], s);
    AppendedRead(a);
    AppendedRead(b);
    RunAppends(w, a + [Read], s);
    RunAppends(w, b + [Read], s);
    assert Read in a + [Read] && Read in b + [Read];
    RestsAgree(Run(w, a + [Read], s), Run(w, b + [Read], s), 0, m, n, s);
  }

  /** Even before that, two runs that consumed the same bytes have reported the same. */
  lemma SameBytesSameReport(a: World, b: World, origin: nat, s: Setup)
    requires Tracking(a, origin, s) && Tracking(b, origin, s)
    requires a.cursor.value.offset == b.cursor.value.offset
    requires a.file.content[..a.cursor.value.offset] == b.file.content[..b.cursor.value.offset]
    ensures a.lines == b.lines && a.skipped == b.skipped && a.cursor.value.skipping == b.cursor.value.skipping
  {
    var n := a.cursor.value.offset;
    assert a.file.content[origin..n] == a.file.content[..n][origin..] == b.file.content[origin..n];
  }

  /** A window of no bytes is the one size that breaks this: the first unread line is reported as
      skipped, nothing is ever consumed, and no later line is delivered. */
  lemma EmptyWindowIsStuck(w: World, s: Setup)
    requires s.maxLine == 0
    requires w.cursor.Some? && w.cursor.value.dev == w.file.dev && w.cursor.value.ino == w.file.ino
    requires w.cursor.value.offset < |w.file.content| && !w.cursor.value.skipping
    ensures var next := Step(w, Read, s);
            && next == World(w.file, Some(w.cursor.value.(skipping := true)), w.lines, w.skipped + 1)
            && Step(next, Read, s) == next
  {
    assert w.lines + [] == w.lines;
  }

  // ----- replaying a prefix agrees with having tailed it

  lemma {:induction false} RestStartIsAfterLastNewline(s: seq<byte>)
    ensures RestStart(s, 0, 0) == AfterLastNewline(s)
  {
    if s != [] {
      var front := s[..|s| - 1];
      RestStartIsAfterLastNewline(front);
      Extend(front, s, 0, 0);
    }
  }

  lemma {:induction false} AfterLastNewlineOfSuffix(s: seq<byte>, from: nat)
    requires from <= |s|
    ensures AfterLastNewline(s) == if AfterLastNewline(s[from..]) > 0 then from + AfterLastNewline(s[from..])
                                   else AfterLastNewline(s[..from])
    decreases |s|
  {
    if from < |s| {
      assert s[from..][..|s[from..]| - 1] == s[..|s| - 1][from..];
      assert s[..|s| - 1][..from] == s[..from];
      AfterLastNewlineOfSuffix(s[..|s| - 1], from);
    } else {
      assert s[..from] == s;
    }
  }

  /** What a reader that began at the file's first byte has reported, when it is not inside a long line,
      is the prefix replay at its own offset, with the long lines left out. */
  lemma PrefixReplayAgrees(content: seq<byte>, offset: nat, cap: nat, maxLine: nat, decode: Decoder,
                           lines: seq<string>, skipped: nat)
    requires decode([]) == Some("")
    requires offset <= |content| && offset <= cap
    requires Faithful(content[..offset], maxLine, decode, lines, skipped, false)
    ensures ReadPrefix(content, offset, cap, decode) == Some((Emitted(Lines(content[..offset]), decode), offset))
    ensures lines == Emitted(Short(Lines(content[..offset]), maxLine), decode)
  {
    var c := content[..offset];
    RestStartIsAfterLastNewline(c);
    assert c[..offset] == c;
    EmittedAppend(Lines(c), [Rest(c)], decode);
    assert [Rest(c)][1..] == [] && Emitted([Rest(c)], decode) == [];
    assert Emitted(Lines(c), decode) + [] == Emitted(Lines(c), decode);
  }

  /** The two windows the daemon uses are equal, and then no long line fits into the prefix at all:
      replaying gives back exactly what tailing gave. */
  lemma PrefixReplayIsExact(content: seq<byte>, offset: nat, cap: nat, maxLine: nat, decode: Decoder,
                            lines: seq<string>, skipped: nat)
    requires decode([]) == Some("")
    requires offset <= |content| && offset <= cap <= maxLine
    requires Faithful(content[..offset], maxLine, decode, lines, skipped, false)
    ensures ReadPrefix(content, offset, cap, decode) == Some((lines, offset))
  {
    PrefixReplayAgrees(content, offset, cap, maxLine, decode, lines, skipped);
    AllShort(content[..offset], 0, 0, maxLine);
  }

  /** The bounded backward search finds the last line break exactly when there is none at all or it lies
      in the searched window; otherwise it answers 0. */
  lemma BackwardSearchIffInWindow(content: seq<byte>, upto: nat)
    requires upto <= |content|
    ensures var last, from := AfterLastNewline(content[..upto]),
                              if upto < SEARCH_WINDOW then 0 else upto - SEARCH_WINDOW;
            LastNewlineBefore(content, upto) == (if last > from then last else 0)
    ensures upto <= SEARCH_WINDOW ==> LastNewlineBefore(content, upto) == AfterLastNewline(content[..upto])
  {
    var from := if upto < SEARCH_WINDOW then 0 else upto - SEARCH_WINDOW;
    assert content[from..upto] == content[..upto][from..];
    AfterLastNewlineOfSuffix(content[..upto], from);
  }

  // ----- replaced and shrunk files

  /** A read that does not keep its cursor is recognisable from outside: the identity changed or the
      offset went back; a read that keeps it never looks like that. */
  lemma RestartIsVisible(file: File, c: Cursor, start: Start, maxLine: nat, decode: Decoder)
    ensures var kept := c.dev == file.dev && c.ino == file.ino && c.offset <= |file.content|;
            var r := ReadAt(file.content, Resolve(Some(c), start, file), maxLine, decode);
            kept <==> !(r.cursor.ino != c.ino || r.cursor.dev != c.dev || r.cursor.offset < c.offset)
  {
  }
}
