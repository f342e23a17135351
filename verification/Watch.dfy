/** The daemon's watcher over one rollout file: ticks, restarts and what they forward. */
module Watch {
  import opened Prelude
  import opened Text
  import opened RolloutTail
  import opened TailRuns

  /** The line window, the replay limit, text decoding and parsing, and the adapter: its first memory,
      what a line does to it, what it says to a line (with a draw for fresh ids), and whether it knows
      its session yet. */
  datatype Params<!V, !S, !O> = Params(
    maxLine: nat, cap: nat, decode: Decoder, parse: string -> Option<V>,
    initial: S, next: (S, V) -> S, output: (S, V, nat) -> O, known: S -> bool)

  /** Lines `from` to `to` of the stream, which an adapter rebuilt after a restart has not heard. */
  datatype Gap = Gap(from: nat, to: nat)

  const NO_GAP := Gap(0, 0)

  /** What became of one line handed to the adapter: which line of the stream it is, the draw, the gap in what the
      adapter had heard by then, and what was forwarded; nothing while no session id is known. */
  datatype Sent<O> = Sent(index: nat, draw: nat, gap: Gap, out: Option<O>)

  /** A tracked file: the cursor and the adapter's memory. The position in the stream and the gap are the model's own
      bookkeeping. */
  datatype Live<S> = Live(cursor: Cursor, memory: S, handled: nat, gap: Gap)

  /** The file, the in-memory side, the saved cursor, what became of every line of the file handled live so far, and
      how many draws were made before those. */
  datatype Watched<S, O> = Watched(
    file: File, live: Option<Live<S>>, saved: Option<Cursor>, log: seq<Sent<O>>, drawn: nat)

  datatype Happening = Grow(bytes: seq<byte>) | Tick(persist: bool) | Restart(start: Start)

  /** The lines an adapter is given: only those that parse. */
  function Parsed<V, S, O>(lines: seq<string>, p: Params<V, S, O>): seq<V> {
    if lines == [] then []
    else ParsedOne(lines[0], p) + Parsed(lines[1..], p)
  }

  function ParsedOne<V, S, O>(line: string, p: Params<V, S, O>): seq<V> {
    match p.parse(line)
    case Some(v) => [v]
    case None => []
  }

  function Replayed<V, S, O>(memory: S, lines: seq<V>, p: Params<V, S, O>): S
    decreases |lines|
  {
    if lines == [] then memory else Replayed(p.next(memory, lines[0]), lines[1..], p)
  }

  /** Feeds live lines to the adapter and forwards what it says, once a session id is known. */
  function Forwarded<V, S, O>(live: Live<S>, lines: seq<V>, log: seq<Sent<O>>, drawn: nat,
                              p: Params<V, S, O>): (Live<S>, seq<Sent<O>>)
    decreases |lines|
  {
    if lines == [] then (live, log)
    else
      var next := p.next(live.memory, lines[0]);
      Forwarded(live.(memory := next, handled := live.handled + 1), lines[1..],
                log + [Entry(live, lines[0], drawn + |log|, p)], drawn, p)
  }

  /** What becomes of one line. */
  function Entry<V, S, O>(live: Live<S>, line: V, draw: nat, p: Params<V, S, O>): Sent<O> {
    Sent(live.handled, draw, live.gap, Said(live.memory, line, draw, p))
  }

  /** What is forwarded for a line: what the adapter says, if it knows its session by then. */
  function Said<V, S, O>(memory: S, line: V, draw: nat, p: Params<V, S, O>): Option<O> {
    if p.known(p.next(memory, line)) then Some(p.output(memory, line, draw)) else None
  }

  /** The first line of a file, where its first window holds one. */
  function FirstLine<V, S, O>(file: File, p: Params<V, S, O>): seq<V> {
    var first := ReadAt(file.content, Resolve(None, Beginning, file), p.maxLine, p.decode).lines;
    Parsed(if first == [] then [] else first[..1], p)
  }

  /** Where reading goes on in a file too large to replay. */
  function Beyond(file: File, saved: Option<Cursor>, cursor: Cursor): Cursor {
    var back := LastNewlineBefore(file.content, cursor.offset);
    if saved.Some? then cursor
    else if back == 0 then cursor.(skipping := true)
    else cursor.(offset := back)
  }

  /** Builds the in-memory side from a saved cursor, or for a file seen for the first time. */
  function Tracked<V, S, O>(file: File, saved: Option<Cursor>, start: Start, p: Params<V, S, O>): Live<S> {
    var cursor := Resolve(saved, start, file);
    if cursor.offset == 0 then Live(cursor, p.initial, 0, NO_GAP)
    else
      match ReadPrefix(file.content, cursor.offset, p.cap, p.decode)
      case Some((lines, consumed)) =>
        Live(cursor.(offset := consumed), Replayed(p.initial, Parsed(lines, p), p), |Parsed(lines, p)|, NO_GAP)
      case None =>
        var head, there := FirstLine(file, p), Beyond(file, saved, cursor);
        var n := |Heard(file.content[..Min(there.offset, |file.content|)], p)|;
        Live(there, Replayed(p.initial, head, p), n, Gap(|head|, n))
  }

  predicate Rewound(was: Cursor, now: Cursor) {
    now.ino != was.ino || now.dev != was.dev || now.offset < was.offset
  }

  function Ticked<V, S, O>(w: Watched<S, O>, persist: bool, p: Params<V, S, O>): Watched<S, O>
    requires w.live.Some?
  {
    var was := w.live.value.cursor;
    var read := ReadAt(w.file.content, Resolve(Some(was), Beginning, w.file), p.maxLine, p.decode);
    var before := if Rewound(was, read.cursor) then Live(read.cursor, p.initial, 0, NO_GAP)
                  else w.live.value.(cursor := read.cursor);
    var (live, log) := Forwarded(before, Parsed(read.lines, p), w.log, w.drawn, p);
    Watched(w.file, Some(live), if persist then Some(live.cursor) else w.saved, log, w.drawn)
  }

  function Step<V, S, O>(w: Watched<S, O>, e: Happening, p: Params<V, S, O>): Watched<S, O> {
    match e
    case Grow(bytes) => w.(file := w.file.(content := w.file.content + bytes))
    case Tick(persist) => if w.live.Some? then Ticked(w, persist, p) else w
    case Restart(start) => w.(live := Some(Tracked(w.file, w.saved, start, p)))
  }

  function Run<V, S, O>(w: Watched<S, O>, events: seq<Happening>, p: Params<V, S, O>): Watched<S, O>
    decreases |events|
  {
    if events == [] then w else Run(Step(w, events[0], p), events[1..], p)
  }

  // ----- what the stream is

  /** The lines of the first `n` bytes that a tailer reports. */
  function Reported<V, S, O>(content: seq<byte>, p: Params<V, S, O>): seq<string> {
    Emitted(Short(Lines(content), p.maxLine), p.decode)
  }

  /** The stream an adapter should have handled once these bytes have been consumed. */
  function Heard<V, S, O>(content: seq<byte>, p: Params<V, S, O>): seq<V> {
    Parsed(Reported(content, p), p)
  }

  /** The adapter's memory once it has handled exactly these lines. */
  function After<V, S, O>(h: seq<V>, p: Params<V, S, O>): S {
    if h == [] then p.initial else p.next(After(h[..|h| - 1], p), h[|h| - 1])
  }

  lemma {:induction false} AfterAppend<V, S, O>(h: seq<V>, line: V, p: Params<V, S, O>)
    ensures After(h + [line], p) == p.next(After(h, p), line)
  {
    assert (h + [line])[..|h|] == h;
  }

  lemma JoinAssoc<T>(a: seq<T>, b: seq<T>, c: seq<T>)
    ensures (a + b) + c == a + (b + c)
  {
  }

  lemma {:induction false} ParsedAppend<V, S, O>(a: seq<string>, b: seq<string>, p: Params<V, S, O>)
    ensures Parsed(a + b, p) == Parsed(a, p) + Parsed(b, p)
  {
    if a == [] {
      assert a + b == b;
    } else {
      ParsedAppend(a[1..], b, p);
      assert (a + b)[1..] == a[1..] + b;
      JoinAssoc(ParsedOne(a[0], p), Parsed(a[1..], p), Parsed(b, p));
    }
  }

  lemma {:induction false} ReplayedIs<V, S, O>(h: seq<V>, lines: seq<V>, p: Params<V, S, O>)
    ensures Replayed(After(h, p), lines, p) == After(h + lines, p)
    decreases |lines|
  {
    if lines == [] {
      assert h + lines == h;
    } else {
      AfterAppend(h, lines[0], p);
      ReplayedIs(h + [lines[0]], lines[1..], p);
      assert h + [lines[0]] + lines[1..] == h + lines;
    }
  }

  // ----- forwarding

  /** The lines before line `n` that an adapter with this gap has heard. */
  function Kept<V>(g: seq<V>, gap: Gap, n: nat): seq<V>
    requires gap.from <= gap.to <= n <= |g|
  {
    g[..gap.from] + g[gap.to..n]
  }

  lemma KeptNext<V>(g: seq<V>, gap: Gap, n: nat)
    requires gap.from <= gap.to <= n < |g|
    ensures Kept(g, gap, n + 1) == Kept(g, gap, n) + [g[n]]
  {
  }

  lemma KeptLater<V>(g: seq<V>, longer: seq<V>, gap: Gap, n: nat)
    requires gap.from <= gap.to <= n <= |g| && g <= longer
    ensures Kept(longer, gap, n) == Kept(g, gap, n)
  {
  }

  /** Without a gap everything has been heard. */
  lemma KeptAll<V>(g: seq<V>, gap: Gap, n: nat)
    requires gap.from == gap.to <= n <= |g|
    ensures Kept(g, gap, n) == g[..n]
  {
  }

  /** The entry is what an adapter that has heard the stream so far, but for the gap, says to line `index`. */
  ghost predicate Right<V, S, O>(e: Sent<O>, g: seq<V>, p: Params<V, S, O>) {
    && e.gap.from <= e.gap.to <= e.index < |g|
    && e.out == Said(After(Kept(g, e.gap, e.index), p), g[e.index], e.draw, p)
  }

  ghost predicate AllRight<V, S, O>(log: seq<Sent<O>>, g: seq<V>, p: Params<V, S, O>) {
    forall i | 0 <= i < |log| :: Right(log[i], g, p)
  }

  lemma AllRightLater<V, S, O>(log: seq<Sent<O>>, g: seq<V>, longer: seq<V>, p: Params<V, S, O>)
    requires AllRight(log, g, p) && g <= longer
    ensures AllRight(log, longer, p)
  {
    forall i | 0 <= i < |log|
      ensures Right(log[i], longer, p)
    {
      KeptLater(g, longer, log[i].gap, log[i].index);
    }
  }

  lemma EntryRight<V, S, O>(log: seq<Sent<O>>, g: seq<V>, e: Sent<O>, p: Params<V, S, O>)
    requires AllRight(log, g, p) && e in log
    ensures Right(e, g, p)
  {
  }

  /** An adapter's memory is that of the stream before line `handled`, but for its gap. */
  ghost predicate Recalls<V, S, O>(live: Live<S>, g: seq<V>, p: Params<V, S, O>) {
    && live.gap.from <= live.gap.to <= live.handled <= |g|
    && live.memory == After(Kept(g, live.gap, live.handled), p)
  }

  /** A log that goes on from another with the lines from `n` to `m`, one by one. */
  ghost predicate GoesOn<O>(log: seq<Sent<O>>, more: seq<Sent<O>>, n: nat, m: nat, gap: Gap) {
    && n <= m && log <= more && |more| == |log| + m - n
    && forall i | |log| <= i < |more| :: more[i].index == n + i - |log| && more[i].gap == gap
  }

  lemma GoesOnNext<O>(log: seq<Sent<O>>, e: Sent<O>, more: seq<Sent<O>>, n: nat, m: nat, gap: Gap)
    requires e.index == n && e.gap == gap && GoesOn(log + [e], more, n + 1, m, gap)
    ensures GoesOn(log, more, n, m, gap)
  {
    assert more[|log|] == (log + [e])[|log|];
  }

  /** Forwarding handles each line once and in order, under the gap the adapter has. */
  lemma {:induction false} ForwardedGoesOn<V, S, O>(live: Live<S>, lines: seq<V>, log: seq<Sent<O>>, drawn: nat,
                                                   next: Live<S>, sent: seq<Sent<O>>, p: Params<V, S, O>)
    requires (next, sent) == Forwarded(live, lines, log, drawn, p)
    ensures GoesOn(log, sent, live.handled, next.handled, live.gap)
    ensures next.cursor == live.cursor && next.gap == live.gap && next.handled == live.handled + |lines|
    decreases |lines|
  {
    if lines != [] {
      var e := Entry(live, lines[0], drawn + |log|, p);
      var after := live.(memory := p.next(live.memory, lines[0]), handled := live.handled + 1);
      ForwardedGoesOn(after, lines[1..], log + [e], drawn, next, sent, p);
      GoesOnNext(log, e, sent, live.handled, next.handled, live.gap);
    }
  }

  /** What forwarding does to the memory. */
  lemma {:induction false} ForwardedMemory<V, S, O>(live: Live<S>, lines: seq<V>, log: seq<Sent<O>>, drawn: nat,
                                                   p: Params<V, S, O>)
    ensures Forwarded(live, lines, log, drawn, p).0.memory == Replayed(live.memory, lines, p)
    decreases |lines|
  {
    if lines != [] {
      var after := live.(memory := p.next(live.memory, lines[0]), handled := live.handled + 1);
      ForwardedMemory(after, lines[1..], log + [Entry(live, lines[0], drawn + |log|, p)], drawn, p);
    }
  }

  /** The adapter as line `k` of those to be forwarded finds it. */
  function At<V, S, O>(live: Live<S>, lines: seq<V>, k: nat, p: Params<V, S, O>): Live<S>
    requires k <= |lines|
  {
    live.(memory := Replayed(live.memory, lines[..k], p), handled := live.handled + k)
  }

  lemma AtNext<V, S, O>(live: Live<S>, lines: seq<V>, k: nat, p: Params<V, S, O>)
    requires 0 < k <= |lines|
    ensures At(live, lines, k, p)
         == At(live.(memory := p.next(live.memory, lines[0]), handled := live.handled + 1), lines[1..], k - 1, p)
  {
    assert lines[..k][1..] == lines[1..][..k - 1];
  }

  /** What forwarding says to each line. */
  lemma {:induction false} ForwardedAt<V, S, O>(live: Live<S>, lines: seq<V>, log: seq<Sent<O>>, drawn: nat, k: nat,
                                               sent: seq<Sent<O>>, p: Params<V, S, O>)
    requires k < |lines| && sent == Forwarded(live, lines, log, drawn, p).1
    ensures |log| + k < |sent| && sent[|log| + k] == Entry(At(live, lines, k, p), lines[k], drawn + |log| + k, p)
    decreases |lines|
  {
    var after := live.(memory := p.next(live.memory, lines[0]), handled := live.handled + 1);
    var e := Entry(live, lines[0], drawn + |log|, p);
    var next := Forwarded(after, lines[1..], log + [e], drawn, p).0;
    if k == 0 {
      ForwardedGoesOn(after, lines[1..], log + [e], drawn, next, sent, p);
      assert sent[|log|] == (log + [e])[|log|];
      assert lines[..0] == [];
    } else {
      ForwardedAt(after, lines[1..], log + [e], drawn, k - 1, sent, p);
      AtNext(live, lines, k, p);
    }
  }

  lemma KeptMore<V>(g: seq<V>, gap: Gap, n: nat, lines: seq<V>, k: nat)
    requires gap.from <= gap.to <= n && n + |lines| <= |g| && g[n..n + |lines|] == lines && k <= |lines|
    ensures Kept(g, gap, n + k) == Kept(g, gap, n) + lines[..k]
    ensures k < |lines| ==> g[n + k] == lines[k]
  {
    assert g[n..n + |lines|][..k] == g[n..n + k];
  }

  lemma RecallsAt<V, S, O>(live: Live<S>, lines: seq<V>, g: seq<V>, k: nat, p: Params<V, S, O>)
    requires Recalls(live, g, p) && k <= |lines|
    requires live.handled + |lines| <= |g| && g[live.handled..live.handled + |lines|] == lines
    ensures Recalls(At(live, lines, k, p), g, p)
  {
    KeptMore(g, live.gap, live.handled, lines, k);
    ReplayedIs(Kept(g, live.gap, live.handled), lines[..k], p);
  }

  /** Forwarding the next lines of a stream keeps the memory in step, whatever was forwarded before. */
  lemma {:induction false} ForwardedRecalls<V, S, O>(live: Live<S>, lines: seq<V>, g: seq<V>, log: seq<Sent<O>>,
                                                     drawn: nat, next: Live<S>, sent: seq<Sent<O>>, p: Params<V, S, O>)
    requires Recalls(live, g, p) && (next, sent) == Forwarded(live, lines, log, drawn, p)
    requires live.handled + |lines| <= |g| && g[live.handled..live.handled + |lines|] == lines
    ensures Recalls(next, g, p)
  {
    ForwardedGoesOn(live, lines, log, drawn, next, sent, p);
    ForwardedMemory(live, lines, log, drawn, p);
    RecallsAt(live, lines, g, |lines|, p);
    assert lines[..|lines|] == lines;
  }

  lemma {:induction false} RightAt<V, S, O>(live: Live<S>, g: seq<V>, draw: nat, p: Params<V, S, O>)
    requires Recalls(live, g, p) && live.handled < |g|
    ensures Right(Entry(live, g[live.handled], draw, p), g, p)
  {
  }

  /** And what it forwards is right. */
  lemma {:induction false} ForwardedIsRight<V, S, O>(live: Live<S>, lines: seq<V>, g: seq<V>, log: seq<Sent<O>>,
                                                     drawn: nat, next: Live<S>, sent: seq<Sent<O>>, p: Params<V, S, O>)
    requires Recalls(live, g, p) && AllRight(log, g, p) && (next, sent) == Forwarded(live, lines, log, drawn, p)
    requires live.handled + |lines| <= |g| && g[live.handled..live.handled + |lines|] == lines
    ensures AllRight(sent, g, p)
  {
    ForwardedGoesOn(live, lines, log, drawn, next, sent, p);
    forall i | 0 <= i < |sent|
      ensures Right(sent[i], g, p)
    {
      if i < |log| {
        assert sent[i] == log[i];
      } else {
        RightLater(live, lines, g, log, drawn, i - |log|, sent, p);
      }
    }
  }

  lemma {:induction false} RightLater<V, S, O>(live: Live<S>, lines: seq<V>, g: seq<V>, log: seq<Sent<O>>,
                                               drawn: nat, k: nat, sent: seq<Sent<O>>, p: Params<V, S, O>)
    requires Recalls(live, g, p) && k < |lines| && sent == Forwarded(live, lines, log, drawn, p).1
    requires live.handled + |lines| <= |g| && g[live.handled..live.handled + |lines|] == lines
    ensures |log| + k < |sent| && Right(sent[|log| + k], g, p)
  {
    ForwardedAt(live, lines, log, drawn, k, sent, p);
    RightAtLine(live, lines, g, k, drawn + |log| + k, p);
  }

  lemma {:induction false} RightAtLine<V, S, O>(live: Live<S>, lines: seq<V>, g: seq<V>, k: nat, draw: nat,
                                                p: Params<V, S, O>)
    requires Recalls(live, g, p) && k < |lines|
    requires live.handled + |lines| <= |g| && g[live.handled..live.handled + |lines|] == lines
    ensures Right(Entry(At(live, lines, k, p), lines[k], draw, p), g, p)
  {
    RecallsAt(live, lines, g, k, p);
    assert g[live.handled + k] == lines[k];
    RightAt(At(live, lines, k, p), g, draw, p);
  }

  lemma {:induction false} ForwardedAll<V, S, O>(live: Live<S>, lines: seq<V>, g: seq<V>, log: seq<Sent<O>>, drawn: nat,
                                                 next: Live<S>, sent: seq<Sent<O>>, p: Params<V, S, O>)
    requires Recalls(live, g, p) && AllRight(log, g, p) && (next, sent) == Forwarded(live, lines, log, drawn, p)
    requires live.handled + |lines| <= |g| && g[live.handled..live.handled + |lines|] == lines
    ensures AllRight(sent, g, p) && Recalls(next, g, p)
    ensures GoesOn(log, sent, live.handled, next.handled, live.gap)
    ensures next.cursor == live.cursor && next.gap == live.gap && next.handled == live.handled + |lines|
  {
    ForwardedGoesOn(live, lines, log, drawn, next, sent, p);
    ForwardedRecalls(live, lines, g, log, drawn, next, sent, p);
    ForwardedIsRight(live, lines, g, log, drawn, next, sent, p);
  }

  // ----- cursors

  /** The cursor stands between two lines, or inside one that is too long for the window. */
  ghost predicate Aligned<V, S, O>(file: File, c: Cursor, p: Params<V, S, O>) {
    && c.dev == file.dev && c.ino == file.ino && c.offset <= |file.content|
    && (c.skipping <==> Rest(file.content[..c.offset]) != [])
    && (c.skipping ==> |Rest(file.content[..c.offset])| >= p.maxLine)
  }

  /** The cursor was set back to the start of a file whose very first line is too long. */
  ghost predicate SetBack<V, S, O>(file: File, c: Cursor, p: Params<V, S, O>) {
    && c.dev == file.dev && c.ino == file.ino && c.offset == 0 && c.skipping
    && Aligned(file, c.(offset := p.maxLine), p) && Lines(file.content[..p.maxLine]) == []
  }

  ghost predicate Usable<V, S, O>(file: File, c: Cursor, p: Params<V, S, O>) {
    Aligned(file, c, p) || SetBack(file, c, p)
  }

  /** One read from an aligned cursor reports exactly the lines it moved over. */
  lemma ReadReports<V, S, O>(file: File, c: Cursor, p: Params<V, S, O>, r: TailRead)
    requires p.maxLine >= 1 && Aligned(file, c, p) && r == ReadAt(file.content, c, p.maxLine, p.decode)
    ensures c.offset <= r.cursor.offset && Aligned(file, r.cursor, p)
    ensures Reported(file.content[..r.cursor.offset], p) == Reported(file.content[..c.offset], p) + r.lines
  {
    var seen := file.content[0..c.offset];
    assert seen == file.content[..c.offset];
    var lines := Reported(seen, p);
    var skipped := Malformed(Short(Lines(seen), p.maxLine), p.decode) + TooLong(Lines(seen), p.maxLine)
                   + if Rest(seen) == [] then 0 else 1;
    ReadStaysFaithful(file.content, 0, c, p.maxLine, p.decode, lines, skipped, r);
    assert file.content[0..r.cursor.offset] == file.content[..r.cursor.offset];
  }

  /** More bytes only add to the stream. */
  lemma HeardGrows<V, S, O>(a: seq<byte>, ab: seq<byte>, p: Params<V, S, O>)
    requires a <= ab
    ensures Heard(a, p) <= Heard(ab, p)
  {
    Extend(a, ab, 0, 0);
    var more := LinesFrom(ab, RestStart(a, 0, 0), |a|);
    ShortAppend(Lines(a), more, p.maxLine);
    EmittedAppend(Short(Lines(a), p.maxLine), Short(more, p.maxLine), p.decode);
    ParsedAppend(Reported(a, p), Emitted(Short(more, p.maxLine), p.decode), p);
  }

  lemma ReadHears<V, S, O>(file: File, c: Cursor, p: Params<V, S, O>, r: TailRead)
    requires p.maxLine >= 1 && Usable(file, c, p) && r == ReadAt(file.content, c, p.maxLine, p.decode)
    ensures c.offset <= r.cursor.offset && Aligned(file, r.cursor, p)
    ensures Heard(file.content[..r.cursor.offset], p) == Heard(file.content[..c.offset], p) + Parsed(r.lines, p)
  {
    if Aligned(file, c, p) {
      ReadReports(file, c, p, r);
      ParsedAppend(Reported(file.content[..c.offset], p), r.lines, p);
    } else {
      ReadAgain(file, c, p);
      assert file.content[..0] == [];
    }
  }

  /** Reading from a cursor that was set back brings it to where it was, with nothing reported. */
  lemma ReadAgain<V, S, O>(file: File, c: Cursor, p: Params<V, S, O>)
    requires p.maxLine >= 1 && SetBack(file, c, p)
    ensures ReadAt(file.content, c, p.maxLine, p.decode) == TailRead([], c.(offset := p.maxLine), 0)
  {
    var w := Window(file.content, 0, p.maxLine);
    assert w == file.content[..p.maxLine];
    NextLine(w, 0, 0, LineEnd(w, 0));
  }

  // ----- the invariant

  /** The sizes the daemon uses are all equal; the backward search must reach over a whole window. */
  ghost predicate Good<V, S, O>(p: Params<V, S, O>) {
    1 <= p.maxLine == p.cap <= SEARCH_WINDOW && p.decode([]) == Some("")
  }

  /** The adapter stands at the cursor and remembers the lines before it, but for its gap. */
  ghost predicate InStep<V, S, O>(file: File, live: Live<S>, p: Params<V, S, O>) {
    && Usable(file, live.cursor, p)
    && live.handled == |Heard(file.content[..live.cursor.offset], p)|
    && Recalls(live, Heard(file.content, p), p)
  }

  ghost predicate Inv<V, S, O>(w: Watched<S, O>, p: Params<V, S, O>) {
    && (w.saved.Some? ==> Usable(w.file, w.saved.value, p))
    && (w.live.Some? ==> InStep(w.file, w.live.value, p))
    && AllRight(w.log, Heard(w.file.content, p), p)
  }

  lemma UsableLater<V, S, O>(file: File, c: Cursor, bytes: seq<byte>, p: Params<V, S, O>)
    requires Usable(file, c, p)
    ensures Usable(file.(content := file.content + bytes), c, p)
    ensures (file.content + bytes)[..c.offset] == file.content[..c.offset]
  {
    var longer := file.content + bytes;
    assert longer[..c.offset] == file.content[..c.offset];
    if SetBack(file, c, p) {
      assert longer[..p.maxLine] == file.content[..p.maxLine];
    }
  }

  lemma GrowKeeps<V, S, O>(w: Watched<S, O>, bytes: seq<byte>, p: Params<V, S, O>)
    requires Inv(w, p)
    ensures Inv(Step(w, Grow(bytes), p), p)
  {
    var g, longer := Heard(w.file.content, p), Heard(w.file.content + bytes, p);
    HeardGrows(w.file.content, w.file.content + bytes, p);
    if w.saved.Some? {
      UsableLater(w.file, w.saved.value, bytes, p);
    }
    if w.live.Some? {
      UsableLater(w.file, w.live.value.cursor, bytes, p);
      KeptLater(g, longer, w.live.value.gap, w.live.value.handled);
    }
    AllRightLater(w.log, g, longer, p);
  }

  /** What one tick does: it handles exactly the lines between the old cursor and the new one. */
  lemma TickIs<V, S, O>(w: Watched<S, O>, persist: bool, p: Params<V, S, O>)
    requires Good(p) && Inv(w, p) && w.live.Some?
    ensures var w' := Ticked(w, persist, p);
      && Inv(w', p) && w'.file == w.file && w'.live.Some? && w'.live.value.gap == w.live.value.gap
      && GoesOn(w.log, w'.log, w.live.value.handled, w'.live.value.handled, w.live.value.gap)
      && w'.saved == if persist then Some(w'.live.value.cursor) else w.saved
  {
    var live, g := w.live.value, Heard(w.file.content, p);
    var r := ReadAt(w.file.content, live.cursor, p.maxLine, p.decode);
    ReadNext(w.file, live, p, r);
    var (next, sent) := Forwarded(live.(cursor := r.cursor), Parsed(r.lines, p), w.log, w.drawn, p);
    RecallsThere(live, r.cursor, g, p);
    ForwardedAll(live.(cursor := r.cursor), Parsed(r.lines, p), g, w.log, w.drawn, next, sent, p);
    assert Ticked(w, persist, p)
        == Watched(w.file, Some(next), if persist then Some(next.cursor) else w.saved, sent, w.drawn);
  }

  lemma RecallsThere<V, S, O>(live: Live<S>, c: Cursor, g: seq<V>, p: Params<V, S, O>)
    requires Recalls(live, g, p)
    ensures Recalls(live.(cursor := c), g, p)
  {
  }

  lemma ReadNext<V, S, O>(file: File, live: Live<S>, p: Params<V, S, O>, r: TailRead)
    requires Good(p) && InStep(file, live, p) && r == ReadAt(file.content, live.cursor, p.maxLine, p.decode)
    ensures var g, lines, n := Heard(file.content, p), Parsed(r.lines, p), live.handled;
      && n + |lines| <= |g| && g[n..n + |lines|] == lines
      && live.cursor.offset <= r.cursor.offset && Aligned(file, r.cursor, p)
      && |Heard(file.content[..r.cursor.offset], p)| == n + |lines|
  {
    ReadHears(file, live.cursor, p, r);
    HeardGrows(file.content[..r.cursor.offset], file.content, p);
    var h, lines := Heard(file.content[..live.cursor.offset], p), Parsed(r.lines, p);
    assert (h + lines)[|h|..] == lines;
  }

  // ----- restarting

  /** Replaying the first bytes hears exactly their complete lines. */
  lemma ReplayHears<V, S, O>(content: seq<byte>, upto: nat, p: Params<V, S, O>)
    requires Good(p) && upto <= |content| && upto <= p.cap
    ensures var n := RestStart(content[..upto], 0, 0);
      && ReadPrefix(content, upto, p.cap, p.decode) == Some((Reported(content[..n], p), n))
      && Rest(content[..n]) == [] && n <= upto
      && Heard(content[..n], p) == Heard(content[..upto], p)
  {
    var c := content[..upto];
    RestStartIsAfterLastNewline(c);
    var n := RestStart(c, 0, 0);
    var whole := c[..n];
    assert whole == content[..n];
    CutRest(c, 0, whole);
    AllShort(whole, 0, 0, p.maxLine);
    var blank: seq<byte> := [];
    assert Rest(whole) == blank && Min(upto, |content|) == upto;
    EmittedAppend(Lines(whole), [blank], p.decode);
    assert [blank][1..] == [] && Emitted([blank], p.decode) == [];
    assert Emitted(Lines(whole), p.decode) + [] == Emitted(Lines(whole), p.decode);
  }

  lemma ReplayedFromStart<V, S, O>(lines: seq<V>, p: Params<V, S, O>)
    ensures Replayed(p.initial, lines, p) == After(lines, p)
  {
    ReplayedIs([], lines, p);
    assert [] + lines == lines;
  }

  lemma StillAligned<V, S, O>(file: File, c: Cursor, p: Params<V, S, O>)
    requires Good(p) && Aligned(file, c, p) && 0 < c.offset <= p.cap
    ensures Usable(file, c.(offset := RestStart(file.content[..c.offset], 0, 0)), p)
  {
    var seen := file.content[..c.offset];
    var n := RestStart(seen, 0, 0);
    if !c.skipping {
      assert n == |seen|;
    } else {
      NoNewlineNoLines(seen);
      assert file.content[..0] == [];
    }
  }

  /** An adapter that has heard all of the stream before its cursor is in step. */
  lemma AllHeard<V, S, O>(file: File, c: Cursor, p: Params<V, S, O>)
    requires Usable(file, c, p)
    ensures var h := Heard(file.content[..c.offset], p);
      InStep(file, Live(c, Replayed(p.initial, h, p), |h|, NO_GAP), p)
  {
    var g, h := Heard(file.content, p), Heard(file.content[..c.offset], p);
    ReplayedFromStart(h, p);
    HeardGrows(file.content[..c.offset], file.content, p);
    KeptAll(g, NO_GAP, |h|);
    assert g[..|h|] == h;
  }

  /** Within the replay limit a restart hears everything before its position. */
  lemma ReplayKeeps<V, S, O>(file: File, saved: Option<Cursor>, start: Start, c: Cursor, p: Params<V, S, O>)
    requires Good(p) && (saved.Some? ==> Usable(file, saved.value, p))
    requires c == Resolve(saved, start, file) && c.offset <= p.cap
    ensures var live := Tracked(file, saved, start, p);
      && InStep(file, live, p) && live.gap == NO_GAP
      && live.handled == |Heard(file.content[..c.offset], p)|
  {
    assert file.content[..0] == [];
    if c.offset == 0 {
      AllHeard(file, c, p);
    } else {
      ReplayHears(file.content, c.offset, p);
      var n := RestStart(file.content[..c.offset], 0, 0);
      if saved.Some? {
        StillAligned(file, c, p);
      }
      AllHeard(file, c.(offset := n), p);
    }
  }

  lemma FirstLineIs<V, S, O>(file: File, p: Params<V, S, O>)
    requires Good(p)
    ensures |FirstLine(file, p)| <= 1 && FirstLine(file, p) <= Heard(file.content, p)
    ensures |file.content| >= p.maxLine ==> FirstLine(file, p) <= Heard(file.content[..p.maxLine], p)
  {
    var c := Resolve(None, Beginning, file);
    var r := ReadAt(file.content, c, p.maxLine, p.decode);
    assert file.content[..0] == [];
    ReadHears(file, c, p, r);
    assert Heard(file.content[..0], p) == [];
    FirstLineHeard(r.lines, p);
    HeardGrows(file.content[..r.cursor.offset], file.content, p);
    if |file.content| >= p.maxLine {
      HeardGrows(file.content[..r.cursor.offset], file.content[..p.maxLine], p);
    }
  }

  lemma FirstLineHeard<V, S, O>(lines: seq<string>, p: Params<V, S, O>)
    ensures var head := Parsed(if lines == [] then [] else lines[..1], p); |head| <= 1 && head <= Parsed(lines, p)
  {
    if lines != [] {
      assert lines == lines[..1] + lines[1..];
      ParsedAppend(lines[..1], lines[1..], p);
      assert lines[..1][1..] == [];
    }
  }

  /** A large file seen for the first time is joined after its last line break, or inside its giant last line. */
  lemma JoinsAtTheEnd<V, S, O>(file: File, c: Cursor, p: Params<V, S, O>)
    requires Good(p) && c == Resolve(None, End, file) && c.offset > p.cap
    ensures Aligned(file, Beyond(file, None, c), p)
    ensures Heard(file.content[..Beyond(file, None, c).offset], p) == Heard(file.content, p)
  {
    var n := |file.content|;
    assert file.content[..n] == file.content;
    BackwardSearchIffInWindow(file.content, n);
    RestStartIsAfterLastNewline(file.content);
    CutRest(file.content, 0, file.content[..RestStart(file.content, 0, 0)]);
  }

  /** An adapter that has heard the first lines of the stream alone is in step, with a gap. */
  lemma HeadHeard<V, S, O>(file: File, c: Cursor, head: seq<V>, p: Params<V, S, O>)
    requires Usable(file, c, p) && head <= Heard(file.content[..c.offset], p)
    ensures var n := |Heard(file.content[..c.offset], p)|;
      InStep(file, Live(c, After(head, p), n, Gap(|head|, n)), p)
  {
    var g, n := Heard(file.content, p), |Heard(file.content[..c.offset], p)|;
    HeardGrows(file.content[..c.offset], file.content, p);
    assert Kept(g, Gap(|head|, n), n) == head;
  }

  /** Where a restart past the replay limit goes on. */
  lemma BeyondIsUsable<V, S, O>(file: File, saved: Option<Cursor>, start: Start, c: Cursor, p: Params<V, S, O>)
    requires Good(p) && (saved.Some? ==> Usable(file, saved.value, p))
    requires c == Resolve(saved, start, file) && c.offset > p.cap
    ensures Usable(file, Beyond(file, saved, c), p)
    ensures Heard(file.content[..Beyond(file, saved, c).offset], p) == Heard(file.content[..c.offset], p)
  {
    if saved.None? {
      JoinsAtTheEnd(file, c, p);
      assert file.content[..c.offset] == file.content;
    }
  }

  lemma FirstLineBefore<V, S, O>(file: File, n: nat, p: Params<V, S, O>)
    requires Good(p) && p.cap < n <= |file.content|
    ensures |FirstLine(file, p)| <= 1 && FirstLine(file, p) <= Heard(file.content[..n], p)
  {
    FirstLineIs(file, p);
    HeardGrows(file.content[..p.maxLine], file.content[..n], p);
  }

  /** Past the replay limit a restart keeps its position and remembers at most the first line of the file. */
  lemma BeyondKeeps<V, S, O>(file: File, saved: Option<Cursor>, start: Start, c: Cursor, p: Params<V, S, O>)
    requires Good(p) && (saved.Some? ==> Usable(file, saved.value, p))
    requires c == Resolve(saved, start, file) && c.offset > p.cap
    ensures var live, n := Tracked(file, saved, start, p), |Heard(file.content[..c.offset], p)|;
      && InStep(file, live, p)
      && live == Live(Beyond(file, saved, c), After(FirstLine(file, p), p), n, Gap(|FirstLine(file, p)|, n))
  {
    BeyondIsUsable(file, saved, start, c, p);
    FirstLineBefore(file, c.offset, p);
    ReplayedFromStart(FirstLine(file, p), p);
    HeadHeard(file, Beyond(file, saved, c), FirstLine(file, p), p);
  }

  lemma TrackedKeeps<V, S, O>(file: File, saved: Option<Cursor>, start: Start, c: Cursor, live: Live<S>,
                              p: Params<V, S, O>)
    requires Good(p) && (saved.Some? ==> Usable(file, saved.value, p))
    requires c == Resolve(saved, start, file) && live == Tracked(file, saved, start, p)
    ensures InStep(file, live, p) && live.handled == |Heard(file.content[..c.offset], p)|
    ensures c.offset <= p.cap ==> live.gap == NO_GAP
  {
    if c.offset <= p.cap {
      ReplayKeeps(file, saved, start, c, p);
    } else {
      BeyondKeeps(file, saved, start, c, p);
    }
  }

  lemma RestartKeeps<V, S, O>(w: Watched<S, O>, start: Start, live: Live<S>, p: Params<V, S, O>)
    requires Good(p) && Inv(w, p) && live == Tracked(w.file, w.saved, start, p)
    ensures Inv(w.(live := Some(live)), p)
    ensures live.handled == |Heard(w.file.content[..Resolve(w.saved, start, w.file).offset], p)|
    ensures Resolve(w.saved, start, w.file).offset <= p.cap ==> live.gap == NO_GAP
  {
    TrackedKeeps(w.file, w.saved, start, Resolve(w.saved, start, w.file), live, p);
  }

  lemma StepKeeps<V, S, O>(w: Watched<S, O>, e: Happening, p: Params<V, S, O>)
    requires Good(p) && Inv(w, p)
    ensures Inv(Step(w, e, p), p)
  {
    match e {
      case Grow(bytes) => GrowKeeps(w, bytes, p);
      case Tick(persist) => if w.live.Some? { TickIs(w, persist, p); }
      case Restart(start) => RestartKeeps(w, start, Tracked(w.file, w.saved, start, p), p);
    }
  }

  /** Over every run of growth, ticks (their cursor saved or lost) and restarts, whatever became of a line is what an
      adapter makes of it that has heard the stream so far, but for the gap left by its last restart. */
  lemma {:induction false} RunStaysRight<V, S, O>(w: Watched<S, O>, events: seq<Happening>, p: Params<V, S, O>)
    requires Good(p) && Inv(w, p)
    ensures Inv(Run(w, events, p), p)
    decreases |events|
  {
    if events != [] {
      StepKeeps(w, events[0], p);
      RunStaysRight(Step(w, events[0], p), events[1..], p);
    }
  }

  // ----- no gap within the replay limit

  /** Every restart so far found its position within the replay limit. */
  predicate InReach<V, S, O>(w: Watched<S, O>, events: seq<Happening>, p: Params<V, S, O>)
    decreases |events|
  {
    events == [] ||
    ((events[0].Restart? ==> Resolve(w.saved, events[0].start, w.file).offset <= p.cap)
     && InReach(Step(w, events[0], p), events[1..], p))
  }

  ghost predicate Seamless<S, O>(w: Watched<S, O>) {
    && (w.live.Some? ==> w.live.value.gap == NO_GAP)
    && forall i | 0 <= i < |w.log| :: w.log[i].gap == NO_GAP
  }

  lemma StepStaysSeamless<V, S, O>(w: Watched<S, O>, e: Happening, p: Params<V, S, O>)
    requires Good(p) && Inv(w, p) && Seamless(w)
    requires e.Restart? ==> Resolve(w.saved, e.start, w.file).offset <= p.cap
    ensures Seamless(Step(w, e, p))
  {
    match e {
      case Grow(_) =>
      case Tick(persist) => if w.live.Some? { TickIs(w, persist, p); }
      case Restart(start) => RestartKeeps(w, start, Tracked(w.file, w.saved, start, p), p);
    }
  }

  /** When every restart finds its position within the replay limit, no adapter ever has a gap: each line is answered
      as by an adapter that never stopped. */
  lemma {:induction false} RunStaysSeamless<V, S, O>(w: Watched<S, O>, events: seq<Happening>, p: Params<V, S, O>)
    requires Good(p) && Inv(w, p) && Seamless(w) && InReach(w, events, p)
    ensures Inv(Run(w, events, p), p) && Seamless(Run(w, events, p))
    decreases |events|
  {
    if events != [] {
      StepKeeps(w, events[0], p);
      StepStaysSeamless(w, events[0], p);
      RunStaysSeamless(Step(w, events[0], p), events[1..], p);
    }
  }

  /** Past the limit a restart remembers the first line of the file alone. It has missed nothing exactly when the
      stream before its position holds nothing else. */
  lemma LargePrefixIff<V, S, O>(w: Watched<S, O>, start: Start, p: Params<V, S, O>)
    requires Good(p) && Inv(w, p) && w.saved.Some? && w.saved.value.offset > p.cap
    ensures var live, before := Tracked(w.file, w.saved, start, p), Heard(w.file.content[..w.saved.value.offset], p);
      && live.cursor == w.saved.value && live.memory == After(FirstLine(w.file, p), p)
      && live.handled == |before| && live.gap == Gap(|FirstLine(w.file, p)|, |before|)
      && (live.gap.from == live.gap.to <==> before == FirstLine(w.file, p))
  {
    BeyondKeeps(w.file, w.saved, start, w.saved.value, p);
    FirstLineBefore(w.file, w.saved.value.offset, p);
  }

  /** One line and its newline. */
  lemma OneLine(text: seq<byte>, x: seq<byte>)
    requires NEWLINE !in text && x == text + [NEWLINE]
    ensures LineEnd(x, 0) == |text| && Lines(x) == [text] && Rest(x) == [] && RestStart(x, 0, 0) == |x|
  {
    EndAtFirst(x, 0, |text|);
    NextLine(x, 0, 0, |text|);
    assert x[..|text|] == text;
  }

  lemma WholeLine(text: seq<byte>)
    requires NEWLINE !in text
    ensures Rest(text + [NEWLINE]) == []
  {
    OneLine(text, text + [NEWLINE]);
  }

  lemma {:induction false} EndAtFirst(s: seq<byte>, i: nat, n: nat)
    requires i <= n < |s| && s[n] == NEWLINE && NEWLINE !in s[i..n]
    ensures LineEnd(s, i) == n
    decreases n - i
  {
    if i < n {
      assert s[i] == s[i..n][0] && s[i + 1..n] == s[i..n][1..];
      EndAtFirst(s, i + 1, n);
    }
  }

  /** A line the tailer passes on to the adapter as `v`. */
  ghost predicate Reads<V, S, O>(text: seq<byte>, v: V, p: Params<V, S, O>) {
    && NEWLINE !in text && |text| < p.maxLine
    && p.decode(text).Some? && Trim(p.decode(text).value) != "" && p.parse(p.decode(text).value) == Some(v)
  }

  lemma OneLineHeard<V, S, O>(text: seq<byte>, v: V, p: Params<V, S, O>)
    requires Reads(text, v, p)
    ensures Parsed(Emitted([text], p.decode), p) == [v]
    ensures Heard(text + [NEWLINE], p) == [v]
  {
    OneLine(text, text + [NEWLINE]);
    var s := p.decode(text).value;
    assert [text][1..] == [] && [s][1..] == [];
    assert Emitted([text], p.decode) == [s];
    assert ParsedOne(s, p) == [v] && Parsed([s], p) == ParsedOne(s, p) + Parsed([s][1..], p);
    assert Short([text], p.maxLine) == [text];
  }

  lemma HeardNext<V, S, O>(content: seq<byte>, x: seq<byte>, p: Params<V, S, O>)
    requires Rest(content) == []
    ensures Heard(content + x, p) == Heard(content, p) + Heard(x, p)
  {
    AppendToWhole(content, x);
    ShortAppend(Lines(content), Lines(x), p.maxLine);
    EmittedAppend(Short(Lines(content), p.maxLine), Short(Lines(x), p.maxLine), p.decode);
    ParsedAppend(Reported(content, p), Reported(x, p), p);
  }

  lemma TwoLinesHeard<V, S, O>(a: seq<byte>, b: seq<byte>, v: V, u: V, content: seq<byte>, p: Params<V, S, O>)
    requires Reads(a, v, p) && Reads(b, u, p) && a + [NEWLINE] + (b + [NEWLINE]) <= content
    ensures [v, u] <= Heard(content, p)
  {
    OneLineHeard(a, v, p);
    OneLineHeard(b, u, p);
    WholeLine(a);
    HeardNext(a + [NEWLINE], b + [NEWLINE], p);
    HeardGrows(a + [NEWLINE] + (b + [NEWLINE]), content, p);
  }

  /** Reading one line that has just been appended. */
  lemma ReadAppended<V, S, O>(content: seq<byte>, c: Cursor, text: seq<byte>, p: Params<V, S, O>)
    requires NEWLINE !in text && |text| < p.maxLine && c.offset == |content| && !c.skipping
    ensures var x := content + (text + [NEWLINE]);
      && ReadAt(x, c, p.maxLine, p.decode).lines == Emitted([text], p.decode)
      && ReadAt(x, c, p.maxLine, p.decode).cursor == c.(offset := |x|)
  {
    var x := content + (text + [NEWLINE]);
    OneLine(text, text + [NEWLINE]);
    assert Window(x, c.offset, p.maxLine) == text + [NEWLINE];
  }

  /** A window that ends with a newline is consumed whole. */
  lemma ReadsWholeWindow<V, S, O>(content: seq<byte>, c: Cursor, p: Params<V, S, O>)
    requires c.offset < |content| && !c.skipping && p.maxLine > 0
    requires var w := Window(content, c.offset, p.maxLine); w[|w| - 1] == NEWLINE
    ensures ReadAt(content, c, p.maxLine, p.decode).cursor
         == c.(offset := c.offset + |Window(content, c.offset, p.maxLine)|)
  {
    RestStartIsAfterLastNewline(Window(content, c.offset, p.maxLine));
  }

  /** The first line of a file that begins with it. */
  lemma FirstLineOf<V, S, O>(file: File, text: seq<byte>, v: V, p: Params<V, S, O>)
    requires Reads(text, v, p) && text + [NEWLINE] <= file.content
    ensures FirstLine(file, p) == [v]
  {
    var w, x := Window(file.content, 0, p.maxLine), text + [NEWLINE];
    OneLine(text, x);
    Extend(x, w, 0, 0);
    OneLineHeard(text, v, p);
    var more := LinesFrom(w, |x|, |x|);
    assert Lines(w) == [text] + more;
    EmittedAppend([text], more, p.decode);
    assert RestStart(w, 0, 0) > 0;
  }

  /** `w1` is `w` taken up at the saved cursor by an adapter that has heard the lines `h`. */
  ghost predicate TakenUpAfter<V, S, O>(w: Watched<S, O>, w1: Watched<S, O>, h: seq<V>, p: Params<V, S, O>) {
    && w1.file == w.file && w1.log == w.log && w1.drawn == w.drawn && w1.live.Some? && w.saved.Some?
    && w.saved.value.offset <= |w.file.content|
    && w1.live.value.cursor == w.saved.value && w1.live.value.memory == After(h, p)
    && w1.live.value.handled == |Heard(w.file.content[..w.saved.value.offset], p)|
  }

  /** A restart past the limit leaves one that has heard the first line alone. */
  lemma LargeRestart<V, S, O>(w: Watched<S, O>, start: Start, w1: Watched<S, O>, p: Params<V, S, O>)
    requires Good(p) && Inv(w, p) && w.saved.Some? && w.saved.value.offset > p.cap && w1 == Step(w, Restart(start), p)
    ensures TakenUpAfter(w, w1, FirstLine(w.file, p), p)
  {
    LargePrefixIff(w, start, p);
  }

  lemma EndsWhole<V, S, O>(file: File, c: Cursor, p: Params<V, S, O>)
    requires Usable(file, c, p) && 0 < c.offset == |file.content| && !c.skipping
    ensures Rest(file.content) == [] && file.content[..c.offset] == file.content
  {
    assert file.content[..c.offset] == file.content;
  }

  /** `w'` has handled one more line than `w`, from what `w` remembers. */
  ghost predicate Answers<V, S, O>(w: Watched<S, O>, v: V, w': Watched<S, O>, p: Params<V, S, O>) {
    && w.live.Some? && Heard(w'.file.content, p) == Heard(w.file.content, p) + [v] && |w'.log| == |w.log| + 1
    && w'.log[|w.log|].index == w.live.value.handled
    && w'.log[|w.log|].out == Said(w.live.value.memory, v, w.drawn + |w.log|, p)
  }

  lemma {:induction false} TakenUpAnswers<V, S, O>(w: Watched<S, O>, w1: Watched<S, O>, h: seq<V>, text: seq<byte>,
                                                  v: V, w': Watched<S, O>, p: Params<V, S, O>)
    requires TakenUpAfter(w, w1, h, p) && Reads(text, v, p) && Rest(w.file.content) == []
    requires w.saved.value.dev == w.file.dev && w.saved.value.ino == w.file.ino
    requires w.saved.value.offset == |w.file.content| && !w.saved.value.skipping
    requires w' == Run(w1, [Grow(text + [NEWLINE]), Tick(true)], p)
    ensures Answers(w1, v, w', p)
  {
    AppendedIsNext(w1, text + [NEWLINE], text, v, w', p);
  }

  lemma {:induction false} AnswersFrom<V, S, O>(w: Watched<S, O>, w1: Watched<S, O>, h: seq<V>, v: V,
                                               w': Watched<S, O>, p: Params<V, S, O>)
    requires TakenUpAfter(w, w1, h, p) && Answers(w1, v, w', p) && w.saved.value.offset == |w.file.content|
    ensures Heard(w'.file.content, p) == Heard(w.file.content, p) + [v] && |w'.log| == |w.log| + 1
    ensures w'.log[|w.log|].index == |Heard(w.file.content, p)|
    ensures w'.log[|w.log|].out == Said(After(h, p), v, w.drawn + |w.log|, p)
  {
    assert w.file.content[..w.saved.value.offset] == w.file.content;
  }

  /** So the next line after a restart past the limit is answered by an adapter that has heard the first line alone. */
  lemma {:induction false} NextLineAfterLargePrefix<V, S, O>(w: Watched<S, O>, start: Start, w1: Watched<S, O>,
                                                            text: seq<byte>, v: V, w': Watched<S, O>,
                                                            p: Params<V, S, O>)
    requires Good(p) && Inv(w, p) && w.saved.Some? && p.cap < w.saved.value.offset == |w.file.content|
    requires !w.saved.value.skipping && Reads(text, v, p)
    requires w1 == Step(w, Restart(start), p) && w' == Run(w1, [Grow(text + [NEWLINE]), Tick(true)], p)
    ensures Heard(w'.file.content, p) == Heard(w.file.content, p) + [v] && |w'.log| == |w.log| + 1
    ensures w'.log[|w.log|].index == |Heard(w.file.content, p)|
    ensures w'.log[|w.log|].out == Said(After(FirstLine(w.file, p), p), v, w.drawn + |w.log|, p)
  {
    EndsWhole(w.file, w.saved.value, p);
    LargeRestart(w, start, w1, p);
    TakenUpAnswers(w, w1, FirstLine(w.file, p), text, v, w', p);
    AnswersFrom(w, w1, FirstLine(w.file, p), v, w', p);
  }

  /** A line appended behind the cursor is the next to be handled. */
  lemma {:induction false} AppendedIsNext<V, S, O>(w: Watched<S, O>, x: seq<byte>, text: seq<byte>, v: V,
                                                   w': Watched<S, O>, p: Params<V, S, O>)
    requires w.live.Some? && Rest(w.file.content) == []
    requires Reads(text, v, p) && x == text + [NEWLINE]
    requires var c := w.live.value.cursor;
      c.dev == w.file.dev && c.ino == w.file.ino && c.offset == |w.file.content| && !c.skipping
    requires w' == Run(w, [Grow(x), Tick(true)], p)
    ensures Answers(w, v, w', p)
  {
    OneLineHeard(text, v, p);
    HeardNext(w.file.content, x, p);
    ReadAppended(w.file.content, w.live.value.cursor, text, p);
    OneTick(Step(w, Grow(x), p), v, p);
    RunTwo(w, Grow(x), Tick(true), p);
  }

  lemma {:induction false} RunTwo<V, S, O>(w: Watched<S, O>, a: Happening, b: Happening, p: Params<V, S, O>)
    ensures Run(w, [a, b], p) == Step(Step(w, a, p), b, p)
  {
    assert [a, b][1..] == [b] && [b][1..] == [];
    assert Run(Step(w, a, p), [b], p) == Step(Step(w, a, p), b, p);
  }

  /** A tick that reads one line. */
  lemma {:induction false} OneTick<V, S, O>(w: Watched<S, O>, v: V, p: Params<V, S, O>)
    requires w.live.Some? && Resolve(Some(w.live.value.cursor), Beginning, w.file) == w.live.value.cursor
    requires var r := ReadAt(w.file.content, w.live.value.cursor, p.maxLine, p.decode);
      Parsed(r.lines, p) == [v] && !Rewound(w.live.value.cursor, r.cursor)
    ensures var w' := Ticked(w, true, p);
      && w'.file == w.file && |w'.log| == |w.log| + 1
      && w'.log[|w.log|] == Entry(w.live.value, v, w.drawn + |w.log|, p)
  {
    var r := ReadAt(w.file.content, w.live.value.cursor, p.maxLine, p.decode);
    ForwardedOne(w.live.value.(cursor := r.cursor), v, w.log, w.drawn, p);
  }

  lemma {:induction false} ForwardedOne<V, S, O>(live: Live<S>, v: V, log: seq<Sent<O>>, drawn: nat, p: Params<V, S, O>)
    ensures Forwarded(live, [v], log, drawn, p).1 == log + [Entry(live, v, drawn + |log|, p)]
  {
    assert [v][1..] == [];
    var after := live.(memory := p.next(live.memory, v), handled := live.handled + 1);
    var more := log + [Entry(live, v, drawn + |log|, p)];
    assert Forwarded(after, [], more, drawn, p) == (after, more);
  }

  // ----- at least once, and exactly once

  /** The place in the stream that the saved cursor stands at. */
  function SavedAt<V, S, O>(w: Watched<S, O>, p: Params<V, S, O>): Option<nat> {
    match w.saved
    case Some(c) => Some(|Heard(w.file.content[..Min(c.offset, |w.file.content|)], p)|)
    case None => None
  }

  /** The place at which a restart goes on. */
  function ResumesAt<V, S, O>(w: Watched<S, O>, start: Start, p: Params<V, S, O>): nat {
    match SavedAt(w, p)
    case Some(n) => n
    case None => if start.Beginning? then 0 else |Heard(w.file.content, p)|
  }

  ghost predicate Handles<O>(log: seq<Sent<O>>, k: nat) {
    exists i | 0 <= i < |log| :: log[i].index == k
  }

  ghost predicate Covered<O>(log: seq<Sent<O>>, from: nat, n: nat) {
    forall k | from <= k < n :: Handles(log, k)
  }

  /** Every line from `from` up to the cursor has been handled live, and the saved cursor is no further. */
  ghost predicate AtLeastOnce<V, S, O>(w: Watched<S, O>, from: nat, p: Params<V, S, O>) {
    && w.live.Some? && (w.saved.Some? ==> SavedAt(w, p).value <= w.live.value.handled)
    && Covered(w.log, from, w.live.value.handled)
  }

  /** The lines from `from` up to the cursor have been handled live, each once and in order, and the saved cursor says
      so too. */
  ghost predicate Exact<V, S, O>(w: Watched<S, O>, from: nat, p: Params<V, S, O>) {
    && w.live.Some? && SavedAt(w, p) == Some(w.live.value.handled)
    && InOrder(w.log, from, w.live.value.handled)
  }

  ghost predicate InOrder<O>(log: seq<Sent<O>>, from: nat, n: nat) {
    && from <= n && |log| == n - from
    && forall i | 0 <= i < |log| :: log[i].index == from + i
  }

  /** How one happening moves the log, the position of the cursor and that of the saved one. */
  ghost predicate Moves<V, S, O>(w: Watched<S, O>, e: Happening, w': Watched<S, O>, p: Params<V, S, O>)
    requires w.live.Some?
  {
    && w'.live.Some?
    && var n, n' := w.live.value.handled, w'.live.value.handled;
       match e
       case Grow(_) => w'.log == w.log && n' == n && SavedAt(w', p) == SavedAt(w, p)
       case Tick(persist) =>
         GoesOn(w.log, w'.log, n, n', w.live.value.gap) && SavedAt(w', p) == if persist then Some(n') else SavedAt(w, p)
       case Restart(start) => w'.log == w.log && n' == ResumesAt(w, start, p) && SavedAt(w', p) == SavedAt(w, p)
  }

  lemma GrowMoves<V, S, O>(w: Watched<S, O>, bytes: seq<byte>, p: Params<V, S, O>)
    requires Inv(w, p) && w.live.Some?
    ensures Moves(w, Grow(bytes), Step(w, Grow(bytes), p), p)
  {
    if w.saved.Some? {
      UsableLater(w.file, w.saved.value, bytes, p);
    }
  }

  lemma TickMoves<V, S, O>(w: Watched<S, O>, persist: bool, p: Params<V, S, O>)
    requires Good(p) && Inv(w, p) && w.live.Some?
    ensures Moves(w, Tick(persist), Ticked(w, persist, p), p)
  {
    TickIs(w, persist, p);
    MovesAsRead(w, persist, Ticked(w, persist, p), p);
  }

  lemma MovesAsRead<V, S, O>(w: Watched<S, O>, persist: bool, w': Watched<S, O>, p: Params<V, S, O>)
    requires w.live.Some? && w'.live.Some? && w'.file == w.file
    requires w'.live.value.cursor.offset <= |w'.file.content|
    requires w'.live.value.handled == |Heard(w'.file.content[..w'.live.value.cursor.offset], p)|
    requires GoesOn(w.log, w'.log, w.live.value.handled, w'.live.value.handled, w.live.value.gap)
    requires w'.saved == if persist then Some(w'.live.value.cursor) else w.saved
    ensures Moves(w, Tick(persist), w', p)
  {
  }

  lemma RestartMoves<V, S, O>(w: Watched<S, O>, start: Start, live: Live<S>, p: Params<V, S, O>)
    requires Good(p) && Inv(w, p) && w.live.Some? && live == Tracked(w.file, w.saved, start, p)
    ensures Moves(w, Restart(start), w.(live := Some(live)), p)
  {
    RestartKeeps(w, start, live, p);
    ResumesThere(w, start, p);
  }

  lemma ResumesThere<V, S, O>(w: Watched<S, O>, start: Start, p: Params<V, S, O>)
    requires w.saved.Some? ==> Usable(w.file, w.saved.value, p)
    ensures Resolve(w.saved, start, w.file).offset <= |w.file.content|
    ensures |Heard(w.file.content[..Resolve(w.saved, start, w.file).offset], p)| == ResumesAt(w, start, p)
  {
    assert w.file.content[..|w.file.content|] == w.file.content;
    assert w.file.content[..0] == [] && Heard(w.file.content[..0], p) == [];
  }

  lemma StepMoves<V, S, O>(w: Watched<S, O>, e: Happening, p: Params<V, S, O>)
    requires Good(p) && Inv(w, p) && w.live.Some?
    ensures Moves(w, e, Step(w, e, p), p)
  {
    match e {
      case Grow(bytes) => GrowMoves(w, bytes, p);
      case Tick(persist) => TickMoves(w, persist, p);
      case Restart(start) => RestartMoves(w, start, Tracked(w.file, w.saved, start, p), p);
    }
  }

  lemma CoveredOn<O>(log: seq<Sent<O>>, more: seq<Sent<O>>, from: nat, n: nat, m: nat, gap: Gap)
    requires Covered(log, from, n) && GoesOn(log, more, n, m, gap)
    ensures Covered(more, from, m)
  {
    forall k | from <= k < m
      ensures Handles(more, k)
    {
      if k < n {
        assert Handles(log, k);
        var i :| 0 <= i < |log| && log[i].index == k;
        assert more[i].index == k;
      } else {
        assert more[|log| + k - n].index == k;
      }
    }
  }

  /** A restart at the end of the file, with no cursor to resume from, finds no line that was not handled. */
  predicate SkipsNothing<V, S, O>(w: Watched<S, O>, e: Happening, p: Params<V, S, O>) {
    e == Restart(End) && w.saved.None? && w.live.Some? ==> w.live.value.handled == |Heard(w.file.content, p)|
  }

  predicate NothingSkipped<V, S, O>(w: Watched<S, O>, events: seq<Happening>, p: Params<V, S, O>)
    decreases |events|
  {
    events == [] || (SkipsNothing(w, events[0], p) && NothingSkipped(Step(w, events[0], p), events[1..], p))
  }

  lemma StepMissesNothing<V, S, O>(w: Watched<S, O>, e: Happening, w': Watched<S, O>, from: nat, p: Params<V, S, O>)
    requires AtLeastOnce(w, from, p) && Moves(w, e, w', p) && SkipsNothing(w, e, p)
    ensures AtLeastOnce(w', from, p)
  {
    if e.Tick? {
      CoveredOn(w.log, w'.log, from, w.live.value.handled, w'.live.value.handled, w.live.value.gap);
    }
  }

  /** A cursor that is lost is read again: over every run in which nothing is skipped, each line from `from` on is
      handled at least once. */
  lemma {:induction false} RunMissesNothing<V, S, O>(w: Watched<S, O>, events: seq<Happening>, from: nat,
                                                    p: Params<V, S, O>)
    requires Good(p) && Inv(w, p) && AtLeastOnce(w, from, p) && NothingSkipped(w, events, p)
    ensures Inv(Run(w, events, p), p) && AtLeastOnce(Run(w, events, p), from, p)
    decreases |events|
  {
    if events != [] {
      StepKeeps(w, events[0], p);
      StepMoves(w, events[0], p);
      StepMissesNothing(w, events[0], Step(w, events[0], p), from, p);
      RunMissesNothing(Step(w, events[0], p), events[1..], from, p);
    }
  }

  /** Once a cursor has been saved nothing can be skipped any more. */
  lemma {:induction false} SavedSkipsNothing<V, S, O>(w: Watched<S, O>, events: seq<Happening>, p: Params<V, S, O>)
    requires w.saved.Some?
    ensures NothingSkipped(w, events, p)
    decreases |events|
  {
    if events != [] {
      SavedSkipsNothing(Step(w, events[0], p), events[1..], p);
    }
  }

  /** Line `k` is behind every cursor and has not been handled. */
  ghost predicate Missed<V, S, O>(w: Watched<S, O>, k: nat, p: Params<V, S, O>) {
    && w.live.Some? && k < w.live.value.handled && (w.saved.Some? ==> k < SavedAt(w, p).value)
    && !Handles(w.log, k)
  }

  lemma StaysUnhandled<O>(log: seq<Sent<O>>, more: seq<Sent<O>>, n: nat, m: nat, gap: Gap, k: nat)
    requires GoesOn(log, more, n, m, gap) && k < n && !Handles(log, k)
    ensures !Handles(more, k)
  {
    forall i | 0 <= i < |more|
      ensures more[i].index != k
    {
      if i < |log| {
        assert more[i] == log[i];
      }
    }
  }

  lemma StopsThere<O>(log: seq<Sent<O>>, from: nat, n: nat, k: nat)
    requires InOrder(log, from, n) && n <= k
    ensures !Handles(log, k)
  {
    forall i | 0 <= i < |log|
      ensures log[i].index != k
    {
    }
  }

  lemma StepStaysMissed<V, S, O>(w: Watched<S, O>, e: Happening, w': Watched<S, O>, k: nat, p: Params<V, S, O>)
    requires Missed(w, k, p) && Moves(w, e, w', p) && e != Restart(Beginning) && k < |Heard(w.file.content, p)|
    ensures Missed(w', k, p)
  {
    if e.Tick? {
      StaysUnhandled(w.log, w'.log, w.live.value.handled, w'.live.value.handled, w.live.value.gap, k);
    }
  }

  /** What is behind every cursor stays unhandled, as long as no restart begins the file anew. */
  lemma {:induction false} RunStaysMissed<V, S, O>(w: Watched<S, O>, events: seq<Happening>, k: nat,
                                                  p: Params<V, S, O>)
    requires Good(p) && Inv(w, p) && Missed(w, k, p) && Restart(Beginning) !in events
    ensures Missed(Run(w, events, p), k, p)
    decreases |events|
  {
    if events != [] {
      StepKeeps(w, events[0], p);
      StepMoves(w, events[0], p);
      StepStaysMissed(w, events[0], Step(w, events[0], p), k, p);
      RunStaysMissed(Step(w, events[0], p), events[1..], k, p);
    }
  }

  /** Every line so far has been handled in order, if no cursor was ever saved. */
  ghost predicate FirstPass<V, S, O>(w: Watched<S, O>, from: nat, p: Params<V, S, O>) {
    AtLeastOnce(w, from, p) && (w.saved.None? ==> InOrder(w.log, from, w.live.value.handled))
  }

  /** The line that a restart at the end of the file skips. */
  lemma FirstSkipped<V, S, O>(w: Watched<S, O>, w': Watched<S, O>, from: nat, p: Params<V, S, O>)
    requires Inv(w, p) && FirstPass(w, from, p) && !SkipsNothing(w, Restart(End), p) && Moves(w, Restart(End), w', p)
    requires w'.saved == w.saved
    ensures from <= w.live.value.handled && Missed(w', w.live.value.handled, p)
  {
    StopsThere(w.log, from, w.live.value.handled, w.live.value.handled);
  }

  lemma StepIsFirstPass<V, S, O>(w: Watched<S, O>, e: Happening, w': Watched<S, O>, from: nat, p: Params<V, S, O>)
    requires FirstPass(w, from, p) && Moves(w, e, w', p) && SkipsNothing(w, e, p) && e != Restart(Beginning)
    ensures FirstPass(w', from, p)
  {
    StepMissesNothing(w, e, w', from, p);
    if e.Tick? && w.saved.None? {
      InOrderOn(w.log, w'.log, from, w.live.value.handled, w'.live.value.handled, w.live.value.gap);
    }
  }

  /** The exact condition: over every run whose restarts take up unsaved files at their end, as those of a known file
      do, every line up to the cursor is handled if and only if no restart came with lines unread before the first
      cursor was saved. */
  lemma {:induction false} RunMissesIff<V, S, O>(w: Watched<S, O>, events: seq<Happening>, from: nat,
                                                p: Params<V, S, O>)
    requires Good(p) && Inv(w, p) && FirstPass(w, from, p) && Restart(Beginning) !in events
    ensures var w' := Run(w, events, p);
      w'.live.Some? && (Covered(w'.log, from, w'.live.value.handled) <==> NothingSkipped(w, events, p))
    decreases |events|
  {
    if events != [] {
      var next := Step(w, events[0], p);
      StepKeeps(w, events[0], p);
      StepMoves(w, events[0], p);
      if SkipsNothing(w, events[0], p) {
        StepIsFirstPass(w, events[0], next, from, p);
        RunMissesIff(next, events[1..], from, p);
      } else {
        var k := w.live.value.handled;
        FirstSkipped(w, next, from, p);
        RunStaysMissed(next, events[1..], k, p);
        NotCovered(Run(next, events[1..], p), from, k, p);
      }
    }
  }

  lemma NotCovered<V, S, O>(w: Watched<S, O>, from: nat, k: nat, p: Params<V, S, O>)
    requires Missed(w, k, p) && from <= k
    ensures !Covered(w.log, from, w.live.value.handled)
  {
    assert !Handles(w.log, k);
  }

  lemma InOrderOn<O>(log: seq<Sent<O>>, more: seq<Sent<O>>, from: nat, n: nat, m: nat, gap: Gap)
    requires InOrder(log, from, n) && GoesOn(log, more, n, m, gap)
    ensures InOrder(more, from, m)
  {
    forall i | 0 <= i < |more|
      ensures more[i].index == from + i
    {
      if i < |log| {
        assert more[i] == log[i];
      }
    }
  }

  lemma StepIsExact<V, S, O>(w: Watched<S, O>, e: Happening, w': Watched<S, O>, from: nat, p: Params<V, S, O>)
    requires Exact(w, from, p) && e != Tick(false) && Moves(w, e, w', p)
    ensures Exact(w', from, p)
  {
    if e.Tick? {
      InOrderOn(w.log, w'.log, from, w.live.value.handled, w'.live.value.handled, w.live.value.gap);
    }
  }

  /** With every cursor saved, each line is handled once and in order, through every restart. */
  lemma {:induction false} RunIsExact<V, S, O>(w: Watched<S, O>, events: seq<Happening>, from: nat, p: Params<V, S, O>)
    requires Good(p) && Inv(w, p) && Exact(w, from, p)
    requires Tick(false) !in events
    ensures Inv(Run(w, events, p), p) && Exact(Run(w, events, p), from, p)
    decreases |events|
  {
    if events != [] {
      StepKeeps(w, events[0], p);
      StepMoves(w, events[0], p);
      StepIsExact(w, events[0], Step(w, events[0], p), from, p);
      RunIsExact(Step(w, events[0], p), events[1..], from, p);
    }
  }

  /** A file is discovered and read for the first time in one turn of the loop, and its cursor saved or lost. */
  function FirstSight<V, S, O>(file: File, start: Start, persist: bool, p: Params<V, S, O>): Watched<S, O> {
    Ticked(Unread(file, Tracked(file, None, start, p)), persist, p)
  }

  function Unread<S, O>(file: File, live: Live<S>): Watched<S, O> {
    Watched(file, Some(live), None, [], 0)
  }

  lemma {:induction false} FirstReadIsExact<V, S, O>(live: Live<S>, w: Watched<S, O>, persist: bool, w': Watched<S, O>,
                                                     p: Params<V, S, O>)
    requires Good(p) && InStep(w.file, live, p) && w.live == Some(live) && w.saved.None? && w.log == []
    requires w' == Ticked(w, persist, p)
    ensures Inv(w', p) && (live.gap == NO_GAP ==> Seamless(w'))
    ensures FirstPass(w', live.handled, p) && (persist ==> Exact(w', live.handled, p))
  {
    TickIs(w, persist, p);
    FirstLogIsExact(live.handled, w, persist, w', live.gap, p);
  }

  lemma FirstLogIsExact<V, S, O>(n: nat, w: Watched<S, O>, persist: bool, w': Watched<S, O>, gap: Gap,
                                 p: Params<V, S, O>)
    requires w.log == [] && Inv(w', p) && w'.live.Some?
    requires w'.saved == if persist then Some(w'.live.value.cursor) else None
    requires GoesOn(w.log, w'.log, n, w'.live.value.handled, gap)
    ensures FirstPass(w', n, p) && (persist ==> Exact(w', n, p))
  {
    InOrderOn(w.log, w'.log, n, n, w'.live.value.handled, gap);
    CoveredOn(w.log, w'.log, n, n, w'.live.value.handled, gap);
  }

  /** Where a file seen for the first time is joined. */
  function JoinsAt<V, S, O>(file: File, start: Start, p: Params<V, S, O>): nat {
    if start.Beginning? then 0 else |Heard(file.content, p)|
  }

  lemma FirstSightIsExact<V, S, O>(file: File, start: Start, persist: bool, p: Params<V, S, O>)
    requires Good(p)
    ensures var w := FirstSight(file, start, persist, p);
      && Inv(w, p) && FirstPass(w, JoinsAt(file, start, p), p)
      && (persist ==> Exact(w, JoinsAt(file, start, p), p))
      && (Resolve(None, start, file).offset <= p.cap ==> Seamless(w))
  {
    var live := Tracked(file, None, start, p);
    TrackedKeeps(file, None, start, Resolve(None, start, file), live, p);
    assert file.content[..|file.content|] == file.content && file.content[..0] == [];
    FirstReadIsExact(live, Unread(file, live), persist, FirstSight(file, start, persist, p), p);
  }

  /** From first sight on, whatever the size of the file: it is forwarded from its beginning, or from the line break
      before its end, each later line once and in order, through every restart. */
  lemma FirstSightRunIsExact<V, S, O>(file: File, start: Start, events: seq<Happening>, p: Params<V, S, O>)
    requires Good(p)
    requires Tick(false) !in events
    ensures var w := Run(FirstSight(file, start, true, p), events, p);
      Inv(w, p) && Exact(w, JoinsAt(file, start, p), p)
  {
    FirstSightIsExact(file, start, true, p);
    RunIsExact(FirstSight(file, start, true, p), events, JoinsAt(file, start, p), p);
  }

  /** With any cursors lost, the very first included, every line is handled at least once if and only if no restart came
      with lines unread before the first cursor was saved. */
  lemma FirstSightRunMissesIff<V, S, O>(file: File, start: Start, persist: bool, events: seq<Happening>,
                                        p: Params<V, S, O>)
    requires Good(p) && Restart(Beginning) !in events
    ensures var first := FirstSight(file, start, persist, p);
      var w := Run(first, events, p);
      && w.live.Some?
      && (Covered(w.log, JoinsAt(file, start, p), w.live.value.handled) <==> NothingSkipped(first, events, p))
      && (persist ==> NothingSkipped(first, events, p))
  {
    FirstSightIsExact(file, start, persist, p);
    RunMissesIff(FirstSight(file, start, persist, p), events, JoinsAt(file, start, p), p);
    if persist {
      SavedSkipsNothing(FirstSight(file, start, persist, p), events, p);
    }
  }

  lemma {:induction false} TickReads<V, S, O>(w: Watched<S, O>, r: TailRead, p: Params<V, S, O>)
    requires w.live.Some? && Resolve(Some(w.live.value.cursor), Beginning, w.file) == w.live.value.cursor
    requires r == ReadAt(w.file.content, w.live.value.cursor, p.maxLine, p.decode)
    requires !Rewound(w.live.value.cursor, r.cursor)
    ensures var w' := Ticked(w, true, p);
      w'.file == w.file && w'.live.Some? && w'.live.value.cursor == r.cursor && w'.saved == Some(r.cursor)
  {
    var before := w.live.value.(cursor := r.cursor);
    var (next, sent) := Forwarded(before, Parsed(r.lines, p), w.log, w.drawn, p);
    ForwardedGoesOn(before, Parsed(r.lines, p), w.log, w.drawn, next, sent, p);
  }

  /** A file of two windows of whole lines is read to its end in two ticks. */
  lemma {:induction false} ReadToTheEnd<V, S, O>(file: File, p: Params<V, S, O>)
    requires 0 < p.maxLine < |file.content| <= 2 * p.maxLine
    requires file.content[p.maxLine - 1] == NEWLINE == file.content[|file.content| - 1]
    ensures var w := Step(FirstSight(file, Beginning, true, p), Tick(true), p);
      w.file == file && w.saved == Some(Cursor(file.dev, file.ino, |file.content|, false))
  {
    var start := Cursor(file.dev, file.ino, 0, false);
    ReadsWholeWindow(file.content, start, p);
    ReadsWholeWindow(file.content, start.(offset := p.maxLine), p);
    var unread: Watched<S, O> := Unread(file, Tracked(file, None, Beginning, p));
    TickReads(unread, ReadAt(file.content, start, p.maxLine, p.decode), p);
    var rest := ReadAt(file.content, start.(offset := p.maxLine), p.maxLine, p.decode);
    TickReads(FirstSight(file, Beginning, true, p), rest, p);
  }

  /** The promise broken: the cursor of the first turn is lost, a line is appended, and the restart joins the file at
      its end. That line is not handled then, nor in any later run. */
  lemma {:induction false} LostFirstCursor<V, S, O>(file: File, text: seq<byte>, v: V, events: seq<Happening>,
                                                    p: Params<V, S, O>)
    requires Good(p) && Rest(file.content) == [] && Reads(text, v, p) && Restart(Beginning) !in events
    ensures var w := Step(FirstSight(file, Beginning, false, p), Grow(text + [NEWLINE]), p);
      var w' := Run(Step(w, Restart(End), p), events, p);
      var k := |Heard(file.content, p)|;
      k < |Heard(w.file.content, p)| && w'.live.Some? && k < w'.live.value.handled && !Handles(w'.log, k)
  {
    var first := FirstSight(file, Beginning, false, p);
    FirstSightIsExact(file, Beginning, false, p);
    var w := Step(first, Grow(text + [NEWLINE]), p);
    StepKeeps(first, Grow(text + [NEWLINE]), p);
    StepMoves(first, Grow(text + [NEWLINE]), p);
    OneLineHeard(text, v, p);
    HeardNext(file.content, text + [NEWLINE], p);
    StepKeeps(w, Restart(End), p);
    StepMoves(w, Restart(End), p);
    LastLineMissed(first, w, Step(w, Restart(End), p), file, p);
    RunStaysMissed(Step(w, Restart(End), p), events, |Heard(file.content, p)|, p);
  }

  lemma LastLineMissed<V, S, O>(first: Watched<S, O>, w: Watched<S, O>, w': Watched<S, O>, file: File,
                                p: Params<V, S, O>)
    requires Inv(first, p) && FirstPass(first, 0, p) && first.saved.None? && first.file == file
    requires w.live.Some? && w.log == first.log && w.live.value.handled == first.live.value.handled && w.saved.None?
    requires |Heard(w.file.content, p)| > |Heard(file.content, p)| && Moves(w, Restart(End), w', p) && w'.saved.None?
    ensures Missed(w', |Heard(file.content, p)|, p)
  {
    StopsThere(first.log, 0, first.live.value.handled, |Heard(file.content, p)|);
  }
}
