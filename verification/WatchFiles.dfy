/** The watcher when the file under a path is replaced or cut short. */
module WatchFiles {
  import opened Prelude
  import opened RolloutTail
  import opened Watch

  /** The file is not the one the cursor is for, or it has become shorter. */
  predicate Lost(file: File, c: Cursor) {
    c.dev != file.dev || c.ino != file.ino || c.offset > |file.content|
  }

  function Anew(file: File): Cursor {
    Cursor(file.dev, file.ino, 0, false)
  }

  /** An adapter that has heard nothing, at the beginning of the file. */
  function FromStart<V, S, O>(file: File, p: Params<V, S, O>): Live<S> {
    Live(Anew(file), p.initial, 0, NO_GAP)
  }

  lemma ResolveIs(c: Cursor, start: Start, file: File)
    ensures Resolve(Some(c), start, file) == if Lost(file, c) then Anew(file) else c
  {
  }

  lemma ReadStaysInside(content: seq<byte>, c: Cursor, maxLine: nat, decode: Decoder)
    requires c.offset <= |content|
    ensures var r := ReadAt(content, c, maxLine, decode).cursor;
      c.offset <= r.offset <= |content| && r.dev == c.dev && r.ino == c.ino
  {
  }

  /** A tick notices the change, and forgets what it knew, exactly when the cursor is lost. */
  lemma NoticedIff<V, S, O>(file: File, was: Cursor, p: Params<V, S, O>)
    ensures var read := ReadAt(file.content, Resolve(Some(was), Beginning, file), p.maxLine, p.decode);
      Rewound(was, read.cursor) <==> Lost(file, was)
  {
    ResolveIs(was, Beginning, file);
    ReadStaysInside(file.content, Resolve(Some(was), Beginning, file), p.maxLine, p.decode);
  }

  // ----- as if the file were new

  /** The same, or a lost cursor against one at the beginning. */
  predicate SameCursor(file: File, a: Option<Cursor>, b: Option<Cursor>) {
    a == b || (a.Some? && Lost(file, a.value) && b == Some(Anew(file)))
  }

  predicate SameLive<V, S(==), O>(file: File, a: Option<Live<S>>, b: Option<Live<S>>, p: Params<V, S, O>) {
    a == b || (a.Some? && Lost(file, a.value.cursor) && b == Some(FromStart(file, p)))
  }

  /** `w` stands as `v` does, but for lost cursors, what it logged before, and the draws made for that. */
  ghost predicate StandsAs<V, S, O>(w: Watched<S, O>, v: Watched<S, O>, before: seq<Sent<O>>, p: Params<V, S, O>) {
    && w.file == v.file && w.log == before + v.log && v.drawn == w.drawn + |before|
    && SameCursor(w.file, w.saved, v.saved) && SameLive(w.file, w.live, v.live, p)
  }

  lemma {:induction false} ForwardedAfter<V, S, O>(live: Live<S>, lines: seq<V>, before: seq<Sent<O>>,
                                                  log: seq<Sent<O>>, drawn: nat, p: Params<V, S, O>)
    ensures var (next, sent) := Forwarded(live, lines, log, drawn + |before|, p);
      Forwarded(live, lines, before + log, drawn, p) == (next, before + sent)
    decreases |lines|
  {
    if lines != [] {
      var e := Entry(live, lines[0], drawn + |before| + |log|, p);
      assert before + log + [e] == before + (log + [e]);
      var after := live.(memory := p.next(live.memory, lines[0]), handled := live.handled + 1);
      ForwardedAfter(after, lines[1..], before, log + [e], drawn, p);
    }
  }

  lemma ResolveSame(file: File, a: Option<Cursor>, b: Option<Cursor>, start: Start)
    requires SameCursor(file, a, b)
    ensures Resolve(a, start, file) == Resolve(b, start, file) && (a.Some? <==> b.Some?)
  {
    if a != b {
      ResolveIs(a.value, start, file);
      ResolveIs(b.value, start, file);
    }
  }

  lemma TrackedSame<V, S, O>(file: File, a: Option<Cursor>, b: Option<Cursor>, start: Start, p: Params<V, S, O>)
    requires SameCursor(file, a, b)
    ensures Tracked(file, a, start, p) == Tracked(file, b, start, p)
  {
    ResolveSame(file, a, b, start);
  }

  /** What a tick reads, and the adapter it hands that to. */
  function Begins<V, S, O>(file: File, live: Live<S>, p: Params<V, S, O>): (TailRead, Live<S>) {
    var read := ReadAt(file.content, Resolve(Some(live.cursor), Beginning, file), p.maxLine, p.decode);
    (read, if Rewound(live.cursor, read.cursor) then Live(read.cursor, p.initial, 0, NO_GAP)
           else live.(cursor := read.cursor))
  }

  lemma BeginsSame<V, S, O>(file: File, a: Live<S>, b: Live<S>, p: Params<V, S, O>)
    requires SameLive(file, Some(a), Some(b), p)
    ensures Begins(file, a, p) == Begins(file, b, p)
  {
    ResolveSame(file, Some(a.cursor), Some(b.cursor), Beginning);
    NoticedIff(file, a.cursor, p);
    NoticedIff(file, b.cursor, p);
  }

  lemma TickedIs<V, S, O>(w: Watched<S, O>, persist: bool, p: Params<V, S, O>)
    requires w.live.Some?
    ensures var (read, live) := Begins(w.file, w.live.value, p);
      var (next, sent) := Forwarded(live, Parsed(read.lines, p), w.log, w.drawn, p);
      Ticked(w, persist, p)
      == Watched(w.file, Some(next), if persist then Some(next.cursor) else w.saved, sent, w.drawn)
  {
  }

  lemma TickStandsAs<V, S, O>(w: Watched<S, O>, v: Watched<S, O>, persist: bool, before: seq<Sent<O>>,
                              p: Params<V, S, O>)
    requires StandsAs(w, v, before, p) && w.live.Some?
    ensures v.live.Some? && StandsAs(Ticked(w, persist, p), Ticked(v, persist, p), before, p)
    ensures Ticked(w, persist, p).live == Ticked(v, persist, p).live
  {
    BeginsSame(w.file, w.live.value, v.live.value, p);
    TickedIs(w, persist, p);
    TickedIs(v, persist, p);
    var (read, live) := Begins(w.file, w.live.value, p);
    ForwardedAfter(live, Parsed(read.lines, p), before, v.log, w.drawn, p);
  }

  /** A cursor that is lost stays so: a file that was cut short does not grow back unseen. */
  predicate StillLost<S, O>(w: Watched<S, O>, e: Happening) {
    e.Grow? ==>
      var grown := w.file.(content := w.file.content + e.bytes);
      && (w.saved.Some? && Lost(w.file, w.saved.value) ==> Lost(grown, w.saved.value))
      && (w.live.Some? && Lost(w.file, w.live.value.cursor) ==> Lost(grown, w.live.value.cursor))
  }

  lemma StepStandsAs<V, S, O>(w: Watched<S, O>, v: Watched<S, O>, e: Happening, before: seq<Sent<O>>,
                              p: Params<V, S, O>)
    requires StandsAs(w, v, before, p) && StillLost(w, e)
    ensures StandsAs(Step(w, e, p), Step(v, e, p), before, p)
  {
    match e {
      case Grow(_) =>
      case Tick(persist) => if w.live.Some? { TickStandsAs(w, v, persist, before, p); }
      case Restart(start) => TrackedSame(w.file, w.saved, v.saved, start, p);
    }
  }

  predicate StayLost<V, S, O>(w: Watched<S, O>, events: seq<Happening>, p: Params<V, S, O>)
    decreases |events|
  {
    events == [] || (StillLost(w, events[0]) && StayLost(Step(w, events[0], p), events[1..], p))
  }

  lemma {:induction false} RunStandsAs<V, S, O>(w: Watched<S, O>, v: Watched<S, O>, events: seq<Happening>,
                                               before: seq<Sent<O>>, p: Params<V, S, O>)
    requires StandsAs(w, v, before, p) && StayLost(w, events, p)
    ensures StandsAs(Run(w, events, p), Run(v, events, p), before, p)
    decreases |events|
  {
    if events != [] {
      StepStandsAs(w, v, events[0], before, p);
      RunStandsAs(Step(w, events[0], p), Step(v, events[0], p), events[1..], before, p);
    }
  }

  /** The file taken up at its beginning, with that cursor saved, and nothing logged yet. */
  function TakenUp<V, S, O>(w: Watched<S, O>, p: Params<V, S, O>): Watched<S, O> {
    var start := Anew(w.file);
    Watched(w.file, if w.live.Some? then Some(FromStart(w.file, p)) else None,
            if w.saved.Some? then Some(start) else None, [], w.drawn + |w.log|)
  }

  /** Another file stands under the path: every cursor is lost. */
  predicate AllLost<S, O>(w: Watched<S, O>) {
    && (w.saved.Some? ==> Lost(w.file, w.saved.value))
    && (w.live.Some? ==> Lost(w.file, w.live.value.cursor))
  }

  lemma TakenUpStands<V, S, O>(w: Watched<S, O>, v: Watched<S, O>, p: Params<V, S, O>)
    requires Good(p) && AllLost(w) && v == TakenUp(w, p)
    ensures StandsAs(w, v, w.log, p) && Inv(v, p) && Seamless(v)
    ensures v.live.Some? ==> FirstPass(v, 0, p) && (v.saved.Some? ==> Exact(v, 0, p))
  {
    assert w.log + [] == w.log;
    assert w.file.content[..0] == [] && Heard(w.file.content[..0], p) == [];
    AllHeard(w.file, Anew(w.file), p);
  }

  /** After a replacement or truncation, whatever was watched before: over every run on the new file, what is logged
      from then on is exactly what a watcher logs that took the new file up at its beginning. So it is right for the
      new file alone, and with every cursor saved it is each of its lines once and in order. */
  lemma ReplacedRun<V, S, O>(w: Watched<S, O>, events: seq<Happening>, v: Watched<S, O>, p: Params<V, S, O>)
    requires Good(p) && AllLost(w) && StayLost(w, events, p) && v == Run(TakenUp(w, p), events, p)
    ensures var w' := Run(w, events, p);
      && w'.log == w.log + v.log && w'.file == v.file && StandsAs(w', v, w.log, p)
      && Inv(v, p) && AllRight(v.log, Heard(w'.file.content, p), p)
      && (w.live.Some? && w.saved.Some? && Tick(false) !in events ==> Exact(v, 0, p))
  {
    TakenUpStands(w, TakenUp(w, p), p);
    RunStandsAs(w, TakenUp(w, p), events, w.log, p);
    RunStaysRight(TakenUp(w, p), events, p);
    if w.live.Some? && w.saved.Some? && Tick(false) !in events {
      RunIsExact(TakenUp(w, p), events, 0, p);
    }
  }

  /** In particular one tick is enough, whatever the saved cursor: the new file is heard from its beginning, without a
      gap, by an adapter that remembers nothing of the old one, and what is logged is right for it. */
  lemma ReplacedFileStartsOver<V, S, O>(w: Watched<S, O>, persist: bool, p: Params<V, S, O>)
    requires Good(p) && w.live.Some? && Lost(w.file, w.live.value.cursor)
    ensures var w' := Ticked(w, persist, p);
      && w'.live.Some? && InStep(w.file, w'.live.value, p) && w'.live.value.gap == NO_GAP
      && w.log <= w'.log && AllRight(w'.log[|w.log|..], Heard(w.file.content, p), p)
  {
    var w0 := w.(saved := None);
    var v := TakenUp(w0, p);
    TakenUpStands(w0, v, p);
    TickStandsAs(w0, v, persist, w.log, p);
    TickIs(v, persist, p);
    TickedIs(w, persist, p);
    TickedIs(w0, persist, p);
    assert Ticked(w, persist, p).log[|w.log|..] == Ticked(v, persist, p).log;
  }

  // ----- a file with another identity

  /** The cursor is for another file, or inside this one. */
  predicate Elsewhere(file: File, c: Cursor) {
    c.dev != file.dev || c.ino != file.ino || c.offset <= |file.content|
  }

  predicate NoneCut<S, O>(w: Watched<S, O>) {
    && (w.saved.Some? ==> Elsewhere(w.file, w.saved.value))
    && (w.live.Some? ==> Elsewhere(w.file, w.live.value.cursor))
  }

  lemma BeyondStaysInside(file: File, saved: Option<Cursor>, c: Cursor)
    requires c.offset <= |file.content|
    ensures Beyond(file, saved, c).offset <= |file.content|
  {
  }

  lemma TrackedStaysInside<V, S, O>(file: File, saved: Option<Cursor>, start: Start, p: Params<V, S, O>)
    ensures Elsewhere(file, Tracked(file, saved, start, p).cursor)
  {
    var c := Resolve(saved, start, file);
    assert c.offset <= |file.content|;
    BeyondStaysInside(file, saved, c);
  }

  lemma StepCutsNone<V, S, O>(w: Watched<S, O>, e: Happening, p: Params<V, S, O>)
    requires NoneCut(w)
    ensures NoneCut(Step(w, e, p)) && StillLost(w, e)
  {
    match e {
      case Grow(_) =>
      case Tick(persist) =>
        if w.live.Some? {
          TickedIs(w, persist, p);
          var c := Resolve(Some(w.live.value.cursor), Beginning, w.file);
          ReadStaysInside(w.file.content, c, p.maxLine, p.decode);
          var (read, live) := Begins(w.file, w.live.value, p);
          var (next, sent) := Forwarded(live, Parsed(read.lines, p), w.log, w.drawn, p);
          ForwardedGoesOn(live, Parsed(read.lines, p), w.log, w.drawn, next, sent, p);
        }
      case Restart(start) => TrackedStaysInside(w.file, w.saved, start, p);
    }
  }

  /** A file with another identity is always noticed, however it grows before the next look. */
  lemma {:induction false} OtherFileIsNoticed<V, S, O>(w: Watched<S, O>, events: seq<Happening>, p: Params<V, S, O>)
    requires NoneCut(w)
    ensures StayLost(w, events, p)
    decreases |events|
  {
    if events != [] {
      StepCutsNone(w, events[0], p);
      OtherFileIsNoticed(Step(w, events[0], p), events[1..], p);
    }
  }
}
