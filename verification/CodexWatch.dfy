/** The watcher with the Codex adapter inside. */
module CodexWatch {
  import opened Prelude
  import opened Json
  import opened Text
  import opened Codex
  import opened CodexRuns
  import opened RolloutTail
  import TailRuns
  import opened Watch

  /** The daemon's line window and its replay limit are the same. */
  const MAX_LINE_BYTES := 8 * 1024 * 1024
  const WARM_REPLAY_CAP := 8 * 1024 * 1024

  function Parse(line: string, json: string -> Option<Value>): Option<Line> {
    match json(line)
    case Some(v) => Some(Line("", v))
    case None => None
  }

  function Setup(decode: Decoder, json: string -> Option<Value>, claims: string -> bool): Params<Line, State, Outcome> {
    Params(MAX_LINE_BYTES, WARM_REPLAY_CAP, decode, line => Parse(line, json),
           INITIAL, (st: State, line: Line) => Next(st, line.native),
           (st: State, line: Line, draw: nat) => Output(st, line, draw, claims), (st: State) => st.session.Some?)
  }

  lemma {:induction false} MemoryAgrees(h: seq<Line>, decode: Decoder, json: string -> Option<Value>,
                                        claims: string -> bool)
    ensures After(h, Setup(decode, json, claims)) == StateAfter(h)
  {
    if h != [] {
      MemoryAgrees(h[..|h| - 1], decode, json, claims);
    }
  }

  /** What an entry says, in the adapter's own terms. */
  lemma EntryIs(e: Sent<Outcome>, g: seq<Line>, decode: Decoder, json: string -> Option<Value>, claims: string -> bool)
    requires Right(e, g, Setup(decode, json, claims))
    ensures e.out.Some? <==> StateAfter(Kept(g, e.gap, e.index + 1)).session.Some?
    ensures e.out.Some? ==> e.out.value == Output(StateAfter(Kept(g, e.gap, e.index)), g[e.index], e.draw, claims)
  {
    KeptNext(g, e.gap, e.index);
    MemoryAgrees(Kept(g, e.gap, e.index), decode, json, claims);
    StateAfterAppend(Kept(g, e.gap, e.index), g[e.index]);
  }

  /** An entry that carries a guessed exit code. */
  predicate Guesses(e: Sent<Outcome>) {
    e.out.Some? && AnyGuessed(e.out.value)
  }

  /** A tool output that reports success without an exit code. */
  predicate ClaimsCompletion(native: Value) {
    && AnsweredCall(native).Some? && Get(native, "payload").Some?
    && var blocks := Blocks(Get(native, "payload").value);
       FirstCode(blocks).None? && Find(Concat(blocks), "Script completed").Some?
  }

  predicate Offers(h: seq<Line>) {
    exists i | 0 <= i < |h| :: OfferedSession(h[i].native).Some?
  }

  lemma OffersIff(h: seq<Line>)
    ensures Offers(h) <==> StateAfter(h).session.Some?
  {
    MemoryIsHistory(h);
    if Offers(h) && !exists i :: FirstOffer(h, i) {
      NoOffer(h);
    }
  }

  lemma LatchIsMemory(h: seq<Line>)
    ensures StateAfter(h).itemFormat <==> Latched(h)
  {
    MemoryIsHistory(h);
  }

  lemma OutputGuessesIff(h: seq<Line>, line: Line, draw: nat, claims: string -> bool)
    ensures AnyGuessed(Output(StateAfter(h), line, draw, claims)) <==>
      ClaimsCompletion(line.native) && !Latched(h + [line])
  {
    var st := StateAfter(h);
    GuessOnlyWhenUnlatched(line.native, st.pending, ContextOf(st, line, draw), claims);
    LatchIsMemory(h);
    LatchedStep(h, line);
  }

  lemma GuessSaidIff(h: seq<Line>, line: Line, draw: nat,
                     decode: Decoder, json: string -> Option<Value>, claims: string -> bool)
    ensures var p := Setup(decode, json, claims);
      var out := Said(After(h, p), line, draw, p);
      out.Some? && AnyGuessed(out.value) <==>
      ClaimsCompletion(line.native) && !Latched(h + [line]) && Offers(h + [line])
  {
    MemoryAgrees(h, decode, json, claims);
    StateAfterAppend(h, line);
    OffersIff(h + [line]);
    OutputGuessesIff(h, line, draw, claims);
  }

  lemma EntryGuessesIff(e: Sent<Outcome>, g: seq<Line>, decode: Decoder, json: string -> Option<Value>,
                        claims: string -> bool)
    requires Right(e, g, Setup(decode, json, claims))
    ensures Guesses(e) <==>
      && ClaimsCompletion(g[e.index].native)
      && !Latched(Kept(g, e.gap, e.index + 1)) && Offers(Kept(g, e.gap, e.index + 1))
  {
    KeptNext(g, e.gap, e.index);
    GuessSaidIff(Kept(g, e.gap, e.index), g[e.index], e.draw, decode, json, claims);
  }

  /** Whatever growth, lost cursors and restarts at any size came before: an exit code is guessed and forwarded for a
      line exactly when the line reports completion without a code and, among the lines up to it that its adapter has
      heard, some line offers a session and none shows the item format. */
  lemma RunGuessesIff(w: Watched<State, Outcome>, events: seq<Happening>, w': Watched<State, Outcome>,
                      e: Sent<Outcome>, decode: Decoder, json: string -> Option<Value>, claims: string -> bool)
    requires var p := Setup(decode, json, claims); decode([]) == Some("") && Inv(w, p) && w' == Run(w, events, p)
    requires e in w'.log
    ensures var g := Heard(w'.file.content, Setup(decode, json, claims));
      && e.gap.from <= e.gap.to <= e.index < |g|
      && (Guesses(e) <==>
          && ClaimsCompletion(g[e.index].native)
          && !Latched(Kept(g, e.gap, e.index + 1)) && Offers(Kept(g, e.gap, e.index + 1)))
  {
    var p := Setup(decode, json, claims);
    RunStaysRight(w, events, p);
    EntryRight(w'.log, Heard(w'.file.content, p), e, p);
    EntryGuessesIff(e, Heard(w'.file.content, p), decode, json, claims);
  }

  /** As long as every restart finds its position within the replay limit, no guessed exit code is ever forwarded for
      a line at or after the first one of the file that shows the item format. */
  lemma NoGuessPastTrigger(w: Watched<State, Outcome>, events: seq<Happening>, w': Watched<State, Outcome>,
                           e: Sent<Outcome>, decode: Decoder, json: string -> Option<Value>, claims: string -> bool)
    requires var p := Setup(decode, json, claims);
      decode([]) == Some("") && Inv(w, p) && Seamless(w) && InReach(w, events, p) && w' == Run(w, events, p)
    requires e in w'.log && Guesses(e)
    ensures var g := Heard(w'.file.content, Setup(decode, json, claims));
      e.index < |g| && !Latched(g[..e.index + 1])
  {
    var p := Setup(decode, json, claims);
    RunStaysSeamless(w, events, p);
    RunGuessesIff(w, events, w', e, decode, json, claims);
    KeptAll(Heard(w'.file.content, p), e.gap, e.index + 1);
  }

  /** What has been shown so far was shown by a heard line or by one in the gap. */
  lemma LatchedIffKept(g: seq<Line>, gap: Gap, n: nat)
    requires gap.from <= gap.to <= n <= |g|
    ensures Latched(g[..n]) <==> Latched(Kept(g, gap, n)) || Latched(g[gap.from..gap.to])
  {
    var h, d := Kept(g, gap, n), gap.to - gap.from;
    assert forall i | 0 <= i < |h| :: h[i] == g[..n][if i < gap.from then i else i + d];
    assert forall i | 0 <= i < d :: g[gap.from..gap.to][i] == g[..n][gap.from + i];
    if Latched(g[..n]) {
      var i :| 0 <= i < n && Triggers(g[..n][i].native);
      if i < gap.from {
        assert h[i] == g[i];
      } else if i < gap.to {
        assert g[gap.from..gap.to][i - gap.from] == g[i];
      } else {
        assert h[i - d] == g[i];
      }
    }
  }

  /** So the promise is broken for a line, in whatever run, exactly when every trigger before it is in the gap and
      there is one: the exit code is guessed although the file has shown the item format. */
  lemma GuessPastTriggerIff(w: Watched<State, Outcome>, events: seq<Happening>, w': Watched<State, Outcome>,
                            e: Sent<Outcome>, decode: Decoder, json: string -> Option<Value>, claims: string -> bool)
    requires var p := Setup(decode, json, claims); decode([]) == Some("") && Inv(w, p) && w' == Run(w, events, p)
    requires e in w'.log
    ensures var g := Heard(w'.file.content, Setup(decode, json, claims));
      && e.gap.from <= e.gap.to <= e.index < |g|
      && (Guesses(e) && Latched(g[..e.index + 1]) <==>
          && ClaimsCompletion(g[e.index].native) && Offers(Kept(g, e.gap, e.index + 1))
          && Latched(g[e.gap.from..e.gap.to]) && !Latched(Kept(g, e.gap, e.index + 1)))
  {
    RunGuessesIff(w, events, w', e, decode, json, claims);
    LatchedIffKept(Heard(w'.file.content, Setup(decode, json, claims)), e.gap, e.index + 1);
  }

  /** In particular, when the daemon restarts past the replay limit and a tool output comes next, its exit code is
      guessed exactly when the first line of the file does not show the item format and one of the two offers a
      session. What the lines in between have shown plays no part. */
  lemma GuessAfterLargePrefixIff(w: Watched<State, Outcome>, start: Start, w1: Watched<State, Outcome>,
                                 text: seq<byte>, line: Line, w': Watched<State, Outcome>,
                                 decode: Decoder, json: string -> Option<Value>, claims: string -> bool)
    requires var p := Setup(decode, json, claims);
      && decode([]) == Some("") && Inv(w, p) && Reads(text, line, p) && ClaimsCompletion(line.native)
      && w.saved.Some? && p.cap < w.saved.value.offset == |w.file.content| && !w.saved.value.skipping
      && w1 == Step(w, Restart(start), p) && w' == Run(w1, [Grow(text + [NEWLINE]), Tick(true)], p)
    ensures |w'.log| == |w.log| + 1
    ensures w'.log[|w.log|].index == |Heard(w.file.content, Setup(decode, json, claims))|
    ensures var first := FirstLine(w.file, Setup(decode, json, claims));
      Guesses(w'.log[|w.log|]) <==> !Latched(first) && Offers(first + [line])
  {
    var p := Setup(decode, json, claims);
    EndsWhole(w.file, w.saved.value, p);
    LargeRestart(w, start, w1, p);
    GuessNextLineIff(w1, FirstLine(w.file, p), text, line, w', decode, json, claims);
  }

  /** The next line after those that an adapter remembers. */
  lemma GuessNextLineIff(w: Watched<State, Outcome>, h: seq<Line>, text: seq<byte>, line: Line,
                         w': Watched<State, Outcome>,
                         decode: Decoder, json: string -> Option<Value>, claims: string -> bool)
    requires var p := Setup(decode, json, claims);
      && Reads(text, line, p) && ClaimsCompletion(line.native) && TailRuns.Rest(w.file.content) == []
      && w.live.Some? && w.live.value.memory == After(h, p)
      && w' == Run(w, [Grow(text + [NEWLINE]), Tick(true)], p)
    requires var c := w.live.value.cursor;
      c.dev == w.file.dev && c.ino == w.file.ino && c.offset == |w.file.content| && !c.skipping
    ensures |w'.log| == |w.log| + 1 && w'.log[|w.log|].index == w.live.value.handled
    ensures Guesses(w'.log[|w.log|]) <==> !Latched(h) && Offers(h + [line])
  {
    var p := Setup(decode, json, claims);
    AppendedIsNext(w, text + [NEWLINE], text, line, w', p);
    GuessNextIff(w'.log[|w.log|], h, line, w.drawn + |w.log|, decode, json, claims);
  }

  lemma GuessNextIff(e: Sent<Outcome>, h: seq<Line>, line: Line, draw: nat,
                     decode: Decoder, json: string -> Option<Value>, claims: string -> bool)
    requires ClaimsCompletion(line.native)
    requires var p := Setup(decode, json, claims); e.out == Said(After(h, p), line, draw, p)
    ensures Guesses(e) <==> !Latched(h) && Offers(h + [line])
  {
    GuessSaidIff(h, line, draw, decode, json, claims);
    OutputTriggersNothing(line.native);
    LatchedStep(h, line);
  }

  lemma OutputTriggersNothing(native: Value)
    requires AnsweredCall(native).Some?
    ensures !Triggers(native)
  {
    assert GetStr(native, "type") == Some("response_item");
    assert |"response_item"| == 13 && |"session_meta"| == 12 && |"event_msg"| == 9;
  }

  // ----- lines handled more than once, and sessions

  /** A line forwarded again after a lost cursor, by an adapter that has heard the same lines, carries the same
      messages, ids included, exactly when it names itself. */
  lemma ForwardedAgainIsSame(g: seq<Line>, a: Sent<Outcome>, b: Sent<Outcome>,
                             decode: Decoder, json: string -> Option<Value>, claims: string -> bool)
    requires var p := Setup(decode, json, claims); Right(a, g, p) && Right(b, g, p)
    requires a.index == b.index && a.gap == b.gap && a.draw != b.draw && a.out.Some?
    ensures b.out.Some? && (a.out == b.out <==> NamesItself(g[a.index].native, claims))
  {
    EntryIs(a, g, decode, json, claims);
    EntryIs(b, g, decode, json, claims);
    var st, line := StateAfter(Kept(g, a.gap, a.index)), g[a.index];
    ReplayIsSameIff(line.native, st.pending, ContextOf(st, line, a.draw), b.draw, claims);
  }

  /** Every forwarded batch belongs to the session that the first offering line the adapter has heard names. */
  lemma ForwardedUnderOwnSession(g: seq<Line>, e: Sent<Outcome>, j: int,
                                 decode: Decoder, json: string -> Option<Value>, claims: string -> bool)
    requires Right(e, g, Setup(decode, json, claims)) && e.out.Some? && e.out.value.Messages?
    requires FirstOffer(Kept(g, e.gap, e.index + 1), j)
    ensures Linked(e.out.value.messages, g[e.index].native,
                   OfferedSession(Kept(g, e.gap, e.index + 1)[j].native).value)
  {
    EntryIs(e, g, decode, json, claims);
    KeptNext(g, e.gap, e.index);
    var h, line := Kept(g, e.gap, e.index), g[e.index];
    var st := StateAfter(h);
    BatchLinked(line.native, st.pending, ContextOf(st, line, e.draw), claims);
    MemoryIsHistory(h + [line]);
    assert (h + [line])[..|h|] == h;
  }

  lemma KeepsFirstOffer(g: seq<Line>, gap: Gap, n: nat, j: int, k: int)
    requires gap.from <= gap.to <= n <= |g| && FirstOffer(g, j) && j < n && !(gap.from <= j < gap.to)
    requires k == if j < gap.from then j else j - (gap.to - gap.from)
    ensures FirstOffer(Kept(g, gap, n), k) && Kept(g, gap, n)[k] == g[j]
  {
    var h := Kept(g, gap, n);
    forall i | 0 <= i < k
      ensures OfferedSession(h[i].native).None?
    {
      assert h[i] == g[if i < gap.from then i else i + (gap.to - gap.from)];
    }
  }

  lemma OfferIsPast(g: seq<Line>, gap: Gap, n: nat, j: int)
    requires gap.from <= gap.to <= n <= |g| && FirstOffer(g, j) && Offers(Kept(g, gap, n))
    ensures j < n
  {
    var h := Kept(g, gap, n);
    var i :| 0 <= i < |h| && OfferedSession(h[i].native).Some?;
    assert h[i] == g[if i < gap.from then i else i + (gap.to - gap.from)];
  }

  /** That is the first session of the whole file, unless the line that offers it is in the gap. */
  lemma ForwardedUnderFileSession(g: seq<Line>, e: Sent<Outcome>, j: int,
                                  decode: Decoder, json: string -> Option<Value>, claims: string -> bool)
    requires Right(e, g, Setup(decode, json, claims)) && e.out.Some? && e.out.value.Messages?
    requires FirstOffer(g, j) && !(e.gap.from <= j < e.gap.to)
    ensures j <= e.index && Linked(e.out.value.messages, g[e.index].native, OfferedSession(g[j].native).value)
  {
    EntryOffers(e, g, decode, json, claims);
    var k := FirstKept(g, e.gap, e.index + 1, j);
    ForwardedUnderOwnSession(g, e, k, decode, json, claims);
  }

  lemma EntryOffers(e: Sent<Outcome>, g: seq<Line>, decode: Decoder, json: string -> Option<Value>,
                    claims: string -> bool)
    requires Right(e, g, Setup(decode, json, claims)) && e.out.Some?
    ensures Offers(Kept(g, e.gap, e.index + 1))
  {
    EntryIs(e, g, decode, json, claims);
    OffersIff(Kept(g, e.gap, e.index + 1));
  }

  lemma FirstKept(g: seq<Line>, gap: Gap, n: nat, j: int) returns (k: int)
    requires gap.from <= gap.to <= n <= |g| && FirstOffer(g, j) && Offers(Kept(g, gap, n))
    requires !(gap.from <= j < gap.to)
    ensures j < n && FirstOffer(Kept(g, gap, n), k) && Kept(g, gap, n)[k] == g[j]
  {
    k := if j < gap.from then j else j - (gap.to - gap.from);
    OfferIsPast(g, gap, n, j);
    KeepsFirstOffer(g, gap, n, j, k);
  }

  // ----- a trigger forgotten

  const META := Obj(map["type" := Str("session_meta"), "payload" := Obj(map["session_id" := Str("s")])])
  const ITEM := Obj(map["type" := Str("event_msg"), "payload" := Obj(map["type" := Str("item_completed")])])
  const DONE_PAYLOAD := Obj(map[
    "type" := Str("custom_tool_call_output"), "call_id" := Str("c"),
    "output" := Arr([Obj(map["text" := Str("Script completed")])])])
  const DONE := Obj(map["type" := Str("response_item"), "payload" := DONE_PAYLOAD])

  function Ascii(s: seq<byte>): Option<string> {
    Some(seq(|s|, i requires 0 <= i < |s| => s[i] as char))
  }

  function Sample(line: string): Option<Value> {
    if line == "a" then Some(META) else if line == "b" then Some(ITEM) else if line == "c" then Some(DONE) else None
  }

  /** Two lines, then blank ones past the replay limit. */
  function LargeFile(): File {
    File(0, 0, [97, NEWLINE, 98, NEWLINE] + seq(MAX_LINE_BYTES, _ => NEWLINE))
  }

  lemma SampleLines(claims: string -> bool)
    ensures var p := Setup(Ascii, Sample, claims);
      && Ascii([]) == Some("") && Reads([97], Line("", META), p) && Reads([98], Line("", ITEM), p)
      && Reads([99], Line("", DONE), p)
  {
    assert Ascii([]).value == "" && Ascii([97]).value == "a" && Ascii([98]).value == "b" && Ascii([99]).value == "c";
  }

  lemma LargeFirstLine(claims: string -> bool)
    ensures FirstLine(LargeFile(), Setup(Ascii, Sample, claims)) == [Line("", META)]
  {
    var p := Setup(Ascii, Sample, claims);
    SampleLines(claims);
    FirstLineOf(LargeFile(), [97], Line("", META), p);
  }

  lemma LargeStream(content: seq<byte>, claims: string -> bool)
    requires [97, NEWLINE, 98, NEWLINE] <= content
    ensures [Line("", META), Line("", ITEM)] <= Heard(content, Setup(Ascii, Sample, claims))
  {
    SampleLines(claims);
    assert [97] + [NEWLINE] + ([98] + [NEWLINE]) == [97, NEWLINE, 98, NEWLINE];
    TwoLinesHeard([97], [98], Line("", META), Line("", ITEM), content, Setup(Ascii, Sample, claims));
  }

  lemma DoneText(text: string)
    requires text == "Script completed"
    ensures FirstCode([text]).None? && Find(Concat([text]), "Script completed").Some?
  {
    assert TrimStart(text) == text && text[0] == 'S' && text[7] == 'c';
    assert BlockCode(text).None? && [text][1..] == [];
    assert Concat([text]) == text;
    assert OccursAt(text, "Script completed", 0);
  }

  lemma DoneTexts(item: Value, text: string)
    requires GetStr(item, "text") == Some(text)
    ensures Texts([item]) == [text]
  {
    assert [item][1..] == [];
  }

  lemma DoneBlocks(text: string)
    requires text == "Script completed"
    ensures Blocks(DONE_PAYLOAD) == [text]
  {
    DoneTexts(Obj(map["text" := Str(text)]), text);
  }

  lemma DoneAnswers()
    ensures AnsweredCall(DONE).Some? && Get(DONE, "payload") == Some(DONE_PAYLOAD)
  {
    assert |"type"| == 4 && |"payload"| == 7 && |"call_id"| == 7 && |"output"| == 6;
    assert GetStr(DONE, "type") == Some("response_item");
    assert PayloadStr(DONE, "type") == Some("custom_tool_call_output");
    assert PayloadStr(DONE, "call_id") == Some("c");
  }

  lemma DoneClaims()
    ensures ClaimsCompletion(DONE)
  {
    var text := "Script completed";
    DoneAnswers();
    DoneBlocks(text);
    DoneText(text);
  }

  lemma MetaAndItem()
    ensures Triggers(ITEM) && !Triggers(META) && OfferedSession(META).Some?
  {
    assert |"session_id"| == 10 && |"cli_version"| == 11 && |"type"| == 4;
    assert PayloadStr(META, "cli_version").None? && PayloadStr(META, "type").None?;
    assert PayloadStr(META, "session_id") == Some("s") && Trim("s") == "s";
  }

  /** The file is read to its end in two ticks. */
  lemma LargeReached(w: Watched<State, Outcome>, claims: string -> bool)
    requires var p := Setup(Ascii, Sample, claims);
      w == Step(FirstSight(LargeFile(), Beginning, true, p), Tick(true), p)
    ensures Inv(w, Setup(Ascii, Sample, claims)) && w.file == LargeFile()
    ensures w.saved == Some(Cursor(0, 0, |LargeFile().content|, false))
  {
    var p := Setup(Ascii, Sample, claims);
    SampleLines(claims);
    ReadToTheEnd(LargeFile(), p);
    FirstSightIsExact(LargeFile(), Beginning, true, p);
    StepKeeps(FirstSight(LargeFile(), Beginning, true, p), Tick(true), p);
  }

  lemma FirstLineAlone(first: Line, line: Line)
    requires !Triggers(first.native) && OfferedSession(first.native).Some?
    ensures !Latched([first]) && Offers([first] + [line])
  {
    assert ([first] + [line])[0] == first;
  }

  lemma NextIsGuessed(w: Watched<State, Outcome>, start: Start, w1: Watched<State, Outcome>,
                      w': Watched<State, Outcome>, claims: string -> bool)
    requires var p := Setup(Ascii, Sample, claims);
      && Inv(w, p) && w.saved.Some? && p.cap < w.saved.value.offset == |w.file.content| && !w.saved.value.skipping
      && FirstLine(w.file, p) == [Line("", META)]
      && w1 == Step(w, Restart(start), p) && w' == Run(w1, [Grow([99] + [NEWLINE]), Tick(true)], p)
    ensures |w'.log| == |w.log| + 1 && Guesses(w'.log[|w.log|])
    ensures w'.log[|w.log|].index == |Heard(w.file.content, Setup(Ascii, Sample, claims))|
  {
    SampleLines(claims);
    DoneClaims();
    MetaAndItem();
    FirstLineAlone(Line("", META), Line("", DONE));
    GuessAfterLargePrefixIff(w, start, w1, [99], Line("", DONE), w', Ascii, Sample, claims);
  }

  /** The promise broken: the second line of this file shows the item format, and yet after a restart the exit code
      of a later line is guessed and forwarded. */
  lemma TriggerForgotten(w: Watched<State, Outcome>, start: Start, w1: Watched<State, Outcome>,
                         w': Watched<State, Outcome>, claims: string -> bool)
    requires var p := Setup(Ascii, Sample, claims);
      && w == Step(FirstSight(LargeFile(), Beginning, true, p), Tick(true), p)
      && w1 == Step(w, Restart(start), p) && w' == Run(w1, [Grow([99] + [NEWLINE]), Tick(true)], p)
    ensures |w'.log| == |w.log| + 1 && Guesses(w'.log[|w.log|])
    ensures var g := Heard(w.file.content, Setup(Ascii, Sample, claims));
      1 < |g| == w'.log[|w.log|].index && Triggers(g[1].native)
  {
    LargeReached(w, claims);
    LargeFirstLine(claims);
    NextIsGuessed(w, start, w1, w', claims);
    MetaAndItem();
    LargeStream(LargeFile().content, claims);
  }
}
