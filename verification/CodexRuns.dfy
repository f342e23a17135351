/** What the rollout adapter guarantees over whole streams of lines. */
module CodexRuns {
  import opened Prelude
  import opened Json
  import opened Text
  import opened DedupKeys
  import opened Codex
  import ExtractCmd

  // ----- the memory as a function of the lines so far

  /** Some line so far shows the item format. */
  predicate Latched(h: seq<Line>) {
    exists i | 0 <= i < |h| :: Triggers(h[i].native)
  }

  /** Line `i` is the first to offer a session id. */
  predicate FirstOffer(h: seq<Line>, i: int) {
    0 <= i < |h| && OfferedSession(h[i].native).Some? && forall j | 0 <= j < i :: OfferedSession(h[j].native).None?
  }

  /** Line `i` is the last to offer a version. */
  predicate LastVersion(h: seq<Line>, i: int) {
    0 <= i < |h| && OfferedVersion(h[i].native).Some? && forall j | i < j < |h| :: OfferedVersion(h[j].native).None?
  }

  predicate Mentions(native: Value, id: string) {
    (ExecCall(native).Some? && ExecCall(native).value.0 == id) || AnsweredCall(native) == Some(id)
  }

  /** Line `i` is an exec call with this id that nothing since has replaced or answered. */
  predicate Unanswered(h: seq<Line>, id: string, i: int) {
    && 0 <= i < |h|
    && ExecCall(h[i].native).Some? && ExecCall(h[i].native).value.0 == id
    && forall j | i < j < |h| :: !Mentions(h[j].native, id)
  }

  ghost predicate SessionDescribed(session: Option<string>, h: seq<Line>) {
    && (session.Some? <==> exists i :: FirstOffer(h, i))
    && (forall i | FirstOffer(h, i) :: session == OfferedSession(h[i].native))
  }

  ghost predicate VersionDescribed(version: Option<string>, h: seq<Line>) {
    && (version.Some? <==> exists i :: LastVersion(h, i))
    && (forall i | LastVersion(h, i) :: version == OfferedVersion(h[i].native))
  }

  ghost predicate CallDescribed(pending: map<string, string>, h: seq<Line>, id: string) {
    && (id in pending <==> exists i :: Unanswered(h, id, i))
    && (forall i | Unanswered(h, id, i) ::
         id in pending && pending[id] == ExtractCmd.Extract(ExecCall(h[i].native).value.1))
  }

  /** The whole memory, said in terms of the lines alone. */
  ghost predicate Describes(st: State, h: seq<Line>) {
    && (st.itemFormat <==> Latched(h))
    && SessionDescribed(st.session, h)
    && VersionDescribed(st.cliVersion, h)
    && forall id :: CallDescribed(st.pending, h, id)
  }

  lemma LatchedStep(h: seq<Line>, line: Line)
    ensures Latched(h + [line]) <==> Latched(h) || Triggers(line.native)
  {
    var g := h + [line];
    assert g[|h|] == line;
    if Latched(h) {
      var i :| 0 <= i < |h| && Triggers(h[i].native);
      assert g[i] == h[i];
    }
  }

  lemma SessionStep(session: Option<string>, h: seq<Line>, line: Line)
    requires SessionDescribed(session, h)
    ensures SessionDescribed(if session.Some? then session else OfferedSession(line.native), h + [line])
  {
    var g := h + [line];
    assert forall i | 0 <= i < |h| :: g[i] == h[i];
    if session.Some? {
      var i :| FirstOffer(h, i);
      assert FirstOffer(g, i);
      forall k | FirstOffer(g, k)
        ensures k == i
      {
        assert k <= i;
      }
    } else {
      NoOffer(h);
      assert OfferedSession(line.native).Some? ==> FirstOffer(g, |h|);
      assert forall k | FirstOffer(g, k) :: k == |h|;
    }
  }

  lemma NoOffer(h: seq<Line>)
    requires !exists i :: FirstOffer(h, i)
    ensures forall j | 0 <= j < |h| :: OfferedSession(h[j].native).None?
  {
    for n := 0 to |h|
      invariant forall j | 0 <= j < n :: OfferedSession(h[j].native).None?
    {
      assert !FirstOffer(h, n);
    }
  }

  lemma VersionStep(version: Option<string>, h: seq<Line>, line: Line)
    requires VersionDescribed(version, h)
    ensures VersionDescribed(if OfferedVersion(line.native).Some? then OfferedVersion(line.native) else version,
                             h + [line])
  {
    var g := h + [line];
    assert forall i | 0 <= i < |h| :: g[i] == h[i];
    assert g[|h|] == line;
    if OfferedVersion(line.native).Some? {
      assert LastVersion(g, |h|);
      assert forall k | LastVersion(g, k) :: k == |h|;
    } else {
      forall k
        ensures LastVersion(g, k) <==> LastVersion(h, k)
      {
      }
    }
  }

  lemma Mentioned(h: seq<Line>, line: Line, id: string, k: int)
    requires Mentions(line.native, id)
    ensures Unanswered(h + [line], id, k) <==> k == |h| && ExecCall(line.native).Some?
  {
    assert (h + [line])[|h|] == line;
  }

  lemma Unmentioned(h: seq<Line>, line: Line, id: string, k: int)
    requires !Mentions(line.native, id)
    ensures Unanswered(h + [line], id, k) <==> Unanswered(h, id, k)
  {
    var g := h + [line];
    assert g[|h|] == line;
    if Unanswered(g, id, k) {
      assert k != |h|;
      forall j | k < j < |h|
        ensures !Mentions(h[j].native, id)
      {
        assert g[j] == h[j];
      }
    }
  }

  lemma CallStep(pending: map<string, string>, h: seq<Line>, line: Line, id: string)
    requires CallDescribed(pending, h, id)
    ensures CallDescribed(NextPending(pending, line.native), h + [line], id)
  {
    if Mentions(line.native, id) {
      forall k
        ensures Unanswered(h + [line], id, k) <==> k == |h| && ExecCall(line.native).Some?
      {
        Mentioned(h, line, id, k);
      }
      CallAnew(pending, h, line, id);
    } else {
      forall k
        ensures Unanswered(h + [line], id, k) <==> Unanswered(h, id, k)
      {
        Unmentioned(h, line, id, k);
      }
      CallKept(pending, h, line, id);
    }
  }

  lemma CallAnew(pending: map<string, string>, h: seq<Line>, line: Line, id: string)
    requires Mentions(line.native, id)
    requires forall k :: Unanswered(h + [line], id, k) <==> k == |h| && ExecCall(line.native).Some?
    ensures CallDescribed(NextPending(pending, line.native), h + [line], id)
  {
    assert (h + [line])[|h|] == line;
    if ExecCall(line.native).Some? {
      assert Unanswered(h + [line], id, |h|);
    }
  }

  lemma CallKept(pending: map<string, string>, h: seq<Line>, line: Line, id: string)
    requires CallDescribed(pending, h, id) && !Mentions(line.native, id)
    requires forall k :: Unanswered(h + [line], id, k) <==> Unanswered(h, id, k)
    ensures CallDescribed(NextPending(pending, line.native), h + [line], id)
  {
    assert forall i | 0 <= i < |h| :: (h + [line])[i] == h[i];
    assert id in NextPending(pending, line.native) <==> id in pending;
  }

  lemma DescribesStep(st: State, h: seq<Line>, line: Line)
    requires Describes(st, h)
    ensures Describes(Next(st, line.native), h + [line])
  {
    LatchedStep(h, line);
    SessionStep(st.session, h, line);
    VersionStep(st.cliVersion, h, line);
    forall id
      ensures CallDescribed(Next(st, line.native).pending, h + [line], id)
    {
      CallStep(st.pending, h, line, id);
    }
  }

  // ----- runs

  function StateAfter(h: seq<Line>): State {
    if h == [] then INITIAL else Next(StateAfter(h[..|h| - 1]), h[|h| - 1].native)
  }

  /** What line `i` of a stream produced. */
  function OutcomeAt(h: seq<Line>, i: nat, claims: string -> bool): Outcome
    requires i < |h|
  {
    Output(StateAfter(h[..i]), h[i], i, claims)
  }

  /** After every line of every stream the memory is what the lines so far say it is. */
  lemma {:induction false} MemoryIsHistory(h: seq<Line>)
    ensures Describes(StateAfter(h), h)
  {
    if h == [] {
      NothingRemembered();
    } else {
      var before, line := h[..|h| - 1], h[|h| - 1];
      MemoryIsHistory(before);
      assert before + [line] == h;
      DescribesStep(StateAfter(before), before, line);
    }
  }

  lemma NothingRemembered()
    ensures Describes(INITIAL, [])
  {
  }

  lemma {:induction false} StateAfterAppend(h: seq<Line>, line: Line)
    ensures StateAfter(h + [line]) == Next(StateAfter(h), line.native)
  {
    assert (h + [line])[..|h|] == h;
  }

  lemma {:induction false} StateAfterLine(h: seq<Line>, i: nat)
    requires i < |h|
    ensures StateAfter(h[..i + 1]) == Next(StateAfter(h[..i]), h[i].native)
    ensures Describes(StateAfter(h[..i]), h[..i]) && Describes(StateAfter(h[..i + 1]), h[..i + 1])
  {
    assert h[..i + 1][..i] == h[..i];
    MemoryIsHistory(h[..i]);
    MemoryIsHistory(h[..i + 1]);
  }

  /** The latch is set after a line exactly when some line so far triggers it, so it never comes off. */
  lemma LatchIsSticky(h: seq<Line>, i: nat, j: nat)
    requires i <= j <= |h|
    ensures StateAfter(h[..j]).itemFormat <==> Latched(h[..j])
    ensures StateAfter(h[..i]).itemFormat ==> StateAfter(h[..j]).itemFormat
  {
    MemoryIsHistory(h[..i]);
    MemoryIsHistory(h[..j]);
    if Latched(h[..i]) {
      var k :| 0 <= k < i && Triggers(h[..i][k].native);
      assert h[..j][k] == h[..i][k];
    }
  }

  /** What line `i` of a stream is translated under: the first session offered up to it, else its own hint; the last
      version, else `unknown`; whether some line up to it shows the item format. */
  lemma {:induction false} ContextIs(h: seq<Line>, i: nat, g: seq<Line>, ctx: Context)
    requires i < |h| && g == h[..i + 1] && ctx == ContextOf(StateAfter(h[..i]), h[i], i)
    ensures forall k | FirstOffer(g, k) :: OfferedSession(g[k].native) == Some(ctx.session)
    ensures (forall k :: !FirstOffer(g, k)) ==> ctx.session == h[i].hint
    ensures forall k | LastVersion(g, k) :: OfferedVersion(g[k].native) == Some(ctx.version)
    ensures (forall k :: !LastVersion(g, k)) ==> ctx.version == "unknown"
    ensures (ctx.itemFormat <==> Latched(g)) && ctx.nonce == i
  {
    StateAfterLine(h, i);
  }

  // ----- the four shapes of a batch

  predicate CellBatch(out: Outcome, native: Value, pending: map<string, string>, ctx: Context) {
    && !ctx.itemFormat && AnsweredCall(native).Some? && Get(native, "payload").Some?
    && var id := AnsweredCall(native).value;
       out == Cell(native, Get(native, "payload").value, id, if id in pending then pending[id] else "", ctx)
  }

  predicate ExecEndBatch(out: Outcome, native: Value, ctx: Context) {
    && IsLine(native, "event_msg", "exec_command_end") && Get(native, "payload").Some?
    && out == ExecEnd(native, Get(native, "payload").value, ctx)
  }

  predicate CommandBatch(out: Outcome, native: Value, ctx: Context) {
    && IsLine(native, "event_msg", "item_completed") && Get(native, "payload").Some?
    && var payload := Get(native, "payload").value;
       && Get(payload, "item").Some? && GetI64(Get(payload, "item").value, "exit_code").Some?
       && out == Command(native, payload, Get(payload, "item").value,
                         GetI64(Get(payload, "item").value, "exit_code").value, ctx)
  }

  predicate TaskBatch(out: Outcome, native: Value, ctx: Context, claims: string -> bool) {
    && IsLine(native, "event_msg", "task_complete") && Get(native, "payload").Some?
    && out == TaskComplete(native, Get(native, "payload").value, ctx, claims)
  }

  lemma ResponseItemShape(native: Value, pending: map<string, string>, ctx: Context)
    requires GetStr(native, "type") == Some("response_item") && ResponseItem(native, pending, ctx).Messages?
    ensures CellBatch(ResponseItem(native, pending, ctx), native, pending, ctx)
  {
  }

  lemma ItemCompletedShape(native: Value, payload: Value, ctx: Context)
    requires ItemCompleted(native, payload, ctx).Messages?
    ensures Get(payload, "item").Some? && GetI64(Get(payload, "item").value, "exit_code").Some?
    ensures ItemCompleted(native, payload, ctx)
         == Command(native, payload, Get(payload, "item").value,
                    GetI64(Get(payload, "item").value, "exit_code").value, ctx)
  {
  }

  lemma EventLineShape(native: Value, ctx: Context, claims: string -> bool)
    requires GetStr(native, "type") == Some("event_msg") && EventLine(native, ctx, claims).Messages?
    ensures var out := EventLine(native, ctx, claims);
      ExecEndBatch(out, native, ctx) || CommandBatch(out, native, ctx) || TaskBatch(out, native, ctx, claims)
  {
    if IsLine(native, "event_msg", "item_completed") {
      ItemCompletedShape(native, Get(native, "payload").value, ctx);
    }
  }

  /** Only four kinds of line produce messages. */
  lemma BatchShape(native: Value, pending: map<string, string>, ctx: Context, claims: string -> bool)
    requires Translate(native, pending, ctx, claims).Messages?
    ensures var out := Translate(native, pending, ctx, claims);
      || CellBatch(out, native, pending, ctx) || ExecEndBatch(out, native, ctx)
      || CommandBatch(out, native, ctx) || TaskBatch(out, native, ctx, claims)
  {
    if GetStr(native, "type") == Some("response_item") {
      ResponseItemShape(native, pending, ctx);
    } else {
      EventLineShape(native, ctx, claims);
    }
  }

  // ----- guessed exit codes

  predicate Guessed(m: Message) {
    m.EvidenceMsg? && m.evidence.heuristic == Some(true)
  }

  predicate AnyGuessed(out: Outcome) {
    out.Messages? && exists k | 0 <= k < |out.messages| :: Guessed(out.messages[k])
  }

  lemma GuessInBatch(event: Event, evidence: Option<Evidence>)
    ensures AnyGuessed(WithEvidence(event, evidence)) <==> evidence.Some? && evidence.value.heuristic == Some(true)
  {
    var out := WithEvidence(event, evidence);
    assert evidence.Some? ==> out.messages[1] == EvidenceMsg(evidence.value);
  }

  lemma NoGuess(native: Value, payload: Value, item: Value, code: int, ctx: Context, claims: string -> bool)
    ensures !AnyGuessed(ExecEnd(native, payload, ctx))
    ensures !AnyGuessed(Command(native, payload, item, code, ctx))
    ensures !AnyGuessed(TaskComplete(native, payload, ctx, claims))
  {
  }

  /** A line guesses an exit code exactly when it is an output of an unlatched stream that gives
      no code in its text but reports that its script completed. */
  lemma GuessOnlyWhenUnlatched(native: Value, pending: map<string, string>, ctx: Context, claims: string -> bool)
    ensures AnyGuessed(Translate(native, pending, ctx, claims)) <==>
      && !ctx.itemFormat && AnsweredCall(native).Some? && Get(native, "payload").Some?
      && var blocks := Blocks(Get(native, "payload").value);
         FirstCode(blocks).None? && Find(Concat(blocks), "Script completed").Some?
  {
    var out := Translate(native, pending, ctx, claims);
    if out.Messages? {
      BatchShape(native, pending, ctx, claims);
      if CellBatch(out, native, pending, ctx) {
        GuessInCell(native, Get(native, "payload").value, AnsweredCall(native).value, out, ctx);
      } else if CommandBatch(out, native, ctx) {
        var item := Get(Get(native, "payload").value, "item").value;
        NoGuess(native, Get(native, "payload").value, item, GetI64(item, "exit_code").value, ctx, claims);
      } else {
        NoGuess(native, Get(native, "payload").value, Null, 0, ctx, claims);
      }
    }
  }

  lemma GuessInCell(native: Value, payload: Value, id: string, out: Outcome, ctx: Context)
    requires exists command :: out == Cell(native, payload, id, command, ctx)
    ensures AnyGuessed(out) <==>
      FirstCode(Blocks(payload)).None? && Find(Concat(Blocks(payload)), "Script completed").Some?
  {
    var command :| out == Cell(native, payload, id, command, ctx);
    var event := out.messages[0].event;
    GuessInBatch(event, CellEvidence(event, Keyed(DedupKey(ctx.session, ExitCode, id)), command, payload));
  }

  /** A guessed exit code comes only from a line before the first line that shows the item format. */
  lemma GuessesPrecedeTrigger(h: seq<Line>, i: nat, claims: string -> bool)
    requires i < |h| && AnyGuessed(OutcomeAt(h, i, claims))
    ensures forall k | 0 <= k <= i :: !Triggers(h[k].native)
    ensures AnsweredCall(h[i].native).Some?
  {
    StateAfterLine(h, i);
    var st := StateAfter(h[..i]);
    GuessOnlyWhenUnlatched(h[i].native, st.pending, ContextOf(st, h[i], i), claims);
    assert !Latched(h[..i + 1]);
    forall k | 0 <= k <= i
      ensures !Triggers(h[k].native)
    {
      assert h[..i + 1][k] == h[k];
    }
  }

  // ----- every batch hangs together

  /** Check a claim against the completion it is said to come from. */
  predicate ClaimMatches(source: Event, claim: Claim) {
    var payload := match Get(source.raw, "payload") case Some(p) => p case None => Null;
    var identified := source.kind == SessionEnd && IsLine(source.raw, "event_msg", "task_complete")
                      && TurnId(payload).Some?;
    (identified && claim.subject == "test_result") ==>
      source.id == claim.source && source.session == claim.session
      && GetStr(payload, "last_agent_message") == Some(claim.text)
  }

  /** A batch is one event, then at most one evidence or claim that points back at it. */
  predicate Linked(messages: seq<Message>, native: Value, session: string) {
    && 1 <= |messages| <= 2
    && messages[0].EventMsg? && messages[0].event.raw == native && messages[0].event.session == session
    && (|messages| == 2 ==> PointsBack(messages[0].event, messages[1]))
  }

  predicate PointsBack(event: Event, m: Message) {
    match m
    case EventMsg(_) => false
    case EvidenceMsg(e) => event.kind == PostToolUse && e.source == event.id && e.session == event.session
    case ClaimMsg(c) =>
      && event.kind == SessionEnd && c.source == event.id && c.session == event.session
      && PayloadStr(event.raw, "last_agent_message") == Some(c.text) && c.subject == "test_result"
      && ClaimMatches(event, c)
  }

  lemma EvidencePointsBack(event: Event, evidence: Option<Evidence>)
    requires event.kind == PostToolUse
    requires evidence.Some? ==> evidence.value.source == event.id && evidence.value.session == event.session
    ensures Linked(WithEvidence(event, evidence).messages, event.raw, event.session)
  {
  }

  lemma CellLinked(native: Value, payload: Value, id: string, command: string, ctx: Context)
    ensures Cell(native, payload, id, command, ctx).Messages?
    ensures Linked(Cell(native, payload, id, command, ctx).messages, native, ctx.session)
  {
    var event := Event(Keyed(DedupKey(ctx.session, ToolAfter, id)), ctx.session, PostToolUse,
                       CommandInput(Str(command)), Some(payload), native);
    EvidencePointsBack(event, CellEvidence(event, Keyed(DedupKey(ctx.session, ExitCode, id)), command, payload));
  }

  lemma ExecEndLinked(native: Value, payload: Value, ctx: Context)
    ensures ExecEnd(native, payload, ctx).Messages?
    ensures Linked(ExecEnd(native, payload, ctx).messages, native, ctx.session)
  {
  }

  lemma CommandLinked(native: Value, payload: Value, item: Value, code: int, ctx: Context)
    ensures Command(native, payload, item, code, ctx).Messages?
    ensures Linked(Command(native, payload, item, code, ctx).messages, native, ctx.session)
  {
  }

  lemma TaskLinked(native: Value, payload: Value, ctx: Context, claims: string -> bool)
    requires Get(native, "payload") == Some(payload)
    ensures TaskComplete(native, payload, ctx, claims).Messages?
    ensures Linked(TaskComplete(native, payload, ctx, claims).messages, native, ctx.session)
  {
  }

  lemma BatchLinked(native: Value, pending: map<string, string>, ctx: Context, claims: string -> bool)
    requires Translate(native, pending, ctx, claims).Messages?
    ensures Linked(Translate(native, pending, ctx, claims).messages, native, ctx.session)
  {
    var out := Translate(native, pending, ctx, claims);
    BatchShape(native, pending, ctx, claims);
    var payload := Get(native, "payload").value;
    if CellBatch(out, native, pending, ctx) {
      var id := AnsweredCall(native).value;
      CellLinked(native, payload, id, if id in pending then pending[id] else "", ctx);
    } else if ExecEndBatch(out, native, ctx) {
      ExecEndLinked(native, payload, ctx);
    } else if CommandBatch(out, native, ctx) {
      var item := Get(payload, "item").value;
      CommandLinked(native, payload, item, GetI64(item, "exit_code").value, ctx);
    } else {
      TaskLinked(native, payload, ctx, claims);
    }
  }

  /** The session a batch belongs to: the first id offered so far, or the caller's hint before that. */
  ghost predicate SessionIs(g: seq<Line>, hint: string, session: string) {
    && (forall j | FirstOffer(g, j) :: OfferedSession(g[j].native) == Some(session))
    && ((forall j :: !FirstOffer(g, j)) ==> session == hint)
  }

  lemma SessionFromMemory(g: seq<Line>, session: Option<string>, hint: string)
    requires SessionDescribed(session, g)
    ensures SessionIs(g, hint, if session.Some? then session.value else hint)
  {
  }

  /** Every batch of every stream belongs to that session; its evidence and claims point at its own
      event, and its claims match it. */
  lemma EveryBatchLinked(h: seq<Line>, i: nat, claims: string -> bool) returns (session: string)
    requires i < |h| && OutcomeAt(h, i, claims).Messages?
    ensures Linked(OutcomeAt(h, i, claims).messages, h[i].native, session)
    ensures SessionIs(h[..i + 1], h[i].hint, session)
  {
    var st := StateAfter(h[..i]);
    var ctx := ContextOf(st, h[i], i);
    session := ctx.session;
    BatchLinked(h[i].native, st.pending, ctx, claims);
    StateAfterLine(h, i);
    SessionFromMemory(h[..i + 1], StateAfter(h[..i + 1]).session, h[i].hint);
  }

  /** The command of the latest call with this id that is still open; empty when there is none. */
  ghost predicate OpenCommandIs(g: seq<Line>, id: string, command: string) {
    && (forall j | Unanswered(g, id, j) :: command == ExtractCmd.Extract(ExecCall(g[j].native).value.1))
    && ((forall j :: !Unanswered(g, id, j)) ==> command == "")
  }

  predicate Carries(out: Outcome, command: string) {
    && out.Messages? && out.messages != [] && out.messages[0].EventMsg?
    && out.messages[0].event.toolInput == CommandInput(Str(command))
  }

  lemma CommandFromMemory(g: seq<Line>, pending: map<string, string>, id: string)
    requires CallDescribed(pending, g, id)
    ensures OpenCommandIs(g, id, if id in pending then pending[id] else "")
  {
  }

  lemma CellCarries(native: Value, pending: map<string, string>, ctx: Context)
    requires AnsweredCall(native).Some? && ResponseItem(native, pending, ctx).Messages?
    ensures var id := AnsweredCall(native).value;
      Carries(ResponseItem(native, pending, ctx), if id in pending then pending[id] else "")
  {
    ResponseItemShape(native, pending, ctx);
  }

  /** The event of a tool output carries the command of the call it answers. */
  lemma OutputCarriesItsCommand(h: seq<Line>, i: nat, claims: string -> bool) returns (command: string)
    requires i < |h| && OutcomeAt(h, i, claims).Messages? && AnsweredCall(h[i].native).Some?
    ensures Carries(OutcomeAt(h, i, claims), command)
    ensures OpenCommandIs(h[..i], AnsweredCall(h[i].native).value, command)
  {
    var st, id := StateAfter(h[..i]), AnsweredCall(h[i].native).value;
    command := if id in st.pending then st.pending[id] else "";
    MemoryIsHistory(h[..i]);
    CommandFromMemory(h[..i], st.pending, id);
    CellCarries(h[i].native, st.pending, ContextOf(st, h[i], i));
  }

  // ----- replaying a line

  /** A line whose messages are all named after ids that the line itself carries. */
  predicate NamesItself(native: Value, claims: string -> bool) {
    IsLine(native, "event_msg", "exec_command_end") || IsLine(native, "event_msg", "task_complete") ==>
      var payload := Get(native, "payload").value;
      if IsLine(native, "event_msg", "task_complete") && TurnId(payload).Some? then true
      else GetStr(payload, "call_id").Some?
           && (IsLine(native, "event_msg", "task_complete") ==>
                 GetStr(payload, "last_agent_message").Some? ==> !claims(GetStr(payload, "last_agent_message").value))
  }

  lemma CellReplays(native: Value, pending: map<string, string>, ctx: Context, nonce: nat)
    ensures ResponseItem(native, pending, ctx.(nonce := nonce)) == ResponseItem(native, pending, ctx)
  {
  }

  lemma ItemReplays(native: Value, payload: Value, ctx: Context, nonce: nat)
    ensures ItemCompleted(native, payload, ctx.(nonce := nonce)) == ItemCompleted(native, payload, ctx)
  {
  }

  lemma ExecEndReplays(native: Value, payload: Value, ctx: Context, nonce: nat)
    requires nonce != ctx.nonce
    ensures ExecEnd(native, payload, ctx.(nonce := nonce)) == ExecEnd(native, payload, ctx) <==>
      GetStr(payload, "call_id").Some?
  {
    if GetStr(payload, "call_id").None? {
      assert ExecEnd(native, payload, ctx).messages[0].event.id == Fresh(ctx.nonce, 0);
      assert ExecEnd(native, payload, ctx.(nonce := nonce)).messages[0].event.id == Fresh(nonce, 0);
    }
  }

  lemma TaskReplays(native: Value, payload: Value, ctx: Context, nonce: nat, claims: string -> bool)
    requires nonce != ctx.nonce && Get(native, "payload") == Some(payload)
    requires IsLine(native, "event_msg", "task_complete")
    ensures TaskComplete(native, payload, ctx.(nonce := nonce), claims) == TaskComplete(native, payload, ctx, claims)
       <==> NamesItself(native, claims)
  {
    var a := TaskComplete(native, payload, ctx, claims).messages;
    var b := TaskComplete(native, payload, ctx.(nonce := nonce), claims).messages;
    if TurnId(payload).None? {
      if GetStr(payload, "call_id").None? {
        assert a[0].event.id == Fresh(ctx.nonce, 0) && b[0].event.id == Fresh(nonce, 0);
      } else if !NamesItself(native, claims) {
        assert a[1].claim.id == Fresh(ctx.nonce, 2) && b[1].claim.id == Fresh(nonce, 2);
      }
    }
  }

  /** Reading a line again gives the very same messages, ids included, exactly when it names itself. */
  lemma ReplayIsSameIff(native: Value, pending: map<string, string>, ctx: Context, nonce: nat, claims: string -> bool)
    requires nonce != ctx.nonce
    ensures Translate(native, pending, ctx.(nonce := nonce), claims) == Translate(native, pending, ctx, claims)
       <==> NamesItself(native, claims)
  {
    if GetStr(native, "type") == Some("response_item") {
      CellReplays(native, pending, ctx, nonce);
    } else if GetStr(native, "type") == Some("event_msg") {
      EventLineReplays(native, ctx, nonce, claims);
    }
  }

  lemma EventLineReplays(native: Value, ctx: Context, nonce: nat, claims: string -> bool)
    requires nonce != ctx.nonce && GetStr(native, "type") == Some("event_msg")
    ensures EventLine(native, ctx.(nonce := nonce), claims) == EventLine(native, ctx, claims) <==>
      NamesItself(native, claims)
  {
    if PayloadStr(native, "type").Some? {
      var payload, sub := Get(native, "payload").value, PayloadStr(native, "type").value;
      if sub == "exec_command_end" {
        ExecEndReplays(native, payload, ctx, nonce);
      } else if sub == "item_completed" {
        ItemReplays(native, payload, ctx, nonce);
      } else if sub == "task_complete" {
        TaskReplays(native, payload, ctx, nonce, claims);
      }
    }
  }
}
