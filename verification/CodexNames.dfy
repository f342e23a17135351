/** How the adapter's messages are named, over whole streams. */
module CodexNames {
  import opened Prelude
  import opened Json
  import opened Text
  import opened DedupKeys
  import opened Codex
  import opened CodexRuns

  // ----- what a message is named after

  /** What an id stands for: a phase of an action, a part of a completed turn, or nothing but its own line. */
  datatype Name =
    | Action(session: string, phase: Phase, id: string)
    | Turn(session: string, part: string, turn: string)
    | Own(nonce: nat, slot: nat)

  function IdOf(name: Name): Id {
    match name
    case Action(session, phase, id) => Keyed(DedupKey(session, phase, id))
    case Turn(session, part, turn) => Keyed(CompletionKey(session, part, turn))
    case Own(nonce, slot) => Fresh(nonce, slot)
  }

  function MessageId(m: Message): Id {
    match m
    case EventMsg(e) => e.id
    case EvidenceMsg(e) => e.id
    case ClaimMsg(c) => c.id
  }

  /** The call id that a line carries; an item always has one, if only the empty one. */
  function NativeId(native: Value): Option<string> {
    if IsLine(native, "event_msg", "item_completed") then
      match Get(Get(native, "payload").value, "item")
      case Some(item) => Some(StrOr(item, "id", ""))
      case None => None
    else PayloadStr(native, "call_id")
  }

  /** The turn that a line completes, where it says which. */
  function CompletedTurn(native: Value): Option<string> {
    if IsLine(native, "event_msg", "task_complete") then TurnId(Get(native, "payload").value) else None
  }

  function ActionName(phase: Phase, native: Value, ctx: Context, slot: nat): Name {
    match NativeId(native)
    case Some(id) => Action(ctx.session, phase, id)
    case None => Own(ctx.nonce, slot)
  }

  const COMPLETION := "task_complete"
  const CLAIM := "task_complete:claim:test_result"

  function EventName(native: Value, ctx: Context): Name {
    match CompletedTurn(native)
    case Some(turn) => Turn(ctx.session, COMPLETION, turn)
    case None => ActionName(ToolAfter, native, ctx, 0)
  }

  function ClaimName(native: Value, ctx: Context): Name {
    match CompletedTurn(native)
    case Some(turn) => Turn(ctx.session, CLAIM, turn)
    case None => Own(ctx.nonce, 2)
  }

  /** What each of the messages that a line gives rise to is named after. */
  function NameOf(m: Message, native: Value, ctx: Context): Name {
    match m
    case EventMsg(_) => EventName(native, ctx)
    case EvidenceMsg(_) => ActionName(ExitCode, native, ctx, 1)
    case ClaimMsg(_) => ClaimName(native, ctx)
  }

  predicate Named(out: Outcome, native: Value, ctx: Context) {
    out.Messages? && forall m | m in out.messages :: MessageId(m) == IdOf(NameOf(m, native, ctx))
  }

  lemma CellNamed(native: Value, payload: Value, id: string, command: string, ctx: Context)
    requires AnsweredCall(native) == Some(id)
    ensures Named(Cell(native, payload, id, command, ctx), native, ctx)
  {
    assert GetStr(native, "type") == Some("response_item");
    assert CompletedTurn(native).None? && NativeId(native) == Some(id);
  }

  lemma ExecEndNamed(native: Value, payload: Value, ctx: Context)
    requires IsLine(native, "event_msg", "exec_command_end") && Get(native, "payload") == Some(payload)
    ensures Named(ExecEnd(native, payload, ctx), native, ctx)
  {
    assert CompletedTurn(native).None? && NativeId(native) == GetStr(payload, "call_id");
  }

  lemma CommandNamed(native: Value, payload: Value, item: Value, code: int, ctx: Context)
    requires IsLine(native, "event_msg", "item_completed") && Get(native, "payload") == Some(payload)
    requires Get(payload, "item") == Some(item)
    ensures Named(Command(native, payload, item, code, ctx), native, ctx)
  {
    assert CompletedTurn(native).None? && NativeId(native) == Some(StrOr(item, "id", ""));
  }

  lemma TaskIds(native: Value, payload: Value, ctx: Context, claims: string -> bool, out: Outcome,
                turn: Option<string>)
    requires out == TaskComplete(native, payload, ctx, claims) && turn == TurnId(payload)
    ensures out.Messages? && 1 <= |out.messages| <= 2 && out.messages[0].EventMsg?
    ensures out.messages[0].event.id
         == if turn.Some? then Keyed(CompletionKey(ctx.session, COMPLETION, turn.value)) else EventId(payload, ctx)
    ensures |out.messages| == 2 ==> out.messages[1].ClaimMsg?
    ensures |out.messages| == 2 ==>
      out.messages[1].claim.id
      == if turn.Some? then Keyed(CompletionKey(ctx.session, CLAIM, turn.value)) else Fresh(ctx.nonce, 2)
  {
  }

  lemma BothNamed(messages: seq<Message>, native: Value, ctx: Context)
    requires 1 <= |messages| <= 2 && messages[0].EventMsg? && messages[0].event.id == IdOf(EventName(native, ctx))
    requires |messages| == 2 ==> messages[1].ClaimMsg? && messages[1].claim.id == IdOf(ClaimName(native, ctx))
    ensures Named(Messages(messages), native, ctx)
  {
  }

  lemma TaskNamed(native: Value, payload: Value, ctx: Context, claims: string -> bool)
    requires IsLine(native, "event_msg", "task_complete") && Get(native, "payload") == Some(payload)
    ensures Named(TaskComplete(native, payload, ctx, claims), native, ctx)
  {
    var out := TaskComplete(native, payload, ctx, claims);
    TaskIds(native, payload, ctx, claims, out, TurnId(payload));
    CompletionNames(native, payload, ctx, TurnId(payload));
    BothNamed(out.messages, native, ctx);
  }

  lemma CompletionNames(native: Value, payload: Value, ctx: Context, turn: Option<string>)
    requires IsLine(native, "event_msg", "task_complete") && Get(native, "payload") == Some(payload)
    requires turn == TurnId(payload)
    ensures IdOf(EventName(native, ctx))
         == if turn.Some? then Keyed(CompletionKey(ctx.session, COMPLETION, turn.value)) else EventId(payload, ctx)
    ensures IdOf(ClaimName(native, ctx))
         == if turn.Some? then Keyed(CompletionKey(ctx.session, CLAIM, turn.value)) else Fresh(ctx.nonce, 2)
  {
    assert CompletedTurn(native) == turn && NativeId(native) == GetStr(payload, "call_id");
  }

  /** Every message of every line has the id of its name. */
  lemma BatchNamed(native: Value, pending: map<string, string>, ctx: Context, claims: string -> bool)
    requires Translate(native, pending, ctx, claims).Messages?
    ensures Named(Translate(native, pending, ctx, claims), native, ctx)
  {
    var out := Translate(native, pending, ctx, claims);
    BatchShape(native, pending, ctx, claims);
    var payload := Get(native, "payload").value;
    if CellBatch(out, native, pending, ctx) {
      var id := AnsweredCall(native).value;
      CellNamed(native, payload, id, if id in pending then pending[id] else "", ctx);
    } else if ExecEndBatch(out, native, ctx) {
      ExecEndNamed(native, payload, ctx);
    } else if CommandBatch(out, native, ctx) {
      var item := Get(payload, "item").value;
      CommandNamed(native, payload, item, GetI64(item, "exit_code").value, ctx);
    } else {
      TaskNamed(native, payload, ctx, claims);
    }
  }

  // ----- when two ids are equal

  /** One name, or the one pair of phases that overlap. */
  predicate SameName(a: Name, b: Name) {
    a == b || (a.Action? && b.Action? && a.session == b.session && SameOrTwins(a.phase, a.id, b.phase, b.id))
  }

  predicate Clear(name: Name) {
    name.Action? ==> !Ambiguous(name.session)
  }

  lemma IdsIff(a: Name, b: Name)
    requires Clear(a) && Clear(b)
    ensures IdOf(a) == IdOf(b) <==> SameName(a, b)
  {
    match (a, b) {
      case (Action(s, p, n), Action(r, q, m)) => KeyDetermines(s, p, n, r, q, m);
      case (Turn(s, p, t), Turn(r, q, u)) => CompletionKeyDetermines(s, p, t, r, q, u);
      case (Action(s, p, n), Turn(r, q, u)) => SchemesDisjoint(r, q, u, s, p, n);
      case (Turn(s, p, t), Action(r, q, m)) => SchemesDisjoint(s, p, t, r, q, m);
      case _ =>
    }
  }

  // ----- over a whole stream

  function ContextAt(h: seq<Line>, i: nat): Context
    requires i < |h|
  {
    ContextOf(StateAfter(h[..i]), h[i], i)
  }

  /** Message `m` came of line `i`. */
  predicate Emits(h: seq<Line>, i: nat, claims: string -> bool, m: Message) {
    i < |h| && OutcomeAt(h, i, claims).Messages? && m in OutcomeAt(h, i, claims).messages
  }

  function NameAt(h: seq<Line>, i: nat, m: Message): Name
    requires i < |h|
  {
    NameOf(m, h[i].native, ContextAt(h, i))
  }

  lemma NamedAt(h: seq<Line>, i: nat, claims: string -> bool, m: Message)
    requires Emits(h, i, claims, m)
    ensures MessageId(m) == IdOf(NameAt(h, i, m))
  {
    BatchNamed(h[i].native, StateAfter(h[..i]).pending, ContextAt(h, i), claims);
  }

  /** Any two messages of a stream, events, exit codes and claims alike, share an id exactly when they share a name or
      one is the exit code of an action that the other's call id spells. */
  lemma MessageIdsIff(h: seq<Line>, i: nat, j: nat, claims: string -> bool, a: Message, b: Message)
    requires Emits(h, i, claims, a) && Emits(h, j, claims, b)
    requires Clear(NameAt(h, i, a)) && Clear(NameAt(h, j, b))
    ensures MessageId(a) == MessageId(b) <==> SameName(NameAt(h, i, a), NameAt(h, j, b))
  {
    NamedAt(h, i, claims, a);
    NamedAt(h, j, claims, b);
    IdsIff(NameAt(h, i, a), NameAt(h, j, b));
  }

  /** One line, or one session and what is named in it. */
  predicate OneOf(x: Context, y: Context, named: bool) {
    x.nonce == y.nonce || (x.session == y.session && named)
  }

  /** Two lines complete one turn, or carry one call id without naming a turn. */
  predicate SameEvent(a: Value, b: Value) {
    && CompletedTurn(a) == CompletedTurn(b)
    && (CompletedTurn(a).Some? || (NativeId(a).Some? && NativeId(a) == NativeId(b)))
  }

  lemma EventNamesIff(a: Value, x: Context, b: Value, y: Context)
    requires x.nonce == y.nonce ==> a == b && x == y
    ensures SameName(EventName(a, x), EventName(b, y)) <==> OneOf(x, y, SameEvent(a, b))
  {
  }

  lemma ExitNamesIff(a: Value, x: Context, b: Value, y: Context)
    requires x.nonce == y.nonce ==> a == b && x == y
    ensures SameName(ActionName(ExitCode, a, x, 1), ActionName(ExitCode, b, y, 1)) <==>
      OneOf(x, y, NativeId(a).Some? && NativeId(a) == NativeId(b))
  {
  }

  lemma ClaimNamesIff(a: Value, x: Context, b: Value, y: Context)
    requires x.nonce == y.nonce ==> a == b && x == y
    ensures SameName(ClaimName(a, x), ClaimName(b, y)) <==>
      OneOf(x, y, CompletedTurn(a).Some? && CompletedTurn(a) == CompletedTurn(b))
  {
  }

  /** So two events share an id exactly when they are of one line, complete one turn of one session, or carry one call
      id in one session without naming a turn. */
  lemma EventIdsIff(h: seq<Line>, i: nat, j: nat, claims: string -> bool, a: Event, b: Event)
    requires Emits(h, i, claims, EventMsg(a)) && Emits(h, j, claims, EventMsg(b))
    requires !Ambiguous(ContextAt(h, i).session) && !Ambiguous(ContextAt(h, j).session)
    ensures a.id == b.id <==> OneOf(ContextAt(h, i), ContextAt(h, j), SameEvent(h[i].native, h[j].native))
  {
    MessageIdsIff(h, i, j, claims, EventMsg(a), EventMsg(b));
    EventNamesIff(h[i].native, ContextAt(h, i), h[j].native, ContextAt(h, j));
  }

  /** Two exit codes do exactly when they are of one line or of one call id in one session. */
  lemma EvidenceIdsIff(h: seq<Line>, i: nat, j: nat, claims: string -> bool, a: Evidence, b: Evidence)
    requires Emits(h, i, claims, EvidenceMsg(a)) && Emits(h, j, claims, EvidenceMsg(b))
    requires !Ambiguous(ContextAt(h, i).session) && !Ambiguous(ContextAt(h, j).session)
    ensures a.id == b.id <==>
      OneOf(ContextAt(h, i), ContextAt(h, j),
            NativeId(h[i].native).Some? && NativeId(h[i].native) == NativeId(h[j].native))
  {
    MessageIdsIff(h, i, j, claims, EvidenceMsg(a), EvidenceMsg(b));
    ExitNamesIff(h[i].native, ContextAt(h, i), h[j].native, ContextAt(h, j));
  }

  /** Two claims do exactly when they are of one line or of one turn of one session, whatever the session. */
  lemma ClaimIdsIff(h: seq<Line>, i: nat, j: nat, claims: string -> bool, a: Claim, b: Claim)
    requires Emits(h, i, claims, ClaimMsg(a)) && Emits(h, j, claims, ClaimMsg(b))
    ensures a.id == b.id <==>
      OneOf(ContextAt(h, i), ContextAt(h, j),
            CompletedTurn(h[i].native).Some? && CompletedTurn(h[i].native) == CompletedTurn(h[j].native))
  {
    MessageIdsIff(h, i, j, claims, ClaimMsg(a), ClaimMsg(b));
    ClaimNamesIff(h[i].native, ContextAt(h, i), h[j].native, ContextAt(h, j));
  }

  /** A claim never shares an id with an event or an exit code. */
  lemma ClaimsApart(h: seq<Line>, i: nat, j: nat, claims: string -> bool, c: Claim, m: Message)
    requires Emits(h, i, claims, ClaimMsg(c)) && Emits(h, j, claims, m) && !m.ClaimMsg?
    requires !Ambiguous(ContextAt(h, j).session)
    ensures c.id != MessageId(m)
  {
    MessageIdsIff(h, i, j, claims, ClaimMsg(c), m);
    assert |COMPLETION| != |CLAIM|;
  }

  /** An event and an exit code share an id exactly when, in one session, the event names no turn and its call id is
      `exit_code:` and the other's. */
  lemma EventAndEvidenceIff(h: seq<Line>, i: nat, j: nat, claims: string -> bool, a: Event, e: Evidence)
    requires Emits(h, i, claims, EventMsg(a)) && Emits(h, j, claims, EvidenceMsg(e))
    requires !Ambiguous(ContextAt(h, i).session) && !Ambiguous(ContextAt(h, j).session)
    ensures a.id == e.id <==>
      && CompletedTurn(h[i].native).None? && ContextAt(h, i).session == ContextAt(h, j).session
      && NativeId(h[i].native).Some? && NativeId(h[j].native).Some?
      && NativeId(h[i].native).value == "exit_code:" + NativeId(h[j].native).value
  {
    MessageIdsIff(h, i, j, claims, EventMsg(a), EvidenceMsg(e));
  }

  lemma EventAndEvidenceDiffer(session: string, id: string)
    ensures DedupKey(session, ToolAfter, id) != DedupKey(session, ExitCode, id)
  {
    SameBody(session, ToolAfter, id, session, ExitCode, id);
    PhaseAndIdSplits(ToolAfter, id, ExitCode, id);
    assert |"exit_code:" + id| > |id|;
    if DedupKey(session, ToolAfter, id) == DedupKey(session, ExitCode, id) {
      SameLengthSession(session, ":" + PhaseAndId(ToolAfter, id), session, ":" + PhaseAndId(ExitCode, id));
      AfterPrefix(":", PhaseAndId(ToolAfter, id));
      AfterPrefix(":", PhaseAndId(ExitCode, id));
    }
  }

  lemma NamesDiffer(native: Value, ctx: Context)
    ensures IdOf(EventName(native, ctx)) != IdOf(ActionName(ExitCode, native, ctx, 1))
  {
    match (CompletedTurn(native), NativeId(native)) {
      case (Some(turn), Some(id)) => SchemesDisjoint(ctx.session, COMPLETION, turn, ctx.session, ExitCode, id);
      case (None, Some(id)) => EventAndEvidenceDiffer(ctx.session, id);
      case _ =>
    }
  }

  /** In every stream, whatever the session, a line's own event and exit code have different ids. */
  lemma OwnIdsDiffer(h: seq<Line>, i: nat, claims: string -> bool, a: Event, e: Evidence)
    requires Emits(h, i, claims, EventMsg(a)) && Emits(h, i, claims, EvidenceMsg(e))
    ensures a.id != e.id
  {
    NamedAt(h, i, claims, EventMsg(a));
    NamedAt(h, i, claims, EvidenceMsg(e));
    NamesDiffer(h[i].native, ContextAt(h, i));
  }

  // ----- sessions

  /** From the first line that offers a session on there is only one. */
  lemma OneSession(h: seq<Line>, k: int, i: nat)
    requires FirstOffer(h, k) && k <= i < |h|
    ensures ContextAt(h, i).session == OfferedSession(h[k].native).value
  {
    StateAfterLine(h, i);
    assert forall x | 0 <= x <= k :: h[..i + 1][x] == h[x];
    assert FirstOffer(h[..i + 1], k);
  }

  // ----- a completion under the id of a tool call

  predicate IsUnnamedCompletion(native: Value, id: string) {
    IsLine(native, "event_msg", COMPLETION) && CompletedTurn(native).None? && NativeId(native) == Some(id)
  }

  lemma EventIsOfLine(h: seq<Line>, i: nat, claims: string -> bool, a: Event)
    requires Emits(h, i, claims, EventMsg(a))
    ensures a.raw == h[i].native
  {
    BatchLinked(h[i].native, StateAfter(h[..i]).pending, ContextAt(h, i), claims);
    LinkedEvent(OutcomeAt(h, i, claims).messages, h[i].native, ContextAt(h, i).session, a);
  }

  lemma LinkedEvent(messages: seq<Message>, native: Value, session: string, a: Event)
    requires Linked(messages, native, session) && EventMsg(a) in messages
    ensures a.raw == native
  {
    if |messages| == 2 {
      assert messages == [messages[0], messages[1]];
    }
  }

  /** A completion that carries a call id and no turn takes the id of that call's own event, in every stream and
      session: two different events, one id. */
  lemma CompletionTakesToolId(h: seq<Line>, i: nat, j: nat, claims: string -> bool, a: Event, b: Event, id: string)
    requires Emits(h, i, claims, EventMsg(a)) && Emits(h, j, claims, EventMsg(b))
    requires !IsLine(h[i].native, "event_msg", COMPLETION) && NativeId(h[i].native) == Some(id)
    requires IsUnnamedCompletion(h[j].native, id) && ContextAt(h, i).session == ContextAt(h, j).session
    ensures a.id == b.id && a != b
  {
    NamedAt(h, i, claims, EventMsg(a));
    NamedAt(h, j, claims, EventMsg(b));
    EventIsOfLine(h, i, claims, a);
    EventIsOfLine(h, j, claims, b);
  }

  /** A line of type `event_msg` with the given payload type and call id. */
  function Sample(sub: string, id: string): Value {
    Obj(map["type" := Str("event_msg"), "payload" := Obj(map["type" := Str(sub), "call_id" := Str(id)])])
  }

  lemma SampleIs(sub: string, id: string)
    ensures IsLine(Sample(sub, id), "event_msg", sub) && PayloadStr(Sample(sub, id), "call_id") == Some(id)
    ensures Get(Sample(sub, id), "payload").Some? && GetStr(Get(Sample(sub, id), "payload").value, "turn_id").None?
  {
    assert |"type"| == 4 && |"payload"| == 7 && |"call_id"| == 7 && |"turn_id"| == 7;
    assert "call_id"[0] == 'c' && "turn_id"[0] == 't' && "payload"[0] == 'p';
  }

  lemma SampleSpeaks(sub: string, id: string, pending: map<string, string>, ctx: Context, claims: string -> bool)
    requires sub == "exec_command_end" || sub == COMPLETION
    ensures var out := Translate(Sample(sub, id), pending, ctx, claims);
      out.Messages? && out.messages != [] && out.messages[0].EventMsg?
  {
    SampleIs(sub, id);
  }

  /** Such a stream of two lines, for any call id and hint. */
  lemma ToolAndCompletionCollide(id: string, hint: string, claims: string -> bool)
    ensures var h := [Line(hint, Sample("exec_command_end", id)), Line(hint, Sample(COMPLETION, id))];
      exists a, b :: Emits(h, 0, claims, EventMsg(a)) && Emits(h, 1, claims, EventMsg(b)) && a.id == b.id && a != b
  {
    var h := [Line(hint, Sample("exec_command_end", id)), Line(hint, Sample(COMPLETION, id))];
    SampleSpeaks("exec_command_end", id, StateAfter(h[..0]).pending, ContextAt(h, 0), claims);
    SampleSpeaks(COMPLETION, id, StateAfter(h[..1]).pending, ContextAt(h, 1), claims);
    SampleIs("exec_command_end", id);
    SampleIs(COMPLETION, id);
    var a, b := OutcomeAt(h, 0, claims).messages[0].event, OutcomeAt(h, 1, claims).messages[0].event;
    assert Emits(h, 0, claims, EventMsg(a)) && Emits(h, 1, claims, EventMsg(b));
    CompletionTakesToolId(h, 0, 1, claims, a, b, id);
  }
}
