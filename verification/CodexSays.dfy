/** What each rollout line must say, written out in the terms of the line alone. */
module CodexSays {
  import opened Prelude
  import opened Json
  import opened Text
  import opened DedupKeys
  import opened Codex

  // ----- the lines that speak, and those that do not

  predicate Typed(native: Value, top: string, sub: string) {
    && GetStr(native, "type") == Some(top) && Get(native, "payload").Some?
    && GetStr(Get(native, "payload").value, "type") == Some(sub)
  }

  function PayloadOf(native: Value): Value
    requires Get(native, "payload").Some?
  {
    Get(native, "payload").value
  }

  /** The answer to a tool call that names the call. */
  predicate IsAnswer(native: Value) {
    Typed(native, "response_item", "custom_tool_call_output") && GetStr(PayloadOf(native), "call_id").Some?
  }

  predicate IsItem(native: Value) {
    Typed(native, "event_msg", "item_completed") && Get(PayloadOf(native), "item").Some?
  }

  function ItemOf(native: Value): Value
    requires IsItem(native)
  {
    Get(PayloadOf(native), "item").value
  }

  /** A command that ran to its end, well or badly, with an integer exit code. */
  predicate IsRunCommand(native: Value) {
    && IsItem(native) && GetStr(ItemOf(native), "type") == Some("CommandExecution")
    && (GetStr(ItemOf(native), "status") == Some("completed") || GetStr(ItemOf(native), "status") == Some("failed"))
    && GetI64(ItemOf(native), "exit_code").Some?
  }

  predicate Speaks(native: Value, itemFormat: bool) {
    || (!itemFormat && IsAnswer(native)) || Typed(native, "event_msg", "exec_command_end")
    || Typed(native, "event_msg", "task_complete") || IsRunCommand(native)
  }

  predicate IsQuietItem(item: Value) {
    var kind, status := GetStr(item, "type"), GetStr(item, "status");
    || kind == Some("UserMessage") || kind == Some("AgentMessage") || kind == Some("Reasoning")
    || kind == Some("CollabAgentToolCall") || kind == Some("Extension") || kind == Some("FileChange")
    || kind == Some("ContextCompaction")
    || (kind == Some("CommandExecution") && (status == Some("declined") || status == Some("in_progress")))
  }

  /** Lines that are understood and have nothing to say. */
  predicate IsQuiet(native: Value, itemFormat: bool) {
    || GetStr(native, "type") == Some("session_meta")
    || Typed(native, "response_item", "custom_tool_call")
    || (itemFormat && IsAnswer(native))
    || (IsItem(native) && IsQuietItem(ItemOf(native)))
  }

  lemma WordsDiffer()
    ensures |"response_item"| == 13 && |"session_meta"| == 12 && |"event_msg"| == 9
    ensures |"custom_tool_call"| == 16 && |"custom_tool_call_output"| == 23
    ensures |"exec_command_end"| == 16 && |"item_completed"| == 14 && |"task_complete"| == 13
    ensures "exec_command_end"[0] == 'e' && "custom_tool_call"[0] == 'c'
    ensures |"completed"| == 9 && |"failed"| == 6 && |"declined"| == 8 && |"in_progress"| == 11
  {
  }

  lemma ItemOutcome(native: Value, payload: Value, ctx: Context)
    requires Typed(native, "event_msg", "item_completed") && payload == PayloadOf(native)
    ensures var out := ItemCompleted(native, payload, ctx);
      && (out.Messages? <==> IsRunCommand(native))
      && (out.Ignored? <==> IsItem(native) && IsQuietItem(ItemOf(native)))
  {
    WordsDiffer();
    if IsItem(native) && GetStr(ItemOf(native), "type").Some? {
      QuietNames(GetStr(ItemOf(native), "type").value);
    }
  }

  lemma ResponseOutcome(native: Value, pending: map<string, string>, ctx: Context)
    requires GetStr(native, "type") == Some("response_item")
    ensures var out := ResponseItem(native, pending, ctx);
      && (out.Messages? <==> !ctx.itemFormat && IsAnswer(native))
      && (out.Ignored? <==> Typed(native, "response_item", "custom_tool_call") || (ctx.itemFormat && IsAnswer(native)))
  {
    WordsDiffer();
  }

  lemma EventOutcome(native: Value, ctx: Context, claims: string -> bool)
    requires GetStr(native, "type") == Some("event_msg")
    ensures var out := EventLine(native, ctx, claims);
      && (out.Messages? <==> Typed(native, "event_msg", "exec_command_end")
                             || Typed(native, "event_msg", "task_complete") || IsRunCommand(native))
      && (out.Ignored? <==> IsItem(native) && IsQuietItem(ItemOf(native)))
  {
    WordsDiffer();
    if Typed(native, "event_msg", "item_completed") {
      ItemOutcome(native, PayloadOf(native), ctx);
    }
  }

  /** Every line of every stream: it speaks, is passed over, or is reported as not understood, exactly so. */
  lemma OutcomeIff(native: Value, pending: map<string, string>, ctx: Context, claims: string -> bool)
    ensures var out := Translate(native, pending, ctx, claims);
      && (out.Messages? <==> Speaks(native, ctx.itemFormat))
      && (out.Ignored? <==> IsQuiet(native, ctx.itemFormat))
  {
    WordsDiffer();
    match GetStr(native, "type") {
      case None =>
      case Some(top) =>
        if top == "response_item" {
          ResponseOutcome(native, pending, ctx);
        } else if top == "event_msg" {
          EventOutcome(native, ctx, claims);
        }
    }
  }

  // ----- what they say

  /** An event about a tool, with nothing left open but its id. */
  predicate ToolEvent(m: Message, native: Value, session: string, input: Option<Value>) {
    && m.EventMsg? && m.event.kind == PostToolUse && m.event.session == session && m.event.raw == native
    && m.event.toolInput == input && m.event.toolResponse == Get(native, "payload")
  }

  /** Exit-code evidence, with nothing left open but its id and source. */
  predicate Reported(m: Message, session: string, command: Value, code: int, heuristic: Option<bool>, how: Provenance) {
    && m.EvidenceMsg? && m.evidence.session == session && m.evidence.command == command
    && m.evidence.exitCode == code && m.evidence.heuristic == heuristic && m.evidence.provenance == how
  }

  function Commanded(command: Value): Option<Value> {
    Some(Obj(map["command" := command]))
  }

  /** A tool answer of an unlatched stream reports its call's command; its evidence is the first exit code in its text,
      else a marked guess of zero where it says that its script completed, else none. */
  lemma AnswerSays(native: Value, pending: map<string, string>, ctx: Context, claims: string -> bool)
    requires IsAnswer(native) && !ctx.itemFormat
    ensures var out := Translate(native, pending, ctx, claims);
      var id := GetStr(PayloadOf(native), "call_id").value;
      var command := if id in pending then pending[id] else "";
      var blocks := Blocks(PayloadOf(native));
      && out.Messages? && out.messages != [] && ToolEvent(out.messages[0], native, ctx.session, Commanded(Str(command)))
      && (match FirstCode(blocks)
          case Some(code) =>
            |out.messages| == 2
            && Reported(out.messages[1], ctx.session, Str(command), code, Some(false), ExitCodeText)
          case None =>
            if Find(Concat(blocks), "Script completed").Some? then
              |out.messages| == 2
              && Reported(out.messages[1], ctx.session, Str(command), 0, Some(true), ScriptCompleted)
            else |out.messages| == 1)
  {
    WordsDiffer();
  }

  /** An ended command of the oldest shape reports what its payload holds. */
  lemma ExecEndSays(native: Value, pending: map<string, string>, ctx: Context, claims: string -> bool)
    requires Typed(native, "event_msg", "exec_command_end")
    ensures var out := Translate(native, pending, ctx, claims);
      var payload := PayloadOf(native);
      var command := if Get(payload, "command").Some? then Get(payload, "command").value else Null;
      && out.Messages? && out.messages != []
      && ToolEvent(out.messages[0], native, ctx.session, Get(payload, "command"))
      && (match GetI64(payload, "exit_code")
          case Some(code) =>
            |out.messages| == 2 && Reported(out.messages[1], ctx.session, command, code, None, ExecCommandEnd)
          case None => |out.messages| == 1)
  {
    WordsDiffer();
  }

  /** A command that ran to its end reports its own exit code, as evidence only when no user typed it. */
  lemma CommandSays(native: Value, pending: map<string, string>, ctx: Context, claims: string -> bool)
    requires IsRunCommand(native)
    ensures var out := Translate(native, pending, ctx, claims);
      var item := ItemOf(native);
      var command := if Get(item, "command").Some? then Get(item, "command").value else Null;
      var id := if GetStr(item, "id").Some? then GetStr(item, "id").value else "";
      && out.Messages? && out.messages != [] && ToolEvent(out.messages[0], native, ctx.session, Commanded(command))
      && (if GetStr(item, "source") == Some("user_shell") then |out.messages| == 1
          else
            |out.messages| == 2
            && Reported(out.messages[1], ctx.session, command, GetI64(item, "exit_code").value, Some(false),
                        CommandExecution(ctx.version, GetStr(item, "status").value, GetStr(item, "source"), id)))
  {
    WordsDiffer();
  }

  /** A completed turn ends the session's turn, and quotes its last message where that claims passing tests. */
  lemma TurnSays(native: Value, pending: map<string, string>, ctx: Context, claims: string -> bool)
    requires Typed(native, "event_msg", "task_complete")
    ensures var out := Translate(native, pending, ctx, claims);
      var last := GetStr(PayloadOf(native), "last_agent_message");
      && out.Messages? && out.messages != [] && out.messages[0].EventMsg?
      && var e := out.messages[0].event;
         && e.kind == SessionEnd && e.session == ctx.session && e.raw == native
         && e.toolInput == None && e.toolResponse == None
         && (if last.Some? && claims(last.value) then
               && |out.messages| == 2 && out.messages[1].ClaimMsg?
               && var c := out.messages[1].claim;
                  c.session == ctx.session && c.text == last.value && c.subject == "test_result"
             else |out.messages| == 1)
  {
    WordsDiffer();
  }

  // ----- what is reported as not understood

  // ----- and under which ids

  /** A batch of an event with this id and, if any, evidence with that id about it. */
  predicate Named(out: Outcome, event: Id, evidence: Id) {
    && out.Messages? && 1 <= |out.messages| <= 2 && out.messages[0].EventMsg? && out.messages[0].event.id == event
    && (|out.messages| == 2 ==>
          out.messages[1].EvidenceMsg? && out.messages[1].evidence.id == evidence
          && out.messages[1].evidence.source == event)
  }

  function ToolId(session: string, id: string): Id {
    Keyed(DedupKey(session, ToolAfter, id))
  }

  function CodeId(session: string, id: string): Id {
    Keyed(DedupKey(session, ExitCode, id))
  }

  /** Event and exit code of an answer are named after its call, */
  lemma AnswerNamed(native: Value, pending: map<string, string>, ctx: Context, claims: string -> bool)
    requires IsAnswer(native) && !ctx.itemFormat
    ensures var id := GetStr(PayloadOf(native), "call_id").value;
      Named(Translate(native, pending, ctx, claims), ToolId(ctx.session, id), CodeId(ctx.session, id))
  {
    WordsDiffer();
  }

  /** those of an ended command of the oldest shape too, or drawn anew when it has no call id, */
  lemma ExecEndNamed(native: Value, pending: map<string, string>, ctx: Context, claims: string -> bool)
    requires Typed(native, "event_msg", "exec_command_end")
    ensures var out := Translate(native, pending, ctx, claims);
      match GetStr(PayloadOf(native), "call_id")
      case Some(id) => Named(out, ToolId(ctx.session, id), CodeId(ctx.session, id))
      case None => Named(out, Fresh(ctx.nonce, 0), Fresh(ctx.nonce, 1))
  {
    WordsDiffer();
  }

  /** and those of a command item after its own id. */
  lemma CommandNamed(native: Value, pending: map<string, string>, ctx: Context, claims: string -> bool)
    requires IsRunCommand(native)
    ensures var id := if GetStr(ItemOf(native), "id").Some? then GetStr(ItemOf(native), "id").value else "";
      Named(Translate(native, pending, ctx, claims), ToolId(ctx.session, id), CodeId(ctx.session, id))
  {
    WordsDiffer();
  }

  /** A completed turn is translated as one, */
  lemma {:induction false} TurnTranslated(
    native: Value, pending: map<string, string>, ctx: Context, claims: string -> bool
  )
    requires Typed(native, "event_msg", "task_complete")
    ensures Translate(native, pending, ctx, claims) == TaskComplete(native, PayloadOf(native), ctx, claims)
  {
    WordsDiffer();
  }

  /** under the turn its payload names, if that is not blank; */
  lemma TurnIs(payload: Value)
    ensures forall turn :: TurnId(payload) == Some(turn) <==> GetStr(payload, "turn_id") == Some(turn) && !Blank(turn)
  {
  }

  /** its event is named after the turn, else after its call, else anew. */
  lemma {:induction false} TurnNamed(native: Value, payload: Value, ctx: Context, claims: string -> bool, turn: string)
    ensures var out := TaskComplete(native, payload, ctx, claims);
      out.Messages? && out.messages != [] && out.messages[0].EventMsg?
      && (var id := out.messages[0].event.id;
          && (TurnId(payload) == Some(turn) ==> id == Keyed(CompletionKey(ctx.session, "task_complete", turn)))
          && (TurnId(payload) == None ==>
                match GetStr(payload, "call_id")
                case Some(call) => id == ToolId(ctx.session, call)
                case None => id == Fresh(ctx.nonce, 0)))
  {
  }

  /** A claim points at its event and is named after the turn too, else anew. */
  lemma {:induction false} ClaimNamed(native: Value, payload: Value, ctx: Context, claims: string -> bool, turn: string)
    ensures var out := TaskComplete(native, payload, ctx, claims);
      out.Messages? && 1 <= |out.messages| <= 2 && (|out.messages| == 2 ==>
        && out.messages[0].EventMsg? && out.messages[1].ClaimMsg?
        && out.messages[1].claim.source == out.messages[0].event.id
        && (TurnId(payload) == Some(turn) ==>
              out.messages[1].claim.id
              == Keyed(CompletionKey(ctx.session, "task_complete:claim:test_result", turn)))
        && (TurnId(payload) == None ==> out.messages[1].claim.id == Fresh(ctx.nonce, 2)))
  {
  }

  // ----- what is not understood

  /** The name of what is not understood says how far it was: at the top, */
  lemma TopDrift(native: Value, pending: map<string, string>, ctx: Context, claims: string -> bool)
    ensures var out, top := Translate(native, pending, ctx, claims), GetStr(native, "type");
      match top
      case None => out == Unrecognized("<missing type>")
      case Some(t) =>
        t != "response_item" && t != "session_meta" && t != "event_msg" ==> out == Unrecognized(t)
  {
  }

  /** at the payload, */
  lemma PayloadDrift(native: Value, pending: map<string, string>, ctx: Context, claims: string -> bool)
    ensures var out := Translate(native, pending, ctx, claims);
      var top, payload := GetStr(native, "type"), Get(native, "payload");
      if payload == None then
        && (top == Some("response_item") ==> out == Unrecognized("response_item:<missing payload>"))
        && (top == Some("event_msg") ==> out == Unrecognized("event_msg:<missing payload>"))
      else
        GetStr(payload.value, "type") == None ==>
          && (top == Some("response_item") ==> out == Unrecognized("response_item:<missing payload.type>"))
          && (top == Some("event_msg") ==> out == Unrecognized("event_msg:<missing payload.type>"))
  {
    WordsDiffer();
  }

  /** at the payload's type, */
  lemma TypeDrift(native: Value, sub: string, pending: map<string, string>, ctx: Context, claims: string -> bool)
    requires Typed(native, "response_item", sub) || Typed(native, "event_msg", sub)
    ensures var out := Translate(native, pending, ctx, claims);
      if GetStr(native, "type") == Some("response_item") then
        if sub == "custom_tool_call_output" then
          GetStr(PayloadOf(native), "call_id") == None ==>
            out == Unrecognized("response_item:custom_tool_call_output:<missing call_id>")
        else sub != "custom_tool_call" ==> out == Unrecognized("response_item:" + sub)
      else
        sub != "exec_command_end" && sub != "item_completed" && sub != "task_complete" ==>
          out == Unrecognized("event_msg:" + sub)
  {
    WordsDiffer();
  }

  lemma ItemTranslated(native: Value, pending: map<string, string>, ctx: Context, claims: string -> bool)
    requires Typed(native, "event_msg", "item_completed")
    ensures Translate(native, pending, ctx, claims) == ItemCompleted(native, PayloadOf(native), ctx)
  {
    WordsDiffer();
  }

  lemma QuietNames(kind: string)
    ensures kind in QUIET_ITEMS <==>
      || kind == "UserMessage" || kind == "AgentMessage" || kind == "Reasoning" || kind == "CollabAgentToolCall"
      || kind == "Extension" || kind == "FileChange" || kind == "ContextCompaction"
  {
  }

  /** at the item, */
  lemma ItemDrift(native: Value, pending: map<string, string>, ctx: Context, claims: string -> bool)
    requires Typed(native, "event_msg", "item_completed")
    ensures var out := Translate(native, pending, ctx, claims);
      if !IsItem(native) then out == Unrecognized("event_msg:item_completed:<missing item>")
      else
        match GetStr(ItemOf(native), "type")
        case None => out == Unrecognized("event_msg:item_completed:<missing item.type>")
        case Some(kind) =>
          kind != "CommandExecution" && !IsQuietItem(ItemOf(native)) ==>
            out == Unrecognized("event_msg:item_completed:item.type=" + kind)
  {
    ItemTranslated(native, pending, ctx, claims);
    if IsItem(native) && GetStr(ItemOf(native), "type").Some? {
      QuietNames(GetStr(ItemOf(native), "type").value);
    }
  }

  /** at the state of a command, */
  lemma CommandDrift(native: Value, status: string, pending: map<string, string>, ctx: Context, claims: string -> bool)
    requires IsItem(native) && GetStr(ItemOf(native), "type") == Some("CommandExecution")
    requires status == if GetStr(ItemOf(native), "status").Some? then GetStr(ItemOf(native), "status").value else ""
    requires status != "declined" && status != "in_progress" && status != "completed" && status != "failed"
    ensures Translate(native, pending, ctx, claims)
         == Unrecognized("event_msg:item_completed:CommandExecution:status=" + status)
  {
    ItemTranslated(native, pending, ctx, claims);
  }

  /** or at its exit code. */
  lemma CodeDrift(native: Value, status: string, pending: map<string, string>, ctx: Context, claims: string -> bool)
    requires IsItem(native) && GetStr(ItemOf(native), "type") == Some("CommandExecution")
    requires GetStr(ItemOf(native), "status") == Some(status) && (status == "completed" || status == "failed")
    requires GetI64(ItemOf(native), "exit_code") == None
    ensures Translate(native, pending, ctx, claims)
         == Unrecognized("event_msg:item_completed:CommandExecution:status=" + status
                         + ":<missing or non-integer exit_code>")
  {
    ItemTranslated(native, pending, ctx, claims);
  }

  // ----- what a line is remembered for

  /** The session id, version and calls that a line offers, and whether it shows the item format. */
  lemma LineReads(native: Value, id: string, input: string)
    ensures OfferedSession(native) == Some(id) <==>
      Get(native, "payload").Some? && GetStr(PayloadOf(native), "session_id") == Some(id) && !Blank(id)
    ensures OfferedVersion(native) == Some(id) <==>
      && GetStr(native, "type") == Some("session_meta")
      && Get(native, "payload").Some? && GetStr(PayloadOf(native), "cli_version") == Some(id)
    ensures ExecCall(native) == Some((id, input)) <==>
      && Typed(native, "response_item", "custom_tool_call") && GetStr(PayloadOf(native), "name") == Some("exec")
      && GetStr(PayloadOf(native), "call_id") == Some(id) && GetStr(PayloadOf(native), "input") == Some(input)
    ensures AnsweredCall(native) == Some(id) <==>
      && Typed(native, "response_item", "custom_tool_call_output")
      && GetStr(PayloadOf(native), "call_id") == Some(id)
  {
  }

  lemma TriggersIff(native: Value)
    ensures Triggers(native) <==>
      || Typed(native, "event_msg", "item_completed")
      || (&& GetStr(native, "type") == Some("session_meta") && Get(native, "payload").Some?
          && GetStr(PayloadOf(native), "cli_version").Some?
          && SupportsItems(GetStr(PayloadOf(native), "cli_version").value))
  {
  }

  // ----- texts of an answer

  /** The blocks of an answer are the texts of the elements that have one, in order; without a list there are none. */
  lemma {:induction false} BlocksAre(payload: Value, items: seq<Value>, last: Value)
    ensures Get(payload, "output") == Some(Arr(items + [last])) ==>
      Blocks(payload) == Blocks(Obj(map["output" := Arr(items)]))
                         + if GetStr(last, "text").Some? then [GetStr(last, "text").value] else []
    ensures Get(payload, "output") == Some(Arr([])) ==> Blocks(payload) == []
    ensures (Get(payload, "output").Some? ==> !Get(payload, "output").value.Arr?) ==> Blocks(payload) == []
  {
    TextsAppend(items, last);
  }

  lemma {:induction false} TextsAppend(items: seq<Value>, last: Value)
    ensures Texts(items + [last])
         == Texts(items) + if GetStr(last, "text").Some? then [GetStr(last, "text").value] else []
  {
    if items == [] {
      assert items + [last] == [last] && [last][1..] == [];
    } else {
      var rest := items + [last];
      assert rest[1..] == items[1..] + [last] && rest[0] == items[0];
      TextsAppend(items[1..], last);
      var first := if GetStr(items[0], "text").Some? then [GetStr(items[0], "text").value] else [];
      var end := if GetStr(last, "text").Some? then [GetStr(last, "text").value] else [];
      assert Texts(rest) == first + (Texts(items[1..]) + end);
      assert first + (Texts(items[1..]) + end) == (first + Texts(items[1..])) + end;
    }
  }

  /** The blocks are searched as one text, in order. */
  lemma {:induction false} ConcatAppend(parts: seq<string>, last: string)
    ensures Concat(parts + [last]) == Concat(parts) + last
  {
    if parts == [] {
      assert parts + [last] == [last] && [last][1..] == [];
      NothingAdded(last);
    } else {
      assert (parts + [last])[1..] == parts[1..] + [last];
      ConcatAppend(parts[1..], last);
      Assoc(parts[0], Concat(parts[1..]), last);
    }
  }
}
