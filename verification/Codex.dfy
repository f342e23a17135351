/** The Codex rollout adapter: one JSON line in, canonical messages out. */
module Codex {
  import opened Prelude
  import opened Json
  import opened Text
  import opened DedupKeys
  import ExtractCmd

  // ----- what it emits

  /** An id is the key it is derived from, or a fresh one drawn while handling line `nonce`. */
  datatype Id = Keyed(key: string) | Fresh(nonce: nat, slot: nat)

  datatype Kind = PostToolUse | SessionEnd

  datatype Event = Event(
    id: Id, session: string, kind: Kind, toolInput: Option<Value>, toolResponse: Option<Value>, raw: Value)

  datatype Provenance =
    | ExecCommandEnd
    | ExitCodeText
    | ScriptCompleted
    | CommandExecution(version: string, status: string, source: Option<string>, native: string)

  /** Exit-code evidence; `heuristic` is absent from the oldest shape's payload. */
  datatype Evidence = Evidence(
    id: Id, session: string, source: Id, command: Value, exitCode: int, heuristic: Option<bool>, provenance: Provenance)

  datatype Claim = Claim(id: Id, session: string, source: Id, text: string, subject: string)

  datatype Message = EventMsg(event: Event) | EvidenceMsg(evidence: Evidence) | ClaimMsg(claim: Claim)

  datatype Outcome = Messages(messages: seq<Message>) | Ignored | Unrecognized(discriminator: string)

  /** One call's arguments: the caller's session hint and the native line. */
  datatype Line = Line(hint: string, native: Value)

  /** What the adapter remembers between lines. */
  datatype State = State(
    pending: map<string, string>, session: Option<string>, itemFormat: bool, cliVersion: Option<string>)

  const INITIAL := State(map[], None, false, None)

  /** What translating one line depends on besides the line and the pending calls. */
  datatype Context = Context(session: string, itemFormat: bool, version: string, nonce: nat)

  // ----- reading a line

  function PayloadStr(native: Value, key: string): Option<string> {
    match Get(native, "payload")
    case Some(payload) => GetStr(payload, key)
    case None => None
  }

  /** A line of the given top-level and payload type. */
  predicate IsLine(native: Value, top: string, sub: string) {
    GetStr(native, "type") == Some(top) && PayloadStr(native, "type") == Some(sub)
  }

  /** The session id a line offers; a blank one is none. */
  function OfferedSession(native: Value): Option<string> {
    match PayloadStr(native, "session_id")
    case Some(sid) => if Blank(sid) then None else Some(sid)
    case None => None
  }

  function OfferedVersion(native: Value): Option<string> {
    if GetStr(native, "type") == Some("session_meta") then PayloadStr(native, "cli_version") else None
  }

  /** The call id and input of an exec invocation that carries both. */
  function ExecCall(native: Value): Option<(string, string)> {
    if IsLine(native, "response_item", "custom_tool_call") && PayloadStr(native, "name") == Some("exec") then
      match (PayloadStr(native, "call_id"), PayloadStr(native, "input"))
      case (Some(id), Some(input)) => Some((id, input))
      case _ => None
    else None
  }

  /** The call id a tool output answers. */
  function AnsweredCall(native: Value): Option<string> {
    if IsLine(native, "response_item", "custom_tool_call_output") then PayloadStr(native, "call_id") else None
  }

  // ----- the version that switches the format

  function Core(v: string): string {
    if v == "" || v[0] == '-' || v[0] == '+' then "" else [v[0]] + Core(v[1..])
  }

  predicate IsDigit(c: char) {
    '0' <= c <= '9'
  }

  predicate AllDigits(s: string) {
    forall i | 0 <= i < |s| :: IsDigit(s[i])
  }

  function Decimal(s: string): (n: nat)
    requires AllDigits(s)
  {
    if s == "" then 0 else Decimal(s[..|s| - 1]) * 10 + (s[|s| - 1] - '0') as nat
  }

  function ParseU32(s: string): Option<nat> {
    if s != "" && AllDigits(s) && Decimal(s) < 0x1_0000_0000 then Some(Decimal(s)) else None
  }

  /** A version component other than the first: zero when missing or malformed. */
  function Component(parts: seq<string>, i: nat): nat {
    if i < |parts| && ParseU32(parts[i]).Some? then ParseU32(parts[i]).value else 0
  }

  function ParseVersion(v: string): Option<(nat, nat, nat)> {
    var parts := Split(Core(v), '.');
    if |parts| == 0 || ParseU32(parts[0]).None? then None
    else Some((ParseU32(parts[0]).value, Component(parts, 1), Component(parts, 2)))
  }

  predicate SupportsItems(v: string) {
    match ParseVersion(v)
    case Some((major, minor, patch)) => major > 0 || minor >= 160
    case None => false
  }

  /** A line that shows the stream uses the item format. */
  predicate Triggers(native: Value) {
    (OfferedVersion(native).Some? && SupportsItems(OfferedVersion(native).value))
    || IsLine(native, "event_msg", "item_completed")
  }

  // ----- exit codes in output text

  const MARKER := "Exit code: "
  const SCRIPT_ERROR := "Script error:"

  function DropNewlines(s: string): string {
    if s != "" && (s[0] == '\n' || s[0] == '\r') then DropNewlines(s[1..]) else s
  }

  function TakeDigits(s: string): (r: string)
    ensures AllDigits(r)
  {
    if s != "" && IsDigit(s[0]) then [s[0]] + TakeDigits(s[1..]) else ""
  }

  /** What follows the exit-code marker, where a block leads with it. */
  function AfterMarker(block: string): Option<string> {
    var b := TrimStart(block);
    if MARKER <= b then Some(b[|MARKER|..])
    else if SCRIPT_ERROR <= b then
      var rest := DropNewlines(b[|SCRIPT_ERROR|..]);
      if MARKER <= rest then Some(rest[|MARKER|..]) else None
    else None
  }

  function BlockCode(block: string): Option<int> {
    match AfterMarker(block)
    case None => None
    case Some(rest) =>
      var digits := TakeDigits(rest);
      if digits != "" && Decimal(digits) < 0x8000_0000_0000_0000 then Some(Decimal(digits)) else None
  }

  /** The first block's code that there is. */
  function FirstCode(blocks: seq<string>): Option<int> {
    if blocks == [] then None
    else if BlockCode(blocks[0]).Some? then BlockCode(blocks[0])
    else FirstCode(blocks[1..])
  }

  lemma {:induction false} FirstCodeIs(blocks: seq<string>, i: nat)
    requires i <= |blocks| && forall j | 0 <= j < i :: BlockCode(blocks[j]).None?
    ensures FirstCode(blocks) == FirstCode(blocks[i..])
  {
    if i == 0 {
      assert blocks[0..] == blocks;
    } else {
      assert blocks[1..][i - 1..] == blocks[i..];
      FirstCodeIs(blocks[1..], i - 1);
    }
  }

  method ParseExitCode(blocks: seq<string>) returns (r: Option<int>)
    ensures r == FirstCode(blocks)
    ensures r.Some? ==>
      exists i | 0 <= i < |blocks| :: BlockCode(blocks[i]) == r && forall j | 0 <= j < i :: BlockCode(blocks[j]).None?
    ensures r.None? ==> forall j | 0 <= j < |blocks| :: BlockCode(blocks[j]).None?
  {
    for i := 0 to |blocks|
      invariant forall j | 0 <= j < i :: BlockCode(blocks[j]).None?
    {
      var code := BlockCode(blocks[i]);
      if code.Some? {
        FirstCodeIs(blocks, i);
        return code;
      }
    }
    FirstCodeIs(blocks, |blocks|);
    return None;
  }

  function Texts(items: seq<Value>): seq<string> {
    if items == [] then []
    else (if GetStr(items[0], "text").Some? then [GetStr(items[0], "text").value] else []) + Texts(items[1..])
  }

  /** The text blocks of a tool output. */
  function Blocks(payload: Value): seq<string> {
    match Get(payload, "output")
    case Some(Arr(items)) => Texts(items)
    case _ => []
  }

  function Concat(parts: seq<string>): string {
    if parts == [] then "" else parts[0] + Concat(parts[1..])
  }

  // ----- translation

  /** The command map a sensor finds on its event. */
  function CommandInput(command: Value): Option<Value> {
    Some(Obj(map["command" := command]))
  }

  function CellEvidence(event: Event, id: Id, command: string, payload: Value): Option<Evidence> {
    match FirstCode(Blocks(payload))
    case Some(code) => Some(Evidence(id, event.session, event.id, Str(command), code, Some(false), ExitCodeText))
    case None =>
      if Find(Concat(Blocks(payload)), "Script completed").Some? then
        Some(Evidence(id, event.session, event.id, Str(command), 0, Some(true), ScriptCompleted))
      else None
  }

  function WithEvidence(event: Event, evidence: Option<Evidence>): Outcome {
    Messages([EventMsg(event)] + if evidence.Some? then [EvidenceMsg(evidence.value)] else [])
  }

  /** The output half of an exec call. */
  function Cell(native: Value, payload: Value, callId: string, command: string, ctx: Context): Outcome {
    var event := Event(Keyed(DedupKey(ctx.session, ToolAfter, callId)), ctx.session, PostToolUse,
                       CommandInput(Str(command)), Some(payload), native);
    WithEvidence(event, CellEvidence(event, Keyed(DedupKey(ctx.session, ExitCode, callId)), command, payload))
  }

  function ResponseItem(native: Value, pending: map<string, string>, ctx: Context): Outcome {
    match Get(native, "payload")
    case None => Unrecognized("response_item:<missing payload>")
    case Some(payload) =>
      match GetStr(payload, "type")
      case None => Unrecognized("response_item:<missing payload.type>")
      case Some(sub) =>
        if sub == "custom_tool_call" then Ignored
        else if sub == "custom_tool_call_output" then
          match GetStr(payload, "call_id")
          case None => Unrecognized("response_item:custom_tool_call_output:<missing call_id>")
          case Some(id) =>
            if ctx.itemFormat then Ignored
            else Cell(native, payload, id, if id in pending then pending[id] else "", ctx)
        else Unrecognized("response_item:" + sub)
  }

  function EventId(payload: Value, ctx: Context): Id {
    match GetStr(payload, "call_id")
    case Some(id) => Keyed(DedupKey(ctx.session, ToolAfter, id))
    case None => Fresh(ctx.nonce, 0)
  }

  function ExecEnd(native: Value, payload: Value, ctx: Context): Outcome {
    var event := Event(EventId(payload, ctx), ctx.session, PostToolUse, Get(payload, "command"), Some(payload), native);
    var id := match GetStr(payload, "call_id")
              case Some(id) => Keyed(DedupKey(ctx.session, ExitCode, id))
              case None => Fresh(ctx.nonce, 1);
    var command := match Get(payload, "command") case Some(c) => c case None => Null;
    WithEvidence(event,
      match GetI64(payload, "exit_code")
      case Some(code) => Some(Evidence(id, ctx.session, event.id, command, code, None, ExecCommandEnd))
      case None => None)
  }

  function GetI64(v: Value, key: string): Option<int> {
    match Get(v, key)
    case Some(w) => AsI64(w)
    case None => None
  }

  const QUIET_ITEMS :=
    ["UserMessage", "AgentMessage", "Reasoning", "CollabAgentToolCall", "Extension", "FileChange", "ContextCompaction"]

  function StrOr(v: Value, key: string, other: string): string {
    match GetStr(v, key)
    case Some(s) => s
    case None => other
  }

  function Command(native: Value, payload: Value, item: Value, code: int, ctx: Context): Outcome {
    var id, status, source := StrOr(item, "id", ""), StrOr(item, "status", ""), GetStr(item, "source");
    var command := match Get(item, "command") case Some(c) => c case None => Null;
    var event := Event(Keyed(DedupKey(ctx.session, ToolAfter, id)), ctx.session, PostToolUse,
                       CommandInput(command), Some(payload), native);
    WithEvidence(event,
      if source == Some("user_shell") then None
      else Some(Evidence(Keyed(DedupKey(ctx.session, ExitCode, id)), ctx.session, event.id, command, code, Some(false),
                         CommandExecution(ctx.version, status, source, id))))
  }

  function ItemCompleted(native: Value, payload: Value, ctx: Context): Outcome {
    match Get(payload, "item")
    case None => Unrecognized("event_msg:item_completed:<missing item>")
    case Some(item) =>
      match GetStr(item, "type")
      case None => Unrecognized("event_msg:item_completed:<missing item.type>")
      case Some(kind) =>
        var status := StrOr(item, "status", "");
        if kind != "CommandExecution" then
          if kind in QUIET_ITEMS then Ignored else Unrecognized("event_msg:item_completed:item.type=" + kind)
        else if status == "declined" || status == "in_progress" then Ignored
        else if status == "completed" || status == "failed" then
          match GetI64(item, "exit_code")
          case None =>
            Unrecognized("event_msg:item_completed:CommandExecution:status=" + status
                         + ":<missing or non-integer exit_code>")
          case Some(code) => Command(native, payload, item, code, ctx)
        else Unrecognized("event_msg:item_completed:CommandExecution:status=" + status)
  }

  function TurnId(payload: Value): Option<string> {
    match GetStr(payload, "turn_id")
    case Some(turn) => if Blank(turn) then None else Some(turn)
    case None => None
  }

  /** `claims` decides whether a message asserts that tests passed. */
  function TaskComplete(native: Value, payload: Value, ctx: Context, claims: string -> bool): Outcome {
    var turn := TurnId(payload);
    var id := if turn.Some? then Keyed(CompletionKey(ctx.session, "task_complete", turn.value))
              else EventId(payload, ctx);
    var event := EventMsg(Event(id, ctx.session, SessionEnd, None, None, native));
    match GetStr(payload, "last_agent_message")
    case Some(text) =>
      if claims(text) then
        var claimId := if turn.Some?
                       then Keyed(CompletionKey(ctx.session, "task_complete:claim:test_result", turn.value))
                       else Fresh(ctx.nonce, 2);
        Messages([event, ClaimMsg(Claim(claimId, ctx.session, id, text, "test_result"))])
      else Messages([event])
    case None => Messages([event])
  }

  function EventLine(native: Value, ctx: Context, claims: string -> bool): Outcome {
    match Get(native, "payload")
    case None => Unrecognized("event_msg:<missing payload>")
    case Some(payload) =>
      match GetStr(payload, "type")
      case None => Unrecognized("event_msg:<missing payload.type>")
      case Some(sub) =>
        if sub == "exec_command_end" then ExecEnd(native, payload, ctx)
        else if sub == "item_completed" then ItemCompleted(native, payload, ctx)
        else if sub == "task_complete" then TaskComplete(native, payload, ctx, claims)
        else Unrecognized("event_msg:" + sub)
  }

  function Translate(native: Value, pending: map<string, string>, ctx: Context, claims: string -> bool): Outcome {
    match GetStr(native, "type")
    case None => Unrecognized("<missing type>")
    case Some(top) =>
      if top == "response_item" then ResponseItem(native, pending, ctx)
      else if top == "session_meta" then Ignored
      else if top != "event_msg" then Unrecognized(top)
      else EventLine(native, ctx, claims)
  }

  // ----- the memory

  function NextPending(pending: map<string, string>, native: Value): map<string, string> {
    if ExecCall(native).Some? then pending[ExecCall(native).value.0 := ExtractCmd.Extract(ExecCall(native).value.1)]
    else if AnsweredCall(native).Some? then pending - {AnsweredCall(native).value}
    else pending
  }

  function Next(st: State, native: Value): State {
    State(
      NextPending(st.pending, native),
      if st.session.Some? then st.session else OfferedSession(native),
      st.itemFormat || Triggers(native),
      if OfferedVersion(native).Some? then OfferedVersion(native) else st.cliVersion)
  }

  /** The context a line is translated in, once the line itself has been observed. */
  function ContextOf(st: State, line: Line, nonce: nat): Context {
    var now := Next(st, line.native);
    Context(if now.session.Some? then now.session.value else line.hint, now.itemFormat,
            if now.cliVersion.Some? then now.cliVersion.value else "unknown", nonce)
  }

  function Output(st: State, line: Line, nonce: nat, claims: string -> bool): Outcome {
    Translate(line.native, st.pending, ContextOf(st, line, nonce), claims)
  }
}
