/** What the adapter's evidence says. */
module CodexClaims {
  import opened Prelude
  import opened Json
  import opened Text
  import opened DedupKeys
  import opened Codex
  import opened CodexRuns

  // ----- no exit code is made up

  /** The line itself holds this exit code, in one of the three places where a provider puts one. */
  ghost predicate HoldsCode(native: Value, code: int) {
    && Get(native, "payload").Some?
    && var payload := Get(native, "payload").value;
       || (IsLine(native, "event_msg", "exec_command_end") && GetI64(payload, "exit_code") == Some(code))
       || (IsLine(native, "event_msg", "item_completed") && Get(payload, "item").Some?
           && GetI64(Get(payload, "item").value, "exit_code") == Some(code))
       || (AnsweredCall(native).Some?
           && exists i | 0 <= i < |Blocks(payload)| :: BlockCode(Blocks(payload)[i]) == Some(code))
  }

  predicate Reports(out: Outcome, e: Evidence) {
    out.Messages? && exists i | 0 <= i < |out.messages| :: out.messages[i] == EvidenceMsg(e)
  }

  lemma {:induction false} FirstCodeFound(blocks: seq<string>)
    requires FirstCode(blocks).Some?
    ensures exists i | 0 <= i < |blocks| :: BlockCode(blocks[i]) == FirstCode(blocks)
  {
    if BlockCode(blocks[0]).None? {
      FirstCodeFound(blocks[1..]);
      var i :| 0 <= i < |blocks[1..]| && BlockCode(blocks[1..][i]) == FirstCode(blocks[1..]);
      assert blocks[i + 1] == blocks[1..][i];
    }
  }

  lemma ReportsOnly(event: Event, evidence: Option<Evidence>, e: Evidence)
    requires Reports(WithEvidence(event, evidence), e)
    ensures evidence == Some(e)
  {
  }

  lemma CellReports(native: Value, payload: Value, id: string, command: string, ctx: Context, e: Evidence)
    requires Reports(Cell(native, payload, id, command, ctx), e)
    ensures (e.heuristic == Some(true) && e.exitCode == 0) || FirstCode(Blocks(payload)) == Some(e.exitCode)
  {
    var event := Event(Keyed(DedupKey(ctx.session, ToolAfter, id)), ctx.session, PostToolUse,
                       CommandInput(Str(command)), Some(payload), native);
    ReportsOnly(event, CellEvidence(event, Keyed(DedupKey(ctx.session, ExitCode, id)), command, payload), e);
  }

  lemma ExecEndReports(native: Value, payload: Value, ctx: Context, e: Evidence)
    requires Reports(ExecEnd(native, payload, ctx), e)
    ensures GetI64(payload, "exit_code") == Some(e.exitCode)
  {
  }

  lemma CommandReports(native: Value, payload: Value, item: Value, code: int, ctx: Context, e: Evidence)
    requires Reports(Command(native, payload, item, code, ctx), e)
    ensures e.exitCode == code && GetStr(item, "source") != Some("user_shell")
  {
  }

  lemma TaskKinds(native: Value, payload: Value, ctx: Context, claims: string -> bool, out: Outcome)
    requires out == TaskComplete(native, payload, ctx, claims)
    ensures out.Messages? && 1 <= |out.messages| <= 2 && out.messages[0].EventMsg?
    ensures |out.messages| == 2 ==> out.messages[1].ClaimMsg?
  {
  }

  lemma NoEvidence(out: Outcome, e: Evidence)
    requires out.Messages? && 1 <= |out.messages| <= 2 && out.messages[0].EventMsg?
    requires |out.messages| == 2 ==> out.messages[1].ClaimMsg?
    ensures !Reports(out, e)
  {
  }

  /** Every reported exit code is one the line holds, or a guess of zero that is marked as a guess. */
  lemma CodeIsLiteralOrGuess(native: Value, pending: map<string, string>, ctx: Context, claims: string -> bool,
                             e: Evidence)
    requires Reports(Translate(native, pending, ctx, claims), e)
    ensures HoldsCode(native, e.exitCode) || (e.heuristic == Some(true) && e.exitCode == 0)
  {
    var out := Translate(native, pending, ctx, claims);
    BatchShape(native, pending, ctx, claims);
    var payload := Get(native, "payload").value;
    if CellBatch(out, native, pending, ctx) {
      var id := AnsweredCall(native).value;
      CellReports(native, payload, id, if id in pending then pending[id] else "", ctx, e);
      if FirstCode(Blocks(payload)).Some? {
        FirstCodeFound(Blocks(payload));
      }
    } else if ExecEndBatch(out, native, ctx) {
      ExecEndReports(native, payload, ctx, e);
    } else if CommandBatch(out, native, ctx) {
      var item := Get(payload, "item").value;
      CommandReports(native, payload, item, GetI64(item, "exit_code").value, ctx, e);
    } else {
      TaskKinds(native, payload, ctx, claims, out);
      NoEvidence(out, e);
    }
  }
}
