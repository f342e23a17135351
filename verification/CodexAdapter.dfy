/** The stateful adapter object that follows one rollout stream. */
module CodexAdapter {
  import opened Prelude
  import opened Json
  import opened Codex
  import opened CodexRuns
  import ExtractCmd

  class Adapter {
    var pending: map<string, string>
    var session: Option<string>
    var itemFormat: bool
    var cliVersion: Option<string>
    const claims: string -> bool

    /** Every line handled so far. */
    ghost var history: seq<Line>

    function View(): State
      reads this
    {
      State(pending, session, itemFormat, cliVersion)
    }

    ghost predicate Valid()
      reads this
    {
      View() == StateAfter(history)
    }

    constructor (claims: string -> bool)
      ensures Valid() && history == [] && this.claims == claims
    {
      pending, session, itemFormat, cliVersion := map[], None, false, None;
      this.claims := claims;
      history := [];
    }

    /** Tracks the latest version and sets the item-format latch. */
    method Observe(native: Value)
      modifies this`itemFormat, this`cliVersion
      ensures itemFormat == (old(itemFormat) || Triggers(native))
      ensures cliVersion == if OfferedVersion(native).Some? then OfferedVersion(native) else old(cliVersion)
    {
      var top := GetStr(native, "type");
      if top == None {
        return;
      }
      if top.value == "session_meta" {
        var version := PayloadStr(native, "cli_version");
        if version.Some? {
          cliVersion := version;
          if !itemFormat && SupportsItems(version.value) {
            itemFormat := true;
          }
        }
        return;
      }
      if top.value == "event_msg" && !itemFormat && PayloadStr(native, "type") == Some("item_completed") {
        itemFormat := true;
      }
    }

    /** Remembers an exec call, or forgets the one that an output answers. */
    method Remember(native: Value)
      modifies this`pending
      ensures pending == NextPending(old(pending), native)
    {
      var call, answered := ExecCall(native), AnsweredCall(native);
      if call.Some? {
        var command := ExtractCmd.ExtractCommand(call.value.1);
        pending := pending[call.value.0 := command];
      } else if answered.Some? {
        pending := pending - {answered.value};
      }
    }

    /** Takes in what a line says about the stream before the line is translated. */
    method Learn(hint: string, native: Value, draw: nat) returns (ctx: Context)
      modifies this`session, this`itemFormat, this`cliVersion
      ensures View().(pending := NextPending(pending, native)) == Next(old(View()), native)
      ensures ctx == ContextOf(old(View()), Line(hint, native), draw)
    {
      if session.None? {
        session := OfferedSession(native);
      }
      Observe(native);
      var known := if session.Some? then session.value else hint;
      var version := if cliVersion.Some? then cliVersion.value else "unknown";
      ctx := Context(known, itemFormat, version, draw);
    }

    /** Handles one line; `draw` stands for the randomness behind a fresh id. The outcome and the
        new memory are functions of the whole stream so far. */
    method Normalize(hint: string, native: Value, draw: nat) returns (out: Outcome)
      requires Valid()
      modifies this
      ensures Valid() && history == old(history) + [Line(hint, native)]
      ensures out == Output(StateAfter(old(history)), Line(hint, native), draw, claims)
    {
      StateAfterAppend(history, Line(hint, native));
      var ctx := Learn(hint, native, draw);
      out := Translate(native, pending, ctx, claims);
      Remember(native);
      history := history + [Line(hint, native)];
    }
  }
}
