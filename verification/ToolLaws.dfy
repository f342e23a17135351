/** What the strict checker and the command extractor accept, in written-out names, values and texts. */
module ToolLaws {
  import opened Prelude
  import opened Text
  import opened ToolProps
  import opened ExtractCmd
  import ExtractLaws

  // ----- one option

  /** The eight option names. */
  predicate IsOption(name: string) {
    || name == "workdir" || name == "timeout_ms" || name == "yield_time_ms" || name == "max_output_tokens"
    || name == "sandbox_permissions" || name == "justification" || name == "tty" || name == "login"
  }

  lemma OptionsAreKnown(name: string)
    ensures IsOption(name) <==> name in KNOWN_NAMES
  {
    if name in KNOWN_NAMES {
      var i :| 0 <= i < |KNOWN_NAMES| && name == KNOWN_NAMES[i];
      assert i == 0 || i == 1 || i == 2 || i == 3 || i == 4 || i == 5 || i == 6 || i == 7;
    } else {
      assert forall i | 0 <= i < |KNOWN_NAMES| :: name != KNOWN_NAMES[i];
      assert name != KNOWN_NAMES[0] && name != KNOWN_NAMES[1] && name != KNOWN_NAMES[2] && name != KNOWN_NAMES[3];
      assert name != KNOWN_NAMES[4] && name != KNOWN_NAMES[5] && name != KNOWN_NAMES[6] && name != KNOWN_NAMES[7];
    }
  }

  /** A value as it stands between a colon and the next comma: a bare word, or a quoted text. */
  predicate IsWord(v: string) {
    ',' !in v && '"' !in v && '\'' !in v && forall i | 0 <= i < |v| :: !IsWhitespace(v[i])
  }

  predicate IsQuotedText(v: string) {
    |v| >= 2 && (v[0] == '"' || v[0] == '\'') && v[|v| - 1] == v[0] && v[0] !in v[1..|v| - 1]
  }

  /** The values the checker takes: `true`, `false`, a run of decimal digits, a quoted text without a
      backslash. */
  predicate IsValue(v: string) {
    || v == "true" || v == "false"
    || (v != "" && forall i | 0 <= i < |v| :: '0' <= v[i] <= '9')
    || (IsQuotedText(v) && '\\' !in v)
  }

  /** The value is read whole when it is one of those, and refused otherwise. */
  lemma {:induction false} ReadsValue(v: string, more: string)
    requires IsWord(v) || IsQuotedText(v)
    requires more == "" || more[0] == ','
    ensures TrimStart(v + more) == v + more
    ensures AfterLiteral(v + more) == if IsValue(v) then Some(more) else None
  {
    TrimStartIs("", v + more);
    NothingAdded(v + more);
    if IsQuotedText(v) {
      ReadsQuoted(v, v[1..|v| - 1], more);
    } else {
      ReadsWord(v, more);
    }
  }

  lemma {:induction false} ReadsQuoted(v: string, body: string, more: string)
    requires IsQuotedText(v) && body == v[1..|v| - 1]
    ensures AfterLiteral(v + more) == if IsValue(v) then Some(more) else None
  {
    var rest := (v + more)[1..];
    assert rest == body + ([v[0]] + more);
    IndexOfIs(body, v[0], [v[0]] + more);
    assert rest[..|body|] == body && rest[|body| + 1..] == more;
    assert v == [v[0]] + body + [v[0]];
    assert '\\' in v <==> '\\' in body;
    assert v[0] != 't' && v[0] != 'f';
  }

  lemma {:induction false} ReadsWord(v: string, more: string)
    requires IsWord(v) && (more == "" || more[0] == ',')
    ensures AfterLiteral(v + more) == if IsValue(v) then Some(more) else None
  {
    IndexOfIs(v, ',', more);
    AfterPrefix(v, more);
    TrimIs("", v, "");
    assert "" + v + "" == v;
    assert v != "" ==> v[0] in v;
    assert !IsQuotedText(v);
  }

  /** One `name: value` pair followed by a comma or nothing is consumed exactly when the name is an option
      and the value is one of those. */
  lemma {:induction false} ReadsPair(name: string, v: string, more: string)
    requires ':' !in name && (IsWord(v) || IsQuotedText(v)) && (more == "" || more[0] == ',')
    ensures AfterProp(name + (":" + (v + more)))
         == if IsOption(Trim(name)) && IsValue(v) then Some(more) else None
  {
    var rest, after := name + (":" + (v + more)), v + more;
    IndexOfIs(name, ':', ":" + after);
    AfterPrefix(name, ":" + after);
    assert rest[|name| + 1..] == after;
    OptionsAreKnown(Trim(name));
    ReadsValue(v, more);
    TrimStartIs("", more);
    NothingAdded(more);
  }

  /** Without the blanks in front of it a name is still the same name. */
  lemma {:induction false} SameName(name: string)
    ensures Trim(TrimStart(name)) == Trim(name)
    ensures ':' !in name ==> ':' !in TrimStart(name)
  {
    TrimStartCuts(name);
    TrimStartIs("", TrimStart(name));
    NothingAdded(TrimStart(name));
  }

  /** The outer blanks of a text that begins with a name and a colon. */
  lemma {:induction false} TrimsAround(name: string, after: string, end: string)
    requires Blank(end) && (after == "" || !IsWhitespace(after[|after| - 1]))
    ensures Trim(name + (":" + (after + end))) == TrimStart(name) + (":" + after)
  {
    TrimStartCuts(name);
    var gap, t := name[..|name| - |TrimStart(name)|], TrimStart(name);
    var core := t + (":" + after);
    Halves(name, |gap|);
    assert name + (":" + (after + end)) == gap + core + end;
    assert core[0] == if t == "" then ':' else t[0];
    assert core[|core| - 1] == if after == "" then ':' else after[|after| - 1];
    TrimIs(gap, core, end);
  }

  lemma {:induction false} ValueEnds(v: string)
    requires IsWord(v) || IsQuotedText(v)
    ensures v == "" || !IsWhitespace(v[|v| - 1])
  {
  }

  /** A single pair is accepted exactly when its name, without outer blanks, is one of the eight options and
      its value is `true`, `false`, a run of digits or a quoted text without a backslash. */
  lemma {:induction false} AcceptsPairIff(name: string, v: string)
    requires ':' !in name && (IsWord(v) || IsQuotedText(v))
    ensures Accepts(name + (":" + v)) <==> IsOption(Trim(name)) && IsValue(v)
  {
    ValueEnds(v);
    NothingAdded(v);
    TrimsAround(name, v, "");
    SameName(name);
    ReadsPair(TrimStart(name), v, "");
  }

  /** The text without the blanks at its end, and then without those in front, is the trimmed text. */
  lemma {:induction false} TrimEitherWay(s: string)
    ensures TrimStart(TrimEnd(s)) == Trim(s) == Trim(TrimEnd(s))
  {
    var left, right := TrimParts(s);
    var mid := Trim(s);
    if mid == "" {
      BlankAppend(left, right);
      assert s == left + right;
      NothingAdded(s);
      TrimEndIs("", s);
    } else {
      TrimEndIs(left + mid, right);
      TrimStartIs(left, mid);
      TrimEndIs(mid, "");
      NothingAdded(mid);
    }
  }

  /** A pair, a comma and more is accepted exactly when the pair is and the rest is a list of its own. */
  lemma {:induction false} AcceptsListIff(name: string, v: string, rest: string)
    requires ':' !in name && (IsWord(v) || IsQuotedText(v))
    ensures Accepts(name + (":" + (v + ("," + rest))))
       <==> IsOption(Trim(name)) && IsValue(v) && Accepts(rest)
  {
    var e := TrimEnd(rest);
    TrimEndCuts(rest);
    Halves(rest, |e|);
    var end := rest[|e|..];
    Assoc(",", e, end);
    Assoc(v, "," + e, end);
    ValueEnds(v);
    TrimsAround(name, v + ("," + e), end);
    SameName(name);
    ReadsPair(TrimStart(name), v, "," + e);
    AfterPrefix(",", e);
    TrimEitherWay(rest);
  }

  // ----- the snippet

  /** How a call of one of the two shell tools begins, and the key of its command. */
  predicate Opens(head: string, key: string) {
    || (head == "const r = await tools.shell_command({" && key == "command:")
    || (head == "const r = await tools.exec_command({" && key == "cmd:")
  }

  predicate Closes(end: string) {
    end == "}); text(r)" || end == "}); text(r);" || end == "}); text(r.output)" || end == "}); text(r.output);"
  }

  /** Options and a comma, or nothing, in front of the key. */
  predicate OptionsBefore(text: string) {
    Blank(text) || exists i | 0 <= i < |text| :: text[i] == ',' && Accepts(text[..i]) && Blank(text[i + 1..])
  }

  /** A comma and options, or nothing, behind the command. */
  predicate OptionsAfter(text: string) {
    Blank(text) || exists i | 0 <= i < |text| :: text[i] == ',' && Blank(text[..i]) && Accepts(text[i + 1..])
  }

  /** The parts of a snippet, in order. */
  datatype Parts = Parts(
    lead: string, head: string, before: string, key: string, gap: string,
    quote: char, body: string, after: string, end: string, trail: string)

  predicate Written(p: Parts) {
    && Blank(p.lead) && Opens(p.head, p.key) && OptionsBefore(p.before) && Blank(p.gap)
    && (p.quote == '"' || p.quote == '\'') && Unescape(p.body, p.quote).Some?
    && OptionsAfter(p.after) && Closes(p.end) && Blank(p.trail)
  }

  function Front(p: Parts): string {
    p.lead + (p.head + p.before)
  }

  function Back(p: Parts): string {
    p.after + (p.end + p.trail)
  }

  function Joined(p: Parts): string {
    Front(p) + (p.key + (p.gap + ([p.quote] + (p.body + ([p.quote] + Back(p))))))
  }

  lemma OpeningWords(tool: Tool)
    ensures Opens(OPENING + (Name(tool) + "({"), Key(tool))
  {
    if tool.ShellCommand? {
      assert OPENING + (Name(tool) + "({") == "const r = await tools.shell_command({";
    } else {
      assert OPENING + (Name(tool) + "({") == "const r = await tools.exec_command({";
    }
  }

  lemma ToolOf(head: string, key: string) returns (tool: Tool)
    requires Opens(head, key)
    ensures head == OPENING + (Name(tool) + "({") && key == Key(tool)
  {
    tool := if key == "command:" then ShellCommand else ExecCommand;
    OpeningWords(tool);
    assert "command:"[1] != "cmd:"[1];
  }

  lemma ClosingsAreEndings(end: string)
    ensures Closes(end) <==> end in ENDINGS
  {
    if end in ENDINGS {
      var i :| 0 <= i < |ENDINGS| && end == ENDINGS[i];
      assert i == 0 || i == 1 || i == 2 || i == 3;
    } else {
      assert end != ENDINGS[0] && end != ENDINGS[1] && end != ENDINGS[2] && end != ENDINGS[3];
    }
  }

  lemma {:induction false} BeforeIsPrinted(text: string) returns (before: Option<Props>, gap: string)
    requires OptionsBefore(text)
    ensures Blank(gap) && (before.Some? ==> ValidProps(before.value))
    ensures text == PrintBefore(before) + gap
  {
    if Blank(text) {
      before, gap := None, text;
      NothingAdded(text);
    } else {
      var i :| 0 <= i < |text| && text[i] == ',' && Accepts(text[..i]) && Blank(text[i + 1..]);
      var ps := PropsOf(text[..i]);
      before, gap := Some(ps), text[i + 1..];
      Around(text, i);
      Assoc(text[..i], ",", gap);
    }
  }

  lemma {:induction false} AfterIsPrinted(text: string) returns (gap: string, after: Option<Props>)
    requires OptionsAfter(text)
    ensures Blank(gap) && (after.Some? ==> ValidProps(after.value))
    ensures text == gap + PrintAfter(after)
  {
    if Blank(text) {
      gap, after := text, None;
      NothingAdded(text);
    } else {
      var i :| 0 <= i < |text| && text[i] == ',' && Blank(text[..i]) && Accepts(text[i + 1..]);
      var ps := PropsOf(text[i + 1..]);
      gap, after := text[..i], Some(ps);
      Around(text, i);
    }
  }

  lemma CommaAt(left: string, right: string, text: string)
    requires text == left + ("," + right)
    ensures |left| < |text| && text[..|left|] == left && text[|left|] == ',' && text[|left| + 1..] == right
  {
  }

  lemma {:induction false} PrintedBefore(before: Option<Props>, gap: string)
    requires Blank(gap) && (before.Some? ==> ValidProps(before.value))
    ensures OptionsBefore(PrintBefore(before) + gap)
  {
    var text := PrintBefore(before) + gap;
    if before.Some? {
      var printed := PrintProps(before.value);
      PrintedAccepted(before.value);
      Assoc(printed, ",", gap);
      CommaAt(printed, gap, text);
    } else {
      NothingAdded(gap);
    }
  }

  lemma {:induction false} PrintedAfter(gap: string, after: Option<Props>)
    requires Blank(gap) && (after.Some? ==> ValidProps(after.value))
    ensures OptionsAfter(gap + PrintAfter(after))
  {
    var text := gap + PrintAfter(after);
    if after.Some? {
      PrintedAccepted(after.value);
      CommaAt(gap, PrintProps(after.value), text);
    } else {
      NothingAdded(gap);
    }
  }

  lemma {:induction false} FrontIs(lead: string, head: string, tool: Tool, before: string, gap: string)
    requires head == OPENING + (Name(tool) + "({")
    ensures lead + (head + (before + gap)) == lead + (OPENING + (Name(tool) + ("({" + (before + gap))))
  {
    Assoc(OPENING, Name(tool) + "({", before + gap);
    Assoc(Name(tool), "({", before + gap);
  }

  /** Whatever is written this way, with one key in the text, is read as the command in its quotes. */
  lemma {:induction false} ReadsWritten(p: Parts)
    requires Written(p) && KeyCount(Joined(p)) == 1
    ensures Some(Extract(Joined(p))) == Unescape(p.body, p.quote)
  {
    var tool := ToolOf(p.head, p.key);
    var before, gap := BeforeIsPrinted(p.before);
    var afterGap, after := AfterIsPrinted(p.after);
    ClosingsAreEndings(p.end);
    var i :| 0 <= i < |ENDINGS| && p.end == ENDINGS[i];
    var s := Snippet(Head(p.lead, tool, before, gap), p.gap, p.quote, p.body, Tail(afterGap, after, i, p.trail));
    FrontIs(p.lead, p.head, tool, PrintBefore(before), gap);
    assert Print(s) == Joined(p);
    ExtractLaws.PrintedIsExtracted(s);
  }

  /** And nothing else is read as anything but its own raw text. */
  lemma {:induction false} ReadWasWritten(text: string) returns (p: Parts)
    requires Extract(text) != text
    ensures Written(p) && Joined(p) == text && KeyCount(text) == 1
    ensures Unescape(p.body, p.quote) == Some(Extract(text))
  {
    var s := ExtractLaws.ExtractedWasPrinted(text);
    var h, t := s.head, s.tail;
    OpeningWords(h.tool);
    PrintedBefore(h.before, h.gap);
    PrintedAfter(t.gap, t.after);
    var head := OPENING + (Name(h.tool) + "({");
    FrontIs(h.lead, head, h.tool, PrintBefore(h.before), h.gap);
    ClosingsAreEndings(ENDINGS[t.ending]);
    p := Parts(h.lead, head, PrintBefore(h.before) + h.gap, Key(h.tool), s.gap,
               s.quote, s.body, t.gap + PrintAfter(t.after), ENDINGS[t.ending], t.trail);
    assert Print(s) == Joined(p);
  }

  /** In particular: either call, either quote, any command, any of the four endings, nothing else. */
  lemma {:induction false} ReadsCall(
    head: string, key: string, quote: char, command: string, end: string, text: string
  )
    requires Opens(head, key) && Closes(end) && (quote == '"' || quote == '\'')
    requires text == head + (key + ([quote] + (Escape(command, quote) + ([quote] + end))))
    requires KeyCount(text) == 1
    ensures Extract(text) == command
  {
    var p := Parts("", head, "", key, "", quote, Escape(command, quote), "", end, "");
    UnescapeEscape(command, quote);
    assert Front(p) == head && Back(p) == end;
    NothingAdded([quote] + (p.body + ([quote] + end)));
    ReadsWritten(p);
  }

  /** Inside the quotes a command is written as it is, when it has no backslash and no such quote. */
  lemma {:induction false} EscapeOfPlain(command: string, quote: char)
    requires '\\' !in command && quote !in command
    ensures Escape(command, quote) == command
  {
    if command != "" {
      EscapeOfPlain(command[1..], quote);
      HeadTail(command);
    }
  }

  /** A backslash in front of any character but a backslash or a quote is not understood. */
  lemma {:induction false} ForeignEscape(done: string, c: char, rest: string, quote: char)
    requires '\\' !in done && quote !in done && (quote == '"' || quote == '\'')
    requires c != '\\' && c != '"' && c != '\''
    ensures Unescape(done + (['\\', c] + rest), quote) == None
  {
    var body := done + (['\\', c] + rest);
    if done != "" {
      ForeignEscape(done[1..], c, rest, quote);
      assert body[1..] == done[1..] + (['\\', c] + rest);
    }
  }
}
