/** The extractor accepts exactly the printed snippets, and reads the command that was printed. */
module ExtractLaws {
  import opened Prelude
  import opened Text
  import opened ToolProps
  import opened ExtractCmd

  // ----- the properties around the command

  lemma {:induction false} TidyAccepted(ps: Props)
    requires ValidProps(ps)
    ensures Accepts(PrintTidy(ps))
  {
    var bare := ps.(first := ps.first.(lead := ""));
    assert PrintTidy(bare) == PrintTidy(ps);
    NothingAdded(PrintTidy(ps));
    PrintedAccepted(bare);
  }

  lemma {:induction false} BeforeAccepted(before: Option<Props>, gap: string)
    requires Blank(gap) && (before.Some? ==> ValidProps(before.value))
    ensures PropsBeforeOk(PrintBefore(before) + gap)
  {
    match before {
      case None =>
        NothingAdded(gap);
        NothingAdded("");
        TrimIs("", "", gap);
      case Some(ps) =>
        var tidy := PrintTidy(ps);
        TidyBegins(ps);
        TidyAccepted(ps);
        Assoc(ps.first.lead, tidy, ",");
        TrimIs(ps.first.lead, tidy + ",", gap);
        assert (tidy + ",")[..|tidy|] == tidy;
    }
  }

  lemma {:induction false} ParseBefore(text: string) returns (before: Option<Props>, gap: string)
    requires PropsBeforeOk(text)
    ensures Blank(gap) && (before.Some? ==> ValidProps(before.value))
    ensures text == PrintBefore(before) + gap
  {
    var left, right := TrimParts(text);
    var inner := Trim(text);
    if inner == "" {
      before, gap := None, text;
      BlankAppend(left, right);
      NothingAdded(left);
      NothingAdded(text);
    } else {
      var list := inner[..|inner| - 1];
      Around(inner, |inner| - 1);
      NothingAdded(",");
      var ps := PropsOf(list);
      AddLeadPrint(left, ps);
      before, gap := Some(AddLead(left, ps)), right;
      Assoc(left, list, ",");
    }
  }

  lemma {:induction false} AfterAccepted(gap: string, after: Option<Props>)
    requires Blank(gap) && (after.Some? ==> ValidProps(after.value))
    ensures PropsAfterOk(gap + PrintAfter(after))
  {
    match after {
      case None =>
        NothingAdded(gap);
        TrimIs(gap, "", "");
      case Some(ps) =>
        var bare, trail := SetTrail(ps, ""), Trail(ps);
        TrailIsBlank(ps);
        SetTrailPrint(ps, trail);
        SetTrailPrint(ps, "");
        TidyEnds(ps);
        PrintedAccepted(bare);
        var list := PrintProps(bare);
        Assoc(ps.first.lead, PrintTidy(bare), trail);
        assert !IsWhitespace(list[|list| - 1]);
        TrimIs(gap, "," + list, trail);
        Assoc(",", list, trail);
        Assoc(gap, "," + list, trail);
        assert ("," + list)[1..] == list;
    }
  }

  lemma {:induction false} ParseAfter(text: string) returns (gap: string, after: Option<Props>)
    requires PropsAfterOk(text)
    ensures Blank(gap) && (after.Some? ==> ValidProps(after.value))
    ensures text == gap + PrintAfter(after)
  {
    var left, right := TrimParts(text);
    var inner := Trim(text);
    if inner == "" {
      gap, after := text, None;
      BlankAppend(left, right);
      NothingAdded(left);
      NothingAdded(text);
    } else {
      HeadTail(inner);
      var list := inner[1..];
      var ps := PropsOf(list);
      var led := AddTrail(ps, right);
      gap, after := left, Some(led);
      Assoc(",", list, right);
      Assoc(left, inner, right);
    }
  }

  // ----- the opening

  lemma ToolNames(tool: Tool)
    ensures Name(tool) != "" && '(' !in Name(tool)
    ensures OPENING != "" && !IsWhitespace(OPENING[0])
  {
  }

  lemma {:induction false} FindCall(name: string, rest: string)
    requires '(' !in name
    ensures Find(name + ("({" + rest), "({") == Some(|name|)
  {
    var call := name + ("({" + rest);
    assert call[|name|..|name| + 2] == "({";
    forall k: nat | k < |name|
      ensures !OccursAt(call, "({", k)
    {
      assert name[k] in name && (k + 2 <= |call| ==> call[k..k + 2][0] == name[k]);
    }
    FindIs(call, "({", |name|);
  }

  lemma {:induction false} HeadAccepted(h: Head, text: string)
    requires ValidHead(h) && text == PrintHead(h)
    ensures HeadOk(text, Key(h.tool))
  {
    var props := PrintBefore(h.before) + h.gap;
    var call := Name(h.tool) + ("({" + props);
    ToolNames(h.tool);
    TrimStartIs(h.lead, OPENING + call);
    assert (OPENING + call)[|OPENING|..] == call;
    BeforeAccepted(h.before, h.gap);
    CallAccepted(h.tool, props, call);
  }

  lemma CallAccepted(tool: Tool, props: string, call: string)
    requires PropsBeforeOk(props) && call == Name(tool) + ("({" + props)
    ensures CallOk(call, Key(tool))
  {
    var name := Name(tool);
    ToolNames(tool);
    FindCall(name, props);
    assert call[..|name|] == name && call[|name| + 2..] == props;
  }

  lemma {:induction false} ParseCall(call: string, key: string) returns (tool: Tool, before: Option<Props>, gap: string)
    requires CallOk(call, key)
    ensures Blank(gap) && (before.Some? ==> ValidProps(before.value)) && Key(tool) == key
    ensures call == Name(tool) + ("({" + (PrintBefore(before) + gap))
  {
    var i := Find(call, "({").value;
    before, gap := ParseBefore(call[i + 2..]);
    tool := if Matches(call[..i], key, ShellCommand) then ShellCommand else ExecCommand;
    CutOut(call, "({", i);
  }

  lemma {:induction false} ParseHead(text: string, key: string) returns (h: Head)
    requires HeadOk(text, key)
    ensures ValidHead(h) && PrintHead(h) == text && Key(h.tool) == key
  {
    var lead := StartBlank(text);
    var head := TrimStart(text);
    Halves(head, |OPENING|);
    var tool, before, gap := ParseCall(head[|OPENING|..], key);
    h := Head(lead, tool, before, gap);
  }

  // ----- the closing

  /** The third, second and last character from the end tell the four endings apart. */
  lemma EndingChars(j: nat)
    requires j < |ENDINGS|
    ensures var e := ENDINGS[j]; var n := |e|;
            && n >= 3 && e[n - 1] == (if j == 0 || j == 2 then ')' else ';')
            && e[n - 2] == (if j == 0 then 'r' else if j == 2 then 't' else ')')
            && (j == 1 ==> e[n - 3] == 'r') && (j == 3 ==> e[n - 3] == 't')
  {
    assert j == 0 || j == 1 || j == 2 || j == 3;
  }

  lemma SuffixChar(x: string, e: string, f: string, d: nat)
    requires EndsWith(x + e, f) && 1 <= d <= |e| && d <= |f|
    ensures e[|e| - d] == f[|f| - d]
  {
    var s := x + e;
    assert s[|s| - |f|..][|f| - d] == s[|s| - d];
  }

  lemma {:induction false} EndingsDiffer(x: string, e: string, j: nat, f: string, k: nat)
    requires j < |ENDINGS| && k < |ENDINGS| && e == ENDINGS[j] && f == ENDINGS[k]
    requires EndsWith(x + e, f)
    ensures j == k
  {
    EndingChars(j);
    EndingChars(k);
    SuffixChar(x, e, f, 1);
    SuffixChar(x, e, f, 2);
    SuffixChar(x, e, f, 3);
  }

  lemma EndingsEndVisibly(j: nat)
    requires j < |ENDINGS|
    ensures ENDINGS[j] != "" && !IsWhitespace(ENDINGS[j][|ENDINGS[j]| - 1])
  {
    assert j == 0 || j == 1 || j == 2 || j == 3;
  }

  lemma {:induction false} TailAccepted(t: Tail, text: string)
    requires ValidTail(t) && text == PrintTail(t)
    ensures TailOk(text)
  {
    var props, e := t.gap + PrintAfter(t.after), ENDINGS[t.ending];
    EndingsEndVisibly(t.ending);
    Assoc(props, e, t.trail);
    TrimEndIs(props + e, t.trail);
    var tail := props + e;
    assert tail[|tail| - |e|..] == e && tail[..|tail| - |e|] == props;
    assert EndsWith(tail, e);
    var k := EndingOf(tail, 0).value;
    EndingsDiffer(props, e, t.ending, ENDINGS[k], k);
    AfterAccepted(t.gap, t.after);
  }

  lemma {:induction false} ParseTail(text: string) returns (t: Tail)
    requires TailOk(text)
    ensures ValidTail(t) && PrintTail(t) == text
  {
    TrimEndCuts(text);
    var tail := TrimEnd(text);
    Halves(text, |tail|);
    var i := EndingOf(tail, 0).value;
    var props := tail[..|tail| - |ENDINGS[i]|];
    Halves(tail, |props|);
    var gap, after := ParseAfter(props);
    t := Tail(gap, after, i, text[|tail|..]);
    Assoc(props, ENDINGS[i], t.trail);
  }

  // ----- the whole snippet

  lemma KeysDoNotOverlap(tool: Tool)
    ensures Key(tool) != "" && Key(tool)[0] !in Key(tool)[1..]
  {
  }

  /** The only occurrence of an argument key is where the snippet printed it. */
  lemma {:induction false} KeyFound(input: string, tool: Tool, i: nat)
    requires KeyCount(input) == 1 && OccursAt(input, Key(tool), i)
    ensures Command(input) == CommandAt(input, i, Key(tool))
  {
    CountZero(input, "cmd:");
    CountZero(input, "command:");
    KeysDoNotOverlap(tool);
    CountedOnce(input, Key(tool), i);
  }

  lemma {:induction false} HeadEnds(h: Head)
    requires ValidHead(h)
    ensures OpensProperty(PrintHead(h))
  {
    var core := h.lead + (OPENING + (Name(h.tool) + ("({" + PrintBefore(h.before))));
    assert PrintHead(h) == core + h.gap;
    assert core[|core| - 1] == ("({" + PrintBefore(h.before))[|PrintBefore(h.before)| + 1];
    TrimEndIs(core, h.gap);
  }

  lemma {:induction false} QuotedPrinted(input: string, h: string, key: string, gap: string, quote: char,
                                         body: string, t: string)
    requires input == h + (key + (gap + ([quote] + (body + ([quote] + t)))))
    requires Blank(gap) && IsQuote(quote) && Unescape(body, quote).Some?
    requires OpensProperty(h)
    ensures OccursAt(input, key, |h|) && input[..|h|] == h
    ensures QuotedAt(input, |h|, key) == Some((Unescape(body, quote).value, |input| - |t|))
    ensures |t| <= |input| && input[|input| - |t|..] == t
  {
    var rest := [quote] + (body + ([quote] + t));
    AfterPrefix(h, key + (gap + rest));
    assert input[|h|..|h| + |key|] == key && input[|h| + |key|..] == gap + rest && input[|input| - |t|..] == t;
    TrimStartIs(gap, rest);
    AfterPrefix([quote], body + ([quote] + t));
    ScanPrinted(body, quote, t);
  }

  lemma {:induction false} SingleCallAround(input: string, start: nat, end: nat, h: Head, t: Tail)
    requires ValidHead(h) && start <= |input| && input[..start] == PrintHead(h)
    requires ValidTail(t) && end <= |input| && input[end..] == PrintTail(t)
    ensures IsSingleToolCall(input, start, end, Key(h.tool))
  {
    HeadAccepted(h, input[..start]);
    TailAccepted(t, input[end..]);
  }

  lemma {:induction false} CommandIs(input: string, start: nat, key: string, command: string, end: nat)
    requires OccursAt(input, key, start) && end <= |input|
    requires QuotedAt(input, start, key) == Some((command, end)) && IsSingleToolCall(input, start, end, key)
    ensures CommandAt(input, start, key) == Some(command)
  {
  }

  /** Every snippet of the grammar whose argument key is the only one in the text is read back as
      the command that was quoted in it. */
  lemma {:induction false} PrintedIsExtracted(s: Snippet)
    requires ValidSnippet(s) && KeyCount(Print(s)) == 1
    ensures Command(Print(s)) == Unescape(s.body, s.quote)
  {
    var input, h, t, key := Print(s), PrintHead(s.head), PrintTail(s.tail), Key(s.head.tool);
    HeadEnds(s.head);
    QuotedPrinted(input, h, key, s.gap, s.quote, s.body, t);
    SingleCallAround(input, |h|, |input| - |t|, s.head, s.tail);
    CommandIs(input, |h|, key, Unescape(s.body, s.quote).value, |input| - |t|);
    KeyFound(input, s.head.tool, |h|);
  }

  /** In particular, quoting any command the usual way and extracting it gives the command back. */
  lemma ExtractOfQuoted(s: Snippet, command: string)
    requires ValidHead(s.head) && Blank(s.gap) && IsQuote(s.quote) && ValidTail(s.tail)
    requires s.body == Escape(command, s.quote) && KeyCount(Print(s)) == 1
    ensures Extract(Print(s)) == command
  {
    UnescapeEscape(command, s.quote);
    PrintedIsExtracted(s);
  }

  lemma {:induction false} ParseRest(rest: string) returns (body: string, command: string, i: nat)
    requires rest != "" && IsQuote(rest[0]) && Scan(rest[1..], rest[0]).Some?
    ensures Scan(rest[1..], rest[0]) == Some((command, i)) && 1 + i < |rest|
    ensures Unescape(body, rest[0]) == Some(command)
    ensures rest == [rest[0]] + (body + ([rest[0]] + rest[1..][i + 1..]))
  {
    var inner := rest[1..];
    HeadTail(rest);
    ScannedBody(inner, rest[0]);
    command, i := Scan(inner, rest[0]).value.0, Scan(inner, rest[0]).value.1;
    body := inner[..i];
    Around(inner, i);
  }

  lemma {:induction false} ParseQuotedArgument(input: string, start: nat, key: string)
    returns (gap: string, quote: char, body: string, command: string, end: nat)
    requires OccursAt(input, key, start) && QuotedAt(input, start, key).Some?
    ensures QuotedAt(input, start, key) == Some((command, end)) && end <= |input|
    ensures Blank(gap) && IsQuote(quote) && Unescape(body, quote) == Some(command)
    ensures input == input[..start] + (key + (gap + ([quote] + (body + ([quote] + input[end..])))))
  {
    var after := input[start + |key|..];
    CutOut(input, key, start);
    gap := StartBlank(after);
    TrimStartCuts(after);
    var rest := TrimStart(after);
    var i;
    body, command, i := ParseRest(rest);
    quote, end := rest[0], |input| - |rest| + 1 + i + 1;
    SuffixOf(input, start + |key|, after, gap, rest, i);
  }

  lemma SuffixOf(input: string, k: nat, after: string, gap: string, rest: string, i: nat)
    requires k <= |input| && input[k..] == after == gap + rest && 1 + i < |rest|
    ensures rest[1..][i + 1..] == input[|input| - |rest| + 1 + i + 1..]
  {
    assert input[k + |gap|..] == rest;
  }

  /** Whenever a command is extracted, the whole text is one snippet of the grammar around it: one call
      of one of the two shell tools with its own key, known simple properties, nothing else. */
  lemma {:induction false} ExtractedWasPrinted(input: string) returns (s: Snippet)
    requires Command(input).Some?
    ensures ValidSnippet(s) && Print(s) == input && KeyCount(input) == 1
    ensures Unescape(s.body, s.quote) == Command(input)
  {
    var key := if Find(input, "cmd:").Some? then "cmd:" else "command:";
    var start := Find(input, key).value;
    var gap, quote, body, command, end := ParseQuotedArgument(input, start, key);
    var h := ParseHead(input[..start], key);
    var t := ParseTail(input[end..]);
    s := Snippet(h, gap, quote, body, t);
  }

  lemma {:induction false} UnescapeShorter(body: string, quote: char)
    ensures Unescape(body, quote).Some? ==> |Unescape(body, quote).value| <= |body|
  {
    if body != "" {
      if body[0] == '\\' {
        if |body| >= 2 {
          UnescapeShorter(body[2..], quote);
        }
      } else {
        UnescapeShorter(body[1..], quote);
      }
    }
  }

  /** The recorded command differs from the raw text exactly when the text is such a snippet with a single
      argument key, and then it is the quoted command and nothing else. */
  lemma ExtractsIffSnippet(input: string)
    ensures Extract(input) != input <==>
            KeyCount(input) == 1 && exists s: Snippet :: ValidSnippet(s) && Print(s) == input
    ensures forall s: Snippet | ValidSnippet(s) && Print(s) == input && KeyCount(input) == 1 ::
              Some(Extract(input)) == Unescape(s.body, s.quote)
  {
    if Command(input).Some? {
      var s := ExtractedWasPrinted(input);
      UnescapeShorter(s.body, s.quote);
      assert |input| > |s.body|;
    }
    forall s: Snippet | ValidSnippet(s) && Print(s) == input && KeyCount(input) == 1
      ensures Command(input) == Unescape(s.body, s.quote)
    {
      PrintedIsExtracted(s);
    }
  }
}
