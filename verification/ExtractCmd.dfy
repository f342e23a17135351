/** Reading the shell command out of a one-call tool snippet, and refusing everything else. */
module ExtractCmd {
  import opened Prelude
  import opened Text
  import opened ToolProps

  // ----- the grammar of the one accepted snippet

  /** The two shell tools, each with its own argument key. */
  datatype Tool = ShellCommand | ExecCommand

  function Name(tool: Tool): string {
    if tool.ShellCommand? then "shell_command" else "exec_command"
  }

  function Key(tool: Tool): string {
    if tool.ShellCommand? then "command:" else "cmd:"
  }

  const OPENING := "const r = await tools."

  const ENDINGS: seq<string> := ["}); text(r)", "}); text(r);", "}); text(r.output)", "}); text(r.output);"]

  /** Everything before the argument key. */
  datatype Head = Head(lead: string, tool: Tool, before: Option<Props>, gap: string)

  /** Everything after the closing quote of the command. */
  datatype Tail = Tail(gap: string, after: Option<Props>, ending: nat, trail: string)

  datatype Snippet = Snippet(head: Head, gap: string, quote: char, body: string, tail: Tail)

  predicate ValidHead(h: Head) {
    Blank(h.lead) && Blank(h.gap) && (h.before.Some? ==> ValidProps(h.before.value))
  }

  predicate ValidTail(t: Tail) {
    Blank(t.gap) && Blank(t.trail) && t.ending < |ENDINGS| && (t.after.Some? ==> ValidProps(t.after.value))
  }

  /** The command behind a quoted body: only the three self-escapes are understood, and the quote
      itself must be escaped. */
  function Unescape(body: string, quote: char): Option<string> {
    if body == "" then Some("")
    else if body[0] == '\\' then
      if |body| < 2 || !IsSelfEscape(body[1]) then None
      else Prepend(body[1], Unescape(body[2..], quote))
    else if body[0] == quote then None
    else Prepend(body[0], Unescape(body[1..], quote))
  }

  function Prepend(c: char, s: Option<string>): Option<string> {
    match s
    case Some(t) => Some([c] + t)
    case None => None
  }

  predicate IsSelfEscape(c: char) {
    c == '\\' || c == '"' || c == '\''
  }

  predicate ValidSnippet(s: Snippet) {
    ValidHead(s.head) && Blank(s.gap) && IsQuote(s.quote) && Unescape(s.body, s.quote).Some? && ValidTail(s.tail)
  }

  function PrintBefore(before: Option<Props>): string {
    if before.Some? then PrintProps(before.value) + "," else ""
  }

  function PrintAfter(after: Option<Props>): string {
    if after.Some? then "," + PrintProps(after.value) else ""
  }

  function PrintHead(h: Head): string {
    h.lead + (OPENING + (Name(h.tool) + ("({" + (PrintBefore(h.before) + h.gap))))
  }

  function PrintTail(t: Tail): string
    requires t.ending < |ENDINGS|
  {
    (t.gap + PrintAfter(t.after)) + (ENDINGS[t.ending] + t.trail)
  }

  function Print(s: Snippet): string
    requires s.tail.ending < |ENDINGS|
  {
    PrintHead(s.head) + (Key(s.head.tool) + (s.gap + ([s.quote] + (s.body + ([s.quote] + PrintTail(s.tail))))))
  }

  /** How often either argument key occurs in a text. */
  function KeyCount(s: string): nat {
    Count(s, "cmd:") + Count(s, "command:")
  }

  // ----- the extractor

  /** The decoded text up to the first unescaped quote, and where that quote is. */
  function Scan(s: string, quote: char): Option<(string, nat)> {
    if s == "" then None
    else if s[0] == '\\' then
      if |s| < 2 || !IsSelfEscape(s[1]) then None else Shifted(s[1], 2, Scan(s[2..], quote))
    else if s[0] == quote then Some(("", 0))
    else Shifted(s[0], 1, Scan(s[1..], quote))
  }

  function Shifted(c: char, n: nat, r: Option<(string, nat)>): Option<(string, nat)> {
    match r
    case Some((t, i)) => Some(([c] + t, i + n))
    case None => None
  }

  predicate PropsBeforeOk(text: string) {
    var before := Trim(text);
    before == "" || (before[|before| - 1] == ',' && Accepts(before[..|before| - 1]))
  }

  predicate PropsAfterOk(text: string) {
    var after := Trim(text);
    after == "" || (after[0] == ',' && Accepts(after[1..]))
  }

  /** A tool with its own argument key; any other tool or a mismatched key is refused. */
  predicate Matches(name: string, key: string, tool: Tool) {
    name == Name(tool) && key == Key(tool)
  }

  /** `call` is a call of the tool that takes `key`, up to that key. */
  predicate CallOk(call: string, key: string) {
    match Find(call, "({")
    case None => false
    case Some(i) =>
      && (Matches(call[..i], key, ShellCommand) || Matches(call[..i], key, ExecCommand))
      && PropsBeforeOk(call[i + 2..])
  }

  predicate HeadOk(text: string, key: string) {
    var head := TrimStart(text);
    OPENING <= head && CallOk(head[|OPENING|..], key)
  }

  predicate EndsWith(s: string, suffix: string) {
    |suffix| <= |s| && s[|s| - |suffix|..] == suffix
  }

  /** The first accepted ending, in the order they are tried. */
  function EndingOf(s: string, i: nat): (r: Option<nat>)
    requires i <= |ENDINGS|
    ensures r.Some? ==> i <= r.value < |ENDINGS| && EndsWith(s, ENDINGS[r.value])
    ensures r.None? ==> forall k | i <= k < |ENDINGS| :: !EndsWith(s, ENDINGS[k])
    decreases |ENDINGS| - i
  {
    if i == |ENDINGS| then None else if EndsWith(s, ENDINGS[i]) then Some(i) else EndingOf(s, i + 1)
  }

  predicate TailOk(text: string) {
    var tail := TrimEnd(text);
    match EndingOf(tail, 0)
    case None => false
    case Some(i) => PropsAfterOk(tail[..|tail| - |ENDINGS[i]|])
  }

  predicate IsSingleToolCall(input: string, keyStart: nat, commandEnd: nat, key: string)
    requires keyStart <= |input| && commandEnd <= |input|
  {
    HeadOk(input[..keyStart], key) && TailOk(input[commandEnd..])
  }

  /** Text after which a property may begin. */
  predicate OpensProperty(text: string) {
    var p := TrimEnd(text);
    p != "" && (p[|p| - 1] == '{' || p[|p| - 1] == ',')
  }

  /** The quoted argument behind one occurrence of `key`, decoded, and where its closing quote ends. */
  function QuotedAt(input: string, start: nat, key: string): (r: Option<(string, nat)>)
    requires OccursAt(input, key, start)
    ensures r.Some? ==> r.value.1 <= |input|
  {
    var after := input[start + |key|..];
    TrimStartCuts(after);
    var rest := TrimStart(after);
    if !OpensProperty(input[..start]) then None
    else if rest == "" || !IsQuote(rest[0]) then None
    else
      ScanInRange(rest[1..], rest[0]);
      match Scan(rest[1..], rest[0])
      case None => None
      case Some((command, i)) => Some((command, |input| - |rest| + 1 + i + 1))
  }

  /** The command behind one occurrence of `key`, when the text is one call around it. */
  function CommandAt(input: string, start: nat, key: string): Option<string>
    requires OccursAt(input, key, start)
  {
    match QuotedAt(input, start, key)
    case None => None
    case Some((command, commandEnd)) =>
      if IsSingleToolCall(input, start, commandEnd, key) then Some(command) else None
  }

  lemma {:induction false} ScanInRange(s: string, quote: char)
    ensures Scan(s, quote).Some? ==> Scan(s, quote).value.1 < |s|
  {
    if s != "" {
      if s[0] == '\\' {
        if |s| >= 2 {
          ScanInRange(s[2..], quote);
        }
      } else {
        ScanInRange(s[1..], quote);
      }
    }
  }

  /** The command in a snippet, or nothing when the snippet is not understood. */
  function Command(input: string): Option<string> {
    if KeyCount(input) != 1 then None
    else
      match Find(input, "cmd:")
      case Some(i) => CommandAt(input, i, "cmd:")
      case None =>
        match Find(input, "command:")
        case Some(i) => CommandAt(input, i, "command:")
        case None => None
  }

  /** What is recorded as the command: the raw text when no command is understood. */
  function Extract(input: string): string {
    match Command(input)
    case Some(command) => command
    case None => input
  }

  // ----- its loops

  /** A scan continued after `n` characters that decoded to `done`. */
  function Continued(done: string, n: nat, r: Option<(string, nat)>): Option<(string, nat)> {
    match r
    case Some((t, i)) => Some((done + t, n + i))
    case None => None
  }

  lemma ContinueOne(done: string, n: nat, c: char, k: nat, r: Option<(string, nat)>)
    ensures Continued(done, n, Shifted(c, k, r)) == Continued(done + [c], n + k, r)
  {
    if r.Some? {
      Assoc(done, [c], r.value.0);
    }
  }

  method ScanLiteral(body: string, quote: char) returns (r: Option<(string, nat)>)
    ensures r == Scan(body, quote)
  {
    var result, i := "", 0;
    assert body[0..] == body;
    assert Scan(body, quote) == Continued("", 0, Scan(body, quote)) by {
      if Scan(body, quote).Some? {
        NothingAdded(Scan(body, quote).value.0);
      }
    }
    while i < |body|
      invariant 0 <= i <= |body|
      invariant Scan(body, quote) == Continued(result, i, Scan(body[i..], quote))
    {
      var c, left := body[i], body[i..];
      if c == '\\' {
        if i + 1 == |body| || !IsSelfEscape(body[i + 1]) {
          return None;
        }
        assert left[2..] == body[i + 2..];
        ContinueOne(result, i, body[i + 1], 2, Scan(body[i + 2..], quote));
        result, i := result + [body[i + 1]], i + 2;
      } else if c == quote {
        NothingAdded(result);
        return Some((result, i));
      } else {
        assert left[1..] == body[i + 1..];
        ContinueOne(result, i, c, 1, Scan(body[i + 1..], quote));
        result, i := result + [c], i + 1;
      }
    }
    return None;
  }

  method ReadQuoted(input: string, start: nat, key: string) returns (r: Option<(string, nat)>)
    requires OccursAt(input, key, start)
    ensures r == QuotedAt(input, start, key)
  {
    if !OpensProperty(input[..start]) {
      return None;
    }
    var rest := TrimStart(input[start + |key|..]);
    if rest == "" || !IsQuote(rest[0]) {
      return None;
    }
    var scanned := ScanLiteral(rest[1..], rest[0]);
    if scanned.None? {
      return None;
    }
    TrimStartCuts(input[start + |key|..]);
    return Some((scanned.value.0, |input| - |rest| + 1 + scanned.value.1 + 1));
  }

  lemma OneKeyOnly(input: string)
    requires KeyCount(input) == 1
    ensures Find(input, "cmd:").None? <==> Find(input, "command:").Some?
  {
    CountZero(input, "cmd:");
    CountZero(input, "command:");
  }

  /** With one key in the text, the answer is decided where that key is found. */
  lemma DecidedAtKey(input: string, key: string, i: nat)
    requires KeyCount(input) == 1 && (key == "cmd:" || key == "command:") && Find(input, key) == Some(i)
    ensures Command(input) == CommandAt(input, i, key)
  {
    OneKeyOnly(input);
  }

  method ExtractCommand(input: string) returns (r: string)
    ensures r == Extract(input)
  {
    if KeyCount(input) != 1 {
      return input;
    }
    ghost var decided := false;
    var keys := ["cmd:", "command:"];
    for k := 0 to |keys|
      invariant decided ==> Extract(input) == input
      invariant forall j | 0 <= j < k :: Find(input, keys[j]).Some? ==> decided
    {
      var found := Find(input, keys[k]);
      if found.Some? {
        DecidedAtKey(input, keys[k], found.value);
        var quoted := ReadQuoted(input, found.value, keys[k]);
        if quoted.Some? {
          return if IsSingleToolCall(input, found.value, quoted.value.1, keys[k]) then quoted.value.0 else input;
        }
        decided := true;
      }
    }
    OneKeyOnly(input);
    assert Find(input, keys[0]).Some? || Find(input, keys[1]).Some?;
    return input;
  }

  // ----- quoted bodies

  /** Scanning finds a well-formed body and stops right behind it. */
  lemma {:induction false} ScanPrinted(body: string, quote: char, rest: string)
    requires IsQuote(quote) && Unescape(body, quote).Some?
    ensures Scan(body + ([quote] + rest), quote) == Some((Unescape(body, quote).value, |body|))
  {
    var s := body + ([quote] + rest);
    if body != "" {
      if body[0] == '\\' {
        assert s[2..] == body[2..] + ([quote] + rest);
        ScanPrinted(body[2..], quote, rest);
      } else {
        assert s[1..] == body[1..] + ([quote] + rest);
        ScanPrinted(body[1..], quote, rest);
      }
    }
  }

  lemma {:induction false} ScannedBody(s: string, quote: char)
    requires IsQuote(quote) && Scan(s, quote).Some?
    ensures var (command, i) := Scan(s, quote).value;
            i < |s| && s[i] == quote && Unescape(s[..i], quote) == Some(command)
  {
    var (command, i) := Scan(s, quote).value;
    if s[0] == '\\' {
      ScannedBody(s[2..], quote);
      assert s[..i][2..] == s[2..][..i - 2];
    } else if s[0] != quote {
      ScannedBody(s[1..], quote);
      assert s[..i][1..] == s[1..][..i - 1];
    }
  }

  /** The usual way to write a command inside quotes. */
  function Escape(command: string, quote: char): string {
    if command == "" then ""
    else (if command[0] == '\\' || command[0] == quote then ['\\', command[0]] else [command[0]])
         + Escape(command[1..], quote)
  }

  lemma {:induction false} UnescapeEscape(command: string, quote: char)
    requires IsQuote(quote)
    ensures Unescape(Escape(command, quote), quote) == Some(command)
  {
    if command != "" {
      UnescapeEscape(command[1..], quote);
      var rest := Escape(command[1..], quote);
      var first := if command[0] == '\\' || command[0] == quote then ['\\', command[0]] else [command[0]];
      assert (first + rest)[|first|..] == rest;
      HeadTail(command);
    }
  }
}
