/** The option properties of a shell tool call, as the strict checker reads them. */
module ToolProps {
  import opened Prelude
  import opened Text

  const KNOWN_NAMES: seq<string> := [
    "workdir", "timeout_ms", "yield_time_ms", "max_output_tokens",
    "sandbox_permissions", "justification", "tty", "login"
  ]

  // ----- the grammar

  datatype Literal = Quoted(quote: char, body: string) | Plain(text: string)

  /** One `name: value` pair with the blanks around its parts. */
  datatype Prop =
    Prop(lead: string, name: string, beforeColon: string, afterColon: string, value: Literal, trail: string)

  /** A non-empty list of pairs. */
  datatype Props = Only(first: Prop) | More(first: Prop, rest: Props)

  predicate IsQuote(c: char) {
    c == '"' || c == '\''
  }

  predicate IsDigits(s: string) {
    s != "" && forall i | 0 <= i < |s| :: '0' <= s[i] <= '9'
  }

  predicate IsPlain(s: string) {
    s == "true" || s == "false" || IsDigits(s)
  }

  predicate ValidLiteral(l: Literal) {
    match l
    case Quoted(q, body) => IsQuote(q) && q !in body && '\\' !in body
    case Plain(text) => IsPlain(text)
  }

  predicate ValidProp(p: Prop) {
    && p.name in KNOWN_NAMES && ValidLiteral(p.value)
    && Blank(p.lead) && Blank(p.beforeColon) && Blank(p.afterColon) && Blank(p.trail)
  }

  predicate ValidProps(ps: Props) {
    ValidProp(ps.first) && (ps.More? ==> ValidProps(ps.rest))
  }

  function PrintLiteral(l: Literal): string {
    match l
    case Quoted(q, body) => [q] + body + [q]
    case Plain(text) => text
  }

  /** The pair from its name on. */
  function PrintCore(p: Prop): string {
    p.name + (p.beforeColon + (":" + (p.afterColon + (PrintLiteral(p.value) + p.trail))))
  }

  function PrintProps(ps: Props): string {
    ps.first.lead + PrintTidy(ps)
  }

  /** The list from its first name on. */
  function PrintTidy(ps: Props): string {
    match ps
    case Only(p) => PrintCore(p)
    case More(p, rest) => PrintCore(p) + ("," + (rest.first.lead + PrintTidy(rest)))
  }

  // ----- the checker

  /** What follows the value a text begins with; nothing when it is not a simple value. */
  function AfterLiteral(value: string): Option<string> {
    if value != "" && IsQuote(value[0]) then
      var body := value[1..];
      var end := IndexOf(body, value[0]);
      if end == |body| || '\\' in body[..end] then None else Some(body[end + 1..])
    else
      var end := IndexOf(value, ',');
      if IsPlain(Trim(value[..end])) then Some(value[end..]) else None
  }

  /** One round of the checker: the text after one pair and the blanks behind it. */
  function AfterProp(rest: string): (r: Option<string>)
    ensures r.Some? ==> |r.value| < |rest|
  {
    var colon := IndexOf(rest, ':');
    if colon == |rest| || Trim(rest[..colon]) !in KNOWN_NAMES then None
    else
      TrimStartCuts(rest[colon + 1..]);
      match AfterLiteral(TrimStart(rest[colon + 1..]))
      case None => None
      case Some(next) => TrimStartCuts(next); Some(TrimStart(next))
  }

  /** The rounds: pairs separated by commas, and nothing after the last one. */
  predicate PropsFrom(rest: string)
    decreases |rest|
  {
    match AfterProp(rest)
    case None => false
    case Some(next) =>
      if next == "" || next[0] != ',' then next == ""
      else if Trim(next[1..]) == "" then false
      else TrimStartCuts(next[1..]); PropsFrom(TrimStart(next[1..]))
  }

  /** The checker's own loop. */
  method OnlyKnownSimpleProps(text: string) returns (ok: bool)
    ensures ok <==> Accepts(text)
  {
    var rest := Trim(text);
    if rest == "" {
      return false;
    }
    while true
      invariant PropsFrom(rest) <==> Accepts(text)
      decreases |rest|
    {
      var colon := IndexOf(rest, ':');
      if colon == |rest| || Trim(rest[..colon]) !in KNOWN_NAMES {
        return false;
      }
      var value := TrimStart(rest[colon + 1..]);
      var next := AfterLiteral(value);
      if next.None? {
        return false;
      }
      var after := TrimStart(next.value);
      assert AfterProp(rest) == Some(after);
      if after == "" || after[0] != ',' {
        return after == "";
      }
      if Trim(after[1..]) == "" {
        return false;
      }
      TrimStartCuts(after[1..]);
      rest := TrimStart(after[1..]);
    }
  }

  predicate Accepts(text: string) {
    Trim(text) != "" && PropsFrom(Trim(text))
  }

  // ----- the checker accepts exactly the grammar

  lemma KnownNameShape(name: string)
    requires name in KNOWN_NAMES
    ensures name != "" && ':' !in name && !IsWhitespace(name[0]) && !IsWhitespace(name[|name| - 1])
  {
    var i :| 0 <= i < |KNOWN_NAMES| && name == KNOWN_NAMES[i];
    assert i == 0 || i == 1 || i == 2 || i == 3 || i == 4 || i == 5 || i == 6 || i == 7;
  }

  lemma PlainShape(s: string)
    requires IsPlain(s)
    ensures s != "" && ',' !in s && !IsQuote(s[0]) && !IsWhitespace(s[0]) && !IsWhitespace(s[|s| - 1])
  {
  }

  lemma BlankHasNo(s: string, c: char)
    requires Blank(s) && !IsWhitespace(c)
    ensures c !in s
  {
  }

  /** A printed value is read whole, whatever blanks and comma follow it. */
  lemma {:induction false} AfterQuoted(q: char, body: string, more: string, value: string)
    requires IsQuote(q) && q !in body && '\\' !in body
    requires value == [q] + (body + ([q] + more))
    ensures AfterLiteral(value) == Some(more)
  {
    var rest := body + ([q] + more);
    assert value[1..] == rest;
    IndexOfIs(body, q, [q] + more);
    assert rest[..|body|] == body && rest[|body| + 1..] == more;
  }

  lemma {:induction false} AfterPlain(text: string, trail: string, more: string, value: string)
    requires IsPlain(text) && Blank(trail) && (more == "" || more[0] == ',')
    requires value == (text + trail) + more
    ensures AfterLiteral(value) == Some(more)
  {
    PlainShape(text);
    BlankHasNo(trail, ',');
    IndexOfIs(text + trail, ',', more);
    assert value[..|text + trail|] == "" + text + trail && value[|text + trail|..] == more;
    TrimIs("", text, trail);
  }

  /** A printed value and the blanks behind it are read whole. */
  lemma {:induction false} AfterPrinted(l: Literal, trail: string, more: string, value: string)
    requires ValidLiteral(l) && Blank(trail) && (more == "" || more[0] == ',')
    requires value == PrintLiteral(l) + (trail + more)
    ensures value != "" && !IsWhitespace(value[0])
    ensures AfterLiteral(value).Some? && TrimStart(AfterLiteral(value).value) == more
  {
    match l {
      case Quoted(q, body) =>
        assert value == [q] + (body + ([q] + (trail + more)));
        AfterQuoted(q, body, trail + more, value);
        TrimStartIs(trail, more);
      case Plain(text) =>
        PlainShape(text);
        assert value == (text + trail) + more;
        AfterPlain(text, trail, more, value);
        TrimStartIs("", more);
        assert "" + more == more;
    }
  }

  lemma {:induction false} ReadName(name: string, gap: string, after: string, rest: string)
    requires name in KNOWN_NAMES && Blank(gap) && rest == (name + gap) + (":" + after)
    ensures var colon := IndexOf(rest, ':');
            colon < |rest| && Trim(rest[..colon]) == name && rest[colon + 1..] == after
  {
    KnownNameShape(name);
    BlankHasNo(gap, ':');
    IndexOfIs(name + gap, ':', ":" + after);
    assert rest[..|name + gap|] == "" + name + gap;
    TrimIs("", name, gap);
  }

  lemma {:induction false} PrintCoreThen(p: Prop, more: string)
    ensures PrintCore(p) + more
         == (p.name + p.beforeColon) + (":" + (p.afterColon + (PrintLiteral(p.value) + (p.trail + more))))
  {
  }

  /** A printed pair is read whole. */
  lemma {:induction false} AfterPrintedProp(p: Prop, more: string)
    requires ValidProp(p) && (more == "" || more[0] == ',')
    ensures AfterProp(PrintCore(p) + more) == Some(more)
  {
    var value := PrintLiteral(p.value) + (p.trail + more);
    PrintCoreThen(p, more);
    ReadName(p.name, p.beforeColon, p.afterColon + value, PrintCore(p) + more);
    AfterPrinted(p.value, p.trail, more, value);
    TrimStartIs(p.afterColon, value);
  }

  lemma {:induction false} TidyBegins(ps: Props)
    requires ValidProps(ps)
    ensures PrintTidy(ps) != "" && !IsWhitespace(PrintTidy(ps)[0])
  {
    KnownNameShape(ps.first.name);
    assert PrintCore(ps.first)[0] == ps.first.name[0];
  }

  lemma TrimIsEmptyIffStart(s: string)
    ensures Trim(s) == "" <==> TrimStart(s) == ""
  {
    TrimStartCuts(s);
    TrimEndCuts(TrimStart(s));
  }

  lemma {:induction false} PrintedIsAccepted(ps: Props)
    requires ValidProps(ps)
    ensures PropsFrom(PrintTidy(ps))
    decreases ps
  {
    match ps {
      case Only(p) =>
        AfterPrintedProp(p, "");
        NothingAdded(PrintCore(p));
      case More(p, rest) =>
        var more := PrintProps(rest);
        AfterPrintedProp(p, "," + more);
        assert ("," + more)[1..] == more;
        TidyBegins(rest);
        TrimStartIs(rest.first.lead, PrintTidy(rest));
        TrimIsEmptyIffStart(more);
        PrintedIsAccepted(rest);
    }
  }

  // ----- and whatever it accepts was printed

  lemma {:induction false} ParseQuoted(value: string) returns (l: Literal)
    requires value != "" && IsQuote(value[0]) && AfterLiteral(value).Some?
    ensures ValidLiteral(l) && value == PrintLiteral(l) + AfterLiteral(value).value
  {
    var body := value[1..];
    var end := IndexOf(body, value[0]);
    IndexOfFinds(body, value[0]);
    l := Quoted(value[0], body[..end]);
    assert value == [value[0]] + body[..end] + [value[0]] + body[end + 1..];
  }

  lemma {:induction false} ParsePlain(value: string) returns (l: Literal, trail: string)
    requires value == "" || !IsQuote(value[0])
    requires value == "" || !IsWhitespace(value[0])
    requires AfterLiteral(value).Some?
    ensures ValidLiteral(l) && Blank(trail)
    ensures var more := AfterLiteral(value).value;
            value == PrintLiteral(l) + (trail + more) && (more == "" || more[0] == ',')
  {
    var end := IndexOf(value, ',');
    IndexOfFinds(value, ',');
    Halves(value, end);
    var text := Trim(value[..end]);
    trail := EndBlank(value[..end]);
    l := Plain(text);
    Assoc(text, trail, value[end..]);
  }

  /** The blank a text ends with, when it does not begin with one. */
  lemma {:induction false} EndBlank(s: string) returns (gap: string)
    requires s == "" || !IsWhitespace(s[0])
    ensures Blank(gap) && s == Trim(s) + gap
  {
    TrimEndCuts(s);
    Halves(s, |TrimEnd(s)|);
    gap := s[|TrimEnd(s)|..];
  }

  lemma {:induction false} ParseLiteral(value: string) returns (l: Literal, trail: string)
    requires value == "" || !IsWhitespace(value[0])
    requires AfterLiteral(value).Some?
    ensures ValidLiteral(l) && Blank(trail)
    ensures value == PrintLiteral(l) + (trail + TrimStart(AfterLiteral(value).value))
  {
    var next := AfterLiteral(value).value;
    if value != "" && IsQuote(value[0]) {
      l := ParseQuoted(value);
      trail := StartBlank(next);
    } else {
      l, trail := ParsePlain(value);
      TrimStartIs("", next);
      NothingAdded(next);
    }
  }

  /** The blank a text begins with. */
  lemma StartBlank(s: string) returns (gap: string)
    ensures Blank(gap) && s == gap + TrimStart(s)
    ensures TrimStart(s) == "" || !IsWhitespace(TrimStart(s)[0])
  {
    TrimStartCuts(s);
    gap := s[..|s| - |TrimStart(s)|];
    Halves(s, |gap|);
  }

  lemma {:induction false} ParseProp(rest: string) returns (p: Prop)
    requires AfterProp(rest).Some?
    ensures ValidProp(p) && rest == p.lead + (PrintCore(p) + AfterProp(rest).value)
  {
    var colon := IndexOf(rest, ':');
    IndexOfFinds(rest, ':');
    var after, more := rest[colon + 1..], AfterProp(rest).value;
    var left, right := TrimParts(rest[..colon]);
    var gap := StartBlank(after);
    var l, trail := ParseLiteral(TrimStart(after));
    p := Prop(left, Trim(rest[..colon]), right, gap, l, trail);
    PrintCoreThen(p, more);
    Around(rest, colon);
    Assoc(left, p.name, right);
    Assoc(left, p.name + right, ":" + after);
  }

  function AddLead(gap: string, ps: Props): Props {
    ps.(first := ps.first.(lead := gap + ps.first.lead))
  }

  lemma {:induction false} AddLeadPrint(gap: string, ps: Props)
    requires ValidProps(ps) && Blank(gap)
    ensures ValidProps(AddLead(gap, ps)) && PrintProps(AddLead(gap, ps)) == gap + PrintProps(ps)
  {
    BlankAppend(gap, ps.first.lead);
    assert PrintTidy(AddLead(gap, ps)) == PrintTidy(ps);
    Assoc(gap, ps.first.lead, PrintTidy(ps));
  }

  lemma {:induction false} ParseProps(rest: string) returns (ps: Props)
    requires PropsFrom(rest)
    ensures ValidProps(ps) && PrintProps(ps) == rest
    decreases |rest|
  {
    var p := ParseProp(rest);
    var next := AfterProp(rest).value;
    if next == "" {
      ps := Only(p);
      NothingAdded(PrintCore(p));
    } else {
      var more := next[1..];
      HeadTail(next);
      TrimStartCuts(more);
      var gap := StartBlank(more);
      var tail := ParseProps(TrimStart(more));
      AddLeadPrint(gap, tail);
      ps := More(p, AddLead(gap, tail));
    }
  }

  /** The list with another blank behind its last pair. */
  function SetTrail(ps: Props, trail: string): Props {
    match ps
    case Only(p) => Only(p.(trail := trail))
    case More(p, rest) => More(p, SetTrail(rest, trail))
  }

  function Trail(ps: Props): string {
    if ps.More? then Trail(ps.rest) else ps.first.trail
  }

  lemma {:induction false} TrailIsBlank(ps: Props)
    requires ValidProps(ps)
    ensures Blank(Trail(ps)) && SetTrail(ps, Trail(ps)) == ps
    decreases ps
  {
    if ps.More? {
      TrailIsBlank(ps.rest);
    }
  }

  lemma {:induction false} SetTrailCore(p: Prop, trail: string)
    ensures PrintCore(p.(trail := trail)) == PrintCore(p.(trail := "")) + trail
  {
    PrintCoreThen(p.(trail := ""), trail);
    PrintCoreThen(p.(trail := trail), "");
    NothingAdded(PrintCore(p.(trail := trail)));
    NothingAdded(trail);
  }

  lemma {:induction false} SetTrailPrint(ps: Props, trail: string)
    requires ValidProps(ps) && Blank(trail)
    ensures ValidProps(SetTrail(ps, trail)) && SetTrail(ps, trail).first.lead == ps.first.lead
    ensures PrintTidy(SetTrail(ps, trail)) == PrintTidy(SetTrail(ps, "")) + trail
    decreases ps
  {
    match ps {
      case Only(p) =>
        SetTrailCore(p, trail);
      case More(p, rest) =>
        SetTrailPrint(rest, trail);
        var lead, bare := rest.first.lead, PrintTidy(SetTrail(rest, ""));
        assert SetTrail(rest, "").first.lead == lead;
        Assoc(lead, bare, trail);
        Assoc(",", lead + bare, trail);
        Assoc(PrintCore(p), "," + (lead + bare), trail);
    }
  }

  lemma {:induction false} TidyEnds(ps: Props)
    requires ValidProps(ps)
    ensures PrintTidy(SetTrail(ps, "")) != ""
    ensures !IsWhitespace(PrintTidy(SetTrail(ps, ""))[|PrintTidy(SetTrail(ps, ""))| - 1])
    decreases ps
  {
    match ps {
      case Only(p) =>
        var value := PrintLiteral(p.value);
        if p.value.Plain? {
          PlainShape(p.value.text);
        }
        var text := PrintCore(p.(trail := ""));
        assert text[|text| - 1] == value[|value| - 1];
      case More(p, rest) =>
        TidyEnds(rest);
    }
  }

  lemma {:induction false} TrimPrinted(ps: Props)
    requires ValidProps(ps)
    ensures ValidProps(SetTrail(ps, "")) && Trim(PrintProps(ps)) == PrintTidy(SetTrail(ps, "")) != ""
  {
    var bare := PrintTidy(SetTrail(ps, ""));
    TrailIsBlank(ps);
    SetTrailPrint(ps, Trail(ps));
    SetTrailPrint(ps, "");
    TidyBegins(SetTrail(ps, ""));
    TidyEnds(ps);
    Assoc(ps.first.lead, bare, Trail(ps));
    TrimIs(ps.first.lead, bare, Trail(ps));
  }

  lemma {:induction false} PropsOf(text: string) returns (ps: Props)
    requires Accepts(text)
    ensures ValidProps(ps) && PrintProps(ps) == text
  {
    var left, right := TrimParts(text);
    var inner := ParseProps(Trim(text));
    AddLeadPrint(left, inner);
    ps := AddTrail(AddLead(left, inner), right);
  }

  lemma {:induction false} AddTrail(led: Props, right: string) returns (ps: Props)
    requires ValidProps(led) && Blank(right)
    ensures ValidProps(ps) && PrintProps(ps) == PrintProps(led) + right
  {
    var lead, bare, trail := led.first.lead, PrintTidy(SetTrail(led, "")), Trail(led);
    TrailIsBlank(led);
    SetTrailPrint(led, trail);
    BlankAppend(trail, right);
    SetTrailPrint(led, trail + right);
    ps := SetTrail(led, trail + right);
    Assoc(bare, trail, right);
    Assoc(lead, bare + trail, right);
  }

  /** The checker accepts exactly the non-empty lists of the property grammar. */
  lemma AcceptsIffPrinted(text: string)
    ensures Accepts(text) <==> exists ps: Props :: ValidProps(ps) && PrintProps(ps) == text
  {
    if Accepts(text) {
      var ps := PropsOf(text);
    }
    forall ps: Props | ValidProps(ps) && PrintProps(ps) == text
      ensures Accepts(text)
    {
      PrintedAccepted(ps);
    }
  }

  lemma {:induction false} PrintedAccepted(ps: Props)
    requires ValidProps(ps)
    ensures Accepts(PrintProps(ps))
  {
    TrimPrinted(ps);
    PrintedIsAccepted(SetTrail(ps, ""));
  }
}
