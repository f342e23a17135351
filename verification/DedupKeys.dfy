/** The name strings from which the adapters derive their stable ids. */
module DedupKeys {
  import opened Prelude
  import opened Text

  /** Every phase that some rollout or hook message is keyed under. The
      bare `tool_before` is reserved and never used. */
  datatype Phase = ToolAfter | ExitCode | HookToolBefore | HookToolAfter | HookSessionStart

  function PhaseText(p: Phase): string {
    match p
    case ToolAfter => "tool_after"
    case ExitCode => "tool_after:exit_code"
    case HookToolBefore => "hook:tool_before"
    case HookToolAfter => "hook:tool_after"
    case HookSessionStart => "hook:session_start"
  }

  function DedupKey(session: string, phase: Phase, native: string): string {
    "codex:v1:" + (session + (":" + PhaseAndId(phase, native)))
  }

  function PhaseAndId(phase: Phase, native: string): string {
    PhaseText(phase) + (":" + native)
  }

  /** The one pair of phases whose names overlap: an id that starts with `exit_code:`
      under the shorter phase reads like the rest of it under the longer one. */
  predicate Twins(p: Phase, n: string, q: Phase, m: string) {
    p == ToolAfter && q == ExitCode && n == "exit_code:" + m
  }

  predicate SameOrTwins(p: Phase, n: string, q: Phase, m: string) {
    (p == q && n == m) || Twins(p, n, q, m) || Twins(q, m, p, n)
  }

  /** What the characters at three positions say about a phase. */
  lemma PhaseChars(p: Phase, n: string)
    ensures var t := PhaseAndId(p, n);
      && |t| > 10
      && (t[0] == 't' <==> p.ToolAfter? || p.ExitCode?)
      && (t[5] == 's' <==> p.HookSessionStart?)
      && (t[0] == 'h' && t[10] == 'b' <==> p.HookToolBefore?)
  {
  }

  lemma PhaseAndIdSplits(p: Phase, n: string, q: Phase, m: string)
    ensures PhaseAndId(p, n) == PhaseAndId(q, m) <==> SameOrTwins(p, n, q, m)
  {
    if Twins(p, n, q, m) || Twins(q, m, p, n) {
      assert PhaseText(ToolAfter) + ":exit_code" == PhaseText(ExitCode);
      TwinsRead(n, m);
      TwinsRead(m, n);
    } else if PhaseAndId(p, n) == PhaseAndId(q, m) {
      PhaseChars(p, n);
      PhaseChars(q, m);
      AfterPrefix(PhaseText(p), ":" + n);
      AfterPrefix(PhaseText(q), ":" + m);
      if p == q {
        assert (":" + n)[1..] == n && (":" + m)[1..] == m;
      } else {
        ExitCodeReads(n, m);
        ExitCodeReads(m, n);
      }
    }
  }

  lemma TwinsRead(n: string, m: string)
    ensures n == "exit_code:" + m ==> PhaseAndId(ToolAfter, n) == PhaseAndId(ExitCode, m)
  {
  }

  lemma ExitCodeReads(n: string, m: string)
    ensures PhaseAndId(ToolAfter, n) == PhaseAndId(ExitCode, m) ==> n == "exit_code:" + m
  {
    var t := PhaseAndId(ToolAfter, n);
    if t == PhaseAndId(ExitCode, m) {
      assert n == t[11..] == "exit_code:" + m;
    }
  }

  // ----- session ids

  /** A tail of a session id that could be taken for the start of a phase. */
  predicate ReadsAsPhase(y: string) {
    y == "hook" || exists p: Phase :: PhaseText(p) + ":" <= y + ":"
  }

  /** A session id that a shorter session id followed by a phase could spell. */
  predicate Ambiguous(session: string) {
    exists i | 0 <= i < |session| :: session[i] == ':' && ReadsAsPhase(session[i + 1..])
  }

  lemma ColonInPhase(p: Phase, k: nat)
    requires k < |PhaseText(p)| && PhaseText(p)[k] == ':'
    ensures PhaseText(p)[..k] == "hook" || PhaseText(p)[..k] == PhaseText(ToolAfter)
  {
  }

  lemma TailReadsAsPhase(y: string, x: string, p: Phase, n: string)
    requires y + (":" + x) == PhaseAndId(p, n)
    ensures ReadsAsPhase(y)
  {
    var t := PhaseText(p);
    if |t| <= |y| {
      assert t + ":" == PhaseAndId(p, n)[..|t| + 1] == (y + ":")[..|t| + 1];
    } else {
      assert t[|y|] == PhaseAndId(p, n)[|y|] == ':';
      assert y == PhaseAndId(p, n)[..|y|] == t[..|y|];
      ColonInPhase(p, |y|);
    }
  }

  lemma LongerSession(s: string, x: string, r: string, y: string)
    requires s + (":" + x) == r + (":" + y) && |r| < |s|
    ensures s[|r|] == ':' && s[|r| + 1..] + (":" + x) == y
  {
    var t := s + (":" + x);
    assert t[|r|] == ':';
    assert t[|r| + 1..] == s[|r| + 1..] + (":" + x);
    assert t[|r| + 1..] == y;
  }

  lemma SameBody(s: string, p: Phase, n: string, r: string, q: Phase, m: string)
    ensures DedupKey(s, p, n) == DedupKey(r, q, m) <==> s + (":" + PhaseAndId(p, n)) == r + (":" + PhaseAndId(q, m))
  {
    AfterPrefix("codex:v1:", s + (":" + PhaseAndId(p, n)));
    AfterPrefix("codex:v1:", r + (":" + PhaseAndId(q, m)));
  }

  /** Two keys coincide across sessions only when the longer session id is ambiguous. */
  lemma CollisionIsAmbiguous(s: string, p: Phase, n: string, r: string, q: Phase, m: string)
    requires DedupKey(s, p, n) == DedupKey(r, q, m) && |r| < |s|
    ensures Ambiguous(s)
  {
    SameBody(s, p, n, r, q, m);
    LongerSession(s, PhaseAndId(p, n), r, PhaseAndId(q, m));
    TailReadsAsPhase(s[|r| + 1..], PhaseAndId(p, n), q, m);
  }

  /** Over session ids that are not ambiguous, a key determines session, phase and native id,
      but for the one pair of overlapping phases. */
  lemma KeyDetermines(s: string, p: Phase, n: string, r: string, q: Phase, m: string)
    requires !Ambiguous(s) && !Ambiguous(r)
    ensures DedupKey(s, p, n) == DedupKey(r, q, m) <==> s == r && SameOrTwins(p, n, q, m)
  {
    SameBody(s, p, n, r, q, m);
    PhaseAndIdSplits(p, n, q, m);
    if DedupKey(s, p, n) == DedupKey(r, q, m) {
      if |r| < |s| {
        CollisionIsAmbiguous(s, p, n, r, q, m);
      } else if |s| < |r| {
        CollisionIsAmbiguous(r, q, m, s, p, n);
      } else {
        SameLengthSession(s, ":" + PhaseAndId(p, n), r, ":" + PhaseAndId(q, m));
        assert PhaseAndId(p, n) == (":" + PhaseAndId(p, n))[1..];
        assert PhaseAndId(q, m) == (":" + PhaseAndId(q, m))[1..];
      }
    }
  }

  lemma SameLengthSession(s: string, x: string, r: string, y: string)
    requires s + x == r + y && |s| == |r|
    ensures s == r && x == y
  {
    AfterPrefix(s, x);
    AfterPrefix(r, y);
  }

  /** With neither a colon in the session id nor one in the native id nothing is confused. */
  lemma KeyDeterminesColonFree(s: string, p: Phase, n: string, r: string, q: Phase, m: string)
    requires ':' !in s && ':' !in n && ':' !in r && ':' !in m
    ensures DedupKey(s, p, n) == DedupKey(r, q, m) <==> s == r && p == q && n == m
  {
    KeyDetermines(s, p, n, r, q, m);
    assert ("exit_code:" + m)[9] == ':' && ("exit_code:" + n)[9] == ':';
  }

  lemma TailCollides(y: string) returns (p: Phase, n: string, q: Phase, m: string)
    requires ReadsAsPhase(y)
    ensures y + (":" + PhaseAndId(p, n)) == PhaseAndId(q, m)
  {
    p, n := ToolAfter, "";
    if y == "hook" {
      q, m := HookToolAfter, "";
    } else {
      q :| PhaseText(q) + ":" <= y + ":";
      var x := PhaseAndId(p, n);
      Assoc(y, ":", x);
      m := (y + (":" + x))[|PhaseText(q)| + 1..];
      PrefixCut(PhaseText(q) + ":", y + ":", x, y + (":" + x));
      Assoc(PhaseText(q), ":", m);
    }
  }

  /** The condition is exact: every ambiguous session id shares a key with a shorter one. */
  lemma AmbiguousCollides(s: string) returns (p: Phase, n: string, r: string, q: Phase, m: string)
    requires Ambiguous(s)
    ensures |r| < |s| && DedupKey(s, p, n) == DedupKey(r, q, m)
  {
    var i :| 0 <= i < |s| && s[i] == ':' && ReadsAsPhase(s[i + 1..]);
    p, n, q, m := TailCollides(s[i + 1..]);
    r := s[..i];
    Rejoin(s, i, ":" + PhaseAndId(p, n));
    SameBody(s, p, n, r, q, m);
  }

  lemma PrefixCut(a: string, b: string, x: string, t: string)
    requires a <= b && t == b + x
    ensures t == a + t[|a|..]
  {
  }

  lemma Rejoin(s: string, i: nat, x: string)
    requires i < |s| && s[i] == ':'
    ensures s + x == s[..i] + (":" + (s[i + 1..] + x))
  {
  }

  // ----- the framed completion key

  function HexDigit(n: nat): char
    requires n < 16
  {
    if n < 10 then '0' + n as char else 'a' + (n - 10) as char
  }

  function HexValue(c: char): nat {
    if '0' <= c <= '9' then (c - '0') as nat else if 'a' <= c <= 'f' then (c - 'a') as nat + 10 else 0
  }

  /** One character inside a JSON string, as the serializer writes it. */
  function EscapeChar(c: char): string {
    if c == '"' then "\\\""
    else if c == '\\' then "\\\\"
    else if c == 8 as char then "\\b"
    else if c == 9 as char then "\\t"
    else if c == 10 as char then "\\n"
    else if c == 12 as char then "\\f"
    else if c == 13 as char then "\\r"
    else if c < 32 as char then "\\u00" + [HexDigit(c as nat / 16), HexDigit(c as nat % 16)]
    else [c]
  }

  function EscapeText(s: string): string {
    if s == "" then "" else EscapeChar(s[0]) + EscapeText(s[1..])
  }

  /** The text of a JSON array of strings, from its first element on. */
  function Elements(parts: seq<string>): string {
    if parts == [] then "]"
    else "\"" + (EscapeText(parts[0]) + ("\"" + (if |parts| == 1 then "" else ",") + Elements(parts[1..])))
  }

  function CompletionKey(session: string, phase: string, turn: string): string {
    "[" + Elements(["codex:completion:v1", session, phase, turn])
  }

  /** Reads one escaped character back: the character and how much text it took. */
  function ReadChar(t: string): (char, nat)
    requires t != ""
  {
    if t[0] != '\\' || |t| < 2 then (t[0], 1)
    else if t[1] == 'b' then (8 as char, 2)
    else if t[1] == 't' then (9 as char, 2)
    else if t[1] == 'n' then (10 as char, 2)
    else if t[1] == 'f' then (12 as char, 2)
    else if t[1] == 'r' then (13 as char, 2)
    else if t[1] == 'u' && |t| >= 6 then ((HexValue(t[4]) * 16 + HexValue(t[5])) as char, 6)
    else (t[1], 2)
  }

  /** Reads up to the closing quote: the string and how much text came before the quote. */
  function ReadText(t: string): (string, nat)
    decreases |t|
  {
    if t == "" || t[0] == '"' then ("", 0)
    else
      var (c, n) := ReadChar(t);
      if n > |t| then ("", 0)
      else var (s, k) := ReadText(t[n..]); ([c] + s, n + k)
  }

  lemma HexRoundTrip(n: nat)
    requires n < 16
    ensures HexValue(HexDigit(n)) == n
  {
  }

  lemma ControlChar(c: char, t: string)
    requires c < 32 as char && t == "\\u00" + [HexDigit(c as nat / 16), HexDigit(c as nat % 16)]
    ensures |t| == 6 && t[0] == '\\' && t[1] == 'u' && (HexValue(t[4]) * 16 + HexValue(t[5])) as char == c
  {
    HexRoundTrip(c as nat / 16);
    HexRoundTrip(c as nat % 16);
  }

  lemma ReadCharOfEscape(c: char, rest: string)
    ensures EscapeChar(c) != "" && EscapeChar(c)[0] != '"'
    ensures ReadChar(EscapeChar(c) + rest) == (c, |EscapeChar(c)|)
  {
    if c < 32 as char {
      ControlChar(c, "\\u00" + [HexDigit(c as nat / 16), HexDigit(c as nat % 16)]);
    }
  }

  lemma {:induction false} ReadTextOfEscape(s: string, rest: string)
    ensures ReadText(EscapeText(s) + ("\"" + rest)) == (s, |EscapeText(s)|)
  {
    if s != "" {
      var c, more := EscapeChar(s[0]), EscapeText(s[1..]);
      ReadTextOfEscape(s[1..], rest);
      ReadCharOfEscape(s[0], more + ("\"" + rest));
      Assoc(c, more, "\"" + rest);
      AfterPrefix(c, more + ("\"" + rest));
      HeadTail(s);
    }
  }

  /** A framed element and what follows it can be told apart whatever the element contains. */
  lemma ElementDetermines(s: string, x: string, r: string, y: string)
    requires "\"" + (EscapeText(s) + ("\"" + x)) == "\"" + (EscapeText(r) + ("\"" + y))
    ensures s == r && x == y
  {
    AfterPrefix("\"", EscapeText(s) + ("\"" + x));
    AfterPrefix("\"", EscapeText(r) + ("\"" + y));
    ReadTextOfEscape(s, x);
    ReadTextOfEscape(r, y);
    AfterPrefix(EscapeText(s), "\"" + x);
    AfterPrefix(EscapeText(r), "\"" + y);
    AfterPrefix("\"", x);
    AfterPrefix("\"", y);
  }

  lemma {:induction false} ElementsDetermine(a: seq<string>, b: seq<string>)
    requires |a| == |b| && Elements(a) == Elements(b)
    ensures a == b
  {
    if a != [] {
      var sep := if |a| == 1 then "" else ",";
      Assoc("\"", sep, Elements(a[1..]));
      Assoc("\"", sep, Elements(b[1..]));
      ElementDetermines(a[0], sep + Elements(a[1..]), b[0], sep + Elements(b[1..]));
      AfterPrefix(sep, Elements(a[1..]));
      AfterPrefix(sep, Elements(b[1..]));
      ElementsDetermine(a[1..], b[1..]);
      assert a == [a[0]] + a[1..] && b == [b[0]] + b[1..];
    }
  }

  /** A completion key determines its three parts, whatever characters they contain. */
  lemma CompletionKeyDetermines(s: string, p: string, t: string, s': string, p': string, t': string)
    ensures CompletionKey(s, p, t) == CompletionKey(s', p', t') <==> s == s' && p == p' && t == t'
  {
    if CompletionKey(s, p, t) == CompletionKey(s', p', t') {
      var a, b := ["codex:completion:v1", s, p, t], ["codex:completion:v1", s', p', t'];
      AfterPrefix("[", Elements(a));
      AfterPrefix("[", Elements(b));
      ElementsDetermine(a, b);
      assert a[1] == b[1] && a[2] == b[2] && a[3] == b[3];
    }
  }

  /** The two schemes never meet. */
  lemma SchemesDisjoint(s: string, p: string, t: string, r: string, q: Phase, n: string)
    ensures CompletionKey(s, p, t) != DedupKey(r, q, n)
  {
    assert CompletionKey(s, p, t)[0] == '[' && DedupKey(r, q, n)[0] == 'c';
  }

  // ----- the keys, read

  lemma {:induction false} CutPiece(piece: string, rest: string)
    requires ':' !in piece
    ensures Split(piece + (":" + rest), ':') == [piece] + Split(rest, ':')
  {
    Assoc(piece, ":", rest);
    SplitAt(piece, ':', rest);
  }

  /** What a phase is called in a key. */
  function PhaseWords(p: Phase): seq<string> {
    match p
    case ToolAfter => ["tool_after"]
    case ExitCode => ["tool_after", "exit_code"]
    case HookToolBefore => ["hook", "tool_before"]
    case HookToolAfter => ["hook", "tool_after"]
    case HookSessionStart => ["hook", "session_start"]
  }

  lemma {:induction false} TwoPieces(first: string, second: string, text: string, last: string)
    requires ':' !in first && ':' !in second && ':' !in last && text == first + (":" + second)
    ensures Split(text + (":" + last), ':') == [first, second, last]
  {
    SplitWhole(last, ':');
    CutPiece(second, last);
    CutPiece(first, second + (":" + last));
    Assoc(":", second, ":" + last);
    Assoc(first, ":" + second, ":" + last);
  }

  lemma {:induction false} PhasePieces(p: Phase, native: string)
    requires ':' !in native
    ensures Split(PhaseAndId(p, native), ':') == PhaseWords(p) + [native]
  {
    match p {
      case ToolAfter =>
        CutPiece("tool_after", native);
        SplitWhole(native, ':');
      case ExitCode => TwoPieces("tool_after", "exit_code", "tool_after:exit_code", native);
      case _ => HookPieces(p, native);
    }
  }

  lemma {:induction false} HookPieces(p: Phase, native: string)
    requires !p.ToolAfter? && !p.ExitCode? && ':' !in native
    ensures Split(PhaseAndId(p, native), ':') == PhaseWords(p) + [native]
  {
    match p {
      case HookToolBefore => TwoPieces("hook", "tool_before", "hook:tool_before", native);
      case HookToolAfter => TwoPieces("hook", "tool_after", "hook:tool_after", native);
      case HookSessionStart => TwoPieces("hook", "session_start", "hook:session_start", native);
    }
  }

  lemma {:induction false} SchemePieces(body: string)
    ensures Split("codex:v1:" + body, ':') == ["codex", "v1"] + Split(body, ':')
  {
    assert "codex:v1:" + body == "codex" + (":" + ("v1" + (":" + body)));
    CutPiece("codex", "v1" + (":" + body));
    CutPiece("v1", body);
  }

  /** Without colons in session and native id a key, cut at its colons, is the scheme, its version, the session, the
      words of the phase and the native id. */
  lemma {:induction false} KeyPieces(session: string, p: Phase, native: string)
    requires ':' !in session && ':' !in native
    ensures Split(DedupKey(session, p, native), ':') == ["codex", "v1", session] + PhaseWords(p) + [native]
  {
    var body := session + (":" + PhaseAndId(p, native));
    SchemePieces(body);
    CutPiece(session, PhaseAndId(p, native));
    PhasePieces(p, native);
  }

  /** The strings of an array, read up to its closing bracket. */
  function ReadElements(t: string): seq<string>
    decreases |t|
  {
    if t == "" || t[0] != '"' then []
    else
      var (s, k) := ReadText(t[1..]);
      if |t| < k + 3 || t[k + 2] != ',' then [s] else [s] + ReadElements(t[k + 3..])
  }

  lemma {:induction false} FirstElement(s: string, after: string, t: string)
    requires t == "\"" + (EscapeText(s) + ("\"" + after))
    ensures ReadText(t[1..]) == (s, |EscapeText(s)|)
    ensures |t| == |EscapeText(s)| + 2 + |after| && t[|EscapeText(s)| + 2..] == after
  {
    ReadTextOfEscape(s, after);
    AfterPrefix("\"", EscapeText(s) + ("\"" + after));
    AfterPrefix(EscapeText(s), "\"" + after);
    AfterPrefix("\"", after);
  }

  lemma {:induction false} LastElement(s: string, t: string)
    requires t == "\"" + (EscapeText(s) + ("\"" + "]"))
    ensures ReadElements(t) == [s]
  {
    FirstElement(s, "]", t);
    assert t[|EscapeText(s)| + 2] == t[|EscapeText(s)| + 2..][0];
  }

  lemma {:induction false} NextElement(s: string, more: string, t: string)
    requires t == "\"" + (EscapeText(s) + ("\"" + ("," + more)))
    ensures ReadElements(t) == [s] + ReadElements(more)
  {
    FirstElement(s, "," + more, t);
    var rest := t[|EscapeText(s)| + 2..];
    assert t[|EscapeText(s)| + 2] == rest[0] && t[|EscapeText(s)| + 3..] == rest[1..];
    AfterPrefix(",", more);
  }

  lemma {:induction false} ElementsRead(parts: seq<string>)
    ensures ReadElements(Elements(parts)) == parts
  {
    if parts == [] {
    } else if |parts| == 1 {
      assert parts[1..] == [] && Elements([]) == "]";
      Assoc("\"", "", "]");
      NothingAdded("]");
      LastElement(parts[0], Elements(parts));
    } else {
      Assoc("\"", ",", Elements(parts[1..]));
      NextElement(parts[0], Elements(parts[1..]), Elements(parts));
      ElementsRead(parts[1..]);
      assert parts == [parts[0]] + parts[1..];
    }
  }

  /** A completion key is an array of its scheme, the session, the phase and the turn. */
  lemma {:induction false} CompletionReads(session: string, phase: string, turn: string)
    ensures var key := CompletionKey(session, phase, turn);
      key[0] == '[' && ReadElements(key[1..]) == ["codex:completion:v1", session, phase, turn]
  {
    var parts := ["codex:completion:v1", session, phase, turn];
    AfterPrefix("[", Elements(parts));
    ElementsRead(parts);
  }
}
