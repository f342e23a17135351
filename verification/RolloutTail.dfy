/** The bounded, resumable reader of newline-terminated rollout files. */
module RolloutTail {
  import opened Prelude
  import opened Text

  const NEWLINE: byte := 10

  /** Text decoding as the standard library does it: nothing for malformed bytes. */
  type Decoder = seq<byte> -> Option<string>

  /** One file as a reader finds it: its identity and its bytes. */
  datatype File = File(dev: nat, ino: nat, content: seq<byte>)

  datatype Start = Beginning | End

  /** Where to resume. `skipping` says the offset is inside a line too long for the window. */
  datatype Cursor = Cursor(dev: nat, ino: nat, offset: nat, skipping: bool)

  datatype TailRead = TailRead(lines: seq<string>, cursor: Cursor, skipped: nat)

  // ----- lines of a byte string

  /** The index of the first newline from `i` on, or the length when there is none. */
  function LineEnd(s: seq<byte>, i: nat): (n: nat)
    requires i <= |s|
    ensures i <= n <= |s|
    decreases |s| - i
  {
    if i == |s| || s[i] == NEWLINE then i else LineEnd(s, i + 1)
  }

  /** The newline-terminated lines completed from `i` on, without their newlines, where the line that
      holds `i` began at `start`. */
  function LinesFrom(s: seq<byte>, start: nat, i: nat): seq<seq<byte>>
    requires start <= i <= |s|
    decreases |s| - i
  {
    if i == |s| then []
    else if s[i] == NEWLINE then [s[start..i]] + LinesFrom(s, i + 1, i + 1)
    else LinesFrom(s, start, i + 1)
  }

  /** Where the line that holds the end of `s` began. */
  function RestStart(s: seq<byte>, start: nat, i: nat): (n: nat)
    requires start <= i <= |s|
    ensures start <= n <= |s|
    decreases |s| - i
  {
    if i == |s| then start
    else if s[i] == NEWLINE then RestStart(s, i + 1, i + 1)
    else RestStart(s, start, i + 1)
  }

  /** What one raw line contributes to the output. */
  function Emit(raw: seq<byte>, decode: Decoder): seq<string> {
    match decode(raw)
    case Some(s) => if Trim(s) == "" then [] else [s]
    case None => []
  }

  function Emitted(raws: seq<seq<byte>>, decode: Decoder): seq<string> {
    if raws == [] then [] else Emit(raws[0], decode) + Emitted(raws[1..], decode)
  }

  /** How many of the lines do not decode. */
  function Malformed(raws: seq<seq<byte>>, decode: Decoder): nat {
    if raws == [] then 0 else (if decode(raws[0]).None? then 1 else 0) + Malformed(raws[1..], decode)
  }

  // ----- one read

  /** A usable cursor is kept; a replaced or shrunk file restarts at its beginning; a file seen for
      the first time begins where `start` says. */
  function Resolve(cursor: Option<Cursor>, start: Start, file: File): Cursor {
    match cursor
    case Some(c) =>
      if c.dev == file.dev && c.ino == file.ino && c.offset <= |file.content| then c
      else Cursor(file.dev, file.ino, 0, false)
    case None =>
      Cursor(file.dev, file.ino, if start.Beginning? then 0 else |file.content|, false)
  }

  function Min(a: nat, b: nat): nat {
    if a < b then a else b
  }

  /** The bytes one read looks at. */
  function Window(content: seq<byte>, offset: nat, maxLine: nat): (w: seq<byte>)
    requires offset <= |content|
    ensures |w| == Min(|content| - offset, maxLine)
  {
    content[offset..offset + Min(|content| - offset, maxLine)]
  }

  /** What a read at `cur` must return: the complete lines of its window, or, at a line that fills
      the whole window, the decision to skip that line. */
  function ReadAt(content: seq<byte>, cur: Cursor, maxLine: nat, decode: Decoder): TailRead {
    if cur.offset >= |content| then TailRead([], cur, 0)
    else
      var w := Window(content, cur.offset, maxLine);
      var n := LineEnd(w, 0);
      if cur.skipping && n == |w| then TailRead([], cur.(offset := cur.offset + |w|), 0)
      else
        var from := if cur.skipping then n + 1 else 0;
        var pos := RestStart(w, from, from);
        if pos == 0 && |w| >= maxLine then
          TailRead([], cur.(offset := cur.offset + |w|, skipping := true), 1)
        else
          var raws := LinesFrom(w, from, from);
          TailRead(Emitted(raws, decode), cur.(offset := cur.offset + pos, skipping := false), Malformed(raws, decode))
  }

  /** The next newline completes the line that is open. */
  lemma {:induction false} NextLine(s: seq<byte>, start: nat, i: nat, n: nat)
    requires start <= i <= |s| && n == LineEnd(s, i)
    ensures n == |s| ==> LinesFrom(s, start, i) == [] && RestStart(s, start, i) == start
    ensures n < |s| ==> && LinesFrom(s, start, i) == [s[start..n]] + LinesFrom(s, n + 1, n + 1)
                        && RestStart(s, start, i) == RestStart(s, n + 1, n + 1)
    decreases |s| - i
  {
    if i < |s| && s[i] != NEWLINE {
      NextLine(s, start, i + 1, n);
    }
  }

  lemma {:induction false} EmitFirst(before: seq<string>, raws: seq<seq<byte>>, decode: Decoder)
    requires raws != []
    ensures before + Emit(raws[0], decode) + Emitted(raws[1..], decode) == before + Emitted(raws, decode)
    ensures Malformed(raws, decode) == (if decode(raws[0]).None? then 1 else 0) + Malformed(raws[1..], decode)
  {
  }

  /** The reader's loop: every complete line of the window from `from` on. */
  method TakeLines(buf: seq<byte>, from: nat, decode: Decoder) returns (pos: nat, lines: seq<string>, skipped: nat)
    requires from <= |buf|
    ensures pos == RestStart(buf, from, from)
    ensures lines == Emitted(LinesFrom(buf, from, from), decode)
    ensures skipped == Malformed(LinesFrom(buf, from, from), decode)
  {
    pos, lines, skipped := from, [], 0;
    ghost var all := LinesFrom(buf, from, from);
    ghost var todo := all;
    while LineEnd(buf, pos) < |buf|
      invariant from <= pos <= |buf| && todo == LinesFrom(buf, pos, pos)
      invariant RestStart(buf, pos, pos) == RestStart(buf, from, from)
      invariant lines + Emitted(todo, decode) == Emitted(all, decode)
      invariant skipped + Malformed(todo, decode) == Malformed(all, decode)
      decreases |buf| - pos
    {
      var end := LineEnd(buf, pos);
      NextLine(buf, pos, pos, end);
      var raw := buf[pos..end];
      assert todo[0] == raw;
      EmitFirst(lines, todo, decode);
      ghost var before := lines;
      match decode(raw) {
        case Some(s) =>
          if Trim(s) != "" {
            lines := lines + [s];
          }
        case None =>
          skipped := skipped + 1;
      }
      assert lines == before + Emit(raw, decode);
      pos := end + 1;
      todo := todo[1..];
    }
    NextLine(buf, pos, pos, |buf|);
    assert lines + [] == lines;
  }

  /** The reader itself: one pass over one bounded window. */
  method ReadNewLines(file: File, cursor: Option<Cursor>, start: Start, maxLine: nat, decode: Decoder)
    returns (out: TailRead)
    ensures out == ReadAt(file.content, Resolve(cursor, start, file), maxLine, decode)
  {
    var cur := Resolve(cursor, start, file);
    out := TailRead([], cur, 0);
    if cur.offset >= |file.content| {
      return;
    }
    var buf := Window(file.content, cur.offset, maxLine);
    var pos := 0;
    if cur.skipping {
      var i := LineEnd(buf, 0);
      if i == |buf| {
        out := out.(cursor := cur.(offset := cur.offset + |buf|));
        return;
      }
      pos := i + 1;
      cur := cur.(skipping := false);
    }
    var lines, skipped;
    pos, lines, skipped := TakeLines(buf, pos, decode);
    if pos == 0 && |buf| >= maxLine {
      NextLine(buf, 0, 0, LineEnd(buf, 0));
      skipped := skipped + 1;
      cur := cur.(skipping := true, offset := cur.offset + |buf|);
    } else {
      cur := cur.(offset := cur.offset + pos);
    }
    out := TailRead(lines, cur, skipped);
  }

  // ----- looking back at what was already read

  /** The offset just after the last newline, or 0. */
  function AfterLastNewline(s: seq<byte>): (n: nat)
    ensures n <= |s|
  {
    if s == [] then 0 else if s[|s| - 1] == NEWLINE then |s| else AfterLastNewline(s[..|s| - 1])
  }

  /** The complete lines of the first `upto` bytes, and where they end; nothing when that is more than
      `cap` bytes. Splitting at newlines also yields the piece after the last one. */
  function ReadPrefix(content: seq<byte>, upto: nat, cap: nat, decode: Decoder): Option<(seq<string>, nat)> {
    if upto > cap then None
    else
      var buf := content[..Min(upto, |content|)];
      var whole := buf[..AfterLastNewline(buf)];
      var pieces := LinesFrom(whole, 0, 0) + [whole[RestStart(whole, 0, 0)..]];
      Some((Emitted(pieces, decode), |whole|))
  }

  const SEARCH_WINDOW := 8 * 1024 * 1024

  /** The offset just after the last newline among the first `upto` bytes, looking only at the final
      `SEARCH_WINDOW` of them. */
  function LastNewlineBefore(content: seq<byte>, upto: nat): nat {
    var from := if upto < SEARCH_WINDOW then 0 else upto - SEARCH_WINDOW;
    var buf := content[Min(from, |content|)..Min(upto, |content|)];
    var i := AfterLastNewline(buf);
    if i == 0 then 0 else from + i
  }
}
