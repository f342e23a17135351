/** Decoding of RFC 6901 JSON pointers into the keys they name. */
module JsonPointer {
  import opened Text

  /** Non-overlapping, left-to-right replacement of the two characters `a b` by `c`. */
  function ReplacePair(s: string, a: char, b: char, c: char): string {
    if s == "" then ""
    else if |s| >= 2 && s[0] == a && s[1] == b then [c] + ReplacePair(s[2..], a, b, c)
    else [s[0]] + ReplacePair(s[1..], a, b, c)
  }

  /** One segment unescaped as the code does it: all `~1` first, then all `~0`. */
  function Unescape(segment: string): string {
    ReplacePair(ReplacePair(segment, '~', '1', '/'), '~', '0', '~')
  }

  /** The keys a pointer names; the text before its first `/` is dropped. */
  function Segments(text: string): seq<string> {
    if text == "" then [] else UnescapeAll(Split(text, '/')[1..])
  }

  function UnescapeAll(parts: seq<string>): (r: seq<string>)
    ensures |r| == |parts|
    ensures forall i | 0 <= i < |parts| :: r[i] == Unescape(parts[i])
  {
    if parts == [] then [] else [Unescape(parts[0])] + UnescapeAll(parts[1..])
  }

  // ----- the reference decoder and encoder of section 4 of RFC 6901

  /** One left-to-right pass that reads each escape once. */
  function DecodeOnce(s: string): string {
    if s == "" then ""
    else if |s| >= 2 && s[0] == '~' && s[1] == '1' then "/" + DecodeOnce(s[2..])
    else if |s| >= 2 && s[0] == '~' && s[1] == '0' then "~" + DecodeOnce(s[2..])
    else [s[0]] + DecodeOnce(s[1..])
  }

  function Escape(key: string): (r: string)
    ensures '/' !in r
  {
    if key == "" then ""
    else (if key[0] == '~' then "~0" else if key[0] == '/' then "~1" else [key[0]]) + Escape(key[1..])
  }

  function Encode(keys: seq<string>): string {
    if keys == [] then "" else "/" + (Escape(keys[0]) + Encode(keys[1..]))
  }

  lemma ReplacePairHead(s: string, a: char, b: char, c: char)
    requires s != ""
    ensures ReplacePair(s, a, b, c) != ""
    ensures ReplacePair(s, a, b, c)[0] == if |s| >= 2 && s[0] == a && s[1] == b then c else s[0]
  {
  }

  /** The two passes agree with the single pass on every string, well formed or not. */
  lemma {:induction false} TwoPassesAreOne(s: string)
    ensures Unescape(s) == DecodeOnce(s)
  {
    if s != "" {
      var first := ReplacePair(s, '~', '1', '/');
      if |s| >= 2 && s[0] == '~' && s[1] == '1' {
        TwoPassesAreOne(s[2..]);
        assert first[1..] == ReplacePair(s[2..], '~', '1', '/');
      } else if |s| >= 2 && s[0] == '~' && s[1] == '0' {
        TwoPassesAreOne(s[2..]);
        assert s[1..][1..] == s[2..];
        assert ReplacePair(s[1..], '~', '1', '/') == ['0'] + ReplacePair(s[2..], '~', '1', '/');
        assert first[2..] == ReplacePair(s[2..], '~', '1', '/');
      } else {
        TwoPassesAreOne(s[1..]);
        assert first[1..] == ReplacePair(s[1..], '~', '1', '/');
        if |s| >= 2 {
          ReplacePairHead(s[1..], '~', '1', '/');
        }
      }
    }
  }

  lemma {:induction false} DecodeEscape(key: string)
    ensures DecodeOnce(Escape(key)) == key
  {
    if key != "" {
      DecodeEscape(key[1..]);
      var rest := Escape(key[1..]);
      if key[0] == '~' {
        assert ("~0" + rest)[2..] == rest;
      } else if key[0] == '/' {
        assert ("~1" + rest)[2..] == rest;
      } else {
        assert ([key[0]] + rest)[1..] == rest;
      }
    }
  }

  function EscapeAll(keys: seq<string>): seq<string> {
    if keys == [] then [] else [Escape(keys[0])] + EscapeAll(keys[1..])
  }

  lemma {:induction false} SplitEncoded(keys: seq<string>)
    requires keys != []
    ensures Split(Escape(keys[0]) + Encode(keys[1..]), '/') == EscapeAll(keys)
  {
    var head, rest := Escape(keys[0]), keys[1..];
    if rest == [] {
      SplitWhole(head, '/');
      NothingAdded(head);
    } else {
      SplitEncoded(rest);
      var tail := Escape(rest[0]) + Encode(rest[1..]);
      Assoc(head, "/", tail);
      SplitAt(head, '/', tail);
    }
  }

  lemma {:induction false} UnescapeEscaped(keys: seq<string>)
    ensures UnescapeAll(EscapeAll(keys)) == keys
  {
    if keys != [] {
      TwoPassesAreOne(Escape(keys[0]));
      DecodeEscape(keys[0]);
      UnescapeEscaped(keys[1..]);
    }
  }

  /** Every non-empty key list survives being written as a pointer and read back. */
  lemma {:induction false} SegmentsOfEncoded(keys: seq<string>)
    requires keys != []
    ensures Segments(Encode(keys)) == keys
  {
    var body := Escape(keys[0]) + Encode(keys[1..]);
    SplitAt("", '/', body);
    NothingAdded(body);
    assert "" + ['/'] + body == Encode(keys);
    SplitEncoded(keys);
    UnescapeEscaped(keys);
  }
}
