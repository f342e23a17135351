/** The numbers that the adapter reads out of texts: exit codes and versions. */
module CodexNumbers {
  import opened Prelude
  import opened Text
  import opened Codex

  // ----- numbers in text

  function Digits(n: nat): string {
    if n < 10 then [('0' as int + n) as char] else Digits(n / 10) + [('0' as int + n % 10) as char]
  }

  /** Written numbers are read back. */
  lemma {:induction false} DecimalReads(n: nat)
    ensures Digits(n) != "" && AllDigits(Digits(n)) && Decimal(Digits(n)) == n
  {
    if n >= 10 {
      DecimalReads(n / 10);
    }
  }

  lemma {:induction false} TakesDigits(digits: string, rest: string)
    requires AllDigits(digits) && (rest == "" || !IsDigit(rest[0]))
    ensures TakeDigits(digits + rest) == digits
  {
    if digits == "" {
      assert digits + rest == rest;
    } else {
      assert (digits + rest)[1..] == digits[1..] + rest;
      assert AllDigits(digits[1..]);
      TakesDigits(digits[1..], rest);
      assert digits == [digits[0]] + digits[1..];
    }
  }

  // ----- exit codes

  const I64_LIMIT := 0x8000_0000_0000_0000

  predicate LineBreaks(s: string) {
    forall c | c in s :: c == '\n' || c == '\r'
  }

  lemma {:induction false} DropsLineBreaks(breaks: string, rest: string)
    requires LineBreaks(breaks) && (rest == "" || (rest[0] != '\n' && rest[0] != '\r'))
    ensures DropNewlines(breaks + rest) == rest
  {
    if breaks == "" {
      assert breaks + rest == rest;
    } else {
      assert breaks[0] in breaks && (breaks + rest)[1..] == breaks[1..] + rest;
      assert forall c | c in breaks[1..] :: c in breaks;
      DropsLineBreaks(breaks[1..], rest);
    }
  }

  lemma {:induction false} DroppedLineBreaks(s: string) returns (breaks: string)
    ensures LineBreaks(breaks) && s == breaks + DropNewlines(s)
  {
    if s != "" && (s[0] == '\n' || s[0] == '\r') {
      var rest := DroppedLineBreaks(s[1..]);
      breaks := [s[0]] + rest;
      assert s == [s[0]] + s[1..];
    } else {
      breaks := "";
    }
  }

  lemma {:induction false} TookDigits(s: string)
    ensures |TakeDigits(s)| <= |s| && s == TakeDigits(s) + s[|TakeDigits(s)|..]
    ensures var rest := s[|TakeDigits(s)|..]; rest == "" || !IsDigit(rest[0])
  {
    if s != "" && IsDigit(s[0]) {
      TookDigits(s[1..]);
      assert s[1..][|TakeDigits(s[1..])|..] == s[|TakeDigits(s)|..];
    }
  }

  /** A block that leads with an exit code, bare or after an error line; `digits` is all of the number. */
  predicate LeadsWith(block: string, gap: string, error: bool, breaks: string, digits: string, rest: string) {
    && Blank(gap) && LineBreaks(breaks) && (!error ==> breaks == "")
    && digits != "" && AllDigits(digits) && (rest == "" || !IsDigit(rest[0]))
    && block == gap + ((if error then "Script error:" + breaks else "") + ("Exit code: " + (digits + rest)))
  }

  /** Such a block gives that code, when it fits 64 bits. */
  lemma {:induction false} LeadingCode(
    block: string, gap: string, error: bool, breaks: string, digits: string, rest: string
  )
    requires LeadsWith(block, gap, error, breaks, digits, rest)
    ensures BlockCode(block) == if Decimal(digits) < I64_LIMIT then Some(Decimal(digits)) else None
  {
    var number := "Exit code: " + (digits + rest);
    var body := (if error then "Script error:" + breaks else "") + number;
    assert body[0] == if error then 'S' else 'E';
    TrimStartIs(gap, body);
    AfterPrefix("Exit code: ", digits + rest);
    TakesDigits(digits, rest);
    if error {
      AfterPrefix("Script error:", breaks + number);
      Assoc("Script error:", breaks, number);
      DropsLineBreaks(breaks, number);
      assert AfterMarker(block) == Some(digits + rest);
    } else {
      assert body == number;
      assert AfterMarker(block) == Some(digits + rest);
    }
  }

  lemma {:induction false} MarkerLeads(b: string) returns (error: bool, breaks: string)
    requires AfterMarker(b).Some? && TrimStart(b) == b
    ensures LineBreaks(breaks) && (!error ==> breaks == "")
    ensures b == (if error then "Script error:" + breaks else "") + ("Exit code: " + AfterMarker(b).value)
  {
    error, breaks := !("Exit code: " <= b), "";
    if error {
      var after := b[|"Script error:"|..];
      breaks := DroppedLineBreaks(after);
      var number := DropNewlines(after);
      assert number == "Exit code: " + AfterMarker(b).value;
      assert b == "Script error:" + (breaks + number);
      Assoc("Script error:", breaks, number);
    } else {
      assert b == "Exit code: " + AfterMarker(b).value;
    }
  }

  lemma TrimmedAgain(s: string)
    ensures TrimStart(TrimStart(s)) == TrimStart(s)
  {
    TrimStartCuts(s);
  }

  /** And only such a block gives one. */
  lemma {:induction false} CodeLeads(block: string)
    returns (gap: string, error: bool, breaks: string, digits: string, rest: string)
    requires BlockCode(block).Some?
    ensures LeadsWith(block, gap, error, breaks, digits, rest) && BlockCode(block) == Some(Decimal(digits))
  {
    TrimStartCuts(block);
    TrimmedAgain(block);
    var b, said := TrimStart(block), AfterMarker(block).value;
    gap := block[..|block| - |b|];
    error, breaks := MarkerLeads(b);
    TookDigits(said);
    digits := TakeDigits(said);
    rest := said[|digits|..];
    Halves(block, |gap|);
  }

  // ----- versions

  const U32_LIMIT := 0x1_0000_0000

  predicate EndsNumber(more: string) {
    more == "" || more[0] == '.' || more[0] == '-' || more[0] == '+'
  }

  lemma {:induction false} CoreKeeps(digits: string, rest: string)
    requires AllDigits(digits)
    ensures Core(digits + rest) == digits + Core(rest)
  {
    if digits == "" {
      assert digits + rest == rest;
    } else {
      assert (digits + rest)[1..] == digits[1..] + rest && AllDigits(digits[1..]) && IsDigit(digits[0]);
      CoreKeeps(digits[1..], rest);
      assert digits == [digits[0]] + digits[1..];
    }
  }

  lemma NoDot(digits: string)
    requires AllDigits(digits)
    ensures '.' !in digits
  {
  }

  /** The pieces of a version that begins with a number. */
  lemma FirstPiece(digits: string, more: string)
    requires AllDigits(digits) && EndsNumber(more)
    ensures var parts := Split(Core(digits + more), '.');
      && parts[0] == digits
      && (more != "" && more[0] == '.' ==> parts == [digits] + Split(Core(more[1..]), '.'))
      && (!(more != "" && more[0] == '.') ==> parts == [digits])
  {
    CoreKeeps(digits, more);
    NoDot(digits);
    if more != "" && more[0] == '.' {
      assert Core(more) == "." + Core(more[1..]);
      Assoc(digits, ".", Core(more[1..]));
      SplitAt(digits, '.', Core(more[1..]));
    } else {
      assert Core(more) == "" && digits + "" == digits;
      SplitWhole(digits, '.');
    }
  }

  /** A version of a major and a minor number, whatever follows, supports items from 0.160 on. */
  lemma VersionReads(major: nat, minor: nat, more: string)
    requires major < U32_LIMIT && minor < U32_LIMIT && EndsNumber(more)
    ensures SupportsItems(Digits(major) + ("." + (Digits(minor) + more))) <==> major > 0 || minor >= 160
  {
    DecimalReads(major);
    DecimalReads(minor);
    FirstPiece(Digits(major), "." + (Digits(minor) + more));
    FirstPiece(Digits(minor), more);
    assert ("." + (Digits(minor) + more))[1..] == Digits(minor) + more;
    var parts := Split(Core(Digits(major) + ("." + (Digits(minor) + more))), '.');
    assert parts[0] == Digits(major) && parts[1] == Digits(minor);
  }

  /** One of a major number alone supports them from 1 on. */
  lemma MajorReads(major: nat, more: string)
    requires major < U32_LIMIT && EndsNumber(more) && (more == "" || more[0] != '.')
    ensures SupportsItems(Digits(major) + more) <==> major > 0
  {
    DecimalReads(major);
    FirstPiece(Digits(major), more);
  }

  lemma PieceStarts(s: string)
    requires s != ""
    ensures var first := Split(s, '.')[0]; first == "" || first[0] == s[0]
  {
  }

  lemma NotANumber(first: string)
    requires first == "" || !IsDigit(first[0])
    ensures ParseU32(first).None?
  {
  }

  /** One that does not begin with a digit never does. */
  lemma NoVersion(v: string)
    requires v == "" || !IsDigit(v[0])
    ensures !SupportsItems(v)
  {
    if Core(v) != "" {
      assert Core(v)[0] == v[0];
      PieceStarts(Core(v));
    }
    NotANumber(Split(Core(v), '.')[0]);
  }
}
