/**
 Windows command lines: how the performance baseline tool joins an argument
 list into one string, and how a Microsoft C runtime takes it apart again.

 The reading rules are those of "Parsing C command-line arguments" in the
 Microsoft C documentation.  A character is one UTF-16 code unit.
 */
module WindowsArguments {
  import opened Collections

  const BACKSLASH: char := '\\'
  const QUOTE: char := '\"'
  const NUL: char := '\0'
  const VERTICAL_TAB: char := 11 as char

  // ----- reading -----

  /** Spaces and tabs separate arguments. */
  predicate Separator(c: char) { c == ' ' || c == '\t' }

  function Backslashes(n: nat): (s: string)
    ensures |s| == n && forall i :: 0 <= i < n ==> s[i] == BACKSLASH
  {
    if n == 0 then "" else [BACKSLASH] + Backslashes(n - 1)
  }

  function LeadingBackslashes(s: string): (n: nat)
    ensures n <= |s|
    ensures n < |s| ==> s[n] != BACKSLASH
  {
    if s == "" || s[0] != BACKSLASH then 0 else 1 + LeadingBackslashes(s[1..])
  }

  datatype Piece = Piece(text: string, rest: string)

  /**
   One argument after the first.  2n backslashes and a quote are n backslashes and a delimiter; 2n + 1 and a quote are n
   backslashes and a literal quote; other backslashes are literal.  Inside quotes, two quotes are one literal quote.
   */
  function ReadArgument(s: string, quoted: bool): (r: Piece)
    ensures |r.rest| <= |s|
    decreases |s|
  {
    var n := LeadingBackslashes(s);
    if n == |s| then Piece(s, "")
    else if s[n] == QUOTE then
      var after := s[n + 1..];
      if n % 2 == 1 then Prefixed(Backslashes(n / 2) + [QUOTE], ReadArgument(after, quoted))
      else if quoted && after != "" && after[0] == QUOTE then
        Prefixed(Backslashes(n / 2) + [QUOTE], ReadArgument(after[1..], true))
      else Prefixed(Backslashes(n / 2), ReadArgument(after, !quoted))
    else if n > 0 then Prefixed(s[..n], ReadArgument(s[n..], quoted))
    else if !quoted && Separator(s[0]) then Piece("", s)
    else Prefixed([s[0]], ReadArgument(s[1..], quoted))
  }

  function Prefixed(text: string, p: Piece): Piece { Piece(text + p.text, p.rest) }

  /** The program name: quotes only switch the meaning of separators, and nothing is escaped. */
  function ReadProgram(s: string, quoted: bool): (r: Piece)
    ensures |r.rest| <= |s|
  {
    if s == "" || (!quoted && Separator(s[0])) then Piece("", s)
    else if s[0] == QUOTE then ReadProgram(s[1..], !quoted)
    else Prefixed([s[0]], ReadProgram(s[1..], quoted))
  }

  function ReadArguments(s: string): seq<string>
    decreases |s|
  {
    if s == "" then []
    else if Separator(s[0]) then ReadArguments(s[1..])
    else
      var p := ReadArgument(s, false);
      ReadProgress(s);
      [p.text] + ReadArguments(p.rest)
  }

  lemma {:induction false} ReadProgress(s: string)
    requires s != "" && !Separator(s[0])
    ensures |ReadArgument(s, false).rest| < |s|
  {
  }

  /** A C string ends at its first NUL. */
  function AsCString(s: string): string {
    if s == "" || s[0] == NUL then "" else [s[0]] + AsCString(s[1..])
  }

  function ReadCommandLine(s: string): seq<string> {
    var program := ReadProgram(AsCString(s), false);
    [program.text] + ReadArguments(program.rest)
  }

  // ----- writing -----

  /** The characters that make `quoteWindowsArgument` add quotes. */
  predicate Special(c: char) { c == ' ' || c == '\t' || c == '\n' || c as int == 11 || c == QUOTE }

  predicate NeedsQuotes(value: string) { value == "" || exists i :: 0 <= i < |value| && Special(value[i]) }

  /** What is still to be written when `pending` backslashes have been read and not yet written. */
  function QuotedBody(value: string, pending: nat): string {
    if value == "" then Backslashes(pending * 2) + [QUOTE]
    else if value[0] == BACKSLASH then QuotedBody(value[1..], pending + 1)
    else if value[0] == QUOTE then Backslashes(pending * 2 + 1) + [QUOTE] + QuotedBody(value[1..], 0)
    else Backslashes(pending) + [value[0]] + QuotedBody(value[1..], 0)
  }

  ghost function Quoted(value: string): string {
    if NeedsQuotes(value) then [QUOTE] + QuotedBody(value, 0) else value
  }

  /** `quoteWindowsArgument` */
  method QuoteArgument(value: string) returns (result: string)
    ensures result == Quoted(value)
  {
    var special := false;
    for index := 0 to |value|
      invariant special <==> exists i :: 0 <= i < index && Special(value[i])
    {
      special := special || Special(value[index]);
    }
    if value != "" && !special {
      return value;
    }
    result := [QUOTE];
    var backslashes := 0;
    assert value[0..] == value;
    for index := 0 to |value|
      invariant result + QuotedBody(value[index..], backslashes) == [QUOTE] + QuotedBody(value, 0)
    {
      var character := value[index];
      ghost var later := value[index + 1..];
      assert value[index..][0] == character && value[index..][1..] == later;
      ghost var body := QuotedBody(value[index..], backslashes);
      if character == BACKSLASH {
        backslashes := backslashes + 1;
        continue;
      }
      ghost var tail := QuotedBody(later, 0);
      if character == QUOTE {
        assert body == Backslashes(backslashes * 2 + 1) + [QUOTE] + tail;
        hide *;
        Regroup(result, Backslashes(backslashes * 2 + 1) + [QUOTE], tail);
        Regroup(result, Backslashes(backslashes * 2 + 1), [QUOTE]);
        result := result + Backslashes(backslashes * 2 + 1);
        result := result + [character];
        backslashes := 0;
        continue;
      }
      assert body == Backslashes(backslashes) + [character] + tail;
      hide *;
      Regroup(result, Backslashes(backslashes) + [character], tail);
      Regroup(result, Backslashes(backslashes), [character]);
      result := result + Backslashes(backslashes);
      backslashes := 0;
      result := result + [character];
    }
    assert value[|value|..] == "";
    assert QuotedBody("", backslashes) == Backslashes(backslashes * 2) + [QUOTE];
    hide *;
    Regroup(result, Backslashes(backslashes * 2), [QUOTE]);
    result := result + Backslashes(backslashes * 2);
    result := result + [QUOTE];
  }

  lemma {:induction false} BodyIsLonger(value: string, pending: nat)
    ensures |QuotedBody(value, pending)| > |value| + pending
  {
    if value != "" { BodyIsLonger(value[1..], if value[0] == BACKSLASH then pending + 1 else 0); }
  }

  /** An argument stays as it is exactly when it is not empty and holds no white space and no quote. */
  lemma {:induction false} UnquotedIff(value: string)
    ensures Quoted(value) == value <==>
      && value != "" && ' ' !in value && '\t' !in value && '\n' !in value && VERTICAL_TAB !in value && QUOTE !in value
  {
    BodyIsLonger(value, 0);
    hide QuotedBody;
  }

  /** Everything after the program name. */
  ghost function JoinedTail(arguments: seq<string>): string {
    if arguments == [] then "" else " " + Quoted(arguments[0]) + JoinedTail(arguments[1..])
  }

  ghost function Joined(arguments: seq<string>): string
    requires arguments != []
  {
    Quoted(arguments[0]) + JoinedTail(arguments[1..])
  }

  /** The command line that `runChildProcess` builds. */
  method JoinCommandLine(arguments: seq<string>) returns (commandLine: string)
    requires arguments != []
    ensures commandLine == Joined(arguments)
  {
    commandLine := "";
    for index := 0 to |arguments|
      invariant index == 0 ==> commandLine == ""
      invariant index > 0 ==> commandLine != "" && commandLine + JoinedTail(arguments[index..]) == Joined(arguments)
    {
      ghost var before, later := commandLine, JoinedTail(arguments[index + 1..]);
      ghost var argument := Quoted(arguments[index]);
      assert index > 0 ==> JoinedTail(arguments[index..]) == " " + argument + later by {
        assert arguments[index..][1..] == arguments[index + 1..];
      }
      QuotedNonEmpty(arguments[index]);
      assert index == 0 ==> argument + later == Joined(arguments);
      hide *;
      Regroup(before, " " + argument, later);
      Regroup(before, " ", argument);
      if commandLine != "" {
        commandLine := commandLine + " ";
      }
      var quoted := QuoteArgument(arguments[index]);
      commandLine := commandLine + quoted;
    }
    assert arguments[|arguments|..] == [];
    assert commandLine + "" == commandLine;
  }

  lemma {:induction false} QuotedNonEmpty(value: string)
    ensures Quoted(value) != "" && !Separator(Quoted(value)[0])
  {
    if !NeedsQuotes(value) { assert !Special(value[0]); }
  }

  // ----- arguments after the program name read back -----

  /** What may follow an argument. */
  predicate Ends(rest: string) { rest == "" || Separator(rest[0]) }

  lemma {:induction false} LeadingOf(n: nat, t: string)
    requires t == "" || t[0] != BACKSLASH
    ensures LeadingBackslashes(Backslashes(n) + t) == n
  {
    if n > 0 {
      LeadingOf(n - 1, t);
      assert (Backslashes(n) + t)[1..] == Backslashes(n - 1) + t;
    } else {
      assert Backslashes(0) + t == t;
    }
  }

  lemma {:induction false} OneMore(n: nat, t: string)
    ensures Backslashes(n) + ([BACKSLASH] + t) == Backslashes(n + 1) + t
  {
  }

  /** Reading n backslashes and a quote. */
  lemma {:induction false} ReadQuote(n: nat, after: string, quoted: bool)
    ensures n % 2 == 1 ==>
      ReadArgument(Backslashes(n) + ([QUOTE] + after), quoted) ==
        Prefixed(Backslashes(n / 2) + [QUOTE], ReadArgument(after, quoted))
    ensures n % 2 == 0 && !(quoted && after != "" && after[0] == QUOTE) ==>
      ReadArgument(Backslashes(n) + ([QUOTE] + after), quoted) ==
        Prefixed(Backslashes(n / 2), ReadArgument(after, !quoted))
  {
    var s := Backslashes(n) + ([QUOTE] + after);
    LeadingOf(n, [QUOTE] + after);
    assert s[n] == QUOTE && s[n + 1..] == after;
  }

  /** Reading n backslashes and an ordinary character inside quotes. */
  lemma {:induction false} ReadOrdinary(n: nat, c: char, after: string)
    requires c != BACKSLASH && c != QUOTE
    ensures ReadArgument(Backslashes(n) + ([c] + after), true) ==
      Prefixed(Backslashes(n) + [c], ReadArgument(after, true))
  {
    var t := [c] + after;
    var s := Backslashes(n) + t;
    LeadingOf(n, t);
    LeadingOf(0, t);
    assert s[..n] == Backslashes(n) && s[n..] == t && t[1..] == after;
    assert ReadArgument(t, true) == Prefixed([c], ReadArgument(after, true));
    if n == 0 { assert s == t && Backslashes(0) + [c] == [c]; }
    Regroup(Backslashes(n), [c], ReadArgument(after, true).text);
  }

  lemma {:induction false} ReadEnd(rest: string)
    requires Ends(rest)
    ensures ReadArgument(rest, false) == Piece("", rest)
  {
  }

  lemma {:induction false} Pieces(a: string, b: string, c: string, d: string)
    ensures a + b + c + d == a + (b + (c + d))
  {
  }

  lemma {:induction false} ReadsClosingQuote(pending: nat, rest: string)
    requires Ends(rest)
    ensures ReadArgument(Backslashes(pending * 2) + [QUOTE] + rest, true) == Piece(Backslashes(pending) + "", rest)
  {
    hide ReadArgument, Backslashes;
    assert (pending * 2) % 2 == 0 && (pending * 2) / 2 == pending;
    ReadEnd(rest);
    ReadQuote(pending * 2, rest, true);
    Regroup(Backslashes(pending * 2), [QUOTE], rest);
  }

  lemma {:induction false} ReadsLiteralQuote(pending: nat, tail: string, rest: string, value: string)
    requires ReadArgument(tail + rest, true) == Piece(value, rest)
    ensures ReadArgument(Backslashes(pending * 2 + 1) + [QUOTE] + tail + rest, true) ==
      Piece(Backslashes(pending) + ([QUOTE] + value), rest)
  {
    hide Backslashes, ReadArgument;
    assert (pending * 2 + 1) % 2 == 1 && (pending * 2 + 1) / 2 == pending;
    ReadQuote(pending * 2 + 1, tail + rest, true);
    Pieces(Backslashes(pending * 2 + 1), [QUOTE], tail, rest);
    Regroup(Backslashes(pending), [QUOTE], value);
  }

  lemma {:induction false} ReadsOrdinary(pending: nat, c: char, tail: string, rest: string, value: string)
    requires c != BACKSLASH && c != QUOTE && ReadArgument(tail + rest, true) == Piece(value, rest)
    ensures ReadArgument(Backslashes(pending) + [c] + tail + rest, true) ==
      Piece(Backslashes(pending) + ([c] + value), rest)
  {
    hide Backslashes, ReadArgument;
    ReadOrdinary(pending, c, tail + rest);
    Pieces(Backslashes(pending), [c], tail, rest);
    Regroup(Backslashes(pending), [c], value);
  }

  lemma {:induction false} BodyReadsBack(value: string, pending: nat, rest: string)
    requires Ends(rest)
    ensures ReadArgument(QuotedBody(value, pending) + rest, true) == Piece(Backslashes(pending) + value, rest)
    decreases |value|
  {
    hide ReadArgument, Backslashes;
    if value == "" {
      ReadsClosingQuote(pending, rest);
    } else {
      var c, later := value[0], value[1..];
      assert value == [c] + later;
      if c == BACKSLASH {
        BodyReadsBack(later, pending + 1, rest);
        OneMore(pending, later);
      } else {
        BodyReadsBack(later, 0, rest);
        var tail := QuotedBody(later, 0);
        NoBackslashes(later);
        if c == QUOTE {
          ReadsLiteralQuote(pending, tail, rest, later);
        } else {
          ReadsOrdinary(pending, c, tail, rest, later);
        }
      }
    }
  }

  lemma {:induction false} NoBackslashes(t: string)
    ensures Backslashes(0) + t == t
  {
  }

  lemma {:induction false} PlainReadsBack(value: string, rest: string)
    requires Ends(rest) && forall i :: 0 <= i < |value| ==> !Special(value[i])
    ensures ReadArgument(value + rest, false) == Piece(value, rest)
    decreases |value|
  {
    var s := value + rest;
    if value == "" {
      assert s == rest;
      ReadEnd(rest);
    } else {
      var n := LeadingBackslashes(s);
      if n > |value| { LeadingAre(s, |value|); }
      assert n <= |value|;
      if n == |s| {
        assert rest == "" && s == value;
      } else {
        assert n < |value| ==> !Special(s[n]);
        assert s[n] != QUOTE;
        var k := if n > 0 then n else 1;
        assert s[..k] == value[..k] && s[k..] == value[k..] + rest && value[..k] + value[k..] == value;
        assert n == 0 ==> s[..1] == [s[0]] && !Special(s[0]);
        PlainReadsBack(value[k..], rest);
      }
    }
  }

  lemma {:induction false} LeadingAre(s: string, i: nat)
    requires i < LeadingBackslashes(s)
    ensures s[i] == BACKSLASH
  {
    if i > 0 { LeadingAre(s[1..], i - 1); }
  }

  lemma {:induction false} ArgumentReadsBack(value: string, rest: string)
    requires Ends(rest)
    ensures ReadArgument(Quoted(value) + rest, false) == Piece(value, rest)
  {
    if NeedsQuotes(value) {
      var body := QuotedBody(value, 0);
      BodyReadsBack(value, 0, rest);
      Regroup([QUOTE], body, rest);
      assert Backslashes(0) + ([QUOTE] + (body + rest)) == [QUOTE] + (body + rest);
      assert Backslashes(0) + value == value;
      ReadQuote(0, body + rest, false);
    } else {
      PlainReadsBack(value, rest);
    }
  }

  lemma {:induction false} TailEnds(arguments: seq<string>)
    ensures Ends(JoinedTail(arguments))
  {
  }

  /** One argument behind its separator. */
  lemma {:induction false} ReadsNext(first: string, value: string, later: string)
    requires first != "" && !Separator(first[0]) && ReadArgument(first + later, false) == Piece(value, later)
    ensures ReadArguments(" " + first + later) == [value] + ReadArguments(later)
  {
    var s := " " + first + later;
    assert s[1..] == first + later && (first + later)[0] == first[0];
    hide ReadArgument;
    assert ReadArguments(s) == ReadArguments(first + later);
  }

  /** Any list of arguments comes back from the joined form. */
  lemma {:induction false} TailReadsBack(arguments: seq<string>)
    ensures ReadArguments(JoinedTail(arguments)) == arguments
  {
    if arguments != [] {
      var first, later := Quoted(arguments[0]), JoinedTail(arguments[1..]);
      TailReadsBack(arguments[1..]);
      TailEnds(arguments[1..]);
      ArgumentReadsBack(arguments[0], later);
      QuotedNonEmpty(arguments[0]);
      hide ReadArgument, ReadArguments, Quoted;
      ReadsNext(first, arguments[0], later);
      assert [arguments[0]] + arguments[1..] == arguments;
    }
  }

  // ----- the program name -----

  /** The backslashes that the closing quote doubles. */
  function Doubled(value: string, pending: nat): nat {
    if value == "" then pending
    else if value[0] == BACKSLASH then Doubled(value[1..], pending + 1)
    else Doubled(value[1..], 0)
  }

  lemma {:induction false} DoubledIff(value: string, pending: nat)
    ensures Doubled(value, pending) == 0 <==> if value == "" then pending == 0 else value[|value| - 1] != BACKSLASH
  {
    if value != "" {
      DoubledIff(value[1..], if value[0] == BACKSLASH then pending + 1 else 0);
    }
  }

  lemma {:induction false} BodyWithoutQuotes(value: string, pending: nat)
    requires QUOTE !in value
    ensures QuotedBody(value, pending) == Backslashes(pending) + value + Backslashes(Doubled(value, pending)) + [QUOTE]
    decreases |value|
  {
    if value == "" {
      DoubleBackslashes(pending);
      assert Backslashes(pending) + "" == Backslashes(pending);
    } else {
      var c, later := value[0], value[1..];
      assert value == [c] + later;
      if c == BACKSLASH {
        BodyWithoutQuotes(later, pending + 1);
        OneMore(pending, later);
      } else {
        BodyWithoutQuotes(later, 0);
        var end := Backslashes(Doubled(later, 0)) + [QUOTE];
        assert QuotedBody(later, 0) == later + end by { assert Backslashes(0) + later == later; }
        assert Backslashes(pending) + [c] + (later + end) == Backslashes(pending) + value + end;
      }
    }
  }

  lemma {:induction false} DoubleBackslashes(n: nat)
    ensures Backslashes(n * 2) == Backslashes(n) + Backslashes(n)
  {
  }

  lemma {:induction false} ReadProgramPlain(text: string, rest: string, quoted: bool)
    requires QUOTE !in text && (quoted || forall i :: 0 <= i < |text| ==> !Separator(text[i]))
    ensures ReadProgram(text + rest, quoted) == Prefixed(text, ReadProgram(rest, quoted))
  {
    if text == "" {
      assert text + rest == rest;
    } else {
      var s := text + rest;
      assert s[1..] == text[1..] + rest && text == [text[0]] + text[1..];
      ReadProgramPlain(text[1..], rest, quoted);
    }
  }

  /** A program name survives unless it has a quote, or is quoted and ends in a backslash. */
  predicate ProgramSurvives(name: string) {
    QUOTE !in name && (NeedsQuotes(name) && name != "" ==> name[|name| - 1] != BACKSLASH)
  }

  lemma {:induction false} ReadQuotedProgram(text: string, rest: string)
    requires QUOTE !in text && Ends(rest)
    ensures ReadProgram([QUOTE] + (text + ([QUOTE] + rest)), false) == Piece(text, rest)
  {
    var inner := text + ([QUOTE] + rest);
    assert ([QUOTE] + inner)[1..] == inner && ([QUOTE] + rest)[1..] == rest;
    assert ReadProgram(rest, false) == Piece("", rest);
    assert ReadProgram([QUOTE] + rest, true) == ReadProgram(rest, false);
    ReadProgramPlain(text, [QUOTE] + rest, true);
    assert text + "" == text;
  }

  lemma {:induction false} ProgramReadsBack(name: string, rest: string)
    requires QUOTE !in name && Ends(rest)
    ensures ReadProgram(Quoted(name) + rest, false) ==
      Piece(name + Backslashes(if NeedsQuotes(name) then Doubled(name, 0) else 0), rest)
  {
    if NeedsQuotes(name) {
      BodyWithoutQuotes(name, 0);
      NoBackslashes(name);
      var n := Doubled(name, 0);
      var text := name + Backslashes(n);
      assert QUOTE !in text;
      assert Quoted(name) == [QUOTE] + (text + [QUOTE]);
      hide *;
      assert [QUOTE] + (text + [QUOTE]) + rest == [QUOTE] + (text + ([QUOTE] + rest));
      ReadQuotedProgram(text, rest);
    } else {
      assert ReadProgram(rest, false) == Piece("", rest);
      ReadProgramPlain(name, rest, false);
    }
  }

  lemma {:induction false} ProgramHasNoQuote(s: string, quoted: bool)
    ensures QUOTE !in ReadProgram(s, quoted).text
  {
    if !(s == "" || (!quoted && Separator(s[0]))) {
      ProgramHasNoQuote(s[1..], if s[0] == QUOTE then !quoted else quoted);
    }
  }

  // ----- NUL -----

  predicate NulFree(s: string) { NUL !in s }

  lemma {:induction false} CStringIsNulFree(s: string)
    ensures NulFree(AsCString(s))
    ensures NulFree(s) ==> AsCString(s) == s
  {
    if s != "" { CStringIsNulFree(s[1..]); }
  }

  lemma {:induction false} ReadingIsNulFree(s: string, quoted: bool)
    requires NulFree(s)
    ensures NulFree(ReadArgument(s, quoted).text) && NulFree(ReadArgument(s, quoted).rest)
    decreases |s|
  {
    var n := LeadingBackslashes(s);
    if n < |s| {
      if s[n] == QUOTE {
        var after := s[n + 1..];
        if n % 2 == 0 && quoted && after != "" && after[0] == QUOTE {
          ReadingIsNulFree(after[1..], true);
        } else {
          ReadingIsNulFree(after, if n % 2 == 1 then quoted else !quoted);
        }
      } else if n > 0 {
        ReadingIsNulFree(s[n..], quoted);
      } else if quoted || !Separator(s[0]) {
        ReadingIsNulFree(s[1..], quoted);
      }
    }
  }

  lemma {:induction false} ReadingAllIsNulFree(s: string)
    requires NulFree(s)
    ensures forall i :: 0 <= i < |ReadArguments(s)| ==> NulFree(ReadArguments(s)[i])
    decreases |s|
  {
    if s != "" {
      if Separator(s[0]) {
        ReadingAllIsNulFree(s[1..]);
      } else {
        ReadingIsNulFree(s, false);
        ReadProgress(s);
        ReadingAllIsNulFree(ReadArgument(s, false).rest);
      }
    }
  }

  lemma {:induction false} ProgramIsNulFree(s: string, quoted: bool)
    requires NulFree(s)
    ensures NulFree(ReadProgram(s, quoted).text) && NulFree(ReadProgram(s, quoted).rest)
  {
    if !(s == "" || (!quoted && Separator(s[0]))) {
      ProgramIsNulFree(s[1..], if s[0] == QUOTE then !quoted else quoted);
    }
  }

  lemma {:induction false} BodyIsNulFree(value: string, pending: nat)
    requires NulFree(value)
    ensures NulFree(QuotedBody(value, pending))
    decreases |value|
  {
    if value != "" { BodyIsNulFree(value[1..], if value[0] == BACKSLASH then pending + 1 else 0); }
  }

  lemma {:induction false} QuotedIsNulFree(value: string)
    requires NulFree(value)
    ensures NulFree(Quoted(value))
  {
    BodyIsNulFree(value, 0);
  }

  lemma {:induction false} JoinedIsNulFree(arguments: seq<string>)
    requires forall i :: 0 <= i < |arguments| ==> NulFree(arguments[i])
    ensures NulFree(JoinedTail(arguments))
  {
    if arguments != [] {
      JoinedIsNulFree(arguments[1..]);
      QuotedIsNulFree(arguments[0]);
    }
  }

  // ----- the whole command line -----

  /**
   The child sees exactly the intended argument list if and only if no argument holds a NUL and the program name
   survives its own, escape-free, reading rule.  Nothing is asked of the other arguments: quotes, empty strings and
   runs of backslashes all come back.
   */
  lemma {:induction false} RoundTripIff(arguments: seq<string>)
    requires arguments != []
    ensures ReadCommandLine(Joined(arguments)) == arguments <==>
            ProgramSurvives(arguments[0]) && forall i :: 0 <= i < |arguments| ==> NulFree(arguments[i])
  {
    hide ReadArgument, ReadArguments, ReadProgram, Quoted, Doubled, AsCString, QuotedBody, NeedsQuotes;
    var name, tail, line := arguments[0], JoinedTail(arguments[1..]), Joined(arguments);
    TailEnds(arguments[1..]);
    CStringIsNulFree(line);
    if ReadCommandLine(line) == arguments {
      ProgramIsNulFree(AsCString(line), false);
      ReadingAllIsNulFree(ReadProgram(AsCString(line), false).rest);
    }
    if forall i :: 0 <= i < |arguments| ==> NulFree(arguments[i]) {
      QuotedIsNulFree(name);
      JoinedIsNulFree(arguments[1..]);
      assert AsCString(line) == line;
      ProgramHasNoQuote(line, false);
      if QUOTE !in name {
        ProgramReadsBack(name, tail);
        TailReadsBack(arguments[1..]);
        DoubledIff(name, 0);
        assert [name] + arguments[1..] == arguments;
        if ProgramSurvives(name) { assert name + Backslashes(0) == name; }
      }
    }
  }

  /** A directory of that name ends in a backslash, which the child sees twice. */
  lemma {:induction false} ProgramNameCanChange()
    ensures ReadCommandLine(Joined(["a b\\"])) == ["a b\\\\"]
  {
    var name := "a b\\";
    var line := Joined([name]);
    assert Special(name[1]) && NulFree(name) && Doubled(name, 0) == 1;
    assert JoinedTail([name][1..]) == "" && Quoted(name) + "" == line;
    QuotedIsNulFree(name);
    CStringIsNulFree(line);
    ProgramReadsBack(name, "");
    assert name + Backslashes(1) == "a b\\\\";
  }
}
