/**
 The command line's input source: a polled, line-assembling state machine over
 standard input (the POSIX path).
 */
module ConsoleInput {
  import opened Collections

  /** What the operating system answers when `poll` gets as far as asking it. */
  datatype Event =
    | NotReady            // nothing to read, or the call was interrupted
    | Failed              // polling or reading failed
    | AtEnd               // read returned no bytes
    | Bytes(text: string)

  /** The bytes an event brings. */
  function Arrived(e: Event): string { if e.Bytes? then e.text else "" }

  datatype Status = Ready | Pending | EndOfInput | Error

  datatype Reply = Reply(status: Status, text: string)

  // ----- what the lines of a stream are -----

  function FindNewline(s: string): (i: nat)
    ensures i <= |s|
    ensures i < |s| ==> s[i] == '\n'
    ensures forall k :: 0 <= k < i ==> s[k] != '\n'
  {
    if s == "" || s[0] == '\n' then 0 else 1 + FindNewline(s[1..])
  }

  function DropReturn(line: string): string {
    if line != "" && line[|line| - 1] == '\r' then line[..|line| - 1] else line
  }

  /** The stream split at newlines; what follows the last newline is a line only once the stream has ended. */
  function Lines(s: string, ended: bool): seq<string>
    decreases |s|
  {
    var i := FindNewline(s);
    if i < |s| then [DropReturn(s[..i])] + Lines(s[i + 1..], ended)
    else if ended && s != "" then [s] else []
  }

  /** Empty, or up to and including a newline. */
  predicate Terminated(s: string) { s == "" || s[|s| - 1] == '\n' }

  lemma {:induction false} FindNewlineIs(s: string, i: nat)
    requires i <= |s| && (i < |s| ==> s[i] == '\n') && forall k :: 0 <= k < i ==> s[k] != '\n'
    ensures FindNewline(s) == i
  {
  }

  lemma {:induction false} LinesStep(s: string, i: nat, ended: bool)
    requires i < |s| && s[i] == '\n' && forall k :: 0 <= k < i ==> s[k] != '\n'
    ensures Lines(s, ended) == [DropReturn(s[..i])] + Lines(s[i + 1..], ended)
  {
    FindNewlineIs(s, i);
    hide FindNewline;
  }

  /** What follows a does not change its first line. */
  lemma {:induction false} FirstLine(a: string, b: string, i: nat, ended: bool)
    requires i < |a| && a[i] == '\n' && forall k :: 0 <= k < i ==> a[k] != '\n'
    ensures Lines(a + b, ended) == [DropReturn(a[..i])] + Lines(a[i + 1..] + b, ended)
  {
    var s := a + b;
    assert s[..i] == a[..i] && s[i + 1..] == a[i + 1..] + b;
    assert forall k :: 0 <= k <= i ==> s[k] == a[k];
    hide Lines, DropReturn;
    LinesStep(s, i, ended);
  }

  lemma {:induction false} TerminatedRest(a: string, i: nat)
    requires Terminated(a) && i < |a|
    ensures Terminated(a[i + 1..])
  {
  }

  lemma {:induction false} NoLines(b: string, ended: bool)
    ensures Lines("" + b, ended) == Lines("", false) + Lines(b, ended)
  {
    assert "" + b == b;
    assert Lines("", false) == [];
  }

  /** A newline at the end of a separates the lines of a from those of b. */
  lemma {:induction false} LinesConcat(a: string, b: string, ended: bool)
    requires Terminated(a)
    ensures Lines(a + b, ended) == Lines(a, false) + Lines(b, ended)
    decreases |a|
  {
    if a == "" {
      NoLines(b, ended);
    } else {
      var i := FindNewline(a);
      assert i < |a|;
      hide *;
      FirstLine(a, b, i, ended);
      LinesStep(a, i, false);
      TerminatedRest(a, i);
      LinesConcat(a[i + 1..], b, ended);
      Regroup([DropReturn(a[..i])], Lines(a[i + 1..], false), Lines(b, ended));
    }
  }

  lemma {:induction false} LinesTail(s: string)
    requires '\n' !in s
    ensures Lines(s, true) == if s == "" then [] else [s]
  {
  }

  function Unlines(lines: seq<string>): string {
    if lines == [] then "" else lines[0] + "\n" + Unlines(lines[1..])
  }

  function DropReturns(lines: seq<string>): (r: seq<string>)
    ensures |r| == |lines| && forall i :: 0 <= i < |lines| ==> r[i] == DropReturn(lines[i])
  {
    if lines == [] then [] else [DropReturn(lines[0])] + DropReturns(lines[1..])
  }

  lemma {:induction false} LineFirst(line: string, rest: string, ended: bool)
    requires '\n' !in line
    ensures Lines(line + "\n" + rest, ended) == [DropReturn(line)] + Lines(rest, ended)
  {
    var a := line + "\n";
    assert a[..|line|] == line && a[|line| + 1..] == "" && "" + rest == rest;
    assert forall k :: 0 <= k < |line| ==> a[k] == line[k];
    FirstLine(a, rest, |line|, ended);
  }

  /** Splitting undoes terminating each line with a newline, and ignores one carriage return before it. */
  lemma {:induction false} LinesOfUnlines(lines: seq<string>, ended: bool)
    requires forall i :: 0 <= i < |lines| ==> '\n' !in lines[i]
    ensures Lines(Unlines(lines), ended) == DropReturns(lines)
  {
    if lines != [] {
      LinesOfUnlines(lines[1..], ended);
      LineFirst(lines[0], Unlines(lines[1..]), ended);
    }
  }

  /** Every line with its terminator, a newline alone or after a carriage return. */
  function Terminate(lines: seq<string>, carriageReturn: bool): string {
    if lines == [] then ""
    else lines[0] + (if carriageReturn then "\r\n" else "\n") + Terminate(lines[1..], carriageReturn)
  }

  /**
   Lines come back as they were, however they were terminated.  Only a line that itself ends in a carriage return needs
   a second one.
   */
  lemma {:induction false} LinesComeBack(lines: seq<string>, carriageReturn: bool, ended: bool)
    requires forall i :: 0 <= i < |lines| ==> '\n' !in lines[i]
    requires carriageReturn || forall i :: 0 <= i < |lines| ==> lines[i] == "" || lines[i][|lines[i]| - 1] != '\r'
    ensures Lines(Terminate(lines, carriageReturn), ended) == lines
  {
    hide Lines, DropReturn, FindNewline;
    if lines != [] {
      LinesComeBack(lines[1..], carriageReturn, ended);
      var line := if carriageReturn then lines[0] + "\r" else lines[0];
      var rest := Terminate(lines[1..], carriageReturn);
      FirstTerminated(lines, carriageReturn);
      LineFirst(line, rest, ended);
      ReturnDropped(lines[0], carriageReturn);
    } else {
      EmptyLines(ended);
    }
  }

  lemma {:induction false} EmptyLines(ended: bool)
    ensures Lines("", ended) == []
  {
  }

  lemma {:induction false} FirstTerminated(lines: seq<string>, carriageReturn: bool)
    requires lines != []
    ensures Terminate(lines, carriageReturn) ==
      (if carriageReturn then lines[0] + "\r" else lines[0]) + "\n" + Terminate(lines[1..], carriageReturn)
  {
    assert "\r" + "\n" == "\r\n";
    Regroup(lines[0], "\r", "\n");
  }

  lemma {:induction false} ReturnDropped(line: string, carriageReturn: bool)
    requires carriageReturn || line == "" || line[|line| - 1] != '\r'
    ensures DropReturn(if carriageReturn then line + "\r" else line) == line
  {
  }

  // ----- the input source -----

  class Console {
    var prompted: bool
    var ended: bool
    var buffered: string
    /** Everything read so far, how much of it has been turned into lines, and those lines. */
    ghost var received: string
    ghost var consumed: string
    ghost var delivered: seq<string>
    /** Prompts printed, and requests answered with a line or the end of the input. */
    ghost var prompts: nat
    ghost var completed: nat

    ghost predicate Valid()
      reads this
    {
      && received == consumed + buffered
      && (!ended ==> Terminated(consumed) && delivered == Lines(consumed, false))
      && (ended ==> delivered + Lines(buffered, true) == Lines(received, true))
      && prompts == completed + if prompted then 1 else 0
    }

    constructor ()
      ensures Valid() && !ended && !prompted && received == "" && delivered == [] && prompts == 0
    {
      prompted, ended, buffered := false, false, "";
      received, consumed, delivered, prompts, completed := "", "", [], 0, 0;
    }

    /** At any time, the lines so far and the lines still in the buffer are the lines of what was read. */
    lemma {:induction false} Accounted()
      requires Valid()
      ensures delivered + Lines(buffered, ended) == Lines(received, ended)
    {
      if !ended { LinesConcat(consumed, buffered, false); }
    }

    /**
     `poll`.  It asks the operating system, and so uses `event`, only when no complete line is buffered and the stream
     has not ended.  A request is prompted for once, however often it is polled.
     */
    method Poll(event: Event) returns (reply: Reply, used: bool)
      requires Valid() && (event.Bytes? ==> event.text != "")
      modifies this
      ensures Valid()
      ensures used <==> !old(ended) && '\n' !in old(buffered)
      ensures received == old(received) + if used then Arrived(event) else ""
      ensures ended <==> old(ended) || (used && event == AtEnd)
      ensures delivered == old(delivered) + if reply.status == Ready then [reply.text] else []
      ensures reply.status == Ready ==> |buffered| < |old(buffered)|
      ensures reply.status in {Pending, Error} <==> used
      ensures used ==> buffered == old(buffered) + Arrived(event)
      ensures reply.status == EndOfInput ==> ended && buffered == "" && delivered == Lines(received, true)
      ensures reply.status == Error <==> used && event == Failed
      ensures completed == old(completed) + if reply.status in {Ready, EndOfInput} then 1 else 0
      ensures prompted <==> reply.status in {Pending, Error}
    {
      hide Lines, FindNewline;
      used := false;
      if !prompted {
        prompts := prompts + 1;
        prompted := true;
      }
      var newline := FindNewline(buffered);
      if newline < |buffered| {
        var line := FinishLine(newline);
        return Reply(Ready, line), used;
      }
      if ended {
        reply := FinishInput();
        return;
      }
      used := true;
      match event {
        case NotReady =>
        case Failed =>
          reply := Reply(Error, "");
          return;
        case AtEnd =>
          LinesConcat(consumed, buffered, true);
          ended := true;
        case Bytes(text) =>
          buffered := buffered + text;
          received := received + text;
      }
      reply := Reply(Pending, "");
    }

    /** A buffered line completes the request. */
    method FinishLine(newline: nat) returns (line: string)
      requires Valid() && prompted && newline < |buffered| && newline == FindNewline(buffered)
      modifies this
      ensures Valid() && !prompted && ended == old(ended) && received == old(received)
        && completed == old(completed) + 1
      ensures |buffered| < |old(buffered)| && delivered == old(delivered) + [line] && prompts == old(prompts)
    {
      line := buffered[..newline];
      TakeLine(newline);
      hide Lines, FindNewline, Terminated;
      if line != "" && line[|line| - 1] == '\r' {
        line := line[..|line| - 1];
      }
      delivered := delivered + [line];
      consumed := consumed + buffered[..newline + 1];
      buffered := buffered[newline + 1..];
      prompted := false;
      completed := completed + 1;
    }

    /** After the end of the stream: the unterminated tail once, and then the end, over and over. */
    method FinishInput() returns (reply: Reply)
      requires Valid() && prompted && ended && '\n' !in buffered
      modifies this
      ensures Valid() && !prompted && ended && received == old(received) && completed == old(completed) + 1
      ensures buffered == "" && prompts == old(prompts)
      ensures reply == if old(buffered) == "" then Reply(EndOfInput, "") else Reply(Ready, old(buffered))
      ensures delivered == old(delivered) + if reply.status == Ready then [reply.text] else []
      ensures delivered == Lines(received, true)
    {
      LinesTail(buffered);
      LinesTail("");
      hide Lines;
      prompted := false;
      completed := completed + 1;
      if buffered != "" {
        var line := buffered;
        consumed := received;
        buffered := "";
        delivered := delivered + [line];
        return Reply(Ready, line);
      }
      assert delivered + [] == delivered;
      return Reply(EndOfInput, "");
    }

    lemma {:induction false} TakeLine(newline: nat)
      requires Valid() && newline < |buffered| && newline == FindNewline(buffered)
      ensures var line, rest := DropReturn(buffered[..newline]), buffered[newline + 1..];
        var done := consumed + buffered[..newline + 1];
        && received == done + rest
        && (!ended ==> Terminated(done) && Lines(done, false) == delivered + [line])
        && (ended ==> delivered + [line] + Lines(rest, true) == Lines(received, true))
    {
      var line, rest := DropReturn(buffered[..newline]), buffered[newline + 1..];
      var part := buffered[..newline + 1];
      assert part + rest == buffered;
      Regroup(consumed, part, rest);
      if ended {
        hide Lines, FindNewline, DropReturn;
        LinesStep(buffered, newline, true);
        Regroup(delivered, [line], Lines(rest, true));
      } else {
        OneLine(part, newline);
        hide Lines, FindNewline, DropReturn;
        assert part[..newline] == buffered[..newline];
        LinesConcat(consumed, part, false);
      }
    }
  }

  lemma {:induction false} OneLine(part: string, newline: nat)
    requires |part| == newline + 1 && part[newline] == '\n' && forall k :: 0 <= k < newline ==> part[k] != '\n'
    ensures Lines(part, false) == [DropReturn(part[..newline])]
  {
    LinesStep(part, newline, false);
    assert part[newline + 1..] == "" && Lines("", false) == [];
  }

  // ----- whole runs -----

  /** The bytes that arrive before the first end of file. */
  function Stream(events: seq<Event>): string {
    if events == [] || events[0] == AtEnd then ""
    else Arrived(events[0]) + Stream(events[1..])
  }

  lemma {:induction false} StreamStep(events: seq<Event>, k: nat)
    requires k < |events| && forall i :: 0 <= i < k ==> events[i] != AtEnd
    ensures Stream(events[..k + 1]) == Stream(events[..k]) + Arrived(events[k])
    ensures events[k] == AtEnd ==> Stream(events) == Stream(events[..k])
  {
    if k == 0 {
      assert events[..1] == [events[0]];
    } else {
      var e := events[1..];
      StreamStep(e, k - 1);
      assert events[..k + 1][1..] == e[..k] && events[..k][1..] == e[..k - 1];
      assert Arrived(events[0]) + (Stream(e[..k - 1]) + Arrived(events[k])) ==
        Arrived(events[0]) + Stream(e[..k - 1]) + Arrived(events[k]);
    }
  }

  /**
   A host that keeps asking until the input ends.  However the stream is cut into reads, and whatever not-ready,
   interrupted and failed polls come between, it receives the lines of the stream, and sees one prompt per line and one
   for the end.
   */
  method Drain(events: seq<Event>) returns (lines: seq<string>, ghost prompts: nat)
    requires forall i :: 0 <= i < |events| && events[i].Bytes? ==> events[i].text != ""
    ensures lines == Lines(Stream(events), true)
    ensures prompts == |lines| + 1
  {
    var console := new Console();
    var next := 0;
    lines := [];
    var open := true;
    while open
      invariant fresh(console) && console.Valid() && next <= |events| && lines == console.delivered
      invariant !console.ended ==>
        (forall i :: 0 <= i < next ==> events[i] != AtEnd) && console.received == Stream(events[..next])
      invariant console.ended ==> console.received == Stream(events)
      invariant console.completed == |lines| + if open then 0 else 1
      invariant !open ==> console.ended && lines == Lines(console.received, true) && !console.prompted
      decreases open, !console.ended, |events| - next, |console.buffered|
    {
      var event := if next < |events| then events[next] else AtEnd;
      if next < |events| { if !console.ended { StreamStep(events, next); } } else { assert events[..next] == events; }
      var reply, used := console.Poll(event);
      if reply.status == Ready {
        lines := lines + [reply.text];
      }
      if used && next < |events| {
        next := next + 1;
      }
      open := reply.status != EndOfInput;
    }
    prompts := console.prompts;
  }
}
