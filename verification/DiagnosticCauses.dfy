/**
 `writeCause`: diagnostic causes nest like values do, under the same limit.
 */
module DiagnosticCauses {
  import opened Wrappers
  import opened JsonText
  import opened WriterStates
  import opened JsonWriters
  import opened MachineProtocol
  import opened ProtocolWalk
  import opened ProtocolResults

  datatype TraceFrame = TraceFrame(sourceName: string, functionName: string, line: int)

  datatype Cause = Cause(identifier: string, message: string, stack: seq<TraceFrame>, causes: seq<Cause>)

  function TraceJson(f: TraceFrame): Json {
    JObject([Member("source", JString(f.sourceName)), Member("function", JString(f.functionName)),
             Member("line", JNumber(SignedDecimal(f.line)))])
  }

  function TracesJson(fs: seq<TraceFrame>): seq<Json> {
    if fs == [] then [] else [TraceJson(fs[0])] + TracesJson(fs[1..])
  }

  function CauseHead(c: Cause): seq<Member> {
    [Member("identifier", JString(c.identifier)), Member("message", JString(c.message))] +
    [Member("stack", JArray(TracesJson(c.stack)))]
  }

  function CauseJson(c: Cause): Json
    decreases c, 1
  {
    JObject(CauseHead(c) + [Member("causes", JArray(CausesJson(c.causes)))])
  }

  function CausesJson(cs: seq<Cause>): seq<Json>
    decreases cs, 0
  {
    if cs == [] then [] else [CauseJson(cs[0])] + CausesJson(cs[1..])
  }

  /** Levels of causes below this one. */
  function CauseNesting(c: Cause): nat
    decreases c, 1
  {
    CausesNesting(c.causes)
  }

  function CausesNesting(cs: seq<Cause>): nat
    decreases cs, 0
  {
    if cs == [] then 0
    else
      var a, b := 1 + CauseNesting(cs[0]), CausesNesting(cs[1..]);
      if a < b then b else a
  }

  method WriteTrace(w: JsonWriter, f: TraceFrame)
    requires w.Valid() && CanPut(w.state)
    modifies w
    ensures w.Valid() && old(WellNested(w.state)) && w.state == Put(old(w.state), TraceJson(f))
  {
    ghost var st := w.state;
    var fields := [Member("source", JString(f.sourceName)), Member("function", JString(f.functionName)),
                   Member("line", JNumber(SignedDecimal(f.line)))];
    OpenFields(w, fields, st);
    CloseObject(w, st, fields);
  }

  method WriteTraces(w: JsonWriter, fs: seq<TraceFrame>, ghost st: State)
    requires w.Valid() && WellNested(st) && CanPut(st) && w.state == InArray(st, [])
    modifies w
    ensures w.Valid() && w.state == InArray(st, TracesJson(fs))
  {
    hide JsonWriter.Valid;
    ghost var done: seq<Json> := [];
    assert done + TracesJson(fs[0..]) == TracesJson(fs) by { assert fs[0..] == fs; }
    for k := 0 to |fs|
      invariant w.Valid() && w.state == InArray(st, done)
      invariant done + TracesJson(fs[k..]) == TracesJson(fs)
    {
      ItemCanFollow(st, done, TraceJson(fs[k]));
      WriteTrace(w, fs[k]);
      assert fs[k..][1..] == fs[k + 1..];
      Shift(done, TraceJson(fs[k]), TracesJson(fs[k + 1..]));
      done := done + [TraceJson(fs[k])];
    }
    assert done + TracesJson(fs[|fs|..]) == done;
  }

  method WriteCauses(w: JsonWriter, cs: seq<Cause>, depth: nat, ghost st: State) returns (written: bool)
    requires w.Valid() && WellNested(st) && CanPut(st) && w.state == InArray(st, [])
    requires 1 <= depth <= MAXIMUM_NESTING_DEPTH + 1
    modifies w
    ensures w.Valid()
    ensures written <==> depth - 1 + CausesNesting(cs) <= MAXIMUM_NESTING_DEPTH
    ensures written ==> w.state == InArray(st, CausesJson(cs))
    decreases cs, 0
  {
    hide JsonWriter.Valid;
    ghost var done: seq<Json> := [];
    assert done + CausesJson(cs[0..]) == CausesJson(cs) by { assert cs[0..] == cs; }
    assert cs[0..] == cs;
    for k := 0 to |cs|
      invariant w.Valid() && w.state == InArray(st, done)
      invariant done + CausesJson(cs[k..]) == CausesJson(cs)
      invariant depth - 1 + CausesNesting(cs) <= MAXIMUM_NESTING_DEPTH <==>
        depth - 1 + CausesNesting(cs[k..]) <= MAXIMUM_NESTING_DEPTH
    {
      assert cs[k..][1..] == cs[k + 1..];
      ItemCanFollow(st, done, CauseJson(cs[k]));
      written := WriteCause(w, cs[k], depth);
      if !written {
        return;
      }
      Shift(done, CauseJson(cs[k]), CausesJson(cs[k + 1..]));
      done := done + [CauseJson(cs[k])];
    }
    assert done + CausesJson(cs[|cs|..]) == done;
    return true;
  }

  /** `writeCause`: succeeds exactly within the nesting limit, and then has written the whole tree of causes. */
  method WriteCause(w: JsonWriter, c: Cause, depth: nat) returns (written: bool)
    requires w.Valid() && CanPut(w.state)
    modifies w
    ensures w.Valid() && old(WellNested(w.state))
    ensures written <==> depth + CauseNesting(c) <= MAXIMUM_NESTING_DEPTH
    ensures written ==> w.state == Put(old(w.state), CauseJson(c))
    decreases c, 1
  {
    ghost var st := w.state;
    assert WellNested(st);
    hide JsonWriter.Valid;
    if depth > MAXIMUM_NESTING_DEPTH {
      return false;
    }
    var first := [Member("identifier", JString(c.identifier)), Member("message", JString(c.message))];
    OpenFields(w, first, st);
    OpenList(w, "stack", st, first);
    WriteTraces(w, c.stack, AtKey(st, first, "stack"));
    CloseList(w, "stack", st, first, TracesJson(c.stack));
    OpenList(w, "causes", st, CauseHead(c));
    written := WriteCauses(w, c.causes, depth + 1, AtKey(st, CauseHead(c), "causes"));
    if written {
      CloseList(w, "causes", st, CauseHead(c), CausesJson(c.causes));
      CloseObject(w, st, CauseHead(c) + [Member("causes", JArray(CausesJson(c.causes)))]);
    }
  }

  // ----- the document -----

  lemma {:induction false} TracesProper(fs: seq<TraceFrame>)
    ensures ProperItems(TracesJson(fs))
  {
    if fs != [] {
      IntegerRoundTrip(fs[0].line);
      ProperMembersAll(TraceJson(fs[0]).members);
      TracesProper(fs[1..]);
    }
  }

  lemma {:induction false} CauseProper(c: Cause)
    ensures Proper(CauseJson(c))
    decreases c, 1
  {
    TracesProper(c.stack);
    CausesProper(c.causes);
    assert Proper(JArray(TracesJson(c.stack))) && Proper(JArray(CausesJson(c.causes)));
    hide ProperItems;
    ProperMembersAll(CauseJson(c).members);
  }

  lemma {:induction false} CausesProper(cs: seq<Cause>)
    ensures ProperItems(CausesJson(cs))
    decreases cs, 0
  {
    if cs != [] {
      CauseProper(cs[0]);
      CausesProper(cs[1..]);
    }
  }

  /** One cause as one document: it is refused exactly beyond the nesting limit, and otherwise parses back. */
  method SerializeCause(c: Cause) returns (text: Option<string>)
    ensures text.Some? <==> CauseNesting(c) <= 128
    ensures text.Some? ==> ParseText(text.value) == Some(Clean(CauseJson(c)))
  {
    CauseProper(c);
    TextRoundTrip(CauseJson(c));
    hide CauseJson, CauseNesting, Clean, Render;
    var writer := new JsonWriter();
    var written := WriteCause(writer, c, 0);
    if !written {
      return None;
    }
    text := writer.Finish();
  }
}
