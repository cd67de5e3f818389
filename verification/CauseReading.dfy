/** Reading the document of a cause back: it gives the whole tree of causes, with its texts made UTF-8. */
module CauseReading {
  import opened Utf8
  import opened JsonText
  import opened DocumentReader
  import opened ProtocolContents
  import opened DiagnosticCauses

  function ReadTrace(j: Json): TraceFrame {
    var ms := match j case JObject(ms) => ms case _ => [];
    TraceFrame(AsText(Lookup(ms, "source")), AsText(Lookup(ms, "function")), AsWhole(Lookup(ms, "line")))
  }

  function ReadTraces(items: seq<Json>): seq<TraceFrame> {
    if items == [] then [] else [ReadTrace(items[0])] + ReadTraces(items[1..])
  }

  function ReadCause(j: Json): Cause
    decreases j, 1
  {
    var ms := match j case JObject(ms) => ms case _ => [];
    LookupInside(ms, "causes");
    var causes := match Lookup(ms, "causes")
      case JArray(items) => (if j.JObject? then ReadCauses(items) else [])
      case _ => [];
    Cause(AsText(Lookup(ms, "identifier")), AsText(Lookup(ms, "message")), ReadTraces(AsList(Lookup(ms, "stack"))),
          causes)
  }

  function ReadCauses(items: seq<Json>): seq<Cause>
    decreases items, 0
  {
    if items == [] then [] else [ReadCause(items[0])] + ReadCauses(items[1..])
  }

  // ----- the same tree in UTF-8 -----

  function CleanTrace(f: TraceFrame): TraceFrame {
    TraceFrame(Sanitize(f.sourceName), Sanitize(f.functionName), f.line)
  }

  function CleanTraces(fs: seq<TraceFrame>): seq<TraceFrame> {
    if fs == [] then [] else [CleanTrace(fs[0])] + CleanTraces(fs[1..])
  }

  function CleanCause(c: Cause): Cause
    decreases c, 1
  {
    Cause(Sanitize(c.identifier), Sanitize(c.message), CleanTraces(c.stack), CleanCauses(c.causes))
  }

  function CleanCauses(cs: seq<Cause>): seq<Cause>
    decreases cs, 0
  {
    if cs == [] then [] else [CleanCause(cs[0])] + CleanCauses(cs[1..])
  }

  // ----- reading back -----

  lemma {:induction false} TraceReadBack(f: TraceFrame)
    ensures ReadTrace(Clean(TraceJson(f))) == CleanTrace(f)
  {
    hide Clean, CleanMembers, Lookup, Sanitize, SignedDecimal, SignedValue;
    AsciiStays("source");
    AsciiStays("function");
    AsciiStays("line");
    var ms := TraceJson(f).members;
    assert Named(ms);
    CleanTextIs(f.sourceName);
    CleanTextIs(f.functionName);
    CleanNumber(SignedDecimal(f.line));
    LineReadBack(f.line);
    CleanLookup(ms, 0);
    CleanLookup(ms, 1);
    CleanLookup(ms, 2);
    CleanObject(ms);
  }

  lemma {:induction false} CleanNumber(lexeme: string)
    ensures Clean(JNumber(lexeme)) == JNumber(lexeme)
  {
  }

  lemma {:induction false} LineReadBack(z: int)
    ensures AsWhole(JNumber(SignedDecimal(z))) == z
  {
    IntegerRoundTrip(z);
    hide SignedValue, SignedDecimal, IsNumber;
  }

  lemma {:induction false} TracesReadBack(fs: seq<TraceFrame>)
    ensures ReadTraces(CleanItems(TracesJson(fs))) == CleanTraces(fs)
  {
    hide Clean, ReadTrace, CleanTrace, TraceJson;
    if fs != [] {
      TraceReadBack(fs[0]);
      TracesReadBack(fs[1..]);
      var items := TracesJson(fs);
      assert items[1..] == TracesJson(fs[1..]);
      var c := CleanItems(items);
      assert c[1..] == CleanItems(items[1..]);
    }
  }

  lemma {:induction false} CauseLookups(c: Cause)
    ensures var ms := CleanMembers(CauseJson(c).members);
      && AsText(Lookup(ms, "identifier")) == Sanitize(c.identifier)
      && AsText(Lookup(ms, "message")) == Sanitize(c.message)
      && Lookup(ms, "stack") == JArray(CleanItems(TracesJson(c.stack)))
      && Lookup(ms, "causes") == JArray(CleanItems(CausesJson(c.causes)))
  {
    hide Clean, CleanMembers, CleanItems, Lookup, Sanitize, TracesJson, CausesJson;
    AsciiStays("identifier");
    AsciiStays("message");
    AsciiStays("stack");
    AsciiStays("causes");
    var ms := CauseJson(c).members;
    assert Named(ms);
    CleanTextIs(c.identifier);
    CleanTextIs(c.message);
    CleanArray(TracesJson(c.stack));
    CleanArray(CausesJson(c.causes));
    CleanLookup(ms, 0);
    CleanLookup(ms, 1);
    CleanLookup(ms, 2);
    CleanLookup(ms, 3);
  }

  /** The document of a cause says everything about it and about the causes below it, in order. */
  lemma {:induction false} CauseReadBack(c: Cause)
    ensures ReadCause(Clean(CauseJson(c))) == CleanCause(c)
    decreases c, 1
  {
    hide Clean, CleanMembers, CleanItems, Lookup, Sanitize, TracesJson, CausesJson, ReadCause, ReadTraces, ReadCauses,
      CleanTraces, CleanCauses;
    CausesReadBack(c.causes);
    TracesReadBack(c.stack);
    CauseLookups(c);
    CleanObject(CauseJson(c).members);
    ReadsCause(CleanMembers(CauseJson(c).members));
  }

  lemma {:induction false} ReadsCause(ms: seq<Member>)
    requires Lookup(ms, "causes").JArray?
    ensures ReadCause(JObject(ms)) ==
      Cause(AsText(Lookup(ms, "identifier")), AsText(Lookup(ms, "message")), ReadTraces(AsList(Lookup(ms, "stack"))),
            ReadCauses(Lookup(ms, "causes").items))
  {
    hide Lookup, ReadTraces, ReadCauses;
  }

  lemma {:induction false} CausesReadBack(cs: seq<Cause>)
    ensures ReadCauses(CleanItems(CausesJson(cs))) == CleanCauses(cs)
    decreases cs, 0
  {
    hide Clean, ReadCause, CleanCause, CauseJson;
    if cs != [] {
      CauseReadBack(cs[0]);
      CausesReadBack(cs[1..]);
      var items := CausesJson(cs);
      assert items[1..] == CausesJson(cs[1..]);
      var c := CleanItems(items);
      assert c[1..] == CleanItems(items[1..]);
    }
  }
}
