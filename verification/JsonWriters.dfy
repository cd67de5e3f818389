/**
 The JsonWriter class: an output buffer, a stack of container contexts, and a
 flag for the root.  Every method does to the fields exactly what Step does to
 the abstract state, and answers false exactly where the source throws
 logic_error, leaving everything as it was.
 */
module JsonWriters {
  import opened Wrappers
  import opened Collections
  import opened RuntimeValues
  import opened JsonStrings
  import opened JsonText
  import opened WriterStates

  datatype ContainerKind = ObjectContainer | ArrayContainer

  datatype Context = Context(kind: ContainerKind, first: bool, awaitingValue: bool)

  /** The flags of a context; `holding` when another container is open inside it. */
  ghost predicate ContextOk(c: Context, f: Frame, holding: bool) {
    match f
    case ArrayFrame(items) =>
      c.kind == ArrayContainer && !c.awaitingValue && (c.first <==> items == [] && !holding)
    case ObjectFrame(members, pending) =>
      && c.kind == ObjectContainer
      && (c.awaitingValue <==> pending.Some? && !holding)
      && (c.first <==> members == [] && pending == None)
  }

  ghost predicate ContextsOk(stack: seq<Context>, st: State) {
    |stack| == |st.frames| && forall i :: 0 <= i < |stack| ==> ContextOk(stack[i], st.frames[i], i < |stack| - 1)
  }

  ghost predicate AllHolding(stack: seq<Context>, st: State) {
    |stack| == |st.frames| && forall i :: 0 <= i < |stack| ==> ContextOk(stack[i], st.frames[i], true)
  }

  lemma {:induction false} PutContexts(stack: seq<Context>, st: State, v: Json)
    requires WellNested(st) && CanPut(st) && AllHolding(stack, st)
    ensures ContextsOk(stack, Put(st, v))
  {
  }

  lemma {:induction false} KeyContexts(stack: seq<Context>, st: State, name: string)
    requires WellNested(st) && Step(st, Key(name)).Some? && ContextsOk(stack, st)
    ensures ContextsOk(stack[|stack| - 1 := Context(ObjectContainer, false, true)], Step(st, Key(name)).value)
  {
  }

  /**
   `std::to_chars` with 17 significant digits on a finite number other than zero: assumed to print a JSON number, and
   none of the two zeros.
   */
  type Formatter = f: Nonzero -> string | forall x :: PrintsNumber(f(x)) witness OneFormat

  predicate PrintsNumber(s: string) { IsNumber(s) && s != "0" && s != "-0" }

  function OneFormat(x: Nonzero): (s: string)
    ensures PrintsNumber(s)
  {
    IntegerRoundTrip(1);
    SignedDecimal(1)
  }

  /** What `doubleValue` writes. */
  function DoubleJson(x: Float, format: Formatter): Json {
    match x
    case NaN => JString("NaN")
    case Infinity(negative) => JString(if negative then "-Infinity" else "Infinity")
    case Zero(negative) => JNumber(if negative then "-0" else "0")
    case Finite(value) => JNumber(format(value))
  }

  /** Both zeros are JSON numbers, and different ones. */
  lemma {:induction false} ZeroIsNumber(negative: bool, format: Formatter)
    ensures DoubleJson(Zero(negative), format).JNumber? && IsNumber(DoubleJson(Zero(negative), format).lexeme)
    ensures DoubleJson(Zero(true), format) != DoubleJson(Zero(false), format)
  {
    assert "-0"[1..] == "0" && "0"[1..] == "";
    assert NumberLength("-0") == 2 && NumberLength("0") == 1;
  }

  class JsonWriter {
    var output: string
    var stack: seq<Context>
    var rootWritten: bool
    ghost var state: State

    ghost predicate Valid()
      reads this
    {
      && WellNested(state)
      && output == Text(state)
      && rootWritten == (state.frames != [] || state.root.Some?)
      && ContextsOk(stack, state)
    }

    /** The call did what Step says: its new state, or a logic_error with nothing changed. */
    twostate predicate Did(ok: bool, call: Call)
      reads this
    {
      && Valid() && old(WellNested(state))
      && ok == Step(old(state), call).Some?
      && (ok ==> state == Step(old(state), call).value)
      && (!ok ==> unchanged(this))
    }

    constructor ()
      ensures Valid() && state == INITIAL
    {
      output, stack, rootWritten := "", [], false;
      state := INITIAL;
    }

    /** After the check, every open context is as it is while holding an open container. */
    method BeforeValue() returns (ok: bool)
      requires Valid()
      modifies this
      ensures state == old(state) && ok == CanPut(state)
      ensures !ok ==> unchanged(this)
      ensures ok ==> output == old(output) + Separator(state) && rootWritten && AllHolding(stack, state)
    {
      if stack == [] {
        if rootWritten {
          return false;
        }
        rootWritten := true;
        return true;
      }
      var top := |stack| - 1;
      var context := stack[top];
      if context.kind == ArrayContainer {
        if !context.first {
          output := output + ",";
        }
        stack := stack[top := context.(first := false)];
        return true;
      }
      if !context.awaitingValue {
        return false;
      }
      stack := stack[top := context.(awaitingValue := false)];
      return true;
    }

    method BeginObject() returns (ok: bool)
      requires Valid()
      modifies this
      ensures Did(ok, Call.BeginObject)
    {
      ok := BeforeValue();
      if ok {
        PushText(state, ObjectFrame([], None));
        output := output + "{";
        stack := stack + [Context(ObjectContainer, true, false)];
        state := Push(state, ObjectFrame([], None));
      }
    }

    method BeginArray() returns (ok: bool)
      requires Valid()
      modifies this
      ensures Did(ok, Call.BeginArray)
    {
      ok := BeforeValue();
      if ok {
        PushText(state, ArrayFrame([]));
        output := output + "[";
        stack := stack + [Context(ArrayContainer, true, false)];
        state := Push(state, ArrayFrame([]));
      }
    }

    method EndObject() returns (ok: bool)
      requires Valid()
      modifies this
      ensures Did(ok, Call.EndObject)
    {
      if stack == [] || stack[|stack| - 1].kind != ObjectContainer || stack[|stack| - 1].awaitingValue {
        return false;
      }
      CloseText(state, JObject(Last(state).members), "}");
      output := output + "}";
      stack := stack[..|stack| - 1];
      state := Put(Outer(state), JObject(Last(state).members));
      return true;
    }

    method EndArray() returns (ok: bool)
      requires Valid()
      modifies this
      ensures Did(ok, Call.EndArray)
    {
      if stack == [] || stack[|stack| - 1].kind != ArrayContainer {
        return false;
      }
      CloseText(state, JArray(Last(state).items), "]");
      output := output + "]";
      stack := stack[..|stack| - 1];
      state := Put(Outer(state), JArray(Last(state).items));
      return true;
    }

    method Key(name: string) returns (ok: bool)
      requires Valid()
      modifies this
      ensures Did(ok, Call.Key(name))
    {
      if stack == [] || stack[|stack| - 1].kind != ObjectContainer || stack[|stack| - 1].awaitingValue {
        return false;
      }
      KeyText(state, name);
      KeyContexts(stack, state, name);
      var top := |stack| - 1;
      if !stack[top].first {
        output := output + ",";
      }
      assert output == Text(state) + Comma(Last(state).members == []);
      output := AppendQuoted(output, name);
      output := output + ":";
      Regroup(Text(state), Comma(Last(state).members == []), Quoted(name));
      stack := stack[top := Context(ObjectContainer, false, true)];
      state := Step(state, Call.Key(name)).value;
      return true;
    }

    /** Shared tail of the scalar calls: text is the value's own text. */
    method WriteWhole(v: Json, text: string) returns (ok: bool)
      requires Valid() && text == Render(v)
      modifies this
      ensures Did(ok, Whole(v))
    {
      ok := BeforeValue();
      if ok {
        PutText(state, v);
        PutContexts(stack, state, v);
        output := output + text;
        state := Put(state, v);
      }
    }

    method NullValue() returns (ok: bool)
      requires Valid()
      modifies this
      ensures Did(ok, Whole(JNull))
    {
      ok := WriteWhole(JNull, "null");
    }

    method BooleanValue(value: bool) returns (ok: bool)
      requires Valid()
      modifies this
      ensures Did(ok, Whole(JBool(value)))
    {
      ok := WriteWhole(JBool(value), if value then "true" else "false");
    }

    method StringValue(value: string) returns (ok: bool)
      requires Valid()
      modifies this
      ensures Did(ok, Whole(JString(value)))
    {
      var quoted := AppendQuoted("", value);
      assert "" + Quoted(value) == Quoted(value);
      ok := WriteWhole(JString(value), quoted);
    }

    method UnsignedValue(value: nat) returns (ok: bool)
      requires Valid()
      modifies this
      ensures Did(ok, Whole(JNumber(Decimal(value))))
    {
      ok := WriteWhole(JNumber(Decimal(value)), Decimal(value));
    }

    method SignedValue(value: int) returns (ok: bool)
      requires Valid()
      modifies this
      ensures Did(ok, Whole(JNumber(SignedDecimal(value))))
    {
      ok := WriteWhole(JNumber(SignedDecimal(value)), SignedDecimal(value));
    }

    method DoubleValue(value: Float, format: Formatter) returns (ok: bool)
      requires Valid()
      modifies this
      ensures Did(ok, Whole(DoubleJson(value, format)))
    {
      var v := DoubleJson(value, format);
      ok := WriteWhole(v, Render(v));
    }

    /** `graphicsValue`, once the document has been serialized: its text goes in as it is. */
    method Document(text: string) returns (ok: bool)
      requires Valid()
      modifies this
      ensures Did(ok, Whole(JEmbedded(text)))
    {
      ok := WriteWhole(JEmbedded(text), text);
    }

    /** A finished document is the compact text of one tree. */
    method Finish() returns (text: Option<string>)
      requires Valid()
      ensures text.Some? <==> state.frames == [] && state.root.Some?
      ensures text.Some? ==> text.value == Render(state.root.value)
    {
      if stack != [] || !rootWritten {
        return None;
      }
      return Some(output);
    }
  }

  lemma {:induction false} KeyText(st: State, name: string)
    requires WellNested(st) && Step(st, Key(name)).Some?
    ensures Text(Step(st, Key(name)).value) == Text(st) + Comma(Last(st).members == []) + Quoted(name) + ":"
  {
    var front, f := st.frames[..|st.frames| - 1], Last(st);
    var g := ObjectFrame(f.members, Some(name));
    assert st.frames == front + [f];
    var before, body := FramesText(front, true), FrameText(f, false);
    var comma, quoted := Comma(f.members == []), Quoted(name);
    assert Text(st) == before + body by { FramesSnoc(front, f, false); }
    assert FrameText(g, false) == body + comma + quoted + ":";
    assert Text(Step(st, Key(name)).value) == before + (body + comma + quoted + ":") by { FramesSnoc(front, g, false); }
    hide *;
    Regroup(before, body + comma + quoted, ":");
    Regroup(before, body + comma, quoted);
    Regroup(before, body, comma);
  }

  /** Any client: whatever it calls, in whatever order, stopping at the first logic_error. */
  method Drive(calls: seq<Call>) returns (text: Option<string>)
    ensures text.Some? <==> exists j :: Writes(calls, j)
    ensures text.Some? ==> exists j :: Writes(calls, j) && text.value == Render(j)
  {
    var writer := new JsonWriter();
    for k := 0 to |calls|
      invariant fresh(writer) && writer.Valid()
      invariant Run(INITIAL, calls) == Run(writer.state, calls[k..])
    {
      assert calls[k..][1..] == calls[k + 1..];
      ghost var before := writer.state;
      var ok := Make(writer, calls[k]);
      if !ok {
        return None;
      }
    }
    text := writer.Finish();
    assert calls[|calls|..] == [];
    if text.Some? { assert Writes(calls, writer.state.root.value); }
  }

  method Make(writer: JsonWriter, call: Call) returns (ok: bool)
    requires writer.Valid()
    modifies writer
    ensures writer.Did(ok, call)
  {
    match call
    case BeginObject => ok := writer.BeginObject();
    case EndObject => ok := writer.EndObject();
    case BeginArray => ok := writer.BeginArray();
    case EndArray => ok := writer.EndArray();
    case Key(name) => ok := writer.Key(name);
    case Whole(v) =>
      match v
      case JNull => ok := writer.NullValue();
      case JBool(b) => ok := writer.BooleanValue(b);
      case JString(s) => ok := writer.StringValue(s);
      case JEmbedded(text) => ok := writer.Document(text);
      case _ => ok := writer.WriteWhole(v, Render(v));
  }

  // ----- what finished documents parse to -----

  ghost predicate ProperFrame(f: Frame) {
    match f case ArrayFrame(items) => ProperItems(items) case ObjectFrame(members, _) => ProperMembers(members)
  }

  ghost predicate ProperState(st: State) {
    (forall i :: 0 <= i < |st.frames| ==> ProperFrame(st.frames[i])) && (st.root.Some? ==> Proper(st.root.value))
  }

  /** Every number written is a JSON number, and every embedded document a JSON value. */
  ghost predicate ProperCalls(calls: seq<Call>) {
    forall k :: 0 <= k < |calls| ==> (calls[k].Whole? ==> Proper(calls[k].value))
  }

  lemma {:induction false} ProperItemsSnoc(items: seq<Json>, v: Json)
    requires ProperItems(items) && Proper(v)
    ensures ProperItems(items + [v])
  {
    if items == [] {
      assert items + [v] == [v];
    } else {
      assert (items + [v])[1..] == items[1..] + [v];
      ProperItemsSnoc(items[1..], v);
    }
  }

  lemma {:induction false} ProperMembersSnoc(members: seq<Member>, m: Member)
    requires ProperMembers(members) && Proper(m.value)
    ensures ProperMembers(members + [m])
  {
    if members == [] {
      assert members + [m] == [m];
    } else {
      assert (members + [m])[1..] == members[1..] + [m];
      ProperMembersSnoc(members[1..], m);
    }
  }

  lemma {:induction false} PutProper(st: State, v: Json)
    requires WellNested(st) && CanPut(st) && ProperState(st) && Proper(v)
    ensures ProperState(Put(st, v))
  {
    if st.frames != [] {
      match Last(st)
      case ArrayFrame(items) => ProperItemsSnoc(items, v);
      case ObjectFrame(members, pending) => ProperMembersSnoc(members, Member(pending.value, v));
    }
  }

  lemma {:induction false} RunProper(st: State, calls: seq<Call>)
    requires WellNested(st) && ProperState(st) && ProperCalls(calls) && Run(st, calls).Some?
    ensures ProperState(Run(st, calls).value)
    decreases |calls|
  {
    if calls != [] {
      var next := Step(st, calls[0]).value;
      assert ProperState(next) by {
        match calls[0]
        case Whole(v) => PutProper(st, v);
        case EndObject => OuterCanPut(st); PutProper(Outer(st), JObject(Last(st).members));
        case EndArray => OuterCanPut(st); PutProper(Outer(st), JArray(Last(st).items));
        case _ =>
      }
      RunProper(next, calls[1..]);
    }
  }

  /** Any finished document is a JSON text that parses to the one tree its calls traverse. */
  lemma {:induction false} FinishedDocumentParses(calls: seq<Call>, j: Json)
    requires Writes(calls, j) && ProperCalls(calls)
    ensures ParseText(Render(j)) == Some(Clean(j)) && Expand(calls) == CallsOf(j)
  {
    RunProper(INITIAL, calls);
    TextRoundTrip(j);
    WritesIffTraversal(calls, j);
  }
}
