/**
 The abstract state of the JSON writer: the containers still open, each with
 the parts it has completed.  Which call is legal, and what it does, is decided
 here; the calls that build a document are exactly the traversals of a tree.
 */
module WriterStates {
  import opened Wrappers
  import opened Collections
  import opened JsonStrings
  import opened JsonText

  /** An open container. */
  datatype Frame =
    | ObjectFrame(members: seq<Member>, pending: Option<string>)
    | ArrayFrame(items: seq<Json>)

  /** Open containers, outermost first, or the finished root. */
  datatype State = State(frames: seq<Frame>, root: Option<Json>)

  const INITIAL := State([], None)

  /** A writer call; scalar values and embedded documents are written in one call. */
  datatype Call = BeginObject | EndObject | BeginArray | EndArray | Key(name: string) | Whole(value: Json)

  /** Every container but the innermost is waiting for the one it holds. */
  predicate WellNested(st: State) {
    && (forall i :: 0 <= i < |st.frames| - 1 ==> st.frames[i].ArrayFrame? || st.frames[i].pending.Some?)
    && (st.frames != [] ==> st.root == None)
  }

  function Last(st: State): Frame
    requires st.frames != []
  {
    st.frames[|st.frames| - 1]
  }

  function Outer(st: State): State
    requires st.frames != []
  {
    State(st.frames[..|st.frames| - 1], None)
  }

  /** A value may be written here. */
  predicate CanPut(st: State) {
    if st.frames == [] then st.root == None
    else Last(st).ArrayFrame? || Last(st).pending.Some?
  }

  /** The state after a whole value. */
  function Put(st: State, v: Json): (r: State)
    requires WellNested(st) && CanPut(st)
    ensures WellNested(r) && |r.frames| == |st.frames|
  {
    if st.frames == [] then State([], Some(v))
    else
      var f := match Last(st)
        case ArrayFrame(items) => ArrayFrame(items + [v])
        case ObjectFrame(members, pending) => ObjectFrame(members + [Member(pending.value, v)], None);
      State(st.frames[..|st.frames| - 1] + [f], None)
  }

  function Push(st: State, f: Frame): (r: State)
    requires WellNested(st) && CanPut(st)
    ensures WellNested(r)
  {
    State(st.frames + [f], None)
  }

  lemma {:induction false} OuterCanPut(st: State)
    requires WellNested(st) && st.frames != []
    ensures WellNested(Outer(st)) && CanPut(Outer(st))
  {
  }

  /** One call; None is the writer's logic_error. */
  function Step(st: State, call: Call): (r: Option<State>)
    requires WellNested(st)
    ensures r.Some? ==> WellNested(r.value)
  {
    match call
    case BeginObject => if CanPut(st) then Some(Push(st, ObjectFrame([], None))) else None
    case BeginArray => if CanPut(st) then Some(Push(st, ArrayFrame([]))) else None
    case Whole(v) => if CanPut(st) then Some(Put(st, v)) else None
    case Key(name) =>
      if st.frames != [] && Last(st).ObjectFrame? && Last(st).pending == None
      then Some(State(st.frames[..|st.frames| - 1] + [ObjectFrame(Last(st).members, Some(name))], None))
      else None
    case EndObject =>
      if st.frames != [] && Last(st).ObjectFrame? && Last(st).pending == None
      then OuterCanPut(st); Some(Put(Outer(st), JObject(Last(st).members)))
      else None
    case EndArray =>
      if st.frames != [] && Last(st).ArrayFrame?
      then OuterCanPut(st); Some(Put(Outer(st), JArray(Last(st).items)))
      else None
  }

  /** A run of calls. */
  function Run(st: State, calls: seq<Call>): (r: Option<State>)
    requires WellNested(st)
    ensures r.Some? ==> WellNested(r.value)
    decreases |calls|
  {
    if calls == [] then Some(st)
    else
      match Step(st, calls[0])
      case None => None
      case Some(next) => Run(next, calls[1..])
  }

  lemma {:induction false} RunConcat(st: State, a: seq<Call>, b: seq<Call>)
    requires WellNested(st)
    ensures Run(st, a + b) == match Run(st, a) case None => None case Some(next) => Run(next, b)
    decreases |a|
  {
    if a == [] {
      assert a + b == b;
    } else {
      assert (a + b)[1..] == a[1..] + b;
      match Step(st, a[0])
      case None =>
      case Some(next) => RunConcat(next, a[1..], b);
    }
  }

  // ----- the text of a state -----

  function Comma(empty: bool): string { if empty then "" else "," }

  /** What an open container has emitted; `holding` when another open container follows inside it. */
  function FrameText(f: Frame, holding: bool): string {
    match f
    case ArrayFrame(items) => "[" + RenderItems(items) + (if holding then Comma(items == []) else "")
    case ObjectFrame(members, None) => "{" + RenderMembers(members)
    case ObjectFrame(members, Some(key)) => "{" + RenderMembers(members) + Comma(members == []) + Quoted(key) + ":"
  }

  function FramesText(frames: seq<Frame>, holding: bool): string
    decreases |frames|
  {
    if frames == [] then ""
    else FramesText(frames[..|frames| - 1], true) + FrameText(frames[|frames| - 1], holding)
  }

  /** Everything emitted so far. */
  function Text(st: State): string {
    if st.frames == [] then (match st.root case None => "" case Some(v) => Render(v))
    else FramesText(st.frames, false)
  }

  /** The separator a value needs here. */
  function Separator(st: State): string {
    if st.frames != [] && Last(st).ArrayFrame? then Comma(Last(st).items == []) else ""
  }

  lemma {:induction false} ItemsSnoc(items: seq<Json>, v: Json)
    ensures RenderItems(items + [v]) == RenderItems(items) + Comma(items == []) + Render(v)
  {
    if items == [] {
      assert items + [v] == [v];
    } else {
      assert (items + [v])[1..] == items[1..] + [v];
      ItemsSnoc(items[1..], v);
    }
  }

  lemma {:induction false} MembersSnoc(members: seq<Member>, m: Member)
    ensures RenderMembers(members + [m]) == RenderMembers(members) + Comma(members == []) + RenderMember(m)
  {
    if members == [] {
      assert members + [m] == [m];
    } else {
      assert (members + [m])[1..] == members[1..] + [m];
      MembersSnoc(members[1..], m);
    }
  }

  lemma {:induction false} FramesSnoc(frames: seq<Frame>, f: Frame, holding: bool)
    ensures FramesText(frames + [f], holding) == FramesText(frames, true) + FrameText(f, holding)
  {
    assert (frames + [f])[..|frames|] == frames;
  }

  /** What is emitted before a value: everything so far and the separator. */
  lemma {:induction false} HoldingText(st: State)
    requires WellNested(st) && CanPut(st)
    ensures FramesText(st.frames, true) == (if st.frames == [] then "" else Text(st) + Separator(st))
  {
    if st.frames != [] && Last(st).ArrayFrame? {
      var items := Last(st).items;
      var before := FramesText(st.frames[..|st.frames| - 1], true);
      assert before + ("[" + RenderItems(items) + Comma(items == [])) ==
        before + ("[" + RenderItems(items)) + Comma(items == []);
    }
  }

  lemma {:induction false} ArrayFrameText(items: seq<Json>, v: Json)
    ensures FrameText(ArrayFrame(items + [v]), false) == FrameText(ArrayFrame(items), true) + Render(v)
  {
    var body, comma, text := RenderItems(items), Comma(items == []), Render(v);
    ItemsSnoc(items, v);
    assert FrameText(ArrayFrame(items), true) == "[" + body + comma;
    hide *;
    Regroup("[", body + comma, text);
    Regroup("[", body, comma);
  }

  lemma {:induction false} ObjectFrameText(members: seq<Member>, key: string, v: Json)
    ensures FrameText(ObjectFrame(members + [Member(key, v)], None), false) ==
            FrameText(ObjectFrame(members, Some(key)), true) + Render(v)
  {
    var body, comma, quoted, text := RenderMembers(members), Comma(members == []), Quoted(key), Render(v);
    MembersSnoc(members, Member(key, v));
    assert RenderMember(Member(key, v)) == quoted + ":" + text;
    assert FrameText(ObjectFrame(members, Some(key)), true) == "{" + body + comma + quoted + ":";
    hide *;
    Regroup(body + comma, quoted + ":", text);
    Regroup("{", body + comma + (quoted + ":"), text);
    Regroup("{", body + comma, quoted + ":");
    Regroup("{", body, comma);
    Regroup("{" + body + comma, quoted, ":");
  }

  lemma {:induction false} PutLast(st: State, v: Json)
    requires WellNested(st) && CanPut(st) && st.frames != []
    ensures Put(st, v).frames == st.frames[..|st.frames| - 1] + [Last(Put(st, v))]
    ensures FrameText(Last(Put(st, v)), false) == FrameText(Last(st), true) + Render(v)
  {
    match Last(st)
    case ArrayFrame(items) => ArrayFrameText(items, v);
    case ObjectFrame(members, pending) => ObjectFrameText(members, pending.value, v);
  }

  lemma {:induction false} TextBefore(st: State)
    requires WellNested(st) && CanPut(st) && st.frames != []
    ensures Text(st) + Separator(st) == FramesText(st.frames[..|st.frames| - 1], true) + FrameText(Last(st), true)
  {
    var front := st.frames[..|st.frames| - 1];
    assert st.frames == front + [Last(st)];
    HoldingText(st);
    hide FramesText, FrameText, Text, Separator, WellNested, CanPut;
    FramesSnoc(front, Last(st), true);
  }

  lemma {:induction false} TextAfter(st: State, v: Json)
    requires WellNested(st) && CanPut(st) && st.frames != []
    ensures Text(Put(st, v)) == FramesText(st.frames[..|st.frames| - 1], true) + (FrameText(Last(st), true) + Render(v))
  {
    PutLast(st, v);
    var g := Last(Put(st, v));
    assert Text(Put(st, v)) == FramesText(st.frames[..|st.frames| - 1] + [g], false);
    hide FramesText, FrameText, Put, Render, Text, WellNested, CanPut;
    FramesSnoc(st.frames[..|st.frames| - 1], g, false);
  }

  /** Writing a value appends the separator and the value's text, nothing else. */
  lemma {:induction false} PutText(st: State, v: Json)
    requires WellNested(st) && CanPut(st)
    ensures Text(Put(st, v)) == Text(st) + Separator(st) + Render(v)
  {
    if st.frames == [] {
      assert Text(st) + Separator(st) == "" && Text(Put(st, v)) == Render(v);
    } else {
      hide *;
      TextBefore(st);
      TextAfter(st, v);
      Regroup(FramesText(st.frames[..|st.frames| - 1], true), FrameText(Last(st), true), Render(v));
    }
  }

  lemma {:induction false} PushText(st: State, f: Frame)
    requires WellNested(st) && CanPut(st)
    ensures Text(Push(st, f)) == Text(st) + Separator(st) + FrameText(f, false)
  {
    HoldingText(st);
    FramesSnoc(st.frames, f, false);
  }

  /** Closing the innermost container only adds its bracket. */
  lemma {:induction false} CloseText(st: State, v: Json, bracket: string)
    requires WellNested(st) && st.frames != []
    requires Render(v) == FrameText(Last(st), false) + bracket
    ensures WellNested(Outer(st)) && CanPut(Outer(st))
    ensures Text(Put(Outer(st), v)) == Text(st) + bracket
  {
    OuterCanPut(st);
    var outer, f := Outer(st), Last(st);
    assert st.frames == outer.frames + [f];
    var before, body := FramesText(outer.frames, true), FrameText(f, false);
    assert Text(outer) + Separator(outer) == before by { HoldingText(outer); }
    calc {
      Text(Put(outer, v));
      { PutText(outer, v); }
      before + (body + bracket);
      { Regroup(before, body, bracket); }
      before + body + bracket;
      { FramesSnoc(outer.frames, f, false); }
      Text(st) + bracket;
    }
  }

  // ----- calls and trees -----

  /** The calls that write a tree, container by container. */
  function CallsOf(j: Json): seq<Call>
    decreases j
  {
    match j
    case JArray(items) => [BeginArray] + CallsOfItems(items) + [EndArray]
    case JObject(members) => [BeginObject] + CallsOfMembers(members) + [EndObject]
    case _ => [Whole(j)]
  }

  function CallsOfItems(items: seq<Json>): seq<Call>
    decreases items
  {
    if items == [] then [] else CallsOf(items[0]) + CallsOfItems(items[1..])
  }

  function CallsOfMembers(members: seq<Member>): seq<Call>
    decreases members
  {
    if members == [] then [] else [Key(members[0].name)] + CallsOf(members[0].value) + CallsOfMembers(members[1..])
  }

  /** Writing a tree call by call is writing it whole. */
  lemma {:induction false} RunTree(st: State, j: Json)
    requires WellNested(st) && CanPut(st)
    ensures Run(st, CallsOf(j)) == Some(Put(st, j))
    decreases j, 1
  {
    match j
    case JArray(items) =>
      RunItems(st, [], items);
      assert [] + items == items;
      RunBracketed(st, BeginArray, CallsOfItems(items), EndArray, ArrayFrame([]), ArrayFrame(items), j);
    case JObject(members) =>
      RunMembers(st, [], members);
      assert [] + members == members;
      RunBracketed(st, BeginObject, CallsOfMembers(members), EndObject, ObjectFrame([], None),
        ObjectFrame(members, None), j);
    case _ => RunOne(st, Whole(j));
  }

  /** Opening, filling and closing one container. */
  lemma {:induction false} RunBracketed(st: State, begin: Call, body: seq<Call>, end: Call, empty: Frame, full: Frame,
                                        j: Json)
    requires WellNested(st) && CanPut(st)
    requires Step(st, begin) == Some(Push(st, empty))
    requires Run(Push(st, empty), body) == Some(Push(st, full))
    requires (end == EndArray && full.ArrayFrame? && j == JArray(full.items)) ||
             (end == EndObject && full.ObjectFrame? && full.pending == None && j == JObject(full.members))
    ensures Run(st, [begin] + body + [end]) == Some(Put(st, j))
  {
    var done := Push(st, full);
    assert Step(done, end) == Some(Put(st, j)) by {
      assert done.frames[..|done.frames| - 1] == st.frames;
      assert State(st.frames, None) == st;
    }
    RunOne(st, begin);
    RunOne(done, end);
    RunConcat(st, [begin] + body, [end]);
    RunConcat(st, [begin], body);
  }

  lemma {:induction false} RunOne(st: State, call: Call)
    requires WellNested(st)
    ensures Run(st, [call]) == Step(st, call)
  {
    match Step(st, call)
    case None =>
    case Some(next) => assert [call][1..] == [];
  }

  lemma {:induction false} RunItems(st: State, done: seq<Json>, items: seq<Json>)
    requires WellNested(st) && CanPut(st)
    ensures Run(Push(st, ArrayFrame(done)), CallsOfItems(items)) == Some(Push(st, ArrayFrame(done + items)))
    decreases items, 0
  {
    var now := Push(st, ArrayFrame(done));
    if items == [] {
      assert done + items == done;
    } else {
      assert CallsOfItems(items) == CallsOf(items[0]) + CallsOfItems(items[1..]);
      assert now.frames[..|now.frames| - 1] == st.frames;
      assert WellNested(now) && CanPut(now) && Put(now, items[0]) == Push(st, ArrayFrame(done + [items[0]]));
      assert items == [items[0]] + items[1..];
      Regroup(done, [items[0]], items[1..]);
      hide *;
      RunConcat(now, CallsOf(items[0]), CallsOfItems(items[1..]));
      RunTree(now, items[0]);
      RunItems(st, done + [items[0]], items[1..]);
    }
  }

  lemma {:induction false} RunMembers(st: State, done: seq<Member>, members: seq<Member>)
    requires WellNested(st) && CanPut(st)
    ensures Run(Push(st, ObjectFrame(done, None)), CallsOfMembers(members)) ==
      Some(Push(st, ObjectFrame(done + members, None)))
    decreases members, 0
  {
    var now := Push(st, ObjectFrame(done, None));
    if members == [] {
      assert done + members == done;
    } else {
      hide *;
      var m, rest := members[0], members[1..];
      var keyed := Push(st, ObjectFrame(done, Some(m.name)));
      MemberSteps(st, done, m);
      FirstMember(members);
      Regroup(done, [m], rest);
      RunConcat(now, [Key(m.name)], CallsOf(m.value) + CallsOfMembers(rest));
      RunOne(now, Key(m.name));
      RunConcat(keyed, CallsOf(m.value), CallsOfMembers(rest));
      RunTree(keyed, m.value);
      RunMembers(st, done + [m], rest);
    }
  }

  lemma {:induction false} FirstMember(members: seq<Member>)
    requires members != []
    ensures members == [members[0]] + members[1..]
    ensures CallsOfMembers(members) ==
      [Key(members[0].name)] + (CallsOf(members[0].value) + CallsOfMembers(members[1..]))
  {
    var key, calls, rest := [Key(members[0].name)], CallsOf(members[0].value), CallsOfMembers(members[1..]);
    assert CallsOfMembers(members) == key + calls + rest;
    Regroup(key, calls, rest);
  }

  /** A key and a value add one member. */
  lemma {:induction false} MemberSteps(st: State, done: seq<Member>, m: Member)
    requires WellNested(st) && CanPut(st)
    ensures var now, keyed := Push(st, ObjectFrame(done, None)), Push(st, ObjectFrame(done, Some(m.name)));
      && WellNested(now) && Step(now, Key(m.name)) == Some(keyed)
      && WellNested(keyed) && CanPut(keyed)
      && Put(keyed, m.value) == Push(st, ObjectFrame(done + [m], None))
  {
    var now, keyed := Push(st, ObjectFrame(done, None)), Push(st, ObjectFrame(done, Some(m.name)));
    assert now.frames[..|now.frames| - 1] == st.frames && keyed.frames[..|keyed.frames| - 1] == st.frames;
  }

  // ----- which call sequences make a document -----

  /** An embedded document stands for the calls that would write it. */
  function ExpandCall(call: Call): seq<Call> {
    match call case Whole(v) => CallsOf(v) case _ => [call]
  }

  function Expand(calls: seq<Call>): seq<Call> {
    if calls == [] then [] else ExpandCall(calls[0]) + Expand(calls[1..])
  }

  function FrameCalls(f: Frame): seq<Call> {
    match f
    case ArrayFrame(items) => [BeginArray] + CallsOfItems(items)
    case ObjectFrame(members, None) => [BeginObject] + CallsOfMembers(members)
    case ObjectFrame(members, Some(key)) => [BeginObject] + CallsOfMembers(members) + [Key(key)]
  }

  function FramesCalls(frames: seq<Frame>): seq<Call>
    decreases |frames|
  {
    if frames == [] then [] else FramesCalls(frames[..|frames| - 1]) + FrameCalls(frames[|frames| - 1])
  }

  /** The only expanded calls that lead to a state. */
  function History(st: State): seq<Call> {
    if st.frames == [] then (match st.root case None => [] case Some(v) => CallsOf(v)) else FramesCalls(st.frames)
  }

  lemma {:induction false} CallsItemsSnoc(items: seq<Json>, v: Json)
    ensures CallsOfItems(items + [v]) == CallsOfItems(items) + CallsOf(v)
  {
    if items == [] {
      assert items + [v] == [v];
    } else {
      assert (items + [v])[1..] == items[1..] + [v];
      CallsItemsSnoc(items[1..], v);
    }
  }

  lemma {:induction false} CallsMembersSnoc(members: seq<Member>, m: Member)
    ensures CallsOfMembers(members + [m]) == CallsOfMembers(members) + ([Key(m.name)] + CallsOf(m.value))
  {
    if members == [] {
      assert members + [m] == [m];
    } else {
      assert (members + [m])[1..] == members[1..] + [m];
      CallsMembersSnoc(members[1..], m);
    }
  }

  lemma {:induction false} FramesCallsSnoc(frames: seq<Frame>, f: Frame)
    ensures FramesCalls(frames + [f]) == FramesCalls(frames) + FrameCalls(f)
  {
    assert (frames + [f])[..|frames|] == frames;
  }

  lemma {:induction false} PutFrameCalls(st: State, v: Json)
    requires WellNested(st) && CanPut(st) && st.frames != []
    ensures FrameCalls(Last(Put(st, v))) == FrameCalls(Last(st)) + CallsOf(v)
  {
    match Last(st)
    case ArrayFrame(items) =>
      CallsItemsSnoc(items, v);
      Regroup([BeginArray], CallsOfItems(items), CallsOf(v));
    case ObjectFrame(members, pending) =>
      var open, body, key := [BeginObject], CallsOfMembers(members), [Key(pending.value)];
      CallsMembersSnoc(members, Member(pending.value, v));
      assert FrameCalls(Last(Put(st, v))) == open + (body + (key + CallsOf(v)));
      assert FrameCalls(Last(st)) == open + body + key;
      hide *;
      var calls := CallsOf(v);
      Regroup(body, key, calls);
      Regroup(open, body + key, calls);
      Regroup(open, body, key);
  }

  lemma {:induction false} PutHistory(st: State, v: Json)
    requires WellNested(st) && CanPut(st)
    ensures History(Put(st, v)) == History(st) + CallsOf(v)
  {
    if st.frames != [] {
      var front, f, g := st.frames[..|st.frames| - 1], Last(st), Last(Put(st, v));
      PutLast(st, v);
      assert st.frames == front + [f];
      PutFrameCalls(st, v);
      hide FrameCalls, CallsOf;
      calc {
        History(Put(st, v));
        { FramesCallsSnoc(front, g); }
        FramesCalls(front) + FrameCalls(g);
        FramesCalls(front) + (FrameCalls(f) + CallsOf(v));
        { Regroup(FramesCalls(front), FrameCalls(f), CallsOf(v)); }
        FramesCalls(front) + FrameCalls(f) + CallsOf(v);
        { FramesCallsSnoc(front, f); }
        History(st) + CallsOf(v);
      }
    }
  }

  lemma {:induction false} CloseHistory(st: State, v: Json, end: Call)
    requires WellNested(st) && st.frames != []
    requires CallsOf(v) == FrameCalls(Last(st)) + [end]
    ensures WellNested(Outer(st)) && CanPut(Outer(st))
    ensures History(Put(Outer(st), v)) == History(st) + [end]
  {
    OuterCanPut(st);
    var front, f := Outer(st).frames, Last(st);
    assert st.frames == front + [f];
    assert History(Outer(st)) == FramesCalls(front);
    calc {
      History(Put(Outer(st), v));
      { PutHistory(Outer(st), v); }
      FramesCalls(front) + (FrameCalls(f) + [end]);
      { Regroup(FramesCalls(front), FrameCalls(f), [end]); }
      FramesCalls(front) + FrameCalls(f) + [end];
      { FramesCallsSnoc(front, f); }
      History(st) + [end];
    }
  }

  lemma {:induction false} KeyHistory(st: State, name: string)
    requires WellNested(st) && Step(st, Key(name)).Some?
    ensures History(Step(st, Key(name)).value) == History(st) + [Key(name)]
  {
    var front, f := st.frames[..|st.frames| - 1], Last(st);
    var g := ObjectFrame(f.members, Some(name));
    assert st.frames == front + [f];
    calc {
      History(Step(st, Key(name)).value);
      { FramesCallsSnoc(front, g); }
      FramesCalls(front) + (FrameCalls(f) + [Key(name)]);
      { Regroup(FramesCalls(front), FrameCalls(f), [Key(name)]); }
      FramesCalls(front) + FrameCalls(f) + [Key(name)];
      { FramesCallsSnoc(front, f); }
      History(st) + [Key(name)];
    }
  }

  lemma {:induction false} PushHistory(st: State, f: Frame)
    requires WellNested(st) && CanPut(st)
    ensures History(Push(st, f)) == History(st) + FrameCalls(f)
  {
    FramesCallsSnoc(st.frames, f);
  }

  lemma {:induction false} StepHistory(st: State, call: Call)
    requires WellNested(st) && Step(st, call).Some?
    ensures History(Step(st, call).value) == History(st) + ExpandCall(call)
  {
    match call
    case BeginObject =>
      PushHistory(st, ObjectFrame([], None));
      assert FrameCalls(ObjectFrame([], None)) == [BeginObject];
    case BeginArray =>
      PushHistory(st, ArrayFrame([]));
      assert FrameCalls(ArrayFrame([])) == [BeginArray];
    case Whole(v) => PutHistory(st, v);
    case Key(name) => KeyHistory(st, name);
    case EndObject => CloseHistory(st, JObject(Last(st).members), EndObject);
    case EndArray => CloseHistory(st, JArray(Last(st).items), EndArray);
  }

  lemma {:induction false} RunHistory(st: State, calls: seq<Call>)
    requires WellNested(st) && Run(st, calls).Some?
    ensures History(Run(st, calls).value) == History(st) + Expand(calls)
    decreases |calls|
  {
    if calls == [] {
      assert History(st) + [] == History(st);
    } else {
      var next := Step(st, calls[0]).value;
      StepHistory(st, calls[0]);
      RunHistory(next, calls[1..]);
      Regroup(History(st), ExpandCall(calls[0]), Expand(calls[1..]));
      hide History, Step, ExpandCall;
    }
  }

  /** A document written whole runs like the calls it stands for. */
  lemma {:induction false} ExpandedCallRuns(st: State, call: Call)
    requires WellNested(st)
    ensures Run(st, ExpandCall(call)) == Step(st, call)
  {
    match call
    case Whole(v) =>
      if CanPut(st) { RunTree(st, v); }
    case _ => RunOne(st, call);
  }

  lemma {:induction false} ExpandedRuns(st: State, calls: seq<Call>)
    requires WellNested(st)
    ensures Run(st, Expand(calls)) == Run(st, calls)
    decreases |calls|
  {
    if calls != [] {
      RunConcat(st, ExpandCall(calls[0]), Expand(calls[1..]));
      ExpandedCallRuns(st, calls[0]);
      if Step(st, calls[0]).Some? { ExpandedRuns(Step(st, calls[0]).value, calls[1..]); }
    }
  }

  /** The calls run without a logic_error and leave the finished document j. */
  predicate Writes(calls: seq<Call>, j: Json) { Run(INITIAL, calls) == Some(State([], Some(j))) }

  /** The call sequences that write a document are exactly the traversals of its tree. */
  lemma {:induction false} WritesIffTraversal(calls: seq<Call>, j: Json)
    ensures Writes(calls, j) <==> Expand(calls) == CallsOf(j)
  {
    ExpandedRuns(INITIAL, calls);
    if Writes(calls, j) {
      RunHistory(INITIAL, calls);
      assert [] + Expand(calls) == Expand(calls);
    }
    if Expand(calls) == CallsOf(j) { RunTree(INITIAL, j); }
  }
}
