/**
 Reading a whole document back: objects, function handles and containers, and
 with them the statement that the document of a value says what the value
 holds.
 */
module ProtocolReading {
  import opened Wrappers
  import opened Layout
  import opened RuntimeValues
  import opened Utf8
  import opened JsonText
  import opened MachineProtocol
  import opened ProtocolResults
  import opened DocumentReader
  import opened ProtocolContents

  // ----- function handles -----

  lemma {:induction false} FunctionNamed(dims: Dimensions, d: Descriptor)
    ensures Named(Header("function-handle", dims) + FunctionMembers(d))
  {
    hide Sanitize, Numbers, HandleKindText, BackendText;
    HeaderNames();
    AsciiStays("handle_kind");
    AsciiStays("backend");
    AsciiStays("display");
    AsciiStays("target_name");
    AsciiStays("class_name");
    AsciiStays("method_name");
    AsciiStays("declaring_class");
    AsciiStays("module_bound");
  }

  lemma {:induction false} KindRead(k: HandleKind, b: Backend)
    ensures Clean(JString(HandleKindText(k))) == JString(HandleKindText(k)) && HandleNamed(HandleKindText(k)) == Some(k)
    ensures Clean(JString(BackendText(b))) == JString(BackendText(b)) && BackendNamed(BackendText(b)) == Some(b)
  {
    hide Clean;
    CleanText(HandleKindText(k));
    CleanText(BackendText(b));
  }

  lemma {:induction false} FunctionUnfold(h: Heap, v: Value, env: Environment)
    requires Valid(h, v) && v.payload.Function? && v.payload.handle.Some?
    ensures v.payload.handle.value in h.functions
    ensures var d := h.functions[v.payload.handle.value];
      && JsonOf(h, v, env) == JObject(Header("function-handle", v.dims) + FunctionMembers(d))
      && ContentsOf(h, v, env) == FunctionRead(v.dims, Some(d.kind), Some(d.backend), TextShown(d.text),
           d.backend == Hir || d.backend == Bytecode)
  {
    hide Header, FunctionMembers, TextShown;
  }

  lemma {:induction false} FunctionLookups(dims: Dimensions, d: Descriptor)
    ensures var c := CleanMembers(Header("function-handle", dims) + FunctionMembers(d));
      && AsText(Lookup(c, "kind")) == "function-handle" && Lookup(c, "dimensions") != JNull
      && Wholes(AsList(Lookup(c, "dimensions"))) == dims
      && ReadFunction(c) == FunctionRead(dims, Some(d.kind), Some(d.backend), TextShown(d.text),
           d.backend == Hir || d.backend == Bytecode)
  {
    hide Named, Header, Clean, CleanMembers, Lookup, Sanitize, Wholes, HandleNamed, BackendNamed, HandleKindText,
      BackendText;
    FunctionNamed(dims, d);
    var rest := FunctionMembers(d);
    HeaderRead("function-handle", dims, rest);
    KindRead(d.kind, d.backend);
    CleanTextIs(d.text.display);
    CleanTextIs(d.text.targetName);
    CleanTextIs(d.text.className);
    CleanTextIs(d.text.methodName);
    CleanTextIs(d.text.declaringClass);
    CleanFlag(d.backend != Independent);
    var c := CleanMembers(Header("function-handle", dims) + rest);
    assert Lookup(c, rest[0].name) == Clean(rest[0].value) && Lookup(c, rest[1].name) == Clean(rest[1].value);
    assert Lookup(c, rest[2].name) == Clean(rest[2].value) && Lookup(c, rest[3].name) == Clean(rest[3].value);
    assert Lookup(c, rest[4].name) == Clean(rest[4].value) && Lookup(c, rest[5].name) == Clean(rest[5].value);
    assert Lookup(c, rest[6].name) == Clean(rest[6].value) && Lookup(c, rest[7].name) == Clean(rest[7].value);
  }

  lemma {:induction false} FunctionReadBack(h: Heap, v: Value, env: Environment)
    requires Valid(h, v) && v.payload.Function? && v.payload.handle.Some?
    ensures ReadValue(Clean(JsonOf(h, v, env))) == ContentsOf(h, v, env)
  {
    hide JsonOf, ContentsOf, Clean, CleanMembers, Lookup, Sanitize, Wholes, ReadValue, Header, FunctionMembers, Valid,
      TextShown, ReadFunction;
    FunctionUnfold(h, v, env);
    var d := h.functions[v.payload.handle.value];
    FunctionLookups(v.dims, d);
    CleanObject(Header("function-handle", v.dims) + FunctionMembers(d));
    ReadsList(CleanMembers(Header("function-handle", v.dims) + FunctionMembers(d)), "function-handle", v.dims);
  }

  // ----- objects -----

  ghost function ObjectList(v: Value, name: string, handle: bool, member: string, env: Environment): seq<Member> {
    ObjectMembers(v, name, handle, member) +
      (if IsGraphics(v.payload) && env.graphics(v).Some? then [Member("graphics", JEmbedded(env.graphics(v).value))]
       else [])
  }

  lemma {:induction false} ObjectListIs(v: Value, name: string, handle: bool, member: string, env: Environment)
    ensures ObjectJson(v, name, handle, member, env) == JObject(ObjectList(v, name, handle, member, env))
  {
    hide ObjectMembers;
    assert ObjectMembers(v, name, handle, member) + [] == ObjectMembers(v, name, handle, member);
  }

  lemma {:induction false} ObjectNamed(v: Value, name: string, handle: bool, member: string, env: Environment)
    ensures Named(ObjectList(v, name, handle, member, env))
  {
    hide Sanitize, Numbers, Representation;
    HeaderNames();
    AsciiStays("class");
    AsciiStays("handle");
    AsciiStays("enumeration_member");
    AsciiStays("representation");
    AsciiStays("graphics");
  }

  lemma {:induction false} RepresentationRead(v: Value)
    ensures Clean(JString(Representation(v))) == JString(Representation(v))
  {
    hide Clean, ShapeCount;
    CleanText(Representation(v));
  }

  lemma {:induction false} GraphicsRead(v: Value, name: string, handle: bool, member: string, env: Environment)
    ensures Lookup(CleanMembers(ObjectList(v, name, handle, member, env)), "graphics") ==
      if IsGraphics(v.payload) && env.graphics(v).Some? then Meaning(env.graphics(v).value) else JNull
  {
    hide Named, CleanMembers, Lookup, Sanitize, Numbers, Representation, Meaning, IsGraphics;
    var ms := ObjectList(v, name, handle, member, env);
    ObjectNamed(v, name, handle, member, env);
    if IsGraphics(v.payload) && env.graphics(v).Some? {
      CleanLookup(ms, 6);
    } else {
      CleanLookupNothing(ms, "graphics");
    }
  }

  lemma {:induction false} ObjectLookups(v: Value, name: string, handle: bool, member: string, env: Environment)
    ensures var c := CleanMembers(ObjectList(v, name, handle, member, env));
      && AsText(Lookup(c, "kind")) == "object" && Lookup(c, "dimensions") != JNull
      && Wholes(AsList(Lookup(c, "dimensions"))) == v.dims
      && ReadObject(c) == ObjectRead(Sanitize(name), v.dims, handle, if member == "" then None
           else Some(Sanitize(member)),
           Representation(v), Lookup(c, "graphics"))
  {
    hide Named, Clean, CleanMembers, Lookup, Sanitize, Wholes, Numbers, Representation, IsGraphics;
    var ms := ObjectList(v, name, handle, member, env);
    ObjectNamed(v, name, handle, member, env);
    CleanText("object");
    CleanTextIs(name);
    CleanTextIs(member);
    CleanFlag(handle);
    CleanNull();
    RepresentationRead(v);
    DimensionsRead(v.dims);
    CleanArray(Numbers(v.dims));
    CleanLookup(ms, 0);
    CleanLookup(ms, 1);
    CleanLookup(ms, 2);
    CleanLookup(ms, 3);
    CleanLookup(ms, 4);
    CleanLookup(ms, 5);
  }

  lemma {:induction false} CleanNull()
    ensures Clean(JNull) == JNull
  {
  }

  lemma {:induction false} ContentsShown(v: Value, shown: string, handle: bool, member: string, env: Environment)
    requires DocumentGiven(v, env)
    ensures ObjectContents(v, shown, handle, member, env) ==
      ObjectRead(shown, v.dims, handle, if member == "" then None else Some(Sanitize(member)), Representation(v),
        if IsGraphics(v.payload) && env.graphics(v).Some? then Meaning(env.graphics(v).value) else JNull)
  {
    hide Sanitize, Meaning, Product, PrefixesFit;
  }

  lemma {:induction false} ObjectReadBack(v: Value, name: string, handle: bool, member: string, env: Environment)
    requires DocumentGiven(v, env)
    ensures ReadValue(Clean(ObjectJson(v, name, handle, member, env))) ==
            ObjectContents(v, Sanitize(name), handle, member, env)
  {
    hide Clean, CleanMembers, Lookup, Sanitize, Wholes, ReadValue, ObjectJson, ObjectList, ReadObject, Meaning,
      ObjectContents, Representation, IsGraphics;
    var ms := ObjectList(v, name, handle, member, env);
    ObjectListIs(v, name, handle, member, env);
    CleanObject(ms);
    ObjectLookups(v, name, handle, member, env);
    GraphicsRead(v, name, handle, member, env);
    ReadsList(CleanMembers(ms), "object", v.dims);
    ContentsShown(v, Sanitize(name), handle, member, env);
  }

  lemma {:induction false} ClassShownIs(c: ClassName)
    ensures Sanitize(ClassNameText(c)) == ClassShown(c)
  {
    hide Sanitize;
    AsciiStays("MException");
    AsciiStays("duration");
    AsciiStays("datetime");
  }

  /** A value whose document is that of an object. */
  ghost predicate WrittenAsObject(p: Payload) { p.Sparse? || p.Categorical? || p.Tabular? || p.Object? }

  lemma {:induction false} ObjectsReadBack(h: Heap, v: Value, env: Environment)
    requires Valid(h, v) && WrittenAsObject(v.payload) && DocumentGiven(v, env)
    ensures ReadValue(Clean(JsonOf(h, v, env))) == ContentsOf(h, v, env)
  {
    hide Clean, Sanitize, ReadValue, ObjectJson, ObjectContents, ClassNameText, ClassShown;
    AsciiStays("sparse");
    AsciiStays("categorical");
    AsciiStays("timetable");
    AsciiStays("table");
    match v.payload
    case Sparse(_, _) => ObjectReadBack(v, "sparse", false, "", env);
    case Categorical(_, _, _) => ObjectReadBack(v, "categorical", false, "", env);
    case Tabular(id) => ObjectReadBack(v, if h.tables[id].timetable then "timetable" else "table", false, "", env);
    case Object(className, handleObject, _, _, _, _, member, _) =>
      ClassShownIs(className);
      ObjectReadBack(v, ClassNameText(className), handleObject, member, env);
  }

  // ----- containers -----

  lemma {:induction false} CleanCons(x: Json, items: seq<Json>)
    ensures CleanItems([x] + items) == [Clean(x)] + CleanItems(items)
  {
    hide Clean;
    assert ([x] + items)[1..] == items;
  }

  lemma {:induction false} CleanMemberCons(m: Member, ms: seq<Member>)
    ensures CleanMembers([m] + ms) == [Member(Sanitize(m.name), Clean(m.value))] + CleanMembers(ms)
  {
    hide Clean, Sanitize;
    assert ([m] + ms)[1..] == ms;
  }

  lemma {:induction false} ReadCons(x: Json, items: seq<Json>)
    ensures ReadItems([x] + items) == [ReadValue(x)] + ReadItems(items)
  {
    hide ReadValue;
  }

  lemma {:induction false} ReadFieldCons(m: Member, ms: seq<Member>)
    ensures ReadFields([m] + ms) == [FieldRead(m.name, ReadValue(m.value))] + ReadFields(ms)
  {
    hide ReadValue;
  }

  lemma {:induction false} ReadElementCons(ms: seq<Member>, items: seq<Json>)
    ensures ReadElements([JObject(ms)] + items) == [ReadFields(ms)] + ReadElements(items)
  {
    hide ReadFields;
  }

  lemma {:induction false} CellUnfold(h: Heap, v: Value, env: Environment)
    requires Valid(h, v) && (v.payload.Cell? || v.payload.CommaList?)
    ensures var cells, kind := if v.payload.Cell? then v.payload.cells else v.payload.items,
                               if v.payload.Cell? then "cell" else "comma-separated-list";
      && JsonOf(h, v, env) == JObject(Header(kind, v.dims) +
           [Member("data", JArray(CellItems(h, cells, v.dims, 0, env)))])
      && ContentsOf(h, v, env) ==
           (if v.payload.Cell? then CellRead(v.dims, CellContents(h, cells, v.dims, 0, env))
            else ListRead(v.dims, CellContents(h, cells, v.dims, 0, env)))
  {
    hide Header, CellItems, CellContents;
  }

  lemma {:induction false} CellsReadBack(h: Heap, v: Value, env: Environment)
    requires ValidHeap(h) && Valid(h, v) && (v.payload.Cell? || v.payload.CommaList?) && WellShaped(v, env)
    ensures ReadValue(Clean(JsonOf(h, v, env))) == ContentsOf(h, v, env)
    decreases v, 0, 1
  {
    var cells := if v.payload.Cell? then v.payload.cells else v.payload.items;
    CellItemsReadBack(h, cells, v.dims, 0, env);
    hide *;
    CellUnfold(h, v, env);
    ListReadBack(v.payload.Cell?, v.dims, CellItems(h, cells, v.dims, 0, env));
  }

  lemma {:induction false} ListReadBack(cell: bool, dims: Dimensions, items: seq<Json>)
    ensures ReadValue(Clean(JObject(Header(if cell then "cell" else "comma-separated-list", dims) +
              [Member("data", JArray(items))]))) ==
            if cell then CellRead(dims, ReadItems(CleanItems(items))) else ListRead(dims, ReadItems(CleanItems(items)))
  {
    hide Clean, CleanMembers, CleanItems, Lookup, Sanitize, Wholes, ReadValue, Header, ReadItems;
    var kind := if cell then "cell" else "comma-separated-list";
    HeaderNames();
    HeaderAnd(kind, dims, "data", items);
    CleanObject(Header(kind, dims) + [Member("data", JArray(items))]);
    ReadsList(CleanMembers(Header(kind, dims) + [Member("data", JArray(items))]), kind, dims);
  }

  lemma {:induction false} CellItemsReadBack(h: Heap, cells: seq<Value>, dims: Dimensions, i: nat, env: Environment)
    requires ValidHeap(h) && (forall k :: 0 <= k < |cells| ==> Valid(h, cells[k])) && CellsShaped(cells, dims, i, env)
    ensures ReadItems(CleanItems(CellItems(h, cells, dims, i, env))) == CellContents(h, cells, dims, i, env)
    decreases cells, ShapeCount(dims) - i, 0
  {
    hide Clean, CleanItems, ReadItems, ReadValue, JsonOf, ContentsOf, ValidHeap, Valid, WellShaped, ShapeCount,
      StoredAt;
    if i < ShapeCount(dims) {
      var c := StoredAt(cells, dims, i).value;
      StoredIn(cells, dims, i);
      ValueReadBack(h, c, env);
      CellItemsReadBack(h, cells, dims, i + 1, env);
      var rest := CellItems(h, cells, dims, i + 1, env);
      CleanCons(JsonOf(h, c, env), rest);
      ReadCons(Clean(JsonOf(h, c, env)), CleanItems(rest));
    } else {
      NothingRead();
    }
  }

  lemma {:induction false} StoredIn<T>(elements: seq<T>, dims: Dimensions, i: nat)
    requires StoredAt(elements, dims, i).Some?
    ensures StoredAt(elements, dims, i).value in elements
  {
  }

  lemma {:induction false} FieldsReadBack(h: Heap, order: seq<string>, record: Record, j: nat, env: Environment)
    requires ValidHeap(h) && ValidRecord(h, record) && RecordShaped(order, record, j, env)
    ensures ReadFields(CleanMembers(RecordMembers(h, order, record, j, env))) ==
            FieldContents(h, order, record, j, env)
    decreases record, |order| - j, 0
  {
    hide Clean, CleanMembers, ReadFields, ReadValue, JsonOf, ContentsOf, ValidHeap, Valid, WellShaped, Sanitize;
    if j < |order| {
      var value := record.fields[order[j]];
      ValueReadBack(h, value, env);
      FieldsReadBack(h, order, record, j + 1, env);
      var m, rest := Member(order[j], JsonOf(h, value, env)), RecordMembers(h, order, record, j + 1, env);
      CleanMemberCons(m, rest);
      ReadFieldCons(Member(Sanitize(m.name), Clean(m.value)), CleanMembers(rest));
    } else {
      NothingRead();
    }
  }

  lemma {:induction false} ElementsReadBack(h: Heap, order: seq<string>, records: seq<Record>, dims: Dimensions, i: nat,
                                            env: Environment)
    requires ValidHeap(h) && forall k :: 0 <= k < |records| ==> ValidRecord(h, records[k])
    requires RecordsShaped(order, records, dims, i, env)
    ensures ReadElements(CleanItems(RecordItems(h, order, records, dims, i, env))) ==
            ElementContents(h, order, records, dims, i, env)
    decreases records, ShapeCount(dims) - i, 0
  {
    hide Clean, CleanMembers, CleanItems, ReadFields, ReadElements, RecordMembers, FieldContents, ValidHeap,
      ValidRecord,
      RecordShaped, ShapeCount, StoredAt;
    if i < ShapeCount(dims) {
      var r := StoredAt(records, dims, i).value;
      StoredIn(records, dims, i);
      FieldsReadBack(h, order, r, 0, env);
      ElementsReadBack(h, order, records, dims, i + 1, env);
      var ms, rest := RecordMembers(h, order, r, 0, env), RecordItems(h, order, records, dims, i + 1, env);
      CleanObject(ms);
      CleanCons(JObject(ms), rest);
      ReadElementCons(CleanMembers(ms), CleanItems(rest));
    } else {
      NothingRead();
    }
  }

  lemma {:induction false} StructUnfold(h: Heap, v: Value, env: Environment)
    requires Valid(h, v) && v.payload.Struct?
    ensures var order, records := v.payload.order, v.payload.records;
      && JsonOf(h, v, env) == JObject(Header("struct", v.dims) +
           [Member("fields", JArray(Texts(order))),
             Member("data", JArray(RecordItems(h, order, records, v.dims, 0, env)))])
      && ContentsOf(h, v, env) ==
           StructRead(v.dims, CleanTexts(order), ElementContents(h, order, records, v.dims, 0, env))
  {
    hide Header, Texts, RecordItems, ElementContents, CleanTexts;
    var order, records := v.payload.order, v.payload.records;
    var a, b := [Member("fields", JArray(Texts(order)))],
      [Member("data", JArray(RecordItems(h, order, records, v.dims, 0, env)))];
    assert Header("struct", v.dims) + a + b == Header("struct", v.dims) + (a + b);
  }

  lemma {:induction false} OrderRead(order: seq<string>)
    ensures TextsOf(CleanItems(Texts(order))) == CleanTexts(order)
  {
    CleanItemsAt(Texts(order));
    hide Sanitize;
  }

  lemma {:induction false} StructDocument(dims: Dimensions, order: seq<string>, items: seq<Json>)
    ensures ReadValue(Clean(JObject(Header("struct", dims) +
              [Member("fields", JArray(Texts(order))), Member("data", JArray(items))]))) ==
            StructRead(dims, CleanTexts(order), ReadElements(CleanItems(items)))
  {
    hide Clean, CleanMembers, CleanItems, Lookup, Sanitize, Wholes, ReadValue, ReadElements, Texts, TextsOf, CleanTexts,
      Numbers;
    HeaderNames();
    AsciiStays("fields");
    var rest := [Member("fields", JArray(Texts(order))), Member("data", JArray(items))];
    var ms := Header("struct", dims) + rest;
    assert Named(ms);
    HeaderRead("struct", dims, rest);
    var c := CleanMembers(ms);
    assert Lookup(c, rest[0].name) == Clean(rest[0].value) && Lookup(c, rest[1].name) == Clean(rest[1].value);
    CleanArray(Texts(order));
    CleanArray(items);
    OrderRead(order);
    CleanObject(ms);
    ReadsList(c, "struct", dims);
  }

  lemma {:induction false} StructReadBack(h: Heap, v: Value, env: Environment)
    requires ValidHeap(h) && Valid(h, v) && v.payload.Struct? && WellShaped(v, env)
    ensures ReadValue(Clean(JsonOf(h, v, env))) == ContentsOf(h, v, env)
    decreases v, 0, 1
  {
    var order, records := v.payload.order, v.payload.records;
    ElementsReadBack(h, order, records, v.dims, 0, env);
    hide *;
    StructUnfold(h, v, env);
    StructDocument(v.dims, order, RecordItems(h, order, records, v.dims, 0, env));
  }

  lemma {:induction false} NameValueDocument(name: string, value: Json)
    requires Clean(value) != JNull
    ensures ReadValue(Clean(NameValueJson(name, value))) == NameValueRead(Sanitize(name), ReadValue(Clean(value)))
  {
    hide Clean, CleanMembers, Lookup, Sanitize, Wholes, ReadValue, Named;
    var ms := [Member("kind", JString("name-value-argument")), Member("name", JString(name)), Member("value", value)];
    NameValueNamed(name, value);
    CleanText("name-value-argument");
    CleanTextIs(name);
    CleanLookup(ms, 0);
    CleanLookup(ms, 1);
    CleanLookup(ms, 2);
    CleanObject(ms);
    ReadsNameValue(CleanMembers(ms));
  }

  lemma {:induction false} NameValueNamed(name: string, value: Json)
    ensures var ms := [Member("kind", JString("name-value-argument")), Member("name", JString(name)),
                       Member("value", value)];
      NameValueJson(name, value) == JObject(ms) && Named(ms)
  {
    hide Sanitize;
    HeaderNames();
    AsciiStays("name");
    AsciiStays("value");
  }

  lemma {:induction false} ReadsNameValue(ms: seq<Member>)
    requires AsText(Lookup(ms, "kind")) == "name-value-argument" && Lookup(ms, "value") != JNull
    ensures ReadValue(JObject(ms)) == NameValueRead(AsText(Lookup(ms, "name")), ReadValue(Lookup(ms, "value")))
  {
    hide Lookup, Wholes;
  }

  lemma {:induction false} NameValueReadBack(h: Heap, v: Value, env: Environment)
    requires ValidHeap(h) && Valid(h, v) && v.payload.NameValue? && WellShaped(v, env)
    ensures ReadValue(Clean(JsonOf(h, v, env))) == ContentsOf(h, v, env)
    decreases v, 0, 1
  {
    var name, boxed := v.payload.name, v.payload.boxed;
    ValueReadBack(h, boxed[0], env);
    DocumentIsObject(h, boxed[0], env);
    hide Clean, Sanitize, ReadValue;
    NameValueDocument(name, JsonOf(h, boxed[0], env));
  }

  lemma {:induction false} DocumentIsObject(h: Heap, v: Value, env: Environment)
    requires Valid(h, v) && WellShaped(v, env)
    ensures Clean(JsonOf(h, v, env)).JObject?
  {
    hide Clean, CellItems, RecordItems, Header;
    CleanObject(JsonOf(h, v, env).members);
  }

  /**
   The document of a value, read back, says exactly what the value holds: its class, its shape, and every element in
   column-major order.
   */
  lemma {:induction false} ValueReadBack(h: Heap, v: Value, env: Environment)
    requires ValidHeap(h) && Valid(h, v) && WellShaped(v, env)
    ensures ReadValue(Clean(JsonOf(h, v, env))) == ContentsOf(h, v, env)
    decreases v, 0, 2
  {
    assert LeafShaped(v) && DocumentGiven(v, env);
    hide ValidHeap, Valid, Clean, ReadValue, JsonOf, ContentsOf;
    match v.payload
    case Missing => MissingReads(h, v, env);
    case MissingArray => MissingReads(h, v, env);
    case Dense(_, _, _) => NumbersReadBack(h, v, env);
    case Characters(_) => CharactersReadBack(h, v, env);
    case Strings(_) => TextsReadBack(h, v, env);
    case Cell(_) => CellsReadBack(h, v, env);
    case CommaList(_) => CellsReadBack(h, v, env);
    case Function(_) => FunctionReadBack(h, v, env);
    case Struct(_, _) => StructReadBack(h, v, env);
    case NameValue(_, _) => NameValueReadBack(h, v, env);
    case _ => ObjectsReadBack(h, v, env);
  }

  /** So the text of a value, parsed and read, says what the value holds, and values with one text hold the same. */
  lemma {:induction false} TextSays(h: Heap, v: Value, env: Environment, text: string)
    requires ValidHeap(h) && Valid(h, v) && WellShaped(v, env)
    requires ParseText(text) == Some(Clean(JsonOf(h, v, env)))
    ensures ReadValue(ParseText(text).value) == ContentsOf(h, v, env)
  {
    hide *;
    ValueReadBack(h, v, env);
  }

  lemma {:induction false} NothingRead()
    ensures ReadItems(CleanItems([])) == [] && ReadElements(CleanItems([])) == [] && ReadFields(CleanMembers([])) == []
  {
  }
}
