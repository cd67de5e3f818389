/**
 The machine protocol's value walk: `writeRuntimeValue` and `writeCause` drive
 a JsonWriter; on every value the walk can finish it writes exactly the
 document JsonOf gives, and it never meets one of the writer's logic errors.
 */
module MachineProtocol {
  import opened Wrappers
  import opened Layout
  import opened RuntimeValues
  import opened Utf8
  import opened JsonText
  import opened WriterStates
  import opened JsonWriters

  const MAXIMUM_NESTING_DEPTH: nat := 128

  /** What the walk takes from code outside the model: number formatting, and serialized graphics documents. */
  datatype Environment = Environment(format: Formatter, graphics: Documents)

  /** The graphics serializer: it refuses a value or writes one JSON value, in whatever spelling. */
  type Documents = f: Value -> Option<string> | forall v :: f(v).Some? ==> StandsAlone(f(v).value) witness NoDocument

  function NoDocument(v: Value): Option<string> { None }

  // ----- the writer inside a container -----

  function InObject(st: State, members: seq<Member>): State
    requires WellNested(st) && CanPut(st)
  {
    Push(st, ObjectFrame(members, None))
  }

  function AtKey(st: State, members: seq<Member>, name: string): State
    requires WellNested(st) && CanPut(st)
  {
    Push(st, ObjectFrame(members, Some(name)))
  }

  function InArray(st: State, items: seq<Json>): State
    requires WellNested(st) && CanPut(st)
  {
    Push(st, ArrayFrame(items))
  }

  lemma {:induction false} InsideSteps(st: State, members: seq<Member>, name: string, items: seq<Json>, v: Json)
    requires WellNested(st) && CanPut(st)
    ensures Step(InObject(st, members), Key(name)) == Some(AtKey(st, members, name))
    ensures CanPut(AtKey(st, members, name))
      && Put(AtKey(st, members, name), v) == InObject(st, members + [Member(name, v)])
    ensures Step(InObject(st, members), EndObject) == Some(Put(st, JObject(members)))
    ensures CanPut(InArray(st, items)) && Put(InArray(st, items), v) == InArray(st, items + [v])
    ensures Step(InArray(st, items), EndArray) == Some(Put(st, JArray(items)))
  {
    assert State(st.frames, None) == st;
    assert (st.frames + [ObjectFrame(members, None)])[..|st.frames|] == st.frames;
    assert (st.frames + [ObjectFrame(members, Some(name))])[..|st.frames|] == st.frames;
    assert (st.frames + [ArrayFrame(items)])[..|st.frames|] == st.frames;
  }

  method OpenObject(w: JsonWriter, ghost st: State)
    requires w.Valid() && WellNested(st) && CanPut(st) && w.state == st
    modifies w
    ensures w.Valid() && w.state == InObject(st, [])
  {
    var ok := w.BeginObject();
    assert ok;
  }

  method PutKey(w: JsonWriter, name: string, ghost st: State, ghost members: seq<Member>)
    requires w.Valid() && WellNested(st) && CanPut(st) && w.state == InObject(st, members)
    modifies w
    ensures w.Valid() && w.state == AtKey(st, members, name) && CanPut(w.state)
  {
    InsideSteps(st, members, name, [], JNull);
    var ok := w.Key(name);
    assert ok;
  }

  method CloseObject(w: JsonWriter, ghost st: State, ghost members: seq<Member>)
    requires w.Valid() && WellNested(st) && CanPut(st) && w.state == InObject(st, members)
    modifies w
    ensures w.Valid() && w.state == Put(st, JObject(members))
  {
    InsideSteps(st, members, "", [], JNull);
    var ok := w.EndObject();
    assert ok;
  }

  method OpenArray(w: JsonWriter, ghost st: State)
    requires w.Valid() && WellNested(st) && CanPut(st) && w.state == st
    modifies w
    ensures w.Valid() && w.state == InArray(st, []) && CanPut(w.state)
  {
    var ok := w.BeginArray();
    assert ok;
  }

  method CloseArray(w: JsonWriter, ghost st: State, ghost items: seq<Json>)
    requires w.Valid() && WellNested(st) && CanPut(st) && w.state == InArray(st, items)
    modifies w
    ensures w.Valid() && w.state == Put(st, JArray(items))
  {
    InsideSteps(st, [], "", items, JNull);
    var ok := w.EndArray();
    assert ok;
  }

  /** A scalar where a value is due. */
  method PutScalar(w: JsonWriter, v: Json)
    requires w.Valid() && CanPut(w.state)
    modifies w
    ensures w.Valid() && old(WellNested(w.state)) && w.state == Put(old(w.state), v)
  {
    var ok := Make(w, Whole(v));
    assert ok;
  }

  /** `field(name, value)` */
  method PutField(w: JsonWriter, name: string, v: Json, ghost st: State, ghost members: seq<Member>)
    requires w.Valid() && WellNested(st) && CanPut(st) && w.state == InObject(st, members)
    modifies w
    ensures w.Valid() && w.state == InObject(st, members + [Member(name, v)])
  {
    PutKey(w, name, st, members);
    InsideSteps(st, members, name, [], v);
    PutScalar(w, v);
  }

  /** The next item of an array. */
  method PutItem(w: JsonWriter, v: Json, ghost st: State, ghost items: seq<Json>)
    requires w.Valid() && WellNested(st) && CanPut(st) && w.state == InArray(st, items)
    modifies w
    ensures w.Valid() && w.state == InArray(st, items + [v])
  {
    InsideSteps(st, [], "", items, v);
    PutScalar(w, v);
  }

  /** Several scalar fields in a row. */
  method PutFields(w: JsonWriter, fields: seq<Member>, ghost st: State, ghost members: seq<Member>)
    requires w.Valid() && WellNested(st) && CanPut(st) && w.state == InObject(st, members)
    modifies w
    ensures w.Valid() && w.state == InObject(st, members + fields)
  {
    AppendPrefix(members, fields, 0);
    for k := 0 to |fields|
      invariant w.Valid() && w.state == InObject(st, members + fields[..k])
    {
      PutField(w, fields[k].name, fields[k].value, st, members + fields[..k]);
      AppendPrefix(members, fields, k);
    }
    AppendPrefix(members, fields, |fields|);
  }

  lemma {:induction false} AppendPrefix(members: seq<Member>, fields: seq<Member>, k: nat)
    requires k <= |fields|
    ensures k < |fields| ==>
      members + fields[..k] + [Member(fields[k].name, fields[k].value)] == members + fields[..k + 1]
    ensures k == 0 ==> members + fields[..k] == members
    ensures k == |fields| ==> members + fields[..k] == members + fields
  {
    if k == |fields| { assert fields[..k] == fields; }
  }

  /** Open an object and write its leading scalar fields. */
  method OpenFields(w: JsonWriter, fields: seq<Member>, ghost st: State)
    requires w.Valid() && WellNested(st) && CanPut(st) && w.state == st
    modifies w
    ensures w.Valid() && w.state == InObject(st, fields)
  {
    OpenObject(w, st);
    PutFields(w, fields, st, []);
    assert [] + fields == fields;
  }

  lemma {:induction false} PrefixSnoc(items: seq<Json>, k: nat)
    requires k < |items|
    ensures items[..k] + [items[k]] == items[..k + 1]
  {
  }

  lemma {:induction false} WholePrefix(items: seq<Json>)
    ensures items[..|items|] == items
  {
  }

  // ----- pieces -----

  function Number(n: nat): Json { JNumber(Decimal(n)) }

  function Numbers(ns: seq<nat>): (r: seq<Json>)
    ensures |r| == |ns|
    ensures forall i :: 0 <= i < |ns| ==> r[i] == Number(ns[i])
  {
    if ns == [] then [] else [Number(ns[0])] + Numbers(ns[1..])
  }

  function Texts(ts: seq<string>): (r: seq<Json>)
    ensures |r| == |ts|
    ensures forall i :: 0 <= i < |ts| ==> r[i] == JString(ts[i])
  {
    if ts == [] then [] else [JString(ts[0])] + Texts(ts[1..])
  }

  method WriteDimensions(w: JsonWriter, dims: Dimensions)
    requires w.Valid() && CanPut(w.state)
    modifies w
    ensures w.Valid() && old(WellNested(w.state)) && w.state == Put(old(w.state), JArray(Numbers(dims)))
  {
    ghost var st, items := w.state, Numbers(dims);
    OpenArray(w, st);
    for k := 0 to |dims|
      invariant w.Valid() && w.state == InArray(st, items[..k])
    {
      PutItem(w, Number(dims[k]), st, items[..k]);
      PrefixSnoc(items, k);
    }
    WholePrefix(items);
    CloseArray(w, st, items);
  }

  method WriteTexts(w: JsonWriter, ts: seq<string>)
    requires w.Valid() && CanPut(w.state)
    modifies w
    ensures w.Valid() && old(WellNested(w.state)) && w.state == Put(old(w.state), JArray(Texts(ts)))
  {
    ghost var st, items := w.state, Texts(ts);
    OpenArray(w, st);
    for k := 0 to |ts|
      invariant w.Valid() && w.state == InArray(st, items[..k])
    {
      PutItem(w, JString(ts[k]), st, items[..k]);
      PrefixSnoc(items, k);
    }
    WholePrefix(items);
    CloseArray(w, st, items);
  }

  function ClassText(c: NumericClass): string {
    match c
    case Double => "double" case Logical => "logical" case Single => "single"
    case Int8 => "int8" case UInt8 => "uint8" case Int16 => "int16" case UInt16 => "uint16"
    case Int32 => "int32" case UInt32 => "uint32" case Int64 => "int64" case UInt64 => "uint64"
  }

  predicate IsSigned(c: NumericClass) { c == Int8 || c == Int16 || c == Int32 || c == Int64 }

  /** `std::bit_cast<std::int64_t>` */
  function ToSigned(bits: nat): int {
    if bits < 0x8000_0000_0000_0000 then bits else bits - 0x1_0000_0000_0000_0000
  }

  /** `writeNumericElement` */
  function ElementJson(c: NumericClass, e: NumericElement, imaginary: bool, format: Formatter): Json {
    if c == Logical then JBool(!e.re.Zero?)
    else if IsIntegerClass(c) then
      var bits := if imaginary then e.imaginaryBits else e.bits;
      if IsSigned(c) then JNumber(SignedDecimal(ToSigned(bits))) else Number(bits)
    else DoubleJson(if imaginary then e.im else e.re, format)
  }

  function HandleKindText(k: HandleKind): string {
    match k
    case AnonymousHandle => "anonymous" case FunctionHandle => "function"
    case BuiltinHandle => "builtin" case MethodHandle => "method"
  }

  function BackendText(b: Backend): string {
    match b case Independent => "independent" case Hir => "hir" case Bytecode => "bytecode"
  }

  function ClassNameText(c: ClassName): string {
    match c
    case UserClass(name) => name
    case ExceptionClass => "MException"
    case MetadataClass(name, _) => name
    case TemporalClass(duration) => if duration then "duration" else "datetime"
    case GraphicsClass(name) => name
  }

  // ----- the document of a value -----

  /** An element looked up through its column-major index. */
  ghost function StoredAt<T>(elements: seq<T>, dims: Dimensions, i: nat): Option<T> {
    if StorageOffset(dims, i) < |elements| then Some(elements[StorageOffset(dims, i)]) else None
  }

  ghost function NumericItems(v: Value, imaginary: bool, format: Formatter): (r: seq<Json>)
    ensures |r| == ShapeCount(v.dims)
  {
    seq(ShapeCount(v.dims), i requires 0 <= i =>
      match NumericElementAt(v, i)
      case None => JNull
      case Some(e) => ElementJson(v.numericClass, e, imaginary, format))
  }

  function DimensionsMember(dims: Dimensions): Member { Member("dimensions", JArray(Numbers(dims))) }

  /** The opening of every document that has a shape. */
  function Header(kind: string, dims: Dimensions): seq<Member> {
    [Member("kind", JString(kind))] + [DimensionsMember(dims)]
  }

  ghost function NumericMembers(v: Value, format: Formatter): seq<Member> {
    [Member("kind", JString("numeric")), Member("class", JString(ClassText(v.numericClass)))] +
    [DimensionsMember(v.dims)] + [Member("data", JArray(NumericItems(v, false, format)))]
  }

  ghost function NumericJson(v: Value, complex: bool, format: Formatter): Json {
    if complex then
      JObject(NumericMembers(v, format) + [Member("complex", JBool(true))] +
              [Member("imaginary_data", JArray(NumericItems(v, true, format)))])
    else JObject(NumericMembers(v, format))
  }

  ghost function UnitItems(units: seq<nat>, dims: Dimensions): (r: seq<Json>)
    ensures |r| == ShapeCount(dims)
  {
    seq(ShapeCount(dims), i requires 0 <= i =>
      match StoredAt(units, dims, i) case None => JNull case Some(u) => Number(u))
  }

  function TextJson(t: StringElement): Json
    requires UnitsFit(t)
  {
    if t.missing then JNull else JString(FromUtf16(t.units))
  }

  ghost function TextItems(texts: seq<StringElement>, dims: Dimensions): (r: seq<Json>)
    ensures |r| == ShapeCount(dims)
  {
    seq(ShapeCount(dims), i requires 0 <= i =>
      match StoredAt(texts, dims, i)
      case None => JNull
      case Some(t) => if UnitsFit(t) then TextJson(t) else JNull)
  }

  predicate IsGraphics(p: Payload) { p.Object? && p.className.GraphicsClass? && p.handleObject }

  ghost function Representation(v: Value): string {
    if !IsGraphics(v.payload) then "opaque"
    else if v.payload.parts == [] && ShapeCount(v.dims) == 1 then "graphics" else "graphics-array"
  }

  ghost function ObjectMembers(v: Value, name: string, handle: bool, member: string): seq<Member> {
    [Member("kind", JString("object")), Member("class", JString(name))] + [DimensionsMember(v.dims)] +
    [Member("handle", JBool(handle)),
     Member("enumeration_member", if member == "" then JNull else JString(member)),
     Member("representation", JString(Representation(v)))]
  }

  ghost function ObjectJson(v: Value, name: string, handle: bool, member: string, env: Environment): Json {
    if IsGraphics(v.payload) && env.graphics(v).Some?
    then JObject(ObjectMembers(v, name, handle, member) + [Member("graphics", JEmbedded(env.graphics(v).value))])
    else JObject(ObjectMembers(v, name, handle, member))
  }

  function FunctionMembers(d: Descriptor): seq<Member> {
    [Member("handle_kind", JString(HandleKindText(d.kind))), Member("backend", JString(BackendText(d.backend))),
     Member("display", JString(d.text.display)), Member("target_name", JString(d.text.targetName)),
     Member("class_name", JString(d.text.className)), Member("method_name", JString(d.text.methodName)),
     Member("declaring_class", JString(d.text.declaringClass)), Member("module_bound", JBool(d.backend != Independent))]
  }

  /** The document of a value: cell and structure data in column-major order, nested values in place. */
  ghost function JsonOf(h: Heap, v: Value, env: Environment): Json
    requires Valid(h, v)
    decreases v, 0, 0
  {
    match v.payload
    case Missing => JObject([Member("kind", JString("missing"))])
    case MissingArray => JObject(Header("missing", v.dims))
    case Dense(_, complex, _) => NumericJson(v, complex, env.format)
    case Characters(units) =>
      JObject(Header("character", v.dims) + [Member("utf16", JArray(UnitItems(units, v.dims)))])
    case Strings(texts) => ContainerJson("string", v.dims, TextItems(texts, v.dims))
    case Cell(cells) => ContainerJson("cell", v.dims, CellItems(h, cells, v.dims, 0, env))
    case CommaList(items) => ContainerJson("comma-separated-list", v.dims, CellItems(h, items, v.dims, 0, env))
    case Function(handle) => if handle == None then JNull
      else JObject(Header("function-handle", v.dims) + FunctionMembers(h.functions[handle.value]))
    case Struct(order, records) => StructJson(order, v.dims, RecordItems(h, order, records, v.dims, 0, env))
    case NameValue(name, boxed) => if |boxed| != 1 then JNull else NameValueJson(name, JsonOf(h, boxed[0], env))
    case Sparse(_, _) => ObjectJson(v, "sparse", false, "", env)
    case Categorical(_, _, _) => ObjectJson(v, "categorical", false, "", env)
    case Tabular(storage) => ObjectJson(v, if h.tables[storage].timetable then "timetable" else "table", false, "", env)
    case Object(className, handleObject, _, _, _, _, member, _) =>
      ObjectJson(v, ClassNameText(className), handleObject, member, env)
  }

  function ContainerJson(kind: string, dims: Dimensions, data: seq<Json>): Json {
    JObject(Header(kind, dims) + [Member("data", JArray(data))])
  }

  function StructJson(order: seq<string>, dims: Dimensions, data: seq<Json>): Json {
    JObject(Header("struct", dims) + [Member("fields", JArray(Texts(order)))] + [Member("data", JArray(data))])
  }

  function NameValueJson(name: string, value: Json): Json {
    JObject([Member("kind", JString("name-value-argument")), Member("name", JString(name))] + [Member("value", value)])
  }

  ghost function CellItems(h: Heap, cells: seq<Value>, dims: Dimensions, i: nat, env: Environment): seq<Json>
    requires forall k :: 0 <= k < |cells| ==> Valid(h, cells[k])
    decreases cells, ShapeCount(dims) - i, 1
  {
    if i >= ShapeCount(dims) then []
    else
      [match StoredAt(cells, dims, i) case None => JNull case Some(c) => JsonOf(h, c, env)] +
        CellItems(h, cells, dims, i + 1, env)
  }

  /** The members of one structure element, in field order. */
  ghost function RecordMembers(h: Heap, order: seq<string>, record: Record, j: nat, env: Environment): seq<Member>
    requires ValidRecord(h, record)
    decreases record, |order| - j, 1
  {
    if j >= |order| then []
    else
      [Member(order[j], if order[j] in record.fields then JsonOf(h, record.fields[order[j]], env) else JNull)] +
      RecordMembers(h, order, record, j + 1, env)
  }

  ghost function RecordItems(h: Heap, order: seq<string>, records: seq<Record>, dims: Dimensions, i: nat,
                             env: Environment): seq<Json>
    requires forall k :: 0 <= k < |records| ==> ValidRecord(h, records[k])
    decreases records, ShapeCount(dims) - i, 1
  {
    if i >= ShapeCount(dims) then []
    else
      [match StoredAt(records, dims, i)
       case None => JNull
       case Some(r) => JObject(RecordMembers(h, order, r, 0, env))] +
      RecordItems(h, order, records, dims, i + 1, env)
  }

  // ----- which values can be written -----

  /** The payload answers for every element the shape promises. */
  ghost predicate LeafShaped(v: Value) {
    match v.payload
    case Dense(_, _, _) =>
      PrefixesFit(v.dims) && forall i: nat :: i < ShapeCount(v.dims) ==> NumericElementAt(v, i).Some?
    case Characters(units) =>
      PrefixesFit(v.dims) && forall i: nat :: i < ShapeCount(v.dims) ==> StoredAt(units, v.dims, i).Some?
    case Strings(texts) =>
      PrefixesFit(v.dims) && forall i: nat :: i < ShapeCount(v.dims) ==> StoredAt(texts, v.dims, i).Some?
    case Function(handle) => handle.Some?
    case _ => true
  }

  /** The serializer has a document for v, if v needs one. */
  predicate DocumentGiven(v: Value, env: Environment) { IsGraphics(v.payload) ==> env.graphics(v).Some? }

  /** v, sitting at the given depth, can be written: shapes hold and nothing lies deeper than the limit. */
  ghost predicate Writable(h: Heap, v: Value, depth: nat, env: Environment)
    decreases v, 0, 0
  {
    && depth <= MAXIMUM_NESTING_DEPTH
    && LeafShaped(v) && DocumentGiven(v, env)
    && match v.payload
       case Cell(cells) => PrefixesFit(v.dims) && CellsWritable(h, cells, v.dims, 0, depth + 1, env)
       case CommaList(items) => PrefixesFit(v.dims) && CellsWritable(h, items, v.dims, 0, depth + 1, env)
       case Struct(order, records) => PrefixesFit(v.dims)
         && RecordsWritable(h, order, records, v.dims, 0, depth + 1, env)
       case NameValue(_, boxed) => |boxed| == 1 && Writable(h, boxed[0], depth + 1, env)
       case _ => true
  }

  ghost predicate CellsWritable(h: Heap, cells: seq<Value>, dims: Dimensions, i: nat, depth: nat, env: Environment)
    decreases cells, ShapeCount(dims) - i, 1
  {
    i < ShapeCount(dims) ==>
      && StoredAt(cells, dims, i).Some?
      && Writable(h, StoredAt(cells, dims, i).value, depth, env)
      && CellsWritable(h, cells, dims, i + 1, depth, env)
  }

  ghost predicate RecordWritable(h: Heap, order: seq<string>, record: Record, j: nat, depth: nat, env: Environment)
    decreases record, |order| - j, 1
  {
    j < |order| ==>
      && order[j] in record.fields
      && Writable(h, record.fields[order[j]], depth, env)
      && RecordWritable(h, order, record, j + 1, depth, env)
  }

  ghost predicate RecordsWritable(h: Heap, order: seq<string>, records: seq<Record>, dims: Dimensions, i: nat,
                                  depth: nat, env: Environment)
    decreases records, ShapeCount(dims) - i, 1
  {
    i < ShapeCount(dims) ==>
      && StoredAt(records, dims, i).Some?
      && RecordWritable(h, order, StoredAt(records, dims, i).value, 0, depth, env)
      && RecordsWritable(h, order, records, dims, i + 1, depth, env)
  }
}
