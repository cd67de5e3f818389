/**
 What the machine-protocol walk promises as a whole: when it succeeds, what its
 text parses to, and where in the document each element of a value ends up.
 */
module ProtocolResults {
  import opened Wrappers
  import opened Layout
  import opened RuntimeValues
  import opened JsonText
  import opened JsonWriters
  import opened MachineProtocol
  import opened ProtocolWalk

  function Max(a: nat, b: nat): nat { if a < b then b else a }

  // ----- nesting and shape, separately -----

  /** How many levels of values sit below v, counting only elements its shape reaches. */
  ghost function Nesting(v: Value): nat
    decreases v, 0, 0
  {
    match v.payload
    case Cell(cells) => CellsNesting(cells, v.dims, 0)
    case CommaList(items) => CellsNesting(items, v.dims, 0)
    case Struct(order, records) => RecordsNesting(order, records, v.dims, 0)
    case NameValue(_, boxed) => if |boxed| == 1 then 1 + Nesting(boxed[0]) else 0
    case _ => 0
  }

  ghost function CellsNesting(cells: seq<Value>, dims: Dimensions, i: nat): nat
    decreases cells, ShapeCount(dims) - i, 1
  {
    if i >= ShapeCount(dims) then 0
    else
      var here := match StoredAt(cells, dims, i) case None => 0 case Some(c) => 1 + Nesting(c);
      Max(here, CellsNesting(cells, dims, i + 1))
  }

  ghost function RecordNesting(order: seq<string>, record: Record, j: nat): nat
    decreases record, |order| - j, 1
  {
    if j >= |order| then 0
    else
      var here := if order[j] in record.fields then 1 + Nesting(record.fields[order[j]]) else 0;
      Max(here, RecordNesting(order, record, j + 1))
  }

  ghost function RecordsNesting(order: seq<string>, records: seq<Record>, dims: Dimensions, i: nat): nat
    decreases records, ShapeCount(dims) - i, 1
  {
    if i >= ShapeCount(dims) then 0
    else Max(match StoredAt(records, dims, i) case None => 0 case Some(r) => RecordNesting(order, r, 0),
             RecordsNesting(order, records, dims, i + 1))
  }

  /** Every payload, at every level, answers for what its shape promises. */
  ghost predicate WellShaped(v: Value, env: Environment)
    decreases v, 0, 0
  {
    && LeafShaped(v) && DocumentGiven(v, env)
    && match v.payload
       case Cell(cells) => PrefixesFit(v.dims) && CellsShaped(cells, v.dims, 0, env)
       case CommaList(items) => PrefixesFit(v.dims) && CellsShaped(items, v.dims, 0, env)
       case Struct(order, records) => PrefixesFit(v.dims) && RecordsShaped(order, records, v.dims, 0, env)
       case NameValue(_, boxed) => |boxed| == 1 && WellShaped(boxed[0], env)
       case _ => true
  }

  ghost predicate CellsShaped(cells: seq<Value>, dims: Dimensions, i: nat, env: Environment)
    decreases cells, ShapeCount(dims) - i, 1
  {
    i < ShapeCount(dims) ==>
      StoredAt(cells, dims, i).Some? && WellShaped(StoredAt(cells, dims, i).value, env)
        && CellsShaped(cells, dims, i + 1, env)
  }

  ghost predicate RecordShaped(order: seq<string>, record: Record, j: nat, env: Environment)
    decreases record, |order| - j, 1
  {
    j < |order| ==>
      order[j] in record.fields && WellShaped(record.fields[order[j]], env) && RecordShaped(order, record, j + 1, env)
  }

  ghost predicate RecordsShaped(order: seq<string>, records: seq<Record>, dims: Dimensions, i: nat, env: Environment)
    decreases records, ShapeCount(dims) - i, 1
  {
    i < ShapeCount(dims) ==>
      && StoredAt(records, dims, i).Some?
      && RecordShaped(order, StoredAt(records, dims, i).value, 0, env)
      && RecordsShaped(order, records, dims, i + 1, env)
  }

  /** The walk succeeds exactly on well-shaped values that stay within the nesting limit. */
  lemma {:induction false} WritableIff(h: Heap, v: Value, depth: nat, env: Environment)
    ensures Writable(h, v, depth, env) <==> WellShaped(v, env) && depth + Nesting(v) <= MAXIMUM_NESTING_DEPTH
    decreases v, 0, 0
  {
    if depth <= MAXIMUM_NESTING_DEPTH {
      match v.payload
      case Cell(cells) => CellsWritableIff(h, cells, v.dims, 0, depth + 1, env);
      case CommaList(items) => CellsWritableIff(h, items, v.dims, 0, depth + 1, env);
      case Struct(order, records) => RecordsWritableIff(h, order, records, v.dims, 0, depth + 1, env);
      case NameValue(_, boxed) => if |boxed| == 1 { WritableIff(h, boxed[0], depth + 1, env); }
      case _ =>
    }
  }

  lemma {:induction false} CellsWritableIff(h: Heap, cells: seq<Value>, dims: Dimensions, i: nat, depth: nat,
                                            env: Environment)
    requires 1 <= depth <= MAXIMUM_NESTING_DEPTH + 1
    ensures CellsWritable(h, cells, dims, i, depth, env) <==>
            CellsShaped(cells, dims, i, env) && depth - 1 + CellsNesting(cells, dims, i) <= MAXIMUM_NESTING_DEPTH
    decreases cells, ShapeCount(dims) - i, 1
  {
    if i < ShapeCount(dims) && StoredAt(cells, dims, i).Some? {
      WritableIff(h, StoredAt(cells, dims, i).value, depth, env);
      CellsWritableIff(h, cells, dims, i + 1, depth, env);
    }
  }

  lemma {:induction false} RecordWritableIff(h: Heap, order: seq<string>, record: Record, j: nat, depth: nat,
                                             env: Environment)
    requires 1 <= depth <= MAXIMUM_NESTING_DEPTH + 1
    ensures RecordWritable(h, order, record, j, depth, env) <==>
            RecordShaped(order, record, j, env) && depth - 1 + RecordNesting(order, record, j) <= MAXIMUM_NESTING_DEPTH
    decreases record, |order| - j, 1
  {
    if j < |order| && order[j] in record.fields {
      WritableIff(h, record.fields[order[j]], depth, env);
      RecordWritableIff(h, order, record, j + 1, depth, env);
    }
  }

  lemma {:induction false} RecordsWritableIff(h: Heap, order: seq<string>, records: seq<Record>, dims: Dimensions,
                                              i: nat, depth: nat, env: Environment)
    requires 1 <= depth <= MAXIMUM_NESTING_DEPTH + 1
    ensures RecordsWritable(h, order, records, dims, i, depth, env) <==>
            RecordsShaped(order, records, dims, i, env)
              && depth - 1 + RecordsNesting(order, records, dims, i) <= MAXIMUM_NESTING_DEPTH
    decreases records, ShapeCount(dims) - i, 1
  {
    if i < ShapeCount(dims) && StoredAt(records, dims, i).Some? {
      RecordWritableIff(h, order, StoredAt(records, dims, i).value, 0, depth, env);
      RecordsWritableIff(h, order, records, dims, i + 1, depth, env);
    }
  }

  // ----- where elements end up -----

  /** Item i of a cell's data is the document of the cell's column-major element i. */
  lemma {:induction false} CellItemAt(h: Heap, cells: seq<Value>, dims: Dimensions, from: nat, i: nat, env: Environment)
    requires forall k :: 0 <= k < |cells| ==> Valid(h, cells[k])
    requires from <= i < ShapeCount(dims) && StoredAt(cells, dims, i).Some?
    ensures |CellItems(h, cells, dims, from, env)| == ShapeCount(dims) - from
    ensures CellItems(h, cells, dims, from, env)[i - from] == JsonOf(h, StoredAt(cells, dims, i).value, env)
    decreases i - from
  {
    hide JsonOf, StoredAt, ShapeCount, Valid;
    CellItemsLength(h, cells, dims, from + 1, env);
    var rest := CellItems(h, cells, dims, from + 1, env);
    if from < i {
      CellItemAt(h, cells, dims, from + 1, i, env);
      assert CellItems(h, cells, dims, from, env)[i - from] == rest[i - (from + 1)];
    }
  }

  lemma {:induction false} CellItemsLength(h: Heap, cells: seq<Value>, dims: Dimensions, from: nat, env: Environment)
    requires forall k :: 0 <= k < |cells| ==> Valid(h, cells[k])
    requires from <= ShapeCount(dims)
    ensures |CellItems(h, cells, dims, from, env)| == ShapeCount(dims) - from
    decreases ShapeCount(dims) - from
  {
    if from < ShapeCount(dims) { CellItemsLength(h, cells, dims, from + 1, env); }
  }

  /** Member j of a structure element is the declared field j with its own value's document. */
  lemma {:induction false} RecordMemberAt(h: Heap, order: seq<string>, record: Record, from: nat, j: nat,
                                          env: Environment)
    requires ValidRecord(h, record) && from <= j < |order| && order[j] in record.fields
    ensures |RecordMembers(h, order, record, from, env)| == |order| - from
    ensures RecordMembers(h, order, record, from, env)[j - from] ==
            Member(order[j], JsonOf(h, record.fields[order[j]], env))
    decreases j - from
  {
    RecordMembersLength(h, order, record, from, env);
    if from < j { RecordMemberAt(h, order, record, from + 1, j, env); }
  }

  lemma {:induction false} RecordMembersLength(h: Heap, order: seq<string>, record: Record, from: nat, env: Environment)
    requires ValidRecord(h, record) && from <= |order|
    ensures |RecordMembers(h, order, record, from, env)| == |order| - from
    decreases |order| - from
  {
    if from < |order| { RecordMembersLength(h, order, record, from + 1, env); }
  }

  // ----- documents are proper -----

  lemma {:induction false} ProperItemsAll(items: seq<Json>)
    requires forall i :: 0 <= i < |items| ==> Proper(items[i])
    ensures ProperItems(items)
  {
    if items != [] { ProperItemsAll(items[1..]); }
  }

  lemma {:induction false} ProperMembersAll(members: seq<Member>)
    requires forall i :: 0 <= i < |members| ==> Proper(members[i].value)
    ensures ProperMembers(members)
  {
    if members != [] { ProperMembersAll(members[1..]); }
  }

  lemma {:induction false} NumberProper(n: nat)
    ensures Proper(Number(n))
  {
    IntegerRoundTrip(n);
  }

  lemma {:induction false} DimensionsProper(dims: Dimensions)
    ensures Proper(JArray(Numbers(dims)))
  {
    forall i | 0 <= i < |dims| ensures Proper(Numbers(dims)[i]) { NumberProper(dims[i]); }
    ProperItemsAll(Numbers(dims));
  }

  lemma {:induction false} DoubleProper(x: Float, format: Formatter)
    ensures Proper(DoubleJson(x, format))
  {
    hide NumberLength, IsNumber;
    if x.Finite? { assert PrintsNumber(format(x.value)); }
    if x.Zero? { ZeroIsNumber(x.negative, format); }
  }

  lemma {:induction false} ElementProper(c: NumericClass, e: NumericElement, imaginary: bool, format: Formatter)
    ensures Proper(ElementJson(c, e, imaginary, format))
  {
    hide Proper, ToSigned, Decimal, SignedDecimal, DoubleJson, Number, IsNumber;
    var bits := if imaginary then e.imaginaryBits else e.bits;
    NumberProper(bits);
    SignedProper(ToSigned(bits));
    DoubleProper(if imaginary then e.im else e.re, format);
    FlagProper(!e.re.Zero?);
  }

  lemma {:induction false} SignedProper(z: int)
    ensures Proper(JNumber(SignedDecimal(z)))
  {
    hide IsNumber, SignedDecimal;
    IntegerRoundTrip(z);
  }

  lemma {:induction false} FlagProper(b: bool)
    ensures Proper(JBool(b))
  {
  }

  lemma {:induction false} NumericItemsProper(v: Value, imaginary: bool, format: Formatter)
    ensures Proper(JArray(NumericItems(v, imaginary, format)))
  {
    var items := NumericItems(v, imaginary, format);
    forall i | 0 <= i < |items| ensures Proper(items[i]) {
      match NumericElementAt(v, i)
      case None =>
      case Some(e) => ElementProper(v.numericClass, e, imaginary, format);
    }
    ProperItemsAll(items);
  }

  lemma {:induction false} UnitItemsProper(units: seq<nat>, dims: Dimensions)
    ensures Proper(JArray(UnitItems(units, dims)))
  {
    var items := UnitItems(units, dims);
    forall i | 0 <= i < |items| ensures Proper(items[i]) {
      match StoredAt(units, dims, i)
      case None =>
      case Some(u) => NumberProper(u);
    }
    ProperItemsAll(items);
  }

  lemma {:induction false} TextItemsProper(texts: seq<StringElement>, dims: Dimensions)
    ensures Proper(JArray(TextItems(texts, dims)))
  {
    ProperItemsAll(TextItems(texts, dims));
  }

  lemma {:induction false} ObjectProper(v: Value, name: string, handle: bool, member: string, env: Environment)
    ensures Proper(ObjectJson(v, name, handle, member, env))
  {
    DimensionsProper(v.dims);
    assert env.graphics(v).Some? ==> StandsAlone(env.graphics(v).value);
    hide IsNumber, Numbers, StandsAlone;
    ProperMembersAll(ObjectJson(v, name, handle, member, env).members);
  }

  lemma {:induction false} NumericProper(v: Value, complex: bool, format: Formatter)
    ensures Proper(NumericJson(v, complex, format))
  {
    DimensionsProper(v.dims);
    NumericItemsProper(v, false, format);
    NumericItemsProper(v, true, format);
    hide IsNumber, Numbers, NumericItems;
    ProperMembersAll(NumericJson(v, complex, format).members);
  }

  lemma {:induction false} FunctionProper(dims: Dimensions, d: Descriptor)
    ensures Proper(JObject(Header("function-handle", dims) + FunctionMembers(d)))
  {
    DimensionsProper(dims);
    hide IsNumber, Numbers;
    ProperMembersAll(Header("function-handle", dims) + FunctionMembers(d));
  }

  lemma {:induction false} ListProper(kind: string, dims: Dimensions, name: string, items: seq<Json>)
    requires ProperItems(items)
    ensures Proper(JObject(Header(kind, dims))) && Proper(JObject(Header(kind, dims) + [Member(name, JArray(items))]))
  {
    DimensionsProper(dims);
    hide IsNumber, Numbers;
    ProperMembersAll(Header(kind, dims));
    ProperMembersAll(Header(kind, dims) + [Member(name, JArray(items))]);
  }

  lemma {:induction false} StructProper(order: seq<string>, dims: Dimensions, data: seq<Json>)
    requires ProperItems(data)
    ensures Proper(StructJson(order, dims, data))
  {
    DimensionsProper(dims);
    ProperItemsAll(Texts(order));
    hide IsNumber, Numbers, Texts;
    ProperMembersAll(StructJson(order, dims, data).members);
  }

  lemma {:induction false} JsonOfProper(h: Heap, v: Value, env: Environment)
    requires ValidHeap(h) && Valid(h, v)
    ensures Proper(JsonOf(h, v, env))
    decreases v, 0, 0
  {
    hide IsNumber, Numbers, Header, NumericJson, ObjectJson, StructJson, FunctionMembers;
    match v.payload
    case Missing => ProperMembersAll([Member("kind", JString("missing"))]);
    case MissingArray => ListProper("missing", v.dims, "", []);
    case Dense(_, complex, _) => NumericProper(v, complex, env.format);
    case Characters(units) =>
      UnitItemsProper(units, v.dims);
      ListProper("character", v.dims, "utf16", UnitItems(units, v.dims));
    case Strings(texts) =>
      TextItemsProper(texts, v.dims);
      ListProper("string", v.dims, "data", TextItems(texts, v.dims));
    case Cell(cells) =>
      CellItemsProper(h, cells, v.dims, 0, env);
      ListProper("cell", v.dims, "data", CellItems(h, cells, v.dims, 0, env));
    case CommaList(items) =>
      CellItemsProper(h, items, v.dims, 0, env);
      ListProper("comma-separated-list", v.dims, "data", CellItems(h, items, v.dims, 0, env));
    case Struct(order, records) =>
      RecordItemsProper(h, order, records, v.dims, 0, env);
      StructProper(order, v.dims, RecordItems(h, order, records, v.dims, 0, env));
    case NameValue(name, boxed) =>
      if |boxed| == 1 {
        JsonOfProper(h, boxed[0], env);
        ProperMembersAll(NameValueJson(name, JsonOf(h, boxed[0], env)).members);
      }
    case Function(handle) => if handle.Some? { FunctionProper(v.dims, h.functions[handle.value]); }
    case Sparse(_, _) => ObjectProper(v, "sparse", false, "", env);
    case Categorical(_, _, _) => ObjectProper(v, "categorical", false, "", env);
    case Tabular(storage) =>
      ObjectProper(v, if h.tables[storage].timetable then "timetable" else "table", false, "", env);
    case Object(className, handleObject, _, _, _, _, member, _) =>
      ObjectProper(v, ClassNameText(className), handleObject, member, env);
  }

  lemma {:induction false} CellItemsProper(h: Heap, cells: seq<Value>, dims: Dimensions, i: nat, env: Environment)
    requires ValidHeap(h) && forall k :: 0 <= k < |cells| ==> Valid(h, cells[k])
    ensures ProperItems(CellItems(h, cells, dims, i, env))
    decreases cells, ShapeCount(dims) - i, 1
  {
    if i < ShapeCount(dims) {
      if StoredAt(cells, dims, i).Some? { JsonOfProper(h, StoredAt(cells, dims, i).value, env); }
      CellItemsProper(h, cells, dims, i + 1, env);
      assert CellItems(h, cells, dims, i, env)[1..] == CellItems(h, cells, dims, i + 1, env);
    }
  }

  lemma {:induction false} RecordMembersProper(h: Heap, order: seq<string>, record: Record, j: nat, env: Environment)
    requires ValidHeap(h) && ValidRecord(h, record)
    ensures ProperMembers(RecordMembers(h, order, record, j, env))
    decreases record, |order| - j, 1
  {
    if j < |order| {
      if order[j] in record.fields { JsonOfProper(h, record.fields[order[j]], env); }
      RecordMembersProper(h, order, record, j + 1, env);
      assert RecordMembers(h, order, record, j, env)[1..] == RecordMembers(h, order, record, j + 1, env);
    }
  }

  lemma {:induction false} RecordItemsProper(h: Heap, order: seq<string>, records: seq<Record>, dims: Dimensions,
                                             i: nat, env: Environment)
    requires ValidHeap(h) && forall k :: 0 <= k < |records| ==> ValidRecord(h, records[k])
    ensures ProperItems(RecordItems(h, order, records, dims, i, env))
    decreases records, ShapeCount(dims) - i, 1
  {
    if i < ShapeCount(dims) {
      if StoredAt(records, dims, i).Some? { RecordMembersProper(h, order, StoredAt(records, dims, i).value, 0, env); }
      RecordItemsProper(h, order, records, dims, i + 1, env);
      assert RecordItems(h, order, records, dims, i, env)[1..] == RecordItems(h, order, records, dims, i + 1, env);
    }
  }

  // ----- the whole walk -----

  /**
   One value as one document: it succeeds exactly within the shape and nesting
   rules, and the text parses back to the value's document.
   */
  method SerializeValue(h: Heap, v: Value, env: Environment) returns (text: Option<string>)
    requires ValidHeap(h) && Valid(h, v)
    ensures text.Some? <==> WellShaped(v, env) && Nesting(v) <= 128
    ensures text.Some? ==> ParseText(text.value) == Some(Clean(JsonOf(h, v, env)))
  {
    WritableIff(h, v, 0, env);
    JsonOfProper(h, v, env);
    TextRoundTrip(JsonOf(h, v, env));
    hide Writable, JsonOf, WellShaped, Nesting, Clean, Render;
    var writer := new JsonWriter();
    var written := WriteRuntimeValue(writer, h, v, 0, env);
    if !written {
      return None;
    }
    text := writer.Finish();
  }
}
