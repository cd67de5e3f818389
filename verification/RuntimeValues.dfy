/**
 The runtime's value graph.

 A value is a tree whose leaves may point into three shared stores: the field
 maps of handle objects, the storages of tables and timetables, and function
 handle descriptors.  Shared pointers are ids into a Heap; the pointed-to maps
 may refer back to each other, so graphs can be cyclic although every value is
 a finite tree.  A std::string is a Dafny string of byte-valued characters.
 */
module RuntimeValues {
  import opened Wrappers
  import opened Layout

  type Id = nat

  datatype NumericClass =
    | Double | Logical | Single | Int8 | UInt8 | Int16 | UInt16 | Int32 | UInt32 | Int64 | UInt64

  predicate IsIntegerClass(c: NumericClass) {
    c != Double && c != Logical && c != Single
  }

  type Nonzero = x: real | x != 0.0 witness 1.0

  /** A binary64 value. */
  datatype Float = NaN | Infinity(negative: bool) | Zero(negative: bool) | Finite(value: Nonzero)

  /** IEEE `==`: a NaN equals nothing, and the two zeros are equal. */
  predicate FloatEqual(a: Float, b: Float) {
    a != NaN && (a == b || (a.Zero? && b.Zero?))
  }

  /** One numeric element: the exact integer bits, and the floating components. */
  datatype NumericElement = NumericElement(bits: nat, imaginaryBits: nat, re: Float, im: Float)

  datatype StringElement = StringElement(units: seq<nat>, missing: bool)

  /** char16_t code units. */
  predicate UnitsFit(t: StringElement) { forall k :: 0 <= k < |t.units| ==> t.units[k] < 0x1_0000 }

  datatype DenseForm = NumberForm | VectorForm | MatrixForm

  /** A class name, sorted by the family of objects that the runtime recognises by it. */
  datatype ClassName =
    | UserClass(name: string)
    | ExceptionClass
    | MetadataClass(name: string, dynamicProperty: bool)
    | TemporalClass(duration: bool)
    | GraphicsClass(name: string)

  /** A compiled module running on its own, or a shared runtime running any of its modules. */
  datatype Owner = ModuleOwner(id: Id) | RuntimeOwner(id: Id)

  datatype Record = Record(fields: map<string, Value>)

  datatype Payload =
    | Missing
    | MissingArray
    | Dense(form: DenseForm, complex: bool, elements: seq<NumericElement>)       // row-major storage
    | Sparse(complex: bool, entries: seq<NumericElement>)                        // in logical order
    | Characters(units: seq<nat>)
    | Strings(texts: seq<StringElement>)
    | Cell(cells: seq<Value>)
    | CommaList(items: seq<Value>)
    | Function(handle: Option<Id>)
    | Struct(order: seq<string>, records: seq<Record>)
    | NameValue(name: string, boxed: seq<Value>)
    | Categorical(ordinal: bool, labels: seq<Option<string>>, categories: seq<string>)
    | Tabular(storage: Id)
    | Object(className: ClassName, handleObject: bool, shared: Option<Id>, inline: Record,
             parts: seq<Value>,      // array elements, row-major; the cells of a metadata array
             ticks: Float,           // payload of a scalar datetime or duration
             member: string,         // enumeration member name
             home: Owner)            // under whom a class object was made

  /** dims is the normalized shape. */
  datatype Value = Value(numericClass: NumericClass, dims: Dimensions, payload: Payload)

  datatype Variable = Variable(name: string, value: Value)

  datatype Table = Table(timetable: bool, rowCount: nat, variables: seq<Variable>, rowNames: seq<string>,
                         rowTimes: Value, dimensionNames: seq<string>, description: string, userData: Value)

  datatype Backend = Independent | Hir | Bytecode

  datatype HandleKind = AnonymousHandle | FunctionHandle | BuiltinHandle | MethodHandle

  datatype HandleText = HandleText(display: string, targetName: string, className: string,
                                   methodName: string, declaringClass: string)

  /** A function handle descriptor; home is the owner under whom a bound one was made. */
  datatype Descriptor = Descriptor(identity: nat, kind: HandleKind, backend: Backend, home: Owner, text: HandleText,
                                   receiver: Option<Value>, captured: Record)

  /**
   The shared stores; homes says under whom the class object of a field map was made.  Homes record where things come
   from, which the code does not: nothing computed depends on them.
   */
  datatype Heap = Heap(objects: map<Id, Record>, tables: map<Id, Table>, functions: map<Id, Descriptor>,
                       homes: map<Id, Owner>)

  datatype Kind =
    | MissingKind | MissingArrayKind | NumberKind | CharacterKind | StringKind | VectorKind | MatrixKind
    | CellKind | FunctionKind | StructKind | CommaListKind | NameValueKind | ObjectKind

  function KindOf(p: Payload): Kind {
    match p
    case Missing => MissingKind
    case MissingArray => MissingArrayKind
    case Dense(form, _, _) =>
      (match form case NumberForm => NumberKind case VectorForm => VectorKind case MatrixForm => MatrixKind)
    case Characters(_) => CharacterKind
    case Strings(_) => StringKind
    case Cell(_) => CellKind
    case CommaList(_) => CommaListKind
    case Function(_) => FunctionKind
    case Struct(_, _) => StructKind
    case NameValue(_, _) => NameValueKind
    case Sparse(_, _) | Categorical(_, _, _) | Tabular(_) | Object(_, _, _, _, _, _, _, _) => ObjectKind
  }

  /** `checkedRuntimeDimensionProduct(...).value_or(0)` */
  ghost function ShapeCount(dims: Dimensions): nat {
    if PrefixesFit(dims) then Product(dims) else 0
  }

  /** `runtimeNumericElementValue`: the element at a column-major index. */
  ghost function NumericElementAt(v: Value, i: nat): Option<NumericElement> {
    match v.payload
    case Dense(NumberForm, _, elements) => if i == 0 && |elements| > 0 then Some(elements[0]) else None
    case Dense(_, _, elements) =>
      if PrefixesFit(v.dims) && i < Product(v.dims) && StorageOffset(v.dims, i) < |elements|
      then Some(elements[StorageOffset(v.dims, i)]) else None
    case Sparse(_, entries) => if i < |entries| then Some(entries[i]) else None
    case _ => None
  }

  predicate IsNumeric(p: Payload) { p.Dense? || p.Sparse? }

  // ----- objects -----

  /** `isRuntimeClassObject` on object payloads. */
  predicate IsClassObject(p: Payload) {
    p.Object? && !p.className.MetadataClass? && !p.className.ExceptionClass?
  }

  ghost predicate IsScalarObject(v: Value) {
    IsClassObject(v.payload) && v.payload.parts == [] && ShapeCount(v.dims) == 1
  }

  ghost function ObjectElementCount(v: Value): nat
    requires v.payload.Object?
  {
    if !IsClassObject(v.payload) then 0
    else if v.payload.parts != [] then |v.payload.parts|
    else if ShapeCount(v.dims) == 1 then 1 else 0
  }

  /** `runtimeObjectLogicalElement`: a scalar object is its own only element. */
  ghost function ObjectElementAt(v: Value, i: nat): (r: Option<Value>)
    requires v.payload.Object?
    ensures r.Some? ==> r.value == v || r.value in v.payload.parts
    ensures r == Some(v) && v.payload.parts == [] ==> ShapeCount(v.dims) == 1
    ensures v.payload.parts != [] && r.Some? ==> r.value in v.payload.parts
  {
    if !(PrefixesFit(v.dims) && i < Product(v.dims)) || !IsClassObject(v.payload) then None
    else
      var o := StorageOffset(v.dims, i);
      if o < |v.payload.parts| then Some(v.payload.parts[o])
      else if o == 0 && v.payload.parts == [] && ShapeCount(v.dims) == 1 then Some(v)
      else None
  }

  /** `objectFields`: a handle object's fields are the shared map when it has one. */
  function FieldsOf(h: Heap, p: Payload): Record
    requires p.Object?
    requires p.shared.Some? ==> p.shared.value in h.objects
  {
    if p.handleObject && p.shared.Some? then h.objects[p.shared.value] else p.inline
  }

  // ----- well-formedness -----

  /** Dimensions are size_t. */
  ghost predicate ShapeFits(v: Value) {
    forall k :: 0 <= k < |v.dims| ==> v.dims[k] <= SIZE_MAX
  }

  /**
   Dimensions are size_t, code units 16-bit, ids point into the heap, and a handle object without a shared field map has
   no fields of its own: the part of `validateRuntimeValueContract` that the
   comparison relies on.
   */
  ghost predicate Valid(h: Heap, v: Value)
    decreases v
  {
    && ShapeFits(v)
    && match v.payload
       case Strings(texts) => forall i :: 0 <= i < |texts| ==> UnitsFit(texts[i])
       case Cell(cells) => forall i :: 0 <= i < |cells| ==> Valid(h, cells[i])
       case CommaList(items) => forall i :: 0 <= i < |items| ==> Valid(h, items[i])
       case NameValue(_, boxed) => forall i :: 0 <= i < |boxed| ==> Valid(h, boxed[i])
       case Struct(_, records) => forall i :: 0 <= i < |records| ==> ValidRecord(h, records[i])
       case Tabular(storage) => storage in h.tables
       case Function(handle) => handle.Some? ==> handle.value in h.functions
       case Object(_, handleObject, shared, inline, parts, _, _, _) =>
         && (shared.Some? ==> shared.value in h.objects)
         && (handleObject && shared == None ==> inline.fields == map[])
         && ValidRecord(h, inline)
         && (forall i :: 0 <= i < |parts| ==> Valid(h, parts[i]))
       case _ => true
  }

  ghost predicate ValidRecord(h: Heap, r: Record)
    decreases r
  {
    forall name :: name in r.fields ==> Valid(h, r.fields[name])
  }

  ghost predicate ValidTable(h: Heap, t: Table) {
    && Valid(h, t.rowTimes) && Valid(h, t.userData)
    && forall i :: 0 <= i < |t.variables| ==> Valid(h, t.variables[i].value)
  }

  ghost predicate ValidHeap(h: Heap) {
    && (forall a :: a in h.objects ==> ValidRecord(h, h.objects[a]))
    && (forall a :: a in h.tables ==> ValidTable(h, h.tables[a]))
    && (forall a :: a in h.functions ==>
          && ValidRecord(h, h.functions[a].captured)
          && (h.functions[a].receiver.Some? ==> Valid(h, h.functions[a].receiver.value)))
  }

  // ----- access -----

  method NumericElementOf(v: Value, index: nat) returns (element: Option<NumericElement>)
    requires IsNumeric(v.payload) && ShapeFits(v)
    ensures element == NumericElementAt(v, index)
  {
    match v.payload
    case Dense(form, _, elements) =>
      if form == NumberForm {
        return if index == 0 && |elements| > 0 then Some(elements[0]) else None;
      }
      var offset := ColumnMajorLinearToStorageOffset(v.dims, index);
      return if offset.Some? && offset.value < |elements| then Some(elements[offset.value]) else None;
    case Sparse(_, entries) =>
      return if index < |entries| then Some(entries[index]) else None;
  }
}
