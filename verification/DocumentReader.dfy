/**
 A reader of the machine protocol's value documents, written from the format
 alone: it finds members by name and knows nothing of how they were written.
 */
module DocumentReader {
  import opened Wrappers
  import opened RuntimeValues
  import opened JsonText

  /** A number or truth value as the document shows it. */
  datatype Scalar =
    | Truth(b: bool)
    | Whole(z: int)
    | NotANumber
    | Infinite(negative: bool)
    | ZeroOf(negative: bool)
    | Digits(text: string)
    | NoScalar

  /** What a document says about a value. */
  datatype Reading =
    | MissingRead
    | MissingArrayRead(dims: seq<int>)
    | NumbersRead(class_: Option<NumericClass>, dims: seq<int>, re: seq<Scalar>, im: Option<seq<Scalar>>)
    | UnitsRead(dims: seq<int>, units: seq<int>)
    | TextsRead(dims: seq<int>, texts: seq<Option<string>>)
    | CellRead(dims: seq<int>, items: seq<Reading>)
    | ListRead(dims: seq<int>, items: seq<Reading>)
    | StructRead(dims: seq<int>, fields: seq<string>, elements: seq<seq<FieldRead>>)
    | NameValueRead(name: string, value: Reading)
    | FunctionRead(dims: seq<int>, kind: Option<HandleKind>, backend: Option<Backend>, text: HandleText, bound: bool)
    | ObjectRead(className: string, dims: seq<int>, handle: bool, member: Option<string>, representation: string,
                 graphics: Json)
    | Unreadable

  datatype FieldRead = FieldRead(name: string, value: Reading)

  // ----- members and leaves -----

  /** The first member of that name, or null. */
  function Lookup(ms: seq<Member>, name: string): (j: Json)
    ensures j == JNull || exists k :: 0 <= k < |ms| && ms[k] == Member(name, j)
  {
    if ms == [] then JNull else if ms[0].name == name then ms[0].value else Lookup(ms[1..], name)
  }

  lemma {:induction false} LookupInside(ms: seq<Member>, name: string)
    ensures Lookup(ms, name) == JNull || Lookup(ms, name) < JObject(ms)
  {
    if Lookup(ms, name) != JNull {
      var k :| 0 <= k < |ms| && ms[k] == Member(name, Lookup(ms, name));
      assert ms[k].value < JObject(ms);
    }
  }

  function AsText(j: Json): string { match j case JString(s) => s case _ => "" }

  function AsFlag(j: Json): bool { j == JBool(true) }

  function AsList(j: Json): seq<Json> { match j case JArray(items) => items case _ => [] }

  function AsWhole(j: Json): int { match j case JNumber(lexeme) => SignedValue(lexeme) case _ => 0 }

  function AsOptionalText(j: Json): Option<string> { match j case JString(s) => Some(s) case _ => None }

  function Wholes(items: seq<Json>): seq<int> { seq(|items|, i requires 0 <= i < |items| => AsWhole(items[i])) }

  function TextsOf(items: seq<Json>): seq<string> { seq(|items|, i requires 0 <= i < |items| => AsText(items[i])) }

  function OptionalTexts(items: seq<Json>): seq<Option<string>> {
    seq(|items|, i requires 0 <= i < |items| => AsOptionalText(items[i]))
  }

  function ClassNamed(s: string): Option<NumericClass> {
    if s == "double" then Some(Double) else if s == "logical" then Some(Logical)
    else if s == "single" then Some(Single) else if s == "int8" then Some(Int8)
    else if s == "uint8" then Some(UInt8) else if s == "int16" then Some(Int16)
    else if s == "uint16" then Some(UInt16) else if s == "int32" then Some(Int32)
    else if s == "uint32" then Some(UInt32) else if s == "int64" then Some(Int64)
    else if s == "uint64" then Some(UInt64) else None
  }

  function HandleNamed(s: string): Option<HandleKind> {
    if s == "anonymous" then Some(AnonymousHandle) else if s == "function" then Some(FunctionHandle)
    else if s == "builtin" then Some(BuiltinHandle) else if s == "method" then Some(MethodHandle) else None
  }

  function BackendNamed(s: string): Option<Backend> {
    if s == "independent" then Some(Independent) else if s == "hir" then Some(Hir)
    else if s == "bytecode" then Some(Bytecode) else None
  }

  /** A double or single: a number, or one of three names. */
  function AsReal(j: Json): Scalar {
    match j
    case JNumber(lexeme) =>
      if lexeme == "0" then ZeroOf(false) else if lexeme == "-0" then ZeroOf(true) else Digits(lexeme)
    case JString(s) =>
      if s == "NaN" then NotANumber
      else if s == "Infinity" then Infinite(false)
      else if s == "-Infinity" then Infinite(true)
      else NoScalar
    case _ => NoScalar
  }

  function AsScalar(c: Option<NumericClass>, j: Json): Scalar {
    match c
    case None => NoScalar
    case Some(Logical) => (match j case JBool(b) => Truth(b) case _ => NoScalar)
    case Some(Double) => AsReal(j)
    case Some(Single) => AsReal(j)
    case _ => (match j case JNumber(lexeme) => Whole(SignedValue(lexeme)) case _ => NoScalar)
  }

  function Scalars(c: Option<NumericClass>, items: seq<Json>): seq<Scalar> {
    seq(|items|, i requires 0 <= i < |items| => AsScalar(c, items[i]))
  }

  // ----- values -----

  function ReadNumbers(ms: seq<Member>): Reading {
    var c := ClassNamed(AsText(Lookup(ms, "class")));
    NumbersRead(c, Wholes(AsList(Lookup(ms, "dimensions"))), Scalars(c, AsList(Lookup(ms, "data"))),
                if AsFlag(Lookup(ms, "complex")) then Some(Scalars(c, AsList(Lookup(ms, "imaginary_data")))) else None)
  }

  function ReadFunction(ms: seq<Member>): Reading {
    FunctionRead(Wholes(AsList(Lookup(ms, "dimensions"))),
                 HandleNamed(AsText(Lookup(ms, "handle_kind"))), BackendNamed(AsText(Lookup(ms, "backend"))),
                 HandleText(AsText(Lookup(ms, "display")), AsText(Lookup(ms, "target_name")),
                            AsText(Lookup(ms, "class_name")), AsText(Lookup(ms, "method_name")),
                            AsText(Lookup(ms, "declaring_class"))),
                 AsFlag(Lookup(ms, "module_bound")))
  }

  function ReadObject(ms: seq<Member>): Reading {
    ObjectRead(AsText(Lookup(ms, "class")), Wholes(AsList(Lookup(ms, "dimensions"))), AsFlag(Lookup(ms, "handle")),
               AsOptionalText(Lookup(ms, "enumeration_member")), AsText(Lookup(ms, "representation")),
               Lookup(ms, "graphics"))
  }

  function ReadValue(j: Json): Reading
    decreases j, 1
  {
    match j
    case JObject(ms) =>
      var kind := AsText(Lookup(ms, "kind"));
      var dims := Wholes(AsList(Lookup(ms, "dimensions")));
      LookupInside(ms, "data");
      LookupInside(ms, "value");
      if kind == "missing" then if Lookup(ms, "dimensions") == JNull then MissingRead else MissingArrayRead(dims)
      else if kind == "numeric" then ReadNumbers(ms)
      else if kind == "character" then UnitsRead(dims, Wholes(AsList(Lookup(ms, "utf16"))))
      else if kind == "string" then TextsRead(dims, OptionalTexts(AsList(Lookup(ms, "data"))))
      else if kind == "function-handle" then ReadFunction(ms)
      else if kind == "object" then ReadObject(ms)
      else if kind == "name-value-argument" then
        (match Lookup(ms, "value")
         case JNull => Unreadable
         case value => NameValueRead(AsText(Lookup(ms, "name")), ReadValue(value)))
      else
        (match Lookup(ms, "data")
         case JArray(items) =>
           if kind == "cell" then CellRead(dims, ReadItems(items))
           else if kind == "comma-separated-list" then ListRead(dims, ReadItems(items))
           else if kind == "struct" then StructRead(dims, TextsOf(AsList(Lookup(ms, "fields"))), ReadElements(items))
           else Unreadable
         case _ => Unreadable)
    case _ => Unreadable
  }

  function ReadItems(items: seq<Json>): (r: seq<Reading>)
    decreases items, 0
  {
    seq(|items|, i requires 0 <= i < |items| => ReadValue(items[i]))
  }

  /** The fields of a structure element, in the order in which they stand. */
  function ReadFields(ms: seq<Member>): seq<FieldRead>
    decreases ms, 0
  {
    seq(|ms|, i requires 0 <= i < |ms| => FieldRead(ms[i].name, ReadValue(ms[i].value)))
  }

  function ReadElements(items: seq<Json>): seq<seq<FieldRead>>
    decreases items, 0
  {
    seq(|items|, i requires 0 <= i < |items| => match items[i] case JObject(ms) => ReadFields(ms) case _ => [])
  }
}
