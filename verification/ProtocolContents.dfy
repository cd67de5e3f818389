/**
 What a value document says: read back with `DocumentReader`, it gives the
 value's class, shape and contents in column-major order, each number with its
 own value.
 */
module ProtocolContents {
  import opened Wrappers
  import opened Layout
  import opened RuntimeValues
  import opened Utf8
  import opened JsonStrings
  import opened JsonText
  import opened JsonWriters
  import opened MachineProtocol
  import opened ProtocolResults
  import opened DocumentReader

  // ----- the contents of a value -----

  function RealOf(x: Float, format: Formatter): Scalar {
    match x
    case NaN => NotANumber
    case Infinity(negative) => Infinite(negative)
    case Zero(negative) => ZeroOf(negative)
    case Finite(value) => Digits(format(value))
  }

  /** 64 bits as a signed integer. */
  function TwosComplement(bits: nat): int {
    bits - (if bits >= 0x8000_0000_0000_0000 then 0x1_0000_0000_0000_0000 else 0)
  }

  /** One component of an element; a logical element has only the one. */
  function PartOf(c: NumericClass, e: NumericElement, imaginary: bool, format: Formatter): Scalar {
    match c
    case Logical => Truth(e.re != Zero(true) && e.re != Zero(false))
    case Double | Single => RealOf(if imaginary then e.im else e.re, format)
    case Int8 | Int16 | Int32 | Int64 => Whole(TwosComplement(if imaginary then e.imaginaryBits else e.bits))
    case UInt8 | UInt16 | UInt32 | UInt64 => Whole(if imaginary then e.imaginaryBits else e.bits)
  }

  /** The components at all column-major indices. */
  ghost function PartsOf(v: Value, imaginary: bool, format: Formatter): seq<Scalar> {
    seq(ShapeCount(v.dims), i requires 0 <= i =>
      match NumericElementAt(v, i)
      case None => NoScalar
      case Some(e) => PartOf(v.numericClass, e, imaginary, format))
  }

  ghost function UnitsOf(units: seq<nat>, dims: Dimensions): seq<int> {
    seq(ShapeCount(dims), i requires 0 <= i => match StoredAt(units, dims, i) case None => 0 case Some(u) => u)
  }

  ghost function StringsOf(texts: seq<StringElement>, dims: Dimensions): seq<Option<string>> {
    seq(ShapeCount(dims), i requires 0 <= i =>
      match StoredAt(texts, dims, i)
      case None => None
      case Some(t) => if t.missing || !UnitsFit(t) then None else Some(FromUtf16(t.units)))
  }

  function CleanTexts(ts: seq<string>): seq<string> {
    seq(|ts|, i requires 0 <= i < |ts| => Sanitize(ts[i]))
  }

  function ClassShown(c: ClassName): string {
    match c
    case UserClass(name) => Sanitize(name)
    case ExceptionClass => "MException"
    case MetadataClass(name, _) => Sanitize(name)
    case TemporalClass(true) => "duration"
    case TemporalClass(false) => "datetime"
    case GraphicsClass(name) => Sanitize(name)
  }

  /** A graphics handle carries its serialized document, one if it is a scalar. */
  ghost function ObjectContents(v: Value, className: string, handle: bool, member: string, env: Environment): Reading {
    match v.payload
    case Object(GraphicsClass(_), true, _, _, parts, _, _, _) =>
      ObjectRead(className, v.dims, handle, if member == "" then None else Some(Sanitize(member)),
                 if parts == [] && PrefixesFit(v.dims) && Product(v.dims) == 1 then "graphics" else "graphics-array",
                 match env.graphics(v) case None => JNull case Some(text) => Meaning(text))
    case _ =>
      ObjectRead(className, v.dims, handle, if member == "" then None else Some(Sanitize(member)), "opaque", JNull)
  }

  function TextShown(t: HandleText): HandleText {
    HandleText(Sanitize(t.display), Sanitize(t.targetName), Sanitize(t.className), Sanitize(t.methodName),
               Sanitize(t.declaringClass))
  }

  ghost function ContentsOf(h: Heap, v: Value, env: Environment): Reading
    requires Valid(h, v)
    decreases v, 0, 0
  {
    match v.payload
    case Missing => MissingRead
    case MissingArray => MissingArrayRead(v.dims)
    case Dense(_, complex, _) =>
      NumbersRead(Some(v.numericClass), v.dims, PartsOf(v, false, env.format),
                  if complex then Some(PartsOf(v, true, env.format)) else None)
    case Characters(units) => UnitsRead(v.dims, UnitsOf(units, v.dims))
    case Strings(texts) => TextsRead(v.dims, StringsOf(texts, v.dims))
    case Cell(cells) => CellRead(v.dims, CellContents(h, cells, v.dims, 0, env))
    case CommaList(items) => ListRead(v.dims, CellContents(h, items, v.dims, 0, env))
    case Struct(order, records) =>
      StructRead(v.dims, CleanTexts(order), ElementContents(h, order, records, v.dims, 0, env))
    case NameValue(name, boxed) =>
      if |boxed| == 1 then NameValueRead(Sanitize(name), ContentsOf(h, boxed[0], env)) else Unreadable
    case Function(None) => Unreadable
    case Function(Some(id)) =>
      var d := h.functions[id];
      FunctionRead(v.dims, Some(d.kind), Some(d.backend), TextShown(d.text), d.backend == Hir || d.backend == Bytecode)
    case Sparse(_, _) => ObjectContents(v, "sparse", false, "", env)
    case Categorical(_, _, _) => ObjectContents(v, "categorical", false, "", env)
    case Tabular(id) => ObjectContents(v, if h.tables[id].timetable then "timetable" else "table", false, "", env)
    case Object(className, handleObject, _, _, _, _, member, _) =>
      ObjectContents(v, ClassShown(className), handleObject, member, env)
  }

  /** The contents of the elements at column-major indices from i on. */
  ghost function CellContents(h: Heap, cells: seq<Value>, dims: Dimensions, i: nat, env: Environment): seq<Reading>
    requires forall k :: 0 <= k < |cells| ==> Valid(h, cells[k])
    decreases cells, ShapeCount(dims) - i, 1
  {
    if i >= ShapeCount(dims) then []
    else
      [match StoredAt(cells, dims, i) case None => Unreadable case Some(c) => ContentsOf(h, c, env)] +
        CellContents(h, cells, dims, i + 1, env)
  }

  ghost function FieldContents(h: Heap, order: seq<string>, record: Record, j: nat, env: Environment): seq<FieldRead>
    requires ValidRecord(h, record)
    decreases record, |order| - j, 1
  {
    if j >= |order| then []
    else
      [FieldRead(Sanitize(order[j]),
         if order[j] in record.fields then ContentsOf(h, record.fields[order[j]], env) else Unreadable)] +
      FieldContents(h, order, record, j + 1, env)
  }

  ghost function ElementContents(h: Heap, order: seq<string>, records: seq<Record>, dims: Dimensions, i: nat,
                                 env: Environment): seq<seq<FieldRead>>
    requires forall k :: 0 <= k < |records| ==> ValidRecord(h, records[k])
    decreases records, ShapeCount(dims) - i, 1
  {
    if i >= ShapeCount(dims) then []
    else
      [match StoredAt(records, dims, i) case None => [] case Some(r) => FieldContents(h, order, r, 0, env)] +
      ElementContents(h, order, records, dims, i + 1, env)
  }

  // ----- cleaning and looking up -----

  lemma {:induction false} CleanMembersAt(ms: seq<Member>)
    ensures |CleanMembers(ms)| == |ms|
    ensures forall i :: 0 <= i < |ms| ==> CleanMembers(ms)[i] == Member(Sanitize(ms[i].name), Clean(ms[i].value))
  {
    if ms != [] { CleanMembersAt(ms[1..]); }
  }

  lemma {:induction false} CleanItemsAt(items: seq<Json>)
    ensures |CleanItems(items)| == |items|
    ensures forall i :: 0 <= i < |items| ==> CleanItems(items)[i] == Clean(items[i])
  {
    if items != [] { CleanItemsAt(items[1..]); }
  }

  lemma {:induction false} LookupAt(ms: seq<Member>, k: nat, name: string)
    requires k < |ms| && ms[k].name == name && forall i :: 0 <= i < k ==> ms[i].name != name
    ensures Lookup(ms, name) == ms[k].value
    decreases k
  {
    if k > 0 { LookupAt(ms[1..], k - 1, name); }
  }

  lemma {:induction false} LookupNothing(ms: seq<Member>, name: string)
    requires forall i :: 0 <= i < |ms| ==> ms[i].name != name
    ensures Lookup(ms, name) == JNull
  {
    if ms != [] { LookupNothing(ms[1..], name); }
  }

  /** The member names of the format are ASCII and so stay as they are. */
  lemma {:induction false} AsciiStays(s: string)
    requires forall k :: 0 <= k < |s| ==> s[k] as int < 0x80
    ensures Sanitize(s) == s
  {
    AsciiWellFormed(s);
    SanitizeWellFormed(s);
  }

  lemma {:induction false} DimensionsRead(dims: Dimensions)
    ensures Wholes(AsList(Clean(JArray(Numbers(dims))))) == dims
  {
    CleanItemsAt(Numbers(dims));
    forall i | 0 <= i < |dims| ensures AsWhole(Number(dims[i])) == dims[i] { IntegerRoundTrip(dims[i]); }
    hide SignedValue, Decimal;
  }

  // ----- numbers -----

  lemma {:induction false} ClassRead(c: NumericClass)
    ensures Sanitize(ClassText(c)) == ClassText(c) && ClassNamed(ClassText(c)) == Some(c)
  {
    AsciiStays(ClassText(c));
    hide Sanitize;
  }

  lemma {:induction false} RealRead(x: Float, format: Formatter)
    ensures AsReal(Clean(DoubleJson(x, format))) == RealOf(x, format)
  {
    hide Sanitize, IsNumber;
    match x
    case NaN => AsciiStays("NaN");
    case Infinity(negative) =>
      AsciiStays(if negative then "-Infinity" else "Infinity");
    case Zero(_) =>
    case Finite(value) => assert PrintsNumber(format(value));
  }

  lemma {:induction false} WholeRead(z: int)
    ensures AsScalar(Some(Int64), JNumber(SignedDecimal(z))) == Whole(z)
    ensures z >= 0 ==> Number(z) == JNumber(SignedDecimal(z))
  {
    IntegerRoundTrip(z);
    hide SignedValue, Decimal, IsNumber;
  }

  lemma {:induction false} PartRead(c: NumericClass, e: NumericElement, imaginary: bool, format: Formatter)
    ensures AsScalar(Some(c), Clean(ElementJson(c, e, imaginary, format))) == PartOf(c, e, imaginary, format)
  {
    hide AsReal, RealOf, DoubleJson, SignedValue, SignedDecimal, Number;
    var bits := if imaginary then e.imaginaryBits else e.bits;
    WholeRead(bits);
    WholeRead(ToSigned(bits));
    RealRead(if imaginary then e.im else e.re, format);
  }

  lemma {:induction false} PartsRead(v: Value, imaginary: bool, format: Formatter)
    requires LeafShaped(v) && v.payload.Dense?
    ensures Scalars(Some(v.numericClass), AsList(Clean(JArray(NumericItems(v, imaginary, format))))) ==
            PartsOf(v, imaginary, format)
  {
    var items := NumericItems(v, imaginary, format);
    CleanItemsAt(items);
    forall i: nat | i < |items|
      ensures AsScalar(Some(v.numericClass), Clean(items[i])) == PartsOf(v, imaginary, format)[i]
    {
      assert NumericElementAt(v, i).Some?;
      PartRead(v.numericClass, NumericElementAt(v, i).value, imaginary, format);
    }
    hide AsScalar, NumericElementAt, PartOf, ElementJson;
  }

  // ----- members by name -----

  /** The members have ASCII names, all different. */
  ghost predicate Named(ms: seq<Member>) {
    && (forall i :: 0 <= i < |ms| ==> Sanitize(ms[i].name) == ms[i].name)
    && forall i, j :: 0 <= i < j < |ms| ==> ms[i].name != ms[j].name
  }

  lemma {:induction false} CleanLookup(ms: seq<Member>, k: nat)
    requires Named(ms) && k < |ms|
    ensures Lookup(CleanMembers(ms), ms[k].name) == Clean(ms[k].value)
  {
    CleanMembersAt(ms);
    hide Clean, CleanMembers, Sanitize;
    LookupAt(CleanMembers(ms), k, ms[k].name);
  }

  lemma {:induction false} CleanLookupNothing(ms: seq<Member>, name: string)
    requires Named(ms) && forall i :: 0 <= i < |ms| ==> ms[i].name != name
    ensures Lookup(CleanMembers(ms), name) == JNull
  {
    CleanMembersAt(ms);
    hide Clean, CleanMembers, Sanitize;
    LookupNothing(CleanMembers(ms), name);
  }

  lemma {:induction false} CleanText(s: string)
    requires forall k :: 0 <= k < |s| ==> s[k] as int < 0x80
    ensures Clean(JString(s)) == JString(s)
  {
    AsciiStays(s);
  }

  lemma {:induction false} CleanObject(ms: seq<Member>)
    ensures Clean(JObject(ms)) == JObject(CleanMembers(ms))
  {
  }

  lemma {:induction false} HeaderNames()
    ensures Sanitize("kind") == "kind" && Sanitize("dimensions") == "dimensions" && Sanitize("data") == "data"
  {
    hide Sanitize;
    AsciiStays("kind");
    AsciiStays("dimensions");
    AsciiStays("data");
  }

  /** The two members with which a document with a shape begins. */
  lemma {:induction false} HeaderRead(kind: string, dims: Dimensions, rest: seq<Member>)
    requires forall k :: 0 <= k < |kind| ==> kind[k] as int < 0x80
    requires Named(Header(kind, dims) + rest)
    ensures var c := CleanMembers(Header(kind, dims) + rest);
      && AsText(Lookup(c, "kind")) == kind && Lookup(c, "dimensions") != JNull
      && Wholes(AsList(Lookup(c, "dimensions"))) == dims
    ensures forall k :: 0 <= k < |rest| ==>
      Lookup(CleanMembers(Header(kind, dims) + rest), rest[k].name) == Clean(rest[k].value)
  {
    hide Clean, CleanMembers, Lookup, Sanitize, Numbers, Wholes, Named;
    var ms := Header(kind, dims) + rest;
    CleanText(kind);
    DimensionsRead(dims);
    CleanLookup(ms, 0);
    CleanLookup(ms, 1);
    CleanArray(Numbers(dims));
    forall k | 0 <= k < |rest| ensures Lookup(CleanMembers(ms), rest[k].name) == Clean(rest[k].value) {
      CleanLookup(ms, k + 2);
    }
  }

  lemma {:induction false} CleanArray(items: seq<Json>)
    ensures Clean(JArray(items)) == JArray(CleanItems(items))
  {
  }

  // ----- documents with a header and a list -----

  /** What the reader makes of a header and a list. */
  lemma {:induction false} ReadsList(ms: seq<Member>, kind: string, dims: Dimensions)
    requires AsText(Lookup(ms, "kind")) == kind && Wholes(AsList(Lookup(ms, "dimensions"))) == dims
    requires Lookup(ms, "dimensions") != JNull
    ensures kind == "missing" ==> ReadValue(JObject(ms)) == MissingArrayRead(dims)
    ensures kind == "character" ==>
      ReadValue(JObject(ms)) == UnitsRead(dims, Wholes(AsList(Lookup(ms, "utf16"))))
    ensures kind == "string" ==>
      ReadValue(JObject(ms)) == TextsRead(dims, OptionalTexts(AsList(Lookup(ms, "data"))))
    ensures kind == "numeric" ==> ReadValue(JObject(ms)) == ReadNumbers(ms)
    ensures kind == "function-handle" ==> ReadValue(JObject(ms)) == ReadFunction(ms)
    ensures kind == "object" ==> ReadValue(JObject(ms)) == ReadObject(ms)
    ensures kind == "cell" && Lookup(ms, "data").JArray? ==>
      ReadValue(JObject(ms)) == CellRead(dims, ReadItems(Lookup(ms, "data").items))
    ensures kind == "comma-separated-list" && Lookup(ms, "data").JArray? ==>
      ReadValue(JObject(ms)) == ListRead(dims, ReadItems(Lookup(ms, "data").items))
    ensures kind == "struct" && Lookup(ms, "data").JArray? ==>
      ReadValue(JObject(ms)) ==
        StructRead(dims, TextsOf(AsList(Lookup(ms, "fields"))), ReadElements(Lookup(ms, "data").items))
  {
    hide Lookup, Wholes, TextsOf, OptionalTexts, ReadItems, ReadElements, ReadNumbers, ReadFunction, ReadObject;
  }

  lemma {:induction false} MissingReads(h: Heap, v: Value, env: Environment)
    requires Valid(h, v) && (v.payload.Missing? || v.payload.MissingArray?)
    ensures ReadValue(Clean(JsonOf(h, v, env))) == ContentsOf(h, v, env)
  {
    hide Clean, CleanMembers, Lookup, Sanitize, Wholes, ReadValue, Header, Named;
    if v.payload.MissingArray? {
      var ms := Header("missing", v.dims);
      assert JsonOf(h, v, env) == JObject(ms);
      hide JsonOf;
      OnlyHeader("missing", v.dims);
      CleanObject(ms);
      ReadsList(CleanMembers(ms), "missing", v.dims);
    } else {
      JustMissing();
    }
  }

  lemma {:induction false} OnlyHeader(kind: string, dims: Dimensions)
    requires forall k :: 0 <= k < |kind| ==> kind[k] as int < 0x80
    ensures var c := CleanMembers(Header(kind, dims));
      && AsText(Lookup(c, "kind")) == kind && Lookup(c, "dimensions") != JNull
      && Wholes(AsList(Lookup(c, "dimensions"))) == dims
  {
    hide Clean, CleanMembers, Lookup, Sanitize, Wholes, Numbers;
    HeaderNames();
    assert Named(Header(kind, dims));
    assert Header(kind, dims) + [] == Header(kind, dims);
    HeaderRead(kind, dims, []);
  }

  lemma {:induction false} JustMissing()
    ensures ReadValue(Clean(JObject([Member("kind", JString("missing"))]))) == MissingRead
  {
    hide Clean, CleanMembers, Lookup, Sanitize, Wholes;
    HeaderNames();
    var ms := [Member("kind", JString("missing"))];
    CleanText("missing");
    CleanObject(ms);
    assert Named(ms);
    CleanLookup(ms, 0);
    CleanLookupNothing(ms, "dimensions");
  }

  // ----- numeric, character and string values -----

  lemma {:induction false} NumbersUnfold(h: Heap, v: Value, env: Environment)
    requires Valid(h, v) && v.payload.Dense?
    ensures JsonOf(h, v, env) == NumericJson(v, v.payload.complex, env.format)
    ensures ContentsOf(h, v, env) ==
      NumbersRead(Some(v.numericClass), v.dims, PartsOf(v, false, env.format),
                  if v.payload.complex then Some(PartsOf(v, true, env.format)) else None)
  {
    hide NumericJson, PartsOf, Valid;
  }

  lemma {:induction false} NumbersReadBack(h: Heap, v: Value, env: Environment)
    requires Valid(h, v) && v.payload.Dense? && LeafShaped(v)
    ensures ReadValue(Clean(JsonOf(h, v, env))) == ContentsOf(h, v, env)
  {
    hide JsonOf, ContentsOf, Clean, CleanMembers, Lookup, Sanitize, Wholes, ReadValue, NumericItems, PartsOf, Scalars,
      ClassNamed, ClassText, LeafShaped, NumericMembers, Numbers, Valid;
    NumbersUnfold(h, v, env);
    var ms := NumericJson(v, v.payload.complex, env.format).members;
    NumericLookups(v, v.payload.complex, env.format);
    CleanObject(ms);
    ReadsList(CleanMembers(ms), "numeric", v.dims);
    ClassRead(v.numericClass);
    PartsRead(v, false, env.format);
    PartsRead(v, true, env.format);
  }

  lemma {:induction false} NumericNamed(v: Value, complex: bool, format: Formatter)
    ensures Named(NumericJson(v, complex, format).members)
  {
    hide Sanitize, NumericItems, ClassText, Numbers;
    HeaderNames();
    AsciiStays("class");
    AsciiStays("complex");
    AsciiStays("imaginary_data");
  }

  lemma {:induction false} NumericLookups(v: Value, complex: bool, format: Formatter)
    ensures var c := CleanMembers(NumericJson(v, complex, format).members);
      && AsText(Lookup(c, "kind")) == "numeric" && Lookup(c, "dimensions") != JNull
      && Wholes(AsList(Lookup(c, "dimensions"))) == v.dims
      && Lookup(c, "class") == JString(ClassText(v.numericClass))
      && Lookup(c, "data") == Clean(JArray(NumericItems(v, false, format)))
      && AsFlag(Lookup(c, "complex")) == complex
      && (complex ==> Lookup(c, "imaginary_data") == Clean(JArray(NumericItems(v, true, format))))
  {
    hide Named, Clean, CleanMembers, Lookup, Sanitize, Wholes, NumericItems, ClassText, Numbers;
    var ms := NumericJson(v, complex, format).members;
    NumericNamed(v, complex, format);
    CleanText("numeric");
    ClassRead(v.numericClass);
    CleanTextIs(ClassText(v.numericClass));
    DimensionsRead(v.dims);
    CleanArray(Numbers(v.dims));
    CleanLookup(ms, 0);
    CleanLookup(ms, 1);
    CleanLookup(ms, 2);
    CleanLookup(ms, 3);
    if complex {
      CleanLookup(ms, 4);
      CleanLookup(ms, 5);
      CleanFlag(true);
    } else {
      NoComplex(v, format);
    }
  }

  lemma {:induction false} NoComplex(v: Value, format: Formatter)
    ensures Lookup(CleanMembers(NumericJson(v, false, format).members), "complex") == JNull
  {
    NumericNamed(v, false, format);
    hide Named, Clean, CleanMembers, Lookup, Sanitize, NumericItems, ClassText, Numbers;
    CleanLookupNothing(NumericJson(v, false, format).members, "complex");
  }

  lemma {:induction false} CleanTextIs(s: string)
    ensures Clean(JString(s)) == JString(Sanitize(s))
  {
  }

  lemma {:induction false} CleanFlag(b: bool)
    ensures Clean(JBool(b)) == JBool(b)
  {
  }

  lemma {:induction false} CharactersUnfold(h: Heap, v: Value, env: Environment)
    requires Valid(h, v) && v.payload.Characters?
    ensures JsonOf(h, v, env) ==
      JObject(Header("character", v.dims) + [Member("utf16", JArray(UnitItems(v.payload.units, v.dims)))])
    ensures ContentsOf(h, v, env) == UnitsRead(v.dims, UnitsOf(v.payload.units, v.dims))
  {
    hide UnitItems, UnitsOf, Header, Valid;
  }

  lemma {:induction false} UnitsReadBack(units: seq<nat>, dims: Dimensions)
    ensures Wholes(AsList(Clean(JArray(UnitItems(units, dims))))) == UnitsOf(units, dims)
  {
    var items := UnitItems(units, dims);
    CleanItemsAt(items);
    forall i: nat | i < |items| ensures AsWhole(Clean(items[i])) == UnitsOf(units, dims)[i] {
      hide SignedValue, Decimal, StoredAt;
      match StoredAt(units, dims, i)
      case None =>
      case Some(u) => WholeRead(u);
    }
    hide AsWhole, StoredAt, Number;
  }

  lemma {:induction false} HeaderAnd(kind: string, dims: Dimensions, name: string, items: seq<Json>)
    requires forall k :: 0 <= k < |kind| ==> kind[k] as int < 0x80
    requires Sanitize(name) == name && name != "kind" && name != "dimensions"
    ensures var c := CleanMembers(Header(kind, dims) + [Member(name, JArray(items))]);
      && AsText(Lookup(c, "kind")) == kind && Lookup(c, "dimensions") != JNull
      && Wholes(AsList(Lookup(c, "dimensions"))) == dims
      && Lookup(c, name) == JArray(CleanItems(items))
  {
    hide Clean, CleanMembers, CleanItems, Lookup, Sanitize, Wholes, Numbers;
    HeaderNames();
    var rest := [Member(name, JArray(items))];
    assert Named(Header(kind, dims) + rest);
    HeaderRead(kind, dims, rest);
    assert Lookup(CleanMembers(Header(kind, dims) + rest), rest[0].name) == Clean(rest[0].value);
    CleanArray(items);
  }

  lemma {:induction false} CharactersReadBack(h: Heap, v: Value, env: Environment)
    requires Valid(h, v) && v.payload.Characters?
    ensures ReadValue(Clean(JsonOf(h, v, env))) == ContentsOf(h, v, env)
  {
    hide JsonOf, ContentsOf, Clean, CleanMembers, CleanItems, Lookup, Sanitize, Wholes, ReadValue, Header, UnitItems,
      UnitsOf, Valid;
    CharactersUnfold(h, v, env);
    var items := UnitItems(v.payload.units, v.dims);
    AsciiStays("utf16");
    HeaderAnd("character", v.dims, "utf16", items);
    CleanObject(Header("character", v.dims) + [Member("utf16", JArray(items))]);
    ReadsList(CleanMembers(Header("character", v.dims) + [Member("utf16", JArray(items))]), "character", v.dims);
    UnitsReadBack(v.payload.units, v.dims);
    CleanArray(items);
  }

  lemma {:induction false} StringsUnfold(h: Heap, v: Value, env: Environment)
    requires Valid(h, v) && v.payload.Strings?
    ensures JsonOf(h, v, env) ==
      JObject(Header("string", v.dims) + [Member("data", JArray(TextItems(v.payload.texts, v.dims)))])
    ensures ContentsOf(h, v, env) == TextsRead(v.dims, StringsOf(v.payload.texts, v.dims))
  {
    hide TextItems, StringsOf, Header, Valid;
  }

  lemma {:induction false} TextRead(t: StringElement)
    requires UnitsFit(t)
    ensures AsOptionalText(Clean(TextJson(t))) == if t.missing then None else Some(FromUtf16(t.units))
  {
    FromUtf16WellFormed(t.units);
    SanitizeWellFormed(FromUtf16(t.units));
    hide FromUtf16, Sanitize, WellFormed;
  }

  lemma {:induction false} StringsReadBack(texts: seq<StringElement>, dims: Dimensions)
    ensures OptionalTexts(AsList(Clean(JArray(TextItems(texts, dims))))) == StringsOf(texts, dims)
  {
    var items := TextItems(texts, dims);
    CleanItemsAt(items);
    forall i: nat | i < |items| ensures AsOptionalText(Clean(items[i])) == StringsOf(texts, dims)[i] {
      hide StoredAt, TextJson, FromUtf16, Sanitize;
      match StoredAt(texts, dims, i)
      case None =>
      case Some(t) => if UnitsFit(t) { TextRead(t); }
    }
    hide StoredAt, TextJson, FromUtf16, AsOptionalText;
  }

  lemma {:induction false} TextsReadBack(h: Heap, v: Value, env: Environment)
    requires Valid(h, v) && v.payload.Strings?
    ensures ReadValue(Clean(JsonOf(h, v, env))) == ContentsOf(h, v, env)
  {
    hide JsonOf, ContentsOf, Clean, CleanMembers, CleanItems, Lookup, Sanitize, Wholes, ReadValue, Header, TextItems,
      StringsOf, OptionalTexts, Valid;
    StringsUnfold(h, v, env);
    var items := TextItems(v.payload.texts, v.dims);
    HeaderNames();
    HeaderAnd("string", v.dims, "data", items);
    CleanObject(Header("string", v.dims) + [Member("data", JArray(items))]);
    ReadsList(CleanMembers(Header("string", v.dims) + [Member("data", JArray(items))]), "string", v.dims);
    StringsReadBack(v.payload.texts, v.dims);
    CleanArray(items);
  }
}
