/**
 `writeRuntimeValue` as the source runs it: loops that look elements up, drive
 the writer, and give up with runtime_error on a payload that does not fit its
 shape or on a value nested too deep.  Every method here answers false exactly
 for the source's runtime_error; the writer's own logic_error is never met.
 */
module ProtocolWalk {
  import opened Wrappers
  import opened Layout
  import opened RuntimeValues
  import opened JsonText
  import opened WriterStates
  import opened JsonWriters
  import opened MachineProtocol

  /** `dimensions` and its list. */
  method PutDimensions(w: JsonWriter, dims: Dimensions, ghost st: State, ghost members: seq<Member>)
    requires w.Valid() && WellNested(st) && CanPut(st) && w.state == InObject(st, members)
    modifies w
    ensures w.Valid() && w.state == InObject(st, members + [DimensionsMember(dims)])
  {
    PutKey(w, "dimensions", st, members);
    InsideSteps(st, members, "dimensions", [], JArray(Numbers(dims)));
    WriteDimensions(w, dims);
  }

  /** Opening the array of a keyed list. */
  method OpenList(w: JsonWriter, name: string, ghost st: State, ghost members: seq<Member>)
    requires w.Valid() && WellNested(st) && CanPut(st) && w.state == InObject(st, members)
    modifies w
    ensures w.Valid() && CanPut(AtKey(st, members, name)) && w.state == InArray(AtKey(st, members, name), [])
  {
    PutKey(w, name, st, members);
    OpenArray(w, AtKey(st, members, name));
  }

  method CloseList(w: JsonWriter, name: string, ghost st: State, ghost members: seq<Member>, ghost items: seq<Json>)
    requires w.Valid() && WellNested(st) && CanPut(st) && CanPut(AtKey(st, members, name))
    requires w.state == InArray(AtKey(st, members, name), items)
    modifies w
    ensures w.Valid() && w.state == InObject(st, members + [Member(name, JArray(items))])
  {
    CloseArray(w, AtKey(st, members, name), items);
    InsideSteps(st, members, name, [], JArray(items));
  }

  // ----- leaf arrays -----

  lemma {:induction false} NumericItemAt(v: Value, imaginary: bool, format: Formatter, i: nat)
    requires i < ShapeCount(v.dims) && NumericElementAt(v, i).Some?
    ensures NumericItems(v, imaginary, format)[i] ==
      ElementJson(v.numericClass, NumericElementAt(v, i).value, imaginary, format)
  {
  }

  lemma {:induction false} TextItemAt(texts: seq<StringElement>, dims: Dimensions, i: nat)
    requires i < ShapeCount(dims) && StoredAt(texts, dims, i).Some? && UnitsFit(StoredAt(texts, dims, i).value)
    ensures TextItems(texts, dims)[i] == TextJson(StoredAt(texts, dims, i).value)
  {
  }

  method WriteNumericData(w: JsonWriter, v: Value, imaginary: bool, format: Formatter, count: nat, ghost st: State)
    returns (written: bool)
    requires w.Valid() && WellNested(st) && CanPut(st) && w.state == InArray(st, [])
    requires IsNumeric(v.payload) && ShapeFits(v) && count == ShapeCount(v.dims)
    modifies w
    ensures w.Valid()
    ensures written <==> forall i: nat :: i < count ==> NumericElementAt(v, i).Some?
    ensures written ==> w.state == InArray(st, NumericItems(v, imaginary, format))
  {
    hide JsonWriter.Valid;
    ghost var done: seq<Json> := [];
    for index := 0 to count
      invariant w.Valid() && w.state == InArray(st, done)
      invariant |done| == index && forall i :: 0 <= i < index ==> done[i] == NumericItems(v, imaginary, format)[i]
      invariant forall i: nat :: i < index ==> NumericElementAt(v, i).Some?
    {
      var element := NumericElementOf(v, index);
      if element == None {
        return false;
      }
      NumericItemAt(v, imaginary, format, index);
      var item := ElementJson(v.numericClass, element.value, imaginary, format);
      PutItem(w, item, st, done);
      done := done + [item];
    }
    assert done == NumericItems(v, imaginary, format);
    return true;
  }

  /** The element behind a column-major index, as the character, string, cell and struct loops fetch it. */
  method Fetch<T>(elements: seq<T>, dims: Dimensions, index: nat) returns (r: Option<T>)
    requires forall k :: 0 <= k < |dims| ==> dims[k] <= SIZE_MAX
    requires PrefixesFit(dims) && index < Product(dims)
    ensures r == StoredAt(elements, dims, index)
  {
    var offset := ColumnMajorLinearToStorageOffset(dims, index);
    return if offset.value < |elements| then Some(elements[offset.value]) else None;
  }

  method WriteUnits(w: JsonWriter, units: seq<nat>, dims: Dimensions, count: nat, ghost st: State)
    returns (written: bool)
    requires w.Valid() && WellNested(st) && CanPut(st) && w.state == InArray(st, [])
    requires forall k :: 0 <= k < |dims| ==> dims[k] <= SIZE_MAX
    requires PrefixesFit(dims) && count == Product(dims)
    modifies w
    ensures w.Valid()
    ensures written <==> forall i: nat :: i < count ==> StoredAt(units, dims, i).Some?
    ensures written ==> w.state == InArray(st, UnitItems(units, dims))
  {
    hide JsonWriter.Valid;
    ghost var done: seq<Json> := [];
    for index := 0 to count
      invariant w.Valid() && w.state == InArray(st, done)
      invariant |done| == index && forall i :: 0 <= i < index ==> done[i] == UnitItems(units, dims)[i]
      invariant forall i: nat :: i < index ==> StoredAt(units, dims, i).Some?
    {
      var element := Fetch(units, dims, index);
      if element == None {
        return false;
      }
      PutItem(w, Number(element.value), st, done);
      done := done + [Number(element.value)];
    }
    assert done == UnitItems(units, dims);
    return true;
  }

  method WriteStrings(w: JsonWriter, texts: seq<StringElement>, dims: Dimensions, count: nat, ghost st: State)
    returns (written: bool)
    requires w.Valid() && WellNested(st) && CanPut(st) && w.state == InArray(st, [])
    requires forall k :: 0 <= k < |dims| ==> dims[k] <= SIZE_MAX
    requires PrefixesFit(dims) && count == Product(dims)
    requires forall k :: 0 <= k < |texts| ==> UnitsFit(texts[k])
    modifies w
    ensures w.Valid()
    ensures written <==> forall i: nat :: i < count ==> StoredAt(texts, dims, i).Some?
    ensures written ==> w.state == InArray(st, TextItems(texts, dims))
  {
    hide JsonWriter.Valid;
    ghost var done: seq<Json> := [];
    for index := 0 to count
      invariant w.Valid() && w.state == InArray(st, done)
      invariant |done| == index && forall i :: 0 <= i < index ==> done[i] == TextItems(texts, dims)[i]
      invariant forall i: nat :: i < index ==> StoredAt(texts, dims, i).Some?
    {
      var element := Fetch(texts, dims, index);
      if element == None {
        return false;
      }
      TextItemAt(texts, dims, index);
      PutItem(w, TextJson(element.value), st, done);
      done := done + [TextJson(element.value)];
    }
    assert done == TextItems(texts, dims);
    return true;
  }

  // ----- leaf values -----

  /** kind and dimensions. */
  method OpenHeader(w: JsonWriter, kind: string, dims: Dimensions, ghost st: State)
    requires w.Valid() && WellNested(st) && CanPut(st) && w.state == st
    modifies w
    ensures w.Valid() && w.state == InObject(st, Header(kind, dims))
  {
    OpenFields(w, [Member("kind", JString(kind))], st);
    PutDimensions(w, dims, st, [Member("kind", JString(kind))]);
  }

  method WriteNumericList(w: JsonWriter, name: string, v: Value, imaginary: bool, format: Formatter,
                          ghost st: State, ghost members: seq<Member>)
    returns (written: bool)
    requires w.Valid() && WellNested(st) && CanPut(st) && w.state == InObject(st, members)
    requires v.payload.Dense? && ShapeFits(v)
    modifies w
    ensures w.Valid()
    ensures written <==> LeafShaped(v)
    ensures written ==> w.state == InObject(st, members + [Member(name, JArray(NumericItems(v, imaginary, format)))])
  {
    OpenList(w, name, st, members);
    var count := CheckedDimensionProduct(v.dims);
    if count == None {
      return false;
    }
    written := WriteNumericData(w, v, imaginary, format, count.value, AtKey(st, members, name));
    if written {
      CloseList(w, name, st, members, NumericItems(v, imaginary, format));
    }
  }

  method WriteNumericValue(w: JsonWriter, v: Value, complex: bool, format: Formatter) returns (written: bool)
    requires w.Valid() && CanPut(w.state) && ShapeFits(v) && v.payload.Dense?
    modifies w
    ensures w.Valid() && old(WellNested(w.state))
    ensures written <==> LeafShaped(v)
    ensures written ==> w.state == Put(old(w.state), NumericJson(v, complex, format))
  {
    ghost var st := w.state;
    var first := [Member("kind", JString("numeric")), Member("class", JString(ClassText(v.numericClass)))];
    OpenFields(w, first, st);
    PutDimensions(w, v.dims, st, first);
    written := WriteNumericList(w, "data", v, false, format, st, first + [DimensionsMember(v.dims)]);
    if !written {
      return;
    }
    ghost var ms := NumericMembers(v, format);
    if complex {
      PutField(w, "complex", JBool(true), st, ms);
      ms := ms + [Member("complex", JBool(true))];
      written := WriteNumericList(w, "imaginary_data", v, true, format, st, ms);
      ms := ms + [Member("imaginary_data", JArray(NumericItems(v, true, format)))];
    }
    CloseObject(w, st, ms);
  }

  method WriteCharacterValue(w: JsonWriter, units: seq<nat>, dims: Dimensions) returns (written: bool)
    requires w.Valid() && CanPut(w.state) && forall k :: 0 <= k < |dims| ==> dims[k] <= SIZE_MAX
    modifies w
    ensures w.Valid() && old(WellNested(w.state))
    ensures written <==> PrefixesFit(dims) && forall i: nat :: i < ShapeCount(dims) ==> StoredAt(units, dims, i).Some?
    ensures written ==> w.state == Put(old(w.state),
      JObject(Header("character", dims) + [Member("utf16", JArray(UnitItems(units, dims)))]))
  {
    ghost var st, ms := w.state, Header("character", dims);
    OpenHeader(w, "character", dims, st);
    OpenList(w, "utf16", st, ms);
    var count := CheckedDimensionProduct(dims);
    if count == None {
      return false;
    }
    written := WriteUnits(w, units, dims, count.value, AtKey(st, ms, "utf16"));
    if written {
      CloseList(w, "utf16", st, ms, UnitItems(units, dims));
      CloseObject(w, st, ms + [Member("utf16", JArray(UnitItems(units, dims)))]);
    }
  }

  method WriteStringValue(w: JsonWriter, texts: seq<StringElement>, dims: Dimensions) returns (written: bool)
    requires w.Valid() && CanPut(w.state) && forall k :: 0 <= k < |dims| ==> dims[k] <= SIZE_MAX
    requires forall k :: 0 <= k < |texts| ==> UnitsFit(texts[k])
    modifies w
    ensures w.Valid() && old(WellNested(w.state))
    ensures written <==> PrefixesFit(dims) && forall i: nat :: i < ShapeCount(dims) ==> StoredAt(texts, dims, i).Some?
    ensures written ==> w.state == Put(old(w.state), ContainerJson("string", dims, TextItems(texts, dims)))
  {
    ghost var st, ms := w.state, Header("string", dims);
    OpenHeader(w, "string", dims, st);
    OpenList(w, "data", st, ms);
    var count := CheckedDimensionProduct(dims);
    if count == None {
      return false;
    }
    written := WriteStrings(w, texts, dims, count.value, AtKey(st, ms, "data"));
    if written {
      CloseList(w, "data", st, ms, TextItems(texts, dims));
      CloseObject(w, st, ms + [Member("data", JArray(TextItems(texts, dims)))]);
    }
  }

  method WriteFunctionHandleValue(w: JsonWriter, d: Descriptor, dims: Dimensions)
    requires w.Valid() && CanPut(w.state)
    modifies w
    ensures w.Valid() && old(WellNested(w.state))
    ensures w.state == Put(old(w.state), JObject(Header("function-handle", dims) + FunctionMembers(d)))
  {
    ghost var st, ms := w.state, Header("function-handle", dims);
    OpenHeader(w, "function-handle", dims, st);
    PutFields(w, FunctionMembers(d), st, ms);
    CloseObject(w, st, ms + FunctionMembers(d));
  }

  method RepresentationOf(v: Value) returns (text: string)
    ensures text == Representation(v)
  {
    var count := CheckedDimensionProduct(v.dims);
    return if !IsGraphics(v.payload) then "opaque"
      else if v.payload.parts == [] && count == Some(1) then "graphics" else "graphics-array";
  }

  /** Only an object of a graphics class has a document of its own, and only the serializer can refuse it. */
  method WriteObjectValue(w: JsonWriter, v: Value, name: string, handle: bool, member: string, env: Environment)
    returns (written: bool)
    requires w.Valid() && CanPut(w.state)
    modifies w
    ensures w.Valid() && old(WellNested(w.state))
    ensures written <==> DocumentGiven(v, env)
    ensures written ==> w.state == Put(old(w.state), ObjectJson(v, name, handle, member, env))
  {
    ghost var st, ms := w.state, ObjectMembers(v, name, handle, member);
    var first := [Member("kind", JString("object")), Member("class", JString(name))];
    OpenFields(w, first, st);
    PutDimensions(w, v.dims, st, first);
    var representation := RepresentationOf(v);
    PutFields(w, [Member("handle", JBool(handle)),
                  Member("enumeration_member", if member == "" then JNull else JString(member)),
                  Member("representation", JString(representation))], st, first + [DimensionsMember(v.dims)]);
    if IsGraphics(v.payload) {
      var document := env.graphics(v);
      if document == None {
        return false;
      }
      PutField(w, "graphics", JEmbedded(document.value), st, ms);
      CloseObject(w, st, ms + [Member("graphics", JEmbedded(document.value))]);
    } else {
      CloseObject(w, st, ms);
    }
    return true;
  }

  // ----- containers and the walk -----

  /** The data loop of `writeCellLikeValue`, at the depth of the elements. */
  method WriteCells(w: JsonWriter, h: Heap, cells: seq<Value>, dims: Dimensions, count: nat, depth: nat,
                    env: Environment, ghost st: State)
    returns (written: bool)
    requires w.Valid() && WellNested(st) && CanPut(st) && w.state == InArray(st, [])
    requires ValidHeap(h) && forall k :: 0 <= k < |cells| ==> Valid(h, cells[k])
    requires forall k :: 0 <= k < |dims| ==> dims[k] <= SIZE_MAX
    requires PrefixesFit(dims) && count == Product(dims)
    modifies w
    ensures w.Valid()
    ensures written <==> CellsWritable(h, cells, dims, 0, depth, env)
    ensures written ==> w.state == InArray(st, CellItems(h, cells, dims, 0, env))
    decreases cells, 0
  {
    hide JsonWriter.Valid, JsonOf, ValidHeap, Valid, StorageOffset;
    ghost var done: seq<Json> := [];
    assert done + CellItems(h, cells, dims, 0, env) == CellItems(h, cells, dims, 0, env);
    for index := 0 to count
      invariant w.Valid() && w.state == InArray(st, done)
      invariant done + CellItems(h, cells, dims, index, env) == CellItems(h, cells, dims, 0, env)
      invariant CellsWritable(h, cells, dims, 0, depth, env) <==> CellsWritable(h, cells, dims, index, depth, env)
    {
      var element := Fetch(cells, dims, index);
      if element == None {
        return false;
      }
      ghost var item := JsonOf(h, element.value, env);
      ItemCanFollow(st, done, item);
      written := WriteRuntimeValue(w, h, element.value, depth, env);
      if !written {
        return;
      }
      Shift(done, item, CellItems(h, cells, dims, index + 1, env));
      done := done + [item];
    }
    assert done + CellItems(h, cells, dims, count, env) == done;
    return true;
  }

  lemma {:induction false} ItemCanFollow(st: State, items: seq<Json>, v: Json)
    requires WellNested(st) && CanPut(st)
    ensures CanPut(InArray(st, items)) && Put(InArray(st, items), v) == InArray(st, items + [v])
  {
    InsideSteps(st, [], "", items, v);
  }

  lemma {:induction false} ValueCanFollow(st: State, members: seq<Member>, name: string, v: Json)
    requires WellNested(st) && CanPut(st)
    ensures CanPut(AtKey(st, members, name))
      && Put(AtKey(st, members, name), v) == InObject(st, members + [Member(name, v)])
  {
    InsideSteps(st, members, name, [], v);
  }

  lemma {:induction false} Shift<T>(done: seq<T>, item: T, rest: seq<T>)
    ensures done + ([item] + rest) == done + [item] + rest
  {
  }

  /** One structure element: an object with the fields in declared order. */
  method WriteRecord(w: JsonWriter, h: Heap, order: seq<string>, record: Record, depth: nat, env: Environment)
    returns (written: bool)
    requires w.Valid() && CanPut(w.state) && ValidHeap(h) && ValidRecord(h, record)
    modifies w
    ensures w.Valid() && old(WellNested(w.state))
    ensures written <==> RecordWritable(h, order, record, 0, depth, env)
    ensures written ==> w.state == Put(old(w.state), JObject(RecordMembers(h, order, record, 0, env)))
    decreases record, 0
  {
    ghost var st := w.state;
    assert WellNested(st);
    hide JsonWriter.Valid;
    OpenObject(w, st);
    ghost var done: seq<Member> := [];
    assert done + RecordMembers(h, order, record, 0, env) == RecordMembers(h, order, record, 0, env);
    for j := 0 to |order|
      invariant w.Valid() && w.state == InObject(st, done)
      invariant done + RecordMembers(h, order, record, j, env) == RecordMembers(h, order, record, 0, env)
      invariant RecordWritable(h, order, record, 0, depth, env) <==> RecordWritable(h, order, record, j, depth, env)
    {
      if order[j] !in record.fields {
        return false;
      }
      PutKey(w, order[j], st, done);
      ghost var member := Member(order[j], JsonOf(h, record.fields[order[j]], env));
      ValueCanFollow(st, done, order[j], member.value);
      written := WriteRuntimeValue(w, h, record.fields[order[j]], depth, env);
      if !written {
        return;
      }
      Shift(done, member, RecordMembers(h, order, record, j + 1, env));
      done := done + [member];
    }
    assert done + RecordMembers(h, order, record, |order|, env) == done;
    CloseObject(w, st, done);
    return true;
  }

  /** The data loop of `writeStructValue`. */
  method WriteRecords(w: JsonWriter, h: Heap, order: seq<string>, records: seq<Record>, dims: Dimensions, count: nat,
                      depth: nat, env: Environment, ghost st: State)
    returns (written: bool)
    requires w.Valid() && WellNested(st) && CanPut(st) && w.state == InArray(st, [])
    requires ValidHeap(h) && forall k :: 0 <= k < |records| ==> ValidRecord(h, records[k])
    requires forall k :: 0 <= k < |dims| ==> dims[k] <= SIZE_MAX
    requires PrefixesFit(dims) && count == Product(dims)
    modifies w
    ensures w.Valid()
    ensures written <==> RecordsWritable(h, order, records, dims, 0, depth, env)
    ensures written ==> w.state == InArray(st, RecordItems(h, order, records, dims, 0, env))
    decreases records, 0
  {
    hide JsonWriter.Valid;
    ghost var done: seq<Json> := [];
    assert done + RecordItems(h, order, records, dims, 0, env) == RecordItems(h, order, records, dims, 0, env);
    for index := 0 to count
      invariant w.Valid() && w.state == InArray(st, done)
      invariant done + RecordItems(h, order, records, dims, index, env) == RecordItems(h, order, records, dims, 0, env)
      invariant RecordsWritable(h, order, records, dims, 0, depth, env) <==>
        RecordsWritable(h, order, records, dims, index, depth, env)
    {
      var element := Fetch(records, dims, index);
      if element == None {
        return false;
      }
      ghost var item := JObject(RecordMembers(h, order, element.value, 0, env));
      ItemCanFollow(st, done, item);
      written := WriteRecord(w, h, order, element.value, depth, env);
      if !written {
        return;
      }
      Shift(done, item, RecordItems(h, order, records, dims, index + 1, env));
      done := done + [item];
    }
    assert done + RecordItems(h, order, records, dims, count, env) == done;
    return true;
  }

  method WriteCellLikeValue(w: JsonWriter, h: Heap, kind: string, cells: seq<Value>, dims: Dimensions, depth: nat,
                            env: Environment)
    returns (written: bool)
    requires w.Valid() && CanPut(w.state) && ValidHeap(h) && forall k :: 0 <= k < |cells| ==> Valid(h, cells[k])
    requires forall k :: 0 <= k < |dims| ==> dims[k] <= SIZE_MAX
    modifies w
    ensures w.Valid() && old(WellNested(w.state))
    ensures written <==> PrefixesFit(dims) && CellsWritable(h, cells, dims, 0, depth + 1, env)
    ensures written ==> w.state == Put(old(w.state), ContainerJson(kind, dims, CellItems(h, cells, dims, 0, env)))
    decreases cells, 1
  {
    ghost var st, ms := w.state, Header(kind, dims);
    assert WellNested(st);
    hide JsonWriter.Valid;
    OpenHeader(w, kind, dims, st);
    OpenList(w, "data", st, ms);
    var count := CheckedDimensionProduct(dims);
    if count == None {
      return false;
    }
    written := WriteCells(w, h, cells, dims, count.value, depth + 1, env, AtKey(st, ms, "data"));
    if written {
      CloseList(w, "data", st, ms, CellItems(h, cells, dims, 0, env));
      CloseObject(w, st, ms + [Member("data", JArray(CellItems(h, cells, dims, 0, env)))]);
    }
  }

  method WriteStructValue(w: JsonWriter, h: Heap, order: seq<string>, records: seq<Record>, dims: Dimensions,
                          depth: nat, env: Environment)
    returns (written: bool)
    requires w.Valid() && CanPut(w.state) && ValidHeap(h) && forall k :: 0 <= k < |records| ==>
      ValidRecord(h, records[k])
    requires forall k :: 0 <= k < |dims| ==> dims[k] <= SIZE_MAX
    modifies w
    ensures w.Valid() && old(WellNested(w.state))
    ensures written <==> PrefixesFit(dims) && RecordsWritable(h, order, records, dims, 0, depth + 1, env)
    ensures written ==>
      w.state == Put(old(w.state), StructJson(order, dims, RecordItems(h, order, records, dims, 0, env)))
    decreases records, 1
  {
    ghost var st, ms := w.state, Header("struct", dims);
    assert WellNested(st);
    hide JsonWriter.Valid;
    OpenHeader(w, "struct", dims, st);
    PutKey(w, "fields", st, ms);
    ValueCanFollow(st, ms, "fields", JArray(Texts(order)));
    WriteTexts(w, order);
    ms := ms + [Member("fields", JArray(Texts(order)))];
    OpenList(w, "data", st, ms);
    var count := CheckedDimensionProduct(dims);
    if count == None {
      return false;
    }
    written := WriteRecords(w, h, order, records, dims, count.value, depth + 1, env, AtKey(st, ms, "data"));
    if written {
      CloseList(w, "data", st, ms, RecordItems(h, order, records, dims, 0, env));
      CloseObject(w, st, ms + [Member("data", JArray(RecordItems(h, order, records, dims, 0, env)))]);
    }
  }

  method WriteNameValue(w: JsonWriter, h: Heap, name: string, boxed: seq<Value>, depth: nat, env: Environment)
    returns (written: bool)
    requires w.Valid() && CanPut(w.state) && ValidHeap(h) && forall k :: 0 <= k < |boxed| ==> Valid(h, boxed[k])
    modifies w
    ensures w.Valid() && old(WellNested(w.state))
    ensures written <==> |boxed| == 1 && Writable(h, boxed[0], depth + 1, env)
    ensures written ==> w.state == Put(old(w.state), NameValueJson(name, JsonOf(h, boxed[0], env)))
    decreases boxed, 1
  {
    ghost var st := w.state;
    assert WellNested(st);
    hide JsonWriter.Valid;
    if |boxed| != 1 {
      return false;
    }
    var first := [Member("kind", JString("name-value-argument")), Member("name", JString(name))];
    OpenFields(w, first, st);
    PutKey(w, "value", st, first);
    ValueCanFollow(st, first, "value", JsonOf(h, boxed[0], env));
    written := WriteRuntimeValue(w, h, boxed[0], depth + 1, env);
    if written {
      CloseObject(w, st, first + [Member("value", JsonOf(h, boxed[0], env))]);
    }
  }

  predicate HoldsValues(p: Payload) { p.Cell? || p.CommaList? || p.Struct? || p.NameValue? }

  /** The kinds that hold no other value. */
  method WriteLeafValue(w: JsonWriter, h: Heap, v: Value, env: Environment) returns (written: bool)
    requires w.Valid() && CanPut(w.state) && ValidHeap(h) && Valid(h, v) && !HoldsValues(v.payload)
    modifies w
    ensures w.Valid() && old(WellNested(w.state))
    ensures written <==> LeafShaped(v) && DocumentGiven(v, env)
    ensures written ==> w.state == Put(old(w.state), JsonOf(h, v, env))
  {
    hide Put, InObject, NumericJson, ObjectJson, ContainerJson, FunctionMembers, Header, StorageOffset, Product,
      ValidHeap;
    ghost var st := w.state;
    assert WellNested(st);
    hide JsonWriter.Valid;
    written := true;
    match v.payload
    case Missing =>
      OpenFields(w, [Member("kind", JString("missing"))], st);
      CloseObject(w, st, [Member("kind", JString("missing"))]);
    case MissingArray =>
      OpenHeader(w, "missing", v.dims, st);
      CloseObject(w, st, Header("missing", v.dims));
    case Dense(_, complex, _) => written := WriteNumericValue(w, v, complex, env.format);
    case Characters(units) => written := WriteCharacterValue(w, units, v.dims);
    case Strings(texts) => written := WriteStringValue(w, texts, v.dims);
    case Function(handle) =>
      if handle == None {
        return false;
      }
      WriteFunctionHandleValue(w, h.functions[handle.value], v.dims);
    case Sparse(_, _) => written := WriteObjectValue(w, v, "sparse", false, "", env);
    case Categorical(_, _, _) => written := WriteObjectValue(w, v, "categorical", false, "", env);
    case Tabular(storage) =>
      written := WriteObjectValue(w, v, if h.tables[storage].timetable then "timetable" else "table", false, "", env);
    case Object(className, handleObject, _, _, _, _, member, _) =>
      written := WriteObjectValue(w, v, ClassNameText(className), handleObject, member, env);
  }

  /**
   `writeRuntimeValue`: succeeds exactly on the writable values, and then has
   written the value's document where a value was due, leaving every open
   container as it was.
   */
  method WriteRuntimeValue(w: JsonWriter, h: Heap, v: Value, depth: nat, env: Environment) returns (written: bool)
    requires w.Valid() && CanPut(w.state) && ValidHeap(h) && Valid(h, v)
    modifies w
    ensures w.Valid() && old(WellNested(w.state))
    ensures written <==> Writable(h, v, depth, env)
    ensures written ==> w.state == Put(old(w.state), JsonOf(h, v, env))
    decreases v, 2
  {
    assert WellNested(w.state);
    hide JsonWriter.Valid, Put, CellItems, RecordItems, CellsWritable, RecordsWritable;
    hide NumericJson, ObjectJson, ContainerJson, StructJson, NameValueJson, FunctionMembers, StorageOffset, Product;
    if depth > MAXIMUM_NESTING_DEPTH {
      return false;
    }
    match v.payload
    case Cell(cells) => written := WriteCellLikeValue(w, h, "cell", cells, v.dims, depth, env);
    case CommaList(items) => written := WriteCellLikeValue(w, h, "comma-separated-list", items, v.dims, depth, env);
    case Struct(order, records) => written := WriteStructValue(w, h, order, records, v.dims, depth, env);
    case NameValue(name, boxed) => written := WriteNameValue(w, h, name, boxed, depth, env);
    case _ => written := WriteLeafValue(w, h, v, env);
  }
}
