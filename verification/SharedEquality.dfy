/**
 Equality of values behind shared pointers, one level spelled out: function
 handles by the identity of their descriptors, tables by their headers and
 variables, objects by their fields, object arrays by their elements.
 */
module SharedEquality {
  import opened Wrappers
  import opened Layout
  import opened RuntimeValues
  import opened Bisimulation
  import opened EqualityMeaning

  /** Two function handles are equal exactly when both have a descriptor and the descriptors have one identity. */
  lemma {:induction false} FunctionsEqualIff(h: Heap, l: Value, r: Value)
    requires Valid(h, l) && Valid(h, r) && l.payload.Function? && r.payload.Function?
    ensures Bisimilar(h, l, r) <==>
      && SameFrame(l, r)
      && match (l.payload.handle, r.payload.handle)
         case (Some(a), Some(b)) => h.functions[a].identity == h.functions[b].identity
         case _ => false
  {
    NothingShared(h);
    assert forall P: Pairs, T: Pairs :: Match(h, l, r, P, T) <==> Match(h, l, r, {}, {});
  }

  /** A label, or none, in a slot of the storage. */
  ghost function LabelIn(labels: seq<Option<string>>, k: nat): Option<string> {
    if k < |labels| then labels[k] else None
  }

  /**
   Two categorical arrays of one shape are equal exactly when their labels are, and for ordinal ones the categories.
   */
  lemma {:induction false} CategoricalsEqualIff(h: Heap, l: Value, r: Value)
    requires l.payload.Categorical? && r.payload.Categorical? && PrefixesFit(l.dims)
    ensures Bisimilar(h, l, r) <==>
      && SameFrame(l, r) && l.payload.ordinal == r.payload.ordinal
      && (l.payload.ordinal ==> l.payload.categories == r.payload.categories)
      && forall k: nat :: k < Product(l.dims) ==> LabelIn(l.payload.labels, k) == LabelIn(r.payload.labels, k)
  {
    NothingShared(h);
    assert forall P: Pairs, T: Pairs :: Match(h, l, r, P, T) <==> Match(h, l, r, {}, {});
    if l.dims == r.dims {
      OffsetBijection(l.dims);
      hide StorageOffset, LogicalIndex, Product;
      var a, b := l.payload.labels, r.payload.labels;
      if CategoricalEqual(l, r) {
        forall k: nat | k < Product(l.dims) ensures LabelIn(a, k) == LabelIn(b, k) {
          assert LabelAt(l, LogicalIndex(l.dims, k)) == LabelAt(r, LogicalIndex(l.dims, k));
        }
      }
      assert forall i: nat :: i < Product(l.dims) ==>
        LabelAt(l, i) == LabelIn(a, StorageOffset(l.dims, i)) && LabelAt(r, i) == LabelIn(b, StorageOffset(l.dims, i));
    }
  }

  // ----- tables -----

  /** Headers, names and sizes agree, row times or row names, every variable, and the user data. */
  ghost predicate TablesEqual(h: Heap, a: Table, b: Table) {
    && a.timetable == b.timetable && a.rowCount == b.rowCount && |a.variables| == |b.variables|
    && a.dimensionNames == b.dimensionNames && a.description == b.description
    && (a.timetable ==> Bisimilar(h, a.rowTimes, b.rowTimes))
    && (!a.timetable ==> a.rowNames == b.rowNames)
    && (forall i :: 0 <= i < |a.variables| ==>
          a.variables[i].name == b.variables[i].name && Bisimilar(h, a.variables[i].value, b.variables[i].value))
    && Bisimilar(h, a.userData, b.userData)
  }

  lemma {:induction false} JoinedTables(h: Heap, a: Table, b: Table) returns (P: Pairs, T: Pairs)
    requires TablesEqual(h, a, b)
    ensures IsBisimulation(h, P, T) && TableMatch(h, a, b, P, T)
  {
    hide IsBisimulation, Match, Bisimilar;
    var D := {(a.userData, b.userData)} + (if a.timetable then {(a.rowTimes, b.rowTimes)} else {}) +
      set i | 0 <= i < |a.variables| :: (a.variables[i].value, b.variables[i].value);
    P, T := Joined(h, D);
    assert (a.userData, b.userData) in D;
    assert a.timetable ==> (a.rowTimes, b.rowTimes) in D;
    forall i | 0 <= i < |a.variables| ensures Match(h, a.variables[i].value, b.variables[i].value, P, T) {
      assert (a.variables[i].value, b.variables[i].value) in D;
    }
  }

  lemma {:induction false} MatchingTables(h: Heap, a: Table, b: Table, P: Pairs, T: Pairs)
    requires IsBisimulation(h, P, T) && TableMatch(h, a, b, P, T)
    ensures TablesEqual(h, a, b)
  {
    hide IsBisimulation, Match;
  }

  /** Two tables are equal exactly when what their storages hold is. */
  lemma {:induction false} TablesEqualIff(h: Heap, l: Value, r: Value)
    requires Valid(h, l) && Valid(h, r) && l.payload.Tabular? && r.payload.Tabular?
    ensures Bisimilar(h, l, r) <==>
      SameFrame(l, r) && TablesEqual(h, h.tables[l.payload.storage], h.tables[r.payload.storage])
  {
    var pair := (l.payload.storage, r.payload.storage);
    var a, b := h.tables[pair.0], h.tables[pair.1];
    hide TableMatch, RecordMatch, TablesEqual;
    if Bisimilar(h, l, r) {
      var P: Pairs, T: Pairs :| IsBisimulation(h, P, T) && Match(h, l, r, P, T);
      assert TablePairOk(h, pair, P, T);
      MatchingTables(h, a, b, P, T);
    }
    if SameFrame(l, r) && TablesEqual(h, a, b) {
      var P: Pairs, T: Pairs := JoinedTables(h, a, b);
      WithTable(h, pair, P, T);
      assert a.timetable == b.timetable by { SameTimetable(h, a, b); }
    }
  }

  lemma {:induction false} SameTimetable(h: Heap, a: Table, b: Table)
    requires TablesEqual(h, a, b)
    ensures a.timetable == b.timetable
  {
  }

  lemma {:induction false} WithTable(h: Heap, pair: (Id, Id), P: Pairs, T: Pairs)
    requires IsBisimulation(h, P, T) && pair.0 in h.tables && pair.1 in h.tables
    requires TableMatch(h, h.tables[pair.0], h.tables[pair.1], P, T)
    ensures IsBisimulation(h, P, T + {pair})
  {
    hide TableMatch, RecordMatch;
    var U := T + {pair};
    forall p | p in P ensures ObjectPairOk(h, p, P, U) {
      assert ObjectPairOk(h, p, P, T);
      RecordMono(h, h.objects[p.0], h.objects[p.1], P, T, P, U);
    }
    forall p | p in U ensures TablePairOk(h, p, P, U) {
      assert p in T ==> TablePairOk(h, p, P, T);
      TableMono(h, h.tables[p.0], h.tables[p.1], P, T, P, U);
    }
  }

  // ----- objects -----

  /** A scalar object of a class, or an exception or metadata object of any shape. */
  ghost predicate ComparedByFields(v: Value) {
    match v.payload
    case Object(MetadataClass(_, _), _, _, _, _, _, _, _) => true
    case Object(ExceptionClass, _, _, _, _, _, _, _) => true
    case Object(_, _, _, _, parts, _, _, _) => parts == [] && PrefixesFit(v.dims) && Product(v.dims) == 1
    case _ => false
  }

  /** A handle object keeps its fields in the shared map, if it has one, and every other object keeps them itself. */
  ghost function FieldsAt(h: Heap, v: Value): Record
    requires Valid(h, v) && v.payload.Object?
  {
    match v.payload
    case Object(_, true, Some(id), _, _, _, _, _) => h.objects[id]
    case Object(_, _, _, inline, _, _, _, _) => inline
  }

  ghost predicate SameClassOf(l: Value, r: Value)
    requires l.payload.Object? && r.payload.Object?
  {
    l.payload.className == r.payload.className && l.payload.handleObject == r.payload.handleObject
  }

  lemma {:induction false} JoinedFields(h: Heap, a: Record, b: Record) returns (P: Pairs, T: Pairs)
    requires FieldsEqual(h, a, b)
    ensures IsBisimulation(h, P, T) && RecordMatch(h, a, b, P, T)
  {
    hide IsBisimulation, Match, Bisimilar;
    P, T := JoinedRecords(h, [a], [b]);
    assert [a][0] == a && [b][0] == b;
  }

  lemma {:induction false} WithObject(h: Heap, pair: (Id, Id), P: Pairs, T: Pairs)
    requires IsBisimulation(h, P, T) && pair.0 in h.objects && pair.1 in h.objects
    requires RecordMatch(h, h.objects[pair.0], h.objects[pair.1], P, T)
    ensures IsBisimulation(h, P + {pair}, T)
  {
    hide TableMatch, RecordMatch;
    var Q := P + {pair};
    forall p | p in Q ensures ObjectPairOk(h, p, Q, T) {
      assert p in P ==> ObjectPairOk(h, p, P, T);
      RecordMono(h, h.objects[p.0], h.objects[p.1], P, T, Q, T);
    }
    forall p | p in T ensures TablePairOk(h, p, Q, T) {
      assert TablePairOk(h, p, P, T);
      TableMono(h, h.tables[p.0], h.tables[p.1], P, T, Q, T);
    }
  }

  /** Objects are equal exactly when class, shape, handle-ness and all fields are. */
  lemma {:induction false} ObjectsEqualIff(h: Heap, l: Value, r: Value)
    requires Valid(h, l) && Valid(h, r) && ComparedByFields(l) && ComparedByFields(r)
    ensures Bisimilar(h, l, r) <==>
      SameFrame(l, r) && SameClassOf(l, r) && FieldsEqual(h, FieldsAt(h, l), FieldsAt(h, r))
  {
    assert !IsArrayComparison(l, r);
    var p, q := l.payload, r.payload;
    var a, b := FieldsAt(h, l), FieldsAt(h, r);
    if Bisimilar(h, l, r) {
      var P: Pairs, T: Pairs :| IsBisimulation(h, P, T) && Match(h, l, r, P, T);
      assert ObjectMatch(h, l, r, P, T);
      if p.handleObject && p.shared.Some? && q.shared.Some? {
        assert ObjectPairOk(h, (p.shared.value, q.shared.value), P, T);
      }
      hide IsBisimulation, Match, Bisimilar, Valid;
      if a.fields != map[] || b.fields != map[] { MatchingFields(h, a, b, P, T); }
    }
    if SameFrame(l, r) && SameClassOf(l, r) && FieldsEqual(h, a, b) {
      var P: Pairs, T: Pairs := JoinedFields(h, a, b);
      var Q := P;
      if p.handleObject && p.shared.Some? && q.shared.Some? {
        Q := P + {(p.shared.value, q.shared.value)};
        WithObject(h, (p.shared.value, q.shared.value), P, T);
      }
      hide IsBisimulation;
      assert ObjectMatch(h, l, r, Q, T);
    }
  }

  /** An array of objects of a class with exactly the elements that its shape asks for. */
  ghost predicate FullArray(v: Value) {
    match v.payload
    case Object(MetadataClass(_, _), _, _, _, _, _, _, _) => false
    case Object(ExceptionClass, _, _, _, _, _, _, _) => false
    case Object(_, _, _, _, parts, _, _, _) => parts != [] && PrefixesFit(v.dims) && |parts| == Product(v.dims)
    case _ => false
  }

  /** Arrays of objects are equal exactly when class, shape, handle-ness and all elements are. */
  lemma {:induction false} ObjectArraysEqualIff(h: Heap, l: Value, r: Value)
    requires FullArray(l) && FullArray(r)
    ensures Bisimilar(h, l, r) <==>
      SameFrame(l, r) && SameClassOf(l, r) && AllEqual(h, l.payload.parts, r.payload.parts)
  {
    assert IsArrayComparison(l, r);
    var a, b := l.payload.parts, r.payload.parts;
    OffsetBijection(l.dims);
    if Bisimilar(h, l, r) {
      var P: Pairs, T: Pairs :| IsBisimulation(h, P, T) && Match(h, l, r, P, T);
      assert ObjectMatch(h, l, r, P, T);
      hide IsBisimulation, Match, StorageOffset, LogicalIndex, Product;
      forall k | 0 <= k < |a| ensures Bisimilar(h, a[k], b[k]) {
        assert PartMatch(h, l, r, LogicalIndex(l.dims, k), P, T);
      }
    }
    if SameFrame(l, r) && SameClassOf(l, r) && AllEqual(h, a, b) {
      var P: Pairs, T: Pairs := JoinedValues(h, a, b);
      hide IsBisimulation, StorageOffset, LogicalIndex, Product;
      assert forall i: nat :: i < |a| ==> PartMatch(h, l, r, i, P, T);
      assert ObjectMatch(h, l, r, P, T);
    }
  }
}
