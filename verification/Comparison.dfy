/**
 `runtimeValuesEqual`: the recursive comparison that assumes every pair of
 shared field maps or table storages it has already visited to be equal.

 The two visited sets, passed by reference in the source, are in-out
 parameters.  Each method promises that a true answer leaves the visited pairs
 closed under one more step of matching, and that a false answer excludes every
 bisimulation; together the whole comparison decides bisimilarity.
 */
module Comparison {
  import opened Wrappers
  import opened Collections
  import opened Layout
  import opened RuntimeValues
  import opened Bisimulation

  // ----- the visited sets -----

  ghost function AllPairs(ids: set<Id>): Pairs { set a, b | a in ids && b in ids :: (a, b) }

  ghost predicate InBounds(h: Heap, P: Pairs, T: Pairs) {
    P <= AllPairs(h.objects.Keys) && T <= AllPairs(h.tables.Keys)
  }

  /** How many pairs are still unvisited: with the size of the left tree, what makes the recursion end. */
  ghost function Unvisited(h: Heap, P: Pairs, T: Pairs): nat {
    |AllPairs(h.objects.Keys) - P| + |AllPairs(h.tables.Keys) - T|
  }

  lemma {:induction false} UnvisitedShrinks(h: Heap, P: Pairs, T: Pairs, P': Pairs, T': Pairs)
    requires P <= P' && T <= T' && InBounds(h, P', T')
    ensures Unvisited(h, P', T') <= Unvisited(h, P, T)
    ensures (P, T) != (P', T') ==> Unvisited(h, P', T') < Unvisited(h, P, T)
  {
    VisitingShrinks(AllPairs(h.objects.Keys), P, P');
    VisitingShrinks(AllPairs(h.tables.Keys), T, T');
  }

  /** Every pair visited between (P, T) and (P', T') matches up to (P', T'). */
  ghost predicate Closed(h: Heap, P: Pairs, T: Pairs, P': Pairs, T': Pairs) {
    && (forall pair :: pair in P' && pair !in P ==> ObjectPairOk(h, pair, P', T'))
    && (forall pair :: pair in T' && pair !in T ==> TablePairOk(h, pair, P', T'))
  }

  ghost predicate Extends(h: Heap, P: Pairs, T: Pairs, P': Pairs, T': Pairs) {
    P <= P' && T <= T' && InBounds(h, P', T')
  }

  lemma {:induction false} ClosedTrans(h: Heap, P: Pairs, T: Pairs, P1: Pairs, T1: Pairs, P2: Pairs, T2: Pairs)
    requires Extends(h, P, T, P1, T1) && Extends(h, P1, T1, P2, T2)
    requires Closed(h, P, T, P1, T1) && Closed(h, P1, T1, P2, T2)
    ensures Closed(h, P, T, P2, T2)
  {
    forall pair | pair in P2 && pair !in P ensures ObjectPairOk(h, pair, P2, T2) {
      if pair in P1 {
        assert ObjectPairOk(h, pair, P1, T1);
        RecordMono(h, h.objects[pair.0], h.objects[pair.1], P1, T1, P2, T2);
      }
    }
    forall pair | pair in T2 && pair !in T ensures TablePairOk(h, pair, P2, T2) {
      if pair in T1 {
        assert TablePairOk(h, pair, P1, T1);
        TableMono(h, h.tables[pair.0], h.tables[pair.1], P1, T1, P2, T2);
      }
    }
  }

  ghost predicate BisimilarRecords(h: Heap, l: Record, r: Record) {
    exists P: Pairs, T: Pairs :: IsBisimulation(h, P, T) && RecordMatch(h, l, r, P, T)
  }

  ghost predicate BisimilarSeqs(h: Heap, l: seq<Value>, r: seq<Value>) {
    exists P: Pairs, T: Pairs :: IsBisimulation(h, P, T) && SeqMatch(h, l, r, P, T)
  }

  ghost predicate BisimilarTables(h: Heap, a: Table, b: Table) {
    exists P: Pairs, T: Pairs :: IsBisimulation(h, P, T) && TableMatch(h, a, b, P, T)
  }

  // ----- leaves -----

  /** `runtimeNumericValuesIdentical` */
  method NumericValuesIdentical(l: Value, r: Value) returns (same: bool)
    requires IsNumeric(l.payload) && IsNumeric(r.payload) && l.dims == r.dims && l.numericClass == r.numericClass
    requires ShapeFits(l)
    ensures same == NumericIdentical(l, r)
  {
    var count := CheckedDimensionProduct(l.dims);
    if count == None {
      return false;
    }
    for index := 0 to count.value
      invariant forall i: nat :: i < index ==> ElementMatches(l, r, i)
    {
      var a := NumericElementOf(l, index);
      var b := NumericElementOf(r, index);
      if a == None || b == None
         || !ElementsIdentical(l.numericClass, a.value, IsComplex(l.payload), b.value, IsComplex(r.payload)) {
        assert !ElementMatches(l, r, index);
        return false;
      }
    }
    return true;
  }

  /** The code at a column-major index; an undefined element and an unstored one both read as code zero. */
  method LabelOf(v: Value, index: nat) returns (category: Option<string>)
    requires v.payload.Categorical? && ShapeFits(v)
    ensures category == LabelAt(v, index)
  {
    var offset := ColumnMajorLinearToStorageOffset(v.dims, index);
    return if offset.Some? && offset.value < |v.payload.labels| then v.payload.labels[offset.value] else None;
  }

  /** `runtimeCategoricalValuesEqual` */
  method CategoricalValuesEqual(l: Value, r: Value) returns (same: bool)
    requires l.payload.Categorical? && r.payload.Categorical? && l.dims == r.dims && ShapeFits(l)
    ensures same == CategoricalEqual(l, r)
  {
    if l.payload.ordinal != r.payload.ordinal || (l.payload.ordinal && l.payload.categories != r.payload.categories) {
      return false;
    }
    var count := CheckedDimensionProduct(l.dims);
    for index := 0 to if count.Some? then count.value else 0
      invariant forall i: nat :: i < index ==> LabelAt(l, i) == LabelAt(r, i)
    {
      var a := LabelOf(l, index);
      var b := LabelOf(r, index);
      if a != b {
        return false;
      }
    }
    return true;
  }

  /** The elements of an object array, as `runtimeObjectLogicalElement` finds them. */
  method ObjectElementOf(v: Value, index: nat) returns (element: Option<Value>)
    requires v.payload.Object? && ShapeFits(v)
    ensures element == ObjectElementAt(v, index)
  {
    var offset := ColumnMajorLinearToStorageOffset(v.dims, index);
    if offset == None || !IsClassObject(v.payload) {
      return None;
    }
    if offset.value < |v.payload.parts| {
      return Some(v.payload.parts[offset.value]);
    }
    var count := CheckedDimensionProduct(v.dims);
    return if offset.value == 0 && v.payload.parts == [] && count == Some(1) then Some(v) else None;
  }

  // ----- the comparison -----

  lemma {:induction false} SameKeys(a: set<string>, b: set<string>)
    requires a <= b && |a| == |b|
    ensures a == b
  {
    assert b == a + (b - a);
  }

  lemma {:induction false} CellSpoils(h: Heap, ls: seq<Value>, rs: seq<Value>, i: nat)
    requires i < |ls| == |rs| && !Bisimilar(h, ls[i], rs[i])
    ensures !BisimilarSeqs(h, ls, rs)
  {
    hide IsBisimulation;
    assert forall Q: Pairs, U: Pairs :: SeqMatch(h, ls, rs, Q, U) ==> Match(h, ls[i], rs[i], Q, U);
  }

  /** The loop over cells: equal lengths have been checked. */
  method CompareCells(h: Heap, ls: seq<Value>, rs: seq<Value>, P: Pairs, T: Pairs, ghost l: Value, ghost r: Value)
    returns (same: bool, P': Pairs, T': Pairs)
    requires ValidHeap(h) && InBounds(h, P, T) && |ls| == |rs|
    requires forall i :: 0 <= i < |ls| ==> Valid(h, ls[i]) && Valid(h, rs[i]) && ls[i] < l
    ensures Extends(h, P, T, P', T')
    ensures same ==> SeqMatch(h, ls, rs, P', T') && Closed(h, P, T, P', T')
    ensures !same ==> !BisimilarSeqs(h, ls, rs)
    decreases Unvisited(h, P, T), l, r, 1
  {
    P', T' := P, T;
    for index := 0 to |ls|
      invariant Extends(h, P, T, P', T') && Closed(h, P, T, P', T')
      invariant forall i :: 0 <= i < index ==> Match(h, ls[i], rs[i], P', T')
    {
      ghost var P1, T1 := P', T';
      UnvisitedShrinks(h, P, T, P', T');
      same, P', T' := CompareValues(h, ls[index], rs[index], P', T');
      if !same {
        assert !BisimilarSeqs(h, ls, rs) by { CellSpoils(h, ls, rs, index); }
        return;
      }
      ClosedTrans(h, P, T, P1, T1, P', T');
      forall i | 0 <= i < index ensures Match(h, ls[i], rs[i], P', T') {
        MatchMono(h, ls[i], rs[i], P1, T1, P', T');
      }
    }
    return true, P', T';
  }

  /** Every field of lf outside `names` has a matching field in rf. */
  ghost predicate FieldsDone(h: Heap, lf: Record, rf: Record, names: set<string>, P: Pairs, T: Pairs) {
    forall name :: name in lf.fields && name !in names ==>
      name in rf.fields && Match(h, lf.fields[name], rf.fields[name], P, T)
  }

  lemma {:induction false} FieldsDoneMono(h: Heap, lf: Record, rf: Record, names: set<string>, P: Pairs, T: Pairs,
                                          P': Pairs, T': Pairs)
    requires P <= P' && T <= T' && FieldsDone(h, lf, rf, names, P, T)
    ensures FieldsDone(h, lf, rf, names, P', T')
  {
    forall n | n in lf.fields && n !in names ensures Match(h, lf.fields[n], rf.fields[n], P', T') {
      MatchMono(h, lf.fields[n], rf.fields[n], P, T, P', T');
    }
  }

  lemma {:induction false} FieldsDoneStep(h: Heap, lf: Record, rf: Record, names: set<string>, name: string, P: Pairs,
                                          T: Pairs)
    requires FieldsDone(h, lf, rf, names, P, T) && name in lf.fields && name in rf.fields
    requires Match(h, lf.fields[name], rf.fields[name], P, T)
    ensures FieldsDone(h, lf, rf, names - {name}, P, T)
  {
  }

  /**
   The loop over one field map, in any order: equal sizes have been checked.
   Either the visited sets have grown since `fuel` was taken, or the fields are
   part of the value l.
   */
  method CompareFields(h: Heap, lf: Record, rf: Record, P: Pairs, T: Pairs, ghost fuel: nat, ghost l: Value,
                       ghost r: Value)
    returns (same: bool, P': Pairs, T': Pairs)
    requires ValidHeap(h) && InBounds(h, P, T) && |lf.fields| == |rf.fields|
    requires ValidRecord(h, lf) && ValidRecord(h, rf)
    requires Unvisited(h, P, T) <= fuel
    requires Unvisited(h, P, T) < fuel || forall name :: name in lf.fields ==> lf.fields[name] < l
    ensures Extends(h, P, T, P', T')
    ensures same ==> RecordMatch(h, lf, rf, P', T') && Closed(h, P, T, P', T')
    ensures !same ==> !BisimilarRecords(h, lf, rf)
    decreases fuel, l, r, 1
  {
    P', T' := P, T;
    var names := lf.fields.Keys;
    while names != {}
      invariant names <= lf.fields.Keys
      invariant Extends(h, P, T, P', T') && Closed(h, P, T, P', T')
      invariant FieldsDone(h, lf, rf, names, P', T')
      decreases names
    {
      var name :| name in names;
      ghost var before := names;
      names := names - {name};
      assert forall Q: Pairs, U: Pairs :: RecordMatch(h, lf, rf, Q, U) ==>
        name in rf.fields && Match(h, lf.fields[name], rf.fields[name], Q, U);
      if name !in rf.fields {
        same := false;
        return;
      }
      ghost var P1, T1 := P', T';
      UnvisitedShrinks(h, P, T, P', T');
      same, P', T' := CompareValues(h, lf.fields[name], rf.fields[name], P', T');
      if !same {
        return;
      }
      ClosedTrans(h, P, T, P1, T1, P', T');
      FieldsDoneMono(h, lf, rf, before, P1, T1, P', T');
      FieldsDoneStep(h, lf, rf, before, name, P', T');
    }
    SameKeys(lf.fields.Keys, rf.fields.Keys);
    return true, P', T';
  }

  lemma {:induction false} FieldCountsDiffer(h: Heap, l: Record, r: Record)
    requires ValidHeap(h) && ValidRecord(h, l) && ValidRecord(h, r) && |l.fields| != |r.fields|
    ensures !BisimilarRecords(h, l, r)
  {
    hide Match, Valid, ValidHeap;
    assert |l.fields.Keys| == |l.fields| && |r.fields.Keys| == |r.fields|;
  }

  /** The first n structure elements match. */
  ghost predicate RecordsDone(h: Heap, ls: seq<Record>, rs: seq<Record>, n: nat, P: Pairs, T: Pairs) {
    n <= |ls| == |rs| && forall i :: 0 <= i < n ==> RecordMatch(h, ls[i], rs[i], P, T)
  }

  lemma {:induction false} RecordsDoneStep(h: Heap, ls: seq<Record>, rs: seq<Record>, n: nat, P: Pairs, T: Pairs,
                                           P': Pairs, T': Pairs)
    requires P <= P' && T <= T' && RecordsDone(h, ls, rs, n, P, T) && n < |ls| && RecordMatch(h, ls[n], rs[n], P', T')
    ensures RecordsDone(h, ls, rs, n + 1, P', T')
  {
    forall i | 0 <= i < n ensures RecordMatch(h, ls[i], rs[i], P', T') { RecordMono(h, ls[i], rs[i], P, T, P', T'); }
  }

  /** The loop over structure elements. */
  method CompareStructs(h: Heap, ls: seq<Record>, rs: seq<Record>, P: Pairs, T: Pairs, ghost l: Value, ghost r: Value)
    returns (same: bool, P': Pairs, T': Pairs)
    requires ValidHeap(h) && InBounds(h, P, T) && |ls| == |rs|
    requires forall i :: 0 <= i < |ls| ==> ValidRecord(h, ls[i]) && ValidRecord(h, rs[i])
    requires forall i, name :: 0 <= i < |ls| && name in ls[i].fields ==> ls[i].fields[name] < l
    ensures Extends(h, P, T, P', T')
    ensures same ==> Closed(h, P, T, P', T') && RecordsDone(h, ls, rs, |ls|, P', T')
    ensures !same ==> exists i :: 0 <= i < |ls| && !BisimilarRecords(h, ls[i], rs[i])
    decreases Unvisited(h, P, T), l, r, 2
  {
    hide ValidHeap, ValidRecord, RecordMatch, Closed, BisimilarRecords, Unvisited, InBounds;
    P', T' := P, T;
    assert Closed(h, P, T, P, T) by { NothingNew(h, P, T); }
    assert Extends(h, P, T, P, T);
    for offset := 0 to |ls|
      invariant Extends(h, P, T, P', T') && Closed(h, P, T, P', T') && RecordsDone(h, ls, rs, offset, P', T')
    {
      if |ls[offset].fields| != |rs[offset].fields| {
        FieldCountsDiffer(h, ls[offset], rs[offset]);
        same := false;
        return;
      }
      ghost var P1, T1 := P', T';
      UnvisitedShrinks(h, P, T, P', T');
      same, P', T' := CompareFields(h, ls[offset], rs[offset], P', T', Unvisited(h, P, T), l, r);
      if !same {
        return;
      }
      ClosedTrans(h, P, T, P1, T1, P', T');
      RecordsDoneStep(h, ls, rs, offset, P1, T1, P', T');
    }
    return true, P', T';
  }

  lemma {:induction false} NothingNew(h: Heap, P: Pairs, T: Pairs)
    ensures Closed(h, P, T, P, T)
  {
  }

  /** The first n elements of two object arrays match. */
  ghost predicate PartsDone(h: Heap, l: Value, r: Value, n: nat, P: Pairs, T: Pairs)
    requires IsArrayComparison(l, r) && l.dims == r.dims
  {
    forall i: nat :: i < n ==> PartMatch(h, l, r, i, P, T)
  }

  lemma {:induction false} PartsDoneStep(h: Heap, l: Value, r: Value, n: nat, P: Pairs, T: Pairs, P': Pairs, T': Pairs)
    requires IsArrayComparison(l, r) && l.dims == r.dims && P <= P' && T <= T' && PartsDone(h, l, r, n, P, T)
    requires PartMatch(h, l, r, n, P', T')
    ensures PartsDone(h, l, r, n + 1, P', T')
  {
    hide Match, ObjectElementAt;
    forall i: nat | i < n ensures PartMatch(h, l, r, i, P', T') {
      assert PartMatch(h, l, r, i, P, T);
      MatchMono(h, ObjectElementAt(l, i).value, ObjectElementAt(r, i).value, P, T, P', T');
    }
  }

  /** An element without a match spoils the whole array, whatever is assumed. */
  lemma {:induction false} PartSpoils(h: Heap, l: Value, r: Value, i: nat)
    requires IsArrayComparison(l, r) && l.dims == r.dims && i < ObjectElementCount(l)
    requires ObjectElementAt(l, i).Some? && ObjectElementAt(r, i).Some? ==>
      !Bisimilar(h, ObjectElementAt(l, i).value, ObjectElementAt(r, i).value)
    ensures forall Q: Pairs, U: Pairs :: IsBisimulation(h, Q, U) ==> !ObjectMatch(h, l, r, Q, U)
  {
    forall Q: Pairs, U: Pairs | IsBisimulation(h, Q, U) ensures !ObjectMatch(h, l, r, Q, U) {
      assert ObjectMatch(h, l, r, Q, U) ==> PartMatch(h, l, r, i, Q, U);
    }
  }

  /** The loop over the elements of object arrays. */
  method CompareParts(h: Heap, l: Value, r: Value, P: Pairs, T: Pairs)
    returns (same: bool, P': Pairs, T': Pairs)
    requires ValidHeap(h) && InBounds(h, P, T) && Valid(h, l) && Valid(h, r)
    requires IsArrayComparison(l, r) && l.dims == r.dims && ObjectElementCount(l) == ObjectElementCount(r)
    ensures Extends(h, P, T, P', T')
    ensures same ==> Closed(h, P, T, P', T') && PartsDone(h, l, r, ObjectElementCount(l), P', T')
    ensures !same ==> forall Q: Pairs, U: Pairs :: IsBisimulation(h, Q, U) ==> !ObjectMatch(h, l, r, Q, U)
    decreases Unvisited(h, P, T), l, r, 1
  {
    hide ValidHeap, Match, Closed, ObjectMatch, ObjectElementAt, Bisimilar, Unvisited, AllPairs;
    P', T' := P, T;
    var elementCount := ElementCount(l);
    NothingNew(h, P, T);
    for index := 0 to elementCount
      invariant Extends(h, P, T, P', T') && Closed(h, P, T, P', T') && PartsDone(h, l, r, index, P', T')
    {
      var a := ObjectElementOf(l, index);
      var b := ObjectElementOf(r, index);
      if a == None || b == None {
        PartSpoils(h, l, r, index);
        same := false;
        return;
      }
      ArrayElementsSmaller(l, r, index);
      PartsAreValid(h, l, a.value);
      PartsAreValid(h, r, b.value);
      hide Valid, ObjectElementCount, IsArrayComparison;
      ghost var P1, T1 := P', T';
      UnvisitedShrinks(h, P, T, P', T');
      same, P', T' := CompareValues(h, a.value, b.value, P', T');
      if !same {
        PartSpoils(h, l, r, index);
        return;
      }
      ClosedTrans(h, P, T, P1, T1, P', T');
      PartsDoneStep(h, l, r, index, P1, T1, P', T');
    }
    return true, P', T';
  }

  lemma {:induction false} PartsAreValid(h: Heap, v: Value, part: Value)
    requires Valid(h, v) && v.payload.Object? && (part == v || part in v.payload.parts)
    ensures Valid(h, part)
  {
  }

  method ScalarObject(v: Value) returns (scalar: bool)
    ensures scalar == IsScalarObject(v)
  {
    var count := CheckedDimensionProduct(v.dims);
    return IsClassObject(v.payload) && v.payload.parts == [] && count == Some(1);
  }

  method ElementCount(v: Value) returns (n: nat)
    requires v.payload.Object?
    ensures n == ObjectElementCount(v)
  {
    var count := CheckedDimensionProduct(v.dims);
    return if !IsClassObject(v.payload) then 0
      else if v.payload.parts != [] then |v.payload.parts|
      else if count == Some(1) then 1 else 0;
  }

  /** The fields branch: a pair of shared field maps is recorded before it is entered. */
  method CompareObjectFields(h: Heap, l: Value, r: Value, P: Pairs, T: Pairs)
    returns (same: bool, P': Pairs, T': Pairs)
    requires ValidHeap(h) && InBounds(h, P, T) && Valid(h, l) && Valid(h, r)
    requires l.payload.Object? && r.payload.Object? && l.dims == r.dims && !IsArrayComparison(l, r)
    ensures Extends(h, P, T, P', T')
    ensures same ==> ObjectMatch(h, l, r, P', T') && Closed(h, P, T, P', T')
    ensures !same ==> forall Q: Pairs, U: Pairs :: IsBisimulation(h, Q, U) ==> !ObjectMatch(h, l, r, Q, U)
    decreases Unvisited(h, P, T), l, r, 2
  {
    P', T' := P, T;
    same := false;
    var a, b := l.payload, r.payload;
    var lf, rf := FieldsOf(h, a), FieldsOf(h, b);
    ghost var bothShared := a.handleObject && a.shared.Some? && b.shared.Some?;
    if a.className != b.className || a.handleObject != b.handleObject {
      return;
    }
    if |lf.fields| != |rf.fields| {
      assert bothShared ==> forall Q: Pairs, U: Pairs ::
        IsBisimulation(h, Q, U) && (a.shared.value, b.shared.value) in Q ==>
          ObjectPairOk(h, (a.shared.value, b.shared.value), Q, U);
      return;
    }
    if a.handleObject && a.shared.Some? && b.shared.Some? {
      var identity := (a.shared.value, b.shared.value);
      if identity in P {
        return true, P', T';
      }
      P' := P + {identity};
      UnvisitedShrinks(h, P, T, P', T');
      ghost var P1 := P';
      same, P', T' := CompareFields(h, lf, rf, P', T', Unvisited(h, P, T), l, r);
      if same {
        assert ObjectPairOk(h, identity, P', T');
      } else {
        assert forall Q: Pairs, U: Pairs :: IsBisimulation(h, Q, U) && identity in Q ==>
          ObjectPairOk(h, identity, Q, U);
      }
    } else {
      same, P', T' := CompareFields(h, lf, rf, P, T, Unvisited(h, P, T), l, r);
    }
  }

  method CompareObjects(h: Heap, l: Value, r: Value, P: Pairs, T: Pairs)
    returns (same: bool, P': Pairs, T': Pairs)
    requires ValidHeap(h) && InBounds(h, P, T) && Valid(h, l) && Valid(h, r)
    requires l.payload.Object? && r.payload.Object? && l.dims == r.dims
    ensures Extends(h, P, T, P', T')
    ensures same ==> ObjectMatch(h, l, r, P', T') && Closed(h, P, T, P', T')
    ensures !same ==> forall Q: Pairs, U: Pairs :: IsBisimulation(h, Q, U) ==> !ObjectMatch(h, l, r, Q, U)
    decreases Unvisited(h, P, T), l, r, 3
  {
    var lScalar := ScalarObject(l);
    var rScalar := ScalarObject(r);
    if IsClassObject(l.payload) && IsClassObject(r.payload) && (!lScalar || !rScalar) {
      var lCount := ElementCount(l);
      var rCount := ElementCount(r);
      if l.payload.className != r.payload.className || l.payload.handleObject != r.payload.handleObject
        || lCount != rCount {
        return false, P, T;
      }
      same, P', T' := CompareParts(h, l, r, P, T);
    } else {
      same, P', T' := CompareObjectFields(h, l, r, P, T);
    }
  }

  /** What has been compared of two tables after n variables. */
  ghost predicate TableDone(h: Heap, a: Table, b: Table, n: nat, P: Pairs, T: Pairs) {
    && n <= |a.variables| == |b.variables|
    && (a.timetable ==> Match(h, a.rowTimes, b.rowTimes, P, T))
    && forall i :: 0 <= i < n ==>
         a.variables[i].name == b.variables[i].name && Match(h, a.variables[i].value, b.variables[i].value, P, T)
  }

  lemma {:induction false} TableDoneMono(h: Heap, a: Table, b: Table, n: nat, P: Pairs, T: Pairs, P': Pairs, T': Pairs)
    requires P <= P' && T <= T' && TableDone(h, a, b, n, P, T)
    ensures TableDone(h, a, b, n, P', T')
  {
    hide Match;
    if a.timetable { MatchMono(h, a.rowTimes, b.rowTimes, P, T, P', T'); }
    forall i | 0 <= i < n ensures Match(h, a.variables[i].value, b.variables[i].value, P', T') {
      MatchMono(h, a.variables[i].value, b.variables[i].value, P, T, P', T');
    }
  }

  lemma {:induction false} TableDoneStep(h: Heap, a: Table, b: Table, n: nat, P: Pairs, T: Pairs)
    requires TableDone(h, a, b, n, P, T) && n < |a.variables| && a.variables[n].name == b.variables[n].name
    requires Match(h, a.variables[n].value, b.variables[n].value, P, T)
    ensures TableDone(h, a, b, n + 1, P, T)
  {
    hide Match;
  }

  predicate SameTableHeaders(a: Table, b: Table) {
    && a.rowCount == b.rowCount && |a.variables| == |b.variables|
    && (a.timetable || a.rowNames == b.rowNames)
    && a.dimensionNames == b.dimensionNames && a.description == b.description
  }

  lemma {:induction false} TableMatchIff(h: Heap, a: Table, b: Table, P: Pairs, T: Pairs)
    requires a.timetable == b.timetable
    ensures TableMatch(h, a, b, P, T) <==>
      SameTableHeaders(a, b) && TableDone(h, a, b, |a.variables|, P, T) && Match(h, a.userData, b.userData, P, T)
  {
    hide Match;
  }

  /** A header that differs spoils the whole table, and so does one value without a match. */
  lemma {:induction false} TableSpoils(h: Heap, a: Table, b: Table)
    requires a.timetable == b.timetable
    ensures !SameTableHeaders(a, b) ==> !BisimilarTables(h, a, b)
    ensures a.timetable && !Bisimilar(h, a.rowTimes, b.rowTimes) ==> !BisimilarTables(h, a, b)
    ensures !Bisimilar(h, a.userData, b.userData) ==> !BisimilarTables(h, a, b)
  {
    hide IsBisimulation, Match;
  }

  lemma {:induction false} VariablesSpoil(h: Heap, a: Table, b: Table, i: nat)
    requires i < |a.variables| && VariableSpoils(h, a, b, i)
    ensures !BisimilarTables(h, a, b)
  {
    hide IsBisimulation, Match;
  }

  ghost predicate VariableSpoils(h: Heap, a: Table, b: Table, i: int)
    requires 0 <= i < |a.variables|
  {
    |a.variables| == |b.variables| ==>
      a.variables[i].name != b.variables[i].name || !Bisimilar(h, a.variables[i].value, b.variables[i].value)
  }

  /** The loop over the variables of two tables. */
  method CompareVariableValues(h: Heap, a: Table, b: Table, P: Pairs, T: Pairs, ghost fuel: nat, ghost l: Value,
                               ghost r: Value)
    returns (same: bool, P': Pairs, T': Pairs)
    requires ValidHeap(h) && InBounds(h, P, T) && ValidTable(h, a) && ValidTable(h, b)
    requires Unvisited(h, P, T) < fuel && TableDone(h, a, b, 0, P, T)
    ensures Extends(h, P, T, P', T')
    ensures same ==> Closed(h, P, T, P', T') && TableDone(h, a, b, |a.variables|, P', T')
    ensures !same ==> exists i :: 0 <= i < |a.variables| && VariableSpoils(h, a, b, i)
    decreases fuel, l, r, 0
  {
    P', T' := P, T;
    assert Closed(h, P, T, P, T) by { NothingNew(h, P, T); }
    for index := 0 to |a.variables|
      invariant Extends(h, P, T, P', T') && Closed(h, P, T, P', T') && TableDone(h, a, b, index, P', T')
    {
      hide ValidHeap, Valid, Match, Closed, Bisimilar, Unvisited;
      if a.variables[index].name != b.variables[index].name {
        assert VariableSpoils(h, a, b, index);
        same := false;
        return;
      }
      ghost var P1, T1 := P', T';
      UnvisitedShrinks(h, P, T, P', T');
      same, P', T' := CompareValues(h, a.variables[index].value, b.variables[index].value, P', T');
      if !same {
        assert VariableSpoils(h, a, b, index);
        return;
      }
      ClosedTrans(h, P, T, P1, T1, P', T');
      TableDoneMono(h, a, b, index, P1, T1, P', T');
      TableDoneStep(h, a, b, index, P', T');
    }
    return true, P', T';
  }

  /** `runtimeTableValuesEqual` and `runtimeTimetableValuesEqual`, with the comparison as their callback. */
  method CompareTables(h: Heap, a: Table, b: Table, P: Pairs, T: Pairs, ghost fuel: nat, ghost l: Value, ghost r: Value)
    returns (same: bool, P': Pairs, T': Pairs)
    requires ValidHeap(h) && InBounds(h, P, T) && ValidTable(h, a) && ValidTable(h, b)
    requires a.timetable == b.timetable && Unvisited(h, P, T) < fuel
    ensures Extends(h, P, T, P', T')
    ensures same ==> TableMatch(h, a, b, P', T') && Closed(h, P, T, P', T')
    ensures !same ==> !BisimilarTables(h, a, b)
    decreases fuel, l, r, 1
  {
    hide ValidHeap, Valid, Match, TableMatch, Closed, Bisimilar, BisimilarTables, Unvisited, AllPairs, VariableSpoils;
    P', T' := P, T;
    NothingNew(h, P, T);
    TableSpoils(h, a, b);
    if a.rowCount != b.rowCount || |a.variables| != |b.variables|
       || (!a.timetable && a.rowNames != b.rowNames)
       || a.dimensionNames != b.dimensionNames || a.description != b.description {
      return false, P', T';
    }
    if a.timetable {
      same, P', T' := CompareValues(h, a.rowTimes, b.rowTimes, P', T');
      if !same {
        return;
      }
    }
    ghost var P1, T1 := P', T';
    UnvisitedShrinks(h, P, T, P1, T1);
    same, P', T' := CompareVariableValues(h, a, b, P', T', fuel, l, r);
    if !same {
      ghost var i :| 0 <= i < |a.variables| && VariableSpoils(h, a, b, i);
      VariablesSpoil(h, a, b, i);
      return;
    }
    ghost var P2, T2 := P', T';
    ClosedTrans(h, P, T, P1, T1, P2, T2);
    UnvisitedShrinks(h, P, T, P2, T2);
    same, P', T' := CompareValues(h, a.userData, b.userData, P', T');
    if !same {
      return;
    }
    ClosedTrans(h, P, T, P2, T2, P', T');
    TableDoneMono(h, a, b, |a.variables|, P2, T2, P', T');
    TableMatchIff(h, a, b, P', T');
  }

  /** A tabular pair is recorded by its storages before it is entered. */
  method CompareTabular(h: Heap, l: Value, r: Value, P: Pairs, T: Pairs)
    returns (same: bool, P': Pairs, T': Pairs)
    requires ValidHeap(h) && InBounds(h, P, T) && Valid(h, l) && Valid(h, r)
    requires l.payload.Tabular? && r.payload.Tabular? && SameHeader(l, r)
    ensures Extends(h, P, T, P', T')
    ensures same ==> Match(h, l, r, P', T') && Closed(h, P, T, P', T')
    ensures !same ==> !Bisimilar(h, l, r)
    decreases Unvisited(h, P, T), l, r, 2
  {
    var pair := (l.payload.storage, r.payload.storage);
    if h.tables[pair.0].timetable != h.tables[pair.1].timetable {
      return false, P, T;
    }
    if pair in T {
      return true, P, T;
    }
    P', T' := P, T + {pair};
    UnvisitedShrinks(h, P, T, P', T');
    same, P', T' := CompareTables(h, h.tables[pair.0], h.tables[pair.1], P', T', Unvisited(h, P, T), l, r);
    if same {
      assert TablePairOk(h, pair, P', T');
    } else {
      assert forall Q: Pairs, U: Pairs :: IsBisimulation(h, Q, U) && pair in U ==> TablePairOk(h, pair, Q, U);
    }
  }

  /** `runtimeValuesEqualImpl` */
  method CompareValues(h: Heap, l: Value, r: Value, P: Pairs, T: Pairs)
    returns (same: bool, P': Pairs, T': Pairs)
    requires ValidHeap(h) && InBounds(h, P, T) && Valid(h, l) && Valid(h, r)
    ensures Extends(h, P, T, P', T')
    ensures same ==> Match(h, l, r, P', T') && Closed(h, P, T, P', T')
    ensures !same ==> !Bisimilar(h, l, r)
    decreases Unvisited(h, P, T), l, r, 4
  {
    hide ValidHeap, Closed, Unvisited, AllPairs, IsBisimulation, NumericIdentical, CategoricalEqual, ObjectMatch;
    NothingNew(h, P, T);
    P', T' := P, T;
    same := false;
    if KindOf(l.payload) != KindOf(r.payload) || l.numericClass != r.numericClass || l.dims != r.dims {
      return;
    }
    if IsNumeric(l.payload) {
      if IsNumeric(r.payload) {
        same := NumericValuesIdentical(l, r);
      }
      return;
    }
    if l.payload.Categorical? || r.payload.Categorical? {
      if l.payload.Categorical? && r.payload.Categorical? {
        same := CategoricalValuesEqual(l, r);
      }
      return;
    }
    if l.payload.Tabular? || r.payload.Tabular? {
      if l.payload.Tabular? && r.payload.Tabular? {
        same, P', T' := CompareTabular(h, l, r, P, T);
      }
      return;
    }
    match l.payload
    case Missing => same := true;
    case MissingArray => same := true;
    case Characters(units) => same := units == r.payload.units;
    case Strings(texts) => same := texts == r.payload.texts;
    case Cell(cells) =>
      assert forall Q: Pairs, U: Pairs :: Match(h, l, r, Q, U) ==> SeqMatch(h, cells, r.payload.cells, Q, U);
      if |cells| == |r.payload.cells| {
        same, P', T' := CompareCells(h, cells, r.payload.cells, P, T, l, r);
      }
    case CommaList(items) =>
      assert forall Q: Pairs, U: Pairs :: Match(h, l, r, Q, U) ==> SeqMatch(h, items, r.payload.items, Q, U);
      if |items| == |r.payload.items| {
        same, P', T' := CompareCells(h, items, r.payload.items, P, T, l, r);
      }
    case Function(handle) =>
      same := handle.Some? && r.payload.handle.Some?
        && h.functions[handle.value].identity == h.functions[r.payload.handle.value].identity;
    case NameValue(name, boxed) =>
      if name == r.payload.name && |boxed| == 1 && |r.payload.boxed| == 1 {
        same, P', T' := CompareValues(h, boxed[0], r.payload.boxed[0], P, T);
        assert forall Q: Pairs, U: Pairs :: Match(h, l, r, Q, U) ==> Match(h, boxed[0], r.payload.boxed[0], Q, U);
      }
    case Struct(order, records) =>
      if order == r.payload.order && |records| == |r.payload.records| {
        same, P', T' := CompareStructs(h, records, r.payload.records, P, T, l, r);
        if !same {
          ghost var i :| 0 <= i < |records| && !BisimilarRecords(h, records[i], r.payload.records[i]);
          assert forall Q: Pairs, U: Pairs :: Match(h, l, r, Q, U) ==>
            RecordMatch(h, records[i], r.payload.records[i], Q, U);
        }
      }
    case Object(_, _, _, _, _, _, _, _) =>
      if r.payload.Object? {
        same, P', T' := CompareObjects(h, l, r, P, T);
        assert forall Q: Pairs, U: Pairs :: Match(h, l, r, Q, U) ==> ObjectMatch(h, l, r, Q, U);
      }
  }

  /**
   `runtimeValuesEqual`: on every heap, cyclic or not, it returns, and its
   answer is true exactly when the values are bisimilar.
   */
  method ValuesEqual(h: Heap, l: Value, r: Value) returns (same: bool)
    requires ValidHeap(h) && Valid(h, l) && Valid(h, r)
    ensures same <==> Bisimilar(h, l, r)
  {
    var P, T;
    same, P, T := CompareValues(h, l, r, {}, {});
    if same {
      assert IsBisimulation(h, P, T);
    }
  }
}
