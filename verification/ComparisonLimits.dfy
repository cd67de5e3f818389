/**
 Where `runtimeValuesEqual` stops short of an equality: which values equal
 themselves, what it cannot see, and why the value contract is needed for it to
 return at all.
 */
module ComparisonLimits {
  import opened Wrappers
  import opened Layout
  import opened RuntimeValues
  import opened Bisimulation

  // ----- self-equality -----

  ghost predicate ElementSelfEqual(c: NumericClass, e: NumericElement, complex: bool) {
    IsIntegerClass(c) || (e.re != NaN && (complex ==> e.im != NaN))
  }

  /**
   Nothing in v's own tree differs from itself: no NaN, no missing payload
   element, no function handle without a descriptor; shared field maps are in
   S and table storages in U.
   */
  ghost predicate Settled(h: Heap, v: Value, S: set<Id>, U: set<Id>)
    decreases v
  {
    match v.payload
    case Dense(_, complex, _) => SettledNumeric(v, complex)
    case Sparse(complex, _) => SettledNumeric(v, complex)
    case Cell(cells) => forall i :: 0 <= i < |cells| ==> Settled(h, cells[i], S, U)
    case CommaList(items) => forall i :: 0 <= i < |items| ==> Settled(h, items[i], S, U)
    case NameValue(_, boxed) => |boxed| == 1 && Settled(h, boxed[0], S, U)
    case Function(handle) => handle.Some? && handle.value in h.functions
    case Struct(_, records) => forall i :: 0 <= i < |records| ==> SettledRecord(h, records[i], S, U)
    case Tabular(storage) => storage in h.tables && storage in U
    case Object(_, handleObject, shared, inline, parts, _, _, _) =>
      if IsClassObject(v.payload) && !IsScalarObject(v) then
        forall i: nat :: i < ObjectElementCount(v) ==>
          ObjectElementAt(v, i).Some? && Settled(h, ObjectElementAt(v, i).value, S, U)
      else if handleObject && shared.Some? then shared.value in S
      else SettledRecord(h, inline, S, U)
    case _ => true
  }

  ghost predicate SettledNumeric(v: Value, complex: bool)
    requires IsNumeric(v.payload)
  {
    && PrefixesFit(v.dims)
    && forall i: nat :: i < Product(v.dims) ==>
         NumericElementAt(v, i).Some? && ElementSelfEqual(v.numericClass, NumericElementAt(v, i).value, complex)
  }

  ghost predicate SettledRecord(h: Heap, r: Record, S: set<Id>, U: set<Id>)
    decreases r
  {
    forall name :: name in r.fields ==> Settled(h, r.fields[name], S, U)
  }

  ghost predicate SettledTable(h: Heap, t: Table, S: set<Id>, U: set<Id>) {
    && (t.timetable ==> Settled(h, t.rowTimes, S, U))
    && Settled(h, t.userData, S, U)
    && forall i :: 0 <= i < |t.variables| ==> Settled(h, t.variables[i].value, S, U)
  }

  /** S and U are closed: whatever they contain is settled again. */
  ghost predicate SettledStores(h: Heap, S: set<Id>, U: set<Id>) {
    && (forall a :: a in S ==> a in h.objects && SettledRecord(h, h.objects[a], S, U))
    && (forall a :: a in U ==> a in h.tables && SettledTable(h, h.tables[a], S, U))
  }

  ghost function Diagonal(S: set<Id>): Pairs { set a | a in S :: (a, a) }

  ghost function OnDiagonal(P: Pairs): set<Id> { set p | p in P && p.0 == p.1 :: p.0 }

  lemma {:induction false} NumericSettles(v: Value)
    requires IsNumeric(v.payload)
    ensures SettledNumeric(v, IsComplex(v.payload)) <==> NumericIdentical(v, v)
  {
    assert forall i: nat :: ElementMatches(v, v, i) <==>
      (NumericElementAt(v, i).Some?
        && ElementSelfEqual(v.numericClass, NumericElementAt(v, i).value, IsComplex(v.payload)));
  }

  lemma {:induction false} MatchSettles(h: Heap, v: Value, P: Pairs, T: Pairs)
    requires Match(h, v, v, P, T)
    ensures Settled(h, v, OnDiagonal(P), OnDiagonal(T))
    decreases v
  {
    var S, U := OnDiagonal(P), OnDiagonal(T);
    match v.payload
    case Dense(_, _, _) => NumericSettles(v);
    case Sparse(_, _) => NumericSettles(v);
    case Cell(cells) =>
      forall i | 0 <= i < |cells| ensures Settled(h, cells[i], S, U) { MatchSettles(h, cells[i], P, T); }
    case CommaList(items) =>
      forall i | 0 <= i < |items| ensures Settled(h, items[i], S, U) { MatchSettles(h, items[i], P, T); }
    case NameValue(_, boxed) => MatchSettles(h, boxed[0], P, T);
    case Struct(_, records) =>
      forall i | 0 <= i < |records| ensures SettledRecord(h, records[i], S, U) { RecordSettles(h, records[i], P, T); }
    case Object(_, handleObject, shared, inline, _, _, _, _) =>
      if IsArrayComparison(v, v) {
        forall i: nat | i < ObjectElementCount(v)
          ensures ObjectElementAt(v, i).Some? && Settled(h, ObjectElementAt(v, i).value, S, U)
        {
          assert PartMatch(h, v, v, i, P, T);
          MatchSettles(h, ObjectElementAt(v, i).value, P, T);
        }
      } else if !(handleObject && shared.Some?) {
        RecordSettles(h, inline, P, T);
      }
    case _ =>
  }

  lemma {:induction false} RecordSettles(h: Heap, r: Record, P: Pairs, T: Pairs)
    requires RecordMatch(h, r, r, P, T)
    ensures SettledRecord(h, r, OnDiagonal(P), OnDiagonal(T))
    decreases r
  {
    forall name | name in r.fields ensures Settled(h, r.fields[name], OnDiagonal(P), OnDiagonal(T)) {
      MatchSettles(h, r.fields[name], P, T);
    }
  }

  lemma {:induction false} SettledMatches(h: Heap, v: Value, S: set<Id>, U: set<Id>)
    requires Settled(h, v, S, U)
    ensures Match(h, v, v, Diagonal(S), Diagonal(U))
    decreases v
  {
    var P, T := Diagonal(S), Diagonal(U);
    match v.payload
    case Dense(_, _, _) => NumericSettles(v);
    case Sparse(_, _) => NumericSettles(v);
    case Cell(cells) =>
      forall i | 0 <= i < |cells| ensures Match(h, cells[i], cells[i], P, T) { SettledMatches(h, cells[i], S, U); }
    case CommaList(items) =>
      forall i | 0 <= i < |items| ensures Match(h, items[i], items[i], P, T) { SettledMatches(h, items[i], S, U); }
    case NameValue(_, boxed) => SettledMatches(h, boxed[0], S, U);
    case Struct(_, records) =>
      forall i | 0 <= i < |records| ensures RecordMatch(h, records[i], records[i], P, T) {
        SettledRecordMatches(h, records[i], S, U);
      }
    case Object(_, handleObject, shared, inline, _, _, _, _) =>
      if IsArrayComparison(v, v) {
        forall i: nat | i < ObjectElementCount(v) ensures PartMatch(h, v, v, i, P, T) {
          SettledMatches(h, ObjectElementAt(v, i).value, S, U);
        }
      } else if !(handleObject && shared.Some?) {
        SettledRecordMatches(h, inline, S, U);
      }
    case _ =>
  }

  lemma {:induction false} SettledRecordMatches(h: Heap, r: Record, S: set<Id>, U: set<Id>)
    requires SettledRecord(h, r, S, U)
    ensures RecordMatch(h, r, r, Diagonal(S), Diagonal(U))
    decreases r
  {
    forall name | name in r.fields ensures Match(h, r.fields[name], r.fields[name], Diagonal(S), Diagonal(U)) {
      SettledMatches(h, r.fields[name], S, U);
    }
  }

  lemma {:induction false} BisimulationSettles(h: Heap, P: Pairs, T: Pairs)
    requires IsBisimulation(h, P, T)
    ensures SettledStores(h, OnDiagonal(P), OnDiagonal(T))
  {
    var S, U := OnDiagonal(P), OnDiagonal(T);
    forall a | a in S ensures a in h.objects && SettledRecord(h, h.objects[a], S, U) {
      assert ObjectPairOk(h, (a, a), P, T);
      RecordSettles(h, h.objects[a], P, T);
    }
    forall a | a in U ensures a in h.tables && SettledTable(h, h.tables[a], S, U) {
      assert TablePairOk(h, (a, a), P, T);
      var t := h.tables[a];
      if t.timetable { MatchSettles(h, t.rowTimes, P, T); }
      MatchSettles(h, t.userData, P, T);
      forall i | 0 <= i < |t.variables| ensures Settled(h, t.variables[i].value, S, U) {
        MatchSettles(h, t.variables[i].value, P, T);
      }
    }
  }

  lemma {:induction false} SettledIsBisimulation(h: Heap, S: set<Id>, U: set<Id>)
    requires SettledStores(h, S, U)
    ensures IsBisimulation(h, Diagonal(S), Diagonal(U))
  {
    forall pair | pair in Diagonal(S) ensures ObjectPairOk(h, pair, Diagonal(S), Diagonal(U)) {
      SettledRecordMatches(h, h.objects[pair.0], S, U);
    }
    forall pair | pair in Diagonal(U) ensures TablePairOk(h, pair, Diagonal(S), Diagonal(U)) {
      var t := h.tables[pair.0];
      if t.timetable { SettledMatches(h, t.rowTimes, S, U); }
      SettledMatches(h, t.userData, S, U);
      forall i | 0 <= i < |t.variables|
        ensures Match(h, t.variables[i].value, t.variables[i].value, Diagonal(S), Diagonal(U))
      {
        SettledMatches(h, t.variables[i].value, S, U);
      }
    }
  }

  /**
   A value equals itself exactly when nothing reachable from it is a NaN, a
   ragged payload or a function handle without descriptor.
   */
  lemma {:induction false} SelfEqualIff(h: Heap, v: Value)
    ensures Bisimilar(h, v, v) <==> exists S: set<Id>, U: set<Id> :: SettledStores(h, S, U) && Settled(h, v, S, U)
  {
    if Bisimilar(h, v, v) {
      var P: Pairs, T: Pairs :| IsBisimulation(h, P, T) && Match(h, v, v, P, T);
      BisimulationSettles(h, P, T);
      MatchSettles(h, v, P, T);
    }
    if S: set<Id>, U: set<Id> :| SettledStores(h, S, U) && Settled(h, v, S, U) {
      SettledIsBisimulation(h, S, U);
      SettledMatches(h, v, S, U);
    }
  }

  /** The number NaN is not equal to itself, so equality is not reflexive on every value. */
  lemma {:induction false} NaNIsNotSelfEqual(h: Heap)
    ensures !Bisimilar(h, Value(Double, [1, 1], Dense(NumberForm, false, [NumericElement(0, 0, NaN, Zero(false))])),
                          Value(Double, [1, 1], Dense(NumberForm, false, [NumericElement(0, 0, NaN, Zero(false))])))
  {
    var v := Value(Double, [1, 1], Dense(NumberForm, false, [NumericElement(0, 0, NaN, Zero(false))]));
    assert Product(v.dims) == 1 by { assert v.dims[1..] == [1]; }
    assert !ElementMatches(v, v, 0);
  }

  // ----- what the comparison does not look at -----

  /** Two valid objects that the comparison takes field by field, and that have no fields. */
  ghost predicate BothFieldless(h: Heap, l: Value, r: Value) {
    && Valid(h, l) && Valid(h, r) && l.payload.Object? && r.payload.Object? && !IsArrayComparison(l, r)
    && FieldsOf(h, l.payload).fields == map[] && FieldsOf(h, r.payload).fields == map[]
  }

  /**
   Objects without fields are equal as soon as shape, class and handle-ness agree.  Whatever else tells them apart is
   not looked at: the identity of a metadata descriptor, the elements of a metadata array, the member of an
   enumeration, the instant of a date.
   */
  lemma {:induction false} OnlyFieldsAreCompared(h: Heap, l: Value, r: Value)
    requires BothFieldless(h, l, r)
    ensures Bisimilar(h, l, r) <==>
      && SameHeader(l, r) && l.payload.className == r.payload.className
      && l.payload.handleObject == r.payload.handleObject
  {
    var p, q := l.payload, r.payload;
    if SameHeader(l, r) && p.className == q.className && p.handleObject == q.handleObject {
      var P: Pairs := if p.handleObject && p.shared.Some? && q.shared.Some? then {(p.shared.value, q.shared.value)}
        else {};
      assert IsBisimulation(h, P, {});
      assert ObjectMatch(h, l, r, P, {});
      assert Match(h, l, r, P, {});
    } else if Bisimilar(h, l, r) {
      var P: Pairs, T: Pairs :| IsBisimulation(h, P, T) && Match(h, l, r, P, T);
      assert ObjectMatch(h, l, r, P, T);
    }
  }

  /** A scalar date or duration that meets the value contract: a value object without fields. */
  ghost predicate ScalarTemporal(h: Heap, v: Value) {
    && Valid(h, v) && v.payload.Object? && v.payload.className.TemporalClass? && IsScalarObject(v)
    && !v.payload.handleObject && v.payload.inline.fields == map[]
  }

  /** Dates keep their instant outside the fields: any two scalar ones of one class and shape are equal. */
  lemma {:induction false} TemporalPayloadIgnored(h: Heap, l: Value, r: Value)
    requires ScalarTemporal(h, l) && ScalarTemporal(h, r)
    ensures Bisimilar(h, l, r) <==> SameHeader(l, r) && l.payload.className == r.payload.className
  {
    OnlyFieldsAreCompared(h, l, r);
  }

  /** Metadata descriptors and arrays of them carry no fields, so only class and shape are compared. */
  lemma {:induction false} MetadataIdentityIgnored(h: Heap, l: Value, r: Value)
    requires Valid(h, l) && Valid(h, r) && l.payload.Object? && r.payload.Object?
    requires l.payload.className.MetadataClass? && r.payload.className.MetadataClass?
    requires FieldsOf(h, l.payload).fields == map[] && FieldsOf(h, r.payload).fields == map[]
    ensures Bisimilar(h, l, r) <==>
      && SameHeader(l, r) && l.payload.className == r.payload.className
      && l.payload.handleObject == r.payload.handleObject
  {
    OnlyFieldsAreCompared(h, l, r);
  }

  // ----- which graphs outside the contract make the comparison recurse for ever -----

  /**
   The comparison of two objects field by field records nothing, as it does only when both have shared maps, and the
   subcomparison of one common field is (l', r').  The fields of a map come in no specified order, so any common field
   can be the first.
   */
  ghost predicate UnrecordedCall(h: Heap, l: Value, r: Value, l': Value, r': Value) {
    && SameHeader(l, r) && l.payload.Object? && r.payload.Object? && !IsArrayComparison(l, r)
    && l.payload.className == r.payload.className && l.payload.handleObject == r.payload.handleObject
    && (l.payload.shared.Some? ==> l.payload.shared.value in h.objects)
    && (r.payload.shared.Some? ==> r.payload.shared.value in h.objects)
    && !(l.payload.handleObject && l.payload.shared.Some? && r.payload.shared.Some?)
    && var lf, rf := FieldsOf(h, l.payload).fields, FieldsOf(h, r.payload).fields;
       |lf| == |rf| && exists name :: name in lf && name in rf && lf[name] == l' && rf[name] == r'
  }

  /** n nested subcomparisons, none of which can finish before the next. */
  ghost predicate NestedCalls(h: Heap, l: Value, r: Value, n: nat)
    decreases n
  {
    n == 0 || exists l', r' :: UnrecordedCall(h, l, r, l', r') && NestedCalls(h, l', r', n - 1)
  }

  /** The comparison of l and r nests to every depth. */
  ghost predicate Diverges(h: Heap, l: Value, r: Value) {
    forall n: nat :: NestedCalls(h, l, r, n)
  }

  ghost predicate LeadsInto(h: Heap, l: Value, r: Value, C: set<(Value, Value)>) {
    exists l', r' :: (l', r') in C && UnrecordedCall(h, l, r, l', r')
  }

  /** Every pair in C leads to a pair in C. */
  ghost predicate Endless(h: Heap, C: set<(Value, Value)>) {
    forall l, r :: (l, r) in C ==> LeadsInto(h, l, r, C)
  }

  /** v and the objects kept inside it, down to shared maps. */
  ghost function Inside(v: Value): set<Value>
    decreases v
  {
    {v} + if v.payload.Object? then InsideRecord(v.payload.inline) else {}
  }

  ghost function InsideRecord(r: Record): set<Value>
    decreases r
  {
    set name, w | name in r.fields && w in Inside(r.fields[name]) :: w
  }

  /** Everything a comparison that starts at v can get to through fields. */
  ghost function Universe(h: Heap, v: Value): set<Value> {
    Inside(v) + set a, w | a in h.objects && w in InsideRecord(h.objects[a]) :: w
  }

  lemma {:induction false} InsideClosed(v: Value, w: Value, name: string)
    requires w in Inside(v) && w.payload.Object? && name in w.payload.inline.fields
    ensures w.payload.inline.fields[name] in Inside(v)
    decreases v
  {
    if w == v {
      assert w.payload.inline.fields[name] in Inside(w.payload.inline.fields[name]);
    } else {
      InsideRecordClosed(v.payload.inline, w, name);
    }
  }

  lemma {:induction false} InsideRecordClosed(r: Record, w: Value, name: string)
    requires w in InsideRecord(r) && w.payload.Object? && name in w.payload.inline.fields
    ensures w.payload.inline.fields[name] in InsideRecord(r)
    decreases r
  {
    var field :| field in r.fields && w in Inside(r.fields[field]);
    InsideClosed(r.fields[field], w, name);
  }

  /** A field of something in the universe is in it too. */
  lemma {:induction false} UniverseClosed(h: Heap, v: Value, w: Value, name: string)
    requires w in Universe(h, v) && w.payload.Object?
    requires w.payload.shared.Some? ==> w.payload.shared.value in h.objects
    requires name in FieldsOf(h, w.payload).fields
    ensures FieldsOf(h, w.payload).fields[name] in Universe(h, v)
  {
    var part := FieldsOf(h, w.payload).fields[name];
    if w.payload.handleObject && w.payload.shared.Some? {
      assert part in Inside(part);
      assert part in InsideRecord(h.objects[w.payload.shared.value]);
    } else if w in Inside(v) {
      InsideClosed(v, w, name);
    } else {
      var a :| a in h.objects && w in InsideRecord(h.objects[a]);
      InsideRecordClosed(h.objects[a], w, name);
    }
  }

  lemma {:induction false} NestedLess(h: Heap, l: Value, r: Value, n: nat, m: nat)
    requires m <= n && NestedCalls(h, l, r, n)
    ensures NestedCalls(h, l, r, m)
    decreases n
  {
    hide UnrecordedCall;
    if m > 0 {
      var l', r' :| UnrecordedCall(h, l, r, l', r') && NestedCalls(h, l', r', n - 1);
      NestedLess(h, l', r', n - 1, m - 1);
    }
  }

  ghost predicate SomeNests(h: Heap, C: set<(Value, Value)>, n: nat) {
    exists p :: p in C && NestedCalls(h, p.0, p.1, n)
  }

  /** If to every depth some pair of a finite set nests that far, then one of them nests to every depth. */
  lemma {:induction false} OneDiverges(h: Heap, C: set<(Value, Value)>)
    requires forall n: nat :: SomeNests(h, C, n)
    ensures exists p :: p in C && Diverges(h, p.0, p.1)
    decreases C
  {
    hide NestedCalls;
    assert SomeNests(h, C, 0);
    var q :| q in C;
    if m: nat :| !NestedCalls(h, q.0, q.1, m) {
      var rest := C - {q};
      forall n: nat ensures SomeNests(h, rest, n) {
        assert SomeNests(h, C, n + m);
        var p :| p in C && NestedCalls(h, p.0, p.1, n + m);
        NestedLess(h, p.0, p.1, n + m, n);
        NestedLess(h, p.0, p.1, n + m, m);
        assert p in rest;
      }
      OneDiverges(h, rest);
    }
  }

  /** The pairs that the comparison of l and r can get to and that diverge. */
  ghost function Diverging(h: Heap, l: Value, r: Value): set<(Value, Value)> {
    set a, b | a in Universe(h, l) && b in Universe(h, r) && Diverges(h, a, b) :: (a, b)
  }

  lemma {:induction false} DivergingIsEndless(h: Heap, l: Value, r: Value)
    ensures Endless(h, Diverging(h, l, r))
  {
    hide UnrecordedCall, Universe;
    forall a, b | (a, b) in Diverging(h, l, r)
      ensures LeadsInto(h, a, b, Diverging(h, l, r))
    {
      var next := set a', b' | a' in Universe(h, l) && b' in Universe(h, r) && UnrecordedCall(h, a, b, a', b') ::
        (a', b');
      forall n: nat ensures SomeNests(h, next, n) {
        assert NestedCalls(h, a, b, n + 1);
        var a', b' :| UnrecordedCall(h, a, b, a', b') && NestedCalls(h, a', b', n);
        CallStaysInside(h, l, r, a, b, a', b');
        assert (a', b') in next;
      }
      OneDiverges(h, next);
    }
  }

  lemma {:induction false} CallStaysInside(h: Heap, l: Value, r: Value, a: Value, b: Value, a': Value, b': Value)
    requires a in Universe(h, l) && b in Universe(h, r) && UnrecordedCall(h, a, b, a', b')
    ensures a' in Universe(h, l) && b' in Universe(h, r)
  {
    hide Universe, IsArrayComparison, SameHeader;
    var lf, rf := FieldsOf(h, a.payload).fields, FieldsOf(h, b.payload).fields;
    var name :| name in lf && name in rf && lf[name] == a' && rf[name] == b';
    UniverseClosed(h, l, a, name);
    UniverseClosed(h, r, b, name);
  }

  lemma {:induction false} EndlessNests(h: Heap, C: set<(Value, Value)>, l: Value, r: Value, n: nat)
    requires Endless(h, C) && (l, r) in C
    ensures NestedCalls(h, l, r, n)
    decreases n
  {
    hide UnrecordedCall;
    if n > 0 {
      var l', r' :| (l', r') in C && UnrecordedCall(h, l, r, l', r');
      EndlessNests(h, C, l', r', n - 1);
    }
  }

  /**
   Through the fields of objects, the comparison recurses for ever exactly from the pairs on or before a cycle of pairs
   none of which has both maps shared.
   */
  lemma {:induction false} DivergesIff(h: Heap, l: Value, r: Value)
    ensures Diverges(h, l, r) <==> exists C: set<(Value, Value)> :: (l, r) in C && Endless(h, C)
  {
    hide UnrecordedCall, NestedCalls;
    if Diverges(h, l, r) {
      DivergingIsEndless(h, l, r);
      assert l in Universe(h, l) && r in Universe(h, r);
    }
    if C: set<(Value, Value)> :| (l, r) in C && Endless(h, C) {
      forall n: nat ensures NestedCalls(h, l, r, n) { EndlessNests(h, C, l, r, n); }
    }
  }

  /** Under the value contract an unrecorded call goes from value objects to parts of theirs. */
  lemma {:induction false} ContractCalls(h: Heap, l: Value, r: Value, l': Value, r': Value)
    requires Valid(h, l) && Valid(h, r) && UnrecordedCall(h, l, r, l', r')
    ensures Valid(h, l') && Valid(h, r') && l' < l
  {
    hide SameHeader, IsArrayComparison;
    var lf, rf := FieldsOf(h, l.payload).fields, FieldsOf(h, r.payload).fields;
    var name :| name in lf && name in rf && lf[name] == l' && rf[name] == r';
    FieldSmaller(l, name);
  }

  lemma {:induction false} FieldSmaller(v: Value, name: string)
    requires v.payload.Object? && name in v.payload.inline.fields
    ensures v.payload.inline.fields[name] < v
  {
    var record := v.payload.inline;
    assert record.fields[name] < record;
    assert record < v;
  }

  /** So no such cycle exists. */
  lemma {:induction false} ContractNeverDiverges(h: Heap, l: Value, r: Value)
    requires Valid(h, l) && Valid(h, r)
    ensures !Diverges(h, l, r)
    decreases l
  {
    hide UnrecordedCall, Valid;
    if Diverges(h, l, r) {
      DivergesIff(h, l, r);
      var C: set<(Value, Value)> :| (l, r) in C && Endless(h, C);
      var l', r' :| (l', r') in C && UnrecordedCall(h, l, r, l', r');
      DivergesIff(h, l', r');
      ContractCalls(h, l, r, l', r');
      ContractNeverDiverges(h, l', r');
    }
  }

  // ----- one such graph -----

  function Handle(shared: Option<Id>, inline: Record): Value {
    Value(Double, [1, 1], Object(UserClass("Node"), true, shared, inline, [], Zero(false), "", ModuleOwner(0)))
  }

  /** A handle at one shared cell, and an unshared handle in front of a shared cell. */
  function AtShared(id: Id): Value { Handle(Some(id), Record(map[])) }

  function Before(id: Id): Value { Handle(None, Record(map["next" := AtShared(id)])) }

  /**
   Two two-node cycles whose shared maps sit at opposite nodes.  The handles
   without a shared map carry a field, which the value contract forbids.
   */
  function SkewedHeap(): Heap {
    Heap(map[0 := Record(map["next" := Before(0)]), 1 := Record(map["next" := Before(1)])], map[], map[], map[])
  }

  lemma {:induction false} HandleIsScalar(shared: Option<Id>, inline: Record)
    ensures IsScalarObject(Handle(shared, inline))
  {
    assert [1, 1][1..] == [1];
    assert [1, 1][..0] == [] && [1, 1][..1] == [1] && [1, 1][..2] == [1, 1];
    assert Product([1, 1]) == 1 && PrefixesFit([1, 1]);
  }

  /** Each comparison leads to the other. */
  lemma {:induction false} SkewedCalls()
    ensures UnrecordedCall(SkewedHeap(), AtShared(0), Before(1), Before(0), AtShared(1))
    ensures UnrecordedCall(SkewedHeap(), Before(0), AtShared(1), AtShared(0), Before(1))
  {
    var h := SkewedHeap();
    HandleIsScalar(Some(0), Record(map[]));
    HandleIsScalar(Some(1), Record(map[]));
    HandleIsScalar(None, Record(map["next" := AtShared(0)]));
    HandleIsScalar(None, Record(map["next" := AtShared(1)]));
    assert FieldsOf(h, AtShared(0).payload).fields == map["next" := Before(0)];
    assert FieldsOf(h, Before(1).payload).fields == map["next" := AtShared(1)];
    assert FieldsOf(h, Before(0).payload).fields == map["next" := AtShared(0)];
    assert FieldsOf(h, AtShared(1).payload).fields == map["next" := Before(1)];
  }

  lemma {:induction false} BeforeIsInvalid(h: Heap, id: Id)
    ensures !Valid(h, Before(id))
  {
    assert "next" in Before(id).payload.inline.fields;
  }

  lemma {:induction false} SkewedEndless(C: set<(Value, Value)>)
    requires C == {(AtShared(0), Before(1)), (Before(0), AtShared(1))}
    ensures Endless(SkewedHeap(), C)
  {
    hide UnrecordedCall, SkewedHeap, AtShared, Before;
    SkewedCalls();
  }

  /** Without the contract's rule the recursion has no bottom; each map here has one field, so in any order. */
  lemma {:induction false} UnsharedHandlesCanDiverge()
    ensures Diverges(SkewedHeap(), AtShared(0), Before(1))
    ensures !Valid(SkewedHeap(), Before(1))
  {
    hide Diverges, Endless, Valid, SkewedHeap, AtShared, Before;
    var C := {(AtShared(0), Before(1)), (Before(0), AtShared(1))};
    SkewedEndless(C);
    DivergesIff(SkewedHeap(), AtShared(0), Before(1));
    BeforeIsInvalid(SkewedHeap(), 1);
  }
}
