/**
 What it means for two runtime values to be equal.

 Because handle objects and tables may be cyclic, equality is coinductive: two
 values are equal when some relation between shared field maps, and some
 relation between table storages, make them match and are themselves preserved
 by looking one level further into every related pair.
 */
module Bisimulation {
  import opened Wrappers
  import opened Layout
  import opened RuntimeValues

  type Pairs = set<(Id, Id)>

  // ----- leaves -----

  function ImaginaryBits(e: NumericElement, complex: bool): nat { if complex then e.imaginaryBits else 0 }

  function Imaginary(e: NumericElement, complex: bool): Float { if complex then e.im else Zero(false) }

  predicate ElementsIdentical(c: NumericClass, a: NumericElement, aComplex: bool, b: NumericElement, bComplex: bool) {
    if IsIntegerClass(c) then
      a.bits == b.bits && ImaginaryBits(a, aComplex) == ImaginaryBits(b, bComplex)
    else
      FloatEqual(a.re, b.re) && FloatEqual(Imaginary(a, aComplex), Imaginary(b, bComplex))
  }

  predicate IsComplex(p: Payload)
    requires IsNumeric(p)
  {
    match p case Dense(_, complex, _) => complex case Sparse(complex, _) => complex
  }

  ghost predicate ElementMatches(l: Value, r: Value, i: nat)
    requires IsNumeric(l.payload) && IsNumeric(r.payload)
  {
    && NumericElementAt(l, i).Some? && NumericElementAt(r, i).Some?
    && ElementsIdentical(l.numericClass, NumericElementAt(l, i).value, IsComplex(l.payload),
                         NumericElementAt(r, i).value, IsComplex(r.payload))
  }

  /** `runtimeNumericValuesIdentical` on values of one class and shape. */
  ghost predicate NumericIdentical(l: Value, r: Value)
    requires IsNumeric(l.payload) && IsNumeric(r.payload)
  {
    && PrefixesFit(l.dims)
    && forall i: nat :: i < Product(l.dims) ==> ElementMatches(l, r, i)
  }

  /** `runtimeCategoricalValuesEqual` with undefined elements equal to each other. */
  ghost predicate CategoricalEqual(l: Value, r: Value)
    requires l.payload.Categorical? && r.payload.Categorical?
  {
    && l.payload.ordinal == r.payload.ordinal
    && (l.payload.ordinal ==> l.payload.categories == r.payload.categories)
    && forall i: nat :: i < ShapeCount(l.dims) ==> LabelAt(l, i) == LabelAt(r, i)
  }

  /** The category of the element at a column-major index; None when it is undefined. */
  ghost function LabelAt(v: Value, i: nat): Option<string>
    requires v.payload.Categorical?
  {
    if PrefixesFit(v.dims) && i < Product(v.dims) && StorageOffset(v.dims, i) < |v.payload.labels|
    then v.payload.labels[StorageOffset(v.dims, i)] else None
  }

  // ----- one step of matching -----

  ghost predicate SameHeader(l: Value, r: Value) {
    KindOf(l.payload) == KindOf(r.payload) && l.numericClass == r.numericClass && l.dims == r.dims
  }

  ghost predicate SeqMatch(h: Heap, ls: seq<Value>, rs: seq<Value>, P: Pairs, T: Pairs)
    decreases ls, rs, 3
  {
    |ls| == |rs| && forall i :: 0 <= i < |ls| ==> Match(h, ls[i], rs[i], P, T)
  }

  ghost predicate RecordMatch(h: Heap, l: Record, r: Record, P: Pairs, T: Pairs)
    decreases l, r, 3
  {
    l.fields.Keys == r.fields.Keys && forall name :: name in l.fields ==> Match(h, l.fields[name], r.fields[name], P, T)
  }

  /** The array branch: at least one side is not a scalar class object. */
  ghost predicate IsArrayComparison(l: Value, r: Value) {
    && l.payload.Object? && r.payload.Object?
    && IsClassObject(l.payload) && IsClassObject(r.payload)
    && (!IsScalarObject(l) || !IsScalarObject(r))
  }

  lemma {:induction false} ArrayElementsSmaller(l: Value, r: Value, i: nat)
    requires IsArrayComparison(l, r) && l.dims == r.dims
    requires ObjectElementAt(l, i).Some? && ObjectElementAt(r, i).Some?
    ensures ObjectElementAt(l, i).value != l ==> ObjectElementAt(l, i).value in l.payload.parts
    ensures ObjectElementAt(l, i).value == l ==> ObjectElementAt(r, i).value in r.payload.parts
  {
  }

  /** Both arrays have an element at logical index i, and the two match. */
  ghost predicate PartMatch(h: Heap, l: Value, r: Value, i: nat, P: Pairs, T: Pairs)
    requires IsArrayComparison(l, r) && l.dims == r.dims
    decreases l, r, 0
  {
    && ObjectElementAt(l, i).Some? && ObjectElementAt(r, i).Some?
    && (ArrayElementsSmaller(l, r, i);
        Match(h, ObjectElementAt(l, i).value, ObjectElementAt(r, i).value, P, T))
  }

  ghost predicate EmptyFields(h: Heap, p: Payload)
    requires p.Object?
  {
    if p.shared.Some? then p.shared.value in h.objects && h.objects[p.shared.value].fields.Keys == {}
    else p.inline.fields.Keys == {}
  }

  ghost predicate ObjectMatch(h: Heap, l: Value, r: Value, P: Pairs, T: Pairs)
    requires l.payload.Object? && r.payload.Object? && l.dims == r.dims
    decreases l, r, 1
  {
    && l.payload.className == r.payload.className
    && l.payload.handleObject == r.payload.handleObject
    && if IsArrayComparison(l, r) then
         && ObjectElementCount(l) == ObjectElementCount(r)
         && forall i: nat :: i < ObjectElementCount(l) ==> PartMatch(h, l, r, i, P, T)
       else if l.payload.handleObject && l.payload.shared.Some? && r.payload.shared.Some? then
         (l.payload.shared.value, r.payload.shared.value) in P
       else if l.payload.handleObject && (l.payload.shared.Some? || r.payload.shared.Some?) then
         // Only one side has a shared map; the other, being a valid handle, has no fields at all.
         EmptyFields(h, l.payload) && EmptyFields(h, r.payload)
       else
         RecordMatch(h, l.payload.inline, r.payload.inline, P, T)
  }

  /** l and r agree as far as their own trees go, given that the pairs in P and T do. */
  ghost predicate Match(h: Heap, l: Value, r: Value, P: Pairs, T: Pairs)
    decreases l, r, 2
  {
    && SameHeader(l, r)
    && match l.payload
       case Missing => true
       case MissingArray => true
       case Dense(_, _, _) => NumericIdentical(l, r)
       case Sparse(_, _) => r.payload.Sparse? && NumericIdentical(l, r)
       case Categorical(_, _, _) => r.payload.Categorical? && CategoricalEqual(l, r)
       case Tabular(a) =>
         && r.payload.Tabular? && a in h.tables && r.payload.storage in h.tables
         && h.tables[a].timetable == h.tables[r.payload.storage].timetable
         && (a, r.payload.storage) in T
       case Characters(a) => a == r.payload.units
       case Strings(a) => a == r.payload.texts
       case Cell(a) => SeqMatch(h, a, r.payload.cells, P, T)
       case CommaList(a) => SeqMatch(h, a, r.payload.items, P, T)
       case Function(a) =>
         && a.Some? && r.payload.handle.Some?
         && a.value in h.functions && r.payload.handle.value in h.functions
         && h.functions[a.value].identity == h.functions[r.payload.handle.value].identity
       case NameValue(name, a) =>
         name == r.payload.name && |a| == 1 && |r.payload.boxed| == 1 && Match(h, a[0], r.payload.boxed[0], P, T)
       case Struct(order, a) =>
         && order == r.payload.order && |a| == |r.payload.records|
         && forall i :: 0 <= i < |a| ==> RecordMatch(h, a[i], r.payload.records[i], P, T)
       case Object(_, _, _, _, _, _, _, _) => r.payload.Object? && ObjectMatch(h, l, r, P, T)
  }

  ghost predicate TableMatch(h: Heap, a: Table, b: Table, P: Pairs, T: Pairs) {
    && a.timetable == b.timetable && a.rowCount == b.rowCount
    && |a.variables| == |b.variables|
    && a.dimensionNames == b.dimensionNames && a.description == b.description
    && (if a.timetable then Match(h, a.rowTimes, b.rowTimes, P, T) else a.rowNames == b.rowNames)
    && (forall i :: 0 <= i < |a.variables| ==>
          a.variables[i].name == b.variables[i].name && Match(h, a.variables[i].value, b.variables[i].value, P, T))
    && Match(h, a.userData, b.userData, P, T)
  }

  ghost predicate ObjectPairOk(h: Heap, pair: (Id, Id), P: Pairs, T: Pairs) {
    pair.0 in h.objects && pair.1 in h.objects && RecordMatch(h, h.objects[pair.0], h.objects[pair.1], P, T)
  }

  ghost predicate TablePairOk(h: Heap, pair: (Id, Id), P: Pairs, T: Pairs) {
    pair.0 in h.tables && pair.1 in h.tables && TableMatch(h, h.tables[pair.0], h.tables[pair.1], P, T)
  }

  /** (P, T) is a bisimulation: every related pair matches up to (P, T) again. */
  ghost predicate IsBisimulation(h: Heap, P: Pairs, T: Pairs) {
    (forall pair :: pair in P ==> ObjectPairOk(h, pair, P, T))
      && (forall pair :: pair in T ==> TablePairOk(h, pair, P, T))
  }

  ghost predicate Bisimilar(h: Heap, l: Value, r: Value) {
    exists P: Pairs, T: Pairs :: IsBisimulation(h, P, T) && Match(h, l, r, P, T)
  }

  // ----- larger relations match more -----

  lemma {:induction false} MatchMono(h: Heap, l: Value, r: Value, P: Pairs, T: Pairs, P': Pairs, T': Pairs)
    requires P <= P' && T <= T' && Match(h, l, r, P, T)
    ensures Match(h, l, r, P', T')
    decreases l, r, 1
  {
    match l.payload
    case Cell(a) => SeqMono(h, a, r.payload.cells, P, T, P', T');
    case CommaList(a) => SeqMono(h, a, r.payload.items, P, T, P', T');
    case NameValue(_, a) => MatchMono(h, a[0], r.payload.boxed[0], P, T, P', T');
    case Struct(_, a) =>
      var b := r.payload.records;
      forall i | 0 <= i < |a| ensures RecordMatch(h, a[i], b[i], P', T') { RecordMono(h, a[i], b[i], P, T, P', T'); }
    case Object(_, _, _, _, _, _, _, _) =>
      if IsArrayComparison(l, r) {
        forall i: nat | i < ObjectElementCount(l) ensures PartMatch(h, l, r, i, P', T') {
          assert PartMatch(h, l, r, i, P, T);
          ArrayElementsSmaller(l, r, i);
          MatchMono(h, ObjectElementAt(l, i).value, ObjectElementAt(r, i).value, P, T, P', T');
        }
      } else if !l.payload.handleObject || (l.payload.shared == None && r.payload.shared == None) {
        RecordMono(h, l.payload.inline, r.payload.inline, P, T, P', T');
      }
    case _ =>
  }

  lemma {:induction false} SeqMono(h: Heap, a: seq<Value>, b: seq<Value>, P: Pairs, T: Pairs, P': Pairs, T': Pairs)
    requires P <= P' && T <= T' && SeqMatch(h, a, b, P, T)
    ensures SeqMatch(h, a, b, P', T')
    decreases a, b, 2
  {
    forall i | 0 <= i < |a| ensures Match(h, a[i], b[i], P', T') { MatchMono(h, a[i], b[i], P, T, P', T'); }
  }

  lemma {:induction false} RecordMono(h: Heap, l: Record, r: Record, P: Pairs, T: Pairs, P': Pairs, T': Pairs)
    requires P <= P' && T <= T' && RecordMatch(h, l, r, P, T)
    ensures RecordMatch(h, l, r, P', T')
    decreases l, r, 2
  {
    forall name | name in l.fields ensures Match(h, l.fields[name], r.fields[name], P', T') {
      MatchMono(h, l.fields[name], r.fields[name], P, T, P', T');
    }
  }

  lemma {:induction false} TableMono(h: Heap, a: Table, b: Table, P: Pairs, T: Pairs, P': Pairs, T': Pairs)
    requires P <= P' && T <= T' && TableMatch(h, a, b, P, T)
    ensures TableMatch(h, a, b, P', T')
  {
    if a.timetable { MatchMono(h, a.rowTimes, b.rowTimes, P, T, P', T'); }
    MatchMono(h, a.userData, b.userData, P, T, P', T');
    forall i | 0 <= i < |a.variables| ensures Match(h, a.variables[i].value, b.variables[i].value, P', T') {
      MatchMono(h, a.variables[i].value, b.variables[i].value, P, T, P', T');
    }
  }

  // ----- symmetry -----

  ghost function Swap(P: Pairs): Pairs { set p | p in P :: (p.1, p.0) }

  lemma {:induction false} MatchSym(h: Heap, l: Value, r: Value, P: Pairs, T: Pairs)
    requires Match(h, l, r, P, T)
    ensures Match(h, r, l, Swap(P), Swap(T))
    decreases l, r, 1
  {
    match l.payload
    case Dense(_, _, _) =>
      assert forall i: nat :: ElementMatches(l, r, i) ==> ElementMatches(r, l, i);
    case Sparse(_, _) =>
      assert forall i: nat :: ElementMatches(l, r, i) ==> ElementMatches(r, l, i);
    case Cell(a) => SeqSym(h, a, r.payload.cells, P, T);
    case CommaList(a) => SeqSym(h, a, r.payload.items, P, T);
    case NameValue(_, a) => MatchSym(h, a[0], r.payload.boxed[0], P, T);
    case Struct(_, a) =>
      var b := r.payload.records;
      forall i | 0 <= i < |a| ensures RecordMatch(h, b[i], a[i], Swap(P), Swap(T)) { RecordSym(h, a[i], b[i], P, T); }
    case Object(_, _, _, _, _, _, _, _) =>
      if IsArrayComparison(l, r) {
        forall i: nat | i < ObjectElementCount(l) ensures PartMatch(h, r, l, i, Swap(P), Swap(T)) {
          assert PartMatch(h, l, r, i, P, T);
          ArrayElementsSmaller(l, r, i);
          MatchSym(h, ObjectElementAt(l, i).value, ObjectElementAt(r, i).value, P, T);
        }
      } else if !l.payload.handleObject || (l.payload.shared == None && r.payload.shared == None) {
        RecordSym(h, l.payload.inline, r.payload.inline, P, T);
      }
    case _ =>
  }

  lemma {:induction false} SeqSym(h: Heap, a: seq<Value>, b: seq<Value>, P: Pairs, T: Pairs)
    requires SeqMatch(h, a, b, P, T)
    ensures SeqMatch(h, b, a, Swap(P), Swap(T))
    decreases a, b, 2
  {
    forall i | 0 <= i < |a| ensures Match(h, b[i], a[i], Swap(P), Swap(T)) { MatchSym(h, a[i], b[i], P, T); }
  }

  lemma {:induction false} RecordSym(h: Heap, l: Record, r: Record, P: Pairs, T: Pairs)
    requires RecordMatch(h, l, r, P, T)
    ensures RecordMatch(h, r, l, Swap(P), Swap(T))
    decreases l, r, 2
  {
    forall name | name in l.fields ensures Match(h, r.fields[name], l.fields[name], Swap(P), Swap(T)) {
      MatchSym(h, l.fields[name], r.fields[name], P, T);
    }
  }

  lemma {:induction false} TableSym(h: Heap, a: Table, b: Table, P: Pairs, T: Pairs)
    requires TableMatch(h, a, b, P, T)
    ensures TableMatch(h, b, a, Swap(P), Swap(T))
  {
    if a.timetable { MatchSym(h, a.rowTimes, b.rowTimes, P, T); }
    MatchSym(h, a.userData, b.userData, P, T);
    forall i | 0 <= i < |a.variables|
      ensures Match(h, b.variables[i].value, a.variables[i].value, Swap(P), Swap(T))
    {
      MatchSym(h, a.variables[i].value, b.variables[i].value, P, T);
    }
  }

  lemma {:induction false} BisimilarSymmetric(h: Heap, l: Value, r: Value)
    requires Bisimilar(h, l, r)
    ensures Bisimilar(h, r, l)
  {
    var P: Pairs, T: Pairs :| IsBisimulation(h, P, T) && Match(h, l, r, P, T);
    forall pair | pair in Swap(P) ensures ObjectPairOk(h, pair, Swap(P), Swap(T)) {
      assert ObjectPairOk(h, (pair.1, pair.0), P, T);
      RecordSym(h, h.objects[pair.1], h.objects[pair.0], P, T);
    }
    forall pair | pair in Swap(T) ensures TablePairOk(h, pair, Swap(P), Swap(T)) {
      assert TablePairOk(h, (pair.1, pair.0), P, T);
      TableSym(h, h.tables[pair.1], h.tables[pair.0], P, T);
    }
    MatchSym(h, l, r, P, T);
    assert IsBisimulation(h, Swap(P), Swap(T));
  }

  // ----- transitivity -----

  /** Pairs linked through a middle object, and all pairs of field-free objects. */
  ghost function Compose(h: Heap, P: Pairs, Q: Pairs): Pairs {
    (set p, q | p in P && q in Q && p.1 == q.0 :: (p.0, q.1)) +
    (set a, b | a in h.objects && b in h.objects && h.objects[a].fields.Keys == {}
      && h.objects[b].fields.Keys == {} :: (a, b))
  }

  ghost function ComposeTables(T: Pairs, U: Pairs): Pairs {
    set p, q | p in T && q in U && p.1 == q.0 :: (p.0, q.1)
  }

  ghost predicate IsLeaf(p: Payload) {
    !p.Cell? && !p.CommaList? && !p.NameValue? && !p.Struct? && !p.Object?
  }

  lemma {:induction false} LeafTrans(h: Heap, l: Value, m: Value, r: Value, P: Pairs, T: Pairs, Q: Pairs, U: Pairs)
    requires Match(h, l, m, P, T) && Match(h, m, r, Q, U) && IsLeaf(l.payload)
    ensures Match(h, l, r, Compose(h, P, Q), ComposeTables(T, U))
  {
    match l.payload
    case Dense(_, _, _) =>
      assert forall i: nat :: ElementMatches(l, m, i) && ElementMatches(m, r, i) ==> ElementMatches(l, r, i);
    case Sparse(_, _) =>
      assert forall i: nat :: ElementMatches(l, m, i) && ElementMatches(m, r, i) ==> ElementMatches(l, r, i);
    case Tabular(a) =>
      assert (a, m.payload.storage) in T && (m.payload.storage, r.payload.storage) in U;
    case _ =>
  }

  lemma {:induction false} MatchTrans(h: Heap, l: Value, m: Value, r: Value, P: Pairs, T: Pairs, Q: Pairs, U: Pairs)
    requires IsBisimulation(h, P, T) && IsBisimulation(h, Q, U)
    requires Match(h, l, m, P, T) && Match(h, m, r, Q, U)
    ensures Match(h, l, r, Compose(h, P, Q), ComposeTables(T, U))
    decreases l, m, r, 2
  {
    hide IsBisimulation, Compose, ComposeTables, NumericIdentical, CategoricalEqual;
    match l.payload
    case Cell(a) =>
      SeqTrans(h, a, m.payload.cells, r.payload.cells, P, T, Q, U);
    case CommaList(a) =>
      SeqTrans(h, a, m.payload.items, r.payload.items, P, T, Q, U);
    case NameValue(_, a) =>
      MatchTrans(h, a[0], m.payload.boxed[0], r.payload.boxed[0], P, T, Q, U);
    case Struct(_, a) =>
      RecordsTrans(h, a, m.payload.records, r.payload.records, P, T, Q, U);
    case Object(_, _, _, _, _, _, _, _) =>
      ObjectTrans(h, l, m, r, P, T, Q, U);
    case _ => LeafTrans(h, l, m, r, P, T, Q, U);
  }

  lemma {:induction false} SeqTrans(h: Heap, a: seq<Value>, b: seq<Value>, c: seq<Value>, P: Pairs, T: Pairs, Q: Pairs,
                                    U: Pairs)
    requires IsBisimulation(h, P, T) && IsBisimulation(h, Q, U)
    requires SeqMatch(h, a, b, P, T) && SeqMatch(h, b, c, Q, U)
    ensures SeqMatch(h, a, c, Compose(h, P, Q), ComposeTables(T, U))
    decreases a, b, c, 3
  {
    forall i | 0 <= i < |a| ensures Match(h, a[i], c[i], Compose(h, P, Q), ComposeTables(T, U)) {
      MatchTrans(h, a[i], b[i], c[i], P, T, Q, U);
    }
  }

  lemma {:induction false} RecordsTrans(h: Heap, a: seq<Record>, b: seq<Record>, c: seq<Record>, P: Pairs, T: Pairs,
                                        Q: Pairs, U: Pairs)
    requires IsBisimulation(h, P, T) && IsBisimulation(h, Q, U)
    requires |a| == |b| == |c|
    requires forall i :: 0 <= i < |a| ==> RecordMatch(h, a[i], b[i], P, T) && RecordMatch(h, b[i], c[i], Q, U)
    ensures forall i :: 0 <= i < |a| ==> RecordMatch(h, a[i], c[i], Compose(h, P, Q), ComposeTables(T, U))
    decreases a, b, c, 3
  {
    forall i | 0 <= i < |a| ensures RecordMatch(h, a[i], c[i], Compose(h, P, Q), ComposeTables(T, U)) {
      RecordTrans(h, a[i], b[i], c[i], P, T, Q, U);
    }
  }

  lemma {:induction false} RecordTrans(h: Heap, l: Record, m: Record, r: Record, P: Pairs, T: Pairs, Q: Pairs, U: Pairs)
    requires IsBisimulation(h, P, T) && IsBisimulation(h, Q, U)
    requires RecordMatch(h, l, m, P, T) && RecordMatch(h, m, r, Q, U)
    ensures RecordMatch(h, l, r, Compose(h, P, Q), ComposeTables(T, U))
    decreases l, m, r, 3
  {
    forall name | name in l.fields
      ensures Match(h, l.fields[name], r.fields[name], Compose(h, P, Q), ComposeTables(T, U))
    {
      MatchTrans(h, l.fields[name], m.fields[name], r.fields[name], P, T, Q, U);
    }
  }

  /** However two matching class objects are compared, their elements match one by one. */
  lemma {:induction false} ElementsMatch(h: Heap, l: Value, r: Value, P: Pairs, T: Pairs, i: nat)
    requires IsClassObject(l.payload) && IsClassObject(r.payload)
    requires Match(h, l, r, P, T) && i < ObjectElementCount(l)
    ensures ObjectElementCount(l) == ObjectElementCount(r)
    ensures ObjectElementAt(l, i).Some? && ObjectElementAt(r, i).Some?
    ensures Match(h, ObjectElementAt(l, i).value, ObjectElementAt(r, i).value, P, T)
    ensures IsScalarObject(l) ==> ObjectElementAt(l, i).value == l
    ensures IsScalarObject(r) ==> ObjectElementAt(r, i).value == r
  {
    if IsScalarObject(l) || IsScalarObject(r) { OffsetInRange(l.dims, 0); }
    if IsArrayComparison(l, r) { assert PartMatch(h, l, r, i, P, T); }
  }

  lemma {:induction false} ObjectTrans(h: Heap, l: Value, m: Value, r: Value, P: Pairs, T: Pairs, Q: Pairs, U: Pairs)
    requires IsBisimulation(h, P, T) && IsBisimulation(h, Q, U)
    requires l.payload.Object? && m.payload.Object? && r.payload.Object?
    requires Match(h, l, m, P, T) && Match(h, m, r, Q, U)
    ensures ObjectMatch(h, l, r, Compose(h, P, Q), ComposeTables(T, U))
    decreases l, m, r, 1
  {
    var C, D := Compose(h, P, Q), ComposeTables(T, U);
    if !IsClassObject(l.payload) || (IsScalarObject(l) && IsScalarObject(m) && IsScalarObject(r)) {
      FieldsTrans(h, l, m, r, P, T, Q, U);
    } else {
      forall i: nat | i < ObjectElementCount(l)
        ensures ObjectElementCount(l) == ObjectElementCount(r)
        ensures ObjectElementAt(l, i).Some? && ObjectElementAt(r, i).Some?
        ensures Match(h, ObjectElementAt(l, i).value, ObjectElementAt(r, i).value, C, D)
        ensures IsScalarObject(l) ==> ObjectElementAt(l, i).value == l
        ensures IsScalarObject(r) ==> ObjectElementAt(r, i).value == r
      {
        ElementsMatch(h, l, m, P, T, i);
        ElementsMatch(h, m, r, Q, U, i);
        var a, b, c := ObjectElementAt(l, i).value, ObjectElementAt(m, i).value, ObjectElementAt(r, i).value;
        if a == l && b == m {
          assert c in r.payload.parts;
        } else if a == l {
          assert b in m.payload.parts;
        }
        MatchTrans(h, a, b, c, P, T, Q, U);
      }
      if IsArrayComparison(l, r) {
        assert forall i: nat :: i < ObjectElementCount(l) ==> PartMatch(h, l, r, i, C, D);
      }
      if IsScalarObject(l) && IsScalarObject(r) {
        assert Match(h, ObjectElementAt(l, 0).value, ObjectElementAt(r, 0).value, C, D);
      } else if ObjectElementCount(l) == 0 {
        assert ObjectElementCount(m) == 0;
      }
    }
  }

  lemma {:induction false} FieldsTrans(h: Heap, l: Value, m: Value, r: Value, P: Pairs, T: Pairs, Q: Pairs, U: Pairs)
    requires IsBisimulation(h, P, T) && IsBisimulation(h, Q, U)
    requires l.payload.Object? && m.payload.Object? && r.payload.Object?
    requires !IsArrayComparison(l, m) && !IsArrayComparison(m, r) && !IsArrayComparison(l, r)
    requires Match(h, l, m, P, T) && Match(h, m, r, Q, U)
    ensures ObjectMatch(h, l, r, Compose(h, P, Q), ComposeTables(T, U))
    decreases l, m, r, 0
  {
    var a, b, c := l.payload, m.payload, r.payload;
    if !a.handleObject || (a.shared == None && b.shared == None && c.shared == None) {
      RecordTrans(h, a.inline, b.inline, c.inline, P, T, Q, U);
    } else {
      if a.shared.Some? && b.shared.Some? { assert ObjectPairOk(h, (a.shared.value, b.shared.value), P, T); }
      if b.shared.Some? && c.shared.Some? { assert ObjectPairOk(h, (b.shared.value, c.shared.value), Q, U); }
      if a.shared == None && b.shared == None { assert RecordMatch(h, a.inline, b.inline, P, T); }
      if b.shared == None && c.shared == None { assert RecordMatch(h, b.inline, c.inline, Q, U); }
    }
  }

  lemma {:induction false} TableTrans(h: Heap, a: Table, b: Table, c: Table, P: Pairs, T: Pairs, Q: Pairs, U: Pairs)
    requires IsBisimulation(h, P, T) && IsBisimulation(h, Q, U)
    requires TableMatch(h, a, b, P, T) && TableMatch(h, b, c, Q, U)
    ensures TableMatch(h, a, c, Compose(h, P, Q), ComposeTables(T, U))
  {
    if a.timetable { MatchTrans(h, a.rowTimes, b.rowTimes, c.rowTimes, P, T, Q, U); }
    MatchTrans(h, a.userData, b.userData, c.userData, P, T, Q, U);
    forall i | 0 <= i < |a.variables|
      ensures Match(h, a.variables[i].value, c.variables[i].value, Compose(h, P, Q), ComposeTables(T, U))
    {
      MatchTrans(h, a.variables[i].value, b.variables[i].value, c.variables[i].value, P, T, Q, U);
    }
  }

  lemma {:induction false} BisimilarTransitive(h: Heap, l: Value, m: Value, r: Value)
    requires Bisimilar(h, l, m) && Bisimilar(h, m, r)
    ensures Bisimilar(h, l, r)
  {
    var P: Pairs, T: Pairs :| IsBisimulation(h, P, T) && Match(h, l, m, P, T);
    var Q: Pairs, U: Pairs :| IsBisimulation(h, Q, U) && Match(h, m, r, Q, U);
    var C, D := Compose(h, P, Q), ComposeTables(T, U);
    forall pair | pair in C ensures ObjectPairOk(h, pair, C, D) {
      if p, q :| p in P && q in Q && p.1 == q.0 && pair == (p.0, q.1) {
        assert ObjectPairOk(h, p, P, T) && ObjectPairOk(h, q, Q, U);
        RecordTrans(h, h.objects[p.0], h.objects[p.1], h.objects[q.1], P, T, Q, U);
      }
    }
    forall pair | pair in D ensures TablePairOk(h, pair, C, D) {
      var p, q :| p in T && q in U && p.1 == q.0 && pair == (p.0, q.1);
      assert TablePairOk(h, p, P, T) && TablePairOk(h, q, Q, U);
      TableTrans(h, h.tables[p.0], h.tables[p.1], h.tables[q.1], P, T, Q, U);
    }
    MatchTrans(h, l, m, r, P, T, Q, U);
    assert IsBisimulation(h, C, D);
  }
}
