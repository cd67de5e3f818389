/**
 What equality of values comes to, spelled out on the values themselves: for
 numbers element by element, for values without shared pointers or objects as
 plain identity, and for everything else as equality of the parts.
 */
module EqualityMeaning {
  import opened Wrappers
  import opened Layout
  import opened RuntimeValues
  import opened Bisimulation

  // ----- numbers -----

  /** Equal as IEEE numbers: no NaN, and the zeros alike. */
  ghost predicate RealsAgree(a: Float, b: Float) {
    match (a, b)
    case (Infinity(s), Infinity(t)) => s == t
    case (Zero(_), Zero(_)) => true
    case (Finite(x), Finite(y)) => x == y
    case _ => false
  }

  ghost predicate HasImaginary(v: Value) {
    match v.payload case Dense(_, complex, _) => complex case Sparse(complex, _) => complex case _ => false
  }

  /** Integers agree in their bits, the others as reals; a missing imaginary part counts as zero. */
  ghost predicate NumbersAgree(l: Value, r: Value, a: NumericElement, b: NumericElement) {
    match l.numericClass
    case Double | Single | Logical =>
      && RealsAgree(a.re, b.re)
      && RealsAgree(if HasImaginary(l) then a.im else Zero(false), if HasImaginary(r) then b.im else Zero(false))
    case _ =>
      && a.bits == b.bits
      && (if HasImaginary(l) then a.imaginaryBits else 0) == (if HasImaginary(r) then b.imaginaryBits else 0)
  }

  ghost predicate AgreeAt(l: Value, r: Value, i: nat) {
    && NumericElementAt(l, i).Some? && NumericElementAt(r, i).Some?
    && NumbersAgree(l, r, NumericElementAt(l, i).value, NumericElementAt(r, i).value)
  }

  /** One class, one shape, and one way of storing them. */
  ghost predicate SameNumericForm(l: Value, r: Value) {
    && l.numericClass == r.numericClass && l.dims == r.dims
    && match (l.payload, r.payload)
       case (Dense(f, _, _), Dense(g, _, _)) => f == g
       case (Sparse(_, _), Sparse(_, _)) => true
       case _ => false
  }

  lemma {:induction false} NothingShared(h: Heap)
    ensures IsBisimulation(h, {}, {})
  {
  }

  lemma {:induction false} MatchesAgree(l: Value, r: Value, i: nat)
    requires SameNumericForm(l, r)
    ensures ElementMatches(l, r, i) <==> AgreeAt(l, r, i)
  {
  }

  /**
   Two numeric values of one class, shape and form are equal exactly when their elements agree at every column-major
   index.
   */
  lemma {:induction false} NumericBisimilarIff(h: Heap, l: Value, r: Value)
    requires SameNumericForm(l, r)
    ensures Bisimilar(h, l, r) <==> PrefixesFit(l.dims) && forall i: nat :: i < Product(l.dims) ==> AgreeAt(l, r, i)
  {
    forall i: nat ensures ElementMatches(l, r, i) <==> AgreeAt(l, r, i) { MatchesAgree(l, r, i); }
    hide AgreeAt, ElementMatches;
    NothingShared(h);
    assert forall P: Pairs, T: Pairs :: Match(h, l, r, P, T) <==> NumericIdentical(l, r);
  }

  // ----- plain values -----

  ghost predicate PlainFloat(x: Float) { !x.NaN? && x != Zero(true) }

  /** The components that the class does not use are at rest, and there is one spelling of zero. */
  ghost predicate PlainElement(c: NumericClass, complex: bool, e: NumericElement) {
    match c
    case Double | Single | Logical =>
      && e.bits == 0 && e.imaginaryBits == 0 && PlainFloat(e.re) && PlainFloat(e.im)
      && (!complex ==> e.im == Zero(false))
    case _ => e.re == Zero(false) && e.im == Zero(false) && (!complex ==> e.imaginaryBits == 0)
  }

  /** A complex array has an imaginary part that is not zero somewhere. */
  ghost predicate PlainElements(c: NumericClass, complex: bool, es: seq<NumericElement>) {
    && (forall k :: 0 <= k < |es| ==> PlainElement(c, complex, es[k]))
    && (complex ==> exists k :: 0 <= k < |es| && (es[k].im != Zero(false) || es[k].imaginaryBits != 0))
  }

  /** No shared pointers, no objects, no NaN, exactly the storage that the shape asks for, and nothing unused. */
  ghost predicate Plain(v: Value)
    decreases v
  {
    match v.payload
    case Missing => true
    case MissingArray => true
    case Dense(form, complex, es) =>
      && PrefixesFit(v.dims) && |es| == Product(v.dims) && (form == NumberForm ==> |es| == 1)
      && PlainElements(v.numericClass, complex, es)
    case Sparse(complex, es) =>
      PrefixesFit(v.dims) && |es| == Product(v.dims) && PlainElements(v.numericClass, complex, es)
    case Characters(_) => true
    case Strings(_) => true
    case Categorical(ordinal, labels, categories) =>
      PrefixesFit(v.dims) && |labels| == Product(v.dims) && (ordinal || categories == [])
    case Cell(cells) => forall k :: 0 <= k < |cells| ==> Plain(cells[k])
    case CommaList(items) => forall k :: 0 <= k < |items| ==> Plain(items[k])
    case NameValue(_, boxed) => |boxed| == 1 && Plain(boxed[0])
    case Struct(_, records) => forall k :: 0 <= k < |records| ==> PlainRecord(records[k])
    case _ => false
  }

  ghost predicate PlainRecord(r: Record)
    decreases r
  {
    forall name :: name in r.fields ==> Plain(r.fields[name])
  }

  ghost function ElementsOf(v: Value): seq<NumericElement>
    requires IsNumeric(v.payload)
  {
    match v.payload case Dense(_, _, es) => es case Sparse(_, es) => es
  }

  /** Every stored element is that of some column-major index, the same one for all arrays of that shape and form. */
  lemma {:induction false} SlotIndex(l: Value, r: Value, k: nat) returns (i: nat)
    requires SameNumericForm(l, r) && Plain(l) && Plain(r) && k < |ElementsOf(l)|
    ensures i < Product(l.dims)
    ensures NumericElementAt(l, i) == Some(ElementsOf(l)[k]) && NumericElementAt(r, i) == Some(ElementsOf(r)[k])
  {
    OffsetBijection(l.dims);
    i := if l.payload.Sparse? then k else LogicalIndex(l.dims, k);
    hide StorageOffset, LogicalIndex;
  }

  lemma {:induction false} IndexSlot(l: Value, i: nat) returns (k: nat)
    requires IsNumeric(l.payload) && Plain(l) && i < Product(l.dims)
    ensures k < |ElementsOf(l)| && NumericElementAt(l, i) == Some(ElementsOf(l)[k])
  {
    OffsetBijection(l.dims);
    k := if l.payload.Sparse? then i else StorageOffset(l.dims, i);
    hide StorageOffset, LogicalIndex;
  }

  lemma {:induction false} PlainNumbersAgree(l: Value, r: Value, a: NumericElement, b: NumericElement)
    requires SameNumericForm(l, r)
    requires PlainElement(l.numericClass, HasImaginary(l), a) && PlainElement(r.numericClass, HasImaginary(r), b)
    ensures NumbersAgree(l, r, a, b) <==> a == b
  {
  }

  lemma {:induction false} PlainNumeric(h: Heap, l: Value, r: Value)
    requires SameNumericForm(l, r) && Plain(l) && Plain(r)
    ensures Bisimilar(h, l, r) <==> l == r
  {
    NumericBisimilarIff(h, l, r);
    var a, b := ElementsOf(l), ElementsOf(r);
    hide Bisimilar, NumericElementAt, NumbersAgree, Product, PlainElement;
    if l == r {
      forall i: nat | i < Product(l.dims) ensures AgreeAt(l, r, i) {
        var k := IndexSlot(l, i);
        PlainNumbersAgree(l, r, a[k], a[k]);
      }
    }
    if Bisimilar(h, l, r) {
      forall k | 0 <= k < |a| ensures a[k] == b[k] {
        var i := SlotIndex(l, r, k);
        assert AgreeAt(l, r, i);
        PlainNumbersAgree(l, r, a[k], b[k]);
      }
      assert a == b;
      PlainComplex(l, r);
    }
  }

  lemma {:induction false} PlainComplex(l: Value, r: Value)
    requires SameNumericForm(l, r) && Plain(l) && Plain(r) && ElementsOf(l) == ElementsOf(r)
    ensures l == r
  {
    var a := ElementsOf(l);
    assert forall k :: 0 <= k < |a| ==>
      PlainElement(l.numericClass, HasImaginary(l), a[k]) && PlainElement(r.numericClass, HasImaginary(r), a[k]);
  }

  // ----- joining what makes parts equal -----

  lemma {:induction false} UnionBisimulation(h: Heap, P: Pairs, T: Pairs, Q: Pairs, U: Pairs)
    requires IsBisimulation(h, P, T) && IsBisimulation(h, Q, U)
    ensures IsBisimulation(h, P + Q, T + U)
  {
    hide RecordMatch, TableMatch;
    forall pair | pair in P + Q ensures ObjectPairOk(h, pair, P + Q, T + U) {
      var a, b := h.objects[pair.0], h.objects[pair.1];
      if pair in P {
        assert ObjectPairOk(h, pair, P, T);
        RecordMono(h, a, b, P, T, P + Q, T + U);
      } else {
        assert ObjectPairOk(h, pair, Q, U);
        RecordMono(h, a, b, Q, U, P + Q, T + U);
      }
    }
    forall pair | pair in T + U ensures TablePairOk(h, pair, P + Q, T + U) {
      var a, b := h.tables[pair.0], h.tables[pair.1];
      if pair in T {
        assert TablePairOk(h, pair, P, T);
        TableMono(h, a, b, P, T, P + Q, T + U);
      } else {
        assert TablePairOk(h, pair, Q, U);
        TableMono(h, a, b, Q, U, P + Q, T + U);
      }
    }
  }

  /** Finitely many pairs of equal values match under one bisimulation. */
  lemma {:induction false} Joined(h: Heap, D: set<(Value, Value)>) returns (P: Pairs, T: Pairs)
    requires forall d :: d in D ==> Bisimilar(h, d.0, d.1)
    ensures IsBisimulation(h, P, T) && forall d :: d in D ==> Match(h, d.0, d.1, P, T)
    decreases D
  {
    hide IsBisimulation, Match;
    if D == {} {
      P, T := {}, {};
      NothingShared(h);
    } else {
      var e :| e in D;
      var rest := D - {e};
      var Q: Pairs, U: Pairs := Joined(h, rest);
      var R: Pairs, V: Pairs :| IsBisimulation(h, R, V) && Match(h, e.0, e.1, R, V);
      UnionBisimulation(h, Q, U, R, V);
      P, T := Q + R, U + V;
      forall d | d in D ensures Match(h, d.0, d.1, P, T) {
        if d in rest {
          MatchMono(h, d.0, d.1, Q, U, P, T);
        } else {
          MatchMono(h, e.0, e.1, R, V, P, T);
        }
      }
    }
  }

  // ----- containers -----

  ghost predicate AllEqual(h: Heap, a: seq<Value>, b: seq<Value>) {
    |a| == |b| && forall i :: 0 <= i < |a| ==> Bisimilar(h, a[i], b[i])
  }

  ghost predicate FieldsEqual(h: Heap, a: Record, b: Record) {
    && (forall name :: name in a.fields <==> name in b.fields)
    && forall name :: name in a.fields ==> Bisimilar(h, a.fields[name], b.fields[name])
  }

  lemma {:induction false} JoinedRecords(h: Heap, a: seq<Record>, b: seq<Record>) returns (P: Pairs, T: Pairs)
    requires |a| == |b| && forall i :: 0 <= i < |a| ==> FieldsEqual(h, a[i], b[i])
    ensures IsBisimulation(h, P, T) && forall i :: 0 <= i < |a| ==> RecordMatch(h, a[i], b[i], P, T)
  {
    hide IsBisimulation, Match, Bisimilar;
    var D := set i, name | 0 <= i < |a| && name in a[i].fields :: (a[i].fields[name], b[i].fields[name]);
    P, T := Joined(h, D);
    forall i | 0 <= i < |a| ensures RecordMatch(h, a[i], b[i], P, T) {
      assert FieldsEqual(h, a[i], b[i]);
      forall name | name in a[i].fields ensures Match(h, a[i].fields[name], b[i].fields[name], P, T) {
        assert (a[i].fields[name], b[i].fields[name]) in D;
      }
    }
  }

  lemma {:induction false} JoinedValues(h: Heap, a: seq<Value>, b: seq<Value>) returns (P: Pairs, T: Pairs)
    requires AllEqual(h, a, b)
    ensures IsBisimulation(h, P, T) && SeqMatch(h, a, b, P, T)
  {
    hide IsBisimulation, Match, Bisimilar;
    var D := set i | 0 <= i < |a| :: (a[i], b[i]);
    P, T := Joined(h, D);
    forall i | 0 <= i < |a| ensures Match(h, a[i], b[i], P, T) { assert (a[i], b[i]) in D; }
  }

  /** Cells, lists and structures of the same kind have equal parts in the same places. */
  ghost predicate PartsEqual(h: Heap, l: Value, r: Value) {
    match (l.payload, r.payload)
    case (Cell(a), Cell(b)) => AllEqual(h, a, b)
    case (CommaList(a), CommaList(b)) => AllEqual(h, a, b)
    case (NameValue(m, a), NameValue(n, b)) => m == n && |a| == 1 && AllEqual(h, a, b)
    case (Struct(m, a), Struct(n, b)) =>
      m == n && |a| == |b| && forall i :: 0 <= i < |a| ==> FieldsEqual(h, a[i], b[i])
    case _ => false
  }

  ghost predicate SameFrame(l: Value, r: Value) { l.numericClass == r.numericClass && l.dims == r.dims }

  ghost predicate IsContainer(v: Value) {
    v.payload.Cell? || v.payload.CommaList? || v.payload.NameValue? || v.payload.Struct?
  }

  lemma {:induction false} MatchingParts(h: Heap, l: Value, r: Value, P: Pairs, T: Pairs)
    requires IsBisimulation(h, P, T) && Match(h, l, r, P, T) && IsContainer(l)
    ensures SameFrame(l, r) && PartsEqual(h, l, r)
  {
    hide IsBisimulation, RecordMatch;
    match (l.payload, r.payload)
    case (Struct(_, a), Struct(_, b)) =>
      forall i | 0 <= i < |a| ensures FieldsEqual(h, a[i], b[i]) { MatchingFields(h, a[i], b[i], P, T); }
    case _ =>
  }

  lemma {:induction false} MatchingFields(h: Heap, a: Record, b: Record, P: Pairs, T: Pairs)
    requires IsBisimulation(h, P, T) && RecordMatch(h, a, b, P, T)
    ensures FieldsEqual(h, a, b)
  {
    hide IsBisimulation, Match;
  }

  /** Equality of containers is equality of their parts. */
  lemma {:induction false} ContainersEqualIff(h: Heap, l: Value, r: Value)
    requires IsContainer(l)
    ensures Bisimilar(h, l, r) <==> SameFrame(l, r) && PartsEqual(h, l, r)
  {
    if Bisimilar(h, l, r) {
      var P: Pairs, T: Pairs :| IsBisimulation(h, P, T) && Match(h, l, r, P, T);
      MatchingParts(h, l, r, P, T);
    }
    if SameFrame(l, r) && PartsEqual(h, l, r) {
      var P: Pairs, T: Pairs;
      hide IsBisimulation;
      match (l.payload, r.payload) {
        case (Cell(a), Cell(b)) => P, T := JoinedValues(h, a, b);
        case (CommaList(a), CommaList(b)) => P, T := JoinedValues(h, a, b);
        case (NameValue(_, a), NameValue(_, b)) => P, T := JoinedValues(h, a, b);
        case (Struct(_, a), Struct(_, b)) => P, T := JoinedRecords(h, a, b);
      }
      assert Match(h, l, r, P, T);
    }
  }

  // ----- plain values are equal exactly when they are the same -----

  lemma {:induction false} PlainEqualIff(h: Heap, l: Value, r: Value)
    requires Plain(l) && Plain(r)
    ensures Bisimilar(h, l, r) <==> l == r
    decreases l
  {
    if SameNumericForm(l, r) {
      PlainNumeric(h, l, r);
    } else if IsContainer(l) {
      ContainersEqualIff(h, l, r);
      PlainParts(h, l, r);
    } else {
      PlainLeaf(h, l, r);
    }
  }

  lemma {:induction false} PlainParts(h: Heap, l: Value, r: Value)
    requires Plain(l) && Plain(r) && IsContainer(l)
    ensures SameFrame(l, r) && PartsEqual(h, l, r) <==> l == r
    decreases l, 0
  {
    hide Bisimilar;
    match (l.payload, r.payload)
    case (Cell(a), Cell(b)) => PlainSeq(h, a, b);
    case (CommaList(a), CommaList(b)) => PlainSeq(h, a, b);
    case (NameValue(_, a), NameValue(_, b)) => PlainSeq(h, a, b);
    case (Struct(_, a), Struct(_, b)) =>
      if |a| == |b| {
        forall i | 0 <= i < |a| ensures FieldsEqual(h, a[i], b[i]) <==> a[i] == b[i] { PlainFields(h, a[i], b[i]); }
      }
    case _ =>
  }

  lemma {:induction false} PlainSeq(h: Heap, a: seq<Value>, b: seq<Value>)
    requires forall k :: 0 <= k < |a| ==> Plain(a[k])
    requires forall k :: 0 <= k < |b| ==> Plain(b[k])
    ensures AllEqual(h, a, b) <==> a == b
    decreases a
  {
    hide Bisimilar, Plain;
    if |a| == |b| {
      forall i | 0 <= i < |a| ensures Bisimilar(h, a[i], b[i]) <==> a[i] == b[i] { PlainEqualIff(h, a[i], b[i]); }
    }
  }

  lemma {:induction false} PlainFields(h: Heap, a: Record, b: Record)
    requires PlainRecord(a) && PlainRecord(b)
    ensures FieldsEqual(h, a, b) <==> a == b
    decreases a
  {
    hide Bisimilar, Plain;
    forall name | name in a.fields && name in b.fields
      ensures Bisimilar(h, a.fields[name], b.fields[name]) <==> a.fields[name] == b.fields[name]
    {
      PlainEqualIff(h, a.fields[name], b.fields[name]);
    }
    if FieldsEqual(h, a, b) { assert a.fields == b.fields; }
  }

  lemma {:induction false} PlainLeaf(h: Heap, l: Value, r: Value)
    requires Plain(l) && Plain(r) && !IsContainer(l) && !SameNumericForm(l, r)
    ensures Bisimilar(h, l, r) <==> l == r
  {
    NothingShared(h);
    if l.payload.Categorical? && r.payload.Categorical? && l.dims == r.dims { PlainLabels(l, r); }
    hide CategoricalEqual;
    assert forall P: Pairs, T: Pairs :: Match(h, l, r, P, T) <==> l == r;
  }

  lemma {:induction false} PlainLabels(l: Value, r: Value)
    requires Plain(l) && Plain(r) && l.payload.Categorical? && r.payload.Categorical? && l.dims == r.dims
    ensures CategoricalEqual(l, r) <==> l.payload == r.payload
  {
    var a, b := l.payload.labels, r.payload.labels;
    OffsetBijection(l.dims);
    hide StorageOffset, LogicalIndex, Product;
    if CategoricalEqual(l, r) {
      forall k | 0 <= k < |a| ensures a[k] == b[k] {
        assert LabelAt(l, LogicalIndex(l.dims, k)) == LabelAt(r, LogicalIndex(l.dims, k));
      }
    }
  }
}
