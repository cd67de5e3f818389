/**
 What it means for a value to belong to a module or a shared runtime, and why
 that survives everything the C boundary and later executions do.

 Bound values, which are function handles with a backend and objects of a
 class, are at home with the owner under whom they were made.  One module can
 run on its own and in several shared runtimes, so its callable context says
 nothing about the owner; homes do.

 `ModuleSearch.Reaches` stops at the first bound value, which is enough to
 find one.  Belonging looks further: into the receiver and the captured
 variables of bound closures, and into the fields and elements of objects.
 */
module Ownership {
  import opened Wrappers
  import opened RuntimeValues
  import opened ModuleSearch

  // ----- what is at odds with an owner -----

  /**
   What ownership relies on for the objects that no module binds.  By the value contract, metadata descriptors,
   graphics and dates have no fields (a graphics handle points to a shared map that stays empty and is nobody's).
   That arrays of graphics or dates hold only such is how arrays are built: their classes must have a common one.  The
   contract itself does not compare the classes of elements.
   */
  ghost predicate Inert(h: Heap, v: Value)
    requires v.payload.Object? && Valid(h, v)
  {
    && v.payload.inline.fields == map[]
    && (v.payload.shared.Some? ==>
          v.payload.shared.value !in h.homes && h.objects[v.payload.shared.value].fields == map[])
    && (SelfContained(v.payload) ==>
          forall i :: 0 <= i < |v.payload.parts| ==> SelfContained(v.payload.parts[i].payload))
  }

  /** v itself cannot be o's: it is bound elsewhere, or it is an unbound object that is not inert. */
  ghost predicate AtOdds(h: Heap, v: Value, o: Owner)
    requires Valid(h, v)
  {
    match v.payload
    case Function(handle) => IsBound(h, v) && h.functions[handle.value].home != o
    case Object(_, _, shared, _, _, _, _, home) =>
      if IsBound(h, v) then
        home != o || (shared.Some? && !(shared.value in h.homes && h.homes[shared.value] == o))
      else !Inert(h, v)
    case _ => false
  }

  // ----- what is inside a value -----

  /** w is a part of v's own tree. */
  ghost predicate Holds(v: Value, w: Value)
    ensures Holds(v, w) ==> w < v
  {
    match v.payload
    case Cell(cells) => w in cells
    case CommaList(items) => w in items
    case NameValue(_, boxed) => w in boxed
    case Struct(_, records) => exists i :: 0 <= i < |records| && HasField(records[i], w)
    case Object(_, _, _, inline, parts, _, _, _) => w in parts || HasField(inline, w)
    case _ => false
  }

  ghost predicate HasField(r: Record, w: Value)
    ensures HasField(r, w) ==> w < r
  {
    exists name :: name in r.fields && r.fields[name] == w
  }

  /** v leads to w through a shared descriptor, storage or field map. */
  ghost predicate Refers(h: Heap, v: Value, w: Value)
    requires Valid(h, v)
  {
    match v.payload
    case Function(handle) => handle.Some? && FunctionHolds(h.functions[handle.value], w)
    case Tabular(storage) => TableHolds(h.tables[storage], w)
    case Object(_, _, shared, _, _, _, _, _) => shared.Some? && HasField(h.objects[shared.value], w)
    case _ => false
  }

  ghost predicate FunctionHolds(d: Descriptor, w: Value) { d.receiver == Some(w) || HasField(d.captured, w) }

  ghost predicate TableHolds(t: Table, w: Value) {
    || (t.timetable && w == t.rowTimes)
    || (exists i :: 0 <= i < |t.variables| && t.variables[i].value == w)
    || w == t.userData
  }

  lemma {:induction false} HeldIsValid(h: Heap, v: Value, w: Value)
    requires Valid(h, v) && Holds(v, w)
    ensures Valid(h, w)
  {
    match v.payload
    case Struct(_, records) =>
      var i :| 0 <= i < |records| && HasField(records[i], w);
      assert ValidRecord(h, records[i]);
    case Object(_, _, _, inline, _, _, _, _) => assert ValidRecord(h, inline);
    case _ =>
  }

  lemma {:induction false} ReferredIsValid(h: Heap, v: Value, w: Value)
    requires ValidHeap(h) && Valid(h, v) && Refers(h, v, w)
    ensures Valid(h, w)
  {
    match v.payload
    case Function(handle) =>
      var d := h.functions[handle.value];
      assert ValidRecord(h, d.captured) && (d.receiver.Some? ==> Valid(h, d.receiver.value));
    case Tabular(storage) =>
      var t := h.tables[storage];
      assert ValidTable(h, t);
      if i :| 0 <= i < |t.variables| && t.variables[i].value == w { assert Valid(h, t.variables[i].value); }
    case Object(_, _, shared, _, _, _, _, _) => assert ValidRecord(h, h.objects[shared.value]);
  }

  // ----- belonging -----

  /** Something at odds with o lies anywhere inside v, behind at most n shared descriptors, storages and field maps. */
  ghost predicate Strays(h: Heap, v: Value, o: Owner, n: nat)
    requires ValidHeap(h) && Valid(h, v)
    decreases n, v
  {
    || AtOdds(h, v, o)
    || (exists w :: Holds(v, w) && Valid(h, w) && Strays(h, w, o, n))
    || (n > 0 && exists w :: Refers(h, v, w) && Valid(h, w) && Strays(h, w, o, n - 1))
  }

  /** Every bound value inside v, however deep, is at home with o. */
  ghost predicate BelongsTo(h: Heap, v: Value, o: Owner)
    requires ValidHeap(h) && Valid(h, v)
  {
    forall n: nat :: !Strays(h, v, o, n)
  }

  /** Whatever v holds or refers to belongs to o. */
  ghost predicate InsidesBelong(h: Heap, v: Value, o: Owner)
    requires ValidHeap(h) && Valid(h, v)
  {
    && (forall w :: Holds(v, w) ==> Valid(h, w) && BelongsTo(h, w, o))
    && (forall w :: Refers(h, v, w) ==> Valid(h, w) && BelongsTo(h, w, o))
  }

  /** Belonging passes no level by: v is o's exactly when v is not at odds with o and everything inside it is o's. */
  lemma {:induction false} BelongsIff(h: Heap, v: Value, o: Owner)
    requires ValidHeap(h) && Valid(h, v)
    ensures BelongsTo(h, v, o) <==> !AtOdds(h, v, o) && InsidesBelong(h, v, o)
  {
    hide ValidHeap, Valid, AtOdds, Holds, Refers;
    if BelongsTo(h, v, o) {
      assert !Strays(h, v, o, 0);
      forall w | Holds(v, w) ensures Valid(h, w) && BelongsTo(h, w, o) {
        HeldIsValid(h, v, w);
        assert forall n: nat :: Strays(h, w, o, n) ==> Strays(h, v, o, n);
      }
      forall w | Refers(h, v, w) ensures Valid(h, w) && BelongsTo(h, w, o) {
        ReferredIsValid(h, v, w);
        assert forall n: nat :: Strays(h, w, o, n) ==> Strays(h, v, o, n + 1);
      }
    }
    if !AtOdds(h, v, o) && InsidesBelong(h, v, o) {
      forall n: nat ensures !Strays(h, v, o, n) {
        assert forall w :: Holds(v, w) ==> !Strays(h, w, o, n);
        assert n > 0 ==> forall w :: Refers(h, v, w) ==> !Strays(h, w, o, n - 1);
      }
    }
  }

  /** w can be reached from v in at most n steps, of whatever kind. */
  ghost predicate Within(h: Heap, v: Value, w: Value, n: nat)
    requires ValidHeap(h) && Valid(h, v)
    decreases n
  {
    w == v || (n > 0 && exists u :: (Holds(v, u) || Refers(h, v, u)) && Valid(h, u) && Within(h, u, w, n - 1))
  }

  lemma {:induction false} WithinBelongs(h: Heap, v: Value, o: Owner, w: Value, n: nat)
    requires ValidHeap(h) && Valid(h, v) && BelongsTo(h, v, o) && Within(h, v, w, n)
    ensures Valid(h, w) && BelongsTo(h, w, o) && !AtOdds(h, w, o)
    decreases n
  {
    hide ValidHeap, Valid, AtOdds, Holds, Refers, Strays;
    BelongsIff(h, v, o);
    if w != v {
      var u :| (Holds(v, u) || Refers(h, v, u)) && Valid(h, u) && Within(h, u, w, n - 1);
      WithinBelongs(h, u, o, w, n - 1);
    }
  }

  /** Where a value strays there is a way to a culprit. */
  lemma {:induction false} Culprit(h: Heap, v: Value, o: Owner, n: nat) returns (w: Value, m: nat)
    requires ValidHeap(h) && Valid(h, v) && Strays(h, v, o, n)
    ensures Within(h, v, w, m) && Valid(h, w) && AtOdds(h, w, o)
    decreases n, v
  {
    hide ValidHeap, Valid, AtOdds, Holds, Refers;
    if AtOdds(h, v, o) {
      w, m := v, 0;
    } else if u :| Holds(v, u) && Valid(h, u) && Strays(h, u, o, n) {
      w, m := Culprit(h, u, o, n);
      m := m + 1;
    } else {
      var u :| Refers(h, v, u) && Valid(h, u) && Strays(h, u, o, n - 1);
      w, m := Culprit(h, u, o, n - 1);
      m := m + 1;
    }
  }

  /**
   A value belongs to o exactly when nothing that can be reached from it, in any number of steps, is at odds with o.
   */
  lemma {:induction false} BelongsThroughout(h: Heap, v: Value, o: Owner)
    requires ValidHeap(h) && Valid(h, v)
    ensures BelongsTo(h, v, o) <==> forall w, n: nat :: Within(h, v, w, n) && Valid(h, w) ==> !AtOdds(h, w, o)
  {
    hide ValidHeap, Valid, AtOdds, Strays, Within;
    if BelongsTo(h, v, o) {
      forall w, n: nat | Within(h, v, w, n) ensures Valid(h, w) && !AtOdds(h, w, o) { WithinBelongs(h, v, o, w, n); }
    } else {
      var n: nat :| Strays(h, v, o, n);
      var w, m := Culprit(h, v, o, n);
    }
  }

  // ----- belonging and needing a module -----

  /** The search goes on from v to w within v's own tree. */
  ghost predicate Enters(v: Value, w: Value)
    ensures Enters(v, w) ==> Holds(v, w)
  {
    Holds(v, w) && (v.payload.Object? ==> !SelfContained(v.payload) && w in v.payload.parts)
  }

  /** What the search finds beyond an unbound value, it finds in one of the values it goes on to. */
  lemma {:induction false} ReachesInside(h: Heap, v: Value, n: nat) returns (w: Value)
    requires ValidHeap(h) && Valid(h, v) && Reaches(h, v, n) && !IsBound(h, v)
    ensures Valid(h, w)
    ensures || (Enters(v, w) && Reaches(h, w, n))
            || (n > 0 && !v.payload.Object? && Refers(h, v, w) && Reaches(h, w, n - 1))
  {
    match v.payload
    case Function(handle) => w := FunctionReachesInside(h, handle.value, n - 1);
    case Tabular(storage) => w := TableReachesInside(h, storage, n - 1);
    case Object(_, _, _, _, parts, _, _, _) =>
      var i :| 0 <= i < |parts| && Reaches(h, parts[i], n);
      w := parts[i];
    case Cell(cells) =>
      var i :| 0 <= i < |cells| && Reaches(h, cells[i], n);
      w := cells[i];
    case CommaList(items) =>
      var i :| 0 <= i < |items| && Reaches(h, items[i], n);
      w := items[i];
    case NameValue(_, boxed) =>
      var i :| 0 <= i < |boxed| && Reaches(h, boxed[i], n);
      w := boxed[i];
    case Struct(_, records) =>
      var i :| 0 <= i < |records| && RecordReaches(h, records[i], n);
      var name :| name in records[i].fields && Reaches(h, records[i].fields[name], n);
      w := records[i].fields[name];
  }

  lemma {:induction false} FunctionReachesInside(h: Heap, id: Id, n: nat) returns (w: Value)
    requires ValidHeap(h) && id in h.functions && FunctionReaches(h, id, n)
    ensures Valid(h, w) && FunctionHolds(h.functions[id], w) && Reaches(h, w, n)
  {
    hide Reaches, Valid;
    var d := h.functions[id];
    if d.receiver.Some? && Reaches(h, d.receiver.value, n) {
      w := d.receiver.value;
    } else {
      assert ValidRecord(h, d.captured);
      var name :| name in d.captured.fields && Reaches(h, d.captured.fields[name], n);
      w := d.captured.fields[name];
    }
  }

  lemma {:induction false} TableReachesInside(h: Heap, id: Id, n: nat) returns (w: Value)
    requires ValidHeap(h) && id in h.tables && TableReaches(h, id, n)
    ensures Valid(h, w) && TableHolds(h.tables[id], w) && Reaches(h, w, n)
  {
    hide Reaches, Valid;
    var t := h.tables[id];
    assert ValidTable(h, t);
    if t.timetable && Reaches(h, t.rowTimes, n) {
      w := t.rowTimes;
    } else if Reaches(h, t.userData, n) {
      w := t.userData;
    } else {
      var i :| 0 <= i < |t.variables| && Reaches(h, t.variables[i].value, n);
      w := t.variables[i].value;
    }
  }

  lemma {:induction false} ReachesThrough(h: Heap, v: Value, w: Value, n: nat)
    requires ValidHeap(h) && Valid(h, v) && !IsBound(h, v) && Valid(h, w) && Reaches(h, w, n)
    ensures Enters(v, w) ==> Reaches(h, v, n)
    ensures !v.payload.Object? && Refers(h, v, w) ==> Reaches(h, v, n + 1)
  {
    match v.payload
    case Function(handle) => if Refers(h, v, w) { assert FunctionReaches(h, handle.value, n); }
    case Tabular(storage) => if Refers(h, v, w) { assert TableReaches(h, storage, n); }
    case Struct(_, records) =>
      if i :| 0 <= i < |records| && HasField(records[i], w) { assert RecordReaches(h, records[i], n); }
    case _ =>
  }

  /** Nothing bound hides inside a value that the search clears: the objects it does not open are inert. */
  lemma {:induction false} InsideUnbound(h: Heap, v: Value, w: Value)
    requires ValidHeap(h) && Valid(h, v) && !NeedsModule(h, v) && Valid(h, w)
    requires Holds(v, w) || Refers(h, v, w)
    requires v.payload.Object? ==> Inert(h, v)
    ensures !NeedsModule(h, w)
  {
    assert !Reaches(h, v, 0);
    forall n: nat ensures !Reaches(h, w, n) {
      if Reaches(h, w, n) { ReachesThrough(h, v, w, n); }
    }
  }

  /** A bound value cannot be at peace with two owners. */
  lemma {:induction false} BoundIsTorn(h: Heap, v: Value, a: Owner, b: Owner, n: nat)
    requires ValidHeap(h) && Valid(h, v) && a != b && Reaches(h, v, n)
    ensures Strays(h, v, a, n) || Strays(h, v, b, n)
    decreases n, v
  {
    if !IsBound(h, v) {
      var w := ReachesInside(h, v, n);
      hide ValidHeap, Valid, Reaches, AtOdds, Holds, Refers;
      if Holds(v, w) && Reaches(h, w, n) {
        BoundIsTorn(h, w, a, b, n);
      } else {
        BoundIsTorn(h, w, a, b, n - 1);
      }
    }
  }

  /** A value that needs a module belongs to at most one owner. */
  lemma {:induction false} OwnerUnique(h: Heap, v: Value, a: Owner, b: Owner)
    requires ValidHeap(h) && Valid(h, v) && NeedsModule(h, v) && BelongsTo(h, v, a) && BelongsTo(h, v, b)
    ensures a == b
  {
    hide ValidHeap, Valid, Reaches, Strays;
    if a != b {
      var n: nat :| Reaches(h, v, n);
      BoundIsTorn(h, v, a, b, n);
    }
  }

  /** Without a bound value inside, whatever is at odds with one owner is at odds with every other. */
  lemma {:induction false} UnboundStraysAlike(h: Heap, v: Value, a: Owner, b: Owner, n: nat)
    requires ValidHeap(h) && Valid(h, v) && !NeedsModule(h, v) && Strays(h, v, a, n)
    ensures Strays(h, v, b, n)
    decreases n, v
  {
    assert !Reaches(h, v, 0);
    if !AtOdds(h, v, a) {
      if w :| Holds(v, w) && Valid(h, w) && Strays(h, w, a, n) {
        InsideUnbound(h, v, w);
        hide ValidHeap, Valid, NeedsModule, AtOdds, Holds, Refers;
        UnboundStraysAlike(h, w, a, b, n);
      } else {
        var w :| Refers(h, v, w) && Valid(h, w) && Strays(h, w, a, n - 1);
        InsideUnbound(h, v, w);
        hide ValidHeap, Valid, NeedsModule, AtOdds, Holds, Refers;
        UnboundStraysAlike(h, w, a, b, n - 1);
      }
    }
  }

  /** A value that needs no module and is someone's is everyone's. */
  lemma {:induction false} NothingBound(h: Heap, v: Value, a: Owner, b: Owner)
    requires ValidHeap(h) && Valid(h, v) && !NeedsModule(h, v) && BelongsTo(h, v, a)
    ensures BelongsTo(h, v, b)
  {
    hide ValidHeap, Valid, Reaches, Strays;
    forall n: nat ensures !Strays(h, v, b, n) {
      if Strays(h, v, b, n) { UnboundStraysAlike(h, v, b, a, n); }
    }
  }

  // ----- what an execution may do -----

  /** Descriptors and storages are immutable once shared; handle objects may change, and everything may be added to. */
  ghost predicate Grows(h: Heap, h': Heap) {
    && ValidHeap(h')
    && (forall id :: id in h.functions ==> id in h'.functions && h'.functions[id] == h.functions[id])
    && (forall id :: id in h.tables ==> id in h'.tables && h'.tables[id] == h.tables[id])
    && (forall id :: id in h.objects ==> id in h'.objects && (id in h.homes <==> id in h'.homes))
    && (forall id :: id in h.objects && id in h.homes ==> h'.homes[id] == h.homes[id])
  }

  /** A field map that differs is that of one of o's objects, and holds only what is o's. */
  ghost predicate WritesOnlyOwn(h: Heap, h': Heap, o: Owner)
    requires ValidHeap(h')
  {
    forall id :: id in h.objects && id in h'.objects && h'.objects[id] != h.objects[id] ==>
      && id in h.homes && h.homes[id] == o
      && forall w :: HasField(h'.objects[id], w) ==> Valid(h', w) && BelongsTo(h', w, o)
  }

  /**
   The assumption about code that runs under o: it leaves shared descriptors and storages alone, writes into o's own
   objects, and writes only what is o's.
   */
  ghost predicate RunsUnder(h: Heap, h': Heap, o: Owner) { Grows(h, h') && WritesOnlyOwn(h, h', o) }

  lemma {:induction false} GrowsValid(h: Heap, h': Heap, v: Value)
    requires Grows(h, h') && Valid(h, v)
    ensures Valid(h', v)
    decreases v
  {
    match v.payload
    case Cell(cells) => forall i | 0 <= i < |cells| ensures Valid(h', cells[i]) { GrowsValid(h, h', cells[i]); }
    case CommaList(items) => forall i | 0 <= i < |items| ensures Valid(h', items[i]) { GrowsValid(h, h', items[i]); }
    case NameValue(_, boxed) => forall i | 0 <= i < |boxed| ensures Valid(h', boxed[i]) { GrowsValid(h, h', boxed[i]); }
    case Struct(_, records) =>
      forall i | 0 <= i < |records| ensures ValidRecord(h', records[i]) { GrowsValidRecord(h, h', records[i]); }
    case Object(_, _, _, inline, parts, _, _, _) =>
      GrowsValidRecord(h, h', inline);
      forall i | 0 <= i < |parts| ensures Valid(h', parts[i]) { GrowsValid(h, h', parts[i]); }
    case _ =>
  }

  lemma {:induction false} GrowsValidRecord(h: Heap, h': Heap, r: Record)
    requires Grows(h, h') && ValidRecord(h, r)
    ensures ValidRecord(h', r)
    decreases r
  {
    forall name | name in r.fields ensures Valid(h', r.fields[name]) { GrowsValid(h, h', r.fields[name]); }
  }

  // ----- needing a module is not affected -----

  /** The two heaps are valid and tell the same story about every descriptor and storage they share. */
  ghost predicate Agree(h: Heap, k: Heap) {
    && ValidHeap(h) && ValidHeap(k)
    && (forall id :: id in h.functions && id in k.functions ==> h.functions[id] == k.functions[id])
    && (forall id :: id in h.tables && id in k.tables ==> h.tables[id] == k.tables[id])
  }

  lemma {:induction false} SameReach(h: Heap, k: Heap, v: Value, n: nat)
    requires Agree(h, k) && Valid(h, v) && Valid(k, v) && Reaches(h, v, n)
    ensures Reaches(k, v, n)
    decreases n, v
  {
    if !IsBound(h, v) {
      var w := ReachesInside(h, v, n);
      assert !IsBound(k, v);
      assert Holds(v, w) ==> Valid(k, w) by { if Holds(v, w) { HeldIsValid(k, v, w); } }
      assert !v.payload.Object? ==> (Refers(h, v, w) <==> Refers(k, v, w));
      assert Refers(k, v, w) ==> Valid(k, w) by { if Refers(k, v, w) { ReferredIsValid(k, v, w); } }
      hide Valid, Reaches, Holds, Refers, IsBound;
      if Enters(v, w) && Reaches(h, w, n) {
        SameReach(h, k, w, n);
        ReachesThrough(k, v, w, n);
      } else {
        SameReach(h, k, w, n - 1);
        ReachesThrough(k, v, w, n - 1);
      }
    }
  }

  // ----- belonging survives -----

  lemma {:induction false} SameOdds(h: Heap, h': Heap, o: Owner, v: Value, a: Owner)
    requires RunsUnder(h, h', o) && Valid(h, v) && Valid(h', v) && !AtOdds(h, v, a)
    ensures !AtOdds(h', v, a)
  {
    hide ValidHeap, BelongsTo;
  }

  /** What v leads to after the execution it led to before, or o wrote it into an object that was o's. */
  lemma {:induction false} SameInside(h: Heap, h': Heap, o: Owner, v: Value, a: Owner, w: Value)
    requires ValidHeap(h) && RunsUnder(h, h', o) && Valid(h, v) && Valid(h', v) && !AtOdds(h, v, a) && Refers(h', v, w)
    ensures Refers(h, v, w) || (a == o && Valid(h', w) && BelongsTo(h', w, o))
  {
    hide ValidHeap, BelongsTo;
  }

  lemma {:induction false} StillNothingStrays(h: Heap, h': Heap, o: Owner, v: Value, a: Owner, n: nat)
    requires ValidHeap(h) && RunsUnder(h, h', o) && Valid(h, v) && Valid(h', v) && BelongsTo(h, v, a)
    ensures !Strays(h', v, a, n)
    decreases n, v
  {
    BelongsIff(h, v, a);
    SameOdds(h, h', o, v, a);
    forall w | Holds(v, w) && Valid(h', w) ensures !Strays(h', w, a, n) {
      hide ValidHeap, Valid, RunsUnder, AtOdds, Holds, Refers, Strays;
      StillNothingStrays(h, h', o, w, a, n);
    }
    if n > 0 {
      forall w | Refers(h', v, w) && Valid(h', w) ensures !Strays(h', w, a, n - 1) {
        SameInside(h, h', o, v, a, w);
        hide ValidHeap, Valid, RunsUnder, AtOdds, Holds, Refers, Strays;
        if Refers(h, v, w) { StillNothingStrays(h, h', o, w, a, n - 1); }
      }
    }
  }

  /** An execution under o changes neither who needs a module nor whose anything is, o's own values included. */
  lemma {:induction false} RunKeepsOwnership(h: Heap, h': Heap, o: Owner, v: Value, a: Owner)
    requires ValidHeap(h) && RunsUnder(h, h', o) && Valid(h, v)
    ensures Valid(h', v) && (NeedsModule(h', v) <==> NeedsModule(h, v))
    ensures BelongsTo(h, v, a) ==> BelongsTo(h', v, a)
  {
    GrowsValid(h, h', v);
    assert Agree(h, h') && Agree(h', h);
    hide ValidHeap, Valid, Reaches, RunsUnder, Strays;
    forall n: nat ensures Reaches(h, v, n) <==> Reaches(h', v, n) {
      if Reaches(h, v, n) { SameReach(h, h', v, n); }
      if Reaches(h', v, n) { SameReach(h', h, v, n); }
    }
    if BelongsTo(h, v, a) {
      forall n: nat ensures !Strays(h', v, a, n) { StillNothingStrays(h, h', o, v, a, n); }
    }
  }
}
