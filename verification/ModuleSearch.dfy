/**
 `runtimeValueRequiresModule`: the depth-first search, through closures and
 tables that may be cyclic, for a value that only its module can interpret.
 */
module ModuleSearch {
  import opened Collections
  import opened RuntimeValues

  /** The object families the search treats as closed boxes that hold no module. */
  predicate SelfContained(p: Payload) {
    p.Object? && ((p.className.GraphicsClass? && p.handleObject) || p.className.TemporalClass?)
  }

  /** A live dynamic property descriptor refers to its owner's definitions. */
  predicate LiveDynamicProperty(p: Payload) {
    p.Object? && p.className.MetadataClass? && p.className.dynamicProperty && p.shared.Some?
  }

  /** v itself is bound to a module: a function handle with a backend, or an object of a class. */
  predicate IsBound(h: Heap, v: Value)
    requires v.payload.Function? && v.payload.handle.Some? ==> v.payload.handle.value in h.functions
  {
    match v.payload
    case Function(handle) => handle.Some? && h.functions[handle.value].backend != Independent
    case Object(className, _, _, _, _, _, _, _) =>
      !SelfContained(v.payload) && (!className.MetadataClass? || LiveDynamicProperty(v.payload))
    case _ => false
  }

  // ----- reachability -----

  /** A bound value is reachable from v through at most n shared descriptors or storages. */
  ghost predicate Reaches(h: Heap, v: Value, n: nat)
    requires ValidHeap(h) && Valid(h, v)
    decreases n, 1, v
  {
    IsBound(h, v) ||
    match v.payload
    case Function(handle) => handle.Some? && n > 0 && FunctionReaches(h, handle.value, n - 1)
    case Tabular(storage) => n > 0 && TableReaches(h, storage, n - 1)
    case Object(className, _, _, _, parts, _, _, _) =>
      !SelfContained(v.payload) && exists i :: 0 <= i < |parts| && Reaches(h, parts[i], n)
    case Cell(cells) => exists i :: 0 <= i < |cells| && Reaches(h, cells[i], n)
    case CommaList(items) => exists i :: 0 <= i < |items| && Reaches(h, items[i], n)
    case NameValue(_, boxed) => exists i :: 0 <= i < |boxed| && Reaches(h, boxed[i], n)
    case Struct(_, records) => exists i :: 0 <= i < |records| && RecordReaches(h, records[i], n)
    case _ => false
  }

  ghost predicate RecordReaches(h: Heap, r: Record, n: nat)
    requires ValidHeap(h) && ValidRecord(h, r)
    decreases n, 1, r
  {
    exists name :: name in r.fields && Reaches(h, r.fields[name], n)
  }

  ghost predicate FunctionReaches(h: Heap, id: Id, n: nat)
    requires ValidHeap(h) && id in h.functions
    decreases n, 2
  {
    var d := h.functions[id];
    (d.receiver.Some? && Reaches(h, d.receiver.value, n)) || RecordReaches(h, d.captured, n)
  }

  ghost predicate TableReaches(h: Heap, id: Id, n: nat)
    requires ValidHeap(h) && id in h.tables
    decreases n, 2
  {
    var t := h.tables[id];
    || (t.timetable && Reaches(h, t.rowTimes, n))
    || (exists i :: 0 <= i < |t.variables| && Reaches(h, t.variables[i].value, n))
    || Reaches(h, t.userData, n)
  }

  /** Some value reachable from v needs its module. */
  ghost predicate NeedsModule(h: Heap, v: Value)
    requires ValidHeap(h) && Valid(h, v)
  {
    exists n: nat :: Reaches(h, v, n)
  }

  // ----- the visited sets -----

  /** v holds no bound value of its own, and every descriptor or storage it points to has been visited. */
  ghost predicate Clear(h: Heap, v: Value, F: set<Id>, T: set<Id>)
    requires ValidHeap(h) && Valid(h, v)
    decreases v
  {
    && !IsBound(h, v)
    && match v.payload
       case Function(handle) => handle.Some? ==> handle.value in F
       case Tabular(storage) => storage in T
       case Object(_, _, _, _, parts, _, _, _) =>
         SelfContained(v.payload) || forall i :: 0 <= i < |parts| ==> Clear(h, parts[i], F, T)
       case Cell(cells) => forall i :: 0 <= i < |cells| ==> Clear(h, cells[i], F, T)
       case CommaList(items) => forall i :: 0 <= i < |items| ==> Clear(h, items[i], F, T)
       case NameValue(_, boxed) => forall i :: 0 <= i < |boxed| ==> Clear(h, boxed[i], F, T)
       case Struct(_, records) => forall i :: 0 <= i < |records| ==> ClearRecord(h, records[i], F, T)
       case _ => true
  }

  ghost predicate ClearRecord(h: Heap, r: Record, F: set<Id>, T: set<Id>)
    requires ValidHeap(h) && ValidRecord(h, r)
    decreases r
  {
    forall name :: name in r.fields ==> Clear(h, r.fields[name], F, T)
  }

  ghost predicate ClearFunction(h: Heap, id: Id, F: set<Id>, T: set<Id>)
    requires ValidHeap(h)
  {
    && id in h.functions
    && (h.functions[id].receiver.Some? ==> Clear(h, h.functions[id].receiver.value, F, T))
    && ClearRecord(h, h.functions[id].captured, F, T)
  }

  ghost predicate ClearTable(h: Heap, id: Id, F: set<Id>, T: set<Id>)
    requires ValidHeap(h)
  {
    && id in h.tables
    && (h.tables[id].timetable ==> Clear(h, h.tables[id].rowTimes, F, T))
    && (forall i :: 0 <= i < |h.tables[id].variables| ==> Clear(h, h.tables[id].variables[i].value, F, T))
    && Clear(h, h.tables[id].userData, F, T)
  }

  /** Everything visited between (F, T) and (F', T') is clear up to (F', T'). */
  ghost predicate ClearSince(h: Heap, F: set<Id>, T: set<Id>, F': set<Id>, T': set<Id>)
    requires ValidHeap(h)
  {
    && F <= F' <= h.functions.Keys && T <= T' <= h.tables.Keys
    && (forall id :: id in F' && id !in F ==> ClearFunction(h, id, F', T'))
    && (forall id :: id in T' && id !in T ==> ClearTable(h, id, F', T'))
  }

  lemma {:induction false} ClearMono(h: Heap, v: Value, F: set<Id>, T: set<Id>, F': set<Id>, T': set<Id>)
    requires ValidHeap(h) && Valid(h, v) && F <= F' && T <= T' && Clear(h, v, F, T)
    ensures Clear(h, v, F', T')
    decreases v
  {
    match v.payload
    case Object(_, _, _, _, parts, _, _, _) =>
      if !SelfContained(v.payload) {
        forall i | 0 <= i < |parts| ensures Clear(h, parts[i], F', T') { ClearMono(h, parts[i], F, T, F', T'); }
      }
    case Cell(cells) => forall i | 0 <= i < |cells| ensures Clear(h, cells[i], F', T') {
      ClearMono(h, cells[i], F, T, F', T');
    }
    case CommaList(items) => forall i | 0 <= i < |items| ensures Clear(h, items[i], F', T') {
      ClearMono(h, items[i], F, T, F', T');
    }
    case NameValue(_, boxed) => forall i | 0 <= i < |boxed| ensures Clear(h, boxed[i], F', T') {
      ClearMono(h, boxed[i], F, T, F', T');
    }
    case Struct(_, records) =>
      forall i | 0 <= i < |records| ensures ClearRecord(h, records[i], F', T') {
        ClearRecordMono(h, records[i], F, T, F', T');
      }
    case _ =>
  }

  lemma {:induction false} ClearRecordMono(h: Heap, r: Record, F: set<Id>, T: set<Id>, F': set<Id>, T': set<Id>)
    requires ValidHeap(h) && ValidRecord(h, r) && F <= F' && T <= T' && ClearRecord(h, r, F, T)
    ensures ClearRecord(h, r, F', T')
    decreases r
  {
    forall name | name in r.fields ensures Clear(h, r.fields[name], F', T') {
      ClearMono(h, r.fields[name], F, T, F', T');
    }
  }

  lemma {:induction false} ClearSinceTrans(h: Heap, F: set<Id>, T: set<Id>, F1: set<Id>, T1: set<Id>, F2: set<Id>,
                                           T2: set<Id>)
    requires ValidHeap(h) && ClearSince(h, F, T, F1, T1) && ClearSince(h, F1, T1, F2, T2)
    ensures ClearSince(h, F, T, F2, T2)
  {
    forall id | id in F2 && id !in F ensures ClearFunction(h, id, F2, T2) {
      if id in F1 {
        assert ClearFunction(h, id, F1, T1);
        var d := h.functions[id];
        if d.receiver.Some? { ClearMono(h, d.receiver.value, F1, T1, F2, T2); }
        ClearRecordMono(h, d.captured, F1, T1, F2, T2);
      }
    }
    forall id | id in T2 && id !in T ensures ClearTable(h, id, F2, T2) {
      if id in T1 {
        assert ClearTable(h, id, F1, T1);
        var t := h.tables[id];
        if t.timetable { ClearMono(h, t.rowTimes, F1, T1, F2, T2); }
        ClearMono(h, t.userData, F1, T1, F2, T2);
        forall i | 0 <= i < |t.variables| ensures Clear(h, t.variables[i].value, F2, T2) {
          ClearMono(h, t.variables[i].value, F1, T1, F2, T2);
        }
      }
    }
  }

  /** When the visited sets are closed, nothing bound can be reached from a clear value, at any distance. */
  lemma {:induction false} ClearNeverReaches(h: Heap, v: Value, F: set<Id>, T: set<Id>, n: nat)
    requires ValidHeap(h) && Valid(h, v) && ClearSince(h, {}, {}, F, T) && Clear(h, v, F, T)
    ensures !Reaches(h, v, n)
    decreases n, 1, v
  {
    match v.payload
    case Function(handle) =>
      if handle.Some? && n > 0 {
        assert ClearFunction(h, handle.value, F, T);
        var d := h.functions[handle.value];
        if d.receiver.Some? { ClearNeverReaches(h, d.receiver.value, F, T, n - 1); }
        ClearRecordNeverReaches(h, d.captured, F, T, n - 1);
      }
    case Tabular(storage) =>
      if n > 0 {
        assert ClearTable(h, storage, F, T);
        var t := h.tables[storage];
        if t.timetable { ClearNeverReaches(h, t.rowTimes, F, T, n - 1); }
        ClearNeverReaches(h, t.userData, F, T, n - 1);
        forall i | 0 <= i < |t.variables| ensures !Reaches(h, t.variables[i].value, n - 1) {
          ClearNeverReaches(h, t.variables[i].value, F, T, n - 1);
        }
      }
    case Object(_, _, _, _, parts, _, _, _) =>
      if !SelfContained(v.payload) {
        forall i | 0 <= i < |parts| ensures !Reaches(h, parts[i], n) {
          ClearNeverReaches(h, parts[i], F, T, n);
        }
      }
    case Cell(cells) =>
      forall i | 0 <= i < |cells| ensures !Reaches(h, cells[i], n) {
        ClearNeverReaches(h, cells[i], F, T, n);
      }
    case CommaList(items) =>
      forall i | 0 <= i < |items| ensures !Reaches(h, items[i], n) {
        ClearNeverReaches(h, items[i], F, T, n);
      }
    case NameValue(_, boxed) =>
      forall i | 0 <= i < |boxed| ensures !Reaches(h, boxed[i], n) {
        ClearNeverReaches(h, boxed[i], F, T, n);
      }
    case Struct(_, records) =>
      forall i | 0 <= i < |records| ensures !RecordReaches(h, records[i], n) {
        ClearRecordNeverReaches(h, records[i], F, T, n);
      }
    case _ =>
  }

  lemma {:induction false} ClearRecordNeverReaches(h: Heap, r: Record, F: set<Id>, T: set<Id>,
                                                   n: nat)
    requires ValidHeap(h) && ValidRecord(h, r) && ClearSince(h, {}, {}, F, T) && ClearRecord(h, r, F, T)
    ensures !RecordReaches(h, r, n)
    decreases n, 1, r
  {
    forall name | name in r.fields ensures !Reaches(h, r.fields[name], n) {
      ClearNeverReaches(h, r.fields[name], F, T, n);
    }
  }

  // ----- the search -----

  ghost function Unvisited(h: Heap, F: set<Id>, T: set<Id>): nat {
    |h.functions.Keys - F| + |h.tables.Keys - T|
  }

  lemma {:induction false} UnvisitedShrinks(h: Heap, F: set<Id>, T: set<Id>, F': set<Id>, T': set<Id>)
    requires F <= F' <= h.functions.Keys && T <= T' <= h.tables.Keys
    ensures Unvisited(h, F', T') <= Unvisited(h, F, T)
    ensures (F, T) != (F', T') ==> Unvisited(h, F', T') < Unvisited(h, F, T)
  {
    VisitingShrinks(h.functions.Keys, F, F');
    VisitingShrinks(h.tables.Keys, T, T');
  }

  ghost predicate NeedsSome(h: Heap, vs: seq<Value>)
    requires ValidHeap(h) && forall i :: 0 <= i < |vs| ==> Valid(h, vs[i])
  {
    exists i :: 0 <= i < |vs| && NeedsModule(h, vs[i])
  }

  ghost predicate RecordNeeds(h: Heap, r: Record) {
    ValidHeap(h) && ValidRecord(h, r) && exists n: nat :: RecordReaches(h, r, n)
  }

  /** The element loops: stop at the first element that needs its module. */
  method SearchSeq(h: Heap, vs: seq<Value>, F: set<Id>, T: set<Id>, ghost fuel: nat, ghost owner: Value)
    returns (found: bool, F': set<Id>, T': set<Id>)
    requires ValidHeap(h) && F <= h.functions.Keys && T <= h.tables.Keys
    requires forall i :: 0 <= i < |vs| ==> Valid(h, vs[i])
    requires Unvisited(h, F, T) <= fuel
    requires Unvisited(h, F, T) < fuel || forall i :: 0 <= i < |vs| ==> vs[i] < owner
    ensures found ==> NeedsSome(h, vs)
    ensures !found ==> ClearSince(h, F, T, F', T') && forall i :: 0 <= i < |vs| ==> Clear(h, vs[i], F', T')
    decreases fuel, owner, 1
  {
    hide Clear, ClearFunction, ClearTable, Valid, ValidHeap, NeedsModule, Unvisited;
    F', T' := F, T;
    for index := 0 to |vs|
      invariant ClearSince(h, F, T, F', T')
      invariant forall i :: 0 <= i < index ==> Clear(h, vs[i], F', T')
    {
      ghost var F1, T1 := F', T';
      UnvisitedShrinks(h, F, T, F', T');
      found, F', T' := Search(h, vs[index], F', T');
      if found {
        return;
      }
      ClearSinceTrans(h, F, T, F1, T1, F', T');
      forall i | 0 <= i < index ensures Clear(h, vs[i], F', T') { ClearMono(h, vs[i], F1, T1, F', T'); }
    }
    return false, F', T';
  }

  lemma {:induction false} FieldNeeds(h: Heap, r: Record, name: string)
    requires ValidHeap(h) && ValidRecord(h, r) && name in r.fields && NeedsModule(h, r.fields[name])
    ensures RecordNeeds(h, r)
  {
    hide ValidHeap, Valid, Reaches;
    var n: nat :| Reaches(h, r.fields[name], n);
    assert RecordReaches(h, r, n);
  }

  lemma {:induction false} FieldsStayClear(h: Heap, r: Record, pending: set<string>, F: set<Id>, T: set<Id>,
                                           F': set<Id>, T': set<Id>)
    requires ValidHeap(h) && ValidRecord(h, r) && F <= F' && T <= T'
    requires forall name :: name in r.fields && name !in pending ==> Clear(h, r.fields[name], F, T)
    ensures forall name :: name in r.fields && name !in pending ==> Clear(h, r.fields[name], F', T')
  {
    hide Clear, Valid, ValidHeap;
    forall name | name in r.fields && name !in pending ensures Clear(h, r.fields[name], F', T') {
      ClearMono(h, r.fields[name], F, T, F', T');
    }
  }

  /** The loops over named values, in any order. */
  method SearchRecord(h: Heap, r: Record, F: set<Id>, T: set<Id>, ghost fuel: nat, ghost owner: Value)
    returns (found: bool, F': set<Id>, T': set<Id>)
    requires ValidHeap(h) && F <= h.functions.Keys && T <= h.tables.Keys && ValidRecord(h, r)
    requires Unvisited(h, F, T) <= fuel
    requires Unvisited(h, F, T) < fuel || forall name :: name in r.fields ==> r.fields[name] < owner
    ensures found ==> RecordNeeds(h, r)
    ensures !found ==> ClearSince(h, F, T, F', T') && ClearRecord(h, r, F', T')
    decreases fuel, owner, 1
  {
    hide Clear, ClearFunction, ClearTable, Valid, Reaches, ValidHeap, NeedsModule, RecordNeeds, Unvisited;
    F', T' := F, T;
    var names := r.fields.Keys;
    while names != {}
      invariant names <= r.fields.Keys && ClearSince(h, F, T, F', T')
      invariant forall name :: name in r.fields && name !in names ==> Clear(h, r.fields[name], F', T')
      decreases names
    {
      var name :| name in names;
      ghost var before := names;
      names := names - {name};
      ghost var F1, T1 := F', T';
      UnvisitedShrinks(h, F, T, F', T');
      found, F', T' := Search(h, r.fields[name], F', T');
      if found {
        FieldNeeds(h, r, name);
        return;
      }
      ClearSinceTrans(h, F, T, F1, T1, F', T');
      FieldsStayClear(h, r, before, F1, T1, F', T');
    }
    return false, F', T';
  }

  method SearchRecords(h: Heap, records: seq<Record>, F: set<Id>, T: set<Id>, ghost owner: Value)
    returns (found: bool, F': set<Id>, T': set<Id>)
    requires ValidHeap(h) && F <= h.functions.Keys && T <= h.tables.Keys
    requires forall i :: 0 <= i < |records| ==> ValidRecord(h, records[i])
    requires forall i, name :: 0 <= i < |records| && name in records[i].fields ==> records[i].fields[name] < owner
    ensures found ==> exists i :: 0 <= i < |records| && RecordNeeds(h, records[i])
    ensures !found ==> ClearSince(h, F, T, F', T') && forall i :: 0 <= i < |records| ==>
      ClearRecord(h, records[i], F', T')
    decreases Unvisited(h, F, T), owner, 2
  {
    F', T' := F, T;
    for index := 0 to |records|
      invariant ClearSince(h, F, T, F', T')
      invariant forall i :: 0 <= i < index ==> ClearRecord(h, records[i], F', T')
    {
      ghost var F1, T1 := F', T';
      UnvisitedShrinks(h, F, T, F', T');
      found, F', T' := SearchRecord(h, records[index], F', T', Unvisited(h, F, T), owner);
      if found {
        return;
      }
      ClearSinceTrans(h, F, T, F1, T1, F', T');
      forall i | 0 <= i < index ensures ClearRecord(h, records[i], F', T') {
        ClearRecordMono(h, records[i], F1, T1, F', T');
      }
    }
    return false, F', T';
  }

  /** The graph a closure keeps alive, entered once per descriptor. */
  method SearchFunction(h: Heap, id: Id, F: set<Id>, T: set<Id>, ghost owner: Value)
    returns (found: bool, F': set<Id>, T': set<Id>)
    requires ValidHeap(h) && F <= h.functions.Keys && T <= h.tables.Keys
    requires id in h.functions && h.functions[id].backend == Independent
    ensures found ==> exists n: nat :: FunctionReaches(h, id, n)
    ensures !found ==> id in F' && ClearSince(h, F, T, F', T')
    decreases Unvisited(h, F, T), owner, 2
  {
    F', T' := F, T;
    if id in F {
      return false, F', T';
    }
    F' := F + {id};
    UnvisitedShrinks(h, F, T, F', T');
    ghost var F0, T0 := F', T';
    var d := h.functions[id];
    if d.receiver.Some? {
      found, F', T' := Search(h, d.receiver.value, F', T');
      if found {
        ghost var n: nat :| Reaches(h, d.receiver.value, n);
        assert FunctionReaches(h, id, n);
        return;
      }
    }
    ghost var F1, T1 := F', T';
    UnvisitedShrinks(h, F0, T0, F', T');
    found, F', T' := SearchRecord(h, d.captured, F', T', Unvisited(h, F, T), owner);
    if found {
      ghost var n: nat :| RecordReaches(h, d.captured, n);
      assert FunctionReaches(h, id, n);
    } else {
      if d.receiver.Some? { ClearMono(h, d.receiver.value, F1, T1, F', T'); }
      ClearSinceTrans(h, F0, T0, F1, T1, F', T');
      assert ClearFunction(h, id, F', T');
    }
  }

  /** A table's or timetable's values, entered once per storage. */
  method SearchTable(h: Heap, id: Id, F: set<Id>, T: set<Id>, ghost owner: Value)
    returns (found: bool, F': set<Id>, T': set<Id>)
    requires ValidHeap(h) && F <= h.functions.Keys && T <= h.tables.Keys && id in h.tables
    ensures found ==> exists n: nat :: TableReaches(h, id, n)
    ensures !found ==> id in T' && ClearSince(h, F, T, F', T')
    decreases Unvisited(h, F, T), owner, 2
  {
    F', T' := F, T;
    if id in T {
      return false, F', T';
    }
    T' := T + {id};
    UnvisitedShrinks(h, F, T, F', T');
    var vs := TableSeq(h.tables[id]);
    TableSeqValid(h, id);
    found, F', T' := SearchSeq(h, vs, F', T', Unvisited(h, F, T), owner);
    if found {
      TableSeqNeeds(h, id);
    } else {
      TableSeqClear(h, id, F', T');
    }
  }

  /** The values a storage holds, in the order they are searched. */
  function TableSeq(t: Table): seq<Value> {
    (if t.timetable then [t.rowTimes] else []) + (ValuesOf(t.variables) + [t.userData])
  }

  function ValuesOf(vs: seq<Variable>): (r: seq<Value>)
    ensures |r| == |vs| && forall i :: 0 <= i < |vs| ==> r[i] == vs[i].value
  {
    if vs == [] then [] else [vs[0].value] + ValuesOf(vs[1..])
  }

  lemma {:induction false} TableSeqValid(h: Heap, id: Id)
    requires ValidHeap(h) && id in h.tables
    ensures forall i :: 0 <= i < |TableSeq(h.tables[id])| ==> Valid(h, TableSeq(h.tables[id])[i])
  {
    hide Valid;
    assert ValidTable(h, h.tables[id]);
  }

  lemma {:induction false} TableSeqReaches(h: Heap, id: Id, i: nat, n: nat)
    requires ValidHeap(h) && id in h.tables && i < |TableSeq(h.tables[id])| && Valid(h, TableSeq(h.tables[id])[i])
    requires Reaches(h, TableSeq(h.tables[id])[i], n)
    ensures TableReaches(h, id, n)
  {
    hide Valid, Reaches;
    var t := h.tables[id];
    var k := if t.timetable then 1 else 0;
    if k <= i < k + |t.variables| { assert TableSeq(t)[i] == t.variables[i - k].value; }
  }

  lemma {:induction false} TableSeqNeeds(h: Heap, id: Id)
    requires ValidHeap(h) && id in h.tables
    requires forall i :: 0 <= i < |TableSeq(h.tables[id])| ==> Valid(h, TableSeq(h.tables[id])[i])
    requires NeedsSome(h, TableSeq(h.tables[id]))
    ensures exists n: nat :: TableReaches(h, id, n)
  {
    hide ValidHeap, Valid, Reaches, TableReaches, TableSeq;
    var vs := TableSeq(h.tables[id]);
    var i :| 0 <= i < |vs| && NeedsModule(h, vs[i]);
    var n: nat :| Reaches(h, vs[i], n);
    TableSeqReaches(h, id, i, n);
  }

  lemma {:induction false} TableSeqClear(h: Heap, id: Id, F: set<Id>, T: set<Id>)
    requires ValidHeap(h) && id in h.tables
    requires forall i :: 0 <= i < |TableSeq(h.tables[id])| ==>
      Valid(h, TableSeq(h.tables[id])[i]) && Clear(h, TableSeq(h.tables[id])[i], F, T)
    ensures ClearTable(h, id, F, T)
  {
    hide Valid, Clear;
    var t := h.tables[id];
    var k := if t.timetable then 1 else 0;
    assert TableSeq(t)[k + |t.variables|] == t.userData;
    assert t.timetable ==> TableSeq(t)[0] == t.rowTimes;
    forall i | 0 <= i < |t.variables| ensures Clear(h, t.variables[i].value, F, T) {
      assert TableSeq(t)[k + i] == t.variables[i].value;
    }
  }

  /** `runtimeValueRequiresModule` with its two visited sets. */
  method Search(h: Heap, v: Value, F: set<Id>, T: set<Id>) returns (found: bool, F': set<Id>, T': set<Id>)
    requires ValidHeap(h) && F <= h.functions.Keys && T <= h.tables.Keys && Valid(h, v)
    ensures found ==> NeedsModule(h, v)
    ensures !found ==> ClearSince(h, F, T, F', T') && Clear(h, v, F', T')
    decreases Unvisited(h, F, T), v, 3
  {
    hide ValidHeap, ClearFunction, ClearTable, RecordReaches, FunctionReaches, TableReaches, Unvisited;
    F', T' := F, T;
    found := false;
    match v.payload
    case Function(handle) =>
      if handle.Some? {
        if h.functions[handle.value].backend != Independent {
          assert Reaches(h, v, 0);
          found := true;
          return;
        }
        found, F', T' := SearchFunction(h, handle.value, F, T, v);
        if found {
          ghost var n: nat :| FunctionReaches(h, handle.value, n);
          assert Reaches(h, v, n + 1);
        }
      }
    case Tabular(storage) =>
      found, F', T' := SearchTable(h, storage, F, T, v);
      if found {
        ghost var n: nat :| TableReaches(h, storage, n);
        assert Reaches(h, v, n + 1);
      }
    case Object(className, _, _, _, parts, _, _, _) =>
      if !SelfContained(v.payload) {
        if !className.MetadataClass? || LiveDynamicProperty(v.payload) {
          assert Reaches(h, v, 0);
          found := true;
          return;
        }
        found, F', T' := SearchSeq(h, parts, F, T, Unvisited(h, F, T), v);
        if found { LiftSeq(h, v, parts); }
      }
    case Cell(cells) =>
      found, F', T' := SearchSeq(h, cells, F, T, Unvisited(h, F, T), v);
      if found { LiftSeq(h, v, cells); }
    case CommaList(items) =>
      found, F', T' := SearchSeq(h, items, F, T, Unvisited(h, F, T), v);
      if found { LiftSeq(h, v, items); }
    case NameValue(_, boxed) =>
      found, F', T' := SearchSeq(h, boxed, F, T, Unvisited(h, F, T), v);
      if found { LiftSeq(h, v, boxed); }
    case Struct(_, records) =>
      found, F', T' := SearchRecords(h, records, F, T, v);
      if found {
        ghost var i :| 0 <= i < |records| && RecordNeeds(h, records[i]);
        ghost var n: nat :| RecordReaches(h, records[i], n);
        assert Reaches(h, v, n);
      }
    case _ =>
  }

  lemma {:induction false} LiftSeq(h: Heap, v: Value, vs: seq<Value>)
    requires ValidHeap(h) && Valid(h, v)
    requires match v.payload
      case Object(_, _, _, _, parts, _, _, _) => vs == parts && !SelfContained(v.payload)
      case Cell(cells) => vs == cells
      case CommaList(items) => vs == items
      case NameValue(_, boxed) => vs == boxed
      case _ => false
    requires NeedsSome(h, vs)
    ensures NeedsModule(h, v)
  {
    var i :| 0 <= i < |vs| && NeedsModule(h, vs[i]);
    var n: nat :| Reaches(h, vs[i], n);
    assert Reaches(h, v, n);
  }

  /**
   `runtimeValueRequiresModule`: on every graph, cyclic or not, it returns, and
   says yes exactly when a bound value is reachable.
   */
  method RequiresModule(h: Heap, v: Value) returns (found: bool)
    requires ValidHeap(h) && Valid(h, v)
    ensures found <==> NeedsModule(h, v)
  {
    var F, T;
    found, F, T := Search(h, v, {}, {});
    if !found {
      forall n: nat ensures !Reaches(h, v, n) {
        ClearNeverReaches(h, v, F, T, n);
      }
    }
  }
}
