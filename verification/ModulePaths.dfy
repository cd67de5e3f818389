/**
 What `runtimeValueRequiresModule` searches for, spelled out on values: paths
 that the search may follow, and the values at their end that only a module
 can interpret.
 */
module ModulePaths {
  import opened Wrappers
  import opened RuntimeValues
  import opened ModuleSearch
  import opened Ownership

  /**
   A function handle that runs on a module's code, an object of a class that a module defines, an exception, a graphics
   object that is no handle, or a descriptor of a dynamic property that lives in shared fields.
   */
  ghost predicate TiedToModule(h: Heap, v: Value) {
    match v.payload
    case Function(Some(id)) =>
      id in h.functions && (h.functions[id].backend == Hir || h.functions[id].backend == Bytecode)
    case Object(UserClass(_), _, _, _, _, _, _, _) => true
    case Object(ExceptionClass, _, _, _, _, _, _, _) => true
    case Object(GraphicsClass(_), handleObject, _, _, _, _, _, _) => !handleObject
    case Object(MetadataClass(_, dynamicProperty), _, shared, _, _, _, _, _) => dynamicProperty && shared.Some?
    case _ => false
  }

  /** The search goes on from v to w: an element, a field, or what a closure or a table holds. */
  ghost predicate LeadsTo(h: Heap, v: Value, w: Value) {
    match v.payload
    case Cell(cells) => w in cells
    case CommaList(items) => w in items
    case NameValue(_, boxed) => w in boxed
    case Struct(_, records) =>
      exists i, name :: 0 <= i < |records| && name in records[i].fields && records[i].fields[name] == w
    case Object(MetadataClass(_, _), _, _, _, cells, _, _, _) => w in cells
    case Function(Some(id)) =>
      && id in h.functions
      && (h.functions[id].receiver == Some(w)
          || exists name :: name in h.functions[id].captured.fields && h.functions[id].captured.fields[name] == w)
    case Tabular(id) =>
      && id in h.tables
      && ((h.tables[id].timetable && w == h.tables[id].rowTimes)
          || (exists i :: 0 <= i < |h.tables[id].variables| && w == h.tables[id].variables[i].value)
          || w == h.tables[id].userData)
    case _ => false
  }

  ghost predicate Path(h: Heap, p: seq<Value>) {
    p != [] && forall k :: 0 <= k < |p| - 1 ==> LeadsTo(h, p[k], p[k + 1])
  }

  /** A path that begins at v and ends at a value tied to a module. */
  ghost predicate PathToModule(h: Heap, v: Value, p: seq<Value>) {
    Path(h, p) && p[0] == v && TiedToModule(h, p[|p| - 1])
  }

  lemma {:induction false} TiedIsBound(h: Heap, v: Value)
    requires Valid(h, v)
    ensures v.payload.Function? && v.payload.handle.Some? ==> v.payload.handle.value in h.functions
    ensures TiedToModule(h, v) <==> IsBound(h, v)
  {
  }

  /** On the way from an unbound value, one step of the path is one step of the search. */
  lemma {:induction false} LeadsInside(h: Heap, v: Value, w: Value)
    requires Valid(h, v) && !IsBound(h, v)
    ensures LeadsTo(h, v, w) <==> Enters(v, w) || (!v.payload.Object? && Refers(h, v, w))
  {
    match v.payload
    case Struct(_, records) =>
      if i, name :| 0 <= i < |records| && name in records[i].fields && records[i].fields[name] == w {
        assert HasField(records[i], w);
      }
    case _ =>
  }

  lemma {:induction false} PathReaches(h: Heap, v: Value, p: seq<Value>)
    requires ValidHeap(h) && Valid(h, v) && PathToModule(h, v, p)
    ensures NeedsModule(h, v)
    decreases |p|
  {
    hide ValidHeap, Valid, LeadsTo, TiedToModule, Holds, Refers, Enters, IsBound;
    TiedIsBound(h, v);
    if IsBound(h, v) {
      assert Reaches(h, v, 0);
    } else {
      var w := p[1];
      assert LeadsTo(h, p[0], p[1]);
      LeadsInside(h, v, w);
      if Enters(v, w) { HeldIsValid(h, v, w); } else { ReferredIsValid(h, v, w); }
      assert p[1..][|p[1..]| - 1] == p[|p| - 1];
      forall k | 0 <= k < |p[1..]| - 1 ensures LeadsTo(h, p[1..][k], p[1..][k + 1]) {
        assert p[1..][k] == p[k + 1] && p[1..][k + 1] == p[k + 2];
      }
      PathReaches(h, w, p[1..]);
      var n: nat :| Reaches(h, w, n);
      hide Reaches;
      ReachesThrough(h, v, w, n);
    }
  }

  lemma {:induction false} ReachesByPath(h: Heap, v: Value, n: nat) returns (p: seq<Value>)
    requires ValidHeap(h) && Valid(h, v) && Reaches(h, v, n)
    ensures PathToModule(h, v, p)
    decreases n, v
  {
    hide ValidHeap, Valid, LeadsTo, TiedToModule, Refers, IsBound;
    TiedIsBound(h, v);
    if IsBound(h, v) {
      p := [v];
    } else {
      var w := ReachesInside(h, v, n);
      LeadsInside(h, v, w);
      var rest;
      if Enters(v, w) && Reaches(h, w, n) {
        rest := ReachesByPath(h, w, n);
      } else {
        rest := ReachesByPath(h, w, n - 1);
      }
      p := [v] + rest;
      forall k | 0 <= k < |p| - 1 ensures LeadsTo(h, p[k], p[k + 1]) {
        if k > 0 { assert p[k] == rest[k - 1] && p[k + 1] == rest[k]; }
      }
    }
  }

  /** A value needs its module exactly when some path leads from it to a value that is tied to one. */
  lemma {:induction false} NeedsModuleIff(h: Heap, v: Value)
    requires ValidHeap(h) && Valid(h, v)
    ensures NeedsModule(h, v) <==> exists p :: PathToModule(h, v, p)
  {
    hide ValidHeap, Valid, PathToModule, Reaches;
    if NeedsModule(h, v) {
      var n: nat :| Reaches(h, v, n);
      var p := ReachesByPath(h, v, n);
    }
    if p :| PathToModule(h, v, p) { PathReaches(h, v, p); }
  }

  // ----- all that is inside a value -----

  /** In a value that is someone's and needs no module, nothing at any depth is tied to one. */
  lemma {:induction false} NothingTiedInside(h: Heap, v: Value, o: Owner, w: Value, n: nat)
    requires ValidHeap(h) && Valid(h, v) && BelongsTo(h, v, o) && !NeedsModule(h, v) && Within(h, v, w, n)
    ensures Valid(h, w) && !TiedToModule(h, w)
    decreases n
  {
    hide ValidHeap, Valid, TiedToModule, IsBound, Strays, Refers, Holds, Inert;
    BelongsIff(h, v, o);
    assert !Reaches(h, v, 0);
    TiedIsBound(h, v);
    if w != v {
      var u :| (Holds(v, u) || Refers(h, v, u)) && Valid(h, u) && Within(h, u, w, n - 1);
      hide Reaches, NeedsModule;
      InsideUnbound(h, v, u);
      NothingTiedInside(h, u, o, w, n - 1);
    }
  }

  /** Under whom a value that is tied to a module was made. */
  ghost predicate AtHomeWith(h: Heap, w: Value, o: Owner) {
    match w.payload
    case Function(Some(id)) => id in h.functions && h.functions[id].home == o
    case Object(_, _, shared, _, _, _, _, home) =>
      home == o && (shared.Some? ==> shared.value in h.homes && h.homes[shared.value] == o)
    case _ => false
  }

  /** Everything tied to a module at any depth of what belongs to o was made under o. */
  lemma {:induction false} TiedIsAtHome(h: Heap, v: Value, o: Owner, w: Value, n: nat)
    requires ValidHeap(h) && Valid(h, v) && BelongsTo(h, v, o) && Within(h, v, w, n)
    ensures Valid(h, w) && (TiedToModule(h, w) ==> AtHomeWith(h, w, o))
  {
    hide ValidHeap, Valid, Strays, Within, IsBound;
    WithinBelongs(h, v, o, w, n);
    TiedIsBound(h, w);
  }
}
