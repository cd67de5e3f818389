/**
 Value handles at the C boundary: how they come by an owner, and which of them
 an execution request accepts.

 The state is one host's view of the boundary: the shared stores, the live
 value handles and the live results.  What running code does is not modelled;
 it enters as `Execute`, which may change the heap and return any values, as
 long as what it writes and returns belongs to the module or runtime that ran.
 */
module ValueHandles {
  import opened Wrappers
  import opened Layout
  import opened RuntimeValues
  import opened ModuleSearch
  import opened Ownership
  import opened ModulePaths
  import Arrays = ColumnMajorArrays

  datatype Status = Ok | InvalidArgument | TypeMismatch | OutOfRange | OwnerMismatch | InternalError

  /** `ValueState`: two owner pointers, of which the protocol sets at most one. */
  datatype Holding = Holding(value: Value, owner: Option<Id>, runtimeOwner: Option<Id>)

  /** `mparser_result` */
  datatype Result = Result(outputs: seq<Value>, owner: Option<Id>, runtimeOwner: Option<Id>)

  function ResultFor(target: Owner, outputs: seq<Value>): Result {
    match target
    case ModuleOwner(m) => Result(outputs, Some(m), None)
    case RuntimeOwner(r) => Result(outputs, None, Some(r))
  }

  datatype Request = Request(target: Owner, carried: seq<Value>)

  datatype Field = Field(name: Option<string>, value: Option<Id>)

  /** `externallyTransportable` */
  predicate Transportable(p: Payload) {
    !p.CommaList? && !p.NameValue?
  }

  function TheOwner(owner: Option<Id>, runtimeOwner: Option<Id>): Owner {
    match owner
    case Some(m) => ModuleOwner(m)
    case None => RuntimeOwner(match runtimeOwner case Some(r) => r case None => 0)
  }

  /** The two pointers are enough to keep v's module alive, and nothing bound in v belongs elsewhere. */
  ghost predicate Backed(h: Heap, v: Value, owner: Option<Id>, runtimeOwner: Option<Id>)
    requires ValidHeap(h)
  {
    && Valid(h, v)
    && !(owner.Some? && runtimeOwner.Some?)
    && (NeedsModule(h, v) ==> owner.Some? || runtimeOwner.Some?)
    && BelongsTo(h, v, TheOwner(owner, runtimeOwner))
  }

  /** A handle has an owner exactly when its content needs one, and all its bound parts belong to that owner. */
  ghost predicate Sound(h: Heap, x: Holding)
    requires ValidHeap(h)
  {
    && Backed(h, x.value, x.owner, x.runtimeOwner)
    && (x.owner.Some? || x.runtimeOwner.Some? ==> NeedsModule(h, x.value))
  }

  ghost predicate AllBelong(h: Heap, vs: seq<Value>, o: Owner)
    requires ValidHeap(h)
  {
    forall i :: 0 <= i < |vs| ==> Valid(h, vs[i]) && BelongsTo(h, vs[i], o)
  }

  ghost predicate SoundResult(h: Heap, r: Result)
    requires ValidHeap(h)
  {
    && (r.owner.Some? != r.runtimeOwner.Some?)
    && AllBelong(h, r.outputs, TheOwner(r.owner, r.runtimeOwner))
  }

  // ----- what executions and composition keep -----

  lemma {:induction false} RunKeepsSound(h: Heap, h': Heap, o: Owner, x: Holding)
    requires ValidHeap(h) && RunsUnder(h, h', o) && Sound(h, x)
    ensures ValidHeap(h') && Sound(h', x)
  {
    RunKeepsOwnership(h, h', o, x.value, TheOwner(x.owner, x.runtimeOwner));
  }

  lemma {:induction false} RunKeepsAll(h: Heap, h': Heap, o: Owner, vs: seq<Value>, a: Owner)
    requires ValidHeap(h) && RunsUnder(h, h', o) && AllBelong(h, vs, a)
    ensures ValidHeap(h') && AllBelong(h', vs, a)
  {
    hide Valid, BelongsTo, NeedsModule;
    forall i | 0 <= i < |vs| ensures Valid(h', vs[i]) && BelongsTo(h', vs[i], a) {
      RunKeepsOwnership(h, h', o, vs[i], a);
    }
  }

  lemma {:induction false} CellOfParts(h: Heap, dims: Dimensions, cells: seq<Value>, o: Owner)
    requires ValidHeap(h) && (forall k :: 0 <= k < |dims| ==> dims[k] <= SIZE_MAX) && AllBelong(h, cells, o)
    ensures var v := Value(Double, dims, Cell(cells));
      && Valid(h, v) && BelongsTo(h, v, o)
      && (NeedsModule(h, v) <==> exists i :: 0 <= i < |cells| && NeedsModule(h, cells[i]))
  {
    var v := Value(Double, dims, Cell(cells));
    assert forall n: nat :: Reaches(h, v, n) <==> exists i :: 0 <= i < |cells| && Reaches(h, cells[i], n);
    BelongsIff(h, v, o);
    hide ValidHeap, Valid, Reaches, BelongsTo;
    if i :| 0 <= i < |cells| && NeedsModule(h, cells[i]) {
      var n: nat :| Reaches(h, cells[i], n);
      assert Reaches(h, v, n);
    }
  }

  lemma {:induction false} StructOfParts(h: Heap, order: seq<string>, r: Record, o: Owner)
    requires ValidHeap(h)
    requires forall name :: name in r.fields ==> Valid(h, r.fields[name]) && BelongsTo(h, r.fields[name], o)
    ensures var v := Value(Double, [1, 1], Struct(order, [r]));
      && Valid(h, v) && BelongsTo(h, v, o)
      && (NeedsModule(h, v) <==> exists name :: name in r.fields && NeedsModule(h, r.fields[name]))
  {
    var v := Value(Double, [1, 1], Struct(order, [r]));
    assert [r][0] == r && Valid(h, v);
    assert forall n: nat :: Reaches(h, v, n) <==> RecordReaches(h, r, n);
    forall w | Holds(v, w) ensures Valid(h, w) && BelongsTo(h, w, o) { assert HasField(r, w); }
    BelongsIff(h, v, o);
    hide Valid, Reaches, BelongsTo;
    RecordNeedsSome(h, r);
  }

  lemma {:induction false} RecordNeedsSome(h: Heap, r: Record)
    requires ValidHeap(h) && ValidRecord(h, r)
    ensures RecordNeeds(h, r) <==> exists name :: name in r.fields && NeedsModule(h, r.fields[name])
  {
    hide ValidHeap, Valid, Reaches;
    if name :| name in r.fields && NeedsModule(h, r.fields[name]) { FieldNeeds(h, r, name); }
    if RecordNeeds(h, r) {
      var n: nat :| RecordReaches(h, r, n);
      var name :| name in r.fields && Reaches(h, r.fields[name], n);
      assert NeedsModule(h, r.fields[name]);
    }
  }

  /** A part of a cell or a struct is backed by whatever backs the whole. */
  lemma {:induction false} PartBacked(h: Heap, x: Holding, part: Value)
    requires ValidHeap(h) && Sound(h, x) && (x.value.payload.Cell? || x.value.payload.Struct?) && Holds(x.value, part)
    ensures Backed(h, part, x.owner, x.runtimeOwner)
  {
    HeldIsValid(h, x.value, part);
    BelongsIff(h, x.value, TheOwner(x.owner, x.runtimeOwner));
    hide ValidHeap, Valid, Reaches, BelongsTo, Holds;
    if n: nat :| Reaches(h, part, n) { ReachesThrough(h, x.value, part, n); }
  }

  // ----- the boundary -----

  /** The two pointers are those that the handles have, and there are no two that conflict. */
  ghost predicate GatheredFrom(handles: map<Id, Holding>, ids: seq<Option<Id>>, owner: Option<Id>,
                               runtimeOwner: Option<Id>)
    requires forall i :: 0 <= i < |ids| && ids[i].Some? ==> ids[i].value in handles
  {
    && !(owner.Some? && runtimeOwner.Some?)
    && (forall i :: 0 <= i < |ids| ==> ids[i].Some?)
    && (forall i :: 0 <= i < |ids| ==> handles[ids[i].value].owner.Some? ==> handles[ids[i].value].owner == owner)
    && (forall i :: 0 <= i < |ids| ==>
          handles[ids[i].value].runtimeOwner.Some? ==> handles[ids[i].value].runtimeOwner == runtimeOwner)
    && (owner.Some? ==> exists i :: 0 <= i < |ids| && handles[ids[i].value].owner == owner)
    && (runtimeOwner.Some? ==> exists i :: 0 <= i < |ids| && handles[ids[i].value].runtimeOwner == runtimeOwner)
  }

  class Boundary {
    /** The verdict of `validateRuntimeValueContract` and `buildExternalCaches`. */
    const accepts: (Heap, Value) -> bool
    var heap: Heap
    var handles: map<Id, Holding>
    var results: map<Id, Result>
    var next: Id
    ghost var accepted: seq<Request>

    /**
     The protocol's invariant.  Its last conjunct is the safety property of a whole run: no request that was ever
     accepted carries anything, however deep inside a value, that is bound to another module or runtime.
     */
    ghost predicate Valid()
      reads this
    {
      && ValidHeap(heap)
      && (forall id :: id in handles ==> id < next && Sound(heap, handles[id]))
      && (forall id :: id in results ==> id < next && SoundResult(heap, results[id]))
      && (forall k :: 0 <= k < |accepted| ==> AllBelong(heap, accepted[k].carried, accepted[k].target))
    }

    constructor (accepts: (Heap, Value) -> bool)
      ensures Valid() && handles == map[] && results == map[] && accepted == []
      ensures this.accepts == accepts
    {
      this.accepts := accepts;
      heap := Heap(map[], map[], map[], map[]);
      handles, results, next, accepted := map[], map[], 0, [];
    }

    predicate Live(ids: seq<Option<Id>>)
      reads this
    {
      forall i :: 0 <= i < |ids| && ids[i].Some? ==> ids[i].value in handles
    }

    /** What a handle holds that was published with these owners: it keeps them exactly if the value needs a module. */
    ghost function Kept(value: Value, owner: Option<Id>, runtimeOwner: Option<Id>): Holding
      requires ValidHeap(heap) && RuntimeValues.Valid(heap, value)
      reads this
    {
      if NeedsModule(heap, value) then Holding(value, owner, runtimeOwner) else Holding(value, None, None)
    }

    /** A new handle was published and nothing else changed. */
    twostate predicate Published(new out: Option<Id>, new value: Value)
      reads this
    {
      && out == Some(old(next)) && old(next) !in old(handles) && old(next) in handles
      && handles[old(next)].value == value
      && handles == old(handles)[old(next) := handles[old(next)]]
    }

    /** `makeValueHandle`: publish a value, keeping its owner only if the value needs one. */
    method MakeValueHandle(value: Value, owner: Option<Id>, runtimeOwner: Option<Id>)
      returns (status: Status, out: Option<Id>)
      requires Valid() && Backed(heap, value, owner, runtimeOwner)
      modifies this`handles, this`next
      ensures Valid()
      ensures status == if value.payload.CommaList? || value.payload.NameValue? then TypeMismatch
                        else if !accepts(heap, value) then InternalError else Ok
      ensures status != Ok ==> out == None && handles == old(handles)
      ensures status == Ok ==> Published(out, value) && handles[out.value] == Kept(value, owner, runtimeOwner)
    {
      hide SoundResult, AllBelong;
      var requiresModule := false;
      if owner.Some? || runtimeOwner.Some? {
        requiresModule := RequiresModule(heap, value);
      }
      if !Transportable(value.payload) {
        return TypeMismatch, None;
      }
      if !accepts(heap, value) {
        return InternalError, None;
      }
      var holding := if requiresModule then Holding(value, owner, runtimeOwner) else Holding(value, None, None);
      assert requiresModule == NeedsModule(heap, value);
      hide ValidHeap, RuntimeValues.Valid, NeedsModule, BelongsTo;
      if !requiresModule { NothingBound(heap, value, TheOwner(owner, runtimeOwner), TheOwner(None, None)); }
      assert Sound(heap, holding);
      hide Sound;
      handles := handles[next := holding];
      out := Some(next);
      next := next + 1;
      status := Ok;
    }

    // ----- composing values -----

    /** All the handles are there, and nothing bound in them belongs to anyone but o. */
    ghost predicate CouldOwn(ids: seq<Option<Id>>, o: Owner)
      requires Valid() && Live(ids)
      reads this
    {
      forall i :: 0 <= i < |ids| ==> ids[i].Some? && BelongsTo(heap, handles[ids[i].value].value, o)
    }

    /** All the handles are there, and one owner could have made all of them. */
    ghost predicate Composable(ids: seq<Option<Id>>)
      requires Valid() && Live(ids)
      reads this
    {
      exists o :: CouldOwn(ids, o)
    }

    /** The pointers gathered from the handles so far. */
    ghost predicate Gathered(ids: seq<Option<Id>>, owner: Option<Id>, runtimeOwner: Option<Id>)
      requires Live(ids)
      reads this
    {
      GatheredFrom(handles, ids, owner, runtimeOwner)
    }

    lemma {:induction false} GatheredBacks(ids: seq<Option<Id>>, owner: Option<Id>, runtimeOwner: Option<Id>)
      requires Valid() && Live(ids) && Gathered(ids, owner, runtimeOwner)
      ensures Composable(ids)
      ensures forall i :: 0 <= i < |ids| ==> Backed(heap, handles[ids[i].value].value, owner, runtimeOwner)
    {
      hide ValidHeap, RuntimeValues.Valid, NeedsModule, BelongsTo, SoundResult, AllBelong;
      forall i | 0 <= i < |ids| ensures Backed(heap, handles[ids[i].value].value, owner, runtimeOwner) {
        var x := handles[ids[i].value];
        assert Sound(heap, x);
        if !NeedsModule(heap, x.value) {
          NothingBound(heap, x.value, TheOwner(x.owner, x.runtimeOwner), TheOwner(owner, runtimeOwner));
        }
      }
      assert CouldOwn(ids, TheOwner(owner, runtimeOwner));
    }

    lemma {:induction false} Conflict(ids: seq<Option<Id>>, owner: Option<Id>, runtimeOwner: Option<Id>, x: Option<Id>)
      requires Valid() && Live(ids) && Gathered(ids, owner, runtimeOwner) && x.Some? && x.value in handles
      requires owner.Some? || runtimeOwner.Some?
      requires handles[x.value].owner.Some? || handles[x.value].runtimeOwner.Some?
      requires (owner, runtimeOwner) != (handles[x.value].owner, handles[x.value].runtimeOwner)
      ensures Live(ids + [x]) && !Composable(ids + [x])
    {
      hide ValidHeap, RuntimeValues.Valid, NeedsModule, BelongsTo, SoundResult, AllBelong;
      var all := ids + [x];
      var i :| 0 <= i < |ids| && (if owner.Some? then handles[ids[i].value].owner == owner
                                  else handles[ids[i].value].runtimeOwner == runtimeOwner);
      var a, b := handles[all[i].value], handles[all[|ids|].value];
      assert Sound(heap, a) && Sound(heap, b);
      if Composable(all) {
        var o :| CouldOwn(all, o);
        OwnerUnique(heap, a.value, o, TheOwner(a.owner, a.runtimeOwner));
        OwnerUnique(heap, b.value, o, TheOwner(b.owner, b.runtimeOwner));
        assert false;
      }
    }

    /** The ownership step shared by the cell and the struct loops. */
    method Gather(ghost ids: seq<Option<Id>>, x: Id, owner: Option<Id>, runtimeOwner: Option<Id>)
      returns (ok: bool, owner': Option<Id>, runtimeOwner': Option<Id>)
      requires Valid() && Live(ids) && x in handles && Gathered(ids, owner, runtimeOwner)
      ensures Live(ids + [Some(x)])
      ensures ok ==> Gathered(ids + [Some(x)], owner', runtimeOwner')
      ensures ok <==> Composable(ids + [Some(x)])
    {
      owner', runtimeOwner' := owner, runtimeOwner;
      ghost var all := ids + [Some(x)];
      var candidate := handles[x];
      assert Sound(heap, candidate) && !(candidate.owner.Some? && candidate.runtimeOwner.Some?);
      hide Sound, SoundResult, AllBelong, ValidHeap;
      if candidate.owner.Some? {
        if runtimeOwner'.Some? || (owner'.Some? && owner' != candidate.owner) {
          Conflict(ids, owner, runtimeOwner, Some(x));
          return false, owner', runtimeOwner';
        }
        owner' := candidate.owner;
      }
      if candidate.runtimeOwner.Some? {
        if owner'.Some? || (runtimeOwner'.Some? && runtimeOwner' != candidate.runtimeOwner) {
          Conflict(ids, owner, runtimeOwner, Some(x));
          return false, owner', runtimeOwner';
        }
        runtimeOwner' := candidate.runtimeOwner;
      }
      GatheredMore(ids, x, owner, runtimeOwner, owner', runtimeOwner');
      GatheredBacks(all, owner', runtimeOwner');
      return true, owner', runtimeOwner';
    }

    lemma {:induction false} GatheredMore(ids: seq<Option<Id>>, x: Id, owner: Option<Id>, runtimeOwner: Option<Id>,
                       owner': Option<Id>, runtimeOwner': Option<Id>)
      requires Live(ids) && x in handles && Gathered(ids, owner, runtimeOwner)
      requires !(owner'.Some? && runtimeOwner'.Some?)
      requires owner' == if handles[x].owner.Some? then handles[x].owner else owner
      requires runtimeOwner' == if handles[x].runtimeOwner.Some? then handles[x].runtimeOwner else runtimeOwner
      requires owner.Some? ==> owner' == owner
      requires runtimeOwner.Some? ==> runtimeOwner' == runtimeOwner
      ensures Live(ids + [Some(x)]) && Gathered(ids + [Some(x)], owner', runtimeOwner')
    {
      var all := ids + [Some(x)];
      assert all[|ids|] == Some(x);
      if owner.Some? {
        var i :| 0 <= i < |ids| && handles[ids[i].value].owner == owner;
        assert handles[all[i].value].owner == owner';
      }
      if runtimeOwner.Some? {
        var i :| 0 <= i < |ids| && handles[ids[i].value].runtimeOwner == runtimeOwner;
        assert handles[all[i].value].runtimeOwner == runtimeOwner';
      }
    }

    /** Handle k is the first to spoil the composition, and status says how. */
    ghost predicate Spoils(ids: seq<Option<Id>>, k: int, status: Status)
      requires Valid() && Live(ids)
      reads this
    {
      && 0 <= k < |ids| && Composable(ids[..k]) && !Composable(ids[..k + 1])
      && status == if ids[k] == None then InvalidArgument else OwnerMismatch
    }

    /**
     `ownerForComposedValues`: it accepts a list exactly when every handle is there and one owner could have made them
     all; otherwise the first handle that spoils this decides the status.
     */
    method OwnerForComposedValues(ids: seq<Option<Id>>)
      returns (status: Status, owner: Option<Id>, runtimeOwner: Option<Id>)
      requires Valid() && Live(ids)
      ensures status == Ok <==> Composable(ids)
      ensures status == Ok ==> Gathered(ids, owner, runtimeOwner)
      ensures status != Ok ==> exists k :: Spoils(ids, k, status)
    {
      owner, runtimeOwner := None, None;
      for index := 0 to |ids|
        invariant Gathered(ids[..index], owner, runtimeOwner)
      {
        ghost var done := ids[..index];
        assert ids[..index + 1] == done + [ids[index]];
        GatheredBacks(done, owner, runtimeOwner);
        if ids[index] == None {
          assert !Composable(ids[..index + 1]) by { assert ids[..index + 1][index] == None; }
          PrefixComposable(ids, index + 1);
          assert Spoils(ids, index, if ids[index] == None then InvalidArgument else OwnerMismatch);
          return InvalidArgument, owner, runtimeOwner;
        }
        var ok;
        ok, owner, runtimeOwner := Gather(done, ids[index].value, owner, runtimeOwner);
        if !ok {
          PrefixComposable(ids, index + 1);
          assert Spoils(ids, index, if ids[index] == None then InvalidArgument else OwnerMismatch);
          return OwnerMismatch, owner, runtimeOwner;
        }
      }
      assert ids[..|ids|] == ids;
      GatheredBacks(ids, owner, runtimeOwner);
      return Ok, owner, runtimeOwner;
    }

    lemma {:induction false} PrefixComposable(ids: seq<Option<Id>>, k: nat)
      requires Valid() && Live(ids) && k <= |ids|
      ensures Composable(ids) ==> Composable(ids[..k])
    {
      hide ValidHeap, RuntimeValues.Valid, NeedsModule, BelongsTo, SoundResult, AllBelong, Sound;
      assert forall o :: CouldOwn(ids, o) ==> CouldOwn(ids[..k], o);
    }

    /** The host's own numbers, texts and missing values carry no owner. */
    method CreateLeaf(value: Value) returns (status: Status, out: Option<Id>)
      requires Valid() && RuntimeValues.Valid(heap, value)
      requires value.payload.Dense? || value.payload.Characters? || value.payload.Strings?
        || value.payload.MissingArray?
      modifies this`handles, this`next
      ensures Valid()
      ensures status == if accepts(heap, value) then Ok else InternalError
      ensures status != Ok ==> out == None && handles == old(handles)
      ensures status == Ok ==> Published(out, value) && handles[out.value] == Holding(value, None, None)
    {
      assert forall n: nat :: !Reaches(heap, value, n);
      BelongsIff(heap, value, TheOwner(None, None));
      hide ValidHeap, RuntimeValues.Valid, BelongsTo, Reaches, Sound, SoundResult, AllBelong;
      status, out := MakeValueHandle(value, None, None);
    }

    /** The values behind a list of handles. */
    ghost function Contents(ids: seq<Option<Id>>): (vs: seq<Value>)
      requires Live(ids) && forall i :: 0 <= i < |ids| ==> ids[i].Some?
      reads this
      ensures |vs| == |ids| && forall i :: 0 <= i < |ids| ==> vs[i] == handles[ids[i].value].value
    {
      var live := handles;
      seq(|ids|, i requires 0 <= i < |ids| && ids[i].Some? && ids[i].value in live => live[ids[i].value].value)
    }

    /** The loops that copy the handles' values out. */
    method Collect(ids: seq<Option<Id>>) returns (elements: seq<Value>)
      requires Live(ids) && forall i :: 0 <= i < |ids| ==> ids[i].Some?
      ensures elements == Contents(ids)
    {
      elements := [];
      for index := 0 to |ids|
        invariant elements == Contents(ids)[..index]
      {
        elements := elements + [handles[ids[index].value].value];
      }
    }

    /** The cell that a list of handles describes. */
    ghost function CellOf(dims: Dimensions, ids: seq<Option<Id>>): (v: Value)
      requires Live(ids) && (forall i :: 0 <= i < |ids| ==> ids[i].Some?)
      requires |dims| >= 2 && CheckedProduct(dims) == Some(|ids|)
      reads this
    {
      NormalizeKeepsLayout(dims);
      Value(Double, Normalize(dims), Cell(Arrays.Stored(Normalize(dims), Contents(ids))))
    }

    lemma {:induction false} CellBacked(dims: Dimensions, ids: seq<Option<Id>>, owner: Option<Id>,
                                        runtimeOwner: Option<Id>)
      requires Valid() && Live(ids) && Gathered(ids, owner, runtimeOwner)
      requires |dims| >= 2 && CheckedProduct(dims) == Some(|ids|)
      requires forall k :: 0 <= k < |dims| ==> dims[k] <= SIZE_MAX
      ensures Backed(heap, CellOf(dims, ids), owner, runtimeOwner)
    {
      var shape := Normalize(dims);
      NormalizeKeepsLayout(dims);
      NormalizeFits(dims);
      hide ValidHeap, RuntimeValues.Valid, NeedsModule, BelongsTo, SoundResult, Sound, Product, LogicalIndex, Normalize;
      GatheredBacks(ids, owner, runtimeOwner);
      var cells := Arrays.Stored(shape, Contents(ids));
      forall o | 0 <= o < |cells| ensures Backed(heap, cells[o], owner, runtimeOwner) {
        LogicalIndexInRange(shape, o);
        assert cells[o] == Contents(ids)[LogicalIndex(shape, o)];
      }
      CellOfParts(heap, shape, cells, TheOwner(owner, runtimeOwner));
    }

    /** The loop that stores the handles' values in row-major order. */
    method BuildCell(dims: Dimensions, ids: seq<Option<Id>>) returns (v: Value)
      requires Live(ids) && (forall i :: 0 <= i < |ids| ==> ids[i].Some?)
      requires |dims| >= 2 && CheckedProduct(dims) == Some(|ids|)
      ensures v == CellOf(dims, ids)
    {
      var elements := Collect(ids);
      hide Normalize, Product, PrefixesFit, Contents, Arrays.Stored;
      var _, shape, storage := Arrays.CreateFromColumnMajor(dims, elements, Value(Double, [0, 0], Missing));
      v := Value(Double, shape, Cell(storage[..]));
    }

    /** `mparser_value_create_cell` */
    method CreateCell(dims: Dimensions, ids: seq<Option<Id>>) returns (status: Status, out: Option<Id>)
      requires Valid() && Live(ids) && forall k :: 0 <= k < |dims| ==> dims[k] <= SIZE_MAX
      modifies this`handles, this`next
      ensures Valid()
      ensures !(|dims| >= 2 && CheckedProduct(dims) == Some(|ids|)) ==> status == InvalidArgument
      ensures |dims| >= 2 && CheckedProduct(dims) == Some(|ids|) ==>
        if old(Composable(ids)) then status == (if accepts(heap, old(CellOf(dims, ids))) then Ok else InternalError)
        else exists k :: old(Spoils(ids, k, status))
      ensures status != Ok ==> out == None && handles == old(handles)
      ensures status == Ok ==>
        && |dims| >= 2 && CheckedProduct(dims) == Some(|ids|) && old(Composable(ids))
        && Published(out, old(CellOf(dims, ids)))
        && exists owner, runtimeOwner ::
             && GatheredFrom(old(handles), ids, owner, runtimeOwner)
             && handles[out.value] == Kept(old(CellOf(dims, ids)), owner, runtimeOwner)
    {
      var shaped := Arrays.CopyDimensions(dims, |ids|);
      if shaped != Arrays.Ok {
        return InvalidArgument, None;
      }
      var owner, runtimeOwner;
      status, owner, runtimeOwner := OwnerForComposedValues(ids);
      assert Composable(ids) ==> forall i :: 0 <= i < |ids| ==> ids[i].Some?;
      hide Valid, Composable, Spoils, GatheredFrom, Kept, CellOf, Contents, CheckedProduct, Arrays.Stored, Normalize,
        Backed;
      if status != Ok {
        return status, None;
      }
      var v := BuildCell(dims, ids);
      CellBacked(dims, ids, owner, runtimeOwner);
      assert Transportable(v.payload);
      status, out := MakeValueHandle(v, owner, runtimeOwner);
    }

    // ----- structs -----

    /** Names present and distinct, values present, and one owner could have made them all. */
    ghost predicate WellFormed(fields: seq<Field>)
      requires Valid() && Live(Ids(fields))
      reads this
    {
      && (forall i :: 0 <= i < |fields| ==> fields[i].name.Some? && fields[i].name.value != "")
      && (forall i, j :: 0 <= i < j < |fields| ==> fields[i].name != fields[j].name)
      && Composable(Ids(fields))
    }

    /** Field k is the first to spoil the struct, and status says how. */
    ghost predicate SpoilsStruct(fields: seq<Field>, k: int, status: Status)
      requires Valid() && Live(Ids(fields))
      reads this
    {
      && 0 <= k < |fields| && Live(Ids(fields[..k])) && Live(Ids(fields[..k + 1]))
      && WellFormed(fields[..k]) && !WellFormed(fields[..k + 1])
      && status == if fields[k].name in {None, Some("")} || fields[k].value == None || Composable(Ids(fields[..k + 1]))
                   then InvalidArgument else OwnerMismatch
    }

    /** The struct that a list of well-formed fields describes: its fields in the host's order. */
    ghost predicate Describes(record: Record, order: seq<string>, fields: seq<Field>)
      requires Live(Ids(fields))
      reads this
    {
      && |order| == |fields|
      && (forall name :: name in record.fields <==> name in order)
      && forall i :: 0 <= i < |fields| ==>
          && fields[i].name == Some(order[i]) && fields[i].value.Some? && order[i] in record.fields
          && record.fields[order[i]] == handles[fields[i].value.value].value
    }

    lemma {:induction false} IdsOfPrefix(fields: seq<Field>, k: nat)
      requires k < |fields| && Live(Ids(fields))
      ensures Ids(fields[..k]) == Ids(fields)[..k]
      ensures Ids(fields[..k + 1]) == Ids(fields[..k]) + [fields[k].value]
      ensures Live(Ids(fields[..k])) && Live(Ids(fields[..k + 1]))
    {
      assert fields[..k + 1][k] == fields[k];
      assert Ids(fields[..k + 1]) == Ids(fields[..k]) + [fields[k].value];
    }

    lemma {:induction false} WellFormedPrefix(fields: seq<Field>, k: nat)
      requires Valid() && Live(Ids(fields)) && k <= |fields| && Live(Ids(fields[..k]))
      ensures WellFormed(fields) ==> WellFormed(fields[..k])
    {
      assert Ids(fields[..k]) == Ids(fields)[..k];
      hide Valid, Composable;
      PrefixComposable(Ids(fields), k);
    }

    lemma {:induction false} SpoiltForGood(fields: seq<Field>, k: int, status: Status)
      requires Valid() && Live(Ids(fields)) && SpoilsStruct(fields, k, status)
      ensures !WellFormed(fields)
    {
      hide Valid, Live, WellFormed;
      WellFormedPrefix(fields, k + 1);
    }

    lemma {:induction false} StructBacked(fields: seq<Field>, order: seq<string>, record: Record, owner: Option<Id>,
                                          runtimeOwner: Option<Id>)
      requires Valid() && Live(Ids(fields)) && Gathered(Ids(fields), owner, runtimeOwner)
        && Describes(record, order, fields)
      ensures Backed(heap, StructOf(order, record), owner, runtimeOwner)
    {
      hide ValidHeap, RuntimeValues.Valid, NeedsModule, BelongsTo, SoundResult, Sound;
      GatheredBacks(Ids(fields), owner, runtimeOwner);
      forall name | name in record.fields ensures Backed(heap, record.fields[name], owner, runtimeOwner) {
        var i :| 0 <= i < |order| && order[i] == name;
        assert Ids(fields)[i] == fields[i].value;
      }
      StructOfParts(heap, order, record, TheOwner(owner, runtimeOwner));
    }

    predicate Named(field: Field) { field.name.Some? && field.name.value != "" }

    lemma {:induction false} UnusableName(field: Field)
      ensures Named(field) <==> !(field.name == None || field.name.value == "")
    {
    }

    /** What the next field does to a well-formed prefix. */
    lemma {:induction false} NextField(fields: seq<Field>, k: nat)
      requires Valid() && Live(Ids(fields)) && k < |fields| && Live(Ids(fields[..k])) && Live(Ids(fields[..k + 1]))
      requires WellFormed(fields[..k])
      ensures !Named(fields[k]) || fields[k].value == None ==> SpoilsStruct(fields, k, InvalidArgument)
      ensures Named(fields[k]) && fields[k].value.Some? && !Composable(Ids(fields[..k + 1])) ==>
        SpoilsStruct(fields, k, OwnerMismatch)
      ensures Composable(Ids(fields[..k + 1])) && (exists i :: 0 <= i < k && fields[i].name == fields[k].name) ==>
        SpoilsStruct(fields, k, InvalidArgument)
      ensures
        (Composable(Ids(fields[..k + 1])) && Named(fields[k])
         && (forall i :: 0 <= i < k ==> fields[i].name != fields[k].name)) ==> WellFormed(fields[..k + 1])
    {
      var now, more := fields[..k], fields[..k + 1];
      assert more[k] == fields[k] && more == now + [fields[k]];
      assert forall i :: 0 <= i < k ==> more[i] == now[i] == fields[i];
      assert fields[k].value == None ==> !Composable(Ids(more)) by { assert Ids(more)[k] == fields[k].value; }
      hide Valid, Composable, Live;
      if !Named(fields[k]) {
        assert fields[k].name in {None, Some("")};
        assert !WellFormed(more) by { assert !Named(more[k]); }
      } else if i :| 0 <= i < k && fields[i].name == fields[k].name {
        assert !WellFormed(more) by { assert more[i].name == more[k].name; }
      } else if Composable(Ids(more)) {
        assert WellFormed(more);
      }
    }

    lemma {:induction false} HoldsMore(fields: seq<Field>, k: nat, order: seq<string>, record: Record, name: string,
                                       x: Id)
      requires k < |fields| && Live(Ids(fields[..k])) && Live(Ids(fields[..k + 1]))
        && Describes(record, order, fields[..k])
      requires fields[k] == Field(Some(name), Some(x)) && x in handles
      ensures name in record.fields <==> exists i :: 0 <= i < k && fields[i].name == Some(name)
      ensures name !in record.fields ==>
        Describes(Record(record.fields[name := handles[x].value]), order + [name], fields[..k + 1])
    {
      var now, more := fields[..k], fields[..k + 1];
      assert more == now + [fields[k]];
      assert forall i :: 0 <= i < k ==> more[i] == now[i] == fields[i];
      if name in record.fields {
        var i :| 0 <= i < |order| && order[i] == name;
        assert fields[i].name == now[i].name == Some(name);
      } else {
        forall i | 0 <= i < k ensures order[i] != name { assert order[i] in record.fields; }
      }
    }

    lemma {:induction false} NoFields(fields: seq<Field>)
      requires Valid()
      ensures Live(Ids(fields[..0])) && Gathered(Ids(fields[..0]), None, None) && WellFormed(fields[..0])
      ensures Describes(Record(map[]), [], fields[..0])
    {
      assert Ids(fields[..0]) == [] && CouldOwn([], RuntimeOwner(0));
    }

    /** The loop of `mparser_value_create_struct`. */
    method GatherFields(fields: seq<Field>)
      returns (status: Status, record: Record, order: seq<string>, owner: Option<Id>, runtimeOwner: Option<Id>)
      requires Valid() && Live(Ids(fields))
      ensures status == Ok ==>
        WellFormed(fields) && Gathered(Ids(fields), owner, runtimeOwner) && Describes(record, order, fields)
      ensures status != Ok ==> exists k :: SpoilsStruct(fields, k, status)
    {
      hide *;
      record, order, owner, runtimeOwner := Record(map[]), [], None, None;
      NoFields(fields);
      for index := 0 to |fields|
        invariant Live(Ids(fields[..index]))
        invariant Gathered(Ids(fields[..index]), owner, runtimeOwner) && WellFormed(fields[..index])
        invariant Describes(record, order, fields[..index])
      {
        var field := fields[index];
        ghost var done := fields[..index];
        IdsOfPrefix(fields, index);
        NextField(fields, index);
        if field.name == None || field.name.value == "" || field.value == None {
          assert !Named(field) || field.value == None by { UnusableName(field); }
          return InvalidArgument, record, order, owner, runtimeOwner;
        }
        UnusableName(field);
        assert field.value.value in handles by { LiveAt(Ids(fields), index); }
        HoldsMore(fields, index, order, record, field.name.value, field.value.value);
        var ok;
        ok, owner, runtimeOwner := Gather(Ids(done), field.value.value, owner, runtimeOwner);
        if !ok {
          assert SpoilsStruct(fields, index, OwnerMismatch);
          return OwnerMismatch, record, order, owner, runtimeOwner;
        }
        if field.name.value in record.fields {
          assert SpoilsStruct(fields, index, InvalidArgument);
          return InvalidArgument, record, order, owner, runtimeOwner;
        }
        record := Record(record.fields[field.name.value := handles[field.value.value].value]);
        order := order + [field.name.value];
      }
      assert fields[..|fields|] == fields;
      return Ok, record, order, owner, runtimeOwner;
    }

    lemma {:induction false} LiveAt(ids: seq<Option<Id>>, i: nat)
      requires Live(ids) && i < |ids| && ids[i].Some?
      ensures ids[i].value in handles
    {
    }

    /** `mparser_value_create_struct` */
    method CreateStruct(fields: seq<Field>) returns (status: Status, out: Option<Id>)
      requires Valid() && Live(Ids(fields))
      modifies this`handles, this`next
      ensures Valid()
      ensures !old(WellFormed(fields)) ==> exists k :: old(SpoilsStruct(fields, k, status))
      ensures old(WellFormed(fields)) ==> exists record, order ::
        && old(Describes(record, order, fields))
        && status == (if accepts(heap, StructOf(order, record)) then Ok else InternalError)
        && (status == Ok ==> Published(out, StructOf(order, record)))
      ensures status != Ok ==> out == None && handles == old(handles)
      ensures status == Ok ==> old(WellFormed(fields)) && exists owner, runtimeOwner ::
        && GatheredFrom(old(handles), Ids(fields), owner, runtimeOwner)
        && RuntimeValues.Valid(heap, handles[out.value].value)
        && handles[out.value] == Kept(handles[out.value].value, owner, runtimeOwner)
    {
      assert forall order, records :: Transportable(Struct(order, records));
      hide *;
      var record, order, owner, runtimeOwner;
      status, record, order, owner, runtimeOwner := GatherFields(fields);
      if status != Ok {
        ghost var k :| SpoilsStruct(fields, k, status);
        SpoiltForGood(fields, k, status);
        return status, None;
      }
      StructBacked(fields, order, record, owner, runtimeOwner);
      status, out := MakeValueHandle(StructOf(order, record), owner, runtimeOwner);
    }

    // ----- reading parts -----

    /** `mparser_value_cell_element`: the part keeps the whole's owner if, and only if, it still needs one. */
    method CellElement(x: Option<Id>, index: nat) returns (status: Status, out: Option<Id>)
      requires Valid() && (x.Some? ==> x.value in handles)
      modifies this`handles, this`next
      ensures Valid()
      ensures x == None ==> status == InvalidArgument
      ensures x.Some? && !old(handles[x.value].value.payload.Cell?) ==> status == TypeMismatch
      ensures x.Some? && old(handles[x.value].value.payload.Cell?) ==>
        match old(CellPart(handles[x.value].value, index))
        case None => status == OutOfRange
        case Some(part) =>
          && (status == Ok ==> Published(out, part) && RuntimeValues.Valid(heap, part)
                               && handles[out.value] == Kept(part, old(handles[x.value].owner),
                                    old(handles[x.value].runtimeOwner)))
          && status == (if part.payload.CommaList? || part.payload.NameValue? then TypeMismatch
               else if !accepts(heap, part) then InternalError else Ok)
      ensures status != Ok ==> out == None && handles == old(handles)
    {
      if x == None {
        return InvalidArgument, None;
      }
      var holding := handles[x.value];
      if !holding.value.payload.Cell? {
        return TypeMismatch, None;
      }
      var cells := holding.value.payload.cells;
      var offset := LogicalStorageOffset(holding.value.dims, index);
      if offset == None || offset.value >= |cells| {
        return OutOfRange, None;
      }
      PartBacked(heap, holding, cells[offset.value]);
      hide Valid, Backed;
      status, out := MakeValueHandle(cells[offset.value], holding.owner, holding.runtimeOwner);
    }

    /** `mparser_value_struct_field` */
    method StructField(x: Option<Id>, element: nat, field: nat) returns (status: Status, out: Option<Id>)
      requires Valid() && (x.Some? ==> x.value in handles)
      modifies this`handles, this`next
      ensures Valid()
      ensures x == None ==> status == InvalidArgument
      ensures x.Some? && !old(handles[x.value].value.payload.Struct?) ==> status == TypeMismatch
      ensures x.Some? && old(handles[x.value].value.payload.Struct?) ==>
        match old(StructPart(handles[x.value].value, element, field))
        case None => status == if old(InStruct(handles[x.value].value, element, field)) then InternalError
          else OutOfRange
        case Some(part) =>
          && (status == Ok ==> Published(out, part) && RuntimeValues.Valid(heap, part)
                               && handles[out.value] == Kept(part, old(handles[x.value].owner),
                                    old(handles[x.value].runtimeOwner)))
          && status == (if part.payload.CommaList? || part.payload.NameValue? then TypeMismatch
               else if !accepts(heap, part) then InternalError else Ok)
      ensures status != Ok ==> out == None && handles == old(handles)
    {
      if x == None {
        return InvalidArgument, None;
      }
      var holding := handles[x.value];
      if !holding.value.payload.Struct? {
        return TypeMismatch, None;
      }
      var order, records := holding.value.payload.order, holding.value.payload.records;
      if field >= |order| {
        return OutOfRange, None;
      }
      var offset := LogicalStorageOffset(holding.value.dims, element);
      if offset == None || (if records != [] then offset.value >= |records| else offset.value != 0) {
        return OutOfRange, None;
      }
      if records == [] || order[field] !in records[offset.value].fields {
        return InternalError, None;
      }
      var part := records[offset.value].fields[order[field]];
      PartBacked(heap, holding, part);
      hide Valid, Backed;
      status, out := MakeValueHandle(part, holding.owner, holding.runtimeOwner);
    }

    // ----- requests and results -----

    /** `ownerCompatible`, for a module and for a runtime. */
    predicate OwnerCompatible(x: Holding, target: Owner) {
      match target
      case ModuleOwner(m) => x.runtimeOwner == None && (x.owner == None || x.owner == Some(m))
      case RuntimeOwner(r) => x.owner == None && (x.runtimeOwner == None || x.runtimeOwner == Some(r))
    }

    /** The two pointer comparisons decide exactly whether anything bound in the value belongs elsewhere. */
    lemma {:induction false} CompatibleIff(x: Id, target: Owner)
      requires Valid() && x in handles
      ensures OwnerCompatible(handles[x], target) <==> BelongsTo(heap, handles[x].value, target)
    {
      var holding := handles[x];
      assert Sound(heap, holding);
      hide ValidHeap, RuntimeValues.Valid, NeedsModule, BelongsTo, SoundResult, AllBelong;
      var o := TheOwner(holding.owner, holding.runtimeOwner);
      if holding.owner == None && holding.runtimeOwner == None {
        NothingBound(heap, holding.value, o, target);
      } else if BelongsTo(heap, holding.value, target) {
        OwnerUnique(heap, holding.value, o, target);
      }
    }

    /** The argument loop of `buildRequest`. */
    method CarryArguments(target: Owner, ids: seq<Option<Id>>) returns (status: Status, carried: seq<Value>)
      requires Valid() && Live(ids)
      ensures status == Ok <==> CouldOwn(ids, target)
      ensures status == Ok ==> carried == Contents(ids)
      ensures status != Ok ==> exists i :: Refused(ids, target, i, status)
    {
      carried := [];
      for index := 0 to |ids|
        invariant CouldOwn(ids[..index], target) && carried == Contents(ids[..index])
      {
        var x := ids[index];
        ghost var done, more := ids[..index], ids[..index + 1];
        assert more == done + [x] && more[index] == x;
        if x.Some? { CompatibleIff(x.value, target); }
        hide BelongsTo, Valid;
        if x == None || !OwnerCompatible(handles[x.value], target) {
          assert Refused(ids, target, index, if x.Some? then OwnerMismatch else InvalidArgument);
          return if x.Some? then OwnerMismatch else InvalidArgument, [];
        }
        carried := carried + [handles[x.value].value];
      }
      assert ids[..|ids|] == ids;
      status := Ok;
    }

    /** Handle i is missing, or holds something bound elsewhere, and status tells which. */
    ghost predicate Refused(ids: seq<Option<Id>>, target: Owner, i: int, status: Status)
      requires Valid() && Live(ids)
      reads this
    {
      && 0 <= i < |ids|
      && match ids[i]
         case None => status == InvalidArgument
         case Some(x) => status == OwnerMismatch && !BelongsTo(heap, handles[x].value, target)
    }

    ghost predicate RefusedVariable(workspace: seq<Field>, target: Owner, i: int, status: Status)
      requires Valid() && Live(Ids(workspace))
      reads this
    {
      && 0 <= i < |workspace|
      && status == (if workspace[i].value == None then InvalidArgument else OwnerMismatch)
      && (!Named(workspace[i]) || Refused(Ids(workspace), target, i, status))
    }

    /**
     The workspace loop of `buildRequest`.  A variable without a usable name is refused as an owner mismatch when it has
     a value.
     */
    method CarryWorkspace(target: Owner, workspace: seq<Field>) returns (status: Status, carried: seq<Value>)
      requires Valid() && Live(Ids(workspace))
      ensures status == Ok <==> CouldOwn(Ids(workspace), target) && forall i :: 0 <= i < |workspace| ==>
        Named(workspace[i])
      ensures status == Ok ==> carried == Contents(Ids(workspace))
      ensures status != Ok ==> exists i :: RefusedVariable(workspace, target, i, status)
    {
      carried := [];
      for index := 0 to |workspace|
        invariant Live(Ids(workspace[..index]))
        invariant CouldOwn(Ids(workspace[..index]), target) && carried == Contents(Ids(workspace[..index]))
        invariant forall i :: 0 <= i < index ==> Named(workspace[i])
      {
        var variable := workspace[index];
        IdsOfPrefix(workspace, index);
        ghost var done, more := Ids(workspace[..index]), Ids(workspace[..index + 1]);
        assert more == done + [variable.value] && more[index] == variable.value == Ids(workspace)[index];
        if variable.value.Some? { LiveAt(more, index); CompatibleIff(variable.value.value, target); }
        hide BelongsTo, Valid;
        if variable.name == None || variable.name.value == "" || variable.value == None
           || !OwnerCompatible(handles[variable.value.value], target) {
          status := if variable.value.Some? then OwnerMismatch else InvalidArgument;
          assert RefusedVariable(workspace, target, index, status);
          return status, [];
        }
        carried := carried + [handles[variable.value.value].value];
      }
      assert workspace[..|workspace|] == workspace;
      status := Ok;
    }

    /**
     The ownership part of `buildRequest`.  A request is accepted exactly when everything it carries is the target's own
     or nobody's, and every workspace variable has a name.
     */
    method BuildRequest(target: Owner, arguments: seq<Option<Id>>, workspace: seq<Field>)
      returns (status: Status, request: Option<Request>)
      requires Valid() && Live(arguments) && Live(Ids(workspace))
      modifies this`accepted
      ensures Valid()
      ensures status == Ok <==>
        && old(CouldOwn(arguments, target) && CouldOwn(Ids(workspace), target))
        && forall i :: 0 <= i < |workspace| ==> Named(workspace[i])
      ensures status == Ok ==>
        && (forall i :: 0 <= i < |arguments| ==> arguments[i].Some?)
        && (forall i :: 0 <= i < |workspace| ==> workspace[i].value.Some?)
        && request == Some(Request(target, old(Contents(arguments) + Contents(Ids(workspace)))))
        && accepted == old(accepted) + [request.value]
      ensures status != Ok ==>
        request == None && accepted == old(accepted) && status in {OwnerMismatch, InvalidArgument}
    {
      var carried, variables;
      status, carried := CarryArguments(target, arguments);
      if status != Ok {
        return status, None;
      }
      status, variables := CarryWorkspace(target, workspace);
      if status != Ok {
        return status, None;
      }
      carried := carried + variables;
      status, request := Ok, Some(Request(target, carried));
      accepted := accepted + [Request(target, carried)];
    }

    /**
     Running an accepted request, and `makeResultHandle`.  The new heap and the outputs are whatever the program made of
     the request; beyond that, the requires is the assumption that code running under an owner writes and returns only
     what is that owner's.
     */
    method Execute(request: Request, after: Heap, outputs: seq<Value>) returns (result: Id)
      requires Valid() && request in accepted
      requires RunsUnder(heap, after, request.target) && AllBelong(after, outputs, request.target)
      modifies this`heap, this`results, this`next
      ensures Valid() && heap == after
      ensures AllBelong(heap, request.carried, request.target)
      ensures result !in old(results) && results == old(results)[result := ResultFor(request.target, outputs)]
    {
      var target := request.target;
      assert ValidHeap(after);
      hide ValidHeap, RunsUnder, Sound, AllBelong;
      forall id | id in handles ensures Sound(after, handles[id]) { RunKeepsSound(heap, after, target, handles[id]); }
      forall id | id in results ensures SoundResult(after, results[id]) {
        RunKeepsAll(heap, after, target, results[id].outputs, TheOwner(results[id].owner, results[id].runtimeOwner));
      }
      forall k | 0 <= k < |accepted| ensures AllBelong(after, accepted[k].carried, accepted[k].target) {
        RunKeepsAll(heap, after, target, accepted[k].carried, accepted[k].target);
      }
      heap := after;
      result := next;
      next := next + 1;
      results := results[result := ResultFor(target, outputs)];
    }

    /** `mparser_result_output` */
    method ResultOutput(result: Id, index: nat) returns (status: Status, out: Option<Id>)
      requires Valid() && result in results
      modifies this`handles, this`next
      ensures Valid()
      ensures index >= |results[result].outputs| ==> status == OutOfRange
      ensures index < |results[result].outputs| ==>
        var value := results[result].outputs[index];
        && status == (if value.payload.CommaList? || value.payload.NameValue? then TypeMismatch
             else if !accepts(heap, value) then InternalError else Ok)
        && (status == Ok ==> Published(out, value) && RuntimeValues.Valid(heap, value)
                             && handles[out.value] == Kept(value, results[result].owner, results[result].runtimeOwner))
      ensures status != Ok ==> out == None && handles == old(handles)
    {
      var r := results[result];
      assert SoundResult(heap, r);
      if index >= |r.outputs| {
        return OutOfRange, None;
      }
      hide Valid;
      status, out := MakeValueHandle(r.outputs[index], r.owner, r.runtimeOwner);
    }

    /** The host drops its last reference to a value handle. */
    method Release(x: Id)
      requires Valid() && x in handles
      modifies this`handles
      ensures Valid() && handles == old(handles) - {x}
    {
      hide ValidHeap, Sound, SoundResult, AllBelong;
      handles := handles - {x};
    }

    // ----- what the invariant gives -----

    /** A live handle without an owner holds nothing, at any depth, that is tied to a module. */
    lemma {:induction false} UnownedIsFree(x: Id, w: Value, n: nat)
      requires Valid() && x in handles && handles[x].owner == None && handles[x].runtimeOwner == None
      requires Within(heap, handles[x].value, w, n)
      ensures RuntimeValues.Valid(heap, w) && !TiedToModule(heap, w)
    {
      assert Sound(heap, handles[x]);
      hide ValidHeap, Valid, Within, TiedToModule, NeedsModule;
      NothingTiedInside(heap, handles[x].value, TheOwner(None, None), w, n);
    }

    /**
     Whatever is tied to a module, at any depth of what a live handle with an owner holds, was made under that owner.
     */
    lemma {:induction false} OwnedIsAtHome(x: Id, w: Value, n: nat)
      requires Valid() && x in handles && Within(heap, handles[x].value, w, n) && TiedToModule(heap, w)
      ensures match (handles[x].owner, handles[x].runtimeOwner)
        case (Some(m), None) => AtHomeWith(heap, w, ModuleOwner(m))
        case (None, Some(r)) => AtHomeWith(heap, w, RuntimeOwner(r))
        case _ => false
    {
      assert Sound(heap, handles[x]);
      hide ValidHeap, Valid, Within, TiedToModule, NeedsModule, AtHomeWith;
      var a, b := handles[x].owner, handles[x].runtimeOwner;
      if a == None && b == None { UnownedIsFree(x, w, n); }
      TiedIsAtHome(heap, handles[x].value, TheOwner(a, b), w, n);
    }

    /** Whatever is tied to a module, at any depth of what an accepted request carries, was made under its target. */
    lemma {:induction false} CarriedIsAtHome(k: nat, i: nat, w: Value, n: nat)
      requires Valid() && k < |accepted| && i < |accepted[k].carried|
      requires Within(heap, accepted[k].carried[i], w, n) && TiedToModule(heap, w)
      ensures AtHomeWith(heap, w, accepted[k].target)
    {
      assert AllBelong(heap, accepted[k].carried, accepted[k].target);
      hide ValidHeap, Valid, Within, TiedToModule, AtHomeWith;
      TiedIsAtHome(heap, accepted[k].carried[i], accepted[k].target, w, n);
    }
  }

  function StructOf(order: seq<string>, record: Record): Value { Value(Double, [1, 1], Struct(order, [record])) }

  /** The element at a column-major index of a cell. */
  ghost function CellPart(v: Value, index: nat): Option<Value>
    requires v.payload.Cell?
  {
    if PrefixesFit(v.dims) && index < Product(v.dims) && StorageOffset(v.dims, index) < |v.payload.cells|
    then Some(v.payload.cells[StorageOffset(v.dims, index)]) else None
  }

  /** The field-th field, in stored order, of the struct element at a column-major index. */
  ghost function StructPart(v: Value, element: nat, field: nat): Option<Value>
    requires v.payload.Struct?
  {
    var offset := StorageOffset(v.dims, element);
    if && PrefixesFit(v.dims) && element < Product(v.dims) && offset < |v.payload.records|
       && field < |v.payload.order| && v.payload.order[field] in v.payload.records[offset].fields
    then Some(v.payload.records[offset].fields[v.payload.order[field]]) else None
  }

  /** The indices name a field of an element; a struct without records counts as having one element. */
  ghost predicate InStruct(v: Value, element: nat, field: nat)
    requires v.payload.Struct?
  {
    && field < |v.payload.order| && PrefixesFit(v.dims) && element < Product(v.dims)
    && StorageOffset(v.dims, element) < if v.payload.records == [] then 1 else |v.payload.records|
  }

  function Ids(fields: seq<Field>): (ids: seq<Option<Id>>)
    ensures |ids| == |fields| && forall i :: 0 <= i < |fields| ==> ids[i] == fields[i].value
  {
    seq(|fields|, i requires 0 <= i < |fields| => fields[i].value)
  }

  lemma {:induction false} NormalizeFits(dims: Dimensions)
    requires |dims| >= 2 && forall k :: 0 <= k < |dims| ==> dims[k] <= SIZE_MAX
    ensures forall k :: 0 <= k < |Normalize(dims)| ==> Normalize(dims)[k] <= SIZE_MAX
  {
    if |dims| > 2 && dims[|dims| - 1] == 1 { NormalizeFits(dims[..|dims| - 1]); }
  }
}
