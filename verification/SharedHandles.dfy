/**
 The C++ wrappers' reference counting: `SharedHandle` over handles whose count
 is atomic.

 One object stands for all the wrappers and raw handles of a process.  A method
 is one indivisible step of some thread, so a run of methods is an interleaving
 of threads.  A copy takes two steps, reading the other wrapper's pointer and
 then retaining, and so does a destruction: the wrapper goes, and then its
 handle is released.  In between, the source of a copy must stay as it is,
 which C++ asks of the caller.
 */
module SharedHandles {
  import opened Wrappers

  type Id = nat

  /** source is the wrapper being copied, as long as the retain is outstanding. */
  datatype Wrapper = Wrapper(value: Option<Id>, source: Option<Id>)

  function Holders(wrappers: map<Id, Wrapper>, raw: Id): set<Id> {
    set w | w in wrappers && wrappers[w] == Wrapper(Some(raw), None)
  }

  /** The counts after retaining a pointer; null is not retained. */
  function Raised(references: map<Id, nat>, value: Option<Id>): map<Id, nat>
    requires value.Some? ==> value.value in references
  {
    match value
    case None => references
    case Some(r) => references[r := references[r] + 1]
  }

  /** The counts after releasing a pointer: a handle whose count was one is gone. */
  function Lowered(references: map<Id, nat>, value: Option<Id>): map<Id, nat>
    requires value.Some? ==> value.value in references && references[value.value] > 0
  {
    match value
    case None => references
    case Some(r) => if references[r] == 1 then references - {r} else references[r := references[r] - 1]
  }

  /** The deletions after releasing a pointer under the given counts. */
  function Deleted(references: map<Id, nat>, deletions: map<Id, nat>, value: Option<Id>): map<Id, nat>
    requires value.Some? ==> value.value in references
  {
    if value.Some? && references[value.value] == 1 then deletions[value.value := 1] else deletions
  }

  /** Every pointer of a constructed wrapper is to a handle with a positive count. */
  ghost predicate Live(references: map<Id, nat>, value: Option<Id>) {
    value.Some? ==> value.value in references && references[value.value] > 0
  }

  /** The wrapper is constructed and nobody is copying it, so it may be changed. */
  ghost predicate Free(wrappers: map<Id, Wrapper>, w: Id) {
    && w in wrappers && wrappers[w].source == None
    && forall v :: v in wrappers ==> wrappers[v].source != Some(w)
  }

  /**
   A count is the number of wrappers holding the handle plus the releases still owed; every pointer held or owed is to a
   handle that exists; and a handle has been deleted once if it no longer exists, and never otherwise.
   */
  ghost predicate Consistent(wrappers: map<Id, Wrapper>, references: map<Id, nat>, pending: multiset<Id>,
                             deletions: map<Id, nat>) {
    && (forall r :: r in references ==> references[r] == |Holders(wrappers, r)| + pending[r] && references[r] > 0)
    && (forall w :: w in wrappers && wrappers[w].value.Some? ==> wrappers[w].value.value in references)
    && (forall w :: w in wrappers && wrappers[w].source.Some? ==>
          var source := wrappers[w].source.value;
          source in wrappers && wrappers[source] == Wrapper(wrappers[w].value, None))
    && (forall r :: r in pending ==> r in references)
    && (forall r :: r in references ==> r in deletions)
    && (forall r :: r in deletions ==> deletions[r] == if r in references then 0 else 1)
  }

  class Process {
    var wrappers: map<Id, Wrapper>
    /** The counts of the raw handles that have not been deleted. */
    var references: map<Id, nat>
    /** Releases that a destroyed wrapper still owes. */
    var pending: multiset<Id>
    /** How often each raw handle that ever existed has been deleted. */
    ghost var deletions: map<Id, nat>

    ghost predicate Valid()
      reads this
    {
      Consistent(wrappers, references, pending, deletions)
    }

    constructor ()
      ensures Valid() && wrappers == map[] && references == map[] && pending == multiset{} && deletions == map[]
    {
      wrappers, references, pending, deletions := map[], map[], multiset{}, map[];
    }

    // ----- steps -----

    /** A null wrapper. */
    method Default(w: Id)
      requires Valid() && w !in wrappers
      modifies this
      ensures Valid() && wrappers == old(wrappers)[w := Wrapper(None, None)]
      ensures references == old(references) && pending == old(pending) && deletions == old(deletions)
    {
      SameHolders(wrappers, wrappers[w := Wrapper(None, None)], w);
      wrappers := wrappers[w := Wrapper(None, None)];
    }

    /** A new raw handle, born with count one, goes to a new wrapper. */
    method Adopt(w: Id, raw: Id)
      requires Valid() && w !in wrappers && raw !in deletions
      modifies this
      ensures Valid() && wrappers == old(wrappers)[w := Wrapper(Some(raw), None)]
      ensures references == old(references)[raw := 1] && pending == old(pending)
        && deletions == old(deletions)[raw := 0]
    {
      AdoptKeeps(wrappers, references, pending, deletions, w, raw);
      hide Consistent;
      wrappers, references, deletions := wrappers[w := Wrapper(Some(raw), None)], references[raw := 1],
        deletions[raw := 0];
    }

    /** The copy constructor reads the other wrapper's pointer. */
    method BeginCopy(w: Id, other: Id)
      requires Valid() && w !in wrappers && other in wrappers && wrappers[other].source == None
      modifies this
      ensures Valid() && wrappers == old(wrappers)[w := Wrapper(old(wrappers)[other].value, Some(other))]
      ensures references == old(references) && pending == old(pending) && deletions == old(deletions)
    {
      SameHolders(wrappers, wrappers[w := Wrapper(wrappers[other].value, Some(other))], w);
      wrappers := wrappers[w := Wrapper(wrappers[other].value, Some(other))];
    }

    /** The copy constructor retains, unless the pointer is null. */
    method Retain(w: Id)
      requires Valid() && w in wrappers && wrappers[w].source.Some?
      modifies this
      ensures Valid() && wrappers == old(wrappers)[w := Wrapper(old(wrappers)[w].value, None)]
      ensures Live(old(references), old(wrappers)[w].value)
      ensures references == Raised(old(references), old(wrappers)[w].value)
      ensures pending == old(pending) && deletions == old(deletions)
    {
      RetainKeeps(wrappers, references, pending, deletions, w);
      hide Consistent;
      var value := wrappers[w].value;
      wrappers := wrappers[w := Wrapper(value, None)];
      if value.Some? {
        references := references[value.value := references[value.value] + 1];
      }
    }

    /** The move constructor: `std::exchange` with null. */
    method Move(w: Id, other: Id)
      requires Valid() && w !in wrappers && Free(wrappers, other)
      modifies this
      ensures Valid()
      ensures wrappers == old(wrappers)[w := old(wrappers)[other]][other := Wrapper(None, None)]
      ensures references == old(references) && pending == old(pending) && deletions == old(deletions)
    {
      var moved := wrappers[w := wrappers[other]][other := Wrapper(None, None)];
      forall r | r in references ensures |Holders(moved, r)| == |Holders(wrappers, r)| {
        MoveHolder(wrappers, moved, other, w, r);
      }
      wrappers := moved;
    }

    /** `swap`, also of a wrapper with itself. */
    method Swap(a: Id, b: Id)
      requires Valid() && Free(wrappers, a) && Free(wrappers, b)
      modifies this
      ensures Valid() && wrappers == old(wrappers)[a := old(wrappers)[b]][b := old(wrappers)[a]]
      ensures references == old(references) && pending == old(pending) && deletions == old(deletions)
    {
      var swapped := wrappers[a := wrappers[b]][b := wrappers[a]];
      forall r | r in references ensures |Holders(swapped, r)| == |Holders(wrappers, r)| {
        SwapHolders(wrappers, swapped, a, b, r);
      }
      wrappers := swapped;
    }

    /** The wrapper's lifetime ends; its handle, if any, is still to be released. */
    method Destroy(w: Id)
      requires Valid() && Free(wrappers, w)
      modifies this
      ensures Valid() && wrappers == old(wrappers) - {w}
      ensures pending == match old(wrappers)[w].value
                         case None => old(pending)
                         case Some(r) => old(pending) + multiset{r}
      ensures references == old(references) && deletions == old(deletions)
    {
      hide Holders;
      var value := wrappers[w].value;
      if value.Some? {
        RemoveHolder(wrappers, w, value.value);
        pending := pending + multiset{value.value};
      } else {
        RemoveOther(wrappers, w);
      }
      wrappers := wrappers - {w};
    }

    /** `releaseHandle`: one less, and whoever takes the count from one to zero deletes the handle. */
    method Release(raw: Id)
      requires Valid() && raw in pending
      modifies this
      ensures Valid() && wrappers == old(wrappers) && pending == old(pending) - multiset{raw}
      ensures if old(references)[raw] == 1
              then references == old(references) - {raw} && deletions == old(deletions)[raw := 1]
              else references == old(references)[raw := old(references)[raw] - 1] && deletions == old(deletions)
    {
      hide Consistent;
      ReleaseKeeps(wrappers, references, pending, deletions, raw);
      if references[raw] == 1 {
        references, deletions, pending := references - {raw}, deletions[raw := 1], pending - multiset{raw};
      } else {
        references, pending := references[raw := references[raw] - 1], pending - multiset{raw};
      }
    }

    // ----- whole operations of one thread, when no other thread interferes -----

    /** `target = source` through the by-value parameter: copy, swap, destroy.  target and source may be the same. */
    method CopyAssign(target: Id, source: Id, temporary: Id)
      requires Valid() && Free(wrappers, target) && Free(wrappers, source) && temporary !in wrappers
      modifies this
      ensures Valid() && wrappers == old(wrappers)[target := old(wrappers)[source]] && pending == old(pending)
      ensures Live(old(references), old(wrappers)[target].value) && Live(old(references), old(wrappers)[source].value)
      ensures var retained := Raised(old(references), old(wrappers)[source].value);
        && references == Lowered(retained, old(wrappers)[target].value)
        && deletions == Deleted(retained, old(deletions), old(wrappers)[target].value)
      ensures target == source ==> references == old(references) && deletions == old(deletions)
    {
      hide Consistent, Free, Live, Raised, Lowered, Deleted, Holders;
      AssignReady(wrappers, references, pending, deletions, target, source, temporary);
      CopyAssignMaps(wrappers, target, source, temporary);
      UpAndDown(references, deletions, wrappers[source].value);
      BeginCopy(temporary, source);
      Retain(temporary);
      Swap(target, temporary);
      DestroyAndRelease(temporary);
    }

    /** `target = std::move(source)`. */
    method MoveAssign(target: Id, source: Id, temporary: Id)
      requires Valid() && Free(wrappers, target) && Free(wrappers, source) && temporary !in wrappers
      modifies this
      ensures Valid() && pending == old(pending)
      ensures target != source ==>
        wrappers == old(wrappers)[target := old(wrappers)[source]][source := Wrapper(None, None)]
      ensures Live(old(references), old(wrappers)[target].value)
      ensures target != source ==>
        && references == Lowered(old(references), old(wrappers)[target].value)
        && deletions == Deleted(old(references), old(deletions), old(wrappers)[target].value)
      ensures target == source ==>
        wrappers == old(wrappers) && references == old(references) && deletions == old(deletions)
    {
      hide Consistent, Free, Live, Holders;
      AssignReady(wrappers, references, pending, deletions, target, source, temporary);
      MoveAssignMaps(wrappers, target, source, temporary);
      Move(temporary, source);
      Swap(target, temporary);
      DestroyAndRelease(temporary);
    }

    /** The destructor as a whole. */
    method DestroyAndRelease(w: Id)
      requires Valid() && Free(wrappers, w)
      modifies this
      ensures Valid() && wrappers == old(wrappers) - {w} && pending == old(pending)
      ensures Live(old(references), old(wrappers)[w].value)
      ensures references == Lowered(old(references), old(wrappers)[w].value)
      ensures deletions == Deleted(old(references), old(deletions), old(wrappers)[w].value)
    {
      var value := wrappers[w].value;
      assert value.Some? ==> value.value in references && references[value.value] > 0;
      hide Consistent, Free;
      Destroy(w);
      if value.Some? {
        Restored(old(pending), value.value);
        Release(value.value);
      }
    }

    // ----- what the invariant gives -----

    /** A count with no release outstanding is the number of wrappers, and no wrapper ever dangles. */
    lemma {:induction false} CountIsWrappers(raw: Id)
      requires Valid() && raw !in pending
      ensures raw in references <==> Holders(wrappers, raw) != {}
      ensures raw in references ==> references[raw] == |Holders(wrappers, raw)|
    {
      if w :| w in Holders(wrappers, raw) { assert wrappers[w].value == Some(raw); }
    }

    /** When the last wrapper and the last owed release are gone, every handle has been deleted exactly once. */
    lemma {:induction false} EverythingDeletedOnce()
      requires Valid() && wrappers == map[] && pending == multiset{}
      ensures references == map[] && forall r :: r in deletions ==> deletions[r] == 1
    {
      forall r ensures r !in references { CountIsWrappers(r); }
    }
  }

  // ----- retain and release -----

  lemma {:induction false} RetainKeeps(wrappers: map<Id, Wrapper>, references: map<Id, nat>, pending: multiset<Id>,
                                       deletions: map<Id, nat>, w: Id)
    requires Consistent(wrappers, references, pending, deletions) && w in wrappers && wrappers[w].source.Some?
    ensures var retained := wrappers[w := Wrapper(wrappers[w].value, None)];
      match wrappers[w].value
      case None => Consistent(retained, references, pending, deletions)
      case Some(r) => r in references && Consistent(retained, references[r := references[r] + 1], pending, deletions)
  {
    if wrappers[w].value.Some? {
      AddHolder(wrappers, w, wrappers[w].value.value);
    } else {
      SameHolders(wrappers, wrappers[w := Wrapper(None, None)], w);
    }
    hide Holders;
  }

  lemma {:induction false} AdoptKeeps(wrappers: map<Id, Wrapper>, references: map<Id, nat>, pending: multiset<Id>,
                                      deletions: map<Id, nat>, w: Id, raw: Id)
    requires Consistent(wrappers, references, pending, deletions) && w !in wrappers && raw !in deletions
    ensures Consistent(wrappers[w := Wrapper(Some(raw), None)], references[raw := 1], pending, deletions[raw := 0])
  {
    AddHolder(wrappers, w, raw);
    assert Holders(wrappers, raw) == {};
    hide Holders;
  }

  lemma {:induction false} Restored(pending: multiset<Id>, raw: Id)
    ensures pending + multiset{raw} - multiset{raw} == pending && raw in pending + multiset{raw}
  {
  }

  /** At count one there is no holder left, not even one under construction. */
  lemma {:induction false} ReleaseKeeps(wrappers: map<Id, Wrapper>, references: map<Id, nat>, pending: multiset<Id>,
                                        deletions: map<Id, nat>, raw: Id)
    requires Consistent(wrappers, references, pending, deletions) && raw in pending
    ensures raw in references && references[raw] > 0
    ensures references[raw] == 1 ==>
      Consistent(wrappers, references - {raw}, pending - multiset{raw}, deletions[raw := 1])
    ensures references[raw] > 1 ==>
      Consistent(wrappers, references[raw := references[raw] - 1], pending - multiset{raw}, deletions)
  {
    if references[raw] == 1 {
      assert Holders(wrappers, raw) == {};
      forall w | w in wrappers ensures wrappers[w].value != Some(raw) {
        var holder := if wrappers[w].source.Some? then wrappers[w].source.value else w;
        assert holder !in Holders(wrappers, raw);
      }
    }
    hide Holders;
  }

  // ----- the wrapper maps along the assignments -----

  lemma {:induction false} AssignReady(wrappers: map<Id, Wrapper>, references: map<Id, nat>, pending: multiset<Id>,
                                       deletions: map<Id, nat>, target: Id, source: Id, temporary: Id)
    requires Consistent(wrappers, references, pending, deletions)
    requires Free(wrappers, target) && Free(wrappers, source) && temporary !in wrappers
    ensures target in wrappers && source in wrappers && wrappers[source].source == None
    ensures Live(references, wrappers[target].value) && Live(references, wrappers[source].value)
    ensures forall v :: v in wrappers ==> wrappers[v].source != Some(temporary)
  {
  }

  lemma {:induction false} CopyAssignMaps(before: map<Id, Wrapper>, target: Id, source: Id, temporary: Id)
    requires Free(before, target) && Free(before, source) && temporary !in before
    requires forall v :: v in before ==> before[v].source != Some(temporary)
    ensures var copied := before[temporary := Wrapper(before[source].value, Some(source))];
      var held := copied[temporary := Wrapper(before[source].value, None)];
      var swapped := held[target := held[temporary]][temporary := held[target]];
      && held == before[temporary := before[source]]
      && Free(held, target) && Free(held, temporary) && Free(swapped, temporary)
      && swapped - {temporary} == before[target := before[source]]
      && (target == source ==> swapped - {temporary} == before)
  {
  }

  lemma {:induction false} UpAndDown(references: map<Id, nat>, deletions: map<Id, nat>, value: Option<Id>)
    requires Live(references, value)
    ensures Live(Raised(references, value), value)
    ensures Lowered(Raised(references, value), value) == references
    ensures Deleted(Raised(references, value), deletions, value) == deletions
  {
  }

  lemma {:induction false} MoveAssignMaps(before: map<Id, Wrapper>, target: Id, source: Id, temporary: Id)
    requires Free(before, target) && Free(before, source) && temporary !in before
    requires forall v :: v in before ==> before[v].source != Some(temporary)
    ensures var moved := before[temporary := before[source]][source := Wrapper(None, None)];
      var swapped := moved[target := moved[temporary]][temporary := moved[target]];
      && Free(moved, target) && Free(moved, temporary) && Free(swapped, temporary)
      && (target == source ==> swapped - {temporary} == before)
      && (target != source ==> swapped - {temporary} == before[target := before[source]][source := Wrapper(None, None)])
  {
  }

  // ----- counting holders -----

  lemma {:induction false} SameHolders(before: map<Id, Wrapper>, after: map<Id, Wrapper>, w: Id)
    requires w in before ==> before[w].value == None || before[w].source.Some?
    requires w in after && after == before[w := after[w]] && (after[w].value == None || after[w].source.Some?)
    ensures forall r :: Holders(after, r) == Holders(before, r)
  {
  }

  lemma {:induction false} AddHolder(before: map<Id, Wrapper>, w: Id, raw: Id)
    requires w !in before || before[w].source.Some?
    ensures var after := before[w := Wrapper(Some(raw), None)];
      && |Holders(after, raw)| == |Holders(before, raw)| + 1
      && forall r :: r != raw ==> Holders(after, r) == Holders(before, r)
  {
    var after := before[w := Wrapper(Some(raw), None)];
    assert Holders(after, raw) == Holders(before, raw) + {w};
  }

  lemma {:induction false} RemoveHolder(before: map<Id, Wrapper>, w: Id, raw: Id)
    requires w in before && before[w] == Wrapper(Some(raw), None)
    ensures var after := before - {w};
      && |Holders(after, raw)| == |Holders(before, raw)| - 1
      && forall r :: r != raw ==> Holders(after, r) == Holders(before, r)
  {
    var after := before - {w};
    assert Holders(before, raw) == Holders(after, raw) + {w};
  }

  lemma {:induction false} RemoveOther(before: map<Id, Wrapper>, w: Id)
    requires w in before && before[w].value == None
    ensures forall r :: Holders(before - {w}, r) == Holders(before, r)
  {
  }

  lemma {:induction false} Exchange(holders: set<Id>, from: Id, to: Id)
    requires from in holders && to !in holders
    ensures |holders - {from} + {to}| == |holders|
  {
  }

  lemma {:induction false} MoveHolder(before: map<Id, Wrapper>, after: map<Id, Wrapper>, from: Id, to: Id, raw: Id)
    requires from in before && to !in before && before[from].source == None
    requires after == before[to := before[from]][from := Wrapper(None, None)]
    ensures |Holders(after, raw)| == |Holders(before, raw)|
  {
    var holders := Holders(before, raw);
    if before[from].value == Some(raw) {
      assert Holders(after, raw) == holders - {from} + {to};
      Exchange(holders, from, to);
    } else {
      assert Holders(after, raw) == holders;
    }
  }

  lemma {:induction false} SwapHolders(before: map<Id, Wrapper>, after: map<Id, Wrapper>, a: Id, b: Id, raw: Id)
    requires a in before && b in before && before[a].source == None && before[b].source == None
    requires after == before[a := before[b]][b := before[a]]
    ensures |Holders(after, raw)| == |Holders(before, raw)|
  {
    var holders := Holders(before, raw);
    if before[a].value == Some(raw) && before[b].value != Some(raw) {
      assert Holders(after, raw) == holders - {a} + {b};
      Exchange(holders, a, b);
    } else if before[b].value == Some(raw) && before[a].value != Some(raw) {
      assert Holders(after, raw) == holders - {b} + {a};
      Exchange(holders, b, a);
    } else {
      assert Holders(after, raw) == holders;
    }
  }
}
