/**
 The debugger's single-execution rule: `DebugInvocationScope` over a recursive
 mutex that is only ever tried.

 A state holds every debugger and, for every thread, the scopes alive on its
 stack, the innermost last.  One step is one access to shared state, so steps
 of different threads interleave at every point where the code lets them.
 */
module DebugScope {
  import opened Wrappers

  type Id = nat

  /** `DebuggerState`; the mutex is its owning thread and its recursion depth. */
  datatype Debugger = Debugger(usable: bool, holder: Option<Id>, depth: nat,
                               executing: bool, owner: Option<Id>, runtimeOwner: Option<Id>)

  /** Where an invocation is between the call of `start` and the end of the destructor. */
  datatype Phase =
    | Entered      // about to try the lock
    | Locked       // about to look at `executing`
    | Denied       // found it set; about to unlock
    | Arming1      // has set `executing`; about to set the owner
    | Arming2      // about to set the runtime owner
    | Armed        // `start` has succeeded; the invocation is running
    | Leaving1     // the owner is reset
    | Leaving2     // the runtime owner is reset
    | Leaving3     // `executing` is reset; about to unlock
    | Unarmed      // running without a debugger

  datatype Scope = Scope(debugger: Id, owner: Option<Id>, runtimeOwner: Option<Id>, phase: Phase)

  datatype System = System(debuggers: map<Id, Debugger>, stacks: map<Id, seq<Scope>>)

  function Stack(s: System, t: Id): seq<Scope> { if t in s.stacks then s.stacks[t] else [] }

  predicate Holds(p: Phase) { p != Entered && p != Unarmed }

  predicate Active(p: Phase) { p in {Arming1, Arming2, Armed, Leaving1, Leaving2} }

  // ----- steps -----

  function Lock(x: Debugger, t: Id): Debugger { x.(holder := Some(t), depth := x.depth + 1) }

  function Unlock(x: Debugger): Debugger {
    if x.depth <= 1 then x.(depth := 0, holder := None) else x.(depth := x.depth - 1)
  }

  /**
   One step of a scope on thread t: what becomes of the debugger, and of the scope, which may be gone.  `try_lock` may
   fail for no reason at all.
   */
  function Step(x: Debugger, scope: Scope, t: Id, spurious: bool): (Debugger, Option<Scope>) {
    match scope.phase
    case Entered =>
      if (x.holder == None || x.holder == Some(t)) && !spurious then (Lock(x, t), Some(scope.(phase := Locked)))
        else (x, None)
    case Locked =>
      if x.executing then (x, Some(scope.(phase := Denied)))
      else (x.(executing := true), Some(scope.(phase := Arming1)))
    case Denied => (Unlock(x), None)
    case Arming1 => (x.(owner := scope.owner), Some(scope.(phase := Arming2)))
    case Arming2 => (x.(runtimeOwner := scope.runtimeOwner), Some(scope.(phase := Armed)))
    case Armed => (x.(owner := None), Some(scope.(phase := Leaving1)))
    case Leaving1 => (x.(runtimeOwner := None), Some(scope.(phase := Leaving2)))
    case Leaving2 => (x.(executing := false), Some(scope.(phase := Leaving3)))
    case Leaving3 => (Unlock(x), None)
    case Unarmed => (x, None)
  }

  function Listed(scope: Option<Scope>): seq<Scope> { match scope case None => [] case Some(x) => [x] }

  datatype Action =
    | Enter(thread: Id, debugger: Option<Id>, owner: Option<Id>, runtimeOwner: Option<Id>)
    | Advance(thread: Id, spurious: bool)

  /** `start` is called from the outside, or from inside a running invocation of the same thread. */
  predicate MayEnter(stack: seq<Scope>) {
    stack == [] || stack[|stack| - 1].phase in {Armed, Unarmed}
  }

  predicate Enabled(s: System, a: Action) {
    var stack := Stack(s, a.thread);
    match a
    case Enter(_, _, _, _) => MayEnter(stack)
    case Advance(_, _) =>
      && stack != []
      && (stack[|stack| - 1].phase != Unarmed ==> stack[|stack| - 1].debugger in s.debuggers)
  }

  function Next(s: System, a: Action): System
    requires Enabled(s, a)
  {
    var stack := Stack(s, a.thread);
    match a
    case Enter(t, None, owner, runtimeOwner) =>
      s.(stacks := s.stacks[t := stack + [Scope(0, owner, runtimeOwner, Unarmed)]])
    case Enter(t, Some(d), owner, runtimeOwner) =>
      if d !in s.debuggers || !s.debuggers[d].usable then s
      else s.(stacks := s.stacks[t := stack + [Scope(d, owner, runtimeOwner, Entered)]])
    case Advance(t, spurious) =>
      var base, top := stack[..|stack| - 1], stack[|stack| - 1];
      if top.phase == Unarmed then s.(stacks := s.stacks[t := base])
      else
        var (x, scope) := Step(s.debuggers[top.debugger], top, t, spurious);
        System(s.debuggers[top.debugger := x], s.stacks[t := base + Listed(scope)])
  }

  // ----- the invariant -----

  /** How many scopes on a stack hold d's mutex. */
  function Holding(stack: seq<Scope>, d: Id): nat {
    if stack == [] then 0
    else
      Holding(stack[..|stack| - 1], d) +
      (if stack[|stack| - 1].debugger == d && Holds(stack[|stack| - 1].phase) then 1 else 0)
  }

  /** How many scopes on a stack have set `executing` and not yet reset it. */
  function Running(stack: seq<Scope>, d: Id): nat {
    if stack == [] then 0
    else
      Running(stack[..|stack| - 1], d) +
      (if stack[|stack| - 1].debugger == d && Active(stack[|stack| - 1].phase) then 1 else 0)
  }

  /** The debugger's fields are what a scope in its phase has made of them. */
  predicate Describes(x: Debugger, scope: Scope) {
    && x.executing
    && x.owner == (if scope.phase in {Arming2, Armed} then scope.owner else None)
    && x.runtimeOwner == (if scope.phase in {Armed, Leaving1} then scope.runtimeOwner else None)
  }

  ghost predicate DebuggerInv(x: Debugger) {
    && (x.holder == None ==> x.depth == 0 && !x.executing)
    && (!x.executing ==> x.owner == None && x.runtimeOwner == None)
  }

  /** What a debugger's state says about one thread's stack. */
  ghost predicate ThreadInv(x: Debugger, d: Id, stack: seq<Scope>, t: Id) {
    && (x.holder != Some(t) ==> Holding(stack, d) == 0)
    && (x.holder == Some(t) ==>
          && x.depth == Holding(stack, d) > 0
          && Running(stack, d) == (if x.executing then 1 else 0)
          && (forall i :: 0 <= i < |stack| && stack[i].debugger == d && Active(stack[i].phase) ==>
               Describes(x, stack[i]))
          && (forall i :: 0 <= i < |stack| && stack[i].debugger == d && stack[i].phase == Denied ==> x.executing))
  }

  /** Only the innermost scope is on its way in or out. */
  ghost predicate StackInv(s: System, t: Id) {
    var stack := Stack(s, t);
    && (forall i :: 0 <= i < |stack| && stack[i].phase != Unarmed ==> stack[i].debugger in s.debuggers)
    && (forall i :: 0 <= i < |stack| - 1 ==> stack[i].phase in {Armed, Unarmed})
  }

  ghost predicate Inv(s: System) {
    && (forall t: Id :: StackInv(s, t))
    && (forall d :: d in s.debuggers ==> DebuggerInv(s.debuggers[d]))
    && (forall d, t: Id :: d in s.debuggers ==> ThreadInv(s.debuggers[d], d, Stack(s, t), t))
  }

  // ----- counting -----

  lemma {:induction false} Counted(stack: seq<Scope>, d: Id, i: nat)
    requires i < |stack| && stack[i].debugger == d
    ensures Holds(stack[i].phase) ==> Holding(stack, d) > 0
    ensures Active(stack[i].phase) ==> Running(stack, d) > 0
  {
    if i < |stack| - 1 { Counted(stack[..|stack| - 1], d, i); }
  }

  lemma {:induction false} CountedTwice(stack: seq<Scope>, d: Id, i: nat, j: nat)
    requires i < j < |stack| && stack[i].debugger == d && stack[j].debugger == d
    requires Active(stack[i].phase) && Active(stack[j].phase)
    ensures Running(stack, d) >= 2
  {
    if j < |stack| - 1 { CountedTwice(stack[..|stack| - 1], d, i, j); } else { Counted(stack[..|stack| - 1], d, i); }
  }

  lemma {:induction false} SomeRuns(stack: seq<Scope>, d: Id)
    requires Running(stack, d) > 0
    ensures exists i :: 0 <= i < |stack| && stack[i].debugger == d && Active(stack[i].phase)
  {
    var x := stack[|stack| - 1];
    if !(x.debugger == d && Active(x.phase)) {
      SomeRuns(stack[..|stack| - 1], d);
      var i :| 0 <= i < |stack| - 1 && stack[..|stack| - 1][i].debugger == d && Active(stack[..|stack| - 1][i].phase);
      assert stack[i].debugger == d;
    }
  }

  lemma {:induction false} RunningHolds(stack: seq<Scope>, d: Id)
    ensures Running(stack, d) <= Holding(stack, d)
  {
    if stack != [] { RunningHolds(stack[..|stack| - 1], d); }
  }

  function HoldsFor(scope: Scope, d: Id): nat { if scope.debugger == d && Holds(scope.phase) then 1 else 0 }

  function RunsFor(scope: Scope, d: Id): nat { if scope.debugger == d && Active(scope.phase) then 1 else 0 }

  lemma {:induction false} CountTop(base: seq<Scope>, top: Scope, d: Id)
    ensures Holding(base + [top], d) == Holding(base, d) + HoldsFor(top, d)
    ensures Running(base + [top], d) == Running(base, d) + RunsFor(top, d)
  {
    assert (base + [top])[..|base|] == base;
  }

  // ----- one step keeps the invariant -----

  ghost predicate AllDescribed(x: Debugger, stack: seq<Scope>, d: Id) {
    forall i :: 0 <= i < |stack| && stack[i].debugger == d && Active(stack[i].phase) ==> Describes(x, stack[i])
  }

  predicate SameFields(x: Debugger, y: Debugger) {
    x.executing == y.executing && x.owner == y.owner && x.runtimeOwner == y.runtimeOwner
  }

  /** What the invariant says about a stack, split into its top and the rest. */
  ghost predicate SplitInv(x: Debugger, d: Id, base: seq<Scope>, top: Option<Scope>, t: Id) {
    var held := if top.Some? then HoldsFor(top.value, d) else 0;
    var runs := if top.Some? then RunsFor(top.value, d) else 0;
    && (x.holder != Some(t) ==> Holding(base, d) + held == 0)
    && (x.holder == Some(t) ==>
          && x.depth == Holding(base, d) + held > 0
          && Running(base, d) + runs == (if x.executing then 1 else 0)
          && (Running(base, d) > 0 ==> AllDescribed(x, base, d))
          && (runs == 1 ==> Describes(x, top.value))
          && (held == 1 && top.value.phase == Denied ==> x.executing))
  }

  lemma {:induction false} SplitIff(x: Debugger, d: Id, base: seq<Scope>, top: Option<Scope>, t: Id)
    requires forall i :: 0 <= i < |base| ==> base[i].phase in {Armed, Unarmed}
    ensures SplitInv(x, d, base, top, t) <==> ThreadInv(x, d, base + Listed(top), t)
  {
    var full := base + Listed(top);
    if top.Some? { CountTop(base, top.value, d); } else { assert full == base; }
    forall i | 0 <= i < |base| && base[i].debugger == d && Active(base[i].phase) ensures Running(base, d) > 0 {
      Counted(base, d, i);
    }
    hide Holding, Running, Describes;
    assert forall i :: 0 <= i < |base| ==> full[i] == base[i];
    assert top.Some? ==> full[|base|] == top.value;
    if SplitInv(x, d, base, top, t) && x.holder == Some(t) {
      forall i | 0 <= i < |full| && full[i].debugger == d && Active(full[i].phase) ensures Describes(x, full[i]) {
        assert i < |base| ==> full[i] == base[i];
      }
    }
    if ThreadInv(x, d, full, t) && x.holder == Some(t) {
      forall i | 0 <= i < |base| && base[i].debugger == d && Active(base[i].phase) ensures Describes(x, base[i]) {
        assert full[i] == base[i];
      }
    }
  }

  /** The moving scope's own debugger and thread. */
  lemma {:induction false} StepKeeps(x: Debugger, base: seq<Scope>, top: Scope, t: Id, spurious: bool)
    requires DebuggerInv(x) && ThreadInv(x, top.debugger, base + [top], t) && top.phase != Unarmed
    requires forall i :: 0 <= i < |base| ==> base[i].phase in {Armed, Unarmed}
    ensures var (x', scope) := Step(x, top, t, spurious);
      DebuggerInv(x') && ThreadInv(x', top.debugger, base + Listed(scope), t)
  {
    var d := top.debugger;
    var (x', scope) := Step(x, top, t, spurious);
    RunningHolds(base, d);
    SplitIff(x, d, base, Some(top), t);
    SplitIff(x', d, base, scope, t);
    assert SameFields(x, x') ==> AllDescribed(x, base, d) == AllDescribed(x', base, d);
    hide Holding, Running, ThreadInv, AllDescribed;
    StepKeepsSplit(x, base, top, t, spurious);
  }

  lemma {:induction false} StepKeepsSplit(x: Debugger, base: seq<Scope>, top: Scope, t: Id, spurious: bool)
    requires DebuggerInv(x) && SplitInv(x, top.debugger, base, Some(top), t) && top.phase != Unarmed
    requires Running(base, top.debugger) <= Holding(base, top.debugger)
    requires var x' := Step(x, top, t, spurious).0;
      SameFields(x, x') ==> AllDescribed(x, base, top.debugger) == AllDescribed(x', base, top.debugger)
    ensures var (x', scope) := Step(x, top, t, spurious);
      DebuggerInv(x') && SplitInv(x', top.debugger, base, scope, t)
  {
    var d := top.debugger;
    var (x', scope) := Step(x, top, t, spurious);
    hide Holding, Running, AllDescribed;
    match top.phase {
      case Entered => assert SplitInv(x', d, base, scope, t);
      case Locked => assert SplitInv(x', d, base, scope, t);
      case Denied => assert SplitInv(x', d, base, scope, t);
      case Arming1 => assert SplitInv(x', d, base, scope, t);
      case Arming2 => assert SplitInv(x', d, base, scope, t);
      case Armed => assert SplitInv(x', d, base, scope, t);
      case Leaving1 => assert SplitInv(x', d, base, scope, t);
      case Leaving2 => assert SplitInv(x', d, base, scope, t);
      case Leaving3 => assert SplitInv(x', d, base, scope, t);
    }
  }

  /** Any other thread: the mutex only passes between nobody and the moving thread. */
  lemma {:induction false} StepKeepsOthers(x: Debugger, d: Id, top: Scope, t: Id, spurious: bool, stack: seq<Scope>,
                                           u: Id)
    requires DebuggerInv(x) && u != t && ThreadInv(x, d, stack, u) && top.phase != Unarmed
    requires Holds(top.phase) ==> x.holder == Some(t)
    ensures ThreadInv(Step(x, top, t, spurious).0, d, stack, u)
  {
  }

  /** Any other debugger: the moving scope was never its own. */
  lemma {:induction false} StepKeepsOtherDebuggers(x: Debugger, d: Id, base: seq<Scope>, top: Scope,
                                                   after: Option<Scope>, t: Id)
    requires ThreadInv(x, d, base + [top], t)
    requires HoldsFor(top, d) == 0 && (after.Some? ==> HoldsFor(after.value, d) == 0)
    ensures ThreadInv(x, d, base + Listed(after), t)
  {
    CountTop(base, top, d);
    var full := base + [top];
    assert forall i :: 0 <= i < |base| ==> full[i] == base[i];
    if after.Some? { CountTop(base, after.value, d); } else { assert base + [] == base; }
  }

  lemma {:induction false} StackAfter(s: System, a: Action)
    requires Inv(s) && Enabled(s, a)
    ensures s.debuggers.Keys == Next(s, a).debuggers.Keys
    ensures forall t: Id :: StackInv(Next(s, a), t)
  {
    var s' := Next(s, a);
    var stack, after := Stack(s, a.thread), Stack(s', a.thread);
    assert StackInv(s, a.thread);
    if a.Advance? { StepKeepsDebugger(s, a); }
    hide Step, DebuggerInv, ThreadInv;
    assert s.debuggers.Keys == s'.debuggers.Keys;
    assert forall i :: 0 <= i < |after| && i < |stack| - (if a.Advance? then 1 else 0) ==> after[i] == stack[i];
    assert |after| <= |stack| + (if a.Enter? then 1 else 0);
    assert StackInv(s', a.thread);
    forall t: Id ensures StackInv(s', t) {
      if t != a.thread {
        assert Stack(s', t) == Stack(s, t);
        assert StackInv(s, t);
      }
    }
  }

  lemma {:induction false} StepKeepsDebugger(s: System, a: Action)
    requires a.Advance? && Enabled(s, a)
    ensures var stack := Stack(s, a.thread);
      var top := stack[|stack| - 1];
      top.phase != Unarmed ==>
        match Step(s.debuggers[top.debugger], top, a.thread, a.spurious).1
        case None => true
        case Some(scope) =>
          scope.debugger == top.debugger && scope.owner == top.owner && scope.runtimeOwner == top.runtimeOwner
  {
  }

  lemma {:induction false} EnterKeeps(s: System, a: Action, d: Id, t: Id)
    requires Inv(s) && a.Enter? && Enabled(s, a) && d in s.debuggers
    ensures ThreadInv(Next(s, a).debuggers[d], d, Stack(Next(s, a), t), t)
  {
    var stack := Stack(s, a.thread);
    assert ThreadInv(s.debuggers[d], d, Stack(s, t), t);
    CountTop(stack, Scope(0, a.owner, a.runtimeOwner, Unarmed), d);
    if a.debugger.Some? { CountTop(stack, Scope(a.debugger.value, a.owner, a.runtimeOwner, Entered), d); }
    hide Holding, Running;
  }

  lemma {:induction false} AdvanceKeeps(s: System, a: Action, d: Id, t: Id)
    requires Inv(s) && a.Advance? && Enabled(s, a) && d in s.debuggers
    ensures ThreadInv(Next(s, a).debuggers[d], d, Stack(Next(s, a), t), t) && DebuggerInv(Next(s, a).debuggers[d])
  {
    var stack := Stack(s, a.thread);
    var base, top := stack[..|stack| - 1], stack[|stack| - 1];
    assert base + [top] == stack;
    assert StackInv(s, a.thread) && DebuggerInv(s.debuggers[d]);
    assert ThreadInv(s.debuggers[d], d, Stack(s, t), t) && ThreadInv(s.debuggers[d], d, stack, a.thread);
    if top.phase == Unarmed {
      StepKeepsOtherDebuggers(s.debuggers[d], d, base, top, None, a.thread);
      assert base + Listed(None) == base;
    } else {
      var (x, scope) := Step(s.debuggers[top.debugger], top, a.thread, a.spurious);
      StepKeepsDebugger(s, a);
      if d != top.debugger {
        StepKeepsOtherDebuggers(s.debuggers[d], d, base, top, scope, a.thread);
      } else {
        Counted(stack, d, |stack| - 1);
        assert Holds(top.phase) ==> s.debuggers[d].holder == Some(a.thread);
        hide ThreadInv, DebuggerInv, Holding;
        StepKeeps(s.debuggers[d], base, top, a.thread, a.spurious);
        if t != a.thread { StepKeepsOthers(s.debuggers[d], d, top, a.thread, a.spurious, Stack(s, t), t); }
      }
    }
  }

  lemma {:induction false} NextInv(s: System, a: Action)
    requires Inv(s) && Enabled(s, a)
    ensures Inv(Next(s, a))
  {
    var s' := Next(s, a);
    StackAfter(s, a);
    hide Next, Enabled, ThreadInv, DebuggerInv, StackInv;
    forall d | d in s'.debuggers ensures DebuggerInv(s'.debuggers[d]) {
      if a.Advance? { AdvanceKeeps(s, a, d, 0); } else { EnterKeepsDebuggers(s, a); }
    }
    forall d, t: Id | d in s'.debuggers ensures ThreadInv(s'.debuggers[d], d, Stack(s', t), t) {
      if a.Advance? { AdvanceKeeps(s, a, d, t); } else { EnterKeeps(s, a, d, t); }
    }
  }

  lemma {:induction false} EnterKeepsDebuggers(s: System, a: Action)
    requires a.Enter? && Enabled(s, a)
    ensures Next(s, a).debuggers == s.debuggers
  {
  }

  // ----- whole runs -----

  /** All debuggers idle, no invocation anywhere. */
  predicate Initial(s: System) {
    && s.stacks == map[]
    && forall d :: d in s.debuggers ==>
         var x := s.debuggers[d];
         x.holder == None && x.depth == 0 && !x.executing && x.owner == None && x.runtimeOwner == None
  }

  /** The run takes the enabled actions of a schedule, whatever the schedule. */
  function Run(s: System, schedule: seq<Action>): System {
    if schedule == [] then s
    else
      var before := Run(s, schedule[..|schedule| - 1]);
      var a := schedule[|schedule| - 1];
      if Enabled(before, a) then Next(before, a) else before
  }

  lemma {:induction false} RunInv(s: System, schedule: seq<Action>)
    requires Initial(s)
    ensures Inv(Run(s, schedule)) && Run(s, schedule).debuggers.Keys == s.debuggers.Keys
  {
    if schedule != [] {
      RunInv(s, schedule[..|schedule| - 1]);
      var before := Run(s, schedule[..|schedule| - 1]);
      var a := schedule[|schedule| - 1];
      if Enabled(before, a) {
        NextInv(before, a);
        StackAfter(before, a);
      }
    }
  }

  /** Scope i of thread t is between setting and resetting d's `executing`. */
  predicate IsActive(s: System, d: Id, t: Id, i: int) {
    0 <= i < |Stack(s, t)| && Stack(s, t)[i].debugger == d && Active(Stack(s, t)[i].phase)
  }

  /**
   In every state of every run, under every interleaving: a debugger has at most one active invocation, `executing`
   says whether there is one, and its owner fields are exactly that invocation's.
   */
  lemma {:induction false} AtMostOneInvocation(start: System, schedule: seq<Action>, d: Id)
    requires Initial(start) && d in Run(start, schedule).debuggers
    ensures var s := Run(start, schedule);
      var x := s.debuggers[d];
      && (forall t: Id, i, u: Id, j :: IsActive(s, d, t, i) && IsActive(s, d, u, j) ==> t == u && i == j)
      && (x.executing <==> exists t: Id, i :: IsActive(s, d, t, i))
      && (forall t: Id, i :: IsActive(s, d, t, i) ==> Describes(x, Stack(s, t)[i]))
      && (!x.executing ==> x.owner == None && x.runtimeOwner == None)
  {
    var s := Run(start, schedule);
    RunInv(start, schedule);
    var x := s.debuggers[d];
    hide Run, Holding, Running;
    assert DebuggerInv(x) && forall t: Id :: ThreadInv(x, d, Stack(s, t), t);
    forall t: Id, i | IsActive(s, d, t, i) ensures x.holder == Some(t) && Describes(x, Stack(s, t)[i]) {
      Counted(Stack(s, t), d, i);
      assert ThreadInv(x, d, Stack(s, t), t);
    }
    forall t: Id, i, u: Id, j | IsActive(s, d, t, i) && IsActive(s, d, u, j) ensures t == u && i == j {
      if i < j { CountedTwice(Stack(s, t), d, i, j); } else if j < i { CountedTwice(Stack(s, t), d, j, i); }
    }
    if x.executing {
      var t := x.holder.value;
      assert ThreadInv(x, d, Stack(s, t), t);
      SomeRuns(Stack(s, t), d);
      var i :| 0 <= i < |Stack(s, t)| && Stack(s, t)[i].debugger == d && Active(Stack(s, t)[i].phase);
      assert IsActive(s, d, t, i);
    }
  }

  /** When no thread is inside an invocation, every debugger is back where it began. */
  lemma {:induction false} AllDoneIsIdle(start: System, schedule: seq<Action>, d: Id)
    requires Initial(start) && d in Run(start, schedule).debuggers
    requires forall t: Id :: Stack(Run(start, schedule), t) == []
    ensures var x := Run(start, schedule).debuggers[d];
      x.holder == None && x.depth == 0 && !x.executing && x.owner == None && x.runtimeOwner == None
  {
    var s := Run(start, schedule);
    RunInv(start, schedule);
    var x := s.debuggers[d];
    assert DebuggerInv(x);
    forall t: Id ensures x.holder != Some(t) { assert ThreadInv(x, d, Stack(s, t), t); }
  }

  /** A start arms only an idle debugger, and is otherwise refused. */
  lemma {:induction false} ArmsOnlyWhenIdle(start: System, schedule: seq<Action>, t: Id, spurious: bool)
    requires Initial(start)
    requires var stack := Stack(Run(start, schedule), t); stack != [] && stack[|stack| - 1].phase == Locked
    ensures var s := Run(start, schedule);
      var top := Stack(s, t)[|Stack(s, t)| - 1];
      && Enabled(s, Advance(t, spurious))
      && (if exists u: Id, i :: IsActive(s, top.debugger, u, i)
          then Stack(Next(s, Advance(t, spurious)), t) == Stack(s, t)[..|Stack(s, t)| - 1] + [top.(phase := Denied)]
          else Stack(Next(s, Advance(t, spurious)), t) == Stack(s, t)[..|Stack(s, t)| - 1] + [top.(phase := Arming1)])
  {
    var s := Run(start, schedule);
    RunInv(start, schedule);
    hide Run;
    assert StackInv(s, t);
    AtMostOneInvocation(start, schedule, Stack(s, t)[|Stack(s, t)| - 1].debugger);
  }

  // ----- an invocation from start to end -----

  /** The steps of a start that meets nobody. */
  function Starts(t: Id, d: Id, owner: Option<Id>, runtimeOwner: Option<Id>): seq<Action> {
    [Enter(t, Some(d), owner, runtimeOwner), Advance(t, false), Advance(t, false), Advance(t, false),
     Advance(t, false)]
  }

  lemma {:induction false} RunOn(s: System, schedule: seq<Action>, more: seq<Action>)
    ensures Run(s, schedule + more) == Run(Run(s, schedule), more)
  {
    hide Enabled, Next;
    if more == [] {
      assert schedule + more == schedule;
    } else {
      var n := |more| - 1;
      RunOn(s, schedule, more[..n]);
      assert (schedule + more)[..|schedule + more| - 1] == schedule + more[..n];
    }
  }

  lemma {:induction false} RunFirst(s: System, a: Action, more: seq<Action>)
    requires Enabled(s, a)
    ensures Run(s, [a] + more) == Run(Next(s, a), more)
  {
    RunOn(s, [a], more);
    assert [a][..0] == [] && Run(s, []) == s;
  }

  /** One step of the top scope, from one phase to the next. */
  lemma {:induction false} AdvanceTop(s: System, t: Id, base: seq<Scope>, top: Scope, x: Debugger, next: Scope,
                                      more: seq<Action>)
    requires Stack(s, t) == base + [top] && top.phase != Unarmed && top.debugger in s.debuggers
    requires Step(s.debuggers[top.debugger], top, t, false) == (x, Some(next))
    ensures Enabled(s, Advance(t, false))
    ensures Next(s, Advance(t, false)).debuggers == s.debuggers[top.debugger := x]
    ensures Stack(Next(s, Advance(t, false)), t) == base + [next]
    ensures Run(s, [Advance(t, false)] + more) == Run(Next(s, Advance(t, false)), more)
  {
    hide Step, Run;
    assert (base + [top])[..|base|] == base;
    RunFirst(s, Advance(t, false), more);
  }

  /** The first two steps of a start that meets nobody. */
  lemma {:induction false} ArmingSteps(x: Debugger, top: Scope, t: Id)
    requires x.holder == None && x.depth == 0 && !x.executing && top.phase == Entered
    ensures Step(x, top, t, false) == (Lock(x, t), Some(top.(phase := Locked)))
    ensures Step(Lock(x, t), top.(phase := Locked), t, false) ==
      (Lock(x, t).(executing := true), Some(top.(phase := Arming1)))
  {
  }

  lemma {:induction false} EnterTop(s: System, t: Id, d: Id, owner: Option<Id>, runtimeOwner: Option<Id>,
                                    more: seq<Action>)
    requires d in s.debuggers && s.debuggers[d].usable && MayEnter(Stack(s, t))
    ensures var a := Enter(t, Some(d), owner, runtimeOwner);
      && Enabled(s, a) && Next(s, a).debuggers == s.debuggers
      && Stack(Next(s, a), t) == Stack(s, t) + [Scope(d, owner, runtimeOwner, Entered)]
      && Run(s, [a] + more) == Run(Next(s, a), more)
  {
    hide Run;
    RunFirst(s, Enter(t, Some(d), owner, runtimeOwner), more);
  }

  /** Two steps of the top scope. */
  lemma {:induction false} AdvanceTwice(s: System, t: Id, base: seq<Scope>, top: Scope, x: Debugger, mid: Scope,
                                        y: Debugger, next: Scope)
    requires Stack(s, t) == base + [top] && top.phase != Unarmed && mid.phase != Unarmed
    requires top.debugger == mid.debugger && top.debugger in s.debuggers
    requires Step(s.debuggers[top.debugger], top, t, false) == (x, Some(mid))
    requires Step(x, mid, t, false) == (y, Some(next))
    ensures var s' := Run(s, [Advance(t, false), Advance(t, false)]);
      s'.debuggers == s.debuggers[top.debugger := y] && Stack(s', t) == base + [next]
  {
    hide *;
    var a := Advance(t, false);
    AdvanceTop(s, t, base, top, x, mid, [a]);
    AdvanceTop(Next(s, a), t, base, mid, y, next, []);
    RunNothing(Next(Next(s, a), a));
    assert [a, a] == [a] + [a] && [a] == [a] + [];
  }

  lemma {:induction false} FirstHalf(s: System, t: Id, base: seq<Scope>, top: Scope)
    requires Stack(s, t) == base + [top] && top.phase == Entered && top.debugger in s.debuggers
    requires var x := s.debuggers[top.debugger]; x.holder == None && x.depth == 0 && !x.executing
    ensures var s' := Run(s, [Advance(t, false), Advance(t, false)]);
      && Stack(s', t) == base + [top.(phase := Arming1)]
      && s'.debuggers == s.debuggers[top.debugger :=
           s.debuggers[top.debugger].(holder := Some(t), depth := 1, executing := true)]
  {
    hide *;
    var x := s.debuggers[top.debugger];
    ArmingSteps(x, top, t);
    LockIs(x, t);
    AdvanceTwice(s, t, base, top, Lock(x, t), top.(phase := Locked),
      x.(holder := Some(t), depth := 1, executing := true), top.(phase := Arming1));
  }

  lemma {:induction false} SecondHalf(s: System, t: Id, base: seq<Scope>, top: Scope)
    requires Stack(s, t) == base + [top] && top.phase == Arming1 && top.debugger in s.debuggers
    ensures var s' := Run(s, [Advance(t, false), Advance(t, false)]);
      && Stack(s', t) == base + [top.(phase := Armed)]
      && s'.debuggers == s.debuggers[top.debugger :=
           s.debuggers[top.debugger].(owner := top.owner, runtimeOwner := top.runtimeOwner)]
  {
    var x := s.debuggers[top.debugger];
    assert Step(x, top, t, false) == (x.(owner := top.owner), Some(top.(phase := Arming2)));
    assert Step(x.(owner := top.owner), top.(phase := Arming2), t, false) ==
      (x.(owner := top.owner, runtimeOwner := top.runtimeOwner), Some(top.(phase := Armed)));
    hide *;
    AdvanceTwice(s, t, base, top, x.(owner := top.owner), top.(phase := Arming2),
      x.(owner := top.owner, runtimeOwner := top.runtimeOwner), top.(phase := Armed));
  }

  /** A debugger that nobody holds, whatever else is going on, can be armed, with the owners that were asked for. */
  lemma {:induction false} FreeCanBeArmed(s: System, t: Id, d: Id, owner: Option<Id>, runtimeOwner: Option<Id>)
    requires Inv(s) && d in s.debuggers && s.debuggers[d].usable && s.debuggers[d].holder == None
    requires MayEnter(Stack(s, t))
    ensures var after := Run(s, Starts(t, d, owner, runtimeOwner));
      && Stack(after, t) == Stack(s, t) + [Scope(d, owner, runtimeOwner, Armed)]
      && after.debuggers == s.debuggers[d := Debugger(true, Some(t), 1, true, owner, runtimeOwner)]
  {
    var base, x, top := Stack(s, t), s.debuggers[d], Scope(d, owner, runtimeOwner, Entered);
    assert DebuggerInv(x);
    hide *;
    IdleFields(x);
    var a := Advance(t, false);
    EnterTop(s, t, d, owner, runtimeOwner, [a, a, a, a]);
    var s0 := Next(s, Enter(t, Some(d), owner, runtimeOwner));
    FirstHalf(s0, t, base, top);
    SecondHalf(Run(s0, [a, a]), t, base, top.(phase := Arming1));
    RunOn(s0, [a, a], [a, a]);
    StartsAre(t, d, owner, runtimeOwner);
  }

  lemma {:induction false} IdleFields(x: Debugger)
    requires DebuggerInv(x) && x.holder == None
    ensures x.depth == 0 && !x.executing
  {
  }

  lemma {:induction false} LockIs(x: Debugger, t: Id)
    ensures Lock(x, t) == x.(holder := Some(t), depth := x.depth + 1)
  {
  }

  lemma {:induction false} RunNothing(s: System)
    ensures Run(s, []) == s
  {
  }

  lemma {:induction false} StartsAre(t: Id, d: Id, owner: Option<Id>, runtimeOwner: Option<Id>)
    ensures var a := Advance(t, false);
      && Starts(t, d, owner, runtimeOwner) == [Enter(t, Some(d), owner, runtimeOwner)] + [a, a, a, a]
      && [a, a, a, a] == [a, a] + [a, a]
  {
  }

  /**
   Every exit restores idle: in any state of any run, a debugger without an active invocation has none of its three
   fields set, and its mutex is held exactly as often as scopes on one thread's stack hold it, so not at all once they
   are gone.
   */
  lemma {:induction false} ExitRestoresIdle(start: System, schedule: seq<Action>, d: Id)
    requires Initial(start) && d in Run(start, schedule).debuggers
    requires forall t: Id, i :: !IsActive(Run(start, schedule), d, t, i)
    ensures var s := Run(start, schedule);
      var x := s.debuggers[d];
      && !x.executing && x.owner == None && x.runtimeOwner == None
      && (forall t: Id :: x.holder == Some(t) ==> x.depth == Holding(Stack(s, t), d) > 0)
      && (forall t: Id :: x.holder != Some(t) ==> Holding(Stack(s, t), d) == 0)
      && ((forall t: Id :: Holding(Stack(s, t), d) == 0) ==> x.holder == None && x.depth == 0)
  {
    var s := Run(start, schedule);
    AtMostOneInvocation(start, schedule, d);
    RunInv(start, schedule);
    hide Run;
    assert DebuggerInv(s.debuggers[d]) && forall t: Id :: ThreadInv(s.debuggers[d], d, Stack(s, t), t);
  }

  /**
   Starts that are refused, for contention or re-entry, leave no trace: whatever other threads and inner scopes try
   while an invocation is active and does not move, it stays the only one, and the debugger's fields stay what it made
   of them.
   */
  lemma {:induction false} RefusalLeavesUntouched(start: System, schedule: seq<Action>, more: seq<Action>, d: Id, t: Id,
                                                  i: nat)
    requires Initial(start) && d in start.debuggers && IsActive(Run(start, schedule), d, t, i)
    requires i < |Stack(Run(start, schedule + more), t)|
    requires Stack(Run(start, schedule + more), t)[i] == Stack(Run(start, schedule), t)[i]
    ensures d in Run(start, schedule).debuggers && d in Run(start, schedule + more).debuggers
    ensures SameFields(Run(start, schedule).debuggers[d], Run(start, schedule + more).debuggers[d])
    ensures forall u: Id, j :: IsActive(Run(start, schedule + more), d, u, j) ==> u == t && j == i
  {
    RunInv(start, schedule);
    RunInv(start, schedule + more);
    AtMostOneInvocation(start, schedule, d);
    AtMostOneInvocation(start, schedule + more, d);
    hide Run;
    assert IsActive(Run(start, schedule + more), d, t, i);
  }
}
