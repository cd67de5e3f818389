/**
 Global and persistent variables declared while source runs: the bindings of a
 call frame and the storage of a session.
 */
module SourceStorage {
  import opened Wrappers
  import opened RuntimeValues

  datatype StorageKind = Global | Persistent

  datatype FrameKind = Script | FunctionFrame | AnonymousFrame | Initializer

  /** The function whose persistent variables a frame may bind. */
  datatype Scope = Scope(contextIdentity: nat, functionName: string)

  datatype Binding = Binding(kind: StorageKind, scope: Option<Scope>)

  datatype Problem =
    | Conflict                 // MParser:ConflictingWorkspaceDeclaration
    | AlreadyInWorkspace       // MParser:PersistentVariableAlreadyInWorkspace
    | NotInFunction            // MParser:PersistentNotInFunction
    | StaticWorkspace          // MParser:StaticWorkspaceViolation
    | DeclarationAfterUse      // MParser:GlobalDeclarationAfterUse, a warning

  datatype Outcome = Outcome(succeeded: bool, binding: Option<Binding>, value: Option<Value>, problem: Option<Problem>)

  function Empty(): Value { Value(Double, [0, 0], Dense(MatrixForm, false, [])) }

  // ----- states and their transitions -----

  datatype FrameState = FrameState(kind: FrameKind, workspace: map<string, Value>, globals: set<string>,
                                   persistents: set<string>, scope: Option<Scope>, dynamicAllowed: bool)

  /** A function's variables are found by its scope; a missing function has none. */
  datatype SessionState = SessionState(globals: map<string, Value>, persistents: map<Scope, map<string, Value>>)

  function Persistents(s: SessionState, scope: Scope): map<string, Value> {
    if scope in s.persistents then s.persistents[scope] else map[]
  }

  function BindingIn(f: FrameState, name: string): Option<Binding> {
    if name in f.globals then Some(Binding(Global, None))
    else if name in f.persistents && f.scope.Some? then Some(Binding(Persistent, f.scope))
    else None
  }

  /** `declareGlobal`: what is stored stays; a new name starts out empty. */
  function WithGlobal(s: SessionState, name: string, initial: Value): SessionState {
    if name in s.globals then s else s.(globals := s.globals[name := initial])
  }

  /** `declarePersistent` */
  function WithPersistent(s: SessionState, scope: Scope, name: string): SessionState {
    var mine := Persistents(s, scope);
    s.(persistents := s.persistents[scope := if name in mine then mine else mine[name := Empty()]])
  }

  datatype Declared = Declared(frame: FrameState, session: SessionState, outcome: Outcome)

  function Failed(f: FrameState, s: SessionState, problem: Problem): Declared {
    Declared(f, s, Outcome(false, None, None, Some(problem)))
  }

  function Succeeded(f: FrameState, s: SessionState, name: string, value: Value, binding: Option<Binding>,
                     warning: Option<Problem>): Declared {
    Declared(f.(workspace := f.workspace[name := value]), s, Outcome(true, binding, Some(value), warning))
  }

  /** What a declaration does; `localValue` is the caller's unbound local variable of that name. */
  function Declare(f: FrameState, s: SessionState, kind: StorageKind, name: string,
                   localValue: Option<Value>): Declared {
    var existing := BindingIn(f, name);
    if existing.Some? then
      if existing.value.kind != kind then Failed(f, s, Conflict)
      else if kind == Global then
        var s' := WithGlobal(s, name, Empty());
        Succeeded(f, s', name, s'.globals[name], existing, None)
      else
        var s' := WithPersistent(s, existing.value.scope.value, name);
        Succeeded(f, s', name, s'.persistents[existing.value.scope.value][name], existing, None)
    else if kind == Global then
      var s' := WithGlobal(s, name, if localValue.Some? then localValue.value else Empty());
      Succeeded(f.(globals := f.globals + {name}), s', name, s'.globals[name], Some(Binding(Global, None)),
                if localValue.Some? then Some(DeclarationAfterUse) else None)
    else if f.kind == Script then
      if localValue.Some? then Failed(f, s, AlreadyInWorkspace) else Succeeded(f, s, name, Empty(), None, None)
    else if f.scope == None then Failed(f, s, NotInFunction)
    else if !f.dynamicAllowed then Failed(f, s, StaticWorkspace)
    else if localValue.Some? then Failed(f, s, AlreadyInWorkspace)
    else
      var s' := WithPersistent(s, f.scope.value, name);
      Succeeded(f.(persistents := f.persistents + {name}), s', name, s'.persistents[f.scope.value][name],
                Some(Binding(Persistent, f.scope)), None)
  }

  function Clear(f: FrameState, name: string): FrameState {
    if name == "" then f.(globals := {}, persistents := {})
    else f.(globals := f.globals - {name}, persistents := f.persistents - {name})
  }

  // ----- the mutable frame and session -----

  class Session {
    var globals: map<string, Value>
    var persistents: map<Scope, map<string, Value>>

    constructor ()
      ensures State() == SessionState(map[], map[])
    {
      globals, persistents := map[], map[];
    }

    function State(): SessionState
      reads this
    {
      SessionState(globals, persistents)
    }

    method DeclareGlobal(name: string) returns (value: Value)
      modifies this
      ensures State() == WithGlobal(old(State()), name, Empty()) && value == State().globals[name]
    {
      if name !in globals {
        globals := globals[name := Empty()];
      }
      value := globals[name];
    }

    method DeclarePersistent(scope: Scope, name: string) returns (value: Value)
      modifies this
      ensures State() == WithPersistent(old(State()), scope, name) && value == State().persistents[scope][name]
    {
      var variables := Persistents(State(), scope);
      if name !in variables {
        variables := variables[name := Empty()];
      }
      persistents := persistents[scope := variables];
      value := variables[name];
    }
  }

  class Frame {
    const kind: FrameKind
    const scope: Option<Scope>
    const dynamicAllowed: bool
    var workspace: map<string, Value>
    var globalBindings: set<string>
    var persistentBindings: set<string>

    constructor (kind: FrameKind, scope: Option<Scope>, dynamicAllowed: bool, workspace: map<string, Value>)
      ensures State() == FrameState(kind, workspace, {}, {}, scope, dynamicAllowed)
    {
      this.kind, this.scope, this.dynamicAllowed := kind, scope, dynamicAllowed;
      this.workspace, globalBindings, persistentBindings := workspace, {}, {};
    }

    function State(): FrameState
      reads this
    {
      FrameState(kind, workspace, globalBindings, persistentBindings, scope, dynamicAllowed)
    }

    /** `runtimeSourceStorageBinding` */
    method FindBinding(name: string) returns (binding: Option<Binding>)
      ensures binding == BindingIn(State(), name)
    {
      if name in globalBindings {
        return Some(Binding(Global, None));
      }
      if name in persistentBindings && scope.Some? {
        return Some(Binding(Persistent, scope));
      }
      return None;
    }

    /** `runtimeDeclareSourceStorage` */
    method DeclareStorage(session: Session, storage: StorageKind, name: string, localValue: Option<Value>)
      returns (outcome: Outcome)
      modifies this, session
      ensures Declared(State(), session.State(), outcome) ==
        old(Declare(State(), session.State(), storage, name, localValue))
    {
      var existing := FindBinding(name);
      if existing.Some? && existing.value.kind != storage {
        return Outcome(false, None, None, Some(Conflict));
      }
      var value;
      if existing.Some? {
        if storage == Global {
          value := session.DeclareGlobal(name);
        } else {
          value := session.DeclarePersistent(existing.value.scope.value, name);
        }
        workspace := workspace[name := value];
        return Outcome(true, existing, Some(value), None);
      }
      if storage == Global {
        var warning := None;
        if localValue.Some? {
          if name !in session.globals {
            session.globals := session.globals[name := localValue.value];
          }
          warning := Some(DeclarationAfterUse);
        }
        value := session.DeclareGlobal(name);
        globalBindings := globalBindings + {name};
        workspace := workspace[name := value];
        return Outcome(true, Some(Binding(Global, None)), Some(value), warning);
      }
      if kind == Script {
        if localValue.Some? {
          return Outcome(false, None, None, Some(AlreadyInWorkspace));
        }
        workspace := workspace[name := Empty()];
        return Outcome(true, None, Some(Empty()), None);
      }
      if scope == None {
        return Outcome(false, None, None, Some(NotInFunction));
      }
      if !dynamicAllowed {
        return Outcome(false, None, None, Some(StaticWorkspace));
      }
      if localValue.Some? {
        return Outcome(false, None, None, Some(AlreadyInWorkspace));
      }
      value := session.DeclarePersistent(scope.value, name);
      persistentBindings := persistentBindings + {name};
      workspace := workspace[name := value];
      return Outcome(true, Some(Binding(Persistent, scope)), Some(value), None);
    }

    /** `runtimeClearSourceStorage`; the empty name clears all. */
    method ClearStorage(name: string)
      modifies this
      ensures State() == Clear(old(State()), name)
    {
      if name == "" {
        globalBindings, persistentBindings := {}, {};
        return;
      }
      globalBindings := globalBindings - {name};
      persistentBindings := persistentBindings - {name};
    }
  }

  // ----- what declarations keep -----

  /** No name is both global and persistent, and only a frame with a scope has persistent names. */
  predicate Coherent(f: FrameState) {
    f.globals !! f.persistents && (f.persistents != {} ==> f.scope.Some?)
  }

  /** s' stores everything s does, unchanged. */
  predicate Extends(s: SessionState, s': SessionState) {
    && (forall name :: name in s.globals ==> name in s'.globals && s'.globals[name] == s.globals[name])
    && (forall scope :: scope in s.persistents ==> scope in s'.persistents)
    && (forall scope, name :: scope in s.persistents && name in s.persistents[scope] ==>
          name in s'.persistents[scope] && s'.persistents[scope][name] == s.persistents[scope][name])
  }

  /** s' stores everything s does, unchanged, and no global besides but `name`. */
  ghost predicate ExtendsBy(s: SessionState, s': SessionState, name: string) {
    Extends(s, s') && forall other :: other != name ==> (other in s'.globals <==> other in s.globals)
  }

  lemma {:induction false} GlobalExtends(s: SessionState, name: string, initial: Value)
    ensures ExtendsBy(s, WithGlobal(s, name, initial), name) && ExtendsBy(s, s, name)
  {
  }

  lemma {:induction false} PersistentExtends(s: SessionState, scope: Scope, name: string)
    ensures ExtendsBy(s, WithPersistent(s, scope, name), name)
  {
  }

  /** A failed declaration changes nothing, and a successful one overwrites nothing that was stored. */
  lemma {:induction false} DeclareKeepsStorage(f: FrameState, s: SessionState, kind: StorageKind, name: string,
                                               localValue: Option<Value>)
    ensures var d := Declare(f, s, kind, name, localValue);
      (!d.outcome.succeeded ==> d.frame == f && d.session == s && d.outcome.problem.Some?)
        && ExtendsBy(s, d.session, name)
  {
    GlobalExtends(s, name, Empty());
    if localValue.Some? { GlobalExtends(s, name, localValue.value); }
    if f.scope.Some? { PersistentExtends(s, f.scope.value, name); }
    hide ExtendsBy, WithPersistent, WithGlobal, Empty;
  }

  lemma {:induction false} DeclareKeepsWorkspace(f: FrameState, s: SessionState, kind: StorageKind, name: string,
                                                 localValue: Option<Value>)
    ensures var f' := Declare(f, s, kind, name, localValue).frame;
      forall other :: other != name ==>
        && (other in f'.workspace <==> other in f.workspace)
        && (other in f.workspace ==> f'.workspace[other] == f.workspace[other])
        && (BindingIn(f', other) == BindingIn(f, other))
  {
    hide WithGlobal, WithPersistent, Empty;
  }

  /**
   After a success the workspace holds the returned value, which is the stored one: for a global what was stored before,
   else the local variable it replaces, else the empty matrix.
   */
  lemma {:induction false} DeclareLinksWorkspace(f: FrameState, s: SessionState, kind: StorageKind, name: string,
                                                 localValue: Option<Value>)
    requires Coherent(f) && Declare(f, s, kind, name, localValue).outcome.succeeded
    ensures var d := Declare(f, s, kind, name, localValue);
      && d.outcome.value.Some? && name in d.frame.workspace && d.frame.workspace[name] == d.outcome.value.value
      && BindingIn(d.frame, name) == d.outcome.binding
      && match d.outcome.binding
         case None => f.kind == Script && kind == Persistent && d.session == s && d.outcome.value.value == Empty()
         case Some(Binding(Global, _)) =>
           && kind == Global && name in d.session.globals && d.session.globals[name] == d.outcome.value.value
           && (name in s.globals ==> d.outcome.value.value == s.globals[name])
           && (name !in s.globals && name !in f.globals ==>
                 d.outcome.value.value == match localValue case Some(v) => v case None => Empty())
         case Some(Binding(Persistent, scope)) =>
           && kind == Persistent && scope.Some? && scope == f.scope
           && name in Persistents(d.session, scope.value)
           && Persistents(d.session, scope.value)[name] == d.outcome.value.value
           && d.outcome.value.value ==
           (if name in Persistents(s, scope.value) then Persistents(s, scope.value)[name] else Empty())
  {
  }

  /** Bound already, but not as this kind. */
  predicate BoundOtherwise(f: FrameState, kind: StorageKind, name: string) {
    match kind case Global => name in f.persistents case Persistent => name in f.globals
  }

  predicate Bound(f: FrameState, name: string) { name in f.globals || name in f.persistents }

  /** Which declaration succeeds, and which problem is reported, spelled out on the frame. */
  lemma {:induction false} DeclareOutcomes(f: FrameState, s: SessionState, kind: StorageKind, name: string,
                                           localValue: Option<Value>)
    requires Coherent(f)
    ensures var o := Declare(f, s, kind, name, localValue).outcome;
      && (o.problem == Some(Conflict) <==> BoundOtherwise(f, kind, name))
      && (o.problem == Some(DeclarationAfterUse) <==> kind == Global && !Bound(f, name) && localValue.Some?)
      && (o.problem == Some(NotInFunction) <==>
            kind == Persistent && !Bound(f, name) && f.kind != Script && f.scope == None)
      && (o.problem == Some(StaticWorkspace) <==>
            kind == Persistent && !Bound(f, name) && f.kind != Script && f.scope.Some? && !f.dynamicAllowed)
      && (o.problem == Some(AlreadyInWorkspace) <==>
            && kind == Persistent && !Bound(f, name) && localValue.Some?
            && (f.kind == Script || (f.scope.Some? && f.dynamicAllowed)))
      && (o.succeeded <==> o.problem == None || o.problem == Some(DeclarationAfterUse))
  {
    hide WithGlobal, WithPersistent, Empty;
  }

  /** Declaring again the same thing, given any local value, is without effect. */
  predicate Idempotent(d: Declared, kind: StorageKind, name: string, localValue: Option<Value>) {
    var again := Declare(d.frame, d.session, kind, name, localValue);
    again.outcome.succeeded && again.frame == d.frame && again.session == d.session
      && again.outcome.value == d.outcome.value
  }

  /**
   Redeclaration is idempotent exactly when it is not a second persistent declaration at the script level, where nothing
   is bound, that finds the variable in the workspace.
   */
  lemma {:induction false} RedeclarationIff(f: FrameState, s: SessionState, kind: StorageKind, name: string,
                                            first: Option<Value>, second: Option<Value>)
    requires Coherent(f) && Declare(f, s, kind, name, first).outcome.succeeded
    ensures Idempotent(Declare(f, s, kind, name, first), kind, name, second) <==>
            !(kind == Persistent && f.kind == Script && BindingIn(f, name) == None && second.Some?)
  {
    hide Empty;
    DeclareLinksWorkspace(f, s, kind, name, first);
    if Declare(f, s, kind, name, first).outcome.binding.Some? {
      BoundRedeclaration(f, s, kind, name, first, second);
    } else {
      var d := Declare(f, s, kind, name, first);
      assert d.frame.workspace[name := Empty()] == d.frame.workspace;
    }
  }

  lemma {:induction false} BoundRedeclaration(f: FrameState, s: SessionState, kind: StorageKind, name: string,
                                              first: Option<Value>, second: Option<Value>)
    requires Coherent(f) && Declare(f, s, kind, name, first).outcome.succeeded
    requires Declare(f, s, kind, name, first).outcome.binding.Some?
    ensures Idempotent(Declare(f, s, kind, name, first), kind, name, second)
    ensures kind == Persistent && f.kind == Script ==> BindingIn(f, name).Some?
  {
    hide Empty;
    var d := Declare(f, s, kind, name, first);
    DeclareLinksWorkspace(f, s, kind, name, first);
    AlreadyStored(d.session, name, d.outcome.binding.value.scope);
    assert d.frame.workspace[name := d.outcome.value.value] == d.frame.workspace;
  }

  lemma {:induction false} AlreadyStored(s: SessionState, name: string, scope: Option<Scope>)
    ensures name in s.globals ==> forall initial :: WithGlobal(s, name, initial) == s
    ensures scope.Some? && scope.value in s.persistents && name in s.persistents[scope.value] ==>
      WithPersistent(s, scope.value, name) == s
  {
  }

  /**
   The failing case: a script declares x persistent, x is now in its workspace, and declaring it again is an error.
   */
  lemma {:induction false} ScriptRedeclarationFails()
    ensures var f := FrameState(Script, map[], {}, {}, None, false);
      var d := Declare(f, SessionState(map[], map[]), Persistent, "x", None);
      && d.outcome.succeeded && "x" in d.frame.workspace
      && Declare(d.frame, d.session, Persistent, "x", Some(d.frame.workspace["x"])).outcome.problem ==
      Some(AlreadyInWorkspace)
  {
  }

  // ----- whole runs -----

  datatype Operation =
    | DeclareOp(kind: StorageKind, name: string, localValue: Option<Value>)
    | ClearOp(name: string)
    | Assign(name: string, value: Value)                  // the program assigns to a workspace variable
    | Elsewhere(session: SessionState)                    // other frames and hosts use the session

  datatype State = State(frame: FrameState, session: SessionState)

  function Perform(st: State, op: Operation): State {
    match op
    case DeclareOp(kind, name, localValue) =>
      var d := Declare(st.frame, st.session, kind, name, localValue);
      State(d.frame, d.session)
    case ClearOp(name) => State(Clear(st.frame, name), st.session)
    case Assign(name, value) => st.(frame := st.frame.(workspace := st.frame.workspace[name := value]))
    case Elsewhere(session) => st.(session := session)
  }

  function Run(st: State, ops: seq<Operation>): State {
    if ops == [] then st else Perform(Run(st, ops[..|ops| - 1]), ops[|ops| - 1])
  }

  /** Whatever is declared, cleared and assigned, the two sets of bound names stay apart and persistents stay scoped. */
  lemma {:induction false} RunCoherent(st: State, ops: seq<Operation>)
    requires Coherent(st.frame)
    ensures var end := Run(st, ops).frame;
      Coherent(end) && end.kind == st.frame.kind && end.scope == st.frame.scope
  {
    if ops != [] {
      RunCoherent(st, ops[..|ops| - 1]);
      var before := Run(st, ops[..|ops| - 1]);
      var op := ops[|ops| - 1];
      if op.DeclareOp? { DeclareCoherent(before.frame, before.session, op.kind, op.name, op.localValue); }
    }
  }

  predicate Clears(op: Operation, name: string) { op.ClearOp? && (op.name == "" || op.name == name) }

  /**
   What a name is bound to lasts: whatever else happens in a run, it stays bound to the same storage until it is
   cleared, and a declaration of the other kind is refused and changes nothing.
   */
  lemma {:induction false} BindingLasts(st: State, ops: seq<Operation>, name: string, kind: StorageKind)
    requires Coherent(st.frame) && BindingIn(st.frame, name).Some?
    requires forall k :: 0 <= k < |ops| ==> !Clears(ops[k], name)
    ensures var end := Run(st, ops);
      && BindingIn(end.frame, name) == BindingIn(st.frame, name)
      && (kind != BindingIn(st.frame, name).value.kind ==> forall localValue ::
            Declare(end.frame, end.session, kind, name, localValue) == Failed(end.frame, end.session, Conflict))
  {
    if ops != [] {
      var op := ops[|ops| - 1];
      assert !Clears(op, name);
      BindingLasts(st, ops[..|ops| - 1], name, kind);
      RunCoherent(st, ops[..|ops| - 1]);
      var before := Run(st, ops[..|ops| - 1]);
      match op
      case DeclareOp(k, n, v) =>
        if n == name { DeclareKeepsBinding(before.frame, before.session, k, n, v); }
        else { DeclareKeepsWorkspace(before.frame, before.session, k, n, v); }
      case ClearOp(n) => ClearFrees(before.frame, n, name);
      case _ =>
    }
  }

  lemma {:induction false} DeclareKeepsBinding(f: FrameState, s: SessionState, kind: StorageKind, name: string,
                                               localValue: Option<Value>)
    requires BindingIn(f, name).Some?
    ensures BindingIn(Declare(f, s, kind, name, localValue).frame, name) == BindingIn(f, name)
  {
  }

  lemma {:induction false} DeclareCoherent(f: FrameState, s: SessionState, kind: StorageKind, name: string,
                                           localValue: Option<Value>)
    requires Coherent(f)
    ensures var f' := Declare(f, s, kind, name, localValue).frame;
      Coherent(f') && f'.kind == f.kind && f'.scope == f.scope && f'.dynamicAllowed == f.dynamicAllowed
  {
  }

  /** Clearing a name frees it for either kind of declaration, and touches neither values nor storage. */
  lemma {:induction false} ClearFrees(f: FrameState, name: string, other: string)
    requires Coherent(f)
    ensures var f' := Clear(f, name);
      && f'.workspace == f.workspace
      && BindingIn(f', other) == if name == "" || name == other then None else BindingIn(f, other)
  {
  }
}
