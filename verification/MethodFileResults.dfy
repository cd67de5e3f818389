/**
 What attaching a set of method files does to a source graph, independently of
 the order in which they come.
 */
module MethodFileResults {
  import opened Collections
  import opened SyntaxTrees
  import opened MethodFiles

  // ----- nodes of one name -----

  /** The children of that name, whatever they are, in order. */
  function Named(nodes: seq<Node>, name: string): seq<Node> {
    if nodes == [] then []
    else Named(nodes[..|nodes| - 1], name) + (if nodes[|nodes| - 1].name == name then [nodes[|nodes| - 1]] else [])
  }

  function ImplementEach(nodes: seq<Node>, m: Method): seq<Node> {
    seq(|nodes|, i requires 0 <= i < |nodes| => Implemented(nodes[i], m))
  }

  lemma {:induction false} NamedAppend(nodes: seq<Node>, x: Node, name: string)
    ensures Named(nodes + [x], name) == Named(nodes, name) + (if x.name == name then [x] else [])
  {
    assert (nodes + [x])[..|nodes|] == nodes;
  }

  lemma {:induction false} NamedImplemented(nodes: seq<Node>, m: Method, name: string)
    ensures Named(ImplementEach(nodes, m), name) == ImplementEach(Named(nodes, name), m)
  {
    if nodes != [] {
      var init, last := nodes[..|nodes| - 1], nodes[|nodes| - 1];
      NamedImplemented(init, m, name);
      assert ImplementEach(nodes, m)[..|nodes| - 1] == ImplementEach(init, m);
      ImplementConcat(Named(init, name), if last.name == name then [last] else [], m);
    }
  }

  lemma {:induction false} ImplementConcat(a: seq<Node>, b: seq<Node>, m: Method)
    ensures ImplementEach(a + b, m) == ImplementEach(a, m) + ImplementEach(b, m)
  {
  }

  lemma {:induction false} NamedAre(nodes: seq<Node>, name: string)
    ensures forall i :: 0 <= i < |Named(nodes, name)| ==> Named(nodes, name)[i].name == name
  {
    if nodes != [] { NamedAre(nodes[..|nodes| - 1], name); }
  }

  lemma {:induction false} SelectNamed(nodes: seq<Node>, name: string)
    ensures Select(Named(nodes, name), name) == Select(nodes, name)
  {
    if nodes != [] {
      var init, last := nodes[..|nodes| - 1], nodes[|nodes| - 1];
      SelectNamed(init, name);
      if last.name == name {
        assert (Named(init, name) + [last])[..|Named(init, name)|] == Named(init, name);
      } else {
        assert Named(init, name) + [] == Named(init, name);
      }
    }
  }

  // ----- two states of one class -----

  function ChildrenAt(members: seq<Node>, b: nat): seq<Node> { if b < |members| then members[b].children else [] }

  /** y says the same about the name as x, and has at most a default block more. */
  ghost predicate Similar(x: seq<Node>, y: seq<Node>, name: string) {
    && |x| <= |y| <= |x| + 1 && DefaultBlock(x) == DefaultBlock(y)
    && (|y| > |x| ==> y[|x|].kind == MethodsBlock)
    && (forall b :: 0 <= b < |x| ==> x[b].kind == y[b].kind)
    && forall b: nat :: Named(ChildrenAt(x, b), name) == Named(ChildrenAt(y, b), name)
  }

  lemma {:induction false} SameEntries(x: seq<Node>, y: seq<Node>, k: nat, name: string)
    requires Similar(x, y, name) && k <= |x|
    ensures Entries(x[..k], name) == Entries(y[..k], name)
  {
    if k > 0 {
      SameEntries(x, y, k - 1, name);
      EntriesStep(x, k - 1, name);
      EntriesStep(y, k - 1, name);
      SelectNamed(x[k - 1].children, name);
      SelectNamed(y[k - 1].children, name);
      hide Named, Select, Entries;
      assert Named(ChildrenAt(x, k - 1), name) == Named(ChildrenAt(y, k - 1), name);
    }
  }

  lemma {:induction false} SimilarEntries(x: seq<Node>, y: seq<Node>, name: string)
    requires Similar(x, y, name)
    ensures Entries(x, name) == Entries(y, name)
  {
    SameEntries(x, y, |x|, name);
    assert x[..|x|] == x;
    if |y| > |x| {
      EntriesStep(y, |x|, name);
      SelectNamed(y[|x|].children, name);
      assert Named(ChildrenAt(x, |x|), name) == [];
      assert y[..|x| + 1] == y && Entries(x, name) + [] == Entries(x, name);
    } else {
      assert y[..|x|] == y;
    }
  }

  /** What attaching does to the children of each block. */
  lemma {:induction false} ChildrenAfter(members: seq<Node>, m: Method, b: nat)
    ensures ChildrenAt(AttachTo(members, m), b) ==
      match Judge(Entries(members, m.body.name), m)
      case Add => if b == DefaultBlock(members) then ChildrenAt(members, b) + [m.body] else ChildrenAt(members, b)
      case Replace(_) =>
        if b < |members| && members[b].kind == MethodsBlock then ImplementEach(ChildrenAt(members, b), m)
          else ChildrenAt(members, b)
      case Refuse(_) => ChildrenAt(members, b)
  {
    hide Judge, Entries;
  }

  /** Two states that say the same about the method's name are treated alike. */
  lemma {:induction false} AttachSimilar(x: seq<Node>, y: seq<Node>, m: Method, b: nat)
    requires Similar(x, y, m.body.name)
    ensures Named(ChildrenAt(AttachTo(x, m), b), m.body.name) == Named(ChildrenAt(AttachTo(y, m), b), m.body.name)
  {
    var name := m.body.name;
    SimilarEntries(x, y, name);
    ChildrenAfter(x, m, b);
    ChildrenAfter(y, m, b);
    var cx, cy := ChildrenAt(x, b), ChildrenAt(y, b);
    assert Named(cx, name) == Named(cy, name);
    NamedAppend(cx, m.body, name);
    NamedAppend(cy, m.body, name);
    NamedImplemented(cx, m, name);
    NamedImplemented(cy, m, name);
    hide Judge, Entries, AttachTo;
    if b >= |x| {
      assert cx == [] && Named(cy, name) == [];
      assert ImplementEach([], m) == [];
    }
  }

  /** Members keep their place and header; only methods blocks change, and at most a default block is added. */
  ghost predicate Framed(x: seq<Node>, y: seq<Node>) {
    && |x| <= |y| <= |x| + 1 && DefaultBlock(x) == DefaultBlock(y)
    && (|y| > |x| ==>
          && DefaultBlock(x) == |x|
          && y[|x|].(children := [], span := NO_SPAN) == Node(MethodsBlock, "", NO_SIGNATURE, [], NO_SPAN, []))
    && forall b :: 0 <= b < |x| ==>
         && y[b].(children := []) == x[b].(children := [])
         && (x[b].kind != MethodsBlock ==> y[b] == x[b])
  }

  lemma {:induction false} DefaultBlockSame(x: seq<Node>, y: seq<Node>)
    requires |x| <= |y| && (forall b :: 0 <= b < |x| ==> IsDefaultBlock(x[b]) == IsDefaultBlock(y[b]))
    requires |y| > |x| ==> |y| == |x| + 1 && IsDefaultBlock(y[|x|])
    ensures |y| == |x| || DefaultBlock(x) == |x| ==> DefaultBlock(x) == DefaultBlock(y)
  {
    var i := DefaultBlock(x);
    if |y| == |x| || i == |x| { DefaultBlockIs(y, i); }
  }

  lemma {:induction false} FrameKept(members: seq<Node>, m: Method)
    ensures Framed(members, AttachTo(members, m))
    ensures |AttachTo(members, m)| > |members| <==>
      Judge(Entries(members, m.body.name), m) == Add && DefaultBlock(members) == |members|
  {
    hide Judge, Entries, DefaultBlock;
    var after := AttachTo(members, m);
    assert forall b :: 0 <= b < |members| ==>
      after[b].(children := []) == members[b].(children := [])
        && (members[b].kind != MethodsBlock ==> after[b] == members[b]);
    forall b | 0 <= b < |members| ensures IsDefaultBlock(after[b]) == IsDefaultBlock(members[b]) {
      assert after[b].(children := []).kind == members[b].(children := []).kind;
      assert after[b].(children := []).attributes == members[b].(children := []).attributes;
    }
    DefaultBlockSame(members, after);
  }

  lemma {:induction false} FramedTrans(x: seq<Node>, y: seq<Node>, z: seq<Node>)
    requires Framed(x, y) && Framed(y, z)
    ensures Framed(x, z)
  {
    forall b | 0 <= b < |x|
      ensures z[b].(children := []) == x[b].(children := []) && (x[b].kind != MethodsBlock ==> z[b] == x[b])
    {
      assert y[b].(children := []).kind == x[b].(children := []).kind;
      assert z[b].(children := []) == y[b].(children := []);
    }
    if |z| > |x| && |y| > |x| {
      assert z[|x|].(children := []) == y[|x|].(children := []);
    }
  }

  /** Two framed states that agree on a name are similar for it. */
  ghost predicate Agree(x: seq<Node>, y: seq<Node>, name: string) {
    forall b: nat :: Named(ChildrenAt(x, b), name) == Named(ChildrenAt(y, b), name)
  }

  lemma {:induction false} SimilarIff(x: seq<Node>, y: seq<Node>, name: string)
    requires Framed(x, y)
    ensures Similar(x, y, name) <==> Agree(x, y, name)
  {
    hide Named, DefaultBlock;
    forall b | 0 <= b < |x| ensures x[b].kind == y[b].kind { assert y[b].(children := []) == x[b].(children := []); }
  }

  // ----- one class after one method -----

  /** Attaching a method leaves everything said about other names as it was. */
  lemma {:induction false} OthersSimilar(members: seq<Node>, m: Method, name: string)
    requires name != m.body.name
    ensures Agree(members, AttachTo(members, m), name) && Similar(members, AttachTo(members, m), name)
  {
    var after := AttachTo(members, m);
    FrameKept(members, m);
    SimilarIff(members, after, name);
    hide Judge, Entries, AttachTo, Framed, Similar, DefaultBlock;
    forall b: nat ensures Named(ChildrenAt(members, b), name) == Named(ChildrenAt(after, b), name) {
      var children := ChildrenAt(members, b);
      ChildrenAfter(members, m, b);
      NamedAppend(children, m.body, name);
      NamedImplemented(children, m, name);
      NamedAre(children, name);
      hide Named;
      assert ImplementEach(Named(children, name), m) == Named(children, name);
      assert Named(children, name) + [] == Named(children, name);
    }
  }

  /**
   The entries for the method's own name afterwards: its one body, with the declaration's attributes if there was one.
   */
  lemma {:induction false} EntriesAfter(members: seq<Node>, m: Method, name: string)
    requires m.body.kind == FunctionDef
    ensures Entries(AttachTo(members, m), name) ==
      if name != m.body.name then Entries(members, name)
      else match Judge(Entries(members, name), m)
        case Add => [m.body]
        case Replace(declaration) => [m.body.(attributes := declaration.attributes)]
        case Refuse(_) => Entries(members, name)
  {
    if name != m.body.name {
      OthersSimilar(members, m, name);
      SimilarEntries(members, AttachTo(members, m), name);
    } else {
      match Judge(Entries(members, name), m)
      case Add =>
        EntriesAdded(members, m);
      case Replace(declaration) =>
        EntriesImplemented(members, m);
        assert Entries(members, name) == [declaration];
      case Refuse(_) =>
    }
  }

  lemma {:induction false} EmptyMembers(members: seq<Node>, name: string, b: nat)
    requires Entries(members, name) == [] && b < |members|
    ensures InMember(members[b], name) == []
  {
    if b < |members| - 1 { EmptyMembers(members[..|members| - 1], name, b); }
  }

  lemma {:induction false} OnceSoFar(before: seq<Node>, now: seq<Node>, once: seq<Node>, i: nat, k: nat)
    requires k > 0 && before == (if i < k - 1 then once else []) && now == if i == k - 1 then once else []
    ensures before + now == if i < k then once else []
  {
    NothingAdded(once);
  }

  lemma {:induction false} OneMember(members: seq<Node>, name: string, i: nat, body: Node, k: nat)
    requires k <= |members| && forall b :: 0 <= b < |members| ==>
      InMember(members[b], name) == if b == i then [body] else []
    ensures Entries(members[..k], name) == if i < k then [body] else []
  {
    if k > 0 {
      hide *;
      OneMember(members, name, i, body, k - 1);
      EntriesStep(members, k - 1, name);
      OnceSoFar(Entries(members[..k - 1], name), InMember(members[k - 1], name), [body], i, k);
    }
  }

  lemma {:induction false} BlockGains(children: seq<Node>, body: Node)
    requires body.kind == FunctionDef && Select(children, body.name) == []
    ensures Select(children + [body], body.name) == [body]
  {
    assert (children + [body])[..|children|] == children;
  }

  lemma {:induction false} BlockAdded(members: seq<Node>, m: Method)
    requires m.body.kind == FunctionDef
    requires forall b :: 0 <= b < |members| ==> InMember(members[b], m.body.name) == []
    ensures InMember(AddTo(members, m)[DefaultBlock(members)], m.body.name) == [m.body]
  {
    var i, after := DefaultBlock(members), AddTo(members, m);
    assert Select([], m.body.name) == [];
    hide Select, DefaultBlock;
    assert i < |members| ==> IsDefaultBlock(members[i]) && InMember(members[i], m.body.name) == [];
    BlockGains(ChildrenAt(members, i), m.body);
    assert after[i].children == ChildrenAt(members, i) + [m.body] && after[i].kind == MethodsBlock;
  }

  lemma {:induction false} EntriesAdded(members: seq<Node>, m: Method)
    requires m.body.kind == FunctionDef && Entries(members, m.body.name) == []
    ensures Entries(AddTo(members, m), m.body.name) == [m.body]
  {
    hide Select, Entries, DefaultBlock, InMember;
    var name, i, after := m.body.name, DefaultBlock(members), AddTo(members, m);
    forall b | 0 <= b < |members| ensures InMember(members[b], name) == [] { EmptyMembers(members, name, b); }
    BlockAdded(members, m);
    forall b | 0 <= b < |after| ensures InMember(after[b], name) == if b == i then [m.body] else [] {
      if b != i { assert after[b] == members[b]; }
    }
    OneMember(after, name, i, m.body, |after|);
    assert after[..|after|] == after;
  }

  lemma {:induction false} SelectImplemented(nodes: seq<Node>, m: Method)
    requires m.body.kind == FunctionDef
    ensures Select(ImplementEach(nodes, m), m.body.name) == ImplementEach(Select(nodes, m.body.name), m)
  {
    if nodes != [] {
      var init, last := nodes[..|nodes| - 1], nodes[|nodes| - 1];
      SelectImplemented(init, m);
      assert ImplementEach(nodes, m)[..|nodes| - 1] == ImplementEach(init, m);
      ImplementConcat(Select(init, m.body.name), if Concerns(last, m.body.name) then [last] else [], m);
    }
  }

  lemma {:induction false} EntriesImplemented(members: seq<Node>, m: Method)
    requires m.body.kind == FunctionDef
    ensures Entries(ImplementAll(members, m), m.body.name) == ImplementEach(Entries(members, m.body.name), m)
  {
    if members != [] {
      var init, last := members[..|members| - 1], members[|members| - 1];
      EntriesImplemented(init, m);
      assert ImplementAll(members, m)[..|members| - 1] == ImplementAll(init, m);
      if last.kind == MethodsBlock {
        assert ImplementIn(last, m).children == ImplementEach(last.children, m);
        SelectImplemented(last.children, m);
      }
      ImplementConcat(Entries(init, m.body.name), InMember(last, m.body.name), m);
    }
  }

  // ----- the whole graph -----

  function AttachAll(nodes: seq<Node>, ms: seq<Method>): (r: seq<Node>)
    ensures |r| == |nodes|
    decreases |ms|
  {
    if ms == [] then nodes else AttachAll(Attach(nodes, ms[0]), ms[1..])
  }

  function Complaints(nodes: seq<Node>, ms: seq<Method>): seq<Diagnostic>
    decreases |ms|
  {
    if ms == [] then [] else Complaint(VerdictOn(nodes, ms[0])) + Complaints(Attach(nodes, ms[0]), ms[1..])
  }

  predicate Bodies(ms: seq<Method>) { forall k :: 0 <= k < |ms| ==> ms[k].body.kind == FunctionDef }

  lemma {:induction false} UnfoldAll(nodes: seq<Node>, ms: seq<Method>, k: nat, diagnostics: seq<Diagnostic>)
    requires k < |ms|
    ensures AttachAll(nodes, ms[k..]) == AttachAll(Attach(nodes, ms[k]), ms[k + 1..])
    ensures diagnostics + Complaints(nodes, ms[k..]) ==
            diagnostics + Complaint(VerdictOn(nodes, ms[k])) + Complaints(Attach(nodes, ms[k]), ms[k + 1..])
  {
    assert ms[k..][0] == ms[k] && ms[k..][1..] == ms[k + 1..];
    var c, later := Complaint(VerdictOn(nodes, ms[k])), Complaints(Attach(nodes, ms[k]), ms[k + 1..]);
    assert Complaints(nodes, ms[k..]) == c + later;
    hide *;
    Regroup(diagnostics, c, later);
  }

  /** The loop of `CompiledModule::compile` over the pending method files. */
  method AttachPending(nodes: seq<Node>, ms: seq<Method>, diagnostics: seq<Diagnostic>)
    returns (nodes': seq<Node>, diagnostics': seq<Diagnostic>)
    requires Bodies(ms)
    ensures nodes' == AttachAll(nodes, ms) && diagnostics' == diagnostics + Complaints(nodes, ms)
  {
    nodes', diagnostics' := nodes, diagnostics;
    for k := 0 to |ms|
      invariant AttachAll(nodes', ms[k..]) == AttachAll(nodes, ms)
      invariant diagnostics' + Complaints(nodes', ms[k..]) == diagnostics + Complaints(nodes, ms)
    {
      UnfoldAll(nodes', ms, k, diagnostics');
      hide AttachAll, Complaints, Attach, Complaint, VerdictOn;
      nodes', diagnostics' := AttachClassMethod(nodes', ms[k], diagnostics');
    }
    assert ms[|ms|..] == [];
    assert diagnostics' + [] == diagnostics';
  }

  lemma {:induction false} FindClassSame(nodes: seq<Node>, m: Method, owner: string)
    ensures FindClass(Attach(nodes, m), owner) == FindClass(nodes, owner)
  {
    FindClassIs(Attach(nodes, m), owner, FindClass(nodes, owner));
  }

  /** Class i of the graph before and after. */
  ghost predicate NodeKept(x: Node, y: Node) {
    && y.(children := []) == x.(children := [])
    && (x.kind != ClassDef ==> y == x)
    && Framed(x.children, y.children)
  }

  lemma {:induction false} NodeStep(nodes: seq<Node>, m: Method, i: nat)
    requires i < |nodes|
    ensures NodeKept(nodes[i], Attach(nodes, m)[i])
    ensures Attach(nodes, m)[i].children ==
      if FindClass(nodes, m.owner) == i then AttachTo(nodes[i].children, m) else nodes[i].children
  {
    FrameKept(nodes[i].children, m);
    assert Framed(nodes[i].children, nodes[i].children);
    hide AttachTo, Framed;
    var k := FindClass(nodes, m.owner);
    assert i != k ==> Attach(nodes, m)[i] == nodes[i];
  }

  lemma {:induction false} NodesKept(nodes: seq<Node>, ms: seq<Method>, i: nat)
    requires i < |nodes|
    ensures NodeKept(nodes[i], AttachAll(nodes, ms)[i])
    decreases |ms|
  {
    if ms != [] {
      var next := Attach(nodes, ms[0]);
      NodeStep(nodes, ms[0], i);
      NodesKept(next, ms[1..], i);
      hide Framed, Attach, AttachTo;
      FramedTrans(nodes[i].children, next[i].children, AttachAll(next, ms[1..])[i].children);
      assert next[i].(children := []).kind == nodes[i].(children := []).kind;
    }
  }

  predicate Targets(nodes: seq<Node>, m: Method, i: nat, name: string) {
    FindClass(nodes, m.owner) == i && m.body.name == name
  }

  /** No two of the method files are for the same method of the same class. */
  predicate DistinctKeys(ms: seq<Method>) {
    forall i, j :: 0 <= i < j < |ms| ==> ms[i].owner != ms[j].owner || ms[i].body.name != ms[j].body.name
  }

  lemma {:induction false} Untouched(nodes: seq<Node>, ms: seq<Method>, i: nat, name: string)
    requires i < |nodes| && forall k :: 0 <= k < |ms| ==> !Targets(nodes, ms[k], i, name)
    ensures Agree(nodes[i].children, AttachAll(nodes, ms)[i].children, name)
    decreases |ms|
  {
    if ms != [] {
      var next := Attach(nodes, ms[0]);
      NodeStep(nodes, ms[0], i);
      if ms[0].body.name != name { OthersSimilar(nodes[i].children, ms[0], name); }
      forall k | 0 <= k < |ms[1..]| ensures !Targets(next, ms[1..][k], i, name) {
        FindClassSame(nodes, ms[0], ms[1..][k].owner);
        assert ms[1..][k] == ms[k + 1];
      }
      hide FindClass, Attach, AttachTo, Named, Framed;
      Untouched(next, ms[1..], i, name);
    }
  }

  /** After all methods, what class i says about a name is what attaching its own method alone would make of it. */
  lemma {:induction false} FinalByName(nodes: seq<Node>, ms: seq<Method>, i: nat, m: Method)
    requires i < |nodes| && DistinctKeys(ms) && m in ms && FindClass(nodes, m.owner) == i
    ensures Agree(AttachTo(nodes[i].children, m), AttachAll(nodes, ms)[i].children, m.body.name)
    ensures AttachAll(nodes, [m])[i].children == AttachTo(nodes[i].children, m)
    decreases |ms|
  {
    var name, first, rest := m.body.name, ms[0], ms[1..];
    var next := Attach(nodes, first);
    NodeStep(nodes, m, i);
    assert AttachAll(nodes, [m]) == AttachAll(Attach(nodes, m), []);
    NodeStep(nodes, first, i);
    forall k | 0 <= k < |rest|
      ensures FindClass(next, rest[k].owner) == FindClass(nodes, rest[k].owner) && rest[k] == ms[k + 1] {
      FindClassSame(nodes, first, rest[k].owner);
    }
    if first == m {
      forall k | 0 <= k < |rest| ensures !Targets(next, rest[k], i, name) { assert rest[k] == ms[k + 1]; }
      Untouched(next, rest, i, name);
    } else {
      assert m in rest;
      FindClassSame(nodes, first, m.owner);
      assert DistinctKeys(rest);
      FinalByName(next, rest, i, m);
      var k :| 0 <= k < |rest| && rest[k] == m;
      assert ms[k + 1] == m && !Targets(nodes, first, i, name);
      if first.body.name != name { OthersSimilar(nodes[i].children, first, name); }
      hide FindClass, Attach, AttachTo, Named;
      SimilarIff(nodes[i].children, next[i].children, name);
      forall b: nat ensures Named(ChildrenAt(AttachTo(nodes[i].children, m), b), name) ==
                            Named(ChildrenAt(AttachTo(next[i].children, m), b), name) {
        AttachSimilar(nodes[i].children, next[i].children, m, b);
      }
    }
  }
}
