/**
 What becomes of each method file, read off the class before and after and off
 the diagnostics: which state of the class leads to which of the six outcomes,
 whatever other files come with it.
 */
module MethodFileVerdicts {
  import opened SyntaxTrees
  import opened MethodFiles
  import opened MethodFileResults
  import opened MethodFileOrder

  // ----- the entries of a name -----

  /** Child j of member b is a declaration or a body called name, inside a methods block. */
  ghost predicate Says(members: seq<Node>, name: string, b: nat, j: nat) {
    && b < |members| && members[b].kind == MethodsBlock && j < |members[b].children|
    && members[b].children[j].name == name
    && (members[b].children[j].kind == MethodPrototype || members[b].children[j].kind == FunctionDef)
  }

  lemma {:induction false} SelectedStands(nodes: seq<Node>, name: string, x: Node) returns (j: nat)
    requires x in Select(nodes, name)
    ensures j < |nodes| && nodes[j] == x && Concerns(x, name)
    decreases |nodes|
  {
    var n := |nodes| - 1;
    if x in Select(nodes[..n], name) {
      j := SelectedStands(nodes[..n], name, x);
    } else {
      j := n;
    }
  }

  lemma {:induction false} EntryStands(members: seq<Node>, name: string, x: Node) returns (b: nat, j: nat)
    requires x in Entries(members, name)
    ensures Says(members, name, b, j) && members[b].children[j] == x
    decreases |members|
  {
    var n := |members| - 1;
    if x in Entries(members[..n], name) {
      b, j := EntryStands(members[..n], name, x);
    } else {
      b := n;
      j := SelectedStands(members[n].children, name, x);
    }
  }

  /** The entries of a name are the declarations and bodies of that name in the methods blocks, and nothing else. */
  lemma {:induction false} EntriesAre(members: seq<Node>, name: string, x: Node)
    ensures x in Entries(members, name) <==>
      exists b: nat, j: nat :: Says(members, name, b, j) && members[b].children[j] == x
  {
    hide Entries;
    if x in Entries(members, name) {
      var b, j := EntryStands(members, name, x);
    }
    if b: nat, j: nat :| Says(members, name, b, j) && members[b].children[j] == x {
      EntriesHold(members, name, b, j);
    }
  }

  // ----- the six outcomes -----

  ghost predicate SoleDeclaration(entries: seq<Node>) { |entries| == 1 && entries[0].kind == MethodPrototype }

  /** The first entry is a body, or the second one is. */
  ghost predicate HasBody(entries: seq<Node>) {
    || (|entries| >= 1 && entries[0].kind == FunctionDef)
    || (|entries| >= 2 && entries[1].kind == FunctionDef)
  }

  /** The first two entries are declarations. */
  ghost predicate DeclaredTwice(entries: seq<Node>) {
    |entries| >= 2 && entries[0].kind == MethodPrototype && entries[1].kind == MethodPrototype
  }

  ghost predicate Complains(complaints: seq<Diagnostic>, m: Method, reason: Reason, span: Span) {
    complaints == [Diagnostic(span, reason, m.owner, m.body.name)]
  }

  /** The entries before and after, and the complaints about the file: each outcome has its own state. */
  ghost predicate Outcome(before: seq<Node>, after: seq<Node>, m: Method, complaints: seq<Diagnostic>) {
    && (complaints == [] <==> before == [] || (SoleDeclaration(before) && SameInterface(before[0], m.body)))
    && (Complains(complaints, m, DuplicateImplementation, m.body.span) <==> HasBody(before))
    && (DeclaredTwice(before) <==> |before| >= 2 && Complains(complaints, m, DuplicateDeclaration, before[1].span))
    && (Complains(complaints, m, SignatureMismatch, m.body.span) <==>
          SoleDeclaration(before) && !SameInterface(before[0], m.body))
    && (before == [] ==> after == [m.body])
    && (SoleDeclaration(before) && SameInterface(before[0], m.body) ==>
          after == [m.body.(attributes := before[0].attributes)])
    && (complaints != [] ==> after == before)
  }

  /** The first class definition of that name, or the number of nodes. */
  ghost predicate IsFirstClass(nodes: seq<Node>, owner: string, i: nat) {
    && i <= |nodes| && (i < |nodes| ==> nodes[i].kind == ClassDef && nodes[i].name == owner)
    && forall k :: 0 <= k < i ==> nodes[k].kind != ClassDef || nodes[k].name != owner
  }

  /** The first methods block without attributes, or the number of members. */
  ghost predicate IsFirstPlainBlock(members: seq<Node>, b: nat) {
    && b <= |members| && (b < |members| ==> members[b].kind == MethodsBlock && members[b].attributes == [])
    && forall k :: 0 <= k < b ==> members[k].kind != MethodsBlock || members[k].attributes != []
  }

  /** A method without an entry goes to the end of that block, or into a new block behind all members. */
  lemma {:induction false} WhereAdded(nodes: seq<Node>, m: Method, b: nat)
    requires FindClass(nodes, m.owner) < |nodes|
    requires var members := nodes[FindClass(nodes, m.owner)].children;
      Entries(members, m.body.name) == [] && IsFirstPlainBlock(members, b)
    ensures var i := FindClass(nodes, m.owner);
      var members, after := nodes[i].children, AttachAll(nodes, [m])[i].children;
      after == if b < |members| then members[b := members[b].(children := members[b].children + [m.body])]
        else members + [Node(MethodsBlock, "", Signature([], [], false, false), [], m.body.span, [m.body])]
  {
    var i := FindClass(nodes, m.owner);
    assert AttachAll(nodes, [m]) == AttachAll(Attach(nodes, m), []);
    DefaultBlockIs(nodes[i].children, b);
  }

  lemma {:induction false} EntriesUntouched(nodes: seq<Node>, ms: seq<Method>, i: nat, name: string)
    requires i < |nodes| && forall k :: 0 <= k < |ms| ==> !Targets(nodes, ms[k], i, name)
    ensures Entries(AttachAll(nodes, ms)[i].children, name) == Entries(nodes[i].children, name)
  {
    hide AttachAll, Entries, Framed, Agree, Similar, FindClass;
    Untouched(nodes, ms, i, name);
    NodesKept(nodes, ms, i);
    SimilarIff(nodes[i].children, AttachAll(nodes, ms)[i].children, name);
    SimilarEntries(nodes[i].children, AttachAll(nodes, ms)[i].children, name);
  }

  /** The entries of a name after all files are those after its own file. */
  lemma {:induction false} EntriesInTheEnd(nodes: seq<Node>, ms: seq<Method>, i: nat, m: Method)
    requires i < |nodes| && Bodies(ms) && DistinctKeys(ms) && m in ms && FindClass(nodes, m.owner) == i
    ensures Entries(AttachAll(nodes, ms)[i].children, m.body.name) ==
            Entries(AttachTo(nodes[i].children, m), m.body.name)
    decreases |ms|
  {
    var name, first, rest := m.body.name, ms[0], ms[1..];
    var next := Attach(nodes, first);
    NodeStep(nodes, first, i);
    forall k | 0 <= k < |rest|
      ensures FindClass(next, rest[k].owner) == FindClass(nodes, rest[k].owner) && rest[k] == ms[k + 1] {
      FindClassSame(nodes, first, rest[k].owner);
    }
    hide AttachTo, Attach, Entries, FindClass;
    if first == m {
      EntriesUntouched(next, rest, i, name);
    } else {
      assert m in rest && Bodies(rest) && DistinctKeys(rest);
      FindClassSame(nodes, first, m.owner);
      EntriesInTheEnd(next, rest, i, m);
      var k :| 0 <= k < |rest| && rest[k] == m;
      assert ms[k + 1] == m && !Targets(nodes, first, i, name);
      EntriesAfter(next[i].children, m, name);
      EntriesAfter(nodes[i].children, m, name);
      EntriesAfter(nodes[i].children, first, name);
    }
  }

  lemma {:induction false} StepOutcome(before: seq<Node>, after: seq<Node>, m: Method)
    requires forall k :: 0 <= k < |before| ==> Concerns(before[k], m.body.name)
    requires after == match Judge(before, m)
      case Add => [m.body]
      case Replace(declaration) => [m.body.(attributes := declaration.attributes)]
      case Refuse(_) => before
    ensures Outcome(before, after, m, Complaint(Judge(before, m)))
  {
  }

  /**
   Whatever other files come with it, a file's outcome is decided by the entries that its class has for its name, or by
   there being no such class.
   */
  lemma {:induction false} WhatBecomesOf(nodes: seq<Node>, ms: seq<Method>, m: Method)
    requires Bodies(ms) && DistinctKeys(ms) && m in ms
    ensures IsFirstClass(nodes, m.owner, FindClass(nodes, m.owner))
    ensures var i := FindClass(nodes, m.owner);
      if i == |nodes| then Complains(Complaints(nodes, [m]), m, OwnerMissing, m.body.span)
      else Outcome(Entries(nodes[i].children, m.body.name), Entries(AttachAll(nodes, ms)[i].children, m.body.name), m,
             Complaints(nodes, [m]))
  {
    hide Judge, Entries, AttachAll, Attach, AttachTo, Complaints, DistinctKeys, Outcome;
    Alone(nodes, m);
    var i := FindClass(nodes, m.owner);
    if i < |nodes| {
      EntriesInTheEnd(nodes, ms, i, m);
      EntriesAfter(nodes[i].children, m, m.body.name);
      StepOutcome(Entries(nodes[i].children, m.body.name), Entries(AttachTo(nodes[i].children, m), m.body.name), m);
    }
  }
}
