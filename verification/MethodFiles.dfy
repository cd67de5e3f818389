/**
 Attaching separately written class methods to the class definitions of a
 merged source graph: `attachClassMethod` and the loop that applies it.
 */
module MethodFiles {
  import opened Wrappers
  import opened SyntaxTrees

  /** `PendingClassMethod`; the implementation is a function definition. */
  datatype Method = Method(owner: string, body: Node)

  datatype Reason = OwnerMissing | DuplicateImplementation | DuplicateDeclaration | SignatureMismatch

  datatype Diagnostic = Diagnostic(span: Span, reason: Reason, owner: string, name: string)

  // ----- what the tree says about one method name -----

  /** A declaration or an implementation of the named method. */
  predicate Concerns(node: Node, name: string) {
    node.name == name && (node.kind == FunctionDef || node.kind == MethodPrototype)
  }

  function Select(nodes: seq<Node>, name: string): (r: seq<Node>)
    ensures forall i :: 0 <= i < |r| ==> Concerns(r[i], name)
  {
    if nodes == [] then []
    else Select(nodes[..|nodes| - 1], name) + (if Concerns(nodes[|nodes| - 1], name) then [nodes[|nodes| - 1]] else [])
  }

  function InMember(member: Node, name: string): seq<Node> {
    if member.kind == MethodsBlock then Select(member.children, name) else []
  }

  /** All that the methods blocks of a class say about the name, in order. */
  function Entries(members: seq<Node>, name: string): (r: seq<Node>)
    ensures forall i :: 0 <= i < |r| ==> Concerns(r[i], name)
  {
    if members == [] then [] else Entries(members[..|members| - 1], name) + InMember(members[|members| - 1], name)
  }

  datatype Verdict = Add | Replace(declaration: Node) | Refuse(diagnostic: Diagnostic)

  /** What becomes of a method whose class has the given entries for its name. */
  function Judge(entries: seq<Node>, m: Method): Verdict {
    if entries == [] then Add
    else if entries[0].kind == FunctionDef || (|entries| > 1 && entries[1].kind == FunctionDef)
      then Refuse(Diagnostic(m.body.span, DuplicateImplementation, m.owner, m.body.name))
    else if |entries| > 1 then Refuse(Diagnostic(entries[1].span, DuplicateDeclaration, m.owner, m.body.name))
    else if entries[0].signature != m.body.signature
      then Refuse(Diagnostic(m.body.span, SignatureMismatch, m.owner, m.body.name))
    else Replace(entries[0])
  }

  // ----- the change to the tree -----

  /** The implementation takes over the attributes of the declaration it replaces. */
  function Implemented(node: Node, m: Method): Node {
    if node.kind == MethodPrototype && node.name == m.body.name then m.body.(attributes := node.attributes) else node
  }

  function ImplementIn(member: Node, m: Method): Node {
    if member.kind == MethodsBlock
    then
      var n := |member.children|;
      member.(children := seq(n, i requires 0 <= i < n => Implemented(member.children[i], m)))
    else member
  }

  function ImplementAll(members: seq<Node>, m: Method): seq<Node> {
    seq(|members|, i requires 0 <= i < |members| => ImplementIn(members[i], m))
  }

  predicate IsDefaultBlock(member: Node) { member.kind == MethodsBlock && member.attributes == [] }

  /** The first methods block without attributes, or the number of members. */
  function DefaultBlock(members: seq<Node>): (i: nat)
    ensures i <= |members|
    ensures i < |members| ==> IsDefaultBlock(members[i])
    ensures forall k :: 0 <= k < i ==> !IsDefaultBlock(members[k])
  {
    if members == [] || IsDefaultBlock(members[0]) then 0 else 1 + DefaultBlock(members[1..])
  }

  const NO_SIGNATURE := Signature([], [], false, false)

  const NO_SPAN := Span(0, 0, 0)

  function AddTo(members: seq<Node>, m: Method): seq<Node> {
    var i := DefaultBlock(members);
    if i < |members| then members[i := members[i].(children := members[i].children + [m.body])]
    else members + [Node(MethodsBlock, "", NO_SIGNATURE, [], m.body.span, [m.body])]
  }

  function AttachTo(members: seq<Node>, m: Method): seq<Node> {
    match Judge(Entries(members, m.body.name), m)
    case Add => AddTo(members, m)
    case Replace(_) => ImplementAll(members, m)
    case Refuse(_) => members
  }

  predicate IsClass(node: Node, owner: string) { node.kind == ClassDef && node.name == owner }

  /** `findClassDefinition`: the first class of that name, or the number of children. */
  function FindClass(nodes: seq<Node>, owner: string): (i: nat)
    ensures i <= |nodes|
    ensures i < |nodes| ==> IsClass(nodes[i], owner)
    ensures forall k :: 0 <= k < i ==> !IsClass(nodes[k], owner)
  {
    if nodes == [] || IsClass(nodes[0], owner) then 0 else 1 + FindClass(nodes[1..], owner)
  }

  function VerdictOn(nodes: seq<Node>, m: Method): Verdict {
    var i := FindClass(nodes, m.owner);
    if i < |nodes| then Judge(Entries(nodes[i].children, m.body.name), m)
    else Refuse(Diagnostic(m.body.span, OwnerMissing, m.owner, m.body.name))
  }

  function Attach(nodes: seq<Node>, m: Method): (r: seq<Node>)
    ensures |r| == |nodes|
  {
    var i := FindClass(nodes, m.owner);
    if i < |nodes| then nodes[i := nodes[i].(children := AttachTo(nodes[i].children, m))] else nodes
  }

  // ----- the method as the source runs it -----

  lemma {:induction false} SelectStep(nodes: seq<Node>, k: nat, name: string)
    requires k < |nodes|
    ensures Select(nodes[..k + 1], name) ==
      Select(nodes[..k], name) + (if Concerns(nodes[k], name) then [nodes[k]] else [])
  {
    assert nodes[..k + 1][..k] == nodes[..k];
  }

  lemma {:induction false} EntriesStep(members: seq<Node>, k: nat, name: string)
    requires k < |members|
    ensures Entries(members[..k + 1], name) == Entries(members[..k], name) + InMember(members[k], name)
  {
    assert members[..k + 1][..k] == members[..k];
  }

  lemma {:induction false} EntriesBegin(members: seq<Node>, b: nat, j: nat, name: string)
    requires b < |members| && members[b].kind == MethodsBlock && j <= |members[b].children|
    ensures Entries(members[..b], name) + Select(members[b].children[..j], name) <= Entries(members, name)
    decreases |members| - b, |members[b].children| - j
  {
    var children := members[b].children;
    var so := Entries(members[..b], name);
    if j < |children| {
      EntriesBegin(members, b, j + 1, name);
      SelectStep(children, j, name);
      assert so + Select(children[..j], name) <= so + Select(children[..j + 1], name);
    } else {
      assert children[..j] == children;
      EntriesStep(members, b, name);
      EntriesPrefix(members, b + 1, name);
    }
  }

  lemma {:induction false} EntriesPrefix(members: seq<Node>, b: nat, name: string)
    requires b <= |members|
    ensures Entries(members[..b], name) <= Entries(members, name)
    decreases |members| - b
  {
    if b < |members| {
      EntriesPrefix(members, b + 1, name);
      EntriesStep(members, b, name);
    } else {
      assert members[..b] == members;
    }
  }

  /** What stands in a block under the name is among the entries. */
  lemma {:induction false} SelectHolds(nodes: seq<Node>, name: string, j: nat)
    requires j < |nodes| && Concerns(nodes[j], name)
    ensures nodes[j] in Select(nodes, name)
    decreases |nodes|
  {
    if j < |nodes| - 1 { SelectHolds(nodes[..|nodes| - 1], name, j); }
  }

  lemma {:induction false} EntriesHold(members: seq<Node>, name: string, b: nat, j: nat)
    requires b < |members| && members[b].kind == MethodsBlock && j < |members[b].children|
    requires Concerns(members[b].children[j], name)
    ensures members[b].children[j] in Entries(members, name)
    decreases |members|
  {
    SelectHolds(members[b].children, name, j);
    if b < |members| - 1 { EntriesHold(members[..|members| - 1], name, b, j); }
  }

  datatype Place = Place(block: nat, index: nat)

  /** Everything up to position j of member b has been looked at. */
  predicate Before(b: nat, j: nat, p: Place) { p.block < b || (p.block == b && p.index < j) }

  predicate At(members: seq<Node>, name: string, p: Place) {
    p.block < |members| && members[p.block].kind == MethodsBlock && p.index < |members[p.block].children|
    && Concerns(members[p.block].children[p.index], name)
  }

  /** What has been seen of the name up to (b, j): nothing, or one declaration. */
  ghost predicate Seen(members: seq<Node>, name: string, seen: seq<Node>, place: Option<Place>, b: nat, j: nat) {
    match place
    case None => seen == [] && forall p :: At(members, name, p) ==> !Before(b, j, p)
    case Some(q) =>
      && At(members, name, q) && Before(b, j, q)
      && seen == [members[q.block].children[q.index]] && seen[0].kind == MethodPrototype
      && forall p :: At(members, name, p) && Before(b, j, p) ==> p == q
  }

  ghost function SeenUpTo(members: seq<Node>, b: nat, j: nat, name: string): seq<Node>
    requires b < |members| && j <= |members[b].children|
  {
    Entries(members[..b], name) + Select(members[b].children[..j], name)
  }

  lemma {:induction false} FirstTwo(seen: seq<Node>, c: Node, all: seq<Node>)
    requires seen + [c] <= all && |seen| <= 1
    ensures |all| > |seen| && all[|seen|] == c && (|seen| == 1 ==> all[0] == seen[0])
  {
    assert (seen + [c])[|seen|] == c;
  }

  /** One more child has been looked at. */
  lemma {:induction false} NextSeen(members: seq<Node>, name: string, seen: seq<Node>, place: Option<Place>, b: nat,
                                    j: nat)
    requires b < |members| && members[b].kind == MethodsBlock && j < |members[b].children|
      && Seen(members, name, seen, place, b, j)
    ensures var c := members[b].children[j];
      && (!Concerns(c, name) ==> Seen(members, name, seen, place, b, j + 1))
      && (Concerns(c, name) && c.kind == MethodPrototype && place == None ==>
           Seen(members, name, seen + [c], Some(Place(b, j)), b, j + 1))
  {
    assert forall p :: Before(b, j + 1, p) <==> Before(b, j, p) || p == Place(b, j);
  }

  /** What the next child means for the scan and for the verdict. */
  lemma {:induction false} BlockStep(members: seq<Node>, m: Method, place: Option<Place>, b: nat, j: nat)
    requires b < |members| && members[b].kind == MethodsBlock && j < |members[b].children|
    requires Seen(members, m.body.name, SeenUpTo(members, b, j, m.body.name), place, b, j)
    ensures var c, name := members[b].children[j], m.body.name;
      && (!Concerns(c, name) ==> Seen(members, name, SeenUpTo(members, b, j + 1, name), place, b, j + 1))
      && (Concerns(c, name) && c.kind == FunctionDef ==>
            Judge(Entries(members, name), m) == Refuse(Diagnostic(m.body.span, DuplicateImplementation, m.owner, name)))
      && (Concerns(c, name) && c.kind == MethodPrototype && place.Some? ==>
            Judge(Entries(members, name), m) == Refuse(Diagnostic(c.span, DuplicateDeclaration, m.owner, name)))
      && (Concerns(c, name) && c.kind == MethodPrototype && place == None ==>
            Seen(members, name, SeenUpTo(members, b, j + 1, name), Some(Place(b, j)), b, j + 1))
  {
    var c, name := members[b].children[j], m.body.name;
    var earlier, block := Entries(members[..b], name), Select(members[b].children[..j], name);
    var seen := earlier + block;
    assert SeenUpTo(members, b, j, name) == seen;
    SelectStep(members[b].children, j, name);
    EntriesBegin(members, b, j + 1, name);
    NextSeen(members, name, seen, place, b, j);
    if Concerns(c, name) {
      assert earlier + (block + [c]) == seen + [c];
      hide Select, Entries;
      FirstTwo(seen, c, Entries(members, name));
    } else {
      assert earlier + (block + []) == seen;
    }
  }

  /** The inner loop of `attachClassMethod`. */
  method ScanBlock(members: seq<Node>, b: nat, m: Method, before: Option<Place>)
    returns (refused: Option<Diagnostic>, place: Option<Place>)
    requires b < |members| && members[b].kind == MethodsBlock
    requires Seen(members, m.body.name, Entries(members[..b], m.body.name), before, b, 0)
    ensures refused.Some? ==> Judge(Entries(members, m.body.name), m) == Refuse(refused.value)
    ensures refused == None ==> Seen(members, m.body.name, Entries(members[..b + 1], m.body.name), place, b + 1, 0)
  {
    var children, name := members[b].children, m.body.name;
    refused, place := None, before;
    assert SeenUpTo(members, b, 0, name) == Entries(members[..b], name);
    for j := 0 to |children|
      invariant refused == None && Seen(members, name, SeenUpTo(members, b, j, name), place, b, j)
    {
      var candidate := children[j];
      BlockStep(members, m, place, b, j);
      hide Seen, SeenUpTo, Judge, Select, Entries;
      if candidate.name != name {
        continue;
      }
      if candidate.kind == FunctionDef {
        return Some(Diagnostic(m.body.span, DuplicateImplementation, m.owner, name)), place;
      }
      if candidate.kind == MethodPrototype {
        if place.Some? {
          return Some(Diagnostic(candidate.span, DuplicateDeclaration, m.owner, name)), place;
        }
        place := Some(Place(b, j));
      }
    }
    assert children[..|children|] == children;
    EntriesStep(members, b, name);
    EndOfBlock(members, name, Entries(members[..b + 1], name), place, b);
  }

  lemma {:induction false} EndOfBlock(members: seq<Node>, name: string, seen: seq<Node>, place: Option<Place>, b: nat)
    requires b < |members| && Seen(members, name, seen, place, b, |members[b].children|)
    ensures Seen(members, name, seen, place, b + 1, 0)
  {
    assert forall p :: At(members, name, p) ==> (Before(b + 1, 0, p) <==> Before(b, |members[b].children|, p));
  }

  /** The first default block among the members before b, or the number of members. */
  ghost predicate FirstDefault(members: seq<Node>, b: nat, block: nat)
    requires b <= |members|
  {
    && ((block < b && IsDefaultBlock(members[block])) || block == |members|)
    && forall k :: 0 <= k < b && k < block ==> !IsDefaultBlock(members[k])
  }

  lemma {:induction false} NextDefault(members: seq<Node>, b: nat, block: nat)
    requires b < |members| && FirstDefault(members, b, block)
    ensures FirstDefault(members, b + 1, if IsDefaultBlock(members[b]) && block == |members| then b else block)
    ensures IsDefaultBlock(members[b]) <==> members[b].kind == MethodsBlock && members[b].attributes == []
  {
  }

  /** The scan of the class: its first problem, or where the declaration and the default block are. */
  method ScanClass(members: seq<Node>, m: Method)
    returns (refused: Option<Diagnostic>, place: Option<Place>, block: nat)
    ensures refused.Some? ==> Judge(Entries(members, m.body.name), m) == Refuse(refused.value)
    ensures refused == None ==>
      Seen(members, m.body.name, Entries(members, m.body.name), place, |members|, 0) && block == DefaultBlock(members)
  {
    refused, place, block := None, None, |members|;
    assert Seen(members, m.body.name, Entries(members[..0], m.body.name), None, 0, 0);
    assert FirstDefault(members, 0, block);
    hide *;
    for b := 0 to |members|
      invariant refused == None && Seen(members, m.body.name, Entries(members[..b], m.body.name), place, b, 0)
      invariant FirstDefault(members, b, block)
    {
      NextDefault(members, b, block);
      if members[b].kind != MethodsBlock {
        SkipMember(members, m.body.name, place, b);
        continue;
      }
      if members[b].attributes == [] && block == |members| {
        block := b;
      }
      refused, place := ScanBlock(members, b, m, place);
      if refused.Some? {
        return;
      }
    }
    assert members[..|members|] == members;
    LastDefault(members, block);
  }

  lemma {:induction false} LastDefault(members: seq<Node>, block: nat)
    requires FirstDefault(members, |members|, block)
    ensures block == DefaultBlock(members)
  {
    DefaultBlockIs(members, block);
  }

  lemma {:induction false} SkipMember(members: seq<Node>, name: string, place: Option<Place>, b: nat)
    requires b < |members| && members[b].kind != MethodsBlock
      && Seen(members, name, Entries(members[..b], name), place, b, 0)
    ensures Seen(members, name, Entries(members[..b + 1], name), place, b + 1, 0)
  {
    EntriesStep(members, b, name);
    assert forall p :: At(members, name, p) ==> (Before(b + 1, 0, p) <==> Before(b, 0, p));
    assert Entries(members[..b], name) + [] == Entries(members[..b], name);
  }

  lemma {:induction false} DefaultBlockIs(members: seq<Node>, i: nat)
    requires i <= |members| && (i < |members| ==> IsDefaultBlock(members[i]))
    requires forall k :: 0 <= k < i ==> !IsDefaultBlock(members[k])
    ensures DefaultBlock(members) == i
  {
  }

  lemma {:induction false} FindClassIs(nodes: seq<Node>, owner: string, i: nat)
    requires i <= |nodes| && (i < |nodes| ==> IsClass(nodes[i], owner))
    requires forall k :: 0 <= k < i ==> !IsClass(nodes[k], owner)
    ensures FindClass(nodes, owner) == i
  {
  }

  /** Writing over the one declaration is the same as implementing the name throughout. */
  lemma {:induction false} OverwriteIs(members: seq<Node>, m: Method, seen: seq<Node>, q: Place)
    requires m.body.kind == FunctionDef && Seen(members, m.body.name, seen, Some(q), |members|, 0)
    ensures At(members, m.body.name, q)
    ensures var block := members[q.block];
      members[q.block := block.(children :=
        block.children[q.index := m.body.(attributes := block.children[q.index].attributes)])]
      == ImplementAll(members, m)
  {
    var block := members[q.block];
    var written := block.(children :=
      block.children[q.index := m.body.(attributes := block.children[q.index].attributes)]);
    forall b | 0 <= b < |members| ensures ImplementIn(members[b], m) == if b == q.block then written else members[b] {
      if members[b].kind == MethodsBlock {
        var children := members[b].children;
        forall j | 0 <= j < |children| && Place(b, j) != q ensures Implemented(children[j], m) == children[j] {
          assert Concerns(children[j], m.body.name) <==> At(members, m.body.name, Place(b, j));
        }
        if b != q.block { assert ImplementIn(members[b], m).children == children; }
      }
    }
  }

  /** `attachClassMethod` */
  method AttachClassMethod(nodes: seq<Node>, m: Method, diagnostics: seq<Diagnostic>)
    returns (nodes': seq<Node>, diagnostics': seq<Diagnostic>)
    requires m.body.kind == FunctionDef
    ensures nodes' == Attach(nodes, m)
    ensures diagnostics' == diagnostics + Complaint(VerdictOn(nodes, m))
  {
    var i := 0;
    while i < |nodes| && !IsClass(nodes[i], m.owner)
      invariant i <= |nodes| && forall k :: 0 <= k < i ==> !IsClass(nodes[k], m.owner)
    {
      i := i + 1;
    }
    FindClassIs(nodes, m.owner, i);
    if i == |nodes| {
      return nodes, diagnostics + [Diagnostic(m.body.span, OwnerMissing, m.owner, m.body.name)];
    }
    var members := nodes[i].children;
    var refused, place, block := ScanClass(members, m);
    if refused.Some? {
      assert nodes[i := nodes[i].(children := members)] == nodes;
      return nodes, diagnostics + [refused.value];
    }
    assert diagnostics + [] == diagnostics;
    match place {
      case Some(q) =>
        OverwriteIs(members, m, Entries(members, m.body.name), q);
        var declaration := members[q.block].children[q.index];
        if declaration.signature != m.body.signature {
          assert nodes[i := nodes[i].(children := members)] == nodes;
          return nodes, diagnostics + [Diagnostic(m.body.span, SignatureMismatch, m.owner, m.body.name)];
        }
        var body := m.body.(attributes := declaration.attributes);
        var written := members[q.block].(children := members[q.block].children[q.index := body]);
        return nodes[i := nodes[i].(children := members[q.block := written])], diagnostics;
      case None =>
        if block == |members| {
          members := members + [Node(MethodsBlock, "", NO_SIGNATURE, [], m.body.span, [m.body])];
        } else {
          members := members[block := members[block].(children := members[block].children + [m.body])];
        }
        return nodes[i := nodes[i].(children := members)], diagnostics;
    }
  }

  function Complaint(v: Verdict): seq<Diagnostic> { if v.Refuse? then [v.diagnostic] else [] }
}
