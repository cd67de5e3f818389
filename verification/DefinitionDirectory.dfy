/**
 The directory of function definitions that compilation builds from its syntax
 trees: `collectDefinitions`.
 */
module DefinitionDirectory {
  import opened Wrappers
  import opened Collections
  import opened SyntaxTrees

  datatype DefinitionKind = PrimaryFunction | LocalFunction | NestedFunction | Method

  datatype Definition = Definition(name: string, className: string, kind: DefinitionKind, parent: Option<nat>,
                                   span: Span, declarationOnly: bool)

  /** `CompiledSourceInfo`: the name of the primary function of a function file. */
  datatype Source = FunctionFile(primaryFunction: string) | OtherSource

  predicate IsDefinition(node: Node) { node.kind == FunctionDef || node.kind == MethodPrototype }

  function KindFor(node: Node, sources: seq<Source>, className: string, parent: Option<nat>): DefinitionKind {
    if parent.Some? then NestedFunction
    else if className != "" then Method
    else if node.span.sourceId < |sources| && sources[node.span.sourceId] == FunctionFile(node.name)
      then PrimaryFunction
    else LocalFunction
  }

  function ClassFor(node: Node, className: string): string { if node.kind == ClassDef then node.name else className }

  function DefinitionFor(node: Node, sources: seq<Source>, className: string, parent: Option<nat>): Definition {
    Definition(node.name, className, KindFor(node, sources, className, parent), parent, node.span,
      node.kind == MethodPrototype)
  }

  /** The definitions in a tree, the first of which will have the given index. */
  function Collected(node: Node, sources: seq<Source>, className: string, parent: Option<nat>,
                     index: nat): seq<Definition>
    decreases node, 1
  {
    var name := ClassFor(node, className);
    if IsDefinition(node) then
      [DefinitionFor(node, sources, name, parent)] + CollectedAll(node.children, sources, name, Some(index), index + 1)
    else CollectedAll(node.children, sources, name, parent, index)
  }

  function CollectedAll(nodes: seq<Node>, sources: seq<Source>, className: string, parent: Option<nat>,
                        index: nat): seq<Definition>
    decreases nodes, 0
  {
    if nodes == [] then []
    else
      var first := Collected(nodes[0], sources, className, parent, index);
      first + CollectedAll(nodes[1..], sources, className, parent, index + |first|)
  }

  lemma {:induction false} NextChild(nodes: seq<Node>, k: nat, sources: seq<Source>, className: string,
                                     parent: Option<nat>, before: seq<Definition>)
    requires k < |nodes|
    ensures var after := before + Collected(nodes[k], sources, className, parent, |before|);
      before + CollectedAll(nodes[k..], sources, className, parent, |before|) ==
        after + CollectedAll(nodes[k + 1..], sources, className, parent, |after|)
  {
    assert nodes[k..][0] == nodes[k] && nodes[k..][1..] == nodes[k + 1..];
    var first := Collected(nodes[k], sources, className, parent, |before|);
    Regroup(before, first, CollectedAll(nodes[k + 1..], sources, className, parent, |before| + |first|));
    hide Collected;
  }

  /** `collectDefinitions`, appending to the directory. */
  method CollectDefinitions(node: Node, sources: seq<Source>, definitions: seq<Definition>, className: string,
                            parent: Option<nat>)
    returns (result: seq<Definition>)
    ensures result == definitions + Collected(node, sources, className, parent, |definitions|)
    decreases node, 1
  {
    var name := className;
    if node.kind == ClassDef {
      name := node.name;
    }
    var enclosing := parent;
    result := definitions;
    if IsDefinition(node) {
      var kind := LocalFunction;
      if parent.Some? {
        kind := NestedFunction;
      } else if name != "" {
        kind := Method;
      } else if node.span.sourceId < |sources| && sources[node.span.sourceId].FunctionFile?
                && sources[node.span.sourceId].primaryFunction == node.name {
        kind := PrimaryFunction;
      }
      enclosing := Some(|result|);
      result := result + [Definition(node.name, name, kind, parent, node.span, node.kind == MethodPrototype)];
    }
    ghost var start := result;
    assert definitions + [] == definitions;
    for k := 0 to |node.children|
      invariant result + CollectedAll(node.children[k..], sources, name, enclosing, |result|) ==
                start + CollectedAll(node.children, sources, name, enclosing, |start|)
    {
      NextChild(node.children, k, sources, name, enclosing, result);
      hide *;
      result := CollectDefinitions(node.children[k], sources, result, name, enclosing);
    }
    assert result + [] == result;
    if IsDefinition(node) {
      Regroup(definitions, [DefinitionFor(node, sources, name, parent)],
        CollectedAll(node.children, sources, name, enclosing, |start|));
    }
  }

  // ----- preorder -----

  /** The definition nodes of a tree, each before what it encloses. */
  function Preorder(node: Node): seq<Node>
    decreases node, 1
  {
    (if IsDefinition(node) then [node] else []) + PreorderAll(node.children)
  }

  function PreorderAll(nodes: seq<Node>): seq<Node>
    decreases nodes, 0
  {
    if nodes == [] then [] else Preorder(nodes[0]) + PreorderAll(nodes[1..])
  }

  /** The node to which a path of child numbers leads. */
  function NodeAt(node: Node, path: seq<nat>): Option<Node>
    decreases path
  {
    if path == [] then Some(node)
    else if path[0] < |node.children| then NodeAt(node.children[path[0]], path[1..]) else None
  }

  /** x is somewhere in the tree, and a function or a prototype. */
  ghost predicate Defines(node: Node, path: seq<nat>, x: Node) {
    NodeAt(node, path) == Some(x) && (x.kind == FunctionDef || x.kind == MethodPrototype)
  }

  lemma {:induction false} ListedStands(node: Node, x: Node) returns (path: seq<nat>)
    requires x in Preorder(node)
    ensures Defines(node, path, x)
    decreases node, 1
  {
    if IsDefinition(node) && x == node {
      path := [];
    } else {
      var k, rest := ListedBelow(node.children, x);
      path := [k] + rest;
      assert path[1..] == rest;
    }
  }

  lemma {:induction false} ListedBelow(nodes: seq<Node>, x: Node) returns (k: nat, path: seq<nat>)
    requires x in PreorderAll(nodes)
    ensures k < |nodes| && Defines(nodes[k], path, x)
    decreases nodes, 0
  {
    if x in Preorder(nodes[0]) {
      k := 0;
      path := ListedStands(nodes[0], x);
    } else {
      k, path := ListedBelow(nodes[1..], x);
      k := k + 1;
    }
  }

  lemma {:induction false} StandsListed(node: Node, path: seq<nat>, x: Node)
    requires Defines(node, path, x)
    ensures x in Preorder(node)
    decreases path
  {
    if path != [] {
      StandsListed(node.children[path[0]], path[1..], x);
      ChildListed(node.children, path[0], x);
    }
  }

  lemma {:induction false} ChildListed(nodes: seq<Node>, k: nat, x: Node)
    requires k < |nodes| && x in Preorder(nodes[k])
    ensures x in PreorderAll(nodes)
  {
    if k > 0 { ChildListed(nodes[1..], k - 1, x); }
  }

  /** Every function and every prototype anywhere in the tree is listed, and nothing else. */
  lemma {:induction false} PreorderListsAll(node: Node, x: Node)
    ensures x in Preorder(node) <==> exists path :: Defines(node, path, x)
  {
    hide Preorder, Defines;
    if x in Preorder(node) {
      var path := ListedStands(node, x);
    }
    if path :| Defines(node, path, x) { StandsListed(node, path, x); }
  }

  /** How many definitions a tree holds. */
  function Size(node: Node): nat { |Preorder(node)| }

  predicate Records(d: Definition, node: Node) {
    d.name == node.name && d.span == node.span && (d.declarationOnly <==> node.kind == MethodPrototype)
  }

  predicate RecordsAll(ds: seq<Definition>, nodes: seq<Node>) {
    |ds| == |nodes| && forall i :: 0 <= i < |ds| ==> Records(ds[i], nodes[i])
  }

  lemma {:induction false} RecordsConcat(a: seq<Definition>, x: seq<Node>, b: seq<Definition>, y: seq<Node>)
    requires RecordsAll(a, x) && RecordsAll(b, y)
    ensures RecordsAll(a + b, x + y)
  {
  }

  /** The directory lists exactly the function and prototype nodes, in preorder. */
  lemma {:induction false} CollectedInPreorder(node: Node, sources: seq<Source>, className: string, parent: Option<nat>,
                                               index: nat)
    ensures RecordsAll(Collected(node, sources, className, parent, index), Preorder(node))
    decreases node, 1
  {
    var name := ClassFor(node, className);
    var enclosing := if IsDefinition(node) then Some(index) else parent;
    var next := if IsDefinition(node) then index + 1 else index;
    CollectedAllInPreorder(node.children, sources, name, enclosing, next);
    var inner := CollectedAll(node.children, sources, name, enclosing, next);
    if IsDefinition(node) {
      RecordsConcat([DefinitionFor(node, sources, name, parent)], [node], inner, PreorderAll(node.children));
    } else {
      assert [] + PreorderAll(node.children) == PreorderAll(node.children);
    }
  }

  lemma {:induction false} CollectedAllInPreorder(nodes: seq<Node>, sources: seq<Source>, className: string,
                                                  parent: Option<nat>, index: nat)
    ensures RecordsAll(CollectedAll(nodes, sources, className, parent, index), PreorderAll(nodes))
    decreases nodes, 0
  {
    if nodes != [] {
      var first := Collected(nodes[0], sources, className, parent, index);
      CollectedInPreorder(nodes[0], sources, className, parent, index);
      CollectedAllInPreorder(nodes[1..], sources, className, parent, index + |first|);
      RecordsConcat(first, Preorder(nodes[0]), CollectedAll(nodes[1..], sources, className, parent, index + |first|),
        PreorderAll(nodes[1..]));
    }
  }

  // ----- parents -----

  /** In a preorder list starting at index `base`, definition p encloses definition i: i lies within p's subtree. */
  predicate Encloses(nodes: seq<Node>, base: nat, p: int, i: int) {
    base <= p < i && p - base < |nodes| && i < p + Size(nodes[p - base])
  }

  /** Definition i's parent is the last definition that encloses it, and `outer` if none of these does. */
  ghost predicate NearestParent(nodes: seq<Node>, base: nat, outer: Option<nat>, i: int, parent: Option<nat>) {
    if exists p :: Encloses(nodes, base, p, i) then
      parent.Some? && Encloses(nodes, base, parent.value, i) && forall p :: Encloses(nodes, base, p, i) ==>
        p <= parent.value
    else parent == outer
  }

  ghost predicate ParentsNearest(nodes: seq<Node>, base: nat, outer: Option<nat>, ds: seq<Definition>) {
    |ds| == |nodes| && forall k :: 0 <= k < |ds| ==> NearestParent(nodes, base, outer, base + k, ds[k].parent)
  }

  /** A subtree's definitions do not reach past the list that the subtree is in. */
  predicate SizesFit(nodes: seq<Node>) {
    forall k :: 0 <= k < |nodes| ==> k + Size(nodes[k]) <= |nodes|
  }

  lemma {:induction false} SizesFitConcat(a: seq<Node>, b: seq<Node>)
    requires SizesFit(a) && SizesFit(b)
    ensures SizesFit(a + b)
  {
    hide Preorder;
    forall k | 0 <= k < |a + b| ensures k + Size((a + b)[k]) <= |a + b| {
      if k < |a| { assert (a + b)[k] == a[k]; } else { assert (a + b)[k] == b[k - |a|]; }
    }
  }

  lemma {:induction false} PreorderFits(node: Node)
    ensures SizesFit(Preorder(node))
    decreases node, 1
  {
    PreorderAllFits(node.children);
    var inner, list := PreorderAll(node.children), Preorder(node);
    assert list == (if IsDefinition(node) then [node] else []) + inner;
    hide Preorder;
    if IsDefinition(node) {
      forall k | 0 <= k < |list| ensures k + Size(list[k]) <= |list| {
        if k > 0 { assert list[k] == inner[k - 1]; }
      }
    } else {
      assert list == inner;
    }
  }

  lemma {:induction false} PreorderAllFits(nodes: seq<Node>)
    ensures SizesFit(PreorderAll(nodes))
    decreases nodes, 0
  {
    if nodes != [] {
      PreorderFits(nodes[0]);
      PreorderAllFits(nodes[1..]);
      SizesFitConcat(Preorder(nodes[0]), PreorderAll(nodes[1..]));
    }
  }

  lemma {:induction false} SameEnclosers(nodes: seq<Node>, base: nat, part: seq<Node>, from: nat, outer: Option<nat>,
                                         i: int, parent: Option<nat>)
    requires NearestParent(part, from, outer, i, parent)
    requires forall p :: Encloses(nodes, base, p, i) <==> Encloses(part, from, p, i)
    ensures NearestParent(nodes, base, outer, i, parent)
  {
    hide Encloses;
    if p :| Encloses(nodes, base, p, i) { assert Encloses(part, from, p, i); }
  }

  /** Side by side: no definition of one list encloses one of the other. */
  lemma {:induction false} NearestConcat(a: seq<Node>, x: seq<Definition>, b: seq<Node>, y: seq<Definition>, base: nat,
                                         outer: Option<nat>)
    requires SizesFit(a) && ParentsNearest(a, base, outer, x) && ParentsNearest(b, base + |a|, outer, y)
    ensures ParentsNearest(a + b, base, outer, x + y)
  {
    hide Preorder;
    var nodes, ds := a + b, x + y;
    forall k | 0 <= k < |ds| ensures NearestParent(nodes, base, outer, base + k, ds[k].parent) {
      var i := base + k;
      if k < |x| {
        assert ds[k] == x[k] && NearestParent(a, base, outer, i, x[k].parent);
        forall p ensures Encloses(nodes, base, p, i) <==> Encloses(a, base, p, i) {
          assert base <= p < i ==> nodes[p - base] == a[p - base];
        }
        SameEnclosers(nodes, base, a, base, outer, i, x[k].parent);
      } else {
        assert ds[k] == y[k - |x|] && i == (base + |a|) + (k - |x|);
        assert NearestParent(b, base + |a|, outer, (base + |a|) + (k - |x|), y[k - |x|].parent);
        forall p ensures Encloses(nodes, base, p, i) <==> Encloses(b, base + |a|, p, i) {
          if base <= p < base + |a| {
            assert nodes[p - base] == a[p - base];
          } else if base + |a| <= p < i {
            assert nodes[p - base] == b[p - (base + |a|)];
          }
        }
        SameEnclosers(nodes, base, b, base + |a|, outer, i, y[k - |x|].parent);
      }
    }
  }

  /** Under a new definition: it encloses all that follows in its tree. */
  lemma {:induction false} NearestUnder(node: Node, d: Definition, inner: seq<Node>, x: seq<Definition>, base: nat,
                                        outer: Option<nat>)
    requires Preorder(node) == [node] + inner && d.parent == outer && ParentsNearest(inner, base + 1, Some(base), x)
    ensures ParentsNearest([node] + inner, base, outer, [d] + x)
  {
    var nodes, ds := [node] + inner, [d] + x;
    assert Size(node) == |nodes|;
    hide Preorder;
    forall k | 0 <= k < |ds| ensures NearestParent(nodes, base, outer, base + k, ds[k].parent) {
      var i := base + k;
      if k > 0 {
        assert NearestParent(inner, base + 1, Some(base), (base + 1) + (k - 1), x[k - 1].parent);
        assert Encloses(nodes, base, base, i);
        forall p ensures Encloses(nodes, base, p, i) <==> p == base || Encloses(inner, base + 1, p, i) {
          if base < p < i { assert nodes[p - base] == inner[p - (base + 1)]; }
        }
      }
    }
  }

  /** Every definition's parent is its nearest enclosing definition. */
  lemma {:induction false} ParentIsNearest(node: Node, sources: seq<Source>, className: string, parent: Option<nat>,
                                           index: nat)
    ensures ParentsNearest(Preorder(node), index, parent, Collected(node, sources, className, parent, index))
    decreases node, 1
  {
    var name := ClassFor(node, className);
    var inner := PreorderAll(node.children);
    if IsDefinition(node) {
      ParentsAreNearest(node.children, sources, name, Some(index), index + 1);
      var d, x := DefinitionFor(node, sources, name, parent),
        CollectedAll(node.children, sources, name, Some(index), index + 1);
      assert Preorder(node) == [node] + inner && Collected(node, sources, className, parent, index) == [d] + x;
      hide Preorder, PreorderAll, Collected, CollectedAll, ParentsNearest;
      NearestUnder(node, d, inner, x, index, parent);
    } else {
      ParentsAreNearest(node.children, sources, name, parent, index);
      assert Preorder(node) == inner;
    }
  }

  lemma {:induction false} ParentsAreNearest(nodes: seq<Node>, sources: seq<Source>, className: string,
                                             parent: Option<nat>, index: nat)
    ensures ParentsNearest(PreorderAll(nodes), index, parent, CollectedAll(nodes, sources, className, parent, index))
    decreases nodes, 0
  {
    if nodes != [] {
      var a, x := Preorder(nodes[0]), Collected(nodes[0], sources, className, parent, index);
      ParentIsNearest(nodes[0], sources, className, parent, index);
      ParentsAreNearest(nodes[1..], sources, className, parent, index + |x|);
      PreorderFits(nodes[0]);
      var b, y := PreorderAll(nodes[1..]), CollectedAll(nodes[1..], sources, className, parent, index + |x|);
      assert PreorderAll(nodes) == a + b && CollectedAll(nodes, sources, className, parent, index) == x + y;
      assert |a| == |x|;
      hide Preorder, PreorderAll, Collected, CollectedAll, ParentsNearest, SizesFit;
      NearestConcat(a, x, b, y, index, parent);
    }
  }

  // ----- class names -----

  /** The way to each definition of a tree, from the top: the nodes above it and the definition itself. */
  function Paths(node: Node, above: seq<Node>): seq<seq<Node>>
    decreases node, 1
  {
    (if IsDefinition(node) then [above + [node]] else []) + PathsAll(node.children, above + [node])
  }

  function PathsAll(nodes: seq<Node>, above: seq<Node>): seq<seq<Node>>
    decreases nodes, 0
  {
    if nodes == [] then [] else Paths(nodes[0], above) + PathsAll(nodes[1..], above)
  }

  predicate LeadTo(paths: seq<seq<Node>>, nodes: seq<Node>) {
    |paths| == |nodes| && forall k :: 0 <= k < |paths| ==> paths[k] != [] && paths[k][|paths[k]| - 1] == nodes[k]
  }

  /** The paths lead to the definitions in preorder. */
  lemma {:induction false} PathsLead(node: Node, above: seq<Node>)
    ensures LeadTo(Paths(node, above), Preorder(node))
    decreases node, 1
  {
    PathsAllLead(node.children, above + [node]);
  }

  lemma {:induction false} PathsAllLead(nodes: seq<Node>, above: seq<Node>)
    ensures LeadTo(PathsAll(nodes, above), PreorderAll(nodes))
    decreases nodes, 0
  {
    if nodes != [] {
      PathsLead(nodes[0], above);
      PathsAllLead(nodes[1..], above);
    }
  }

  /** The innermost class definition on a path, and `outer` if there is none. */
  function NearestClass(path: seq<Node>, outer: string): string {
    if path == [] then outer
    else if path[|path| - 1].kind == ClassDef then path[|path| - 1].name
    else NearestClass(path[..|path| - 1], outer)
  }

  lemma {:induction false} NearestClassStep(above: seq<Node>, node: Node, outer: string)
    ensures NearestClass(above + [node], outer) == ClassFor(node, NearestClass(above, outer))
  {
    assert (above + [node])[..|above|] == above;
  }

  predicate ClassesNearest(ds: seq<Definition>, paths: seq<seq<Node>>, outer: string) {
    |ds| == |paths| && forall k :: 0 <= k < |ds| ==> ds[k].className == NearestClass(paths[k], outer)
  }

  lemma {:induction false} ClassesConcat(a: seq<Definition>, x: seq<seq<Node>>, b: seq<Definition>, y: seq<seq<Node>>,
                                         outer: string)
    requires ClassesNearest(a, x, outer) && ClassesNearest(b, y, outer)
    ensures ClassesNearest(a + b, x + y, outer)
  {
  }

  /** Every definition carries the name of the innermost class definition around it, however deep it lies. */
  lemma {:induction false} ClassNameReaches(node: Node, above: seq<Node>, outer: string, sources: seq<Source>,
                                            parent: Option<nat>, index: nat)
    ensures ClassesNearest(Collected(node, sources, NearestClass(above, outer), parent, index), Paths(node, above),
      outer)
    decreases node, 1
  {
    NearestClassStep(above, node, outer);
    var name := NearestClass(above + [node], outer);
    var enclosing := if IsDefinition(node) then Some(index) else parent;
    var next := if IsDefinition(node) then index + 1 else index;
    ClassNamesReach(node.children, above + [node], outer, sources, enclosing, next);
    var inner := CollectedAll(node.children, sources, name, enclosing, next);
    if IsDefinition(node) {
      var d := DefinitionFor(node, sources, name, parent);
      ClassesConcat([d], [above + [node]], inner, PathsAll(node.children, above + [node]), outer);
    } else {
      assert [] + PathsAll(node.children, above + [node]) == PathsAll(node.children, above + [node]);
    }
  }

  lemma {:induction false} ClassNamesReach(nodes: seq<Node>, above: seq<Node>, outer: string, sources: seq<Source>,
                                           parent: Option<nat>, index: nat)
    ensures ClassesNearest(CollectedAll(nodes, sources, NearestClass(above, outer), parent, index),
      PathsAll(nodes, above), outer)
    decreases nodes, 0
  {
    if nodes != [] {
      var name := NearestClass(above, outer);
      var first := Collected(nodes[0], sources, name, parent, index);
      var rest := CollectedAll(nodes[1..], sources, name, parent, index + |first|);
      ClassNameReaches(nodes[0], above, outer, sources, parent, index);
      ClassNamesReach(nodes[1..], above, outer, sources, parent, index + |first|);
      ClassesConcat(first, Paths(nodes[0], above), rest, PathsAll(nodes[1..], above), outer);
    }
  }

  // ----- the directory as a whole -----

  /** The definition's own source is a function file whose primary function has that name. */
  predicate OfFunctionFile(d: Definition, sources: seq<Source>) {
    d.span.sourceId < |sources| && sources[d.span.sourceId] == FunctionFile(d.name)
  }

  predicate KindFits(d: Definition, sources: seq<Source>) {
    && (d.kind == NestedFunction <==> d.parent.Some?)
    && (d.kind == Method <==> d.parent == None && d.className != "")
    && (d.kind == PrimaryFunction <==> d.parent == None && d.className == "" && OfFunctionFile(d, sources))
  }

  lemma {:induction false} KindsFit(node: Node, sources: seq<Source>, className: string, parent: Option<nat>,
                                    index: nat)
    ensures forall k :: 0 <= k < |Collected(node, sources, className, parent, index)| ==>
      KindFits(Collected(node, sources, className, parent, index)[k], sources)
    decreases node, 1
  {
    var name := ClassFor(node, className);
    if IsDefinition(node) {
      AllKindsFit(node.children, sources, name, Some(index), index + 1);
    } else {
      AllKindsFit(node.children, sources, name, parent, index);
    }
  }

  lemma {:induction false} AllKindsFit(nodes: seq<Node>, sources: seq<Source>, className: string, parent: Option<nat>,
                                       index: nat)
    ensures forall k :: 0 <= k < |CollectedAll(nodes, sources, className, parent, index)| ==>
      KindFits(CollectedAll(nodes, sources, className, parent, index)[k], sources)
    decreases nodes, 0
  {
    if nodes != [] {
      KindsFit(nodes[0], sources, className, parent, index);
      AllKindsFit(nodes[1..], sources, className, parent,
        index + |Collected(nodes[0], sources, className, parent, index)|);
    }
  }

  /** A directory: parents come earlier, and every kind is what parent, class and source make it. */
  predicate Directory(ds: seq<Definition>, sources: seq<Source>) {
    forall i :: 0 <= i < |ds| ==> KindFits(ds[i], sources) && (ds[i].parent.Some? ==> ds[i].parent.value < i)
  }

  lemma {:induction false} AppendKeepsDirectory(ds: seq<Definition>, node: Node, sources: seq<Source>,
                                                className: string)
    requires Directory(ds, sources)
    ensures Directory(ds + Collected(node, sources, className, None, |ds|), sources)
  {
    var x := Collected(node, sources, className, None, |ds|);
    ParentIsNearest(node, sources, className, None, |ds|);
    KindsFit(node, sources, className, None, |ds|);
    hide Collected, Preorder;
    forall k | 0 <= k < |x| ensures x[k].parent.Some? ==> x[k].parent.value < |ds| + k {
      assert NearestParent(Preorder(node), |ds|, None, |ds| + k, x[k].parent);
    }
    forall i | 0 <= i < |ds + x|
      ensures KindFits((ds + x)[i], sources) && ((ds + x)[i].parent.Some? ==> (ds + x)[i].parent.value < i)
    {
      if i >= |ds| { assert (ds + x)[i] == x[i - |ds|]; }
    }
  }

  /** From any definition outwards: the chain of parents ends at one that is not nested. */
  function Outwards(ds: seq<Definition>, sources: seq<Source>, i: nat): (chain: seq<nat>)
    requires Directory(ds, sources) && i < |ds|
    ensures chain != [] && chain[0] == i && |chain| <= i + 1
    ensures forall k :: 0 <= k < |chain| ==> chain[k] < |ds|
    ensures ds[chain[|chain| - 1]].kind != NestedFunction
    ensures forall k :: 0 <= k < |chain| - 1 ==> ds[chain[k]].parent == Some(chain[k + 1]) && chain[k + 1] < chain[k]
  {
    match ds[i].parent
    case None => [i]
    case Some(p) => [i] + Outwards(ds, sources, p)
  }

  /** The class name that each definition of a list of trees should carry, in preorder. */
  function ClassList(trees: seq<Node>, classNames: seq<string>): seq<string>
    requires |classNames| == |trees|
  {
    if trees == [] then []
    else
      var k := |trees| - 1;
      ClassList(trees[..k], classNames[..k]) + ClassesOf(Paths(trees[k], []), classNames[k])
  }

  function ClassesOf(paths: seq<seq<Node>>, outer: string): seq<string> {
    seq(|paths|, i requires 0 <= i < |paths| => NearestClass(paths[i], outer))
  }

  predicate Carries(ds: seq<Definition>, names: seq<string>) {
    |ds| == |names| && forall k :: 0 <= k < |ds| ==> ds[k].className == names[k]
  }

  /** What the directory of a list of trees is. */
  ghost predicate DirectoryOf(trees: seq<Node>, classNames: seq<string>, ds: seq<Definition>, sources: seq<Source>)
    requires |classNames| == |trees|
  {
    && Directory(ds, sources) && RecordsAll(ds, PreorderAll(trees)) && ParentsNearest(PreorderAll(trees), 0, None, ds)
    && Carries(ds, ClassList(trees, classNames))
  }

  lemma {:induction false} NextTree(trees: seq<Node>, classNames: seq<string>, sources: seq<Source>, k: nat,
                                    ds: seq<Definition>)
    requires k < |trees| == |classNames| && DirectoryOf(trees[..k], classNames[..k], ds, sources)
    ensures DirectoryOf(trees[..k + 1], classNames[..k + 1],
      ds + Collected(trees[k], sources, classNames[k], None, |ds|), sources)
  {
    hide Collected, PreorderAll, Preorder, ParentsNearest, Directory, RecordsAll, Paths, SizesFit;
    var tree, x := trees[k], Collected(trees[k], sources, classNames[k], None, |ds|);
    var before := PreorderAll(trees[..k]);
    PreorderAllStep(trees, k);
    AppendKeepsDirectory(ds, tree, sources, classNames[k]);
    CollectedInPreorder(tree, sources, classNames[k], None, |ds|);
    RecordsConcat(ds, before, x, Preorder(tree));
    PreorderAllFits(trees[..k]);
    ParentIsNearest(tree, sources, classNames[k], None, |ds|);
    NearestConcat(before, ds, Preorder(tree), x, 0, None);
    ClassNameReaches(tree, [], classNames[k], sources, None, |ds|);
    assert trees[..k + 1][..k] == trees[..k] && classNames[..k + 1][..k] == classNames[..k];
    assert ClassList(trees[..k + 1], classNames[..k + 1]) ==
           ClassList(trees[..k], classNames[..k]) + ClassesOf(Paths(tree, []), classNames[k]);
    hide ClassList;
  }

  /**
   The loops of `CompiledModule::compile`: one directory over all the trees, each with the class it is collected for.
   It lists their definitions in preorder, each with its nearest enclosing definition and its innermost class.
   */
  method BuildDirectory(trees: seq<Node>, classNames: seq<string>, sources: seq<Source>)
    returns (definitions: seq<Definition>)
    requires |classNames| == |trees|
    ensures Directory(definitions, sources) && RecordsAll(definitions, PreorderAll(trees))
    ensures ParentsNearest(PreorderAll(trees), 0, None, definitions)
    ensures Carries(definitions, ClassList(trees, classNames))
  {
    definitions := [];
    for k := 0 to |trees|
      invariant DirectoryOf(trees[..k], classNames[..k], definitions, sources)
    {
      hide *;
      NextTree(trees, classNames, sources, k, definitions);
      definitions := CollectDefinitions(trees[k], sources, definitions, classNames[k], None);
    }
    assert trees[..|trees|] == trees && classNames[..|trees|] == classNames;
  }

  lemma {:induction false} PreorderAllStep(trees: seq<Node>, k: nat)
    requires k < |trees|
    ensures PreorderAll(trees[..k + 1]) == PreorderAll(trees[..k]) + Preorder(trees[k])
  {
    if k == 0 {
      assert trees[..1][1..] == [] && trees[..0] == [];
      assert Preorder(trees[0]) + [] == Preorder(trees[0]);
    } else {
      PreorderAllStep(trees[1..], k - 1);
      assert trees[..k + 1][1..] == trees[1..][..k] && trees[..k][1..] == trees[1..][..k - 1];
      hide *;
      Regroup(Preorder(trees[0]), PreorderAll(trees[1..][..k - 1]), Preorder(trees[k]));
    }
  }
}
