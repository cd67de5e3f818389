/**
 The main results on method files: no method ever gains a second body, and the
 order of the files matters neither to the classes nor to the diagnostics.
 */
module MethodFileOrder {
  import opened Collections
  import opened SyntaxTrees
  import opened MethodFiles
  import opened MethodFileResults

  // ----- one body -----

  /** Class i's entries for a name are what they were, or the one body that was attached. */
  ghost predicate AtMostOneGained(before: seq<Node>, after: seq<Node>) {
    after == before || (|after| == 1 && after[0].kind == FunctionDef && forall k :: 0 <= k < |before| ==>
      before[k].kind == MethodPrototype)
  }

  lemma {:induction false} StepGains(members: seq<Node>, m: Method, name: string)
    requires m.body.kind == FunctionDef
    ensures AtMostOneGained(Entries(members, name), Entries(AttachTo(members, m), name))
  {
    hide Entries, AttachTo;
    EntriesAfter(members, m, name);
    var before := Entries(members, name);
    if name == m.body.name && Judge(before, m).Replace? { assert |before| == 1 && Concerns(before[0], name); }
  }

  lemma {:induction false} GainedTrans(a: seq<Node>, b: seq<Node>, c: seq<Node>)
    requires AtMostOneGained(a, b) && AtMostOneGained(b, c)
    ensures AtMostOneGained(a, c)
  {
  }

  /** Over any list of method files, and whatever the tree held before. */
  lemma {:induction false} NeverTwoBodies(nodes: seq<Node>, ms: seq<Method>, i: nat, name: string)
    requires i < |nodes| && Bodies(ms)
    ensures AtMostOneGained(Entries(nodes[i].children, name), Entries(AttachAll(nodes, ms)[i].children, name))
    decreases |ms|
  {
    if ms != [] {
      var next := Attach(nodes, ms[0]);
      NodeStep(nodes, ms[0], i);
      assert ms[0].body.kind == FunctionDef && Bodies(ms[1..]);
      hide Attach, AttachTo, Entries, FindClass, AtMostOneGained;
      StepGains(nodes[i].children, ms[0], name);
      NeverTwoBodies(next, ms[1..], i, name);
      GainedRefl(Entries(nodes[i].children, name));
      GainedTrans(Entries(nodes[i].children, name), Entries(next[i].children, name),
        Entries(AttachAll(next, ms[1..])[i].children, name));
    } else {
      GainedRefl(Entries(nodes[i].children, name));
    }
  }

  lemma {:induction false} GainedRefl(a: seq<Node>)
    ensures AtMostOneGained(a, a)
  {
  }

  /** A successful replacement keeps the declaration's attributes and everything else of the implementation. */
  lemma {:induction false} ReplacementKeepsAttributes(nodes: seq<Node>, m: Method)
    requires m.body.kind == FunctionDef && VerdictOn(nodes, m).Replace?
    ensures var i := FindClass(nodes, m.owner);
      i < |nodes| && Entries(Attach(nodes, m)[i].children, m.body.name) ==
        [m.body.(attributes := VerdictOn(nodes, m).declaration.attributes)]
  {
    var i := FindClass(nodes, m.owner);
    NodeStep(nodes, m, i);
    EntriesAfter(nodes[i].children, m, m.body.name);
  }

  // ----- verdicts do not depend on the other files -----

  predicate OtherKey(a: Method, b: Method) { a.owner != b.owner || a.body.name != b.body.name }

  lemma {:induction false} VerdictSame(nodes: seq<Node>, first: Method, m: Method)
    requires OtherKey(first, m)
    ensures VerdictOn(Attach(nodes, first), m) == VerdictOn(nodes, m)
  {
    var i := FindClass(nodes, m.owner);
    FindClassSame(nodes, first, m.owner);
    if i < |nodes| {
      NodeStep(nodes, first, i);
      if first.body.name != m.body.name {
        OthersSimilar(nodes[i].children, first, m.body.name);
        SimilarEntries(nodes[i].children, AttachTo(nodes[i].children, first), m.body.name);
      }
    }
  }

  /** The complaints that each file gets when it comes alone. */
  function Judged(nodes: seq<Node>, ms: seq<Method>): seq<Diagnostic> {
    if ms == [] then [] else Complaints(nodes, [ms[0]]) + Judged(nodes, ms[1..])
  }

  lemma {:induction false} Alone(nodes: seq<Node>, m: Method)
    ensures Complaints(nodes, [m]) == Complaint(VerdictOn(nodes, m))
  {
    hide VerdictOn, Attach;
    assert Complaints(Attach(nodes, m), []) == [];
    assert Complaint(VerdictOn(nodes, m)) + [] == Complaint(VerdictOn(nodes, m));
  }

  lemma {:induction false} JudgedSame(nodes: seq<Node>, first: Method, ms: seq<Method>)
    requires forall k :: 0 <= k < |ms| ==> OtherKey(first, ms[k])
    ensures Judged(Attach(nodes, first), ms) == Judged(nodes, ms)
  {
    if ms != [] {
      VerdictSame(nodes, first, ms[0]);
      Alone(nodes, ms[0]);
      Alone(Attach(nodes, first), ms[0]);
      JudgedSame(nodes, first, ms[1..]);
    }
  }

  /** Each file's diagnostic is the one it would get alone. */
  lemma {:induction false} ComplaintsAreIndependent(nodes: seq<Node>, ms: seq<Method>)
    requires DistinctKeys(ms)
    ensures Complaints(nodes, ms) == Judged(nodes, ms)
    decreases |ms|
  {
    if ms != [] {
      assert DistinctKeys(ms[1..]);
      ComplaintsAreIndependent(Attach(nodes, ms[0]), ms[1..]);
      forall k | 0 <= k < |ms[1..]| ensures OtherKey(ms[0], ms[1..][k]) { assert ms[1..][k] == ms[k + 1]; }
      hide VerdictOn, Attach;
      Alone(nodes, ms[0]);
      JudgedSame(nodes, ms[0], ms[1..]);
    }
  }

  lemma {:induction false} JudgedConcat(nodes: seq<Node>, a: seq<Method>, b: seq<Method>)
    ensures Judged(nodes, a + b) == Judged(nodes, a) + Judged(nodes, b)
  {
    if a == [] {
      assert a + b == b;
    } else {
      assert (a + b)[1..] == a[1..] + b;
      JudgedConcat(nodes, a[1..], b);
    }
  }

  lemma {:induction false} RemoveOne(ms: seq<Method>, ns: seq<Method>, k: nat)
    requires ms != [] && k < |ns| && ns[k] == ms[0] && multiset(ms) == multiset(ns)
    ensures multiset(ms[1..]) == multiset(ns[..k] + ns[k + 1..])
  {
    assert ms == [ms[0]] + ms[1..];
    assert ns == ns[..k] + [ns[k]] + ns[k + 1..];
    assert multiset(ns) == multiset(ns[..k] + ns[k + 1..]) + multiset{ns[k]};
    assert multiset(ms) == multiset(ms[1..]) + multiset{ms[0]};
    assert multiset(ms[1..]) == multiset(ms) - multiset{ms[0]};
    assert multiset(ns[..k] + ns[k + 1..]) == multiset(ns) - multiset{ns[k]};
  }

  lemma {:induction false} JudgedAround(nodes: seq<Node>, ns: seq<Method>, k: nat)
    requires k < |ns|
    ensures multiset(Judged(nodes, ns)) ==
      multiset(Complaints(nodes, [ns[k]])) + multiset(Judged(nodes, ns[..k] + ns[k + 1..]))
  {
    var a, b := ns[..k], ns[k + 1..];
    assert ns == a + ns[k..] && ns[k..][1..] == b;
    JudgedConcat(nodes, a, ns[k..]);
    JudgedConcat(nodes, a, b);
  }

  lemma {:induction false} JudgedPermuted(nodes: seq<Node>, ms: seq<Method>, ns: seq<Method>)
    requires multiset(ms) == multiset(ns)
    ensures multiset(Judged(nodes, ms)) == multiset(Judged(nodes, ns))
    decreases |ms|
  {
    if ms == [] {
      assert |multiset(ns)| == |ns|;
    } else {
      assert ms[0] in multiset(ns);
      var k :| 0 <= k < |ns| && ns[k] == ms[0];
      RemoveOne(ms, ns, k);
      hide Judged, VerdictOn;
      JudgedPermuted(nodes, ms[1..], ns[..k] + ns[k + 1..]);
      JudgedAround(nodes, ns, k);
      JudgedAround(nodes, ms, 0);
      assert ms[..0] + ms[1..] == ms[1..];
    }
  }

  // ----- the classes do not depend on the order -----

  /** Some file adds a method to class i. */
  ghost predicate Adds(nodes: seq<Node>, ms: seq<Method>, i: nat) {
    exists m :: m in ms && FindClass(nodes, m.owner) == i && VerdictOn(nodes, m) == Add
  }

  /** A default block is added to a class exactly when it has none and some file needs one. */
  lemma {:induction false} FinalLength(nodes: seq<Node>, ms: seq<Method>, i: nat)
    requires i < |nodes| && DistinctKeys(ms)
    ensures |AttachAll(nodes, ms)[i].children| ==
      var n := |nodes[i].children|; n + if Adds(nodes, ms, i) && DefaultBlock(nodes[i].children) == n then 1 else 0
    decreases |ms|
  {
    if ms != [] {
      hide Attach, AttachTo, DefaultBlock, Judge, Entries, FindClass;
      var first, rest, next := ms[0], ms[1..], Attach(nodes, ms[0]);
      NodeStep(nodes, first, i);
      FrameKept(nodes[i].children, first);
      assert DistinctKeys(rest);
      FinalLength(next, rest, i);
      LaterVerdicts(nodes, ms);
      assert Adds(nodes, ms, i) <==>
        (FindClass(nodes, first.owner) == i && VerdictOn(nodes, first) == Add) || Adds(next, rest, i) by {
        assert first in ms && forall m :: m in ms <==> m == first || m in rest;
      }
      StepLength(nodes, first, i);
    }
  }

  /** The files that follow are found the same classes and judged the same after the first one. */
  lemma {:induction false} LaterVerdicts(nodes: seq<Node>, ms: seq<Method>)
    requires ms != [] && DistinctKeys(ms)
    ensures forall m :: m in ms[1..] ==>
      && FindClass(Attach(nodes, ms[0]), m.owner) == FindClass(nodes, m.owner)
      && VerdictOn(Attach(nodes, ms[0]), m) == VerdictOn(nodes, m)
  {
    hide Attach, FindClass, VerdictOn;
    forall m | m in ms[1..]
      ensures FindClass(Attach(nodes, ms[0]), m.owner) == FindClass(nodes, m.owner)
      ensures VerdictOn(Attach(nodes, ms[0]), m) == VerdictOn(nodes, m)
    {
      var k :| 0 <= k < |ms[1..]| && ms[1..][k] == m;
      assert ms[k + 1] == m && OtherKey(ms[0], m);
      FindClassSame(nodes, ms[0], m.owner);
      VerdictSame(nodes, ms[0], m);
    }
  }

  lemma {:induction false} StepLength(nodes: seq<Node>, m: Method, i: nat)
    requires i < |nodes|
    ensures var x, y := nodes[i].children, Attach(nodes, m)[i].children;
      && DefaultBlock(y) == DefaultBlock(x)
      && |y| == |x| + if FindClass(nodes, m.owner) == i && VerdictOn(nodes, m) == Add && DefaultBlock(x) == |x| then 1
      else 0
  {
    hide AttachTo, DefaultBlock, Judge, Entries;
    NodeStep(nodes, m, i);
    FrameKept(nodes[i].children, m);
  }

  // ----- the original children stay where they are -----

  /**
   A declaration may give way to a body of the same name, attributes, outputs and parameters; nothing else changes.
   */
  ghost predicate Succeeds(c: Node, d: Node) {
    || d == c
    || (c.kind == MethodPrototype && d.name == c.name && d.attributes == c.attributes && SameInterface(c, d))
  }

  /** The two take and give the same. */
  predicate SameInterface(c: Node, d: Node) {
    && c.signature.outputs == d.signature.outputs && c.signature.parameters == d.signature.parameters
    && c.signature.hasVarargout == d.signature.hasVarargout && c.signature.hasVarargin == d.signature.hasVarargin
  }

  ghost predicate InPlace(a: seq<Node>, b: seq<Node>) {
    |a| <= |b| && forall k :: 0 <= k < |a| ==> Succeeds(a[k], b[k])
  }

  /**
   The children of every member of x are still in place in y, and only those of the default block may have become
   more.
   */
  ghost predicate ChildrenStay(x: seq<Node>, y: seq<Node>) {
    forall b: nat :: InPlace(ChildrenAt(x, b), ChildrenAt(y, b))
      && (b != DefaultBlock(x) ==> |ChildrenAt(y, b)| == |ChildrenAt(x, b)|)
  }

  lemma {:induction false} ChildrenStayStep(members: seq<Node>, m: Method)
    ensures ChildrenStay(members, AttachTo(members, m))
  {
    forall b: nat
      ensures InPlace(ChildrenAt(members, b), ChildrenAt(AttachTo(members, m), b))
      ensures b != DefaultBlock(members) ==> |ChildrenAt(AttachTo(members, m), b)| == |ChildrenAt(members, b)|
    {
      ChildrenAfter(members, m, b);
      if Judge(Entries(members, m.body.name), m).Replace? && b < |members| && members[b].kind == MethodsBlock {
        SoleDeclarationMatches(members, m, b);
      }
      hide AttachTo, Judge, Entries, DefaultBlock, Implemented;
    }
  }

  /** The only declaration of the name has the interface of the body that replaces it. */
  lemma {:induction false} SoleDeclarationMatches(members: seq<Node>, m: Method, b: nat)
    requires b < |members| && members[b].kind == MethodsBlock
    requires Judge(Entries(members, m.body.name), m).Replace?
    ensures InPlace(members[b].children, ImplementEach(members[b].children, m))
  {
    hide Entries;
    var children := members[b].children;
    forall j | 0 <= j < |children| ensures Succeeds(children[j], Implemented(children[j], m)) {
      if Concerns(children[j], m.body.name) { EntriesHold(members, m.body.name, b, j); }
    }
  }

  lemma {:induction false} ChildrenStayTrans(x: seq<Node>, y: seq<Node>, z: seq<Node>)
    requires ChildrenStay(x, y) && ChildrenStay(y, z) && DefaultBlock(x) == DefaultBlock(y)
    ensures ChildrenStay(x, z)
  {
    hide DefaultBlock, ChildrenAt;
    forall b: nat
      ensures InPlace(ChildrenAt(x, b), ChildrenAt(z, b))
      ensures b != DefaultBlock(x) ==> |ChildrenAt(z, b)| == |ChildrenAt(x, b)|
    {
      var c, d := ChildrenAt(x, b), ChildrenAt(y, b);
      assert InPlace(c, d) && InPlace(d, ChildrenAt(z, b));
      assert forall k :: 0 <= k < |c| ==> Succeeds(c[k], d[k]) && Succeeds(d[k], ChildrenAt(z, b)[k]);
    }
  }

  /**
   Whatever files come, every original child of a class's blocks stays at its place, at most replaced by the body for a
   declaration; only the default block grows, at its end.
   */
  lemma {:induction false} OriginalsStay(nodes: seq<Node>, ms: seq<Method>, i: nat)
    requires i < |nodes|
    ensures ChildrenStay(nodes[i].children, AttachAll(nodes, ms)[i].children)
    decreases |ms|
  {
    if ms != [] {
      var next := Attach(nodes, ms[0]);
      NodeStep(nodes, ms[0], i);
      ChildrenStayStep(nodes[i].children, ms[0]);
      OriginalsStay(next, ms[1..], i);
      hide Attach, AttachTo, DefaultBlock, ChildrenAt;
      if FindClass(nodes, ms[0].owner) == i {
        ChildrenStayTrans(nodes[i].children, next[i].children, AttachAll(next, ms[1..])[i].children);
      }
    }
  }

  // ----- what the names determine -----

  lemma {:induction false} NamedConcat(a: seq<Node>, b: seq<Node>, name: string)
    ensures Named(a + b, name) == Named(a, name) + Named(b, name)
  {
    if b == [] {
      assert a + b == a;
    } else {
      var init, last := b[..|b| - 1], b[|b| - 1];
      NamedConcat(a, init, name);
      assert a + b == (a + init) + [last];
      NamedAppend(a + init, last, name);
    }
  }

  ghost predicate SameNames(a: seq<Node>, b: seq<Node>) {
    |a| == |b| && forall k :: 0 <= k < |a| ==> a[k].name == b[k].name
  }

  lemma {:induction false} NamedLength(a: seq<Node>, b: seq<Node>, name: string)
    requires SameNames(a, b)
    ensures |Named(a, name)| == |Named(b, name)|
  {
    if a != [] { NamedLength(a[..|a| - 1], b[..|b| - 1], name); }
  }

  /** Where the names stand, and what each name stands for, is all there is. */
  lemma {:induction false} NamedDetermines(a: seq<Node>, b: seq<Node>)
    requires SameNames(a, b) && forall name :: Named(a, name) == Named(b, name)
    ensures a == b
  {
    if a != [] {
      var c, d := a[..|a| - 1], b[..|b| - 1];
      assert a == c + [a[|a| - 1]] && b == d + [b[|b| - 1]];
      forall name ensures Named(c, name) == Named(d, name) && (name == a[|a| - 1].name ==> a[|a| - 1] == b[|b| - 1]) {
        NamedAppend(c, a[|a| - 1], name);
        NamedAppend(d, b[|b| - 1], name);
        NamedLength(c, d, name);
        assert a[|a| - 1].name == b[|b| - 1].name;
        hide Named;
        if name == a[|a| - 1].name {
          SameEnds(Named(c, name), a[|a| - 1], Named(d, name), b[|b| - 1]);
        } else {
          assert Named(c, name) + [] == Named(c, name) && Named(d, name) + [] == Named(d, name);
        }
      }
      assert a[|a| - 1] == b[|b| - 1] by { assert Named(c, a[|a| - 1].name) == Named(d, a[|a| - 1].name); }
      NamedDetermines(c, d);
    }
  }

  lemma {:induction false} SameEnds(a: seq<Node>, x: Node, b: seq<Node>, y: Node)
    requires a + [x] == b + [y]
    ensures a == b && x == y
  {
    assert |a| == |b| && (a + [x])[..|a|] == a && (b + [y])[..|b|] == b;
    assert (a + [x])[|a|] == x && (b + [y])[|b|] == y;
  }

  lemma {:induction false} NamedCounts(a: seq<Node>, e: Node)
    ensures multiset(a)[e] == multiset(Named(a, e.name))[e]
  {
    if a != [] {
      var init, last := a[..|a| - 1], a[|a| - 1];
      assert a == init + [last];
      NamedCounts(init, e);
    }
  }

  lemma {:induction false} NamedPermutes(a: seq<Node>, b: seq<Node>)
    requires forall name :: Named(a, name) == Named(b, name)
    ensures multiset(a) == multiset(b)
  {
    forall e: Node ensures multiset(a)[e] == multiset(b)[e] {
      NamedCounts(a, e);
      NamedCounts(b, e);
    }
  }

  /** Two lists that agree by name and begin with the same names begin alike, and their ends hold the same nodes. */
  lemma {:induction false} NamedSplit(a: seq<Node>, s: seq<Node>, b: seq<Node>, t: seq<Node>)
    requires SameNames(a, b) && forall name :: Named(a + s, name) == Named(b + t, name)
    ensures a == b && multiset(s) == multiset(t)
  {
    forall name ensures Named(a, name) == Named(b, name) && Named(s, name) == Named(t, name) {
      NamedConcat(a, s, name);
      NamedConcat(b, t, name);
      NamedLength(a, b, name);
      hide Named;
      var p, q, u, v := Named(a, name), Named(s, name), Named(b, name), Named(t, name);
      assert (p + q)[..|p|] == p && (u + v)[..|u|] == u && (p + q)[|p|..] == q && (u + v)[|u|..] == v;
    }
    NamedDetermines(a, b);
    NamedPermutes(s, t);
  }

  // ----- the classes come out the same -----

  /**
   Two outcomes y and z of a class with members x.  Every member but the default block is the same.  The default block
   has the same original children, in place, and the same added ones in some order; a new one may have another span.
   */
  ghost predicate SameClass(x: seq<Node>, y: seq<Node>, z: seq<Node>) {
    && |y| == |z|
    && (forall b :: 0 <= b < |y| && b != DefaultBlock(x) ==> y[b] == z[b])
    && (DefaultBlock(x) < |y| ==>
         SameDefaultBlock(ChildrenAt(x, DefaultBlock(x)), y[DefaultBlock(x)], z[DefaultBlock(x)]))
    && (DefaultBlock(x) < |x| <= |y| ==> y[DefaultBlock(x)].span == z[DefaultBlock(x)].span)
  }

  /** The two blocks differ only in the order of what was added behind the original children, and maybe in the span. */
  ghost predicate SameDefaultBlock(original: seq<Node>, p: Node, q: Node) {
    var n := |original|;
    && p.(children := [], span := q.span) == q.(children := [])
    && n <= |p.children| && n <= |q.children|
    && InPlace(original, p.children) && p.children[..n] == q.children[..n]
    && multiset(p.children[n..]) == multiset(q.children[n..])
  }

  ghost predicate SameGraph(nodes: seq<Node>, x: seq<Node>, y: seq<Node>) {
    && |nodes| == |x| == |y|
    && forall i :: 0 <= i < |x| ==>
         && x[i].(children := []) == y[i].(children := []) && (x[i].kind != ClassDef ==> x[i] == y[i])
         && SameClass(nodes[i].children, x[i].children, y[i].children)
  }

  lemma {:induction false} AgreeOnAll(nodes: seq<Node>, ms: seq<Method>, ns: seq<Method>, i: nat, name: string)
    requires i < |nodes| && DistinctKeys(ms) && DistinctKeys(ns) && multiset(ms) == multiset(ns)
    ensures Agree(AttachAll(nodes, ms)[i].children, AttachAll(nodes, ns)[i].children, name)
  {
    assert forall m :: m in ms <==> m in multiset(ms);
    assert forall m :: m in ns <==> m in multiset(ns);
    hide AttachAll, Named, FindClass, DistinctKeys;
    if m :| m in ms && Targets(nodes, m, i, name) {
      FinalByName(nodes, ms, i, m);
      FinalByName(nodes, ns, i, m);
    } else {
      Untouched(nodes, ms, i, name);
      Untouched(nodes, ns, i, name);
    }
  }

  lemma {:induction false} InPlaceNames(c: seq<Node>, p: seq<Node>, q: seq<Node>)
    requires InPlace(c, p) && InPlace(c, q)
    ensures |c| <= |p| && |c| <= |q| && SameNames(p[..|c|], q[..|c|])
  {
    assert forall k :: 0 <= k < |c| ==> Succeeds(c[k], p[k]) && Succeeds(c[k], q[k]);
  }

  lemma {:induction false} SameChildren(x: seq<Node>, y: seq<Node>, z: seq<Node>, b: nat)
    requires ChildrenStay(x, y) && ChildrenStay(x, z) && forall name :: Agree(y, z, name)
    ensures var c, p, q := ChildrenAt(x, b), ChildrenAt(y, b), ChildrenAt(z, b);
      && |c| <= |p| && |c| <= |q| && InPlace(c, p) && p[..|c|] == q[..|c|] && multiset(p[|c|..]) == multiset(q[|c|..])
      && (b != DefaultBlock(x) ==> p == q)
  {
    hide Named, DefaultBlock, ChildrenAt, InPlace;
    var c, p, q := ChildrenAt(x, b), ChildrenAt(y, b), ChildrenAt(z, b);
    InPlaceNames(c, p, q);
    Halves(p, |c|);
    Halves(q, |c|);
    forall name ensures Named(p, name) == Named(q, name) { assert Agree(y, z, name); }
    NamedSplit(p[..|c|], p[|c|..], q[..|c|], q[|c|..]);
    assert |p| == |c| == |q| ==> p[|c|..] == [] == q[|c|..];
  }

  lemma {:induction false} FramedSame(x: seq<Node>, y: seq<Node>, z: seq<Node>)
    requires Framed(x, y) && Framed(x, z) && ChildrenStay(x, y) && ChildrenStay(x, z)
    requires |y| == |z| && forall name :: Agree(y, z, name)
    ensures SameClass(x, y, z)
  {
    hide Named, DefaultBlock;
    forall b: nat | b < |y| ensures b != DefaultBlock(x) ==> y[b] == z[b] {
      SameChildren(x, y, z, b);
      if b < |x| { assert y[b].(children := []) == x[b].(children := []) == z[b].(children := []); }
    }
    var b := DefaultBlock(x);
    if b < |y| {
      SameChildren(x, y, z, b);
      SameHeaders(x, y, z, b);
    }
  }

  /** The headers of the default blocks: those of the original block, or of two new ones. */
  lemma {:induction false} SameHeaders(x: seq<Node>, y: seq<Node>, z: seq<Node>, b: nat)
    requires Framed(x, y) && Framed(x, z) && b < |y| == |z|
    ensures y[b].(children := [], span := z[b].span) == z[b].(children := [])
    ensures b < |x| ==> y[b].span == z[b].span
  {
    hide DefaultBlock;
    if b < |x| {
      assert y[b].(children := []) == x[b].(children := []) == z[b].(children := []);
      assert y[b].(children := []).span == z[b].(children := []).span;
    } else {
      var p, q := y[b].(children := [], span := NO_SPAN), z[b].(children := [], span := NO_SPAN);
      assert p == q && p.(span := z[b].span) == q.(span := z[b].span);
    }
  }

  lemma {:induction false} SameMethods(ms: seq<Method>, ns: seq<Method>)
    requires multiset(ms) == multiset(ns)
    ensures forall m :: m in ms <==> m in ns
  {
    assert forall m :: m in ms <==> m in multiset(ms);
    assert forall m :: m in ns <==> m in multiset(ns);
  }

  /** What becomes of one class does not depend on the order. */
  lemma {:induction false} ClassComesOutTheSame(nodes: seq<Node>, ms: seq<Method>, ns: seq<Method>, i: nat)
    requires DistinctKeys(ms) && DistinctKeys(ns) && multiset(ms) == multiset(ns) && i < |nodes|
    ensures SameClass(nodes[i].children, AttachAll(nodes, ms)[i].children, AttachAll(nodes, ns)[i].children)
  {
    hide DistinctKeys, AttachAll, Named, DefaultBlock, SameClass, ChildrenStay, FindClass, VerdictOn, Framed, Agree;
    NodesKept(nodes, ms, i);
    NodesKept(nodes, ns, i);
    OriginalsStay(nodes, ms, i);
    OriginalsStay(nodes, ns, i);
    FinalLength(nodes, ms, i);
    FinalLength(nodes, ns, i);
    SameMethods(ms, ns);
    assert Adds(nodes, ms, i) == Adds(nodes, ns, i);
    forall name ensures Agree(AttachAll(nodes, ms)[i].children, AttachAll(nodes, ns)[i].children, name) {
      AgreeOnAll(nodes, ms, ns, i, name);
    }
    FramedSame(nodes[i].children, AttachAll(nodes, ms)[i].children, AttachAll(nodes, ns)[i].children);
  }

  lemma {:induction false} NodeComesOutTheSame(nodes: seq<Node>, ms: seq<Method>, ns: seq<Method>, i: nat)
    requires i < |nodes|
    ensures var x, y := AttachAll(nodes, ms)[i], AttachAll(nodes, ns)[i];
      x.(children := []) == y.(children := []) && (x.kind != ClassDef ==> x == y)
  {
    hide AttachAll, Framed;
    NodesKept(nodes, ms, i);
    NodesKept(nodes, ns, i);
    assert AttachAll(nodes, ms)[i].(children := []).kind == nodes[i].(children := []).kind;
  }

  /**
   Method files for distinct methods may come in any order: the classes come out the same, up to the order of the
   methods added to the default block and the span of a new one, and so do the diagnostics, up to their order.
   */
  lemma {:induction false} OrderDoesNotMatter(nodes: seq<Node>, ms: seq<Method>, ns: seq<Method>)
    requires DistinctKeys(ms) && DistinctKeys(ns) && multiset(ms) == multiset(ns)
    ensures SameGraph(nodes, AttachAll(nodes, ms), AttachAll(nodes, ns))
    ensures multiset(Complaints(nodes, ms)) == multiset(Complaints(nodes, ns))
  {
    hide DistinctKeys, AttachAll, Complaints, Judged, SameClass;
    ComplaintsAreIndependent(nodes, ms);
    ComplaintsAreIndependent(nodes, ns);
    JudgedPermuted(nodes, ms, ns);
    var x, y := AttachAll(nodes, ms), AttachAll(nodes, ns);
    forall i | 0 <= i < |nodes|
      ensures x[i].(children := []) == y[i].(children := []) && (x[i].kind != ClassDef ==> x[i] == y[i])
      ensures SameClass(nodes[i].children, x[i].children, y[i].children)
    {
      NodeComesOutTheSame(nodes, ms, ns, i);
      ClassComesOutTheSame(nodes, ms, ns, i);
    }
  }
}
