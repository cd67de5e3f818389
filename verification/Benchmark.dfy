/**
 `compareVariables`, and the comparison of the four runtimes' variables that
 ends a benchmark run.
 */
module Benchmark {
  import opened RuntimeValues
  import opened Bisimulation
  import opened Comparison

  type Bindings = map<string, Value>

  /** The name map built by assigning variable after variable: a later binding replaces an earlier one. */
  ghost function LastBindings(vs: seq<Variable>): Bindings {
    if vs == [] then map[]
    else
      var last := vs[|vs| - 1];
      LastBindings(vs[..|vs| - 1])[last.name := last.value]
  }

  /** The last variable called name is the one at index i. */
  ghost predicate LastNamed(vs: seq<Variable>, name: string, i: nat) {
    i < |vs| && vs[i].name == name && forall j :: i < j < |vs| ==> vs[j].name != name
  }

  /** A name is bound to the value of its last occurrence. */
  lemma {:induction false} LastBindingWins(vs: seq<Variable>, name: string, i: nat)
    requires LastNamed(vs, name, i)
    ensures name in LastBindings(vs) && LastBindings(vs)[name] == vs[i].value
    decreases |vs|
  {
    var n := |vs| - 1;
    if i < n {
      assert vs[..n][i] == vs[i];
      LastBindingWins(vs[..n], name, i);
    }
  }

  /** Nothing else is bound. */
  lemma {:induction false} BoundNameOccurs(vs: seq<Variable>, name: string) returns (i: nat)
    requires name in LastBindings(vs)
    ensures LastNamed(vs, name, i)
    decreases |vs|
  {
    var n := |vs| - 1;
    if vs[n].name == name {
      i := n;
    } else {
      i := BoundNameOccurs(vs[..n], name);
      assert vs[i] == vs[..n][i];
      assert forall j :: i < j < n ==> vs[j] == vs[..n][j];
    }
  }

  ghost predicate SameBindings(h: Heap, a: Bindings, b: Bindings) {
    a.Keys == b.Keys && forall name :: name in a ==> Bisimilar(h, a[name], b[name])
  }

  ghost predicate ValidVariables(h: Heap, vs: seq<Variable>) {
    forall i :: 0 <= i < |vs| ==> Valid(h, vs[i].value)
  }

  datatype Message = CountsDiffer | MissingVariable(name: string) | ValuesDiffer(name: string) | OutputsMatch

  method BuildBindings(h: Heap, vs: seq<Variable>) returns (b: Bindings)
    requires ValidVariables(h, vs)
    ensures b == LastBindings(vs)
    ensures forall name :: name in b ==> Valid(h, b[name])
  {
    b := map[];
    for i := 0 to |vs|
      invariant b == LastBindings(vs[..i])
      invariant forall name :: name in b ==> Valid(h, b[name])
    {
      b := b[vs[i].name := vs[i].value];
      assert vs[..i + 1][..i] == vs[..i];
    }
    assert vs[..|vs|] == vs;
  }

  /** `compareVariables`: the verdict decides equality of the name maps; the message names a witness. */
  method CompareVariables(h: Heap, left: seq<Variable>, right: seq<Variable>) returns (matches: bool, message: Message)
    requires ValidHeap(h) && ValidVariables(h, left) && ValidVariables(h, right)
    ensures matches <==> SameBindings(h, LastBindings(left), LastBindings(right))
    ensures matches <==> message == OutputsMatch
    ensures message == CountsDiffer ==> |LastBindings(left)| != |LastBindings(right)|
    ensures message.MissingVariable? ==>
      message.name in LastBindings(left) && message.name !in LastBindings(right)
    ensures message.ValuesDiffer? ==>
      && message.name in LastBindings(left) && message.name in LastBindings(right)
      && !Bisimilar(h, LastBindings(left)[message.name], LastBindings(right)[message.name])
  {
    hide ValidHeap, Valid, Bisimilar, LastBindings;
    var a := BuildBindings(h, left);
    var b := BuildBindings(h, right);
    if |a| != |b| {
      assert a.Keys == b.Keys ==> |a.Keys| == |b.Keys|;
      return false, CountsDiffer;
    }
    var names := a.Keys;
    while names != {}
      invariant names <= a.Keys
      invariant forall name :: name in a && name !in names ==> name in b && Bisimilar(h, a[name], b[name])
      decreases names
    {
      var name :| name in names;
      names := names - {name};
      if name !in b {
        return false, MissingVariable(name);
      }
      var same := ValuesEqual(h, a[name], b[name]);
      if !same {
        return false, ValuesDiffer(name);
      }
    }
    SameKeys(a.Keys, b.Keys);
    return true, OutputsMatch;
  }

  lemma {:induction false} SameBindingsSymmetric(h: Heap, a: Bindings, b: Bindings)
    requires SameBindings(h, a, b)
    ensures SameBindings(h, b, a)
  {
    forall name | name in a ensures Bisimilar(h, b[name], a[name]) {
      BisimilarSymmetric(h, a[name], b[name]);
    }
  }

  lemma {:induction false} SameBindingsTransitive(h: Heap, a: Bindings, b: Bindings, c: Bindings)
    requires SameBindings(h, a, b) && SameBindings(h, b, c)
    ensures SameBindings(h, a, c)
  {
    forall name | name in a ensures Bisimilar(h, a[name], c[name]) {
      BisimilarTransitive(h, a[name], b[name], c[name]);
    }
  }

  datatype Outcome = Outcome(outputsComparable: bool, interpreterProfiledMatch: bool, profiledSteadyMatch: bool,
                             typedMatch: bool, outputsMatch: bool)

  /** Any two runs, taken in either order, agree. */
  ghost predicate AllAgree(h: Heap, runs: seq<Bindings>) {
    forall i, j :: 0 <= i < |runs| && 0 <= j < |runs| && i != j ==> SameBindings(h, runs[i], runs[j])
  }

  ghost predicate AdjacentAgree(h: Heap, runs: seq<Bindings>, i: nat)
    requires i + 1 < |runs|
  {
    SameBindings(h, runs[i], runs[i + 1])
  }

  lemma {:induction false} ChainReaches(h: Heap, runs: seq<Bindings>, i: nat, j: nat)
    requires i < j < |runs| && forall k: nat :: k + 1 < |runs| ==> AdjacentAgree(h, runs, k)
    ensures SameBindings(h, runs[i], runs[j])
    decreases j
  {
    assert AdjacentAgree(h, runs, j - 1);
    if i < j - 1 {
      ChainReaches(h, runs, i, j - 1);
      SameBindingsTransitive(h, runs[i], runs[j - 1], runs[j]);
    }
  }

  /** However many runs there are, agreement of neighbours is agreement of all. */
  lemma {:induction false} NeighboursSuffice(h: Heap, runs: seq<Bindings>)
    ensures (forall k: nat :: k + 1 < |runs| ==> AdjacentAgree(h, runs, k)) <==> AllAgree(h, runs)
  {
    if forall k: nat :: k + 1 < |runs| ==> AdjacentAgree(h, runs, k) {
      forall i, j | 0 <= i < |runs| && 0 <= j < |runs| && i != j ensures SameBindings(h, runs[i], runs[j]) {
        if i < j {
          ChainReaches(h, runs, i, j);
        } else {
          ChainReaches(h, runs, j, i);
          SameBindingsSymmetric(h, runs[j], runs[i]);
        }
      }
    }
    if AllAgree(h, runs) {
      forall k: nat | k + 1 < |runs| ensures AdjacentAgree(h, runs, k) {
        assert SameBindings(h, runs[k], runs[k + 1]);
      }
    }
  }

  /**
   The end of `RuntimeBenchmarkRunner::run`.  Only adjacent runtimes are
   compared, yet outputsMatch holds exactly when the run is comparable and all
   four agree pairwise.
   */
  method CompareRuns(h: Heap, interpreter: seq<Variable>, profiled: seq<Variable>, steady: seq<Variable>,
                     typed: seq<Variable>, hasDiagnostics: bool, completed: bool) returns (result: Outcome)
    requires ValidHeap(h) && ValidVariables(h, interpreter) && ValidVariables(h, profiled)
    requires ValidVariables(h, steady) && ValidVariables(h, typed)
    ensures result.outputsComparable <==> !hasDiagnostics && completed
    ensures result.interpreterProfiledMatch <==>
            result.outputsComparable && SameBindings(h, LastBindings(interpreter), LastBindings(profiled))
    ensures result.profiledSteadyMatch <==>
            result.interpreterProfiledMatch && SameBindings(h, LastBindings(profiled), LastBindings(steady))
    ensures result.typedMatch <==>
            result.profiledSteadyMatch && SameBindings(h, LastBindings(steady), LastBindings(typed))
    ensures result.outputsMatch <==>
            (result.outputsComparable &&
             AllAgree(h, [LastBindings(interpreter), LastBindings(profiled), LastBindings(steady),
               LastBindings(typed)]))
  {
    hide LastBindings, SameBindings, AllAgree, ValidHeap, ValidVariables;
    result := Outcome(false, false, false, false, false);
    if hasDiagnostics {
      return;
    }
    result := result.(outputsComparable := completed);
    if !completed {
      return;
    }
    ghost var runs := [LastBindings(interpreter), LastBindings(profiled), LastBindings(steady), LastBindings(typed)];
    NeighboursSuffice(h, runs);
    var first, _ := CompareVariables(h, interpreter, profiled);
    assert first == AdjacentAgree(h, runs, 0);
    result := result.(interpreterProfiledMatch := first);
    if !first {
      return;
    }
    var second, _ := CompareVariables(h, profiled, steady);
    assert second == AdjacentAgree(h, runs, 1);
    result := result.(profiledSteadyMatch := second);
    if !second {
      return;
    }
    var third, _ := CompareVariables(h, steady, typed);
    assert third == AdjacentAgree(h, runs, 2);
    result := result.(typedMatch := third, outputsMatch := first && second && third);
  }
}
