/** Facts about sequences and finite sets that several modules need. */
module Collections {

  lemma {:induction false} Regroup<T>(a: seq<T>, b: seq<T>, c: seq<T>)
    ensures a + (b + c) == a + b + c
  {
  }

  lemma {:induction false} NothingAdded<T>(a: seq<T>)
    ensures a + [] == a && [] + a == a
  {
  }

  lemma {:induction false} Halves<T>(a: seq<T>, n: nat)
    requires n <= |a|
    ensures a[..n] + a[n..] == a
  {
  }

  lemma {:induction false} SmallerSet<T>(a: set<T>, b: set<T>)
    requires a <= b
    ensures |a| <= |b|
    ensures a != b ==> |a| < |b|
  {
    assert b == a + (b - a);
    if a != b { assert b - a != {}; }
  }

  /** Marking elements as visited leaves fewer of them unvisited. */
  lemma {:induction false} VisitingShrinks<T>(all: set<T>, before: set<T>, after: set<T>)
    requires before <= after <= all
    ensures |all - after| <= |all - before|
    ensures before != after ==> |all - after| < |all - before|
  {
    SmallerSet(all - after, all - before);
    if before != after {
      var x :| x in after && x !in before;
      assert x in all - before && x !in all - after;
    }
  }
}
