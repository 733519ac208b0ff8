/** Finite sets of indexes and their sizes. */
module Indexes {
  function All(n: nat): (r: set<nat>)
    ensures |r| == n
    ensures forall i: nat :: i in r <==> i < n
  {
    if n == 0 then {} else All(n - 1) + {n - 1}
  }

  lemma {:induction false} SubsetSize<T>(xs: set<T>, ys: set<T>)
    requires xs <= ys
    ensures |xs| <= |ys|
    ensures xs != ys ==> |xs| < |ys|
  {
    assert ys == xs + (ys - xs);
    assert |ys| == |xs| + |ys - xs|;
    if xs != ys {
      assert ys - xs != {};
    }
  }

  lemma {:induction false} AtMostAll(selected: set<nat>, n: nat)
    requires selected <= All(n)
    ensures |selected| <= n
  {
    SubsetSize(selected, All(n));
  }

  /** Taking one more element out leaves fewer. */
  lemma {:induction false} OneFewer<T>(all: set<T>, out: set<T>, x: T)
    requires x in all && x !in out
    ensures |all - (out + {x})| < |all - out|
  {
    assert all - (out + {x}) == (all - out) - {x};
  }
}
