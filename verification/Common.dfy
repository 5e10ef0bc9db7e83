/** Result types and facts about set sizes shared by the other modules. */
module Common {
  datatype Option<+T> = None | Some(value: T)

  datatype Result<+T, +E> = Ok(value: T) | Err(error: E)

  lemma SubsetSize<X>(small: set<X>, big: set<X>)
    requires small <= big
    ensures |small| <= |big| && (small != big ==> |small| < |big|)
  {
    assert big == small + (big - small);
  }

  /** Two sets that agree on everything but x. */
  lemma SizeChange<X>(before: set<X>, after: set<X>, x: X)
    requires forall y :: y != x ==> (y in before <==> y in after)
    ensures |after| + (if x in before then 1 else 0) == |before| + if x in after then 1 else 0
  {
    assert after - {x} == before - {x};
    assert x in before ==> |before - {x}| == |before| - 1;
    assert x in after ==> |after - {x}| == |after| - 1;
    assert x !in before ==> before - {x} == before;
    assert x !in after ==> after - {x} == after;
  }
}
