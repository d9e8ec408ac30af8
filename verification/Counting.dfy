/** Counting positions one at a time. */
module Counting {
  /** A set that may gain one element gains one in size. */
  lemma OneMore(few: set<int>, all: set<int>, m: int, more: bool)
    requires m !in few
    requires forall i :: i in all <==> i in few || (more && i == m)
    ensures |all| == |few| + if more then 1 else 0
  {
    var grown := if more then few + {m} else few;
    forall i
      ensures i in all <==> i in grown
    {
    }
    assert all == grown;
  }
}
