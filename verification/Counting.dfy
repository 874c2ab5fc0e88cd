/** A fact about finite sets that several parts of the model need. */
module Counting {

  lemma {:induction false} BoundedSet(a: set<nat>, n: nat)
    requires forall k :: k in a ==> k < n
    ensures |a| <= n
  {
    if n > 0 {
      BoundedSet(a - {n - 1}, n - 1);
    } else {
      assert a == {};
    }
  }
}
