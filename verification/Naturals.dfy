/** Finite sets of numbers leave some out. */
module Naturals {
  lemma Above(s: set<nat>) returns (n: nat)
    ensures forall x :: x in s ==> x < n
  {
    if s == {} {
      n := 0;
    } else {
      var x :| x in s;
      var m := Above(s - {x});
      n := if x < m then m else x + 1;
      assert forall y :: y in s ==> y == x || y in s - {x};
    }
  }
}
