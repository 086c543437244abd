/** Finite sets of numbers leave numbers unused. */
module FreshNumbers {

  lemma UnusedNumber(used: set<nat>) returns (n: nat)
    ensures n !in used && forall m :: m in used ==> m < n
  {
    if used == {} {
      n := 0;
    } else {
      var k :| k in used;
      var below := UnusedNumber(used - {k});
      n := if below > k then below else k + 1;
      assert forall m :: m in used ==> m == k || m in used - {k};
    }
  }
}
