/** Numbers not yet taken, for naming a call or a delivery that has not started. */
module Naturals {

  lemma FreshNat(used: set<nat>) returns (n: nat)
    ensures n !in used && forall u | u in used :: u < n
  {
    n := 0;
    var rest := used;
    while rest != {}
      invariant rest <= used
      invariant forall u | u in used && u !in rest :: u < n
      decreases rest
    {
      var u :| u in rest;
      n := if u < n then n else u + 1;
      rest := rest - {u};
    }
  }
}
