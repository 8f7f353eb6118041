/** Numbers not used yet, for naming one more thing. */
module FreshNumbers {
  /** A number above all those used. */
  ghost function Unused(used: set<nat>): (n: nat)
    ensures forall u | u in used :: u < n
  {
    if used == {} then 0
    else
      var first :| first in used;
      var rest := used - {first};
      assert forall u | u in used :: u == first || u in rest;
      var n := Unused(rest);
      if n <= first then first + 1 else n
  }

  method Fresh(used: set<nat>) returns (n: nat)
    ensures n !in used
  {
    n := 0;
    var todo := used;
    while todo != {}
      invariant forall u | u in used :: u in todo || u < n
    {
      var u :| u in todo;
      todo := todo - {u};
      n := if n <= u then u + 1 else n;
    }
  }
}
