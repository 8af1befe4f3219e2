/** Names for calls and processes that have not been used yet. */
module FreshIds {
  /** Every number from the result on is unused. */
  ghost function AboveAll(ids: set<nat>): (n: nat)
    ensures forall i :: i in ids ==> i < n
  {
    if ids == {} then 0
    else
      var x :| x in ids;
      var n := AboveAll(ids - {x});
      assert forall i :: i in ids ==> i == x || i in ids - {x};
      if x < n then n else x + 1
  }
}
