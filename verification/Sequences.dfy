/** Membership in a sequence of numbers, by position. */
module Sequences {
  predicate Occurs(ids: seq<nat>, x: nat) {
    exists i | 0 <= i < |ids| :: ids[i] == x
  }

  lemma {:induction false} OccursInLonger(ids: seq<nat>, last: nat, x: nat)
    ensures Occurs(ids + [last], x) <==> Occurs(ids, x) || x == last
  {
    assert (ids + [last])[|ids|] == last;
    if Occurs(ids, x) {
      var i :| 0 <= i < |ids| && ids[i] == x;
      assert (ids + [last])[i] == x;
    }
  }
}
