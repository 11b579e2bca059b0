/** The least element of a non-empty set of integers. */
module Least {

  lemma EmptyOrInhabited(keys: set<int>)
    ensures keys == {} || exists x :: x in keys
  {
    if forall x :: x !in keys {
      assert keys == {};
    }
  }

  ghost function Earliest(keys: set<int>): (m: int)
    requires keys != {}
    ensures m in keys && forall k :: k in keys ==> m <= k
    decreases |keys|
  {
    EmptyOrInhabited(keys);
    var x :| x in keys;
    var rest := keys - {x};
    assert forall k :: k in keys ==> k == x || k in rest;
    if rest == {} then x
    else
      var m := Earliest(rest);
      if x < m then x else m
  }
}
