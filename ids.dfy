/** The least element of a finite set of row ids, the order in which
    SQLite visits the rows of a table keyed by an integer primary key. */
module Ids {
  predicate IsLeast(m: int, ids: set<int>) {
    m in ids && forall j :: j in ids ==> m <= j
  }

  lemma HasElement(ids: set<int>)
    requires ids != {}
    ensures exists i :: i in ids
  {
    if forall i :: i in ids ==> false {
      assert false;
    }
  }

  lemma {:induction false} MinExists(ids: set<int>)
    requires ids != {}
    ensures exists m :: IsLeast(m, ids)
    decreases |ids|
  {
    HasElement(ids);
    var x :| x in ids;
    var rest := ids - {x};
    if rest == {} {
      assert forall j :: j in ids ==> j == x by {
        forall j | j in ids ensures j == x { assert j in rest || j == x; }
      }
      assert IsLeast(x, ids);
    } else {
      MinExists(rest);
      var m :| IsLeast(m, rest);
      var least := if x < m then x else m;
      forall j | j in ids ensures least <= j {
        if j != x { assert j in rest; }
      }
      assert IsLeast(least, ids);
    }
  }

  /** The smallest id of a non-empty set of ids. */
  function MinId(ids: set<int>): (m: int)
    requires ids != {}
    ensures IsLeast(m, ids)
  {
    MinExists(ids);
    var m :| IsLeast(m, ids);
    m
  }
}
