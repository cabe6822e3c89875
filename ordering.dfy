/**
 * Row order of query results. A SELECT without ORDER BY returns its rows in an
 * order PostgreSQL does not specify; the model fixes one: ascending subscriber id.
 */
module Ordering {

  lemma Inhabited(s: set<int>)
    ensures s == {} || exists y :: y in s
  {
    if !exists y :: y in s {
      assert s == {};
    }
  }

  ghost predicate IsMin(m: int, s: set<int>)
  {
    m in s && forall x | x in s :: m <= x
  }

  lemma {:induction false} MinExists(s: set<int>)
    requires s != {}
    ensures exists m :: IsMin(m, s)
    decreases |s|
  {
    Inhabited(s);
    var y :| y in s;
    var rest := s - {y};
    if rest == {} {
      assert s == {y};
      assert IsMin(y, s);
    } else {
      MinExists(rest);
      var m :| IsMin(m, rest);
      var w := if y < m then y else m;
      assert s == rest + {y};
      assert IsMin(w, s);
    }
  }

  function Min(s: set<int>): (m: int)
    requires s != {}
    ensures IsMin(m, s)
  {
    MinExists(s);
    var m :| m in s && forall x | x in s :: m <= x; m
  }

  /** The elements of `s`, each once, in strictly increasing order. */
  function Ascending(s: set<int>): (r: seq<int>)
    ensures |r| == |s|
    ensures forall i | 0 <= i < |r| :: r[i] in s
    ensures forall x | x in s :: x in r
    ensures forall i, j | 0 <= i < j < |r| :: r[i] < r[j]
    decreases |s|
  {
    if s == {} then []
    else
      var m := Min(s);
      [m] + Ascending(s - {m})
  }
}
