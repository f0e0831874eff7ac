/** Finite sets of day numbers, and the order in which the sources list them. */
module DateSets {
  lemma {:induction false} FindLeast(s: set<int>) returns (m: int)
    requires s != {}
    ensures m in s && forall d :: d in s ==> m <= d
    decreases s
  {
    assert (forall d :: d !in s) ==> s == {};
    var x: int :| x in s;
    m := x;
    var rest := s - {x};
    if rest != {} {
      var k := FindLeast(rest);
      m := if k < x then k else x;
    }
    forall d | d in s ensures m <= d {
      assert d == x || d in rest;
    }
  }

  lemma HasLeast(s: set<int>)
    requires s != {}
    ensures exists m :: m in s && forall d :: d in s ==> m <= d
  {
    var m := FindLeast(s);
  }

  function Least(s: set<int>): (m: int)
    requires s != {}
    ensures m in s && forall d :: d in s ==> m <= d
  {
    HasLeast(s);
    var m :| m in s && forall d :: d in s ==> m <= d;
    m
  }

  lemma {:induction false} FindGreatest(s: set<int>) returns (m: int)
    requires s != {}
    ensures m in s && forall d :: d in s ==> d <= m
    decreases s
  {
    assert (forall d :: d !in s) ==> s == {};
    var x: int :| x in s;
    m := x;
    var rest := s - {x};
    if rest != {} {
      var k := FindGreatest(rest);
      m := if k > x then k else x;
    }
    forall d | d in s ensures d <= m {
      assert d == x || d in rest;
    }
  }

  lemma HasGreatest(s: set<int>)
    requires s != {}
    ensures exists m :: m in s && forall d :: d in s ==> d <= m
  {
    var m := FindGreatest(s);
  }

  function Greatest(s: set<int>): (m: int)
    requires s != {}
    ensures m in s && forall d :: d in s ==> d <= m
  {
    HasGreatest(s);
    var m :| m in s && forall d :: d in s ==> d <= m;
    m
  }

  ghost predicate StrictlyAscending(s: seq<int>) { forall i, j :: 0 <= i < j < |s| ==> s[i] < s[j] }

  ghost predicate StrictlyDescending(s: seq<int>) { forall i, j :: 0 <= i < j < |s| ==> s[i] > s[j] }

  /** The members of `s`, oldest first: Python's sorted(). */
  function Ascending(s: set<int>): (r: seq<int>)
    ensures StrictlyAscending(r) && forall d :: d in r <==> d in s
    ensures |r| == |s|
    decreases |s|
  {
    if s == {} then [] else
      var m := Least(s);
      [m] + Ascending(s - {m})
  }

  /** The members of `s`, newest first. */
  function Descending(s: set<int>): (r: seq<int>)
    ensures StrictlyDescending(r) && forall d :: d in r <==> d in s
    ensures |r| == |s|
    decreases |s|
  {
    if s == {} then [] else
      var m := Greatest(s);
      [m] + Descending(s - {m})
  }
}
