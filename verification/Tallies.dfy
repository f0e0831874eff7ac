/** Counting and adding up the elements of a list that have a property, whatever
    position they are at. */
module Tallies {

  /** How many positions hold an element with the property. */
  function Tally<T>(xs: seq<T>, p: T -> bool): nat {
    if xs == [] then 0 else (if p(xs[0]) then 1 else 0) + Tally(xs[1..], p)
  }

  /** A quantity added up over those positions. */
  function Total<T>(xs: seq<T>, p: T -> bool, amount: T -> real): real {
    if xs == [] then 0.0 else (if p(xs[0]) then amount(xs[0]) else 0.0) + Total(xs[1..], p, amount)
  }

  function Headcount<T>(xs: seq<T>, p: T -> bool, amount: T -> int): int {
    if xs == [] then 0 else (if p(xs[0]) then amount(xs[0]) else 0) + Headcount(xs[1..], p, amount)
  }

  lemma {:induction false} TallySame<T(!new)>(xs: seq<T>, p: T -> bool, q: T -> bool)
    requires forall x :: p(x) == q(x)
    ensures Tally(xs, p) == Tally(xs, q)
  {
    if xs != [] { TallySame(xs[1..], p, q); }
  }

  lemma TallyFirst<T>(xs: seq<T>, p: T -> bool)
    requires xs != []
    ensures Tally(xs, p) == (if p(xs[0]) then 1 else 0) + Tally(xs[1..], p)
  {}

  lemma TotalFirst<T>(xs: seq<T>, p: T -> bool, amount: T -> real)
    requires xs != []
    ensures Total(xs, p, amount) == (if p(xs[0]) then amount(xs[0]) else 0.0) + Total(xs[1..], p, amount)
  {}

  lemma TallyAppend<T>(xs: seq<T>, x: T, p: T -> bool)
    ensures Tally(xs + [x], p) == Tally(xs, p) + if p(x) then 1 else 0
  {
    if xs == [] {
      assert [x][1..] == [];
    } else {
      TallyAppend(xs[1..], x, p);
      assert (xs + [x])[1..] == xs[1..] + [x];
    }
  }

  lemma TotalAppend<T>(xs: seq<T>, x: T, p: T -> bool, amount: T -> real)
    ensures Total(xs + [x], p, amount) == Total(xs, p, amount) + if p(x) then amount(x) else 0.0
  {
    if xs == [] {
      assert [x][1..] == [];
    } else {
      TotalAppend(xs[1..], x, p, amount);
      assert (xs + [x])[1..] == xs[1..] + [x];
    }
  }

  lemma HeadcountAppend<T>(xs: seq<T>, x: T, p: T -> bool, amount: T -> int)
    ensures Headcount(xs + [x], p, amount) == Headcount(xs, p, amount) + if p(x) then amount(x) else 0
  {
    if xs == [] {
      assert [x][1..] == [];
    } else {
      HeadcountAppend(xs[1..], x, p, amount);
      assert (xs + [x])[1..] == xs[1..] + [x];
    }
  }

  lemma OneMorePosition(before: set<int>, at: set<int>, last: int, added: bool)
    requires last !in before && forall i :: i in at <==> i in before || (added && i == last)
    ensures |at| == |before| + if added then 1 else 0
  {
    var all := if added then before + {last} else before;
    assert at == all by {
      forall i ensures i in at <==> i in all {}
    }
  }

  /** The tally is the number of those positions. */
  lemma {:induction false} TallyCounts<T>(xs: seq<T>, p: T -> bool)
    ensures Tally(xs, p) == |set i | 0 <= i < |xs| && p(xs[i])|
    decreases |xs|
  {
    var at := set i | 0 <= i < |xs| && p(xs[i]);
    if xs == [] {
      assert at == {};
    } else {
      var last := |xs| - 1;
      var front := xs[..last];
      TallyCounts(front, p);
      TallyAppend(front, xs[last], p);
      assert xs == front + [xs[last]];
      var before := set i | 0 <= i < |front| && p(front[i]);
      OneMorePosition(before, at, last, p(xs[last]));
    }
  }

  // ---------------------------------------------------------------- over a selection

  /** What is made of the elements kept, in their order. */
  function Pick<T, E>(xs: seq<T>, keep: T -> bool, make: T -> E): seq<E> {
    if xs == [] then [] else (if keep(xs[0]) then [make(xs[0])] else []) + Pick(xs[1..], keep, make)
  }

  /** One element kept, or none, in front of others. */
  lemma AfterOne<E>(first: seq<E>, rest: seq<E>)
    requires |first| <= 1
    ensures first == [] ==> first + rest == rest
    ensures first != [] ==> (first + rest)[0] == first[0] && (first + rest)[1..] == rest
  {}

  lemma {:induction false} TallyOfPick<T(!new), E>(xs: seq<T>, keep: T -> bool, make: T -> E, p: E -> bool,
                                                   q: T -> bool)
    requires forall x :: q(x) == (keep(x) && p(make(x)))
    ensures Tally(Pick(xs, keep, make), p) == Tally(xs, q)
  {
    if xs != [] {
      TallyOfPick(xs[1..], keep, make, p, q);
      AfterOne(if keep(xs[0]) then [make(xs[0])] else [], Pick(xs[1..], keep, make));
      hide Tally;
      TallyFirst(xs, q);
      if keep(xs[0]) { TallyFirst(Pick(xs, keep, make), p); }
    }
  }

  lemma {:induction false} TotalOfPick<T(!new), E>(xs: seq<T>, keep: T -> bool, make: T -> E, p: E -> bool,
                                                   v: E -> real, q: T -> bool, w: T -> real)
    requires forall x :: q(x) == (keep(x) && p(make(x)))
    requires forall x :: q(x) ==> w(x) == v(make(x))
    ensures Total(Pick(xs, keep, make), p, v) == Total(xs, q, w)
  {
    if xs != [] {
      TotalOfPick(xs[1..], keep, make, p, v, q, w);
      AfterOne(if keep(xs[0]) then [make(xs[0])] else [], Pick(xs[1..], keep, make));
    }
  }

  lemma {:induction false} HeadcountOfPick<T(!new), E>(xs: seq<T>, keep: T -> bool, make: T -> E, p: E -> bool,
                                                       v: E -> int, q: T -> bool, w: T -> int)
    requires forall x :: q(x) == (keep(x) && p(make(x)))
    requires forall x :: q(x) ==> w(x) == v(make(x))
    ensures Headcount(Pick(xs, keep, make), p, v) == Headcount(xs, q, w)
  {
    if xs != [] {
      HeadcountOfPick(xs[1..], keep, make, p, v, q, w);
      AfterOne(if keep(xs[0]) then [make(xs[0])] else [], Pick(xs[1..], keep, make));
    }
  }
}
