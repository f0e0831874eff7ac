/** Stored index series: windows cut out of them, the returns inside a window and
    the worst fall inside it.

    Days are day numbers, values exact reals before any rounding. */
module IndexSeries {
  import opened Reals
  import opened Wrappers

  datatype Point = Point(day: int, value: real, repeats: bool)

  ghost predicate Ascending<T(!new)>(s: seq<T>, day: T -> int) {
    forall i, j :: 0 <= i < j < |s| ==> day(s[i]) < day(s[j])
  }

  ghost predicate Positive(s: seq<Point>) { forall i :: 0 <= i < |s| ==> s[i].value > 0.0 }

  function PointDay(): Point -> int { (p: Point) => p.day }

  // ---------------------------------------------------------------- searching

  /** The first index at which `p` holds, or the length. */
  function Search<T(!new)>(s: seq<T>, p: T -> bool): (i: nat)
    ensures i <= |s| && (i < |s| ==> p(s[i]))
    ensures forall k :: 0 <= k < i ==> !p(s[k])
  {
    if s == [] || p(s[0]) then 0
    else
      var rest := Search(s[1..], p);
      assert forall k :: 1 <= k < rest + 1 ==> s[k] == s[1..][k-1];
      rest + 1
  }

  /** How many points are dated no later than `d`, in an ascending series. */
  function After<T(!new)>(s: seq<T>, day: T -> int, d: int): nat { Search(s, (x: T) => day(x) > d) }

  /** Where the points dated `d` or later begin. */
  function From<T(!new)>(s: seq<T>, day: T -> int, d: int): nat { Search(s, (x: T) => !(day(x) < d)) }

  /** The value an index stood at on a day: its last point at or before it. */
  function InForce<T(!new)>(s: seq<T>, day: T -> int, d: int): (r: Option<T>) {
    var i := After(s, day, d);
    if i > 0 && i <= |s| then Some(s[i-1]) else None
  }

  /** A search splits an ascending series. */
  lemma Splits<T(!new)>(s: seq<T>, day: T -> int, d: int)
    requires Ascending(s, day)
    ensures After(s, day, d) <= |s| && From(s, day, d) <= |s|
    ensures forall k :: 0 <= k < |s| ==> (k < After(s, day, d) <==> day(s[k]) <= d)
    ensures forall k :: 0 <= k < |s| ==> (k < From(s, day, d) <==> day(s[k]) < d)
  {}

  /** In force on a day is the newest point not after it. */
  lemma InForceIsNewest<T(!new)>(s: seq<T>, day: T -> int, d: int)
    requires Ascending(s, day)
    ensures InForce(s, day, d).None? <==> forall x :: x in s ==> day(x) > d
    ensures InForce(s, day, d).Some? ==>
      var x := InForce(s, day, d).value;
      x in s && day(x) <= d && forall y :: y in s && day(y) <= d ==> day(y) <= day(x)
  {
    Splits(s, day, d);
  }

  // ---------------------------------------------------------------- windows

  function Slice<T>(s: seq<T>, lo: nat, hi: nat): seq<T> { if lo < hi <= |s| then s[lo..hi] else [] }

  function Between<T(!new)>(s: seq<T>, day: T -> int, from: Option<int>, to: int): seq<T> {
    Slice(s, if from.Some? then From(s, day, from.value) else 0, After(s, day, to))
  }

  /** The window, opened with the value in force when it begins. */
  function WithBase<T(!new)>(s: seq<T>, day: T -> int, from: Option<int>, to: int): seq<T> {
    var w := Between(s, day, from, to);
    if from.None? then w
    else
      var base := InForce(s, day, from.value);
      if base.None? || (w != [] && day(w[0]) == day(base.value)) then w else [base.value] + w
  }

  /** The same rule as one search and a step back. */
  function PairsInWindow<T(!new)>(s: seq<T>, day: T -> int, from: Option<int>, to: int): seq<T> {
    var hi := After(s, day, to);
    if from.None? then Slice(s, 0, hi)
    else
      var lo := From(s, day, from.value);
      var start := if lo > 0 && (lo >= |s| || day(s[lo]) != from.value) then lo - 1 else lo;
      Slice(s, start, hi)
  }

  /** Where a window opens. */
  function Opening<T(!new)>(s: seq<T>, day: T -> int, from: Option<int>): nat {
    if from.None? then 0 else var a := After(s, day, from.value); if a == 0 then 0 else a - 1
  }

  lemma AroundOpening<T(!new)>(s: seq<T>, day: T -> int, f: int)
    requires Ascending(s, day)
    ensures var a, l := After(s, day, f), From(s, day, f);
      l <= a <= l + 1 && (a == l + 1 <==> l < |s| && day(s[l]) == f)
  {
    Splits(s, day, f);
    var a, l := After(s, day, f), From(s, day, f);
    if a > 0 && a < |s| { assert day(s[a-1]) < day(s[a]); }
    if l + 1 < |s| { assert day(s[l]) < day(s[l+1]); }
  }

  /** A window that does not end before it begins is a contiguous stretch of the
      series: it starts at the value in force and stops at the last point not
      after its end. */
  lemma WithBaseIsContiguous<T(!new)>(s: seq<T>, day: T -> int, from: Option<int>, to: int)
    requires Ascending(s, day) && (from.Some? ==> from.value <= to)
    ensures Opening(s, day, from) <= After(s, day, to) <= |s|
    ensures WithBase(s, day, from, to) == s[Opening(s, day, from)..After(s, day, to)]
  {
    Splits(s, day, to);
    if from.Some? { ForwardWindow(s, day, from.value, to); }
  }

  lemma ForwardWindow<T(!new)>(s: seq<T>, day: T -> int, f: int, to: int)
    requires Ascending(s, day) && f <= to
    ensures Opening(s, day, Some(f)) <= After(s, day, to) <= |s|
    ensures WithBase(s, day, Some(f), to) == s[Opening(s, day, Some(f))..After(s, day, to)]
  {
    hide Ascending, After, From, WithBase, InForce;
    AroundOpening(s, day, f);
    LaterSplitsLater(s, day, f, to);
    var a, l, h := After(s, day, f), From(s, day, f), After(s, day, to);
    if l <= h { BaseAndRest(s, day, f, to); }
    if a > 0 && l == a {
      assert [s[a-1]] + s[a..h] == s[a-1..h];
      if l < h { LaterDay(s, day, a); }
    }
  }

  /** A window with its base, by the two searches that bound it. */
  lemma BaseAndRest<T(!new)>(s: seq<T>, day: T -> int, f: int, to: int)
    requires From(s, day, f) <= After(s, day, to) <= |s| && After(s, day, f) <= |s|
    ensures var a, l, h := After(s, day, f), From(s, day, f), After(s, day, to);
      WithBase(s, day, Some(f), to)
      == if a == 0 || (l < h && day(s[l]) == day(s[a-1])) then s[l..h] else [s[a-1]] + s[l..h]
  {
    hide After, From;
    SliceIs(s, From(s, day, f), After(s, day, to));
  }

  lemma SliceIs<T>(s: seq<T>, lo: nat, hi: nat)
    requires lo <= hi <= |s|
    ensures Slice(s, lo, hi) == s[lo..hi]
  {}

  lemma LaterDay<T(!new)>(s: seq<T>, day: T -> int, i: nat)
    requires Ascending(s, day) && 0 < i < |s|
    ensures day(s[i]) > day(s[i-1])
  {}

  lemma ForwardPairs<T(!new)>(s: seq<T>, day: T -> int, f: int, to: int)
    requires Ascending(s, day) && f <= to
    ensures Opening(s, day, Some(f)) <= After(s, day, to) <= |s|
    ensures PairsInWindow(s, day, Some(f), to) == s[Opening(s, day, Some(f))..After(s, day, to)]
  {
    AroundOpening(s, day, f);
    LaterSplitsLater(s, day, f, to);
  }

  lemma LaterSplitsLater<T(!new)>(s: seq<T>, day: T -> int, f: int, to: int)
    requires Ascending(s, day) && f <= to
    ensures After(s, day, f) <= After(s, day, to) <= |s|
  {
    Splits(s, day, f);
    Splits(s, day, to);
    var h := After(s, day, to);
    var stop := if h < |s| then day(s[h]) else to + 1;
    assert stop > to;
  }

  /** The two window rules select the same points exactly when the window has no
      base, or its base does not lie past its end. */
  lemma SameWindowExactly<T(!new)>(s: seq<T>, day: T -> int, from: Option<int>, to: int)
    requires Ascending(s, day)
    ensures PairsInWindow(s, day, from, to) == WithBase(s, day, from, to) <==>
            from.None? || InForce(s, day, from.value).None? || day(InForce(s, day, from.value).value) <= to
  {
    Splits(s, day, to);
    if from.Some? {
      Splits(s, day, from.value);
      if from.value <= to {
        ForwardWindow(s, day, from.value, to);
        ForwardPairs(s, day, from.value, to);
      } else {
        BackwardsWindow(s, day, from.value, to);
      }
    }
  }

  /** What a window holds, on the days: everything from its start to its end, and the
      newest point not after its start, which it opens with. */
  lemma WindowOnDays<T(!new)>(s: seq<T>, day: T -> int, from: Option<int>, to: int)
    requires Ascending(s, day)
    ensures Ascending(WithBase(s, day, from, to), day)
    ensures forall x :: x in WithBase(s, day, from, to) <==>
        x in s && (((from.Some? ==> from.value <= day(x)) && day(x) <= to)
                   || (from.Some? && day(x) <= from.value
                       && forall y :: y in s && day(y) <= from.value ==> day(y) <= day(x)))
  {
    hide InForce, Between;
    if from.Some? { InForceIsNewest(s, day, from.value); }
    BetweenOnDays(s, day, from, to);
    var w, all := Between(s, day, from, to), WithBase(s, day, from, to);
    if from.Some? && InForce(s, day, from.value).Some? {
      var base := InForce(s, day, from.value).value;
      OnePerDay(s, day);
      if all != w {
        assert forall x :: x in all <==> x == base || x in w;
        forall k | 0 <= k < |w| ensures day(base) < day(w[k]) {
          assert w[k] in w;
          assert k > 0 ==> day(w[0]) < day(w[k]);
        }
      } else {
        assert w[0] in w;
      }
    }
  }

  lemma OnePerDay<T(!new)>(s: seq<T>, day: T -> int)
    requires Ascending(s, day)
    ensures forall x, y :: x in s && y in s && day(x) == day(y) ==> x == y
  {}

  lemma BetweenOnDays<T(!new)>(s: seq<T>, day: T -> int, from: Option<int>, to: int)
    requires Ascending(s, day)
    ensures Ascending(Between(s, day, from, to), day)
    ensures forall x ::
        x in Between(s, day, from, to) <==> x in s && (from.Some? ==> from.value <= day(x)) && day(x) <= to
  {
    hide After, From;
    Splits(s, day, to);
    if from.Some? { Splits(s, day, from.value); }
    var lo, hi := if from.Some? then From(s, day, from.value) else 0, After(s, day, to);
    var w := Between(s, day, from, to);
    if lo < hi {
      forall x | x in s && (from.Some? ==> from.value <= day(x)) && day(x) <= to ensures x in w {
        var k :| 0 <= k < |s| && s[k] == x;
        assert w[k-lo] == x;
      }
    }
  }

  /** One point and a window that runs backwards past it: the index's window keeps its
      base, the pairs' window is empty. */
  lemma BackwardWindowDiffers(day: int, value: real)
    ensures var s := [Point(day, value, false)];
      && Ascending(s, PointDay())
      && WithBase(s, PointDay(), Some(day + 1), day - 1) == s
      && PairsInWindow(s, PointDay(), Some(day + 1), day - 1) == []
  {
    var s := [Point(day, value, false)];
    assert PointDay()(s[0]) == day;
    Splits(s, PointDay(), day + 1);
    BackwardsWindow(s, PointDay(), day + 1, day - 1);
  }

  lemma BackwardsBounds<T(!new)>(s: seq<T>, day: T -> int, f: int, to: int)
    requires Ascending(s, day) && to < f
    ensures After(s, day, to) <= From(s, day, f) <= After(s, day, f) <= |s|
    ensures var a := After(s, day, f); a > 0 && day(s[a-1]) <= to ==> After(s, day, to) == a
  {
    AroundOpening(s, day, f);
    Splits(s, day, to);
    Splits(s, day, f);
    var l := From(s, day, f);
    var stop := if l < |s| then day(s[l]) else f;
    assert stop >= f;
  }

  lemma BackwardsWindow<T(!new)>(s: seq<T>, day: T -> int, f: int, to: int)
    requires Ascending(s, day) && to < f
    ensures WithBase(s, day, Some(f), to) == if After(s, day, f) == 0 then [] else [s[After(s, day, f)-1]]
    ensures PairsInWindow(s, day, Some(f), to)
         == if After(s, day, f) == 0 || day(s[After(s, day, f)-1]) > to then [] else [s[After(s, day, f)-1]]
  {
    BackwardsBounds(s, day, f, to);
    AroundOpening(s, day, f);
    var a := After(s, day, f);
    if a > 0 {
      assert s[a-1..a] == [s[a-1]];
      assert [s[a-1]] + [] == [s[a-1]];
      BackwardsPairs(s, day, f, to);
    }
  }

  lemma BackwardsPairs<T(!new)>(s: seq<T>, day: T -> int, f: int, to: int)
    requires Ascending(s, day) && to < f && After(s, day, f) > 0
    ensures var a := After(s, day, f);
      PairsInWindow(s, day, Some(f), to) == if day(s[a-1]) > to then [] else s[a-1..a]
  {
    BackwardsBounds(s, day, f, to);
    AroundOpening(s, day, f);
    var a, h := After(s, day, f), After(s, day, to);
    assert h == a || h < a;
    if h == a {
      Splits(s, day, to);
      assert day(s[a-1]) <= to;
    } else {
      Splits(s, day, to);
      assert day(s[a-1]) > to;
    }
  }

  // ---------------------------------------------------------------- two series on their common dates

  datatype Paired = Paired(day: int, cap: Point, eq: Point)

  function PairedDay(): Paired -> int { (p: Paired) => p.day }

  ghost predicate IsPair(cap: seq<Point>, eq: seq<Point>, p: Paired) {
    p.cap in cap && p.eq in eq && p.day == p.cap.day == p.eq.day
  }

  ghost predicate IndexesByDay(byDay: map<int, Point>, s: seq<Point>) {
    && (forall d :: d in byDay ==> byDay[d] in s && byDay[d].day == d)
    && (forall e :: e in s ==> e.day in byDay)
  }

  method IndexByDay(s: seq<Point>) returns (byDay: map<int, Point>)
    ensures IndexesByDay(byDay, s)
  {
    byDay := map[];
    for i := 0 to |s|
      invariant IndexesByDay(byDay, s[..i])
    {
      assert s[..i+1] == s[..i] + [s[i]];
      byDay := byDay[s[i].day := s[i]];
    }
    assert s[..|s|] == s;
  }

  /** What the first points of `cap` make pairs of. */
  ghost predicate PairsUpTo(cap: seq<Point>, byDay: map<int, Point>, i: nat, out: seq<Paired>)
    requires i <= |cap|
  {
    && (forall p :: p in out ==> exists k :: 0 <= k < i && PairAt(cap, byDay, k, p))
    && (forall k :: 0 <= k < i && cap[k].day in byDay ==> Paired(cap[k].day, cap[k], byDay[cap[k].day]) in out)
    && Ascending(out, PairedDay())
  }

  predicate PairAt(cap: seq<Point>, byDay: map<int, Point>, k: nat, p: Paired)
    requires k < |cap|
  {
    cap[k].day in byDay && p == Paired(cap[k].day, cap[k], byDay[cap[k].day])
  }

  lemma PairsGrow(cap: seq<Point>, byDay: map<int, Point>, i: nat, out: seq<Paired>)
    requires i < |cap| && Ascending(cap, PointDay()) && PairsUpTo(cap, byDay, i, out)
    ensures PairsUpTo(cap, byDay, i + 1,
                      if cap[i].day in byDay then out + [Paired(cap[i].day, cap[i], byDay[cap[i].day])] else out)
  {
    if cap[i].day in byDay {
      var pair := Paired(cap[i].day, cap[i], byDay[cap[i].day]);
      assert PairAt(cap, byDay, i, pair);
      forall j | 0 <= j < |out| ensures out[j].day < pair.day {
        assert out[j] in out;
        var k :| 0 <= k < i && PairAt(cap, byDay, k, out[j]);
        assert PointDay()(cap[k]) < PointDay()(cap[i]);
      }
    }
  }

  /** The two series on the dates both carry, in date order. */
  method PairSeries(cap: seq<Point>, eq: seq<Point>) returns (out: seq<Paired>)
    requires Ascending(cap, PointDay()) && Ascending(eq, PointDay())
    ensures forall p :: p in out <==> IsPair(cap, eq, p)
    ensures Ascending(out, PairedDay())
  {
    var byDay := IndexByDay(eq);
    out := [];
    for i := 0 to |cap|
      invariant PairsUpTo(cap, byDay, i, out)
    {
      PairsGrow(cap, byDay, i, out);
      if cap[i].day in byDay {
        out := out + [Paired(cap[i].day, cap[i], byDay[cap[i].day])];
      }
    }
    PairsAreAll(cap, eq, byDay, out);
  }

  lemma PairsAreAll(cap: seq<Point>, eq: seq<Point>, byDay: map<int, Point>, out: seq<Paired>)
    requires Ascending(eq, PointDay()) && IndexesByDay(byDay, eq) && PairsUpTo(cap, byDay, |cap|, out)
    ensures forall p :: p in out <==> IsPair(cap, eq, p)
  {
    forall p | IsPair(cap, eq, p) ensures p in out {
      OnePointPerDay(eq, p.eq, byDay[p.day]);
      var k :| 0 <= k < |cap| && cap[k] == p.cap;
    }
    forall p | p in out ensures IsPair(cap, eq, p) {
      var k :| 0 <= k < |cap| && PairAt(cap, byDay, k, p);
    }
  }

  lemma OnePointPerDay(s: seq<Point>, a: Point, b: Point)
    requires Ascending(s, PointDay()) && a in s && b in s && a.day == b.day
    ensures a == b
  {
    var i :| 0 <= i < |s| && s[i] == a;
    var j :| 0 <= j < |s| && s[j] == b;
    assert PointDay()(s[i]) == PointDay()(s[j]);
  }

  // ---------------------------------------------------------------- unchanged points

  /** Every point flagged when it repeats its predecessor. */
  function Marked(s: seq<Point>): (m: seq<Point>)
    ensures |m| == |s|
  {
    seq(|s|, i requires 0 <= i < |s| => s[i].(repeats := i > 0 && s[i].value == s[i-1].value))
  }

  method MarkUnchanged(a: array<Point>)
    modifies a
    ensures a[..] == Marked(old(a[..]))
    ensures forall i :: 0 <= i < a.Length ==> a[i].day == old(a[i].day) && a[i].value == old(a[i].value)
    ensures forall i :: 0 <= i < a.Length ==> (a[i].repeats <==> i > 0 && old(a[i].value) == old(a[i-1].value))
  {
    ghost var s := a[..];
    for i := 0 to a.Length
      invariant forall k :: 0 <= k < i ==> a[k] == Marked(s)[k]
      invariant forall k :: i <= k < a.Length ==> a[k] == s[k]
    {
      assert i > 0 ==> a[i-1].value == s[i-1].value;
      a[i] := a[i].(repeats := i > 0 && a[i].value == a[i-1].value);
    }
  }

  /** Past its first point, a series is flagged rightly. */
  ghost predicate RightlyMarked(s: seq<Point>) {
    forall i :: 1 <= i < |s| ==> MarkedAt(s, i)
  }

  predicate MarkedAt(s: seq<Point>, i: nat)
    requires 1 <= i < |s|
  {
    s[i].repeats <==> s[i].value == s[i-1].value
  }

  lemma MarkedIsRight(s: seq<Point>)
    ensures RightlyMarked(Marked(s))
  {
    forall i | 1 <= i < |s| ensures MarkedAt(Marked(s), i) {}
  }

  /** Any stretch of a rightly flagged series is flagged rightly. */
  lemma StretchOfMarked(s: seq<Point>, lo: nat)
    requires RightlyMarked(s) && lo <= |s|
    ensures RightlyMarked(s[lo..])
  {
    forall i | 1 <= i < |s| - lo ensures MarkedAt(s[lo..], i) {
      assert MarkedAt(s, lo + i);
    }
  }

  // ---------------------------------------------------------------- returns

  function ReturnAt(s: seq<Point>, i: nat): (r: seq<real>)
    requires 1 <= i < |s|
  {
    if s[i].repeats || s[i-1].value <= 0.0 then [] else [s[i].value / s[i-1].value - 1.0]
  }

  /** The simple returns between consecutive points, unchanged points skipped. */
  function Returns(s: seq<Point>): seq<real> {
    if |s| <= 1 then [] else Returns(s[..|s|-1]) + ReturnAt(s, |s| - 1)
  }

  lemma NoReturnYet(s: seq<Point>)
    ensures |s| <= 1 ==> Returns(s) == []
    ensures s != [] ==> Returns(s[..1]) == []
  {}

  lemma OneReturnMore(s: seq<Point>, i: nat)
    requires 1 <= i < |s|
    ensures Returns(s[..i+1]) == Returns(s[..i]) + ReturnAt(s, i)
  {
    assert s[..i+1][..i] == s[..i];
  }

  /** The positions whose return counts: a point that moved, after a positive one. */
  predicate Moved(s: seq<Point>, i: int) { 1 <= i < |s| && !s[i].repeats && s[i-1].value > 0.0 }

  ghost predicate StrictlyAscending(at: seq<int>) { forall i, j :: 0 <= i < j < |at| ==> at[i] < at[j] }

  /** One return for each of those positions, in order, and nothing else: what turns
      the value before into the value there. */
  ghost predicate AreReturns(s: seq<Point>, n: nat, at: seq<int>, out: seq<real>)
    requires n <= |s|
  {
    && |at| == |out| && StrictlyAscending(at)
    && (forall i :: i in at <==> i < n && Moved(s, i))
    && forall k {:trigger out[k]} {:trigger at[k]} :: 0 <= k < |out| && 0 <= at[k] - 1 < |s| - 1 ==>
         (1.0 + out[k]) * s[at[k]-1].value == s[at[k]].value
  }

  lemma ReturnMore(s: seq<Point>, i: nat, at: seq<int>, out: seq<real>)
    requires 1 <= i < |s| && AreReturns(s, i, at, out)
    ensures if Moved(s, i) then AreReturns(s, i + 1, at + [i], out + [s[i].value / s[i-1].value - 1.0])
            else AreReturns(s, i + 1, at, out)
  {
    if Moved(s, i) {
      var first, last := s[i-1].value, s[i].value;
      assert last / first * first == last;
      forall k | 0 <= k < |at| ensures at[k] < i { assert at[k] in at; }
    }
  }

  method SessionReturns(s: seq<Point>) returns (out: seq<real>, ghost at: seq<int>)
    ensures out == Returns(s)
    ensures AreReturns(s, |s|, at, out)
  {
    hide Returns, AreReturns;
    out, at := [], [];
    NoReturnYet(s);
    NoPositionYet(s);
    if s == [] { return; }
    for i := 1 to |s|
      invariant out == Returns(s[..i]) && AreReturns(s, i, at, out)
    {
      OneReturnMore(s, i);
      ReturnMore(s, i, at, out);
      if s[i].repeats || s[i-1].value <= 0.0 {
        continue;
      }
      out, at := out + [s[i].value / s[i-1].value - 1.0], at + [i];
    }
    assert s[..|s|] == s;
  }

  lemma NoPositionYet(s: seq<Point>)
    ensures AreReturns(s, if s == [] then 0 else 1, [], [])
  {}

  /** One plus the return of holding through all of them. */
  function Compounded(moves: seq<real>): real {
    if moves == [] then 1.0 else Compounded(moves[..|moves|-1]) * (1.0 + moves[|moves|-1])
  }

  lemma CompoundOne(moves: seq<real>, more: seq<real>)
    requires |more| <= 1
    ensures Compounded(moves + more) == if more == [] then Compounded(moves) else Compounded(moves) * (1.0 + more[0])
  {
    if more == [] {
      assert moves + more == moves;
    } else {
      assert (moves + more)[..|moves|] == moves;
    }
  }

  /** Holding through the moves turns `first` into `last`. */
  predicate Carries(moves: seq<real>, first: real, last: real) { Compounded(moves) * first == last }

  lemma CarriesOneMore(moves: seq<real>, first: real, previous: real, last: real)
    requires previous > 0.0 && Carries(moves, first, previous)
    ensures Carries(moves + [last / previous - 1.0], first, last)
  {
    CompoundOne(moves, [last / previous - 1.0]);
    Chains(Compounded(moves), first, previous, last);
  }

  lemma Chains(c: real, first: real, previous: real, last: real)
    requires previous > 0.0 && c * first == previous
    ensures (c * (1.0 + (last / previous - 1.0))) * first == last
  {
    var q := last / previous;
    assert previous * q == last;
    assert (c * q) * first == (c * first) * q;
  }

  lemma CarriesPast(moves: seq<real>, first: real, s: seq<Point>, i: nat)
    requires 1 <= i < |s| && s[i-1].value > 0.0 && MarkedAt(s, i) && Carries(moves, first, s[i-1].value)
    ensures Carries(moves + ReturnAt(s, i), first, s[i].value)
  {
    if s[i].repeats {
      assert moves + [] == moves;
    } else {
      CarriesOneMore(moves, first, s[i-1].value, s[i].value);
    }
  }

  /** Although it skips every unchanged point, the compounding loses nothing: it is
      the last value over the first. */
  lemma {:induction false} ReturnsCompoundExactly(s: seq<Point>)
    requires s != [] && Positive(s) && RightlyMarked(s)
    ensures Carries(Returns(s), s[0].value, s[|s|-1].value)
    decreases |s|
  {
    if |s| > 1 {
      var n := |s| - 1;
      var front := s[..n];
      forall i | 1 <= i < n ensures MarkedAt(front, i) { assert MarkedAt(s, i); }
      ReturnsCompoundExactly(front);
      CarriesPast(Returns(front), s[0].value, s, n);
    }
  }

  datatype NoReturn = TooShort(sessions: nat) | BeginsLater | NothingAfter | ZeroBase

  function PctChange(first: real, last: real): real
    requires first != 0.0
  {
    (last / first - 1.0) * 100.0
  }

  /** The change in percent from the value in force at `start` to the last point. */
  function WindowReturn(s: seq<Point>, start: int): (r: Result<real, NoReturn>) {
    if |s| < 2 then Err(TooShort(|s|))
    else
      var base := InForce(s, PointDay(), start);
      if base.None? then Err(BeginsLater)
      else if !(base.value.day < s[|s|-1].day) then Err(NothingAfter)
      else if base.value.value == 0.0 then Err(ZeroBase)
      else Ok(PctChange(base.value.value, s[|s|-1].value))
  }

  /** When a window has a return, and which, on the points: measured from the newest
      point not after its start to the last one of the series. */
  ghost predicate IsWindowReturn(s: seq<Point>, start: int, r: Result<real, NoReturn>) {
    match r
    case Err(TooShort(n)) => n == |s| < 2
    case Err(BeginsLater) => |s| >= 2 && forall p :: p in s ==> p.day > start
    case Err(NothingAfter) => |s| >= 2 && s[|s|-1].day <= start
    case Err(ZeroBase) => |s| >= 2 && exists b :: OpensAt(s, start, b) && b.day < s[|s|-1].day && b.value == 0.0
    case Ok(v) =>
      |s| >= 2 && exists b ::
        && OpensAt(s, start, b) && b.day < s[|s|-1].day && b.value != 0.0
        && (100.0 + v) * b.value == 100.0 * s[|s|-1].value
  }

  /** The newest point not after the day. */
  ghost predicate OpensAt(s: seq<Point>, start: int, b: Point) {
    b in s && b.day <= start && forall p :: p in s && p.day <= start ==> p.day <= b.day
  }

  lemma BaseOpens(s: seq<Point>, start: int)
    requires Ascending(s, PointDay())
    ensures var base := InForce(s, PointDay(), start);
      if base.None? then forall p :: p in s ==> p.day > start
      else OpensAt(s, start, base.value) && base.value.day <= start
    ensures forall p :: p in s ==> p.day <= s[|s|-1].day
  {
    InForceIsNewest(s, PointDay(), start);
    forall p | p in s ensures p.day <= s[|s|-1].day {
      var k :| 0 <= k < |s| && s[k] == p;
      assert k < |s| - 1 ==> PointDay()(s[k]) < PointDay()(s[|s|-1]);
    }
    assert forall x :: x in s ==> PointDay()(x) == x.day;
  }

  lemma WindowReturnExactly(s: seq<Point>, start: int)
    requires Ascending(s, PointDay())
    ensures IsWindowReturn(s, start, WindowReturn(s, start))
  {
    hide InForce, PctChange, OpensAt, Ascending;
    if |s| >= 2 {
      BaseOpens(s, start);
      var base, last := InForce(s, PointDay(), start), s[|s|-1];
      if base.Some? && base.value.value != 0.0 { ChangeExactly(base.value.value, last.value); }
    }
  }

  lemma ChangeExactly(first: real, last: real)
    requires first != 0.0
    ensures (100.0 + PctChange(first, last)) * first == 100.0 * last
  {
    assert last / first * first == last;
  }

  /** What a window's return is measured over. */
  lemma WindowOpensAtBase(s: seq<Point>, start: int)
    requires Ascending(s, PointDay()) && WindowReturn(s, start).Ok?
    ensures var open := Opening(s, PointDay(), Some(start));
      && open < |s| && InForce(s, PointDay(), start) == Some(s[open])
      && WithBase(s, PointDay(), Some(start), s[|s|-1].day) == s[open..]
  {
    var to := s[|s|-1].day;
    Splits(s, PointDay(), start);
    Splits(s, PointDay(), to);
    assert PointDay()(s[|s|-1]) == to;
    var a := After(s, PointDay(), start);
    assert InForce(s, PointDay(), start) == Some(s[a-1]) && a < |s|;
    assert PointDay()(s[a]) <= to;
    WithBaseIsContiguous(s, PointDay(), Some(start), to);
    assert s[..|s|] == s;
  }

  /** A window's return is what its session returns compound to. */
  lemma WindowReturnCompounds(s: seq<Point>, start: int)
    requires Ascending(s, PointDay()) && Positive(s) && RightlyMarked(s) && WindowReturn(s, start).Ok?
    ensures 1.0 + WindowReturn(s, start).value / 100.0
         == Compounded(Returns(WithBase(s, PointDay(), Some(start), s[|s|-1].day)))
  {
    hide Ascending;
    WindowOpensAtBase(s, start);
    var open := Opening(s, PointDay(), Some(start));
    StretchOfMarked(s, open);
    TailStaysPositive(s, open);
    ReturnsCompoundExactly(s[open..]);
    ChangeOfCarried(Returns(s[open..]), s[open].value, s[|s|-1].value);
  }

  /** A series keeps its days and its values when it is flagged. */
  lemma MarkingKeepsPoints(s: seq<Point>)
    requires Ascending(s, PointDay()) && Positive(s)
    ensures Ascending(Marked(s), PointDay()) && Positive(Marked(s))
  {
    forall i, j | 0 <= i < j < |s| ensures PointDay()(Marked(s)[i]) < PointDay()(Marked(s)[j]) {
      assert PointDay()(s[i]) < PointDay()(s[j]);
    }
  }

  /** Whatever flags a stored series came with: once flagged in place, its window
      returns are what its session returns compound to. */
  lemma FlaggedReturnCompounds(s: seq<Point>, start: int)
    requires Ascending(s, PointDay()) && Positive(s) && WindowReturn(Marked(s), start).Ok?
    ensures 1.0 + WindowReturn(Marked(s), start).value / 100.0
         == Compounded(Returns(WithBase(Marked(s), PointDay(), Some(start), s[|s|-1].day)))
  {
    MarkingKeepsPoints(s);
    MarkedIsRight(s);
    WindowReturnCompounds(Marked(s), start);
  }

  lemma TailStaysPositive(s: seq<Point>, lo: nat)
    requires Positive(s) && lo < |s|
    ensures Positive(s[lo..]) && s[lo].value > 0.0 && s[lo..][0] == s[lo] && s[lo..][|s|-lo-1] == s[|s|-1]
  {}

  lemma ChangeOfCarried(moves: seq<real>, first: real, last: real)
    requires first > 0.0 && Carries(moves, first, last)
    ensures 1.0 + PctChange(first, last) / 100.0 == Compounded(moves)
  {
    Quotient(Compounded(moves), first, last);
  }

  lemma Quotient(c: real, first: real, last: real)
    requires first > 0.0 && c * first == last
    ensures last / first == c
  {}

  // ---------------------------------------------------------------- the worst fall

  function Peak(values: seq<real>): real
    requires values != []
  {
    if |values| == 1 then values[0]
    else var before := Peak(values[..|values|-1]); if values[|values|-1] > before then values[|values|-1] else before
  }

  /** How far `last` stands below `peak`, as a fraction; 0 while there is no positive
      peak. */
  function Fall(peak: real, last: real): real { if peak <= 0.0 then 0.0 else last / peak - 1.0 }

  function WorstFall(values: seq<real>): real {
    if values == [] then 0.0
    else
      var before, fall := WorstFall(values[..|values|-1]), Fall(Peak(values), values[|values|-1]);
      if fall < before then fall else before
  }

  function Values(s: seq<Point>): (v: seq<real>)
    ensures |v| == |s|
  {
    seq(|s|, i requires 0 <= i < |s| => s[i].value)
  }

  lemma {:induction false} PeakIsHighest(values: seq<real>, i: nat)
    requires i < |values|
    ensures values[i] <= Peak(values) && Peak(values) in values
  {
    if |values| > 1 {
      PeakIsHighest(values[..|values|-1], if i < |values| - 1 then i else 0);
    }
  }

  lemma FallFromHigherPeak(low: real, high: real, last: real)
    requires 0.0 < low <= high && last >= 0.0
    ensures Fall(high, last) <= Fall(low, last)
  {
    assert last / high * high == last && last / low * low == last;
    if last / high > last / low {
      assert (last / high) * high >= (last / high) * low > (last / low) * low;
    }
  }

  /** A fall without its quotient. */
  lemma FallExactly(peak: real, last: real, bound: real)
    requires peak > 0.0
    ensures Fall(peak, last) * peak == last - peak
    ensures bound <= Fall(peak, last) ==> bound * peak <= last - peak
  {
    var fall := last / peak - 1.0;
    assert last / peak * peak == last;
    if bound <= fall { NonNegativeProduct(fall - bound, peak, last - peak - bound * peak); }
  }

  lemma {:induction false} WorstBoundsFall(values: seq<real>, i: nat, j: nat)
    requires (forall k :: 0 <= k < |values| ==> values[k] >= 0.0) && i <= j < |values| && values[i] > 0.0
    ensures WorstFall(values) <= Fall(values[i], values[j])
    decreases |values|
  {
    var front := values[..|values|-1];
    if j < |values| - 1 {
      WorstBoundsFall(front, i, j);
    } else {
      PeakIsHighest(values, i);
      FallFromHigherPeak(values[i], Peak(values), values[j]);
    }
  }

  /** No pair of points falls further than the single pass reports. */
  lemma WorstFallIsWorst(values: seq<real>, i: nat, j: nat)
    requires (forall k :: 0 <= k < |values| ==> values[k] >= 0.0) && i <= j < |values| && values[i] > 0.0
    ensures WorstFall(values) * values[i] <= values[j] - values[i]
  {
    hide WorstFall;
    WorstBoundsFall(values, i, j);
    FallExactly(values[i], values[j], WorstFall(values));
  }

  /** The reported fall happened, between these two points. */
  predicate FallsBy(s: seq<Point>, i: nat, j: nat, worst: real) {
    i < j < |s| && s[i].value > 0.0 && s[j].value < s[i].value && worst * s[i].value == s[j].value - s[i].value
  }

  ghost predicate NonDecreasing(values: seq<real>) { forall i, j :: 0 <= i <= j < |values| ==> values[i] <= values[j] }

  /** A fall is reported exactly when some later value is lower. */
  lemma WorstFallIsZeroExactly(values: seq<real>)
    requires forall k :: 0 <= k < |values| ==> values[k] >= 0.0
    ensures WorstFall(values) <= 0.0
    ensures WorstFall(values) == 0.0 <==> NonDecreasing(values)
  {
    WorstIsAtMostZero(values);
    if NonDecreasing(values) { NeverFell(values); }
    forall i, j | 0 <= i <= j < |values| && values[i] > values[j] ensures WorstFall(values) < 0.0 {
      WorstBoundsFall(values, i, j);
      LowerIsAFall(values[i], values[j]);
    }
  }

  lemma {:induction false} WorstIsAtMostZero(values: seq<real>)
    ensures WorstFall(values) <= 0.0
  {
    if values != [] { WorstIsAtMostZero(values[..|values|-1]); }
  }

  lemma SamePeak(x: real)
    requires x > 0.0
    ensures Fall(x, x) == 0.0
  {
    assert x / x == 1.0;
  }

  lemma LowerIsAFall(peak: real, last: real)
    requires last < peak && peak > 0.0
    ensures Fall(peak, last) < 0.0
  {
    var q := last / peak;
    assert q * peak == last;
    assert (1.0 - q) * peak == peak - last;
  }

  lemma FallBelow(peak: real, last: real)
    requires peak > 0.0 && Fall(peak, last) < 0.0
    ensures last < peak
  {
    assert last / peak * peak == last;
  }

  /** One more value, in terms of what came before. */
  lemma PassGrows(values: seq<real>, n: nat)
    requires n < |values|
    ensures Peak(values[..n+1]) == if n == 0 then values[0] else if values[n] > Peak(values[..n]) then values[n]
        else Peak(values[..n])
    ensures WorstFall(values[..n+1])
         == var fall := Fall(Peak(values[..n+1]), values[n]); if fall < WorstFall(values[..n]) then fall
           else WorstFall(values[..n])
  {
    assert values[..n+1][..n] == values[..n];
  }

  lemma {:induction false} NeverFell(values: seq<real>)
    requires NonDecreasing(values)
    ensures WorstFall(values) == 0.0
    ensures values != [] ==> Peak(values) == values[|values|-1]
  {
    if |values| > 1 {
      NeverFell(values[..|values|-1]);
    } else if |values| == 1 {
      assert values[..0] == [];
    }
    if values != [] && values[|values|-1] > 0.0 { SamePeak(values[|values|-1]); }
  }

  datatype Drawdown = Drawdown(pct: Option<real>, peakDate: Option<int>, troughDate: Option<int>,
                               recoveredDate: Option<int>)

  /** The first later point back at the peak. */
  function Recovery(s: seq<Point>, trough: Point, peak: Point): Option<int> {
    var k := Search(s, (p: Point) => p.day > trough.day && p.value >= peak.value);
    if k < |s| then Some(s[k].day) else None
  }

  ghost predicate IsWorstFall(s: seq<Point>, out: Drawdown, i: nat, j: nat) {
    && i < j < |s| && FallsBy(s, i, j, WorstFall(Values(s)))
    && out.peakDate == Some(s[i].day) && out.troughDate == Some(s[j].day)
    && out.recoveredDate == Recovery(s, s[j], s[i])
  }

  lemma FallIsBelow(peak: real, last: real)
    requires Fall(peak, last) < 0.0
    ensures peak > 0.0 && last < peak && Fall(peak, last) * peak == last - peak
  {
    FallBelow(peak, last);
    FallExactly(peak, last, 0.0);
  }

  lemma FallsHere(s: seq<Point>, i: nat, j: nat)
    requires i <= j < |s| && s[i].value > 0.0 && Fall(s[i].value, s[j].value) < 0.0
    ensures FallsBy(s, i, j, Fall(s[i].value, s[j].value))
  {
    FallIsBelow(s[i].value, s[j].value);
  }

  method MaxDrawdown(s: seq<Point>) returns (out: Drawdown)
    ensures |s| < 2 ==> out == Drawdown(None, None, None, None)
    ensures |s| >= 2 ==> out.pct == Some(WorstFall(Values(s)) * 100.0)
    ensures |s| >= 2 && WorstFall(Values(s)) == 0.0 ==> out == Drawdown(Some(0.0), None, None, None)
    ensures |s| >= 2 && WorstFall(Values(s)) < 0.0 ==> exists i, j :: IsWorstFall(s, out, i, j)
  {
    hide Recovery, FallsBy;
    if |s| < 2 { return Drawdown(None, None, None, None); }
    var peak, worst, found := s[0], 0.0, false;
    var worstPeak, worstTrough := s[0], s[0];
    ghost var top: nat, a: nat, b: nat := 0, 0, 0;
    ghost var values := Values(s);
    for n := 0 to |s|
      invariant n == 0 ==> peak == s[0] && top == 0 && !found
      invariant top < |s| && s[top] == peak && (n > 0 ==> top < n && peak.value == Peak(values[..n]))
      invariant worst == WorstFall(values[..n]) <= 0.0
      invariant found <==> worst < 0.0
      invariant found ==> a < b < |s| && FallsBy(s, a, b, worst) && worstPeak == s[a] && worstTrough == s[b]
    {
      var p := s[n];
      PassGrows(values, n);
      if p.value > peak.value {
        peak, top := p, n;
      }
      if peak.value <= 0.0 {
        continue;
      }
      var d := p.value / peak.value - 1.0;
      if d < worst {
        FallsHere(s, top, n);
        worst, worstPeak, worstTrough, found := d, peak, p, true;
        a, b := top, n;
      }
    }
    assert values[..|s|] == values;
    out := Drawdown(Some(worst * 100.0), None, None, None);
    if !found { return; }
    var recovered := FirstRecovery(s, worstTrough, worstPeak);
    out := Drawdown(Some(worst * 100.0), Some(worstPeak.day), Some(worstTrough.day), recovered);
    assert IsWorstFall(s, out, a, b);
  }

  method FirstRecovery(s: seq<Point>, trough: Point, peak: Point) returns (recovered: Option<int>)
    ensures recovered == Recovery(s, trough, peak)
  {
    ghost var back := (p: Point) => p.day > trough.day && p.value >= peak.value;
    for k := 0 to |s|
      invariant k <= Search(s, back)
    {
      if s[k].day > trough.day && s[k].value >= peak.value {
        return Some(s[k].day);
      }
    }
    return None;
  }

  predicate FallsIn(values: seq<real>, i: nat, j: nat, worst: real) {
    i < j < |values| && values[i] > 0.0 && values[j] < values[i] && worst * values[i] == values[j] - values[i]
  }

  /** A reported fall happened between two of the values. */
  lemma {:induction false} WorstFallHappens(values: seq<real>) returns (i: nat, j: nat)
    requires WorstFall(values) < 0.0
    ensures FallsIn(values, i, j, WorstFall(values))
    decreases |values|
  {
    hide Fall;
    var n := |values| - 1;
    var front, peak := values[..n], Peak(values);
    if Fall(peak, values[n]) < WorstFall(front) {
      PeakIsHighest(values, 0);
      FallIsBelow(peak, values[n]);
      j := n;
      i :| 0 <= i < |values| && values[i] == peak;
    } else {
      i, j := WorstFallHappens(front);
    }
  }

  /** The screener's pass, which starts below every value instead of at the first. */
  method ScreenMaxDrawdown(values: seq<real>) returns (pct: Option<real>)
    ensures pct == if |values| < 2 then None else Some(WorstFall(values) * 100.0)
    ensures |values| >= 2 && WorstFall(values) < 0.0 ==> exists i, j :: FallsIn(values, i, j, WorstFall(values))
  {
    if |values| < 2 { return None; }
    var peak: Option<real>, worst := None, 0.0;
    for n := 0 to |values|
      invariant peak == if n == 0 then None else Some(Peak(values[..n]))
      invariant worst == WorstFall(values[..n]) * 100.0
    {
      var v := values[n];
      PassGrows(values, n);
      if peak.None? || v > peak.value {
        peak := Some(v);
      }
      if peak.value <= 0.0 {
        continue;
      }
      var d := (v / peak.value - 1.0) * 100.0;
      if d < worst {
        worst := d;
      }
    }
    assert values[..|values|] == values;
    if WorstFall(values) < 0.0 {
      ghost var i, j := WorstFallHappens(values);
    }
    return Some(worst);
  }

  /** A recovery lies after the trough, at or above the peak, and nothing between
      the trough and it had got back there. */
  lemma RecoveryIsFirst(s: seq<Point>, trough: Point, peak: Point)
    requires Ascending(s, PointDay())
    ensures var day := Recovery(s, trough, peak);
      if day.None? then forall p :: p in s && p.day > trough.day ==> p.value < peak.value
      else exists r :: r in s && r.day == day.value && r.day > trough.day && r.value >= peak.value
             && forall p :: p in s && trough.day < p.day < r.day ==> p.value < peak.value
  {
    var back := (p: Point) => p.day > trough.day && p.value >= peak.value;
    var k := Search(s, back);
    if k < |s| {
      var r := s[k];
      forall p | p in s && trough.day < p.day < r.day ensures p.value < peak.value {
        var i :| 0 <= i < |s| && s[i] == p;
        assert PointDay()(s[i]) < PointDay()(s[k]);
        assert i < k;
      }
    }
  }
}
