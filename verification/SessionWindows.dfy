/** Windows of n market sessions on the calendar, and what part of the market their
    figures rest on. */
module SessionWindows {
  import opened MarketCalendar
  import opened Reals
  import opened Tallies
  import opened Wrappers

  datatype WindowCoverage = WindowCoverage(
    shareSessions: nat, withFlow: nat, sharePct: Option<real>, valuePct: Option<real>, minSessionSharePct: Option<real>)

  datatype Window = Window(
    n: nat, available: bool, from: Option<int>, to: Option<int>,
    prevAvailable: bool, prevFrom: Option<int>, prevTo: Option<int>,
    base: Option<int>, coverage: Option<WindowCoverage>)

  datatype Measured = Measured(traded: nat, covered: nat, dayValue: real, coveredValue: real)

  function Measure(xs: seq<SessionCount>): Measured {
    if xs == [] then Measured(0, 0, 0.0, 0.0)
    else
      var before, x := Measure(xs[..|xs|-1]), xs[|xs|-1];
      Measured(before.traded + x.dayTraded, before.covered + x.covered, before.dayValue + x.dayValue,
               before.coveredValue + x.coveredValue)
  }

  /** The weakest session's coverage by share count, in percent. */
  function Weakest(xs: seq<SessionCount>): Option<real> {
    if xs == [] then None
    else
      var before, own := Weakest(xs[..|xs|-1]), ShareCoverage(xs[|xs|-1]);
      if own.Some? && (before.None? || own.value * 100.0 < before.value) then Some(own.value * 100.0) else before
  }

  function Percent(part: real, whole: real): Option<real> { if whole > 0.0 then Some(part / whole * 100.0) else None }

  function CoverageOf(xs: seq<SessionCount>): WindowCoverage {
    var m := Measure(xs);
    WindowCoverage(m.traded, m.covered, Percent(m.covered as real, m.traded as real),
                   Percent(m.coveredValue, m.dayValue), Weakest(xs))
  }

  /** A percentage without its quotient, undefined for an empty whole. */
  predicate PercentOf(part: real, whole: real, r: Option<real>) {
    (r.None? <==> whole <= 0.0) && (r.Some? ==> r.value * whole == 100.0 * part)
  }

  /** Some session's day file shows shares trading. */
  predicate ShowsShares(x: SessionCount) { x.dayFile && x.dayTraded > 0 }

  predicate HasPercent(x: SessionCount, r: real) { r * x.dayTraded as real == 100.0 * x.covered as real }

  /** No session that shows shares has a lower percentage. */
  ghost predicate NoneLower(xs: seq<SessionCount>, r: real) {
    forall x :: x in xs && ShowsShares(x) ==> r * x.dayTraded as real <= 100.0 * x.covered as real
  }

  /** The least of the sessions' own percentages, attained by one of them. */
  ghost predicate IsWeakest(xs: seq<SessionCount>, r: Option<real>) {
    && (r.None? <==> forall x :: x in xs ==> !ShowsShares(x))
    && (r.Some? ==>
          && NoneLower(xs, r.value)
          && exists x :: x in xs && ShowsShares(x) && HasPercent(x, r.value))
  }

  /** The window's coverage on the counts of its sessions: the shares and the values
      added up, the two percentages of them, and the weakest session's. */
  ghost predicate IsCoverageOf(xs: seq<SessionCount>, cov: WindowCoverage) {
    var every := (x: SessionCount) => true;
    && cov.shareSessions == Headcount(xs, every, (x: SessionCount) => x.dayTraded)
    && cov.withFlow == Headcount(xs, every, (x: SessionCount) => x.covered)
    && PercentOf(cov.withFlow as real, cov.shareSessions as real, cov.sharePct)
    && PercentOf(Total(xs, every, (x: SessionCount) => x.coveredValue),
                 Total(xs, every, (x: SessionCount) => x.dayValue), cov.valuePct)
    && IsWeakest(xs, cov.minSessionSharePct)
  }

  lemma {:induction false} MeasureIsTotal(xs: seq<SessionCount>)
    ensures var every := (x: SessionCount) => true;
      && Measure(xs).traded == Headcount(xs, every, (x: SessionCount) => x.dayTraded)
      && Measure(xs).covered == Headcount(xs, every, (x: SessionCount) => x.covered)
      && Measure(xs).dayValue == Total(xs, every, (x: SessionCount) => x.dayValue)
      && Measure(xs).coveredValue == Total(xs, every, (x: SessionCount) => x.coveredValue)
  {
    if xs != [] {
      var every := (x: SessionCount) => true;
      var front, last := xs[..|xs|-1], xs[|xs|-1];
      MeasureIsTotal(front);
      assert xs == front + [last];
      HeadcountAppend(front, last, every, (x: SessionCount) => x.dayTraded);
      HeadcountAppend(front, last, every, (x: SessionCount) => x.covered);
      TotalAppend(front, last, every, (x: SessionCount) => x.dayValue);
      TotalAppend(front, last, every, (x: SessionCount) => x.coveredValue);
    }
  }

  lemma PercentExactly(part: real, whole: real)
    ensures PercentOf(part, whole, Percent(part, whole))
  {
    if whole > 0.0 {
      var q := part / whole;
      assert q * whole == part;
    }
  }

  /** A session's own percentage. */
  lemma OwnPercent(x: SessionCount)
    ensures ShareCoverage(x).Some? <==> ShowsShares(x)
    ensures ShowsShares(x) ==> HasPercent(x, ShareCoverage(x).value * 100.0)
  {
    if ShowsShares(x) { PercentExactly(x.covered as real, x.dayTraded as real); }
  }

  lemma LowerStill(xs: seq<SessionCount>, r: real, lower: real)
    requires NoneLower(xs, r) && lower <= r
    ensures NoneLower(xs, lower)
  {
    forall x | x in xs && ShowsShares(x) ensures lower * x.dayTraded as real <= 100.0 * x.covered as real {
      NonNegativeProduct(r - lower, x.dayTraded as real, r * x.dayTraded as real - lower * x.dayTraded as real);
    }
  }

  lemma NoneLowerWith(xs: seq<SessionCount>, last: SessionCount, r: real)
    requires NoneLower(xs, r) && NoneLower([last], r)
    ensures NoneLower(xs + [last], r)
  {
    forall x | x in xs + [last] && ShowsShares(x) ensures r * x.dayTraded as real <= 100.0 * x.covered as real {
      assert x in xs || x in [last];
    }
  }

  lemma {:induction false} WeakestExactly(xs: seq<SessionCount>)
    ensures IsWeakest(xs, Weakest(xs))
  {
    hide ShareCoverage, ShowsShares, NoneLower, HasPercent;
    if xs != [] {
      var front, last := xs[..|xs|-1], xs[|xs|-1];
      WeakestExactly(front);
      OwnPercent(last);
      assert xs == front + [last];
      assert last in xs && forall x :: x in xs <==> x in front || x == last;
      var r, was, own := Weakest(xs), Weakest(front), ShareCoverage(last);
      if r.Some? {
        NoneLowerOfNone(front, r.value, was);
        OwnIsLeast(last, own, r.value);
        NoneLowerWith(front, last, r.value);
      }
    }
  }

  /** What is below the front's weakest, if it has one, none of the front is below. */
  lemma NoneLowerOfNone(front: seq<SessionCount>, r: real, was: Option<real>)
    requires IsWeakest(front, was) && (was.Some? ==> r <= was.value)
    ensures NoneLower(front, r)
  {
    if was.Some? { LowerStill(front, was.value, r); }
  }

  lemma OwnIsLeast(x: SessionCount, own: Option<real>, r: real)
    requires own == ShareCoverage(x) && (own.Some? ==> r <= own.value * 100.0)
    ensures NoneLower([x], r)
  {
    OwnPercent(x);
    if ShowsShares(x) { LowerStill([x], own.value * 100.0, r); }
  }

  lemma CoverageExactly(xs: seq<SessionCount>)
    ensures IsCoverageOf(xs, CoverageOf(xs))
  {
    hide Weakest, IsWeakest, Measure, Percent, PercentOf;
    var m := Measure(xs);
    MeasureIsTotal(xs);
    PercentExactly(m.covered as real, m.traded as real);
    PercentExactly(m.coveredValue, m.dayValue);
    WeakestExactly(xs);
  }

  /** Sessions [0, n) of the calendar, and the n before them. */
  method WindowOn(c: Calendar, n: nat) returns (w: Window)
    requires n >= 1 && c.sessions == Days(c.counts)
    ensures w.n == n && (w.available <==> |c.sessions| >= n) && (w.prevAvailable <==> |c.sessions| >= 2 * n)
    ensures w.available ==> w.to == Some(c.sessions[0]) && w.from == Some(c.sessions[n-1])
    ensures w.prevAvailable ==> w.prevTo == Some(c.sessions[n]) && w.prevFrom == Some(c.sessions[2*n-1])
    ensures w.base == if |c.sessions| > n then Some(c.sessions[n]) else None
    ensures w.coverage == if w.available then Some(CoverageOf(c.counts[..n])) else None
    ensures w.available ==> IsCoverageOf(c.counts[..n], w.coverage.value)
  {
    w := Window(n, false, None, None, false, None, None, None, None);
    var k := |c.sessions|;
    if k < n { return; }
    w := w.(available := true, to := Some(c.sessions[0]), from := Some(c.sessions[n-1]));
    if k > n { w := w.(base := Some(c.sessions[n])); }
    if k >= 2 * n {
      w := w.(prevAvailable := true, prevTo := Some(c.sessions[n]), prevFrom := Some(c.sessions[2*n-1]));
    }
    var traded, covered, dayValue, coveredValue, weakest := MeasureAll(c.counts[..n]);
    w := w.(coverage := Some(WindowCoverage(traded, covered, Percent(covered as real, traded as real),
                                            Percent(coveredValue, dayValue), weakest)));
    CoverageExactly(c.counts[..n]);
  }

  method MeasureAll(xs: seq<SessionCount>)
    returns (traded: nat, covered: nat, dayValue: real, coveredValue: real, weakest: Option<real>)
    ensures Measured(traded, covered, dayValue, coveredValue) == Measure(xs) && weakest == Weakest(xs)
  {
    traded, covered, dayValue, coveredValue, weakest := 0, 0, 0.0, 0.0, None;
    for i := 0 to |xs|
      invariant Measured(traded, covered, dayValue, coveredValue) == Measure(xs[..i])
      invariant weakest == Weakest(xs[..i])
    {
      assert xs[..i+1][..i] == xs[..i];
      var x := xs[i];
      traded, covered := traded + x.dayTraded, covered + x.covered;
      dayValue, coveredValue := dayValue + x.dayValue, coveredValue + x.coveredValue;
      var own := ShareCoverage(x);
      if own.Some? && (weakest.None? || own.value * 100.0 < weakest.value) {
        weakest := Some(own.value * 100.0);
      }
    }
    assert xs[..|xs|] == xs;
  }

  // ---------------------------------------------------------------- the mediant

  /** Covered rows are among those the day file shows. */
  predicate Counted(x: SessionCount) { x.covered <= x.dayTraded && 0.0 <= x.coveredValue <= x.dayValue }

  /** The part is at least `bound` percent of the whole. */
  predicate AtLeast(part: real, whole: real, bound: real) { 100.0 * part >= bound * whole }

  /** At least `bound` percent of the shares, session by session. */
  predicate CoversShares(x: SessionCount, bound: real) { AtLeast(x.covered as real, x.dayTraded as real, bound) }

  predicate CoversValue(x: SessionCount, bound: real) { AtLeast(x.coveredValue, x.dayValue, bound) }

  lemma PercentsAdd(part: real, whole: real, part': real, whole': real, bound: real)
    requires AtLeast(part, whole, bound) && AtLeast(part', whole', bound)
    ensures AtLeast(part + part', whole + whole', bound)
  {
    Distribute(bound, whole, whole');
  }

  /** A percentage every session reaches, their sum reaches. */
  lemma {:induction false} Mediant(xs: seq<SessionCount>, bound: real)
    ensures (forall x :: x in xs ==> CoversShares(x, bound)) ==>
        AtLeast(Measure(xs).covered as real, Measure(xs).traded as real, bound)
    ensures (forall x :: x in xs ==> CoversValue(x, bound)) ==>
        AtLeast(Measure(xs).coveredValue, Measure(xs).dayValue, bound)
  {
    if xs != [] {
      hide AtLeast;
      var front, x := xs[..|xs|-1], xs[|xs|-1];
      Mediant(front, bound);
      assert x in xs && forall y :: y in front ==> y in xs;
      if forall y :: y in xs ==> CoversShares(y, bound) {
        assert CoversShares(x, bound);
        PercentsAdd(Measure(front).covered as real, Measure(front).traded as real, x.covered as real,
                    x.dayTraded as real, bound);
      }
      if forall y :: y in xs ==> CoversValue(y, bound) {
        assert CoversValue(x, bound);
        PercentsAdd(Measure(front).coveredValue, Measure(front).dayValue, x.coveredValue, x.dayValue, bound);
      }
    }
  }

  lemma {:induction false} CountedInAll(xs: seq<SessionCount>)
    requires forall x :: x in xs ==> Counted(x) && x.dayTraded > 0 && x.dayValue > 0.0
    ensures var m := Measure(xs);
      m.covered <= m.traded && 0.0 <= m.coveredValue <= m.dayValue && (xs != [] ==> m.traded > 0 && m.dayValue > 0.0)
  {
    if xs != [] {
      assert xs[|xs|-1] in xs;
      CountedInAll(xs[..|xs|-1]);
    }
  }

  lemma QuotientBounds(part: real, whole: real, bound: real, percent: real)
    requires whole > 0.0 && percent * whole == 100.0 * part
    ensures 100.0 * part >= bound * whole <==> percent >= bound
    ensures part <= whole <==> percent <= 100.0
  {
    if percent >= bound {
      NonNegativeProduct(percent - bound, whole, 100.0 * part - bound * whole);
    } else {
      PositiveProduct(bound - percent, whole, bound * whole - 100.0 * part);
    }
    if percent <= 100.0 {
      NonNegativeProduct(100.0 - percent, whole, 100.0 * whole - 100.0 * part);
    } else {
      PositiveProduct(percent - 100.0, whole, 100.0 * part - 100.0 * whole);
    }
  }

  lemma PercentBounds(part: real, whole: real, bound: real)
    requires whole > 0.0
    ensures 100.0 * part >= bound * whole <==> Percent(part, whole).value >= bound
    ensures part <= whole <==> Percent(part, whole).value <= 100.0
  {
    var q := part / whole;
    assert q * whole == part;
    assert Percent(part, whole).value * whole == 100.0 * part;
    QuotientBounds(part, whole, bound, Percent(part, whole).value);
  }

  /** The weakest session is the weakest. */
  lemma {:induction false} WeakestIsLeast(xs: seq<SessionCount>)
    requires forall x :: x in xs ==> x.dayFile && x.dayTraded > 0
    ensures xs != [] ==> Weakest(xs).Some? && (forall x :: x in xs ==> CoversShares(x, Weakest(xs).value))
                         && exists x :: x in xs && Weakest(xs).value == ShareCoverage(x).value * 100.0
  {
    if xs != [] {
      var front, x := xs[..|xs|-1], xs[|xs|-1];
      assert x in xs;
      WeakestIsLeast(front);
      forall y | y in xs ensures CoversShares(y, Weakest(xs).value) {
        if y in front {
          LowerBoundCovers(y, Weakest(front).value, Weakest(xs).value);
        } else {
          assert y == x;
          OwnCovers(x, Weakest(xs).value);
        }
      }
    }
  }

  lemma LowerBoundCovers(x: SessionCount, bound: real, lower: real)
    requires CoversShares(x, bound) && lower <= bound
    ensures CoversShares(x, lower)
  {
    Distribute(x.dayTraded as real, lower, bound - lower);
    if x.dayTraded > 0 {
      NonNegativeProduct(bound - lower, x.dayTraded as real, (bound - lower) * x.dayTraded as real);
    }
  }

  lemma OwnCovers(x: SessionCount, bound: real)
    requires x.dayFile && x.dayTraded > 0 && bound <= ShareCoverage(x).value * 100.0
    ensures CoversShares(x, bound)
  {
    PercentBounds(x.covered as real, x.dayTraded as real, bound);
  }

  lemma SessionCovers(x: SessionCount)
    requires MarketSession(x)
    ensures CoversShares(x, 90.0) && CoversValue(x, 90.0) && x.dayFile && x.dayTraded > 0 && x.dayValue > 0.0
    ensures ShareCoverage(x).value * 100.0 >= 90.0
  {
    MarketSessionCounts(x);
  }

  predicate SharesInBounds(cov: WindowCoverage) {
    && cov.sharePct.Some? && cov.minSessionSharePct.Some?
    && 90.0 <= cov.minSessionSharePct.value <= cov.sharePct.value <= 100.0
  }

  predicate ValueInBounds(cov: WindowCoverage) { cov.valuePct.Some? && 90.0 <= cov.valuePct.value <= 100.0 }

  lemma ShareBounds(xs: seq<SessionCount>)
    requires xs != [] && forall x :: x in xs ==> MarketSession(x) && Counted(x)
    ensures SharesInBounds(CoverageOf(xs))
  {
    hide Weakest, Measure;
    forall x | x in xs
      ensures x.dayFile && x.dayTraded > 0 && x.dayValue > 0.0 && ShareCoverage(x).Some?
          && ShareCoverage(x).value * 100.0 >= 90.0
    {
      SessionCovers(x);
    }
    CountedInAll(xs);
    WeakestIsLeast(xs);
    Mediant(xs, Weakest(xs).value);
    PercentBounds(Measure(xs).covered as real, Measure(xs).traded as real, Weakest(xs).value);
  }

  lemma ValueBounds(xs: seq<SessionCount>)
    requires xs != [] && forall x :: x in xs ==> MarketSession(x) && Counted(x)
    ensures ValueInBounds(CoverageOf(xs))
  {
    forall x | x in xs ensures CoversValue(x, 90.0) && x.dayTraded > 0 && x.dayValue > 0.0 { SessionCovers(x); }
    CountedInAll(xs);
    Mediant(xs, 90.0);
    PercentBounds(Measure(xs).coveredValue, Measure(xs).dayValue, 90.0);
  }

  /** Over every available window of a calendar: at least 90 percent of the shares in
      the weakest session, no less in all of them together, never above 100; and at
      least 90 percent of the value. */
  lemma WindowsAreCovered(dates: set<SessionCount>, keep: nat, c: Calendar, n: nat)
    requires IsCalendar(dates, MarketSession, keep, c) && 1 <= n <= |c.counts| && forall x :: x in dates ==> Counted(x)
    ensures SharesInBounds(CoverageOf(c.counts[..n])) && ValueInBounds(CoverageOf(c.counts[..n]))
  {
    forall x | x in c.counts[..n] ensures MarketSession(x) && Counted(x) { assert x in c.counts; }
    ShareBounds(c.counts[..n]);
    ValueBounds(c.counts[..n]);
  }
}
