/** Oscillators over aligned slices of highs, lows and closes. A position without
    enough history holds nothing. Exact reals, before any rounding. */
module Indicators {
  import opened Reals
  import opened Tallies
  import opened Wrappers

  predicate Aligned(high: seq<real>, low: seq<real>, closes: seq<real>) { |high| == |low| == |closes| }

  /** A bar that closed inside its own range. */
  predicate ValidBar(high: seq<real>, low: seq<real>, closes: seq<real>, i: nat)
    requires Aligned(high, low, closes) && i < |closes|
  {
    low[i] <= closes[i] <= high[i]
  }

  // ---------------------------------------------------------------- directional movement

  /** The true range of a bar and its directional movements, from the second bar on. */
  datatype Move = Move(range: real, plus: real, minus: real)

  function MoveAt(high: seq<real>, low: seq<real>, closes: seq<real>, i: nat): Move
    requires Aligned(high, low, closes) && i < |closes|
  {
    if i == 0 then Move(0.0, 0.0, 0.0)
    else
      var up, down := high[i] - high[i-1], low[i-1] - low[i];
      Move(Max(high[i] - low[i], Max(Abs(high[i] - closes[i-1]), Abs(low[i] - closes[i-1]))),
           if up > down && up > 0.0 then up else 0.0,
           if down > up && down > 0.0 then down else 0.0)
  }

  function Moves(high: seq<real>, low: seq<real>, closes: seq<real>): (moves: seq<Move>)
    requires Aligned(high, low, closes)
    ensures |moves| == |closes|
  {
    seq(|closes|, i requires 0 <= i < |closes| => MoveAt(high, low, closes, i))
  }

  lemma MovesAreNonNegative(high: seq<real>, low: seq<real>, closes: seq<real>, i: nat)
    requires Aligned(high, low, closes) && i < |closes|
    ensures NonNegative(MoveAt(high, low, closes, i))
  {}

  predicate NonNegative(m: Move) { m.range >= 0.0 && m.plus >= 0.0 && m.minus >= 0.0 }

  /** Movement fits into the true range. */
  predicate Fits(m: Move) { m.plus + m.minus <= m.range }

  lemma MovementFitsRange(high: seq<real>, low: seq<real>, closes: seq<real>, i: nat)
    requires Aligned(high, low, closes) && i < |closes| && (i > 0 ==> ValidBar(high, low, closes, i - 1))
    ensures Fits(MoveAt(high, low, closes, i))
  {}

  // ---------------------------------------------------------------- Wilder smoothing

  function Plus(a: Move, b: Move): Move { Move(a.range + b.range, a.plus + b.plus, a.minus + b.minus) }

  function SumMoves(moves: seq<Move>): Move {
    if moves == [] then Move(0.0, 0.0, 0.0) else Plus(SumMoves(moves[..|moves|-1]), moves[|moves|-1])
  }

  /** One component: drop a period's share, add the new bar. */
  function Smooth(s: real, x: real, period: nat): real
    requires period > 0
  {
    s - s / period as real + x
  }

  function SmoothMove(s: Move, m: Move, period: nat): Move
    requires period > 0
  {
    Move(Smooth(s.range, m.range, period), Smooth(s.plus, m.plus, period), Smooth(s.minus, m.minus, period))
  }

  /** The smoothed sums at a bar: seeded with plain sums of the first `period` moves. */
  function Wilder(moves: seq<Move>, period: nat, i: nat): Move
    requires 0 < period <= i < |moves|
  {
    if i == period then SumMoves(moves[1..period+1]) else SmoothMove(Wilder(moves, period, i - 1), moves[i], period)
  }

  lemma KeepsSign(s: real, x: real, period: nat)
    requires period > 0 && s >= 0.0 && x >= 0.0
    ensures Smooth(s, x, period) >= 0.0
  {
    ShareIsSmaller(s, period as real, s / period as real);
  }

  lemma ShareIsSmaller(s: real, n: real, share: real)
    requires n >= 1.0 && s >= 0.0 && share * n == s
    ensures 0.0 <= share <= s
  {
    if share < 0.0 {
      PositiveProduct(-share, n, -s);
    } else {
      var rest := share * (n - 1.0);
      assert rest == s - share;
      if n > 1.0 && share > 0.0 { PositiveProduct(share, n - 1.0, rest); }
    }
  }

  lemma KeepsOrder(a: real, b: real, t: real, x: real, y: real, z: real, period: nat)
    requires period > 0 && a + b <= t && x + y <= z
    ensures Smooth(a, x, period) + Smooth(b, y, period) <= Smooth(t, z, period)
  {
    var n := period as real;
    SharesAdd(a, b, t - a - b, n, t);
    ShareIsSmaller(t - a - b, n, (t - a - b) / n);
  }

  lemma SharesAdd(a: real, b: real, d: real, n: real, t: real)
    requires n > 0.0 && t == a + b + d
    ensures a / n + b / n + d / n == t / n && (d / n) * n == d
  {}

  lemma {:induction false} SumIsNonNegative(moves: seq<Move>)
    requires forall m :: m in moves ==> NonNegative(m)
    ensures NonNegative(SumMoves(moves))
  {
    if moves != [] {
      assert moves[|moves|-1] in moves;
      SumIsNonNegative(moves[..|moves|-1]);
    }
  }

  lemma {:induction false} SumFits(moves: seq<Move>)
    requires forall m :: m in moves ==> Fits(m)
    ensures Fits(SumMoves(moves))
  {
    if moves != [] {
      assert moves[|moves|-1] in moves;
      SumFits(moves[..|moves|-1]);
    }
  }

  /** Smoothing keeps the sums non-negative, whatever the bars. */
  lemma {:induction false} WilderIsNonNegative(moves: seq<Move>, period: nat, i: nat)
    requires 0 < period <= i < |moves| && forall m :: m in moves ==> NonNegative(m)
    ensures NonNegative(Wilder(moves, period, i))
    decreases i
  {
    if i == period {
      SumIsNonNegative(moves[1..period+1]);
    } else {
      WilderIsNonNegative(moves, period, i - 1);
      assert moves[i] in moves;
      var s, m := Wilder(moves, period, i - 1), moves[i];
      KeepsSign(s.range, m.range, period);
      KeepsSign(s.plus, m.plus, period);
      KeepsSign(s.minus, m.minus, period);
    }
  }

  /** Smoothing keeps the movements inside the range. */
  lemma {:induction false} WilderFits(moves: seq<Move>, period: nat, i: nat)
    requires 0 < period <= i < |moves| && forall m :: m in moves ==> Fits(m)
    ensures Fits(Wilder(moves, period, i))
    decreases i
  {
    if i == period {
      SumFits(moves[1..period+1]);
    } else {
      WilderFits(moves, period, i - 1);
      assert moves[i] in moves;
      var s, m := Wilder(moves, period, i - 1), moves[i];
      KeepsOrder(s.plus, s.minus, s.range, m.plus, m.minus, m.range, period);
    }
  }

  // ---------------------------------------------------------------- the index

  function Percent(part: real, whole: real): real
    requires whole != 0.0
  {
    100.0 * part / whole
  }

  /** The directional index of smoothed sums. */
  function Dx(s: Move): real {
    if s.range == 0.0 then 0.0
    else
      var pdi, mdi := Percent(s.plus, s.range), Percent(s.minus, s.range);
      if pdi + mdi == 0.0 then 0.0 else Percent(Abs(pdi - mdi), pdi + mdi)
  }

  predicate InRange(x: real) { 0.0 <= x <= 100.0 }

  lemma PercentInRange(part: real, whole: real, percent: real)
    requires whole > 0.0 && 0.0 <= part <= whole && percent * whole == 100.0 * part
    ensures InRange(percent)
  {
    if percent < 0.0 {
      PositiveProduct(-percent, whole, -(100.0 * part));
    } else if percent > 100.0 {
      PositiveProduct(percent - 100.0, whole, 100.0 * part - 100.0 * whole);
    }
  }

  lemma PercentOf(part: real, whole: real)
    requires whole != 0.0
    ensures Percent(part, whole) * whole == 100.0 * part
  {}

  lemma PercentIsNonNegative(part: real, whole: real, percent: real)
    requires whole > 0.0 && part >= 0.0 && percent * whole == 100.0 * part
    ensures percent >= 0.0
  {
    if percent < 0.0 { PositiveProduct(-percent, whole, -(100.0 * part)); }
  }

  lemma DxInRange(s: Move)
    requires NonNegative(s)
    ensures InRange(Dx(s))
  {
    if s.range != 0.0 {
      var pdi, mdi := Percent(s.plus, s.range), Percent(s.minus, s.range);
      PercentOf(s.plus, s.range);
      PercentOf(s.minus, s.range);
      PercentIsNonNegative(s.plus, s.range, pdi);
      PercentIsNonNegative(s.minus, s.range, mdi);
      if pdi + mdi != 0.0 {
        PercentOf(Abs(pdi - mdi), pdi + mdi);
        PercentInRange(Abs(pdi - mdi), pdi + mdi, Dx(s));
      }
    }
  }

  /** The two directional indicators share at most 100 percent. */
  lemma IndicatorsShareTheRange(s: Move)
    requires NonNegative(s) && Fits(s) && s.range > 0.0
    ensures InRange(Percent(s.plus, s.range) + Percent(s.minus, s.range))
  {
    PercentOf(s.plus, s.range);
    PercentOf(s.minus, s.range);
    var both := Percent(s.plus, s.range) + Percent(s.minus, s.range);
    assert both * s.range == 100.0 * (s.plus + s.minus);
    PercentInRange(s.plus + s.minus, s.range, both);
  }

  function Mean(sum: real, n: nat): real
    requires n > 0
  {
    sum / n as real
  }

  function Averaged(previous: real, x: real, period: nat): real
    requires period > 0
  {
    (previous * (period as real - 1.0) + x) / period as real
  }

  /** The index at a bar: the mean of the first `period` values, then a running one. */
  function AdxAt(dx: seq<real>, period: nat, i: nat): real
    requires 0 < period && 2 * period - 1 <= i < |dx|
  {
    if i == 2 * period - 1 then Mean(Sum(dx[period..2*period]), period)
    else Averaged(AdxAt(dx, period, i - 1), dx[i], period)
  }

  lemma {:induction false} SumInRange(xs: seq<real>)
    requires forall i :: 0 <= i < |xs| ==> InRange(xs[i])
    ensures 0.0 <= Sum(xs) <= 100.0 * |xs| as real
  {
    if xs != [] { SumInRange(xs[..|xs|-1]); }
  }

  lemma MeanInRange(total: real, n: real, mean: real)
    requires n > 0.0 && 0.0 <= total <= 100.0 * n && mean * n == total
    ensures InRange(mean)
  {
    if mean < 0.0 {
      PositiveProduct(-mean, n, -total);
    } else if mean > 100.0 {
      PositiveProduct(mean - 100.0, n, total - 100.0 * n);
    }
  }

  lemma AveragedInRange(previous: real, x: real, period: nat)
    requires period > 0 && InRange(previous) && InRange(x)
    ensures InRange(Averaged(previous, x, period))
  {
    var n := period as real;
    var carried := previous * (n - 1.0);
    CarriedInRange(previous, n - 1.0, carried);
    MeanInRange(carried + x, n, Averaged(previous, x, period));
  }

  lemma CarriedInRange(previous: real, k: real, carried: real)
    requires InRange(previous) && k >= 0.0 && carried == previous * k
    ensures 0.0 <= carried <= 100.0 * k
  {
    if k > 0.0 && previous > 0.0 { PositiveProduct(previous, k, carried); }
    if k > 0.0 && previous < 100.0 { PositiveProduct(100.0 - previous, k, 100.0 * k - carried); }
  }

  lemma {:induction false} AdxInRange(dx: seq<real>, period: nat, i: nat)
    requires 0 < period && 2 * period - 1 <= i < |dx| && forall k :: period <= k < |dx| ==> InRange(dx[k])
    ensures InRange(AdxAt(dx, period, i))
    decreases i
  {
    if i == 2 * period - 1 {
      var first := dx[period..2*period];
      SumInRange(first);
      MeanInRange(Sum(first), period as real, Mean(Sum(first), period));
    } else {
      AdxInRange(dx, period, i - 1);
      AveragedInRange(AdxAt(dx, period, i - 1), dx[i], period);
    }
  }

  /** The directional index of every bar that has one; 0 before. */
  function DxSeries(moves: seq<Move>, period: nat): (dx: seq<real>)
    requires period > 0
    ensures |dx| == |moves|
  {
    seq(|moves|, i requires 0 <= i < |moves| => if i < period then 0.0 else Dx(Wilder(moves, period, i)))
  }

  predicate AdxApplies(high: seq<real>, low: seq<real>, closes: seq<real>, period: int) {
    period > 0 && |closes| >= 2 * period && Aligned(high, low, closes)
  }

  /** The value the index has at a bar, if it has one. */
  function AdxOf(high: seq<real>, low: seq<real>, closes: seq<real>, period: int, i: nat): Option<real> {
    if !AdxApplies(high, low, closes, period) || i < 2 * period - 1 || i >= |closes| then None
    else Some(AdxAt(DxSeries(Moves(high, low, closes), period), period, i))
  }

  /** The index is a percentage wherever it exists, for any prices at all. */
  lemma AdxIsAPercentage(high: seq<real>, low: seq<real>, closes: seq<real>, period: int, i: nat)
    ensures AdxOf(high, low, closes, period, i).Some?
        <==> AdxApplies(high, low, closes, period) && 2 * period - 1 <= i < |closes|
    ensures AdxOf(high, low, closes, period, i).Some? ==> InRange(AdxOf(high, low, closes, period, i).value)
  {
    if AdxOf(high, low, closes, period, i).Some? {
      var moves := Moves(high, low, closes);
      forall m | m in moves ensures NonNegative(m) {
        var k :| 0 <= k < |moves| && moves[k] == m;
        MovesAreNonNegative(high, low, closes, k);
      }
      var dx := DxSeries(moves, period);
      forall k | period <= k < |dx| ensures InRange(dx[k]) {
        WilderIsNonNegative(moves, period, k);
        DxInRange(Wilder(moves, period, k));
      }
      AdxInRange(dx, period, i);
    }
  }

  /** Over valid bars the two directional indicators never exceed 100 together. */
  lemma DirectionalIndicatorsFit(high: seq<real>, low: seq<real>, closes: seq<real>, period: nat, i: nat)
    requires Aligned(high, low, closes) && 0 < period <= i < |closes|
    requires forall k :: 0 <= k < |closes| ==> ValidBar(high, low, closes, k)
    ensures var s := Wilder(Moves(high, low, closes), period, i);
      s.range != 0.0 ==> InRange(Percent(s.plus, s.range) + Percent(s.minus, s.range))
  {
    var moves := Moves(high, low, closes);
    forall m | m in moves ensures NonNegative(m) && Fits(m) {
      var k :| 0 <= k < |moves| && moves[k] == m;
      MovesAreNonNegative(high, low, closes, k);
      MovementFitsRange(high, low, closes, k);
    }
    WilderIsNonNegative(moves, period, i);
    WilderFits(moves, period, i);
    if Wilder(moves, period, i).range != 0.0 { IndicatorsShareTheRange(Wilder(moves, period, i)); }
  }

  /** First pass: true range and directional movement of every bar. */
  method DirectionalMoves(high: seq<real>, low: seq<real>, closes: seq<real>) returns (moves: seq<Move>)
    requires Aligned(high, low, closes)
    ensures moves == Moves(high, low, closes)
  {
    moves := [];
    for i := 0 to |closes|
      invariant |moves| == i && moves == Moves(high, low, closes)[..i]
    {
      var move := Move(0.0, 0.0, 0.0);
      if i > 0 {
        var hl := high[i] - low[i];
        var hc, lc := Abs(high[i] - closes[i-1]), Abs(low[i] - closes[i-1]);
        var up, down := high[i] - high[i-1], low[i-1] - low[i];
        move := Move(Max(hl, Max(hc, lc)), 0.0, 0.0);
        if up > down && up > 0.0 { move := move.(plus := up); }
        if down > up && down > 0.0 { move := move.(minus := down); }
      }
      moves := moves + [move];
    }
  }

  /** Second pass: the smoothed sums, and the directional index they make. */
  method DirectionalIndex(moves: seq<Move>, period: nat) returns (dx: seq<real>)
    requires 0 < period < |moves|
    ensures dx == DxSeries(moves, period)
  {
    hide SmoothMove;
    var s := Move(0.0, 0.0, 0.0);
    for i := 1 to period + 1
      invariant s == SumMoves(moves[1..i])
    {
      assert moves[1..i+1][..i-1] == moves[1..i];
      s := Plus(s, moves[i]);
    }
    dx := seq(period, _ => 0.0) + [Dx(s)];
    for i := period + 1 to |moves|
      invariant |dx| == i && s == Wilder(moves, period, i - 1)
      invariant dx == DxSeries(moves, period)[..i]
    {
      s := SmoothMove(s, moves[i], period);
      dx := dx + [Dx(s)];
    }
  }

  /** The index at every bar before `n`, and nothing elsewhere. */
  ghost predicate AdxUpTo(dx: seq<real>, period: nat, out: seq<Option<real>>, n: int)
    requires 0 < period
  {
    && |out| == |dx|
    && forall k :: 0 <= k < |dx| ==> out[k] == if 2 * period - 1 <= k < n then Some(AdxAt(dx, period, k)) else None
  }

  lemma NoAdxYet(dx: seq<real>, period: nat, out: seq<Option<real>>)
    requires 0 < period && |out| == |dx| && forall k :: 0 <= k < |out| ==> out[k] == None
    ensures AdxUpTo(dx, period, out, 2 * period - 1)
  {}

  lemma AdxGrows(dx: seq<real>, period: nat, out: seq<Option<real>>, i: int)
    requires 0 < period && 2 * period - 1 <= i < |dx| && AdxUpTo(dx, period, out, i)
    ensures |out| == |dx| && AdxUpTo(dx, period, out[i := Some(AdxAt(dx, period, i))], i + 1)
  {
    hide AdxAt;
  }

  lemma AllAdx(dx: seq<real>, period: nat, out: seq<Option<real>>)
    requires 0 < period && AdxUpTo(dx, period, out, |dx|)
    ensures |out| == |dx|
    ensures forall k :: 0 <= k < |dx| ==> out[k] == if k < 2 * period - 1 then None else Some(AdxAt(dx, period, k))
  {
    hide AdxAt;
  }

  /** Third pass: the mean of the first `period` values, then the running one. */
  method AverageDx(dx: seq<real>, period: nat) returns (out: seq<Option<real>>)
    requires 0 < period && 2 * period <= |dx|
    ensures |out| == |dx|
    ensures forall k :: 0 <= k < |dx| ==> out[k] == if k < 2 * period - 1 then None else Some(AdxAt(dx, period, k))
  {
    hide Averaged, Mean, AdxUpTo;
    var sum := 0.0;
    for i := period to 2 * period
      invariant sum == Sum(dx[period..i])
    {
      assert dx[period..i+1][..i-period] == dx[period..i];
      sum := sum + dx[i];
    }
    var previous := Mean(sum, period);
    out := seq(|dx|, _ => None);
    NoAdxYet(dx, period, out);
    AdxGrows(dx, period, out, 2 * period - 1);
    out := out[2*period-1 := Some(previous)];
    for i := 2 * period to |dx|
      invariant |out| == |dx| && previous == AdxAt(dx, period, i - 1)
      invariant AdxUpTo(dx, period, out, i)
    {
      previous := Averaged(previous, dx[i], period);
      AdxGrows(dx, period, out, i);
      out := out[i := Some(previous)];
    }
    AllAdx(dx, period, out);
  }

  method Adx(high: seq<real>, low: seq<real>, closes: seq<real>, period: int) returns (out: seq<Option<real>>)
    ensures |out| == |closes|
    ensures forall i :: 0 <= i < |out| ==> out[i] == AdxOf(high, low, closes, period, i)
  {
    out := seq(|closes|, _ => None);
    if period <= 0 || |closes| < 2 * period || |high| != |closes| || |low| != |closes| { return; }
    var moves := DirectionalMoves(high, low, closes);
    var dx := DirectionalIndex(moves, period);
    out := AverageDx(dx, period);
  }

  // ---------------------------------------------------------------- the index on the bars

  /** The range is the longest of the three stretches between the bar's ends and the
      previous close; of the two movements only the larger counts, and only upwards
      for highs and downwards for lows. */
  predicate IsMove(high: seq<real>, low: seq<real>, closes: seq<real>, i: nat, m: Move)
    requires Aligned(high, low, closes) && 0 < i < |closes|
  {
    var h, l, c := high[i], low[i], closes[i-1];
    var up, down := h - high[i-1], low[i-1] - l;
    && m.range >= h - l && m.range >= h - c && m.range >= c - h && m.range >= l - c && m.range >= c - l
    && (m.range == h - l || m.range == h - c || m.range == c - h || m.range == l - c || m.range == c - l)
    && m.plus == (if up > 0.0 && up > down then up else 0.0)
    && m.minus == (if down > 0.0 && down > up then down else 0.0)
  }

  /** A smoothed value: a `period`-th of the one before less, and the new one more. */
  predicate SmoothsOn(was: real, x: real, period: nat, now: real) {
    period as real * (now - x) == (period as real - 1.0) * was
  }

  /** A running mean: the one before counts `period` - 1 times, the new value once. */
  predicate AveragesOn(was: real, x: real, period: nat, now: real) {
    period as real * now == (period as real - 1.0) * was + x
  }

  /** Smoothed sums of ranges and movements: the plain sums of the first `period`
      moves, and every later move smoothed in. */
  ghost predicate AreSmoothed(moves: seq<Move>, period: nat, s: nat -> Move) {
    && (0 < period < |moves| ==>
          && s(period).range == Total(moves[1..period+1], _ => true, (m: Move) => m.range)
          && s(period).plus == Total(moves[1..period+1], _ => true, (m: Move) => m.plus)
          && s(period).minus == Total(moves[1..period+1], _ => true, (m: Move) => m.minus))
    && forall i: nat {:trigger s(i)} :: period < i < |moves| ==>
         && SmoothsOn(s(i - 1).range, moves[i].range, period, s(i).range)
         && SmoothsOn(s(i - 1).plus, moves[i].plus, period, s(i).plus)
         && SmoothsOn(s(i - 1).minus, moves[i].minus, period, s(i).minus)
  }

  /** The directional index of smoothed movements: their difference in percent of
      their sum, and 0 where there is no range or no movement. */
  predicate IsDx(s: Move, dx: real) {
    if s.range == 0.0 || s.plus + s.minus == 0.0 then dx == 0.0
    else dx * (s.plus + s.minus) == 100.0 * Abs(s.plus - s.minus)
  }

  /** The average index: the mean of the first `period` directional indices, and then
      one new one in `period`. */
  ghost predicate IsAverage(dx: seq<real>, period: nat, adx: nat -> real) {
    && (0 < 2 * period <= |dx| ==>
          period as real * adx(2 * period - 1) == Total(dx[period..2*period], _ => true, x => x))
    && forall i: nat {:trigger adx(i)} :: 0 < 2 * period <= i < |dx| ==> AveragesOn(adx(i - 1), dx[i], period, adx(i))
  }

  lemma MoveExactly(high: seq<real>, low: seq<real>, closes: seq<real>, i: nat)
    requires Aligned(high, low, closes) && 0 < i < |closes|
    ensures IsMove(high, low, closes, i, MoveAt(high, low, closes, i))
  {}

  lemma {:induction false} SumIsTotal(xs: seq<real>)
    ensures Sum(xs) == Total(xs, _ => true, x => x)
  {
    if xs != [] {
      var front, last := xs[..|xs|-1], xs[|xs|-1];
      SumIsTotal(front);
      TotalAppend(front, last, _ => true, x => x);
      assert xs == front + [last];
    }
  }

  lemma {:induction false} SumMovesIsTotal(moves: seq<Move>)
    ensures SumMoves(moves).range == Total(moves, _ => true, (m: Move) => m.range)
    ensures SumMoves(moves).plus == Total(moves, _ => true, (m: Move) => m.plus)
    ensures SumMoves(moves).minus == Total(moves, _ => true, (m: Move) => m.minus)
  {
    if moves != [] {
      var front, last := moves[..|moves|-1], moves[|moves|-1];
      SumMovesIsTotal(front);
      TotalAppend(front, last, _ => true, (m: Move) => m.range);
      TotalAppend(front, last, _ => true, (m: Move) => m.plus);
      TotalAppend(front, last, _ => true, (m: Move) => m.minus);
      assert moves == front + [last];
    }
  }

  lemma SmoothExactly(s: real, x: real, period: nat)
    requires period > 0
    ensures SmoothsOn(s, x, period, Smooth(s, x, period))
  {
    var n := period as real;
    var share := s / n;
    assert n * share == s;
    Distribute(n, s, -share);
  }

  lemma AveragedExactly(previous: real, x: real, period: nat)
    requires period > 0
    ensures AveragesOn(previous, x, period, Averaged(previous, x, period))
  {}

  lemma MeanExactly(sum: real, n: nat)
    requires n > 0
    ensures n as real * Mean(sum, n) == sum
  {}

  lemma DxExactly(s: Move)
    requires s.range >= 0.0
    ensures IsDx(s, Dx(s))
  {
    hide Abs;
    if s.range > 0.0 {
      var p, q := Percent(s.plus, s.range), Percent(s.minus, s.range);
      PercentOf(s.plus, s.range);
      PercentOf(s.minus, s.range);
      SumOfParts(p, q, s.plus, s.minus, s.range);
      if p + q != 0.0 {
        PercentOf(Abs(p - q), p + q);
        SameRatio(Dx(s), p + q, Abs(p - q), s.range, 100.0 * (s.plus + s.minus), 100.0 * Abs(s.plus - s.minus));
      }
    }
  }

  /** Percentages of one whole add up, and differ, like their parts. */
  lemma SumOfParts(p: real, q: real, plus: real, minus: real, whole: real)
    requires whole > 0.0 && p * whole == 100.0 * plus && q * whole == 100.0 * minus
    ensures (p + q) * whole == 100.0 * (plus + minus) && (p + q == 0.0 <==> plus + minus == 0.0)
    ensures Abs(p - q) * whole == 100.0 * Abs(plus - minus)
  {
    var diff := (p - q) * whole;
    assert diff == 100.0 * (plus - minus);
    if p >= q {
      NonNegativeProduct(p - q, whole, diff);
    } else {
      PositiveProduct(q - p, whole, -diff);
    }
  }

  lemma SameRatio(dx: real, part: real, of: real, whole: real, parts: real, ofs: real)
    requires dx * part == 100.0 * of && part * whole == parts && of * whole == ofs
    ensures dx * parts == 100.0 * ofs
  {
    assert dx * parts == dx * part * whole;
  }

  /** The index of any bars, on their prices: there are smoothed sums of the ranges and
      movements, and directional indices of them, whose running average it is. */
  ghost predicate AdxOnBars(high: seq<real>, low: seq<real>, closes: seq<real>, period: nat, moves: seq<Move>,
                            sums: nat -> Move, dx: seq<real>, adx: nat -> real)
    requires Aligned(high, low, closes)
  {
    && |moves| == |dx| == |closes|
    && (forall i: nat :: 0 < i < |closes| ==> IsMove(high, low, closes, i, moves[i]))
    && AreSmoothed(moves, period, sums)
    && (forall i: nat :: period <= i < |closes| ==> IsDx(sums(i), dx[i]))
    && IsAverage(dx, period, adx)
  }

  /** Smoothed sums and averages as total functions of the position. */
  function SumsAt(moves: seq<Move>, period: nat): nat -> Move {
    (i: nat) => if 0 < period <= i < |moves| then Wilder(moves, period, i) else Move(0.0, 0.0, 0.0)
  }

  function AveragesAt(dx: seq<real>, period: nat): nat -> real {
    (i: nat) => if 0 < period && 2 * period - 1 <= i < |dx| then AdxAt(dx, period, i) else 0.0
  }

  lemma WilderSmooths(moves: seq<Move>, period: nat)
    requires period > 0
    ensures AreSmoothed(moves, period, SumsAt(moves, period))
  {
    hide SmoothsOn, Smooth;
    if period < |moves| { SumMovesIsTotal(moves[1..period+1]); }
    forall i: nat | period < i < |moves|
      ensures var s, was := SumsAt(moves, period)(i), SumsAt(moves, period)(i - 1);
        && SmoothsOn(was.range, moves[i].range, period, s.range)
        && SmoothsOn(was.plus, moves[i].plus, period, s.plus)
        && SmoothsOn(was.minus, moves[i].minus, period, s.minus)
    {
      var was := Wilder(moves, period, i - 1);
      SmoothExactly(was.range, moves[i].range, period);
      SmoothExactly(was.plus, moves[i].plus, period);
      SmoothExactly(was.minus, moves[i].minus, period);
    }
  }

  lemma AdxIsAverage(dx: seq<real>, period: nat)
    requires period > 0
    ensures IsAverage(dx, period, AveragesAt(dx, period))
  {
    hide AveragesOn, Averaged, Mean;
    if 2 * period <= |dx| {
      SumIsTotal(dx[period..2*period]);
      MeanExactly(Sum(dx[period..2*period]), period);
    }
    forall i: nat | 2 * period <= i < |dx|
      ensures AveragesOn(AveragesAt(dx, period)(i - 1), dx[i], period, AveragesAt(dx, period)(i))
    {
      AveragedExactly(AdxAt(dx, period, i - 1), dx[i], period);
    }
  }

  /** The index is what its definition says, for any prices: there from bar
      2 * period - 1 on, when there are enough aligned bars, and nowhere else. */
  lemma AdxExactly(high: seq<real>, low: seq<real>, closes: seq<real>, period: int)
    returns (moves: seq<Move>, sums: nat -> Move, dx: seq<real>, adx: nat -> real)
    ensures forall i: nat ::
        if period > 0 && |high| == |low| == |closes| && 2 * period - 1 <= i < |closes|
          then AdxOf(high, low, closes, period, i) == Some(adx(i))
          else AdxOf(high, low, closes, period, i) == None
    ensures period > 0 && Aligned(high, low, closes) ==>
        AdxOnBars(high, low, closes, period, moves, sums, dx, adx)
  {
    moves, dx, sums, adx := [], [], (i: nat) => Move(0.0, 0.0, 0.0), (i: nat) => 0.0;
    if period > 0 && Aligned(high, low, closes) {
      moves := Moves(high, low, closes);
      sums, dx := SumsAt(moves, period), DxSeries(moves, period);
      adx := AveragesAt(dx, period);
      MovesAreMoves(high, low, closes);
      WilderSmooths(moves, period);
      DxSeriesExactly(high, low, closes, period);
      AdxIsAverage(dx, period);
    }
  }

  lemma MovesAreMoves(high: seq<real>, low: seq<real>, closes: seq<real>)
    requires Aligned(high, low, closes)
    ensures forall i: nat :: 0 < i < |closes| ==> IsMove(high, low, closes, i, Moves(high, low, closes)[i])
    ensures forall m :: m in Moves(high, low, closes) ==> NonNegative(m)
  {
    hide IsMove, MoveAt;
    var moves := Moves(high, low, closes);
    forall i: nat | i < |closes| ensures NonNegative(moves[i]) && (i > 0 ==> IsMove(high, low, closes, i, moves[i])) {
      if i > 0 { MoveExactly(high, low, closes, i); }
      MovesAreNonNegative(high, low, closes, i);
    }
  }

  lemma DxSeriesExactly(high: seq<real>, low: seq<real>, closes: seq<real>, period: nat)
    requires period > 0 && Aligned(high, low, closes)
    ensures var moves := Moves(high, low, closes);
      forall i: nat :: period <= i < |closes| ==> IsDx(SumsAt(moves, period)(i), DxSeries(moves, period)[i])
  {
    hide IsDx, Dx, Moves;
    var moves := Moves(high, low, closes);
    MovesAreMoves(high, low, closes);
    forall i: nat | period <= i < |closes| ensures IsDx(SumsAt(moves, period)(i), DxSeries(moves, period)[i]) {
      WilderIsNonNegative(moves, period, i);
      DxExactly(Wilder(moves, period, i));
    }
  }

  // ---------------------------------------------------------------- stochastic and Williams

  function Highest(xs: seq<real>): real
    requires xs != []
  {
    if |xs| == 1 then xs[0] else Max(Highest(xs[..|xs|-1]), xs[|xs|-1])
  }

  function Lowest(xs: seq<real>): real
    requires xs != []
  {
    if |xs| == 1 then xs[0] else Min(Lowest(xs[..|xs|-1]), xs[|xs|-1])
  }

  /** Where a close stands between a low and a high: 0 at the low, 100 at the high,
      the middle when they coincide. */
  function PercentK(close: real, hh: real, ll: real): real {
    if hh == ll then 50.0 else Percent(close - ll, hh - ll)
  }

  /** How far a close stands below the high, downwards from 0. */
  function PercentR(close: real, hh: real, ll: real): real {
    if hh == ll then -50.0 else -100.0 * (hh - close) / (hh - ll)
  }

  predicate Covers(high: seq<real>, low: seq<real>, closes: seq<real>, period: int) {
    period > 0 && |closes| >= period && Aligned(high, low, closes)
  }

  function StochasticAt(high: seq<real>, low: seq<real>, closes: seq<real>, period: int, i: nat): Option<real> {
    if !Covers(high, low, closes, period) || i < period - 1 || i >= |closes| then None
    else Some(PercentK(closes[i], Highest(high[i-period+1..i+1]), Lowest(low[i-period+1..i+1])))
  }

  function WilliamsAt(high: seq<real>, low: seq<real>, closes: seq<real>, period: int, i: nat): Option<real> {
    if !Covers(high, low, closes, period) || i < period - 1 || i >= |closes| then None
    else Some(PercentR(closes[i], Highest(high[i-period+1..i+1]), Lowest(low[i-period+1..i+1])))
  }

  lemma OppositeEnds(close: real, hh: real, ll: real)
    ensures PercentR(close, hh, ll) == PercentK(close, hh, ll) - 100.0
  {
    if hh != ll {
      var d := hh - ll;
      PercentOf(close - ll, d);
      var r := -100.0 * (hh - close) / d;
      assert r * d == -100.0 * (hh - close);
      SameQuotient(r, Percent(close - ll, d) - 100.0, d);
    }
  }

  lemma SameQuotient(x: real, y: real, d: real)
    requires d != 0.0 && x * d == y * d
    ensures x == y
  {
    assert (x - y) * d == 0.0;
    assert x == (x * d) / d && y == (y * d) / d;
  }

  /** Williams %R is %K less 100 wherever either exists, flat windows included. */
  lemma WilliamsIsShiftedStochastic(high: seq<real>, low: seq<real>, closes: seq<real>, period: int, i: nat)
    ensures WilliamsAt(high, low, closes, period, i)
         == match StochasticAt(high, low, closes, period, i) { case None => None case Some(k) => Some(k - 100.0) }
  {
    if StochasticAt(high, low, closes, period, i).Some? {
      OppositeEnds(closes[i], Highest(high[i-period+1..i+1]), Lowest(low[i-period+1..i+1]));
    }
  }

  lemma {:induction false} Extremes(high: seq<real>, low: seq<real>, i: nat)
    requires |high| == |low| && i < |high|
    ensures Lowest(low) <= low[i] && high[i] <= Highest(high)
    decreases |high|
  {
    if |high| > 1 {
      Extremes(high[..|high|-1], low[..|low|-1], if i < |high| - 1 then i else 0);
    }
  }

  /** The highest high and the lowest low of the `period` bars up to `i`. */
  ghost predicate OnWindow(high: seq<real>, low: seq<real>, period: nat, i: nat, hh: real, ll: real)
    requires |high| == |low| && i < |high| && period <= i + 1
  {
    && (forall j :: i + 1 - period <= j <= i ==> high[j] <= hh && ll <= low[j])
    && (exists j :: i + 1 - period <= j <= i && high[j] == hh)
    && (exists j :: i + 1 - period <= j <= i && low[j] == ll)
  }

  /** %K and %R without their quotients: 50 and -50 in a flat window, and otherwise the
      close's distance from the low, and from the high, in percent of the window. */
  predicate Places(close: real, hh: real, ll: real, k: real, r: real) {
    if hh == ll then k == 50.0 && r == -50.0
    else k * (hh - ll) == 100.0 * (close - ll) && r * (hh - ll) == -100.0 * (hh - close)
  }

  lemma {:induction false} HighestAndLowest(high: seq<real>, low: seq<real>)
    requires |high| == |low| > 0
    ensures Highest(high) in high && forall x :: x in high ==> x <= Highest(high)
    ensures Lowest(low) in low && forall x :: x in low ==> Lowest(low) <= x
  {
    if |high| > 1 {
      var h, l := high[..|high|-1], low[..|low|-1];
      HighestAndLowest(h, l);
      assert high == h + [high[|high|-1]] && low == l + [low[|low|-1]];
    }
  }

  lemma ExtremesOfWindow(high: seq<real>, low: seq<real>, period: nat, i: nat)
    requires |high| == |low| && i < |high| && 0 < period <= i + 1
    ensures OnWindow(high, low, period, i, Highest(high[i+1-period..i+1]), Lowest(low[i+1-period..i+1]))
  {
    hide Highest, Lowest;
    var h, l := high[i+1-period..i+1], low[i+1-period..i+1];
    HighestAndLowest(h, l);
    forall j | i + 1 - period <= j <= i ensures high[j] in h && low[j] in l {
      assert h[j-(i+1-period)] == high[j] && l[j-(i+1-period)] == low[j];
    }
    var a :| 0 <= a < |h| && h[a] == Highest(h);
    var b :| 0 <= b < |l| && l[b] == Lowest(l);
    assert high[a+i+1-period] == Highest(h) && low[b+i+1-period] == Lowest(l);
  }

  lemma PlacesExactly(close: real, hh: real, ll: real)
    ensures Places(close, hh, ll, PercentK(close, hh, ll), PercentR(close, hh, ll))
  {
    if hh != ll {
      PercentOf(close - ll, hh - ll);
      var r := -100.0 * (hh - close) / (hh - ll);
      assert r * (hh - ll) == -100.0 * (hh - close);
    }
  }

  /** %K and %R of any bars, on their prices: both from bar `period` - 1 on, when there
      are enough aligned bars, and nowhere else. */
  lemma PlacedExactly(high: seq<real>, low: seq<real>, closes: seq<real>, period: int, i: nat)
    returns (hh: real, ll: real)
    ensures var k, r := StochasticAt(high, low, closes, period, i), WilliamsAt(high, low, closes, period, i);
      if period > 0 && |high| == |low| == |closes| && period - 1 <= i < |closes| then
        k.Some? && r.Some? && OnWindow(high, low, period, i, hh, ll) && Places(closes[i], hh, ll, k.value, r.value)
      else k == None && r == None
  {
    hide Highest, Lowest, OnWindow, Places, PercentK, PercentR;
    hh, ll := 0.0, 0.0;
    if period > 0 && Aligned(high, low, closes) && period - 1 <= i < |closes| {
      hh, ll := Highest(high[i+1-period..i+1]), Lowest(low[i+1-period..i+1]);
      ExtremesOfWindow(high, low, period, i);
      PlacesExactly(closes[i], hh, ll);
      assert i + 1 - period == i - period + 1;
    }
  }

  /** Over valid bars %K is a percentage. */
  lemma StochasticIsAPercentage(high: seq<real>, low: seq<real>, closes: seq<real>, period: int, i: nat)
    requires StochasticAt(high, low, closes, period, i).Some? && ValidBar(high, low, closes, i)
    ensures InRange(StochasticAt(high, low, closes, period, i).value)
  {
    var h, l := high[i-period+1..i+1], low[i-period+1..i+1];
    Extremes(h, l, period - 1);
    var hh, ll := Highest(h), Lowest(l);
    if hh != ll {
      PercentOf(closes[i] - ll, hh - ll);
      PercentInRange(closes[i] - ll, hh - ll, Percent(closes[i] - ll, hh - ll));
    }
  }

  /** The scan of one window, which starts from its newest bar. */
  method WindowExtremes(high: seq<real>, low: seq<real>, from: nat, i: nat) returns (hh: real, ll: real)
    requires from <= i < |high| == |low|
    ensures hh == Highest(high[from..i+1]) && ll == Lowest(low[from..i+1])
  {
    hh, ll := high[i], low[i];
    for j := from to i + 1
      invariant j == from ==> hh == high[i] && ll == low[i]
      invariant j > from ==> hh == Max(Highest(high[from..j]), high[i]) && ll == Min(Lowest(low[from..j]), low[i])
    {
      assert j > from ==> high[from..j+1][..j-from] == high[from..j] && low[from..j+1][..j-from] == low[from..j];
      hh := Max(hh, high[j]);
      ll := Min(ll, low[j]);
    }
    Extremes(high[from..i+1], low[from..i+1], i - from);
  }

  method WilliamsR(high: seq<real>, low: seq<real>, closes: seq<real>, period: int) returns (out: seq<Option<real>>)
    ensures |out| == |closes|
    ensures forall i :: 0 <= i < |out| ==> out[i] == WilliamsAt(high, low, closes, period, i)
  {
    hide Highest, Lowest;
    out := seq(|closes|, _ => None);
    if period <= 0 || |closes| < period || |high| != |closes| || |low| != |closes| { return; }
    for i := period - 1 to |closes|
      invariant |out| == |closes|
      invariant forall k :: 0 <= k < i ==> out[k] == WilliamsAt(high, low, closes, period, k)
      invariant forall k :: i <= k < |out| ==> out[k] == None
    {
      var hh, ll := WindowExtremes(high, low, i - period + 1, i);
      out := out[i := Some(if hh == ll then -50.0 else -100.0 * (hh - closes[i]) / (hh - ll))];
    }
  }

  function Values(k: seq<Option<real>>): (v: seq<real>)
    ensures |v| == |k|
  {
    seq(|k|, i requires 0 <= i < |k| => if k[i].Some? then k[i].value else 0.0)
  }

  /** %D: the mean of the last `dPeriod` %K values, once that many exist. */
  function SignalAt(k: seq<Option<real>>, first: nat, dPeriod: int, i: nat): Option<real>
    requires dPeriod > 0
  {
    if i < first + dPeriod - 1 || i >= |k| then None
    else Some(Mean(Sum(Values(k[i-dPeriod+1..i+1])), dPeriod))
  }

  function OrZero(x: Option<real>): real { if x.Some? then x.value else 0.0 }

  lemma {:induction false} SumOfValues(k: seq<Option<real>>)
    ensures Sum(Values(k)) == Total(k, (x: Option<real>) => x.Some?, OrZero)
  {
    if k != [] {
      var front, last := k[..|k|-1], k[|k|-1];
      SumOfValues(front);
      TotalAppend(front, last, (x: Option<real>) => x.Some?, OrZero);
      assert k == front + [last] && Values(k) == Values(front) + [Values(k)[|k|-1]];
    }
  }

  /** %D without its quotient: `dPeriod` times it is the sum of the last `dPeriod` %K
      values, from the first bar that has so many. */
  lemma SignalExactly(k: seq<Option<real>>, first: nat, dPeriod: int, i: nat)
    requires dPeriod > 0
    ensures var d := SignalAt(k, first, dPeriod, i);
      if first + dPeriod - 1 <= i < |k| then
        d.Some? && dPeriod as real * d.value
                == Total(k[i-dPeriod+1..i+1], (x: Option<real>) => x.Some?, OrZero)
      else d == None
  {
    if first + dPeriod - 1 <= i < |k| {
      SumOfValues(k[i-dPeriod+1..i+1]);
      MeanExactly(Sum(Values(k[i-dPeriod+1..i+1])), dPeriod);
    }
  }

  /** A mean of percentages is a percentage. */
  lemma SignalIsAPercentage(k: seq<Option<real>>, first: nat, dPeriod: int, i: nat)
    requires dPeriod > 0 && forall j :: first <= j < |k| ==> k[j].Some? && InRange(k[j].value)
    ensures SignalAt(k, first, dPeriod, i).Some? ==> InRange(SignalAt(k, first, dPeriod, i).value)
  {
    if SignalAt(k, first, dPeriod, i).Some? {
      var window := Values(k[i-dPeriod+1..i+1]);
      SumInRange(window);
      MeanInRange(Sum(window), dPeriod as real, Mean(Sum(window), dPeriod));
    }
  }

  method Stochastic(high: seq<real>, low: seq<real>, closes: seq<real>, kPeriod: int, dPeriod: int)
    returns (k: seq<Option<real>>, d: seq<Option<real>>)
    ensures |k| == |d| == |closes|
    ensures dPeriod <= 0 ==> forall i :: 0 <= i < |k| ==> k[i] == None && d[i] == None
    ensures dPeriod > 0 ==> forall i :: 0 <= i < |k| ==> k[i] == StochasticAt(high, low, closes, kPeriod, i)
    ensures dPeriod > 0 && Covers(high, low, closes, kPeriod) ==>
              forall i :: 0 <= i < |d| ==> d[i] == SignalAt(k, kPeriod - 1, dPeriod, i)
    ensures !Covers(high, low, closes, kPeriod) ==> forall i :: 0 <= i < |d| ==> d[i] == None
  {
    k, d := seq(|closes|, _ => None), seq(|closes|, _ => None);
    if kPeriod <= 0 || dPeriod <= 0 || |closes| < kPeriod || |high| != |closes| || |low| != |closes| { return; }
    k := FastLine(high, low, closes, kPeriod);
    d := SignalLine(k, kPeriod - 1, dPeriod);
  }

  method FastLine(high: seq<real>, low: seq<real>, closes: seq<real>, period: nat) returns (k: seq<Option<real>>)
    requires Covers(high, low, closes, period)
    ensures |k| == |closes| && forall i :: 0 <= i < |k| ==> k[i] == StochasticAt(high, low, closes, period, i)
  {
    hide Highest, Lowest;
    k := seq(|closes|, _ => None);
    for i := period - 1 to |closes|
      invariant |k| == |closes|
      invariant forall j :: 0 <= j < i ==> k[j] == StochasticAt(high, low, closes, period, j)
      invariant forall j :: i <= j < |k| ==> k[j] == None
    {
      var hh, ll := WindowExtremes(high, low, i - period + 1, i);
      k := k[i := Some(if hh == ll then 50.0 else 100.0 * (closes[i] - ll) / (hh - ll))];
    }
  }

  method SignalLine(k: seq<Option<real>>, first: nat, dPeriod: nat) returns (d: seq<Option<real>>)
    requires dPeriod > 0
    ensures |d| == |k| && forall i :: 0 <= i < |d| ==> d[i] == SignalAt(k, first, dPeriod, i)
  {
    d := seq(|k|, _ => None);
    var i := first + dPeriod - 1;
    while i < |k|
      invariant first + dPeriod - 1 <= i && |d| == |k|
      invariant forall j :: 0 <= j < |d| ==> d[j] == if j < i then SignalAt(k, first, dPeriod, j) else None
    {
      var s := WindowSum(k, i - dPeriod + 1, i + 1);
      d := d[i := Some(Mean(s, dPeriod))];
      i := i + 1;
    }
  }

  method WindowSum(k: seq<Option<real>>, from: nat, to: nat) returns (s: real)
    requires from <= to <= |k|
    ensures s == Sum(Values(k[from..to]))
  {
    s := 0.0;
    for j := from to to
      invariant s == Sum(Values(k[from..j]))
    {
      assert Values(k[from..j+1])[..j-from] == Values(k[from..j]);
      s := s + if k[j].Some? then k[j].value else 0.0;
    }
  }
}
