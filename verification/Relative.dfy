/** A share against an index: the sessions the comparison rests on, and the spans
    its beta is regressed over. */
module Relative {
  import opened IndexSeries
  import opened Regression
  import opened Tallies
  import opened Wrappers

  datatype Session = Session(day: int, adjusted: real, traded: bool)

  function SessionDay(): Session -> int { (s: Session) => s.day }

  const MIN_BETA_PAIRS := 20

  // ---------------------------------------------------------------- the share's own window

  /** A session the comparison can use, no later than `to`. */
  predicate Usable(s: Session, to: int) { s.traded && s.adjusted > 0.0 && s.day <= to }

  function UsableSessions(sessions: seq<Session>, to: int): seq<Session> {
    if sessions == [] then []
    else UsableSessions(sessions[..|sessions|-1], to)
         + (if Usable(sessions[|sessions|-1], to) then [sessions[|sessions|-1]] else [])
  }

  lemma {:induction false} UsableAscend(sessions: seq<Session>, to: int)
    requires Ascending(sessions, SessionDay())
    ensures Ascending(UsableSessions(sessions, to), SessionDay())
    ensures forall s :: s in UsableSessions(sessions, to) ==> s in sessions && Usable(s, to)
  {
    if sessions != [] {
      var front, last := sessions[..|sessions|-1], sessions[|sessions|-1];
      UsableAscend(front, to);
      forall s | s in UsableSessions(front, to) ensures s.day < last.day {
        var i :| 0 <= i < |front| && front[i] == s;
        assert SessionDay()(sessions[i]) < SessionDay()(last);
      }
    }
  }

  /** The usable sessions: traded, with a price, and no later than `to`. */
  lemma {:induction false} UsableExactly(sessions: seq<Session>, to: int)
    ensures forall s ::
        s in UsableSessions(sessions, to) <==> s in sessions && s.traded && s.adjusted > 0.0 && s.day <= to
  {
    if sessions != [] {
      UsableExactly(sessions[..|sessions|-1], to);
      assert sessions == sessions[..|sessions|-1] + [sessions[|sessions|-1]];
    }
  }

  lemma UsableGrows(sessions: seq<Session>, to: int, i: nat)
    requires i < |sessions| && Ascending(sessions, SessionDay())
    ensures UsableSessions(sessions[..i+1], to)
         == if Usable(sessions[i], to) then UsableSessions(sessions[..i], to) + [sessions[i]]
           else UsableSessions(sessions[..i], to)
    ensures Ascending(UsableSessions(sessions[..i+1], to), SessionDay())
  {
    assert sessions[..i+1][..i] == sessions[..i];
    UsableAscend(sessions[..i+1], to);
  }

  lemma {:induction false} NothingUsableLater(sessions: seq<Session>, to: int, i: nat)
    requires i <= |sessions| && forall k :: i <= k < |sessions| ==> sessions[k].day > to
    ensures UsableSessions(sessions, to) == UsableSessions(sessions[..i], to)
    decreases |sessions| - i
  {
    if i == |sessions| {
      assert sessions[..i] == sessions;
    } else {
      NothingUsableLater(sessions, to, i + 1);
      assert sessions[..i+1][..i] == sessions[..i];
    }
  }

  /** Where the window `from` cuts a list of usable sessions. */
  ghost predicate IsCut(usable: seq<Session>, from: Option<int>, base: Option<Session>, traded: seq<Session>) {
    var l := if from.Some? then From(usable, SessionDay(), from.value) else 0;
    && l <= |usable| && traded == usable[l..]
    && base == if l > 0 then Some(usable[l-1]) else None
  }

  lemma CutGrows(usable: seq<Session>, from: Option<int>, base: Option<Session>, traded: seq<Session>, s: Session)
    requires Ascending(usable + [s], SessionDay()) && IsCut(usable, from, base, traded)
    ensures if from.Some? && s.day < from.value then IsCut(usable + [s], from, Some(s), traded)
            else IsCut(usable + [s], from, base, traded + [s])
  {
    hide From, Ascending;
    if from.Some? {
      FrontAscends(usable, s);
      Splits(usable, SessionDay(), from.value);
      CutPoint(usable, s, from.value);
    }
    assert traded == usable[|usable| - |traded|..];
    assert traded + [s] == (usable + [s])[|usable| - |traded|..];
  }

  lemma FrontAscends(usable: seq<Session>, s: Session)
    requires Ascending(usable + [s], SessionDay())
    ensures Ascending(usable, SessionDay())
  {
    var more := usable + [s];
    forall i, j | 0 <= i < j < |usable| ensures SessionDay()(usable[i]) < SessionDay()(usable[j]) {
      assert more[i] == usable[i] && more[j] == usable[j];
    }
  }

  lemma CutPoint(usable: seq<Session>, s: Session, f: int)
    requires Ascending(usable, SessionDay()) && Ascending(usable + [s], SessionDay())
    ensures From(usable + [s], SessionDay(), f) == if s.day < f then |usable| + 1 else From(usable, SessionDay(), f)
    ensures s.day < f ==> From(usable, SessionDay(), f) == |usable|
  {
    var more := usable + [s];
    Splits(usable, SessionDay(), f);
    Splits(more, SessionDay(), f);
    var l, m := From(usable, SessionDay(), f), From(more, SessionDay(), f);
    assert more[|usable|] == s;
    var atL := if l < |usable| then usable[l] else s;
    assert l < |usable| ==> more[l] == atL && SessionDay()(more[l]) < SessionDay()(more[|usable|]);
    var atM := if m < |usable| then usable[m] else s;
    assert m < |usable| ==> more[m] == atM;
  }

  /** The share's traded sessions in the window, opened with the one in force when it
      begins: the rule the index windows follow, over its usable sessions. */
  method SelectTraded(sessions: seq<Session>, from: Option<int>, to: int) returns (traded: seq<Session>)
    requires Ascending(sessions, SessionDay())
    ensures traded == WithBase(UsableSessions(sessions, to), SessionDay(), from, to)
  {
    traded := [];
    var base: Option<Session> := None;
    var i := 0;
    while i < |sessions| && !(sessions[i].day > to)
      invariant i <= |sessions|
      invariant IsCut(UsableSessions(sessions[..i], to), from, base, traded)
    {
      var s := sessions[i];
      UsableGrows(sessions, to, i);
      if Usable(s, to) {
        CutGrows(UsableSessions(sessions[..i], to), from, base, traded, s);
      }
      if !s.traded || s.adjusted <= 0.0 {
      } else if from.Some? && s.day < from.value {
        base := Some(s);
      } else {
        traded := traded + [s];
      }
      i := i + 1;
    }
    assert forall k :: i <= k < |sessions| ==> SessionDay()(sessions[k]) > to by {
      assert forall k :: i < k < |sessions| ==> SessionDay()(sessions[i]) < SessionDay()(sessions[k]);
    }
    NothingUsableLater(sessions, to, i);
    UsableAscend(sessions, to);
    CutIsWindow(UsableSessions(sessions, to), from, to, base, traded);
    if base.Some? && (|traded| == 0 || traded[0].day > from.value) {
      traded := [base.value] + traded;
    }
  }

  lemma CutIsWindow(usable: seq<Session>, from: Option<int>, to: int, base: Option<Session>, traded: seq<Session>)
    requires Ascending(usable, SessionDay()) && (forall s :: s in usable ==> s.day <= to)
        && IsCut(usable, from, base, traded)
    ensures base.Some? ==> from.Some?
    ensures WithBase(usable, SessionDay(), from, to)
         == if base.Some? && (|traded| == 0 || traded[0].day > from.value) then [base.value] + traded else traded
  {
    forall k | 0 <= k < |usable| ensures SessionDay()(usable[k]) <= to { assert usable[k] in usable; }
    assert After(usable, SessionDay(), to) == |usable|;
    if from.Some? {
      OpenedCut(usable, from.value, to, base, traded);
    } else {
      assert usable[0..] == usable[0..|usable|] == usable;
    }
  }

  lemma OpenedCut(usable: seq<Session>, f: int, to: int, base: Option<Session>, traded: seq<Session>)
    requires Ascending(usable, SessionDay()) && After(usable, SessionDay(), to) == |usable|
        && IsCut(usable, Some(f), base, traded)
    ensures WithBase(usable, SessionDay(), Some(f), to)
         == if base.Some? && (|traded| == 0 || traded[0].day > f) then [base.value] + traded else traded
  {
    AroundOpening(usable, SessionDay(), f);
    Splits(usable, SessionDay(), f);
    var l, a := From(usable, SessionDay(), f), After(usable, SessionDay(), f);
    assert Between(usable, SessionDay(), Some(f), to) == traded;
    assert traded != [] ==> SessionDay()(traded[0]) == traded[0].day;
    if a == l && l > 0 {
      assert base == Some(usable[l-1]) == InForce(usable, SessionDay(), f);
    } else if a == l + 1 {
      assert traded[0] == usable[l] && InForce(usable, SessionDay(), f) == Some(usable[l]);
    }
  }

  // ---------------------------------------------------------------- market sessions

  /** The index's sessions in (a, b]: its points that changed. */
  function SessionsIn(index: seq<Point>, a: int, b: int): nat {
    if index == [] then 0
    else (if a < index[0].day <= b && !index[0].repeats then 1 else 0) + SessionsIn(index[1..], a, b)
  }

  lemma {:induction false} SessionsFrom(index: seq<Point>, a: int, b: int, lo: nat)
    requires lo <= |index| && forall k :: 0 <= k < lo ==> index[k].day <= a
    ensures SessionsIn(index, a, b) == SessionsIn(index[lo..], a, b)
    decreases lo
  {
    if lo == 0 {
      assert index[0..] == index;
    } else {
      SessionsFrom(index[1..], a, b, lo - 1);
      assert index[1..][lo-1..] == index[lo..];
    }
  }

  lemma {:induction false} NoSessionsPast(index: seq<Point>, a: int, b: int)
    requires forall k :: 0 <= k < |index| ==> index[k].day > b
    ensures SessionsIn(index, a, b) == 0
  {
    if index != [] { NoSessionsPast(index[1..], a, b); }
  }

  lemma {:induction false} SessionsAreCounted(index: seq<Point>, a: int, b: int)
    ensures SessionsIn(index, a, b) == Tally(index, (p: Point) => a < p.day <= b && !p.repeats)
  {
    if index != [] { SessionsAreCounted(index[1..], a, b); }
  }

  method MarketSessionsBetween(index: seq<Point>, a: int, b: int) returns (n: nat)
    requires Ascending(index, PointDay())
    ensures n == SessionsIn(index, a, b)
    ensures n == Tally(index, (p: Point) => a < p.day <= b && !p.repeats)
  {
    SessionsAreCounted(index, a, b);
    var lo := After(index, PointDay(), a);
    Splits(index, PointDay(), a);
    SessionsFrom(index, a, b, lo);
    hide After;
    n := 0;
    var i := lo;
    while i < |index| && !(index[i].day > b)
      invariant lo <= i <= |index|
      invariant SessionsIn(index[lo..], a, b) == n + SessionsIn(index[i..], a, b)
    {
      assert PointDay()(index[i]) > a;
      assert index[i..][1..] == index[i+1..];
      if !index[i].repeats { n := n + 1; }
      i := i + 1;
    }
    forall k | i <= k < |index| ensures index[k].day > b {
      assert PointDay()(index[i]) <= PointDay()(index[k]);
    }
    NoSessionsPast(index[i..], a, b);
  }

  /** Adjacent spans share no session and miss none. */
  lemma {:induction false} SessionsAdd(index: seq<Point>, a: int, b: int, c: int)
    requires a <= b <= c
    ensures SessionsIn(index, a, c) == SessionsIn(index, a, b) + SessionsIn(index, b, c)
  {
    if index != [] { SessionsAdd(index[1..], a, b, c); }
  }

  /** The market sessions between consecutive traded sessions, added up. */
  function SpanSessions(traded: seq<Session>, index: seq<Point>): nat {
    if |traded| < 2 then 0
    else SpanSessions(traded[..|traded|-1], index) + SessionsIn(index, traded[|traded|-2].day, traded[|traded|-1].day)
  }

  /** Every market session between the share's first and last trade falls into
      exactly one of its spans. */
  lemma {:induction false} SpansCoverTheMarket(traded: seq<Session>, index: seq<Point>)
    requires traded != [] && Ascending(traded, SessionDay())
    ensures SpanSessions(traded, index) == SessionsIn(index, traded[0].day, traded[|traded|-1].day)
    decreases |traded|
  {
    if |traded| == 1 {
      EmptySpan(index, traded[0].day);
    } else {
      var front := traded[..|traded|-1];
      SpansCoverTheMarket(front, index);
      assert SessionDay()(traded[0]) <= SessionDay()(traded[|traded|-2]) < SessionDay()(traded[|traded|-1]);
      SessionsAdd(index, traded[0].day, traded[|traded|-2].day, traded[|traded|-1].day);
    }
  }

  lemma {:induction false} EmptySpan(index: seq<Point>, a: int)
    ensures SessionsIn(index, a, a) == 0
  {
    if index != [] { EmptySpan(index[1..], a); }
  }

  // ---------------------------------------------------------------- beta

  /** What one traded-to-traded span gives the regression. */
  datatype Span = Skipped | OtherLength | Single(share: real, market: real)

  /** Both sides have a value at both ends of the span, and a base to divide by. */
  predicate Valued(traded: seq<Session>, index: seq<Point>, i: nat)
    requires 1 <= i < |traded|
  {
    var a, b := traded[i-1], traded[i];
    var ia, ib := InForce(index, PointDay(), a.day), InForce(index, PointDay(), b.day);
    ia.Some? && ib.Some? && ia.value.value > 0.0 && a.adjusted > 0.0
  }

  /** How many index sessions the span holds. */
  function SpanLength(traded: seq<Session>, index: seq<Point>, i: nat): nat
    requires 1 <= i < |traded|
  {
    SessionsIn(index, traded[i-1].day, traded[i].day)
  }

  function SpanAt(traded: seq<Session>, index: seq<Point>, i: nat): Span
    requires 1 <= i < |traded|
  {
    var a, b := traded[i-1], traded[i];
    var ia, ib := InForce(index, PointDay(), a.day), InForce(index, PointDay(), b.day);
    if !Valued(traded, index, i) then Skipped
    else if SpanLength(traded, index, i) != 1 then OtherLength
    else Single(b.adjusted / a.adjusted - 1.0, ib.value.value / ia.value.value - 1.0)
  }

  function Spans(traded: seq<Session>, index: seq<Point>): (spans: seq<Span>) {
    if |traded| < 2 then []
    else Spans(traded[..|traded|-1], index) + [SpanAt(traded, index, |traded| - 1)]
  }

  function Shares(spans: seq<Span>): seq<real> {
    if spans == [] then []
    else Shares(spans[..|spans|-1]) + (if spans[|spans|-1].Single? then [spans[|spans|-1].share] else [])
  }

  function Markets(spans: seq<Span>): (m: seq<real>)
    ensures |m| == |Shares(spans)|
  {
    if spans == [] then []
    else Markets(spans[..|spans|-1]) + (if spans[|spans|-1].Single? then [spans[|spans|-1].market] else [])
  }

  function Count(spans: seq<Span>, kind: Span -> bool): nat {
    if spans == [] then 0 else Count(spans[..|spans|-1], kind) + (if kind(spans[|spans|-1]) then 1 else 0)
  }

  datatype BetaBlock = BetaBlock(beta: Option<real>, correlation: Option<Moments>, pairs: nat, multiSessionSpans: nat)

  /** Every span is used, counted as longer, or skipped for want of a value. */
  lemma {:induction false} EverySpanIsCounted(spans: seq<Span>)
    ensures |spans|
        == |Shares(spans)| + Count(spans, (s: Span) => s.OtherLength?) + Count(spans, (s: Span) => s.Skipped?)
  {
    if spans != [] { EverySpanIsCounted(spans[..|spans|-1]); }
  }

  lemma {:induction false} SpansPerSession(traded: seq<Session>, index: seq<Point>)
    ensures |Spans(traded, index)| == if traded == [] then 0 else |traded| - 1
    decreases |traded|
  {
    if |traded| >= 2 { SpansPerSession(traded[..|traded|-1], index); }
  }

  /** The spans of more than one session, which the count is named after. */
  function LongSpans(traded: seq<Session>, index: seq<Point>): nat {
    if |traded| < 2 then 0
    else
      LongSpans(traded[..|traded|-1], index)
      + (if Valued(traded, index, |traded| - 1) && SpanLength(traded, index, |traded| - 1) >= 2 then 1 else 0)
  }

  /** The spans of no session at all. */
  function EmptySpans(traded: seq<Session>, index: seq<Point>): nat {
    if |traded| < 2 then 0
    else
      EmptySpans(traded[..|traded|-1], index)
      + (if Valued(traded, index, |traded| - 1) && SpanLength(traded, index, |traded| - 1) == 0 then 1 else 0)
  }

  ghost predicate HoldsASession(traded: seq<Session>, index: seq<Point>, i: nat)
    requires 1 <= i < |traded|
  {
    Valued(traded, index, i) ==> SpanLength(traded, index, i) > 0
  }

  ghost predicate NoSpanIsEmpty(traded: seq<Session>, index: seq<Point>) {
    forall i :: 1 <= i < |traded| ==> HoldsASession(traded, index, i)
  }

  function CountedSpans(traded: seq<Session>, index: seq<Point>): nat {
    Count(Spans(traded, index), (s: Span) => s.OtherLength?)
  }

  lemma LastSpan(traded: seq<Session>, index: seq<Point>)
    requires |traded| >= 2
    ensures CountedSpans(traded, index)
         == CountedSpans(traded[..|traded|-1], index)
           + (if SpanAt(traded, index, |traded| - 1).OtherLength? then 1 else 0)
  {
    OneSpanMore(Spans(traded[..|traded|-1], index), SpanAt(traded, index, |traded| - 1));
  }

  /** What is counted is the long spans and the empty ones. */
  lemma {:induction false} CountsLongAndEmpty(traded: seq<Session>, index: seq<Point>)
    ensures CountedSpans(traded, index) == LongSpans(traded, index) + EmptySpans(traded, index)
    decreases |traded|
  {
    if |traded| >= 2 {
      CountsLongAndEmpty(traded[..|traded|-1], index);
      LastSpan(traded, index);
    }
  }

  lemma SpansOfFront(traded: seq<Session>, index: seq<Point>)
    requires |traded| >= 2
    ensures var front, last := traded[..|traded|-1], |traded| - 1;
      && (forall i :: 1 <= i < last ==> (HoldsASession(front, index, i) <==> HoldsASession(traded, index, i)))
      && EmptySpans(traded, index)
      == EmptySpans(front, index) + if HoldsASession(traded, index, last) then 0 else 1
  {
    var front := traded[..|traded|-1];
    forall i | 1 <= i < |front| ensures HoldsASession(front, index, i) <==> HoldsASession(traded, index, i) {
      assert front[i-1] == traded[i-1] && front[i] == traded[i];
    }
  }

  lemma {:induction false} NoneIsEmpty(traded: seq<Session>, index: seq<Point>)
    ensures EmptySpans(traded, index) == 0 <==> NoSpanIsEmpty(traded, index)
    decreases |traded|
  {
    if |traded| >= 2 {
      var front, last := traded[..|traded|-1], |traded| - 1;
      hide HoldsASession;
      NoneIsEmpty(front, index);
      SpansOfFront(traded, index);
      if NoSpanIsEmpty(traded, index) {
        assert NoSpanIsEmpty(front, index);
      }
    }
  }

  /** The count is that of the spans longer than one session exactly when every span
      with a value holds a session. */
  lemma CountIsRightExactly(traded: seq<Session>, index: seq<Point>)
    ensures CountedSpans(traded, index) == LongSpans(traded, index) <==> NoSpanIsEmpty(traded, index)
  {
    CountsLongAndEmpty(traded, index);
    NoneIsEmpty(traded, index);
  }

  // ---------------------------------------------------------------- the two samples

  /** What beta is regressed over: the later ends of the spans used, and the two returns
      over each. */
  datatype Samples = Samples(at: seq<nat>, share: seq<real>, market: seq<real>)

  /** The trade at `i` and the one before it have values on both sides, and exactly one
      session of the index lies between them. */
  predicate IsSingle(traded: seq<Session>, index: seq<Point>, i: nat) {
    && 1 <= i < |traded|
    && traded[i-1].adjusted > 0.0
    && InForce(index, PointDay(), traded[i-1].day).Some? && InForce(index, PointDay(), traded[i].day).Some?
    && InForce(index, PointDay(), traded[i-1].day).value.value > 0.0
    && Tally(index, (p: Point) => traded[i-1].day < p.day <= traded[i].day && !p.repeats) == 1
  }

  /** The samples are the returns of the share's adjusted closes and of the index values
      in force, over exactly those spans, in their order. */
  ghost predicate AreReturns(traded: seq<Session>, index: seq<Point>, s: Samples) {
    && |s.at| == |s.share| == |s.market|
    && (forall k, l :: 0 <= k < l < |s.at| ==> s.at[k] < s.at[l])
    && (forall i: nat :: i in s.at <==> IsSingle(traded, index, i))
    && (forall k :: 0 <= k < |s.at| ==> ReturnsAre(traded, index, s.at[k], s.share[k], s.market[k]))
  }

  /** The two returns over the span that ends at `i`. */
  ghost predicate ReturnsAre(traded: seq<Session>, index: seq<Point>, i: nat, share: real, market: real) {
    && IsSingle(traded, index, i)
    && share == (traded[i].adjusted - traded[i-1].adjusted) / traded[i-1].adjusted
    && var ia := InForce(index, PointDay(), traded[i-1].day).value.value;
      var ib := InForce(index, PointDay(), traded[i].day).value.value;
      market == (ib - ia) / ia
  }

  function Singles(spans: seq<Span>): (at: seq<nat>)
    ensures |at| == |Shares(spans)|
  {
    if spans == [] then []
    else Singles(spans[..|spans|-1]) + (if spans[|spans|-1].Single? then [|spans|] else [])
  }

  lemma SpanIsSingle(traded: seq<Session>, index: seq<Point>, i: nat)
    requires 1 <= i < |traded|
    ensures SpanAt(traded, index, i).Single? <==> IsSingle(traded, index, i)
    ensures SpanAt(traded, index, i).Single? ==>
        ReturnsAre(traded, index, i, SpanAt(traded, index, i).share, SpanAt(traded, index, i).market)
  {
    SessionsAreCounted(index, traded[i-1].day, traded[i].day);
    if Valued(traded, index, i) {
      ReturnIsRatio(traded[i-1].adjusted, traded[i].adjusted);
      if InForce(index, PointDay(), traded[i].day).Some? {
        ReturnIsRatio(InForce(index, PointDay(), traded[i-1].day).value.value,
                      InForce(index, PointDay(), traded[i].day).value.value);
      }
    }
  }

  lemma ReturnIsRatio(a: real, b: real)
    requires a > 0.0
    ensures b / a - 1.0 == (b - a) / a
  {
    assert (b / a) * a == b && ((b - a) / a) * a == b - a;
    SameQuotient(b / a - 1.0, (b - a) / a, a);
  }

  lemma SameQuotient(x: real, y: real, a: real)
    requires a > 0.0 && x * a == y * a
    ensures x == y
  {}

  lemma SinglesOfFront(traded: seq<Session>, index: seq<Point>, n: nat, i: nat)
    requires i < n <= |traded|
    ensures IsSingle(traded[..n], index, i) <==> IsSingle(traded, index, i)
    ensures forall x, y :: ReturnsAre(traded[..n], index, i, x, y) <==> ReturnsAre(traded, index, i, x, y)
  {
    if i > 0 { assert traded[..n][i-1] == traded[i-1] && traded[..n][i] == traded[i]; }
  }

  lemma {:induction false} SpansGiveReturns(traded: seq<Session>, index: seq<Point>)
    ensures var spans := Spans(traded, index);
      AreReturns(traded, index, Samples(Singles(spans), Shares(spans), Markets(spans)))
    decreases |traded|
  {
    if |traded| < 2 {
      forall i: nat ensures !IsSingle(traded, index, i) {}
    } else {
      var last := |traded| - 1;
      var front := traded[..last];
      SpansGiveReturns(front, index);
      SpansPerSession(front, index);
      var before, next := Spans(front, index), SpanAt(traded, index, last);
      OneSpanMore(before, next);
      assert (before + [next])[..|before|] == before;
      SpanIsSingle(traded, index, last);
      OneReturnMore(traded, index, Samples(Singles(before), Shares(before), Markets(before)), next);
    }
  }

  lemma OneReturnMore(traded: seq<Session>, index: seq<Point>, s: Samples, next: Span)
    requires |traded| >= 2 && AreReturns(traded[..|traded|-1], index, s)
    requires var last := |traded| - 1;
      && (next.Single? <==> IsSingle(traded, index, last))
      && (next.Single? ==> ReturnsAre(traded, index, last, next.share, next.market))
    ensures var last := |traded| - 1;
      AreReturns(traded, index, if next.Single? then Samples(s.at + [last], s.share + [next.share],
                                                             s.market + [next.market]) else s)
  {
    hide ReturnsAre, IsSingle;
    var last := |traded| - 1;
    forall i: nat | i < last
      ensures IsSingle(traded[..last], index, i) <==> IsSingle(traded, index, i)
      ensures forall x, y :: ReturnsAre(traded[..last], index, i, x, y) <==> ReturnsAre(traded, index, i, x, y)
    {
      SinglesOfFront(traded, index, last, i);
    }
    forall i: nat | i >= last ensures !IsSingle(traded[..last], index, i) { NoSpanPast(traded[..last], index, i); }
    forall i: nat | i > last ensures !IsSingle(traded, index, i) { NoSpanPast(traded, index, i); }
    forall k | 0 <= k < |s.at| ensures s.at[k] < last && ReturnsAre(traded, index, s.at[k], s.share[k], s.market[k]) {
      assert s.at[k] in s.at;
    }
    forall i: nat ensures i in s.at + [last] <==> i in s.at || i == last {}
  }

  lemma NoSpanPast(traded: seq<Session>, index: seq<Point>, i: nat)
    requires i >= |traded|
    ensures !IsSingle(traded, index, i)
  {}

  /** Beta and correlation over the spans of exactly one index session, and what became
      of all the others. */
  method MatchedBeta(traded: seq<Session>, index: seq<Point>)
    returns (out: BetaBlock, ghost skipped: nat, ghost samples: Samples)
    requires Ascending(index, PointDay())
    ensures traded != [] ==> out.pairs + out.multiSessionSpans + skipped == |traded| - 1
    ensures skipped == Count(Spans(traded, index), (s: Span) => s.Skipped?)
    ensures out.pairs == |Shares(Spans(traded, index))|
    ensures out.multiSessionSpans == LongSpans(traded, index) <==> NoSpanIsEmpty(traded, index)
    ensures AreReturns(traded, index, samples) && out.pairs == |samples.at|
    ensures out.beta.Some? <==> out.pairs >= 20 && Spread(samples.market)
    ensures out.beta.Some? ==> out.pairs > 0 && IsBestSlope(samples.market, samples.share, out.beta.value)
    ensures forall k :: out.beta.Some? && Proportional(samples.market, samples.share, k) ==> out.beta.value == k
    ensures out.correlation.Some? <==> out.beta.Some? && Spread(samples.share)
    ensures out.correlation.Some? ==> Bounded(out.correlation.value)
    ensures out.correlation.Some? ==> AreMoments(samples.share, samples.market, out.correlation.value)
  {
    hide AreReturns, IsBestSlope, Spread, AreMoments, Proportional;
    var rs, rm, multi, at := MatchSpans(traded, index);
    samples := Samples(at, rs, rm);
    ghost var spans := Spans(traded, index);
    skipped := Count(spans, (s: Span) => s.Skipped?);
    EverySpanIsCounted(spans);
    SpansPerSession(traded, index);
    CountIsRightExactly(traded, index);
    out := BetaBlock(None, None, |rs|, multi);
    if |rs| < MIN_BETA_PAIRS { return; }
    var slope, defined := Slope(rm, rs);
    if !defined { return; }
    var m, correlated := Pearson(rs, rm);
    out := BetaBlock(Some(slope), if correlated then Some(m) else None, |rs|, multi);
    forall k | Proportional(rm, rs, k) ensures slope == k {
      ProportionalSlope(rm, rs, slope, k);
    }
  }

  /** What the walk has collected from some spans. */
  ghost predicate Matched(spans: seq<Span>, rs: seq<real>, rm: seq<real>, multi: nat) {
    rs == Shares(spans) && rm == Markets(spans) && multi == Count(spans, (s: Span) => s.OtherLength?)
  }

  lemma MatchedGrows(traded: seq<Session>, index: seq<Point>, i: nat, rs: seq<real>, rm: seq<real>, multi: nat)
    requires 1 <= i < |traded| && Matched(Spans(traded[..i], index), rs, rm, multi)
    ensures match SpanAt(traded, index, i)
            case Skipped => Matched(Spans(traded[..i+1], index), rs, rm, multi)
            case OtherLength => Matched(Spans(traded[..i+1], index), rs, rm, multi + 1)
            case Single(share, market) => Matched(Spans(traded[..i+1], index), rs + [share], rm + [market], multi)
  {
    assert traded[..i+1][..i] == traded[..i];
    var spans, next := Spans(traded[..i], index), SpanAt(traded, index, i);
    assert SpanAt(traded[..i+1], index, i) == next;
    OneSpanMore(spans, next);
  }

  lemma OneSpanMore(spans: seq<Span>, next: Span)
    ensures Shares(spans + [next]) == Shares(spans) + (if next.Single? then [next.share] else [])
    ensures Markets(spans + [next]) == Markets(spans) + (if next.Single? then [next.market] else [])
    ensures Count(spans + [next], (s: Span) => s.OtherLength?)
         == Count(spans, (s: Span) => s.OtherLength?) + (if next.OtherLength? then 1 else 0)
  {
    assert (spans + [next])[..|spans|] == spans;
  }

  /** Walks consecutive traded sessions. */
  method MatchSpans(traded: seq<Session>, index: seq<Point>)
    returns (rs: seq<real>, rm: seq<real>, multi: nat, ghost at: seq<nat>)
    requires Ascending(index, PointDay())
    ensures Matched(Spans(traded, index), rs, rm, multi)
    ensures AreReturns(traded, index, Samples(at, rs, rm)) && |at| == |rs| == |rm|
  {
    rs, rm, multi := [], [], 0;
    at := Singles(Spans(traded, index));
    SpansGiveReturns(traded, index);
    if traded == [] { return; }
    for i := 1 to |traded|
      invariant Matched(Spans(traded[..i], index), rs, rm, multi)
    {
      hide SpanAt, Matched;
      MatchedGrows(traded, index, i, rs, rm, multi);
      var next := MeasureSpan(traded, index, i);
      match next {
        case Skipped =>
        case OtherLength => multi := multi + 1;
        case Single(share, market) => rs, rm := rs + [share], rm + [market];
      }
    }
    assert traded[..|traded|] == traded;
  }

  /** One turn of the walk: what the span from the trade before gives. */
  method MeasureSpan(traded: seq<Session>, index: seq<Point>, i: nat) returns (next: Span)
    requires 1 <= i < |traded| && Ascending(index, PointDay())
    ensures next == SpanAt(traded, index, i)
  {
    var a, b := traded[i-1], traded[i];
    var ia, ib := InForce(index, PointDay(), a.day), InForce(index, PointDay(), b.day);
    if ia.None? || ib.None? || ia.value.value <= 0.0 || a.adjusted <= 0.0 {
      return Skipped;
    }
    var sessions := MarketSessionsBetween(index, a.day, b.day);
    if sessions != 1 {
      return OtherLength;
    }
    next := Single(b.adjusted / a.adjusted - 1.0, ib.value.value / ia.value.value - 1.0);
  }

  /** A span the code counts although it holds no session. */
  lemma SpanWithoutSessions(day: int)
    ensures var index := [Point(day, 100.0, false), Point(day + 1, 100.0, true)];
      var traded := [Session(day, 10.0, true), Session(day + 1, 11.0, true)];
      SessionsIn(index, day, day + 1) == 0 && SpanAt(traded, index, 1) == OtherLength
  {
    var index := [Point(day, 100.0, false), Point(day + 1, 100.0, true)];
    assert Ascending(index, PointDay());
    Splits(index, PointDay(), day);
    Splits(index, PointDay(), day + 1);
    assert PointDay()(index[0]) == day && PointDay()(index[1]) == day + 1;
    assert InForce(index, PointDay(), day) == Some(index[0]) && InForce(index, PointDay(), day + 1) == Some(index[1]);
    assert index[1..] == [Point(day + 1, 100.0, true)] && index[1..][1..] == [];
    assert SessionsIn(index[1..], day, day + 1) == 0;
  }
}
