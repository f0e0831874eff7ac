/** The market's sessions, chosen among the stored dates, and the windows laid over
    them. Days are day numbers; coverage is measured in exact reals. */
module MarketCalendar {
  import Coverage
  import opened Orders
  import opened Reals
  import opened Wrappers

  /** A stored date: what its day file shows trading and how much of that has flow. */
  datatype SessionCount = SessionCount(
    day: int, rows: nat, traded: nat, dayFile: bool, dayTraded: nat, covered: nat, dayValue: real, coveredValue: real)

  const MIN_MARKET_SHARES := 200

  function ShareCoverage(x: SessionCount): Option<real> {
    if !x.dayFile || x.dayTraded == 0 then None else Some(x.covered as real / x.dayTraded as real)
  }

  function ValueCoverage(x: SessionCount): Option<real> {
    if !x.dayFile || x.dayValue <= 0.0 then None else Some(x.coveredValue / x.dayValue)
  }

  predicate MarketSession(x: SessionCount) {
    && x.dayFile && x.dayTraded >= MIN_MARKET_SHARES
    && ShareCoverage(x).Some? && ShareCoverage(x).value >= Coverage.MIN_FLOW_COVERAGE
    && ValueCoverage(x).Some? && ValueCoverage(x).value >= Coverage.MIN_FLOW_COVERAGE
  }

  lemma RatioAtLeast(part: real, whole: real, bound: real)
    requires whole > 0.0
    ensures part / whole >= bound <==> part >= bound * whole
  {
    var q := part / whole;
    assert q * whole == part;
    if q >= bound {
      NonNegativeProduct(q - bound, whole, part - bound * whole);
    } else {
      PositiveProduct(bound - q, whole, bound * whole - part);
    }
  }

  /** Two hundred shares in the day file, and flow stored for nine tenths of them and
      of their value. */
  predicate TradedAndCovered(x: SessionCount) {
    && x.dayFile && x.dayTraded >= 200 && x.dayValue > 0.0
    && 10 * x.covered >= 9 * x.dayTraded && 10.0 * x.coveredValue >= 9.0 * x.dayValue
  }

  /** The rule without its quotients. */
  lemma MarketSessionCounts(x: SessionCount)
    ensures MarketSession(x) <==> TradedAndCovered(x)
  {
    if x.dayTraded > 0 { RatioAtLeast(x.covered as real, x.dayTraded as real, Coverage.MIN_FLOW_COVERAGE); }
    if x.dayValue > 0.0 { RatioAtLeast(x.coveredValue, x.dayValue, Coverage.MIN_FLOW_COVERAGE); }
  }

  // ---------------------------------------------------------------- the calendar

  datatype Calendar = Calendar(
    sessions: seq<int>, counts: seq<SessionCount>,
    newestStored: Option<SessionCount>,
    thinAfterNewest: nat, newestThin: Option<SessionCount>, thinSkipped: nat,
    newestDayFile: Option<SessionCount>, dayFiles: nat)

  function Newer(): (SessionCount, SessionCount) -> bool { (a: SessionCount, b: SessionCount) => a.day > b.day }

  ghost predicate DistinctDays(counts: seq<SessionCount>) {
    forall i, j :: 0 <= i < j < |counts| ==> counts[i].day != counts[j].day
  }

  function Days(counts: seq<SessionCount>): (days: seq<int>)
    ensures |days| == |counts|
  {
    seq(|counts|, i requires 0 <= i < |counts| => counts[i].day)
  }

  /** A rule saying which stored dates are market sessions. */
  type Rule = SessionCount -> bool

  predicate Within(day: int, after: Option<int>, before: Option<int>) {
    (after.Some? ==> day > after.value) && (before.Some? ==> day < before.value)
  }

  /** Stored dates that are no market session, between two days (exclusive). */
  ghost function ThinBetween(dates: set<SessionCount>, m: Rule, after: Option<int>,
                             before: Option<int>): set<SessionCount>
  {
    set x | x in dates && !m(x) && Within(x.day, after, before)
  }

  ghost function WithDayFile(dates: set<SessionCount>): set<SessionCount> { set x | x in dates && x.dayFile }

  /** The newest of some dates, when there are any. */
  ghost predicate NewestSuch(such: set<SessionCount>, r: Option<SessionCount>) {
    if r.None? then such == {} else r.value in such && forall x :: x in such ==> x.day <= r.value.day
  }

  /** Exactly the newest `keep` market sessions, newest first. */
  ghost predicate NewestSessions(dates: set<SessionCount>, m: Rule, keep: nat, kept: seq<SessionCount>) {
    && SortedBy(kept, Newer())
    && (forall x :: x in kept ==> x in dates && m(x))
    && |kept| <= keep
    && (forall x :: x in dates && m(x) && x !in kept ==> |kept| == keep && forall y :: y in kept ==> x.day < y.day)
  }

  /** The dates around the sessions that are none. */
  ghost predicate CountsThin(dates: set<SessionCount>, m: Rule, c: Calendar) {
    if c.counts == [] then
      && c.thinAfterNewest == |ThinBetween(dates, m, None, None)|
      && NewestSuch(ThinBetween(dates, m, None, None), c.newestThin)
      && c.thinSkipped == 0
    else
      var first, last := c.counts[0].day, c.counts[|c.counts|-1].day;
      && c.thinAfterNewest == |ThinBetween(dates, m, Some(first), None)|
      && NewestSuch(ThinBetween(dates, m, Some(first), None), c.newestThin)
      && c.thinSkipped == |ThinBetween(dates, m, Some(last), Some(first))|
  }

  /** What the calendar says of the stored dates. */
  ghost predicate IsCalendar(dates: set<SessionCount>, m: Rule, keep: nat, c: Calendar) {
    && NewestSessions(dates, m, keep, c.counts) && c.sessions == Days(c.counts)
    && (keep > 0 ==> CountsThin(dates, m, c))
    && NewestSuch(dates, c.newestStored)
    && c.dayFiles == |WithDayFile(dates)| && NewestSuch(WithDayFile(dates), c.newestDayFile)
  }

  lemma NewerIsAnOrder()
    ensures StrictOrder(Newer())
  {
    forall a, b, c ensures OrderLaws(Newer(), a, b, c) {}
  }

  lemma SortedDays(counts: seq<SessionCount>)
    requires DistinctDays(counts)
    ensures SortedBy(Sort(counts, Newer()), Newer()) && SameMembers(Sort(counts, Newer()), counts)
  {
    NewerIsAnOrder();
    forall i, j | 0 <= i < j < |counts| ensures Apart(counts[i], counts[j], Newer()) {}
    SortSorts(counts, Newer());
    MembersOfSort(counts, Newer());
  }

  ghost function Members(s: seq<SessionCount>): set<SessionCount> { set x | x in s }

  // ---------------------------------------------------------------- the pass over the sorted dates

  ghost predicate Descending(s: seq<SessionCount>) { forall i, j :: 0 <= i < j < |s| ==> s[i].day > s[j].day }

  /** The date comes before all of those. */
  ghost predicate OlderThan(x: SessionCount, seen: set<SessionCount>) { forall y :: y in seen ==> y.day > x.day }

  /** The state of the pass once it has seen the newest dates. */
  ghost predicate Passed(seen: set<SessionCount>, m: Rule, c: Calendar, pending: nat) {
    && c.sessions == Days(c.counts) && SortedBy(c.counts, Newer())
    && (forall x :: x in c.counts <==> x in seen && m(x))
    && CountsThin(seen, m, c)
    && pending == if c.counts == [] then 0 else |ThinBetween(seen, m, None, Some(c.counts[|c.counts|-1].day))|
  }

  lemma ThinGrows(seen: set<SessionCount>, m: Rule, x: SessionCount, after: Option<int>, before: Option<int>)
    requires OlderThan(x, seen)
    ensures var was, now := ThinBetween(seen, m, after, before), ThinBetween(seen + {x}, m, after, before);
      if !m(x) && Within(x.day, after, before) then now == was + {x} && |now| == |was| + 1 else now == was
  {
    var was, now := ThinBetween(seen, m, after, before), ThinBetween(seen + {x}, m, after, before);
    if !m(x) && Within(x.day, after, before) {
      assert x !in was;
      assert now == was + {x};
    } else {
      assert now == was;
    }
  }

  lemma NewestStays(was: set<SessionCount>, r: Option<SessionCount>, x: SessionCount)
    requires NewestSuch(was, r) && OlderThan(x, was)
    ensures NewestSuch(was + {x}, if r.None? then Some(x) else r)
  {}

  lemma ThinBeforeAny(seen: set<SessionCount>, m: Rule, x: SessionCount, c: Calendar)
    requires OlderThan(x, seen) && Passed(seen, m, c, 0) && !m(x) && c.counts == []
    ensures Passed(seen + {x}, m, c.(thinAfterNewest := c.thinAfterNewest + 1,
                                     newestThin := if c.newestThin.None? then Some(x) else c.newestThin), 0)
  {
    ThinGrows(seen, m, x, None, None);
    NewestStays(ThinBetween(seen, m, None, None), c.newestThin, x);
  }

  /** The first and the last kept session are newer than the next date. */
  lemma EndsAreNewer(seen: set<SessionCount>, m: Rule, x: SessionCount, kept: seq<SessionCount>)
    requires OlderThan(x, seen) && SortedBy(kept, Newer()) && (forall y :: y in kept <==> y in seen && m(y))
        && kept != []
    ensures kept[0].day >= kept[|kept|-1].day > x.day
    ensures kept[|kept|-1] in seen && m(kept[|kept|-1])
  {
    assert kept[|kept|-1] in kept;
    assert |kept| > 1 ==> Newer()(kept[0], kept[|kept|-1]);
  }

  lemma ThinAfterSome(seen: set<SessionCount>, m: Rule, x: SessionCount, c: Calendar, pending: nat)
    requires OlderThan(x, seen) && Passed(seen, m, c, pending) && !m(x) && c.counts != []
    ensures Passed(seen + {x}, m, c, pending + 1)
  {
    EndsAreNewer(seen, m, x, c.counts);
    var first, last := c.counts[0].day, c.counts[|c.counts|-1].day;
    ThinGrows(seen, m, x, Some(first), None);
    ThinGrows(seen, m, x, Some(last), Some(first));
    ThinGrows(seen, m, x, None, Some(last));
  }

  function Keeping(c: Calendar, x: SessionCount, pending: nat): Calendar {
    c.(thinSkipped := c.thinSkipped + pending, sessions := c.sessions + [x.day], counts := c.counts + [x])
  }

  lemma KeepsOrder(seen: set<SessionCount>, x: SessionCount, kept: seq<SessionCount>)
    requires OlderThan(x, seen) && SortedBy(kept, Newer()) && forall y :: y in kept ==> y in seen
    ensures SortedBy(kept + [x], Newer())
  {
    forall k | 0 <= k < |kept| ensures kept[k].day > x.day { assert kept[k] in kept; }
  }

  lemma FirstSession(seen: set<SessionCount>, m: Rule, x: SessionCount, c: Calendar)
    requires OlderThan(x, seen) && Passed(seen, m, c, 0) && m(x) && c.counts == []
    ensures Passed(seen + {x}, m, Keeping(c, x, 0), 0)
  {
    KeepsOrder(seen, x, c.counts);
    assert ThinBetween(seen + {x}, m, Some(x.day), None) == ThinBetween(seen, m, None, None);
    assert ThinBetween(seen + {x}, m, Some(x.day), Some(x.day)) == {};
    assert ThinBetween(seen + {x}, m, None, Some(x.day)) == {};
  }

  lemma NextSession(seen: set<SessionCount>, m: Rule, x: SessionCount, c: Calendar, pending: nat)
    requires OlderThan(x, seen) && DistinctDates(seen) && Passed(seen, m, c, pending) && m(x) && c.counts != []
    ensures Passed(seen + {x}, m, Keeping(c, x, pending), 0)
  {
    hide DistinctDates, SortedBy;
    EndsAreNewer(seen, m, x, c.counts);
    KeepsOrder(seen, x, c.counts);
    var first := c.counts[0].day;
    ThinGrows(seen, m, x, Some(first), None);
    WaitingBecomeSkipped(seen, m, x, c.counts[|c.counts|-1], first);
    assert ThinBetween(seen + {x}, m, None, Some(x.day)) == {};
    var kept := c.counts + [x];
    assert kept[0] == c.counts[0] && kept[|kept|-1] == x;
    assert Days(kept) == c.sessions + [x.day];
  }

  ghost predicate DistinctDates(dates: set<SessionCount>) {
    forall x, y :: x in dates && y in dates && x.day == y.day ==> x == y
  }

  /** The thin dates behind the last session lie between sessions once an older one
      is found. */
  lemma WaitingBecomeSkipped(seen: set<SessionCount>, m: Rule, x: SessionCount, last: SessionCount, first: int)
    requires OlderThan(x, seen) && DistinctDates(seen) && last in seen && m(last) && m(x) && last.day <= first
    ensures |ThinBetween(seen + {x}, m, Some(x.day), Some(first))|
         == |ThinBetween(seen, m, Some(last.day), Some(first))| + |ThinBetween(seen, m, None, Some(last.day))|
  {
    var between, waiting := ThinBetween(seen, m, Some(last.day), Some(first)),
        ThinBetween(seen, m, None, Some(last.day));
    assert between !! waiting;
    assert ThinBetween(seen + {x}, m, Some(x.day), Some(first)) == between + waiting;
  }

  lemma SortedDescends(counts: seq<SessionCount>)
    requires DistinctDays(counts)
    ensures Descending(Sort(counts, Newer())) && Members(Sort(counts, Newer())) == Members(counts)
  {
    hide Sort, DistinctDays;
    SortedDays(counts);
    var s := Sort(counts, Newer());
    forall i, j | 0 <= i < j < |s| ensures s[i].day > s[j].day { assert Newer()(s[i], s[j]); }
    assert Members(s) == Members(counts);
  }

  method BuildMarketCalendar(counts: seq<SessionCount>, keep: nat) returns (c: Calendar)
    requires DistinctDays(counts)
    ensures IsCalendar(Members(counts), MarketSession, keep, c)
    ensures HoldsNewest(counts, keep, c)
    ensures keep > 0 ==> ThinOnCounts(counts, c)
  {
    hide DistinctDays, Descending, Members, Passed, Newest, MarketSession, NewestSessions, NewestSuch, WithDayFile,
      HoldsNewest, ThinOnCounts;
    var s := Sort(counts, Newer());
    SortedDescends(counts);
    var newestDayFile, dayFiles := ScanDayFiles(s);
    var pending;
    ghost var seen;
    c, pending, seen := KeepSessions(s, keep);
    PassIsCalendar(Members(s), seen, MarketSession, keep, c, pending);
    c := c.(newestStored := if s == [] then None else Some(s[0]), newestDayFile := newestDayFile, dayFiles := dayFiles);
    FirstIsNewest(s);
    OnCounts(counts, keep, c);
  }

  /** The sessions on the stored counts: covered dates, newest first, and every other
      covered date is older than all of them, with no room left. */
  ghost predicate HoldsNewest(counts: seq<SessionCount>, keep: nat, c: Calendar) {
    && |c.sessions| == |c.counts| <= keep
    && (forall i :: 0 <= i < |c.counts| ==>
          c.sessions[i] == c.counts[i].day && c.counts[i] in counts && TradedAndCovered(c.counts[i]))
    && (forall i, j :: 0 <= i < j < |c.sessions| ==> c.sessions[i] > c.sessions[j])
    && (forall x :: x in counts && TradedAndCovered(x) && x !in c.counts ==>
          |c.counts| == keep && forall i :: 0 <= i < |c.sessions| ==> x.day < c.sessions[i])
  }

  /** The stored dates that are not covered, within two days. */
  ghost function NotCovered(counts: seq<SessionCount>): (dates: set<SessionCount>) {
    set x | x in counts && !TradedAndCovered(x)
  }

  /** The dates that are no session: those newer than every session, the newest of
      them, and those between the newest and the oldest session. */
  ghost predicate ThinOnCounts(counts: seq<SessionCount>, c: Calendar)
    requires |c.sessions| == |c.counts|
  {
    var newer := set x | x in NotCovered(counts) && (c.sessions == [] || x.day > c.sessions[0]);
    var between := set x | x in NotCovered(counts)
        && c.sessions != [] && c.sessions[|c.sessions|-1] < x.day < c.sessions[0];
    && c.thinAfterNewest == |newer| && c.thinSkipped == |between|
    && (c.newestThin.None? <==> newer == {})
    && (c.newestThin.Some? ==>
          c.newestThin.value in newer && forall x :: x in newer ==> x.day <= c.newestThin.value.day)
  }

  lemma ThinAroundSessions(counts: seq<SessionCount>, c: Calendar)
    requires CountsThin(Members(counts), MarketSession, c) && c.sessions == Days(c.counts)
    ensures ThinOnCounts(counts, c)
  {
    hide TradedAndCovered, MarketSession;
    forall x ensures MarketSession(x) == TradedAndCovered(x) { MarketSessionCounts(x); }
    var dates := Members(counts);
    var newer := set x | x in NotCovered(counts) && (c.sessions == [] || x.day > c.sessions[0]);
    var between := set x | x in NotCovered(counts)
        && c.sessions != [] && c.sessions[|c.sessions|-1] < x.day < c.sessions[0];
    if c.counts == [] {
      assert newer == ThinBetween(dates, MarketSession, None, None);
      assert between == {};
    } else {
      var first, last := c.counts[0].day, c.counts[|c.counts|-1].day;
      assert newer == ThinBetween(dates, MarketSession, Some(first), None);
      assert between == ThinBetween(dates, MarketSession, Some(last), Some(first));
    }
  }

  lemma OnCounts(counts: seq<SessionCount>, keep: nat, c: Calendar)
    requires IsCalendar(Members(counts), MarketSession, keep, c)
    ensures HoldsNewest(counts, keep, c) && (keep > 0 ==> ThinOnCounts(counts, c))
  {
    hide NewestSessions, CountsThin, HoldsNewest, ThinOnCounts;
    NewestOnCounts(counts, keep, c);
    if keep > 0 { ThinAroundSessions(counts, c); }
  }

  lemma NewestOnCounts(counts: seq<SessionCount>, keep: nat, c: Calendar)
    requires NewestSessions(Members(counts), MarketSession, keep, c.counts) && c.sessions == Days(c.counts)
    ensures HoldsNewest(counts, keep, c)
  {
    hide TradedAndCovered, MarketSession;
    forall x ensures MarketSession(x) == TradedAndCovered(x) { MarketSessionCounts(x); }
    forall i | 0 <= i < |c.counts| ensures c.counts[i] in counts && MarketSession(c.counts[i]) {
      assert c.counts[i] in c.counts;
    }
    forall i, j | 0 <= i < j < |c.sessions| ensures c.sessions[i] > c.sessions[j] {
      assert Newer()(c.counts[i], c.counts[j]);
    }
    forall x, i | x in counts && MarketSession(x) && x !in c.counts && 0 <= i < |c.sessions|
      ensures x.day < c.sessions[i]
    {
      assert x in Members(counts) && c.counts[i] in c.counts;
    }
    assert forall x :: x in counts ==> x in Members(counts);
  }

  lemma FirstIsNewest(s: seq<SessionCount>)
    requires Descending(s)
    ensures NewestSuch(Members(s), if s == [] then None else Some(s[0]))
  {}

  lemma PrefixMembers(s: seq<SessionCount>, i: nat)
    requires i < |s| && Descending(s)
    ensures Members(s[..i+1]) == Members(s[..i]) + {s[i]}
    ensures OlderThan(s[i], Members(s[..i])) && DistinctDates(Members(s[..i]))
  {
    assert s[..i+1] == s[..i] + [s[i]];
  }

  /** Goes through the dates, newest first, until enough sessions are kept. Dates seen
      since the last one kept stay pending until the next is found. */
  method KeepSessions(s: seq<SessionCount>, keep: nat)
    returns (c: Calendar, pending: nat, ghost seen: set<SessionCount>)
    requires Descending(s)
    ensures Passed(seen, MarketSession, c, pending) && Newest(seen, Members(s))
    ensures |c.sessions| <= keep && (seen == Members(s) || |c.sessions| >= keep)
  {
    c, pending, seen := Calendar([], [], None, 0, None, 0, None, 0), 0, {};
    NothingPassed(MarketSession);
    var i := 0;
    while i < |s| && |c.sessions| < keep
      invariant i <= |s| && |c.sessions| <= keep && seen == Members(s[..i])
      invariant Passed(seen, MarketSession, c, pending)
    {
      PrefixMembers(s, i);
      c, pending := NextDate(seen, s[i], c, pending);
      seen := seen + {s[i]};
      i := i + 1;
    }
    PrefixIsNewest(s, i);
  }

  lemma NothingPassed(m: Rule)
    ensures Passed({}, m, Calendar([], [], None, 0, None, 0, None, 0), 0)
  {
    assert ThinBetween({}, m, None, None) == {};
  }

  method NextDate(ghost seen: set<SessionCount>, x: SessionCount, c: Calendar, pending: nat)
    returns (next: Calendar, left: nat)
    requires OlderThan(x, seen) && DistinctDates(seen) && Passed(seen, MarketSession, c, pending)
    ensures Passed(seen + {x}, MarketSession, next, left)
    ensures |next.sessions| == |c.sessions| + if MarketSession(x) then 1 else 0
  {
    next, left := c, pending;
    if !MarketSession(x) {
      if |c.sessions| == 0 {
        ThinBeforeAny(seen, MarketSession, x, c);
        next := c.(thinAfterNewest := c.thinAfterNewest + 1, newestThin := if c.newestThin.None? then Some(x)
          else c.newestThin);
      } else {
        ThinAfterSome(seen, MarketSession, x, c, pending);
        left := pending + 1;
      }
      return;
    }
    if |c.sessions| == 0 {
      FirstSession(seen, MarketSession, x, c);
    } else {
      NextSession(seen, MarketSession, x, c, pending);
    }
    next, left := Keeping(c, x, pending), 0;
  }

  method ScanDayFiles(s: seq<SessionCount>) returns (newest: Option<SessionCount>, n: nat)
    requires Descending(s)
    ensures n == |WithDayFile(Members(s))| && NewestSuch(WithDayFile(Members(s)), newest)
  {
    newest, n := None, 0;
    for i := 0 to |s|
      invariant n == |WithDayFile(Members(s[..i]))| && NewestSuch(WithDayFile(Members(s[..i])), newest)
    {
      PrefixMembers(s, i);
      FilesGrow(Members(s[..i]), s[i], newest);
      if s[i].dayFile {
        n := n + 1;
        if newest.None? { newest := Some(s[i]); }
      }
    }
    assert s[..|s|] == s;
  }

  lemma FilesGrow(seen: set<SessionCount>, x: SessionCount, newest: Option<SessionCount>)
    requires OlderThan(x, seen) && NewestSuch(WithDayFile(seen), newest)
    ensures var was, now := WithDayFile(seen), WithDayFile(seen + {x});
      if x.dayFile then |now| == |was| + 1 && NewestSuch(now, if newest.None? then Some(x) else newest) else now == was
  {
    var was, now := WithDayFile(seen), WithDayFile(seen + {x});
    if x.dayFile {
      assert now == was + {x} && x !in was;
      NewestStays(was, newest, x);
    } else {
      assert now == was;
    }
  }

  /** The seen dates are the newest of all. */
  ghost predicate Newest(seen: set<SessionCount>, dates: set<SessionCount>) {
    seen <= dates && forall x, y :: x in seen && y in dates && y !in seen ==> y.day < x.day
  }

  lemma PrefixIsNewest(s: seq<SessionCount>, i: nat)
    requires Descending(s) && i <= |s|
    ensures Newest(Members(s[..i]), Members(s))
    ensures i == |s| ==> Members(s[..i]) == Members(s)
  {
    assert s == s[..i] + s[i..];
    forall x, y | x in s[..i] && y in s && y !in s[..i] ensures y.day < x.day {
      var j :| 0 <= j < |s[i..]| && s[i..][j] == y;
      var k :| 0 <= k < i && s[k] == x;
      assert s[i+j] == y;
    }
  }

  /** A stop of the pass, at the end or with enough sessions, is the calendar. */
  lemma PassIsCalendar(dates: set<SessionCount>, seen: set<SessionCount>, m: Rule, keep: nat, c: Calendar, pending: nat)
    requires Passed(seen, m, c, pending) && Newest(seen, dates)
    requires |c.sessions| <= keep && (seen == dates || |c.sessions| >= keep)
    ensures NewestSessions(dates, m, keep, c.counts) && c.sessions == Days(c.counts)
    ensures keep > 0 ==> CountsThin(dates, m, c)
  {
    if c.counts != [] {
      var first, last := c.counts[0], c.counts[|c.counts|-1];
      assert first in c.counts && last in c.counts;
      ThinOfNewest(dates, seen, m, first, None);
      ThinOfNewest(dates, seen, m, last, Some(first.day));
    }
  }

  /** Dates newer than a seen one are seen. */
  lemma ThinOfNewest(dates: set<SessionCount>, seen: set<SessionCount>, m: Rule, x: SessionCount, before: Option<int>)
    requires Newest(seen, dates) && x in seen
    ensures ThinBetween(dates, m, Some(x.day), before) == ThinBetween(seen, m, Some(x.day), before)
  {}

  // ---------------------------------------------------------------- one calendar

  lemma {:induction false} DistinctMembers(s: seq<SessionCount>)
    requires SortedBy(s, Newer())
    ensures |Members(s)| == |s|
  {
    if s != [] {
      DistinctMembers(s[1..]);
      assert forall k :: 1 <= k < |s| ==> Newer()(s[0], s[k]);
      assert s[0] !in Members(s[1..]);
      assert Members(s) == {s[0]} + Members(s[1..]);
    }
  }

  lemma OneSideContains(dates: set<SessionCount>, m: Rule, keep: nat, a: seq<SessionCount>, b: seq<SessionCount>)
    requires NewestSessions(dates, m, keep, a) && NewestSessions(dates, m, keep, b)
    ensures Members(a) <= Members(b) || Members(b) <= Members(a)
  {}

  lemma FullListsMatch(dates: set<SessionCount>, m: Rule, keep: nat, a: seq<SessionCount>, b: seq<SessionCount>)
    requires NewestSessions(dates, m, keep, a) && NewestSessions(dates, m, keep, b) && Members(b) <= Members(a)
    ensures SameMembers(a, b)
  {
    DistinctMembers(a);
    DistinctMembers(b);
    var extra := Members(a) - Members(b);
    assert Members(a) == Members(b) + extra && |extra| == |a| - |b|;
    forall x ensures x in a <==> x in b {
      assert x in a && x !in b ==> x in extra && |b| == keep;
      assert x in b ==> x in Members(b);
    }
  }

  lemma SessionsAreUnique(dates: set<SessionCount>, m: Rule, keep: nat, a: seq<SessionCount>, b: seq<SessionCount>)
    requires NewestSessions(dates, m, keep, a) && NewestSessions(dates, m, keep, b)
    ensures a == b
  {
    NewerIsAnOrder();
    OneSideContains(dates, m, keep, a, b);
    if Members(b) <= Members(a) {
      FullListsMatch(dates, m, keep, a, b);
    } else {
      FullListsMatch(dates, m, keep, b, a);
    }
    SortedIsUnique(a, b, Newer());
  }

  lemma NewestIsUnique(such: set<SessionCount>, a: Option<SessionCount>, b: Option<SessionCount>)
    requires DistinctDates(such) && NewestSuch(such, a) && NewestSuch(such, b)
    ensures a == b
  {}

  /** The calendar is a function of the stored dates, one count for each. */
  lemma CalendarIsUnique(dates: set<SessionCount>, m: Rule, keep: nat, c: Calendar, d: Calendar)
    requires keep > 0 && DistinctDates(dates)
    requires IsCalendar(dates, m, keep, c) && IsCalendar(dates, m, keep, d)
    ensures c == d
  {
    hide NewestSessions;
    SessionsAreUnique(dates, m, keep, c.counts, d.counts);
    var after := if c.counts == [] then None else Some(c.counts[0].day);
    NewestIsUnique(ThinBetween(dates, m, after, None), c.newestThin, d.newestThin);
    NewestIsUnique(dates, c.newestStored, d.newestStored);
    NewestIsUnique(WithDayFile(dates), c.newestDayFile, d.newestDayFile);
  }
}
