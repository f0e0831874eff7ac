/** The adjusted daily chart of a share: rows chosen behind an exclusive cursor,
    projected onto sessions, cut into pages, and walked back to the beginning. */
module ChartPages {
  import opened Adjustment
  import opened CursorPages
  import opened Wrappers

  /** A stored bar with the prints the adjustment does not need. */
  datatype Stored = Stored(bar: Bar, open: real, high: real, low: real, last: real)

  datatype Row = Row(stored: Stored, factor: real)

  datatype Session = Session(
    day: int, close: real, volume: nat, trades: nat, traded: bool, factor: real,
    lastTrade: Option<real>, range: Option<(real, real, real)>, closeOutsideRange: bool)

  /** Sessions fetched before the page so that overlays can warm up. */
  const WARMUP := 60

  // ---------------------------------------------------------------- one session

  /** A stored row as the chart draws it: prices scaled by the row's factor, counts and
      turnover as stored, no range and no last price for a session without trades. */
  function ChartBarOf(r: Row): Session {
    var s, f := r.stored, r.factor;
    var halted := Session(s.bar.date, s.bar.finalClose * f, s.bar.volume, s.bar.tradeCount, s.bar.Traded(), f, None,
                          None, false);
    if !s.bar.Traded() then halted
    else
      var traded := halted.(lastTrade := Some(s.last * f));
      if s.open <= 0.0 || s.high <= 0.0 || s.low <= 0.0 then traded
      else traded.(range := Some((s.open * f, s.high * f, s.low * f)),
                   closeOutsideRange := s.bar.finalClose < s.low || s.bar.finalClose > s.high)
  }

  lemma ScaledOrder(x: real, y: real, f: real)
    requires f > 0.0
    ensures x * f < y * f <==> x < y
  {
    assert y * f - x * f == (y - x) * f;
  }

  /** The range flag, decided on the raw prints, is the truth about the adjusted ones. */
  lemma RangeFlagSurvivesScaling(r: Row)
    requires r.factor > 0.0
    ensures var s := ChartBarOf(r);
      s.closeOutsideRange <==> s.range.Some? && (s.close < s.range.value.2 || s.close > s.range.value.1)
  {
    ScaledOrder(r.stored.bar.finalClose, r.stored.low, r.factor);
    ScaledOrder(r.stored.high, r.stored.bar.finalClose, r.factor);
  }

  /** What the chart draws is the stored row on another scale: the counts are the
      stored ones, a price stands for the stored price as the close does, and a price is
      there exactly when the session traded, the range only with three positive prints. */
  lemma DrawnToScale(r: Row)
    ensures var s, b := ChartBarOf(r), r.stored;
      && s.day == b.bar.date && s.volume == b.bar.volume && s.trades == b.bar.tradeCount
      && (s.traded <==> b.bar.volume > 0 || b.bar.tradeCount > 0)
      && s.close == b.bar.finalClose * s.factor
      && (s.lastTrade.Some? <==> s.traded)
      && (s.lastTrade.Some? ==> s.lastTrade.value * b.bar.finalClose == s.close * b.last)
      && (s.range.Some? <==> s.traded && b.open > 0.0 && b.high > 0.0 && b.low > 0.0)
      && (s.range.Some? ==>
            && s.range.value.0 * b.bar.finalClose == s.close * b.open
            && s.range.value.1 * b.bar.finalClose == s.close * b.high
            && s.range.value.2 * b.bar.finalClose == s.close * b.low)
  {
    var b, f := r.stored, r.factor;
    SameScale(b.bar.finalClose, b.last, f);
    SameScale(b.bar.finalClose, b.open, f);
    SameScale(b.bar.finalClose, b.high, f);
    SameScale(b.bar.finalClose, b.low, f);
  }

  lemma SameScale(x: real, y: real, f: real)
    ensures (y * f) * x == (x * f) * y
  {}

  function Sessions(rows: seq<Row>): (s: seq<Session>)
    ensures |s| == |rows|
  {
    seq(|rows|, i requires 0 <= i < |rows| => ChartBarOf(rows[i]))
  }

  predicate Defective(s: Session) { s.traded && s.range.None? }

  function Defects(sessions: seq<Session>): nat {
    if sessions == [] then 0
    else Defects(sessions[..|sessions|-1]) + (if Defective(sessions[|sessions|-1]) then 1 else 0)
  }

  // ---------------------------------------------------------------- the statement and the fetch

  /** The rows of the window, newest first, each with the factor of the first
      action strictly after it. */
  function NewestRows(stored: seq<Stored>, actions: seq<Action>, from: Option<int>): seq<Row> {
    if stored == [] then []
    else NewestRows(stored[1..], actions, from)
         + (if from.None? || stored[0].bar.date >= from.value
            then [Row(stored[0], FactorAfter(actions, stored[0].bar.date))] else [])
  }

  ghost function Day(): Row -> int { (r: Row) => r.stored.bar.date }

  ghost predicate OldestFirstBars(stored: seq<Stored>) {
    forall i, j :: 0 <= i < j < |stored| ==> stored[i].bar.date < stored[j].bar.date
  }

  lemma {:induction false} RowsAreStored(stored: seq<Stored>, actions: seq<Action>, from: Option<int>, r: Row)
    requires r in NewestRows(stored, actions, from)
    ensures exists i :: 0 <= i < |stored| && r.stored == stored[i]
  {
    var later := NewestRows(stored[1..], actions, from);
    if r in later {
      RowsAreStored(stored[1..], actions, from, r);
      var i :| 0 <= i < |stored[1..]| && r.stored == stored[1..][i];
      assert r.stored == stored[i+1];
    } else {
      assert r.stored == stored[0];
    }
  }

  /** The rows of the window: one for each stored bar on or after its start, with the
      factor of the first action after it. */
  lemma {:induction false} RowsExactly(stored: seq<Stored>, actions: seq<Action>, from: Option<int>)
    ensures forall r :: r in NewestRows(stored, actions, from) <==>
        r.stored in stored && (from.Some? ==> from.value <= r.stored.bar.date)
        && r.factor == FactorAfter(actions, r.stored.bar.date)
  {
    if stored != [] {
      RowsExactly(stored[1..], actions, from);
      assert stored == [stored[0]] + stored[1..];
    }
  }

  lemma {:induction false} RowsAreNewestFirst(stored: seq<Stored>, actions: seq<Action>, from: Option<int>)
    requires OldestFirstBars(stored)
    ensures NewestFirst(NewestRows(stored, actions, from), Day())
  {
    if stored != [] {
      var later := NewestRows(stored[1..], actions, from);
      RowsAreNewestFirst(stored[1..], actions, from);
      forall i | 0 <= i < |later| ensures later[i].stored.bar.date > stored[0].bar.date {
        assert later[i] in later;
        RowsAreStored(stored[1..], actions, from, later[i]);
      }
    }
  }

  /** Projects newest-first rows onto sessions, oldest first. The row beyond the
      limit proves that older ones exist and is dropped. */
  method BuildChartBars(rows: seq<Row>, limit: nat) returns (items: seq<Session>, hasMore: bool, defective: nat)
    ensures items == Sessions(Reversed(Take(rows, limit)))
    ensures hasMore <==> |rows| > limit
    ensures defective == Defects(items)
  {
    hide ChartBarOf;
    var limited := rows;
    hasMore, items, defective := false, [], 0;
    if |limited| > limit {
      limited, hasMore := limited[..limit], true;
    }
    assert limited == Take(rows, limit);
    for i := |limited| downto 0
      invariant items == Sessions(Reversed(limited[i..]))
      invariant defective == Defects(items)
    {
      var bar := ChartBarOf(limited[i]);
      assert limited[i..][1..] == limited[i+1..];
      if bar.traded && bar.range.None? {
        defective := defective + 1;
      }
      assert (items + [bar])[..|items|] == items;
      items := items + [bar];
    }
    assert limited[0..] == limited;
  }

  // ---------------------------------------------------------------- the page

  datatype CandlePage = CandlePage(candles: seq<Session>, hasMore: bool, nextBefore: Option<int>)

  /** The newest `limit` of the fetched sessions; those before them only warm up. */
  method BuildCandlePage(bars: seq<Session>, olderExists: bool, limit: nat) returns (page: CandlePage)
    ensures page.candles == if |bars| > limit then bars[|bars|-limit..] else bars
    ensures page.hasMore <==> page.candles != [] && (|bars| > limit || olderExists)
    ensures page.nextBefore == if page.candles != [] then Some(page.candles[0].day) else None
  {
    var start := if |bars| > limit then |bars| - limit else 0;
    var candles: seq<Session> := [];
    for i := start to |bars|
      invariant candles == bars[start..i]
    {
      candles := candles + [bars[i]];
    }
    page := CandlePage(candles, false, None);
    if |candles| > 0 {
      page := CandlePage(candles, start > 0 || olderExists, Some(bars[start].day));
    }
  }

  /** What a page must be: the newest `limit` rows behind the cursor. */
  ghost predicate IsChartPage(rows: seq<Row>, before: Option<int>, limit: nat, page: CandlePage) {
    var due := PageOf(Older(rows, Day(), before), Day(), limit);
    && page.candles == Sessions(due.items)
    && page.hasMore == due.hasMore
    && (page.hasMore ==> page.nextBefore == due.nextBefore)
  }

  lemma {:induction false} ReversedTail<T>(s: seq<T>, n: nat)
    requires n <= |s|
    ensures Reversed(s)[|s|-n..] == Reversed(s[..n])
  {
    ReversedSplit(s, n);
  }

  lemma PageOfFetched(older: seq<Row>, fetch: nat, limit: nat)
    requires 1 <= limit <= fetch
    ensures var fetched := Reversed(Take(older, fetch));
      && PageOf(older, Day(), limit).items == (if |fetched| > limit then fetched[|fetched|-limit..] else fetched)
      && (older != [] ==> fetched != [] && PageOf(older, Day(), limit).items != []
                          && PageOf(older, Day(), limit).items[0] == Take(older, limit)[|Take(older, limit)|-1])
  {
    var cut := Take(older, fetch);
    if |cut| > limit {
      ReversedTail(cut, limit);
      assert cut[..limit] == older[..limit];
    } else {
      assert cut == Take(older, limit);
    }
    if older != [] { ReversedAt(Take(older, limit), 0); }
  }

  /** The page cut out of a longer fetch is the page that is due. */
  lemma PageIsDue(rows: seq<Row>, before: Option<int>, fetch: nat, limit: nat, items: seq<Session>, page: CandlePage)
    requires 1 <= limit <= fetch
    requires items == Sessions(Reversed(Take(Take(Older(rows, Day(), before), fetch + 1), fetch)))
    requires page.candles == if |items| > limit then items[|items|-limit..] else items
    requires page.hasMore
        <==> page.candles != [] && (|items| > limit || |Take(Older(rows, Day(), before), fetch + 1)| > fetch)
    requires page.nextBefore == if page.candles != [] then Some(page.candles[0].day) else None
    ensures IsChartPage(rows, before, limit, page)
  {
    hide Reversed, Older;
    var older := Older(rows, Day(), before);
    assert Take(Take(older, fetch + 1), fetch) == Take(older, fetch);
    PageOfFetched(older, fetch, limit);
    assert page.candles == Sessions(PageOf(older, Day(), limit).items);
  }

  /** One chart request. Whether overlays are asked for changes how much is
      fetched, never the page. */
  method ChartPage(stored: seq<Stored>, actions: seq<Action>, from: Option<int>, before: Option<int>, limit: nat,
                   overlays: bool)
    returns (page: CandlePage)
    requires limit >= 1
    ensures IsChartPage(NewestRows(stored, actions, from), before, limit, page)
    ensures OldestFirstBars(stored) ==> IsPageOfBars(stored, from, before, limit, page)
  {
    var fetch := if overlays then limit + WARMUP else limit;
    var answer := Select(stored, actions, from, before, fetch + 1);
    var items, olderExists, _ := BuildChartBars(answer, fetch);
    page := BuildCandlePage(items, olderExists, limit);
    PageIsDue(NewestRows(stored, actions, from), before, fetch, limit, items, page);
    if OldestFirstBars(stored) { PageOnBars(stored, actions, from, before, limit, page); }
  }

  /** A bar of the window strictly before the cursor. */
  predicate Behind(day: int, from: Option<int>, before: Option<int>) {
    (from.Some? ==> from.value <= day) && (before.Some? ==> day < before.value)
  }

  ghost predicate HasDay(stored: seq<Stored>, day: int) { exists b :: b in stored && b.bar.date == day }

  ghost predicate Draws(page: CandlePage, day: int) { exists s :: s in page.candles && s.day == day }

  /** The page shows bars of the window, oldest first. */
  ghost predicate ShowsBars(stored: seq<Stored>, from: Option<int>, before: Option<int>, page: CandlePage) {
    && (forall i, j :: 0 <= i < j < |page.candles| ==> page.candles[i].day < page.candles[j].day)
    && (forall s :: s in page.candles ==> HasDay(stored, s.day) && Behind(s.day, from, before))
  }

  /** What a page leaves out is older, and it is full and promises more. */
  ghost predicate LeavesOlder(stored: seq<Stored>, from: Option<int>, before: Option<int>, limit: nat,
                              page: CandlePage)
  {
    && (forall b :: b in stored && Behind(b.bar.date, from, before) && !Draws(page, b.bar.date) ==>
          |page.candles| == limit && page.hasMore && forall s :: s in page.candles ==> b.bar.date < s.day)
    && (page.hasMore ==>
          && page.candles != [] && page.nextBefore == Some(page.candles[0].day)
          && exists b :: b in stored && Behind(b.bar.date, from, before) && b.bar.date < page.candles[0].day)
  }

  /** A page on the days of the stored bars: at most `limit` sessions of bars behind the
      cursor, oldest first; no bar left out is newer than one shown, nor any left out
      while there is room; and more is promised exactly when a bar older than the page
      is left, from the page's oldest day on. */
  ghost predicate IsPageOfBars(stored: seq<Stored>, from: Option<int>, before: Option<int>, limit: nat,
                               page: CandlePage)
  {
    && |page.candles| <= limit
    && ShowsBars(stored, from, before, page) && LeavesOlder(stored, from, before, limit, page)
  }

  ghost predicate HasRow(rows: seq<Row>, b: Stored) { exists r :: r in rows && r.stored == b }

  lemma PageOnBars(stored: seq<Stored>, actions: seq<Action>, from: Option<int>, before: Option<int>, limit: nat,
                   page: CandlePage)
    requires OldestFirstBars(stored) && limit >= 1
    requires IsChartPage(NewestRows(stored, actions, from), before, limit, page)
    ensures IsPageOfBars(stored, from, before, limit, page)
  {
    hide NewestRows, Older, PageOf, IsPageOfBars;
    var rows := NewestRows(stored, actions, from);
    RowsAreNewestFirst(stored, actions, from);
    RowsExactly(stored, actions, from);
    OlderMembers(rows, Day(), before);
    var older := Older(rows, Day(), before);
    forall b | b in stored && Behind(b.bar.date, from, before) ensures HasRow(older, b) {
      assert Row(b, FactorAfter(actions, b.bar.date)) in older;
    }
    CutOnBars(stored, from, before, limit, older, page);
  }

  lemma CutOnBars(stored: seq<Stored>, from: Option<int>, before: Option<int>, limit: nat, older: seq<Row>,
                  page: CandlePage)
    requires limit >= 1 && NewestFirst(older, Day())
    requires forall r :: r in older ==> r.stored in stored && Behind(r.stored.bar.date, from, before)
    requires forall b :: b in stored && Behind(b.bar.date, from, before) ==> HasRow(older, b)
    requires page.candles == Sessions(PageOf(older, Day(), limit).items)
    requires page.hasMore == PageOf(older, Day(), limit).hasMore
    requires page.hasMore ==> page.nextBefore == PageOf(older, Day(), limit).nextBefore
    ensures IsPageOfBars(stored, from, before, limit, page)
  {
    hide Behind, PageOf, Sessions, NewestFirst, ShowsBars, LeavesOlder;
    DrawnDays(older, limit, page);
    ShownOnBars(stored, from, before, limit, older, page);
    LeftOutOnBars(stored, from, before, limit, older, page);
  }

  /** The page draws the newest rows, the last one first. */
  ghost predicate DrawsNewest(older: seq<Row>, limit: nat, page: CandlePage) {
    var n := |page.candles|;
    && n == (if |older| > limit then limit else |older|) && (page.hasMore <==> |older| > limit)
    && (forall i :: 0 <= i < n ==> page.candles[i].day == older[n-1-i].stored.bar.date)
    && (page.hasMore && n > 0 ==> page.nextBefore == Some(page.candles[0].day))
    && (forall i, j :: 0 <= i < j < |older| ==> older[i].stored.bar.date > older[j].stored.bar.date)
  }

  lemma DrawnDays(older: seq<Row>, limit: nat, page: CandlePage)
    requires NewestFirst(older, Day())
    requires page.candles == Sessions(PageOf(older, Day(), limit).items)
    requires page.hasMore == PageOf(older, Day(), limit).hasMore
    requires page.hasMore ==> page.nextBefore == PageOf(older, Day(), limit).nextBefore
    ensures DrawsNewest(older, limit, page)
  {
    var kept := Take(older, limit);
    forall i | 0 <= i < |kept| ensures page.candles[i].day == kept[|kept|-1-i].stored.bar.date { ReversedAt(kept, i); }
    forall i, j | 0 <= i < j < |older| ensures older[i].stored.bar.date > older[j].stored.bar.date {
      assert Day()(older[i]) > Day()(older[j]);
    }
  }

  lemma ShownOnBars(stored: seq<Stored>, from: Option<int>, before: Option<int>, limit: nat, older: seq<Row>,
                    page: CandlePage)
    requires forall r :: r in older ==> r.stored in stored && Behind(r.stored.bar.date, from, before)
    requires DrawsNewest(older, limit, page)
    ensures ShowsBars(stored, from, before, page)
  {
    hide Behind;
    var drawn := page.candles;
    forall s | s in drawn ensures HasDay(stored, s.day) && Behind(s.day, from, before) {
      var i :| 0 <= i < |drawn| && drawn[i] == s;
      assert older[|drawn|-1-i] in older;
    }
  }

  lemma LeftOutOnBars(stored: seq<Stored>, from: Option<int>, before: Option<int>, limit: nat, older: seq<Row>,
                      page: CandlePage)
    requires limit >= 1 && DrawsNewest(older, limit, page)
    requires forall r :: r in older ==> r.stored in stored && Behind(r.stored.bar.date, from, before)
    requires forall b :: b in stored && Behind(b.bar.date, from, before) ==> HasRow(older, b)
    ensures LeavesOlder(stored, from, before, limit, page)
  {
    hide Behind;
    var drawn := page.candles;
    forall i | 0 <= i < |drawn| ensures Draws(page, older[i].stored.bar.date) {
      assert drawn[|drawn|-1-i] in drawn;
    }
    forall b | b in stored && Behind(b.bar.date, from, before) && !Draws(page, b.bar.date)
      ensures |drawn| == limit && page.hasMore && forall s :: s in drawn ==> b.bar.date < s.day
    {
      var r :| r in older && r.stored == b;
      var i :| 0 <= i < |older| && older[i] == r;
      assert i >= |drawn|;
    }
    if |older| > limit {
      assert older[limit] in older;
    }
  }

  /** The statement, with its exclusive upper bound and its limit. */
  function Select(stored: seq<Stored>, actions: seq<Action>, from: Option<int>, before: Option<int>,
                  n: nat): (answer: seq<Row>)
    ensures answer == Take(Older(NewestRows(stored, actions, from), Day(), before), n)
  {
    Take(Older(NewestRows(stored, actions, from), (r: Row) => r.stored.bar.date, before), n)
  }

  // ---------------------------------------------------------------- the walk

  /** How many stored bars lie behind the cursor. */
  ghost function BarsBehind(rows: seq<Row>, before: Option<int>): nat { |Older(rows, Day(), before)| }

  function Candles(pages: seq<CandlePage>): seq<Session> {
    if pages == [] then [] else Candles(pages[1..]) + pages[0].candles
  }

  lemma SessionsOfConcat(a: seq<Row>, b: seq<Row>)
    ensures Sessions(a + b) == Sessions(a) + Sessions(b)
  {}

  lemma SessionsSplit(rows: seq<Row>, n: nat)
    requires n <= |rows|
    ensures Sessions(Reversed(rows)) == Sessions(Reversed(rows[n..])) + Sessions(Reversed(rows[..n]))
  {
    ReversedSplit(rows, n);
    SessionsOfConcat(Reversed(rows[n..]), Reversed(rows[..n]));
  }

  /** A chart scrolled back until nothing older is promised has received every
      session of the window behind its first cursor, once and in order. */
  method ScrollBack(stored: seq<Stored>, actions: seq<Action>, from: Option<int>, before: Option<int>, limit: nat,
                    overlays: bool)
    returns (pages: seq<CandlePage>)
    requires OldestFirstBars(stored) && limit >= 1
    ensures Candles(pages) == Sessions(Reversed(Older(NewestRows(stored, actions, from), Day(), before)))
    decreases BarsBehind(NewestRows(stored, actions, from), before)
  {
    ghost var rows := NewestRows(stored, actions, from);
    ghost var older := Older(rows, Day(), before);
    RowsAreNewestFirst(stored, actions, from);
    NextPageFollows(rows, Day(), before, limit);
    var page := ChartPage(stored, actions, from, before, limit, overlays);
    pages := [page];
    if page.hasMore {
      var rest := ScrollBack(stored, actions, from, page.nextBefore, limit, overlays);
      SessionsSplit(older, limit);
      pages := pages + rest;
      assert pages[1..] == rest;
    } else {
      assert Take(older, limit) == older;
    }
  }

  function Bars(stored: seq<Stored>): (bars: seq<Bar>)
    ensures |bars| == |stored|
  {
    seq(|stored|, i requires 0 <= i < |stored| => stored[i].bar)
  }

  function Closes(sessions: seq<Session>): (closes: seq<real>)
    ensures |closes| == |sessions|
  {
    seq(|sessions|, i requires 0 <= i < |sessions| => sessions[i].close)
  }

  lemma {:induction false} OldestRows(stored: seq<Stored>, actions: seq<Action>, i: nat)
    requires i < |stored|
    ensures var rows := NewestRows(stored, actions, None);
      |rows| == |stored| && rows[|stored|-1-i] == Row(stored[i], FactorAfter(actions, stored[i].bar.date))
  {
    if |stored| > 1 {
      OldestRows(stored[1..], actions, if i == 0 then 0 else i - 1);
    }
  }

  /** The closes of a fully scrolled chart are the back-adjusted series. */
  lemma ChartShowsAdjustedSeries(stored: seq<Stored>, actions: seq<Action>)
    ensures Closes(Sessions(Reversed(Older(NewestRows(stored, actions, None), Day(), None))))
        == AdjustedSeries(Bars(stored), actions)
  {
    hide Older, Day;
    var rows := NewestRows(stored, actions, None);
    EverythingIsOlder(rows);
    if stored != [] { OldestRows(stored, actions, 0); }
    forall i | 0 <= i < |stored|
      ensures Closes(Sessions(Reversed(rows)))[i] == AdjustedSeries(Bars(stored), actions)[i]
    {
      OldestRows(stored, actions, i);
      ReversedAt(rows, i);
    }
  }

  lemma {:induction false} EverythingIsOlder(rows: seq<Row>)
    ensures Older(rows, Day(), None) == rows
  {
    if rows != [] { EverythingIsOlder(rows[1..]); }
  }
}
