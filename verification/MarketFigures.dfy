/** What the report says, read off the stored rows: every window's counts and sums by
    the rows' own days and fields, coverage by the day files, price changes by the
    price rows, and who stands for a company and leads a list. */
module MarketFigures {
  import opened Companies
  import opened Coverage
  import opened DateSets
  import opened Flows
  import opened Folds
  import opened MarketFlows
  import opened Orders
  import opened PriceChain
  import opened SectorFlowLaws
  import opened SectorFlows
  import opened Tallies
  import opened Wrappers

  /** A stored row with its tier, and whether its day is its share's listing session. */
  function RowEntry(f: Feed): Row -> Entry
    requires f.sessions != []
  {
    (x: Row) => Entry(x.flow, Classify(x.flow, x.sessionValue), ListingFor(f, x.code) == Some(x.flow.day))
  }

  // ---------------------------------------------------------------- rows on the calendar

  lemma {:induction false} PositionIsUnique(sessions: seq<int>, day: int, lo: nat, hi: nat)
    requires StrictlyDescending(sessions) && lo <= hi <= |sessions|
    ensures day in sessions[lo..hi] <==>
            PositionOf(sessions, day).Some? && lo <= PositionOf(sessions, day).value < hi
  {
    var at := PositionOf(sessions, day);
    if day in sessions[lo..hi] {
      var k :| 0 <= k < hi - lo && sessions[lo..hi][k] == day;
      assert sessions[lo + k] == day && day in sessions;
    }
    if at.Some? && lo <= at.value < hi { assert sessions[lo..hi][at.value - lo] == day; }
  }

  /** The rows of some positions and some codes, placed and summed, are the rows with
      those days and codes, tabled as they stand. */
  lemma {:induction false} PlacedIsPicked(sessions: seq<int>, shares: map<Code, Share>, rows: seq<Row>,
                                          own: Code -> bool, lo: nat, hi: nat, g: Placed -> Totals,
                                          keep: Row -> bool, make: Row -> Entry)
    requires StrictlyDescending(sessions) && lo <= hi <= |sessions|
    requires forall p :: g(p) == if own(p.code) && lo <= p.idx < hi then Alone(p.entry) else NOTHING
    requires forall x :: x in rows ==> keep(x) == (own(x.code) && x.flow.day in sessions[lo..hi])
    requires forall x :: x in rows && x.flow.day in sessions ==>
        make(x) == Entry(x.flow, Classify(x.flow, x.sessionValue), IsListing(shares, x.code, x.flow.day))
    ensures Fold(Map(PlaceAll(sessions, shares, rows), g), Plus, NOTHING) == TotalsOf(Pick(rows, keep, make))
  {
    if rows != [] {
      hide Alone, Plus, Classify, IsListing, StrictlyDescending;
      var x, rest := rows[0], rows[1..];
      PlacedIsPicked(sessions, shares, rest, own, lo, hi, g, keep, make);
      PlacedFirst(sessions, shares, rows);
      PositionIsUnique(sessions, x.flow.day, lo, hi);
      OneRowPicked(sessions, shares, rows, own, lo, hi, g, keep, make);
    }
  }

  lemma OneRowPicked(sessions: seq<int>, shares: map<Code, Share>, rows: seq<Row>, own: Code -> bool, lo: nat, hi: nat,
                     g: Placed -> Totals, keep: Row -> bool, make: Row -> Entry)
    requires rows != [] && lo <= hi <= |sessions|
    requires forall p :: g(p) == if own(p.code) && lo <= p.idx < hi then Alone(p.entry) else NOTHING
    requires var x := rows[0];
      var at := PositionOf(sessions, x.flow.day);
      && keep(x) == (own(x.code) && at.Some? && lo <= at.value < hi)
      && (at.Some? ==>
            make(x) == Entry(x.flow, Classify(x.flow, x.sessionValue), IsListing(shares, x.code, x.flow.day)))
    requires Fold(Map(PlaceAll(sessions, shares, rows[1..]), g), Plus, NOTHING) == TotalsOf(Pick(rows[1..], keep, make))
    ensures Fold(Map(PlaceAll(sessions, shares, rows), g), Plus, NOTHING) == TotalsOf(Pick(rows, keep, make))
  {
    hide Alone, Plus, Classify, IsListing, Fold, Pick, TotalsOf, PlaceAll;
    PlusIsAMonoid();
    PlacedFirst(sessions, shares, rows);
    var first, rest := PlaceRow(sessions, shares, rows[0]), PlaceAll(sessions, shares, rows[1..]);
    FoldFirst(first, rest, g, Plus, NOTHING);
    PickFirst(rows, keep, make);
    NothingFirst(TotalsOf(Pick(rows[1..], keep, make)));
  }

  lemma NothingFirst(t: Totals)
    ensures Plus(NOTHING, t) == t
  {}

  lemma FoldFirst<A>(first: seq<Placed>, rest: seq<Placed>, g: Placed -> A, op: (A, A) -> A, unit: A)
    requires |first| <= 1
    ensures Fold(Map(first + rest, g), op, unit)
         == if first == [] then Fold(Map(rest, g), op, unit) else op(g(first[0]), Fold(Map(rest, g), op, unit))
  {
    if first == [] {
      assert first + rest == rest;
    } else {
      assert Map(first + rest, g)[1..] == Map(rest, g);
    }
  }

  lemma PickFirst(rows: seq<Row>, keep: Row -> bool, make: Row -> Entry)
    requires rows != []
    ensures TotalsOf(Pick(rows, keep, make))
         == if keep(rows[0]) then Plus(Alone(make(rows[0])), TotalsOf(Pick(rows[1..], keep, make)))
           else TotalsOf(Pick(rows[1..], keep, make))
  {
    hide Plus, Alone, TotalsOf;
    var rest := Pick(rows[1..], keep, make);
    AfterOne(if keep(rows[0]) then [make(rows[0])] else [], rest);
    if keep(rows[0]) { TotalsSplit([make(rows[0])] + rest); }
  }

  // ---------------------------------------------------------------- windows, blocks and the window before

  lemma RowsAreKnown(f: Feed, x: Row)
    requires f.sessions != [] && x in f.rows && x.flow.day in f.sessions
    ensures x.code in SharesOf(f)
    ensures IsListing(SharesOf(f), x.code, x.flow.day) == (ListingFor(f, x.code) == Some(x.flow.day))
    ensures SectorOf(SharesOf(f), x.code) == Record(f.shares, x.code).sector
  {
    assert x.code in RowCodes(f.sessions, f.rows);
  }

  lemma TableOfRows(f: Feed, own: Code -> bool, lo: nat, hi: nat, g: Placed -> Totals, keep: Row -> bool)
    requires StrictlyDescending(f.sessions) && f.sessions != [] && lo <= hi <= |f.sessions|
    requires forall p :: g(p) == if own(p.code) && lo <= p.idx < hi then Alone(p.entry) else NOTHING
    requires forall x :: x in f.rows ==> keep(x) == (own(x.code) && x.flow.day in f.sessions[lo..hi])
    ensures Fold(Map(Held(Indexed(f)), g), Plus, NOTHING) == TotalsOf(Pick(f.rows, keep, RowEntry(f)))
  {
    hide Alone, Plus, Classify, TotalsOf, SharesOf, ListingFor, IsListing;
    forall x | x in f.rows && x.flow.day in f.sessions
      ensures RowEntry(f)(x)
          == Entry(x.flow, Classify(x.flow, x.sessionValue), IsListing(SharesOf(f), x.code, x.flow.day))
    {
      RowsAreKnown(f, x);
    }
    PlacedIsPicked(f.sessions, SharesOf(f), f.rows, own, lo, hi, g, keep, RowEntry(f));
  }

  /** The market's window is the table of the stored rows on its sessions. */
  lemma MarketOnRows(f: Feed, r: Report, n: nat)
    requires StrictlyDescending(f.sessions) && f.sessions != [] && IsReport(f, r) && IsOpen(f, n)
    ensures n in r.built.market
    ensures r.built.market[n] == TotalsOf(Pick(f.rows, (x: Row) => x.flow.day in f.sessions[..n], RowEntry(f)))
  {
    hide WindowsReported, BlocksBuilt, PreviousBuilt, CoversBuilt, Held, Alone, TotalsOf, RowEntry;
    assert f.sessions[0..n] == f.sessions[..n] && Open(Indexed(f), n);
    TableOfRows(f, (c: Code) => true, 0, n, InWindow(n), (x: Row) => x.flow.day in f.sessions[..n]);
  }

  lemma GroupIsFold<T(!new), K, A(!new)>(xs: seq<T>, key: T -> K, f: T -> A, op: (A, A) -> A, unit: A, k: K,
                                         g: T -> A)
    requires forall x :: g(x) == Part(x, key, f, unit, k)
    ensures GroupFold(xs, key, f, op, unit, k) == Fold(Map(xs, g), op, unit)
  {
    SameParts(xs, (x: T) => Part(x, key, f, unit, k), g, op, unit);
  }

  lemma ShareValue(f: Feed, r: Report, n: nat, c: Code)
    requires f.sessions != [] && IsReport(f, r) && IsOpen(f, n) && c in r.built.share
    ensures n in r.built.share[c]
    ensures r.built.share[c][n] == GroupFold(Held(Indexed(f)), CodeOf(), InWindow(n), Plus, NOTHING, c)
  {
    hide WindowsReported, BlocksBuilt, PreviousBuilt, CoversBuilt, Held, Indexed, GroupFold, Codes, Known, OfSector;
    InputOf(f, n);
  }

  lemma SectorValueOf(f: Feed, r: Report, n: nat, sec: string)
    requires f.sessions != [] && IsReport(f, r) && IsOpen(f, n) && sec in r.built.sector
    ensures n in r.built.sector[sec]
    ensures r.built.sector[sec][n]
         == GroupFold(Held(Indexed(f)), PlacedSector(SharesOf(f)), InWindow(n), Plus, NOTHING, sec)
  {
    hide WindowsReported, BlocksBuilt, PreviousBuilt, CoversBuilt, Held, Indexed, GroupFold, Codes, Known, OfShare;
    InputOf(f, n);
  }

  lemma InputOf(f: Feed, n: nat)
    requires f.sessions != []
    ensures IsOpen(f, n) <==> Open(Indexed(f), n)
    ensures Indexed(f).shares == SharesOf(f) && Indexed(f).sessions == f.sessions
  {}

  /** So is every share's, of its own rows, and every sector's, of its shares' rows. */
  lemma ShareOnRows(f: Feed, r: Report, n: nat, c: Code)
    requires StrictlyDescending(f.sessions) && f.sessions != [] && IsReport(f, r) && IsOpen(f, n) && c in r.built.share
    ensures n in r.built.share[c]
    ensures r.built.share[c][n]
         == TotalsOf(Pick(f.rows, (x: Row) => x.code == c && x.flow.day in f.sessions[..n], RowEntry(f)))
  {
    hide IsReport, Held, Alone, TotalsOf, RowEntry, GroupFold, Fold, Pick, Plus, StrictlyDescending;
    ShareValue(f, r, n, c);
    assert f.sessions[0..n] == f.sessions[..n];
    var g := (p: Placed) => Part(p, CodeOf(), InWindow(n), NOTHING, c);
    GroupIsFold(Held(Indexed(f)), CodeOf(), InWindow(n), Plus, NOTHING, c, g);
    TableOfRows(f, (code: Code) => code == c, 0, n, g, (x: Row) => x.code == c && x.flow.day in f.sessions[..n]);
  }

  lemma SectorOnRows(f: Feed, r: Report, n: nat, sec: string)
    requires StrictlyDescending(f.sessions) && f.sessions != [] && IsReport(f, r) && IsOpen(f, n)
        && sec in r.built.sector
    ensures n in r.built.sector[sec]
    ensures r.built.sector[sec][n]
         == TotalsOf(Pick(f.rows, (x: Row) => Record(f.shares, x.code).sector == sec && x.flow.day in f.sessions[..n],
                          RowEntry(f)))
  {
    hide IsReport, Held, Alone, TotalsOf, RowEntry, GroupFold, SectorOf, SharesOf, Fold, Pick, Plus, Record,
         StrictlyDescending;
    SectorValueOf(f, r, n, sec);
    assert f.sessions[0..n] == f.sessions[..n];
    var g := (p: Placed) => Part(p, PlacedSector(SharesOf(f)), InWindow(n), NOTHING, sec);
    var keep := (x: Row) => Record(f.shares, x.code).sector == sec && x.flow.day in f.sessions[..n];
    forall x | x in f.rows
      ensures keep(x) == (SectorOf(SharesOf(f), x.code) == sec && x.flow.day in f.sessions[0..n])
    {
      if x.flow.day in f.sessions[..n] { RowsAreKnown(f, x); }
    }
    GroupIsFold(Held(Indexed(f)), PlacedSector(SharesOf(f)), InWindow(n), Plus, NOTHING, sec, g);
    TableOfRows(f, (code: Code) => SectorOf(SharesOf(f), code) == sec, 0, n, g, keep);
  }

  /** A block is the table of the rows on its five sessions. */
  lemma BlockOnRows(f: Feed, r: Report, b: nat)
    requires StrictlyDescending(f.sessions) && f.sessions != [] && IsReport(f, r)
    requires 5 * b + 5 <= |f.sessions| && b < 12
    ensures b < |r.built.marketShared.blocks|
    ensures r.built.marketShared.blocks[b]
         == TotalsOf(Pick(f.rows, (x: Row) => x.flow.day in f.sessions[5*b..5*b+5], RowEntry(f)))
  {
    hide WindowsReported, WindowsBuilt, PreviousBuilt, CoversBuilt, Held, Alone, TotalsOf, RowEntry;
    assert forall i: nat :: i / BLOCK_SESSIONS == b <==> 5 * b <= i < 5 * b + 5;
    TableOfRows(f, (c: Code) => true, 5 * b, 5 * b + 5, InBlock(b), (x: Row) => x.flow.day in f.sessions[5*b..5*b+5]);
  }

  // ---------------------------------------------------------------- the market's figures, one by one

  /** How the market's counts and sums read on the stored rows of a window's sessions:
      rows by tier, accepted rows in which individuals bought or sold on balance, and
      what the accepted rows add up to. */
  lemma MarketCountsExactly(f: Feed, r: Report, n: nat)
    requires StrictlyDescending(f.sessions) && f.sessions != [] && IsReport(f, r) && IsOpen(f, n)
    ensures n in r.built.market
    ensures var c := r.built.market[n].counts;
      && c.barChecked == Tally(f.rows, (x: Row) =>
           x.flow.day in f.sessions[..n] && Classify(x.flow, x.sessionValue) == BarChecked)
      && c.identityOnly == Tally(f.rows, (x: Row) =>
           x.flow.day in f.sessions[..n] && Classify(x.flow, x.sessionValue) == IdentityOnly)
      && c.excluded == Tally(f.rows, (x: Row) =>
           x.flow.day in f.sessions[..n] && Classify(x.flow, x.sessionValue) == Excluded)
      && c.noTrade == Tally(f.rows, (x: Row) =>
           x.flow.day in f.sessions[..n] && Classify(x.flow, x.sessionValue) == NoTrade)
      && c.inflowRows == Tally(f.rows, (x: Row) =>
           x.flow.day in f.sessions[..n] && Classify(x.flow, x.sessionValue).Accepted()
           && x.flow.buyIValue > x.flow.sellIValue)
      && c.outflowRows == Tally(f.rows, (x: Row) =>
           x.flow.day in f.sessions[..n] && Classify(x.flow, x.sessionValue).Accepted()
           && x.flow.buyIValue < x.flow.sellIValue)
      && c.listing == Tally(f.rows, (x: Row) =>
           x.flow.day in f.sessions[..n] && Classify(x.flow, x.sessionValue).Accepted()
           && ListingFor(f, x.code) == Some(x.flow.day))
  {
    hide IsReport, TotalsOf, Tally, Pick, Classify, ListingFor, StrictlyDescending;
    MarketOnRows(f, r, n);
    var keep, make := (x: Row) => x.flow.day in f.sessions[..n], RowEntry(f);
    var entries := Pick(f.rows, keep, make);
    TierCountsExactly(entries);
    DirectionsExactly(entries);
    TallyOfPick(f.rows, keep, make, (e: Entry) => e.tier == BarChecked,
                (x: Row) => x.flow.day in f.sessions[..n] && Classify(x.flow, x.sessionValue) == BarChecked);
    TallyOfPick(f.rows, keep, make, (e: Entry) => e.tier == IdentityOnly,
                (x: Row) => x.flow.day in f.sessions[..n] && Classify(x.flow, x.sessionValue) == IdentityOnly);
    TallyOfPick(f.rows, keep, make, (e: Entry) => e.tier == Excluded,
                (x: Row) => x.flow.day in f.sessions[..n] && Classify(x.flow, x.sessionValue) == Excluded);
    TallyOfPick(f.rows, keep, make, (e: Entry) => e.tier == NoTrade,
                (x: Row) => x.flow.day in f.sessions[..n] && Classify(x.flow, x.sessionValue) == NoTrade);
    var entered := (e: Entry) =>
        (e.tier == BarChecked || e.tier == IdentityOnly) && e.flow.buyIValue > e.flow.sellIValue;
    TallyOfPick(f.rows, keep, make, entered, (x: Row) =>
        x.flow.day in f.sessions[..n] && Classify(x.flow, x.sessionValue).Accepted()
           && x.flow.buyIValue > x.flow.sellIValue);
    var left := (e: Entry) =>
        (e.tier == BarChecked || e.tier == IdentityOnly) && e.flow.buyIValue < e.flow.sellIValue;
    TallyOfPick(f.rows, keep, make, left, (x: Row) =>
        x.flow.day in f.sessions[..n] && Classify(x.flow, x.sessionValue).Accepted()
           && x.flow.buyIValue < x.flow.sellIValue);
    var lists := (e: Entry) => (e.tier == BarChecked || e.tier == IdentityOnly) && e.listing;
    TallyOfPick(f.rows, keep, make, lists, (x: Row) =>
        x.flow.day in f.sessions[..n] && Classify(x.flow, x.sessionValue).Accepted()
           && ListingFor(f, x.code) == Some(x.flow.day));
  }

  lemma MarketSumsExactly(f: Feed, r: Report, n: nat)
    requires StrictlyDescending(f.sessions) && f.sessions != [] && IsReport(f, r) && IsOpen(f, n)
    ensures n in r.built.market
    ensures var s := r.built.market[n].sums;
      var accepted := (x: Row) => x.flow.day in f.sessions[..n] && Classify(x.flow, x.sessionValue).Accepted();
      && s.net == Total(f.rows, accepted, (x: Row) => x.flow.buyIValue - x.flow.sellIValue)
      && s.value == Total(f.rows, accepted, (x: Row) => x.flow.buyIValue + x.flow.buyNValue)
      && s.sellValue == Total(f.rows, accepted, (x: Row) => x.flow.sellIValue + x.flow.sellNValue)
      && s.buyI == Total(f.rows, accepted, (x: Row) => x.flow.buyIValue)
      && s.sellI == Total(f.rows, accepted, (x: Row) => x.flow.sellIValue)
  {
    hide IsReport, TotalsOf, Total, Pick, Classify, ListingFor, StrictlyDescending;
    MarketOnRows(f, r, n);
    var keep, make := (x: Row) => x.flow.day in f.sessions[..n], RowEntry(f);
    SumsExactly(Pick(f.rows, keep, make));
    var counted := (e: Entry) => e.tier == BarChecked || e.tier == IdentityOnly;
    var accepted := (x: Row) => x.flow.day in f.sessions[..n] && Classify(x.flow, x.sessionValue).Accepted();
    TotalOfPick(f.rows, keep, make, counted, (e: Entry) => e.flow.buyIValue - e.flow.sellIValue,
                accepted, (x: Row) => x.flow.buyIValue - x.flow.sellIValue);
    TotalOfPick(f.rows, keep, make, counted, (e: Entry) => e.flow.buyIValue + e.flow.buyNValue,
                accepted, (x: Row) => x.flow.buyIValue + x.flow.buyNValue);
    TotalOfPick(f.rows, keep, make, counted, (e: Entry) => e.flow.sellIValue + e.flow.sellNValue,
                accepted, (x: Row) => x.flow.sellIValue + x.flow.sellNValue);
    TotalOfPick(f.rows, keep, make, counted, (e: Entry) => e.flow.buyIValue,
                accepted, (x: Row) => x.flow.buyIValue);
    TotalOfPick(f.rows, keep, make, counted, (e: Entry) => e.flow.sellIValue,
                accepted, (x: Row) => x.flow.sellIValue);
  }

  // ---------------------------------------------------------------- the window before

  lemma {:induction false} PreviousIsPicked(sessions: seq<int>, shares: map<Code, Share>, rows: seq<Row>, lo: nat,
                                            hi: nat, g: Placed -> Prev, q: Row -> bool, value: Row -> real)
    requires StrictlyDescending(sessions) && lo <= hi <= |sessions|
    requires forall p :: g(p) == if lo <= p.idx < hi && p.entry.tier.Accepted() then Prev(Bought(p.entry.flow), 1)
                            else NO_PREV
    requires forall x :: q(x) == (x.flow.day in sessions[lo..hi] && Classify(x.flow, x.sessionValue).Accepted())
    requires forall x :: value(x) == Bought(x.flow)
    ensures Fold(Map(PlaceAll(sessions, shares, rows), g), AddPrev, NO_PREV)
         == Prev(Total(rows, q, value), Tally(rows, q))
  {
    if rows != [] {
      PreviousIsPicked(sessions, shares, rows[1..], lo, hi, g, q, value);
      PositionIsUnique(sessions, rows[0].flow.day, lo, hi);
      OneRowBefore(sessions, shares, rows, lo, hi, g, q, value);
    }
  }

  lemma OneRowBefore(sessions: seq<int>, shares: map<Code, Share>, rows: seq<Row>, lo: nat, hi: nat, g: Placed -> Prev,
                     q: Row -> bool, value: Row -> real)
    requires rows != [] && lo <= hi <= |sessions|
    requires forall p :: g(p) == if lo <= p.idx < hi && p.entry.tier.Accepted() then Prev(Bought(p.entry.flow), 1)
                            else NO_PREV
    requires var x := rows[0];
      var at := PositionOf(sessions, x.flow.day);
      && q(x) == (at.Some? && lo <= at.value < hi && Classify(x.flow, x.sessionValue).Accepted())
      && value(x) == Bought(x.flow)
    requires Fold(Map(PlaceAll(sessions, shares, rows[1..]), g), AddPrev, NO_PREV)
          == Prev(Total(rows[1..], q, value), Tally(rows[1..], q))
    ensures Fold(Map(PlaceAll(sessions, shares, rows), g), AddPrev, NO_PREV)
         == Prev(Total(rows, q, value), Tally(rows, q))
  {
    hide Classify, Bought, PlaceAll, Fold, Total, Tally;
    PlacedFirst(sessions, shares, rows);
    FoldFirst(PlaceRow(sessions, shares, rows[0]), PlaceAll(sessions, shares, rows[1..]), g, AddPrev, NO_PREV);
    TallyFirst(rows, q);
    TotalFirst(rows, q, value);
  }

  /** The accepted value and the accepted rows of the n sessions before a window. */
  lemma PreviousOnRows(f: Feed, r: Report, n: nat)
    requires StrictlyDescending(f.sessions) && f.sessions != [] && IsReport(f, r)
    requires n in [1, 5, 20, 60] && 2 * n <= |f.sessions|
    ensures n in r.built.marketShared.prev
    ensures var accepted := (x: Row) =>
        x.flow.day in f.sessions[n..2*n] && Classify(x.flow, x.sessionValue).Accepted();
      && r.built.marketShared.prev[n].value
         == Total(f.rows, accepted, (x: Row) => x.flow.buyIValue + x.flow.buyNValue)
      && r.built.marketShared.prev[n].rows == Tally(f.rows, accepted)
  {
    hide WindowsReported, BlocksBuilt, WindowsBuilt, CoversBuilt, Classify, SharesOf, OfSector, Fold;
    InputOf(f, n);
    var accepted := (x: Row) =>
        x.flow.day in f.sessions[n..2*n] && Classify(x.flow, x.sessionValue).Accepted();
    PreviousIsPicked(f.sessions, SharesOf(f), f.rows, n, 2 * n, SectorFlows.Before(n), accepted,
                     (x: Row) => x.flow.buyIValue + x.flow.buyNValue);
  }

  // ---------------------------------------------------------------- coverage

  lemma {:induction false} TallyAlong(s: seq<int>, lo: nat, hi: nat, p: int -> bool, q: int -> bool)
    requires lo <= hi <= |s| && forall i :: lo <= i < hi ==> p(i) == q(s[i])
    ensures Tally(Range(lo, hi), p) == Tally(s[lo..hi], q)
    decreases hi - lo
  {
    if lo < hi {
      assert Range(lo, hi)[1..] == Range(lo + 1, hi) && s[lo..hi][1..] == s[lo+1..hi];
      TallyAlong(s, lo + 1, hi, p, q);
    }
  }

  lemma {:induction false} TotalAlong(s: seq<int>, lo: nat, hi: nat, p: int -> bool, v: int -> real, q: int -> bool,
                                      w: int -> real)
    requires lo <= hi <= |s| && forall i :: lo <= i < hi ==> p(i) == q(s[i]) && (q(s[i]) ==> v(i) == w(s[i]))
    ensures Total(Range(lo, hi), p, v) == Total(s[lo..hi], q, w)
    decreases hi - lo
  {
    if lo < hi {
      assert Range(lo, hi)[1..] == Range(lo + 1, hi) && s[lo..hi][1..] == s[lo+1..hi];
      TotalAlong(s, lo + 1, hi, p, v, q, w);
    }
  }

  /** A day file shows the share trading on that day. */
  predicate DayFileShows(f: Feed, c: Code, day: int) { exists y :: y in f.dayFiles && y.code == c && y.day == day }

  /** A stored flow of the share on that day has something bought or sold. */
  predicate FlowShows(f: Feed, c: Code, day: int) {
    exists x :: x in f.rows && x.code == c && x.flow.day == day
           && (x.flow.buyIValue + x.flow.buyNValue > 0.0 || x.flow.sellIValue + x.flow.sellNValue > 0.0)
  }

  lemma {:induction false} LastValueShows(rows: seq<DayRow>, c: Code, day: int)
    ensures LastValue(rows, c, day).Some? <==> exists y :: y in rows && y.code == c && y.day == day
    decreases |rows|
  {
    if rows != [] {
      var n := |rows| - 1;
      LastValueShows(rows[..n], c, day);
      assert rows == rows[..n] + [rows[n]];
      assert rows[n] in rows;
    }
  }

  ghost predicate ValueAt(rows: seq<DayRow>, c: Code, day: int, v: real, i: int) {
    && 0 <= i < |rows| && rows[i].code == c && rows[i].day == day && rows[i].value == v
    && forall j :: i < j < |rows| ==> rows[j].code != c || rows[j].day != day
  }

  /** Of several statements of a day the last one stands. */
  lemma {:induction false} LastValueExactly(rows: seq<DayRow>, c: Code, day: int, v: real)
    ensures LastValue(rows, c, day) == Some(v) <==> exists i :: ValueAt(rows, c, day, v, i)
    decreases |rows|
  {
    if rows != [] {
      var n := |rows| - 1;
      LastValueExactly(rows[..n], c, day, v);
      if i :| ValueAt(rows[..n], c, day, v, i) {
        assert rows[n].code != c || rows[n].day != day ==> ValueAt(rows, c, day, v, i);
      }
      if i :| ValueAt(rows, c, day, v, i) {
        assert i < n ==> ValueAt(rows[..n], c, day, v, i);
      }
      assert rows[n].code == c && rows[n].day == day && rows[n].value == v ==> ValueAt(rows, c, day, v, n);
    }
  }

  lemma {:induction false} PlacedFrom(sessions: seq<int>, shares: map<Code, Share>, rows: seq<Row>, p: Placed)
    ensures p in PlaceAll(sessions, shares, rows) <==> exists x :: x in rows && p in PlaceRow(sessions, shares, x)
  {
    if rows != [] {
      PlacedFirst(sessions, shares, rows);
      PlacedFrom(sessions, shares, rows[1..], p);
      hide PlaceRow, PlaceAll;
      assert rows == [rows[0]] + rows[1..];
    }
  }

  lemma FlowedExactly(f: Feed, c: Code, i: nat)
    requires StrictlyDescending(f.sessions) && f.sessions != [] && i < |f.sessions|
    ensures i in FlowedIn(Indexed(f), c) <==> FlowShows(f, c, f.sessions[i])
  {
    var own := Only(Held(Indexed(f)), CodeOf(), c);
    if i in Flowed(own) {
      var p :| p in own && p.entry.tier != NoTrade && p.idx == i;
      RowOfPlaced(f, c, p);
    }
    if FlowShows(f, c, f.sessions[i]) {
      var x :| x in f.rows && x.code == c && x.flow.day == f.sessions[i]
               && (x.flow.buyIValue + x.flow.buyNValue > 0.0 || x.flow.sellIValue + x.flow.sellNValue > 0.0);
      PositionIsUnique(f.sessions, f.sessions[i], i, i + 1);
      assert f.sessions[i..i+1][0] == f.sessions[i];
      var p := PlaceRow(f.sessions, SharesOf(f), x)[0];
      PlacedFrom(f.sessions, SharesOf(f), f.rows, p);
      OnlyMembers(Held(Indexed(f)), c);
      TradedTier(x);
      assert p in own && p.entry.tier != NoTrade && p.idx == i;
    }
  }

  lemma TradedTier(x: Row)
    ensures Classify(x.flow, x.sessionValue) != NoTrade <==>
            x.flow.buyIValue + x.flow.buyNValue > 0.0 || x.flow.sellIValue + x.flow.sellNValue > 0.0
  {
    AcceptedExactly(x.flow, x.sessionValue);
  }

  lemma RowOfPlaced(f: Feed, c: Code, p: Placed)
    requires f.sessions != [] && p in Only(Held(Indexed(f)), CodeOf(), c) && p.entry.tier != NoTrade
    ensures p.idx < |f.sessions| && FlowShows(f, c, f.sessions[p.idx])
  {
    hide Classify, SharesOf;
    OnlyMembers(Held(Indexed(f)), c);
    PlacedFrom(f.sessions, SharesOf(f), f.rows, p);
    var x :| x in f.rows && p in PlaceRow(f.sessions, SharesOf(f), x);
    TradedTier(x);
  }

  /** A share's coverage in a window, day by day: how many of the window's sessions a day
      file shows it trading on, on how many of those a flow is stored, and the values. */
  lemma CoverOnRows(f: Feed, r: Report, n: nat, c: Code)
    requires StrictlyDescending(f.sessions) && f.sessions != [] && IsReport(f, r) && IsOpen(f, n)
    requires c in r.built.shareCover
    ensures n in r.built.shareCover[c]
    ensures var cover := r.built.shareCover[c][n];
      var value := (d: int) => match LastValue(f.dayFiles, c, d) { case None => 0.0 case Some(v) => v };
      && cover.dayFile == Tally(f.sessions[..n], (d: int) => DayFileShows(f, c, d))
      && cover.withFlow == Tally(f.sessions[..n], (d: int) => DayFileShows(f, c, d) && FlowShows(f, c, d))
      && cover.dayValue == Total(f.sessions[..n], (d: int) => DayFileShows(f, c, d), value)
      && cover.withFlowValue
         == Total(f.sessions[..n], (d: int) => DayFileShows(f, c, d) && FlowShows(f, c, d), value)
  {
    hide WindowsReported, BlocksBuilt, WindowsBuilt, PreviousBuilt, CoverBuilt, Held, FlowShows, FlowedIn, Over, Tally,
         Total, Codes, IsOpen, Known, StrictlyDescending;
    var days, flowed := DayFile(f.dayFiles, f.sessions, c), FlowedIn(Indexed(f), c);
    WindowIsKnown(f, n);
    OverExactly(days, flowed, 0, n);
    forall i | 0 <= i < n
      ensures i in days <==> DayFileShows(f, c, f.sessions[i])
      ensures i in flowed <==> FlowShows(f, c, f.sessions[i])
    {
      LastValueShows(f.dayFiles, c, f.sessions[i]);
      FlowedExactly(f, c, i);
    }
    CoverAlong(f, c, n, days, flowed);
  }

  lemma WindowIsKnown(f: Feed, n: int)
    requires IsOpen(f, n)
    ensures n in WINDOWS && 0 < n <= |f.sessions|
  {}

  lemma CoverAlong(f: Feed, c: Code, n: nat, days: map<int, real>, flowed: set<int>)
    requires n <= |f.sessions|
    requires forall i :: 0 <= i < n ==> (i in days <==> DayFileShows(f, c, f.sessions[i]))
    requires forall i :: 0 <= i < n ==> (i in flowed <==> FlowShows(f, c, f.sessions[i]))
    requires forall i :: 0 <= i < n && i in days ==> LastValue(f.dayFiles, c, f.sessions[i]) == Some(days[i])
    ensures var of := (i: int) => if i in days then days[i] else 0.0;
      var value := (d: int) => match LastValue(f.dayFiles, c, d) { case None => 0.0 case Some(v) => v };
      && Tally(Range(0, n), (i: int) => i in days) == Tally(f.sessions[..n], (d: int) => DayFileShows(f, c, d))
      && Tally(Range(0, n), (i: int) => i in days && i in flowed)
         == Tally(f.sessions[..n], (d: int) => DayFileShows(f, c, d) && FlowShows(f, c, d))
      && Total(Range(0, n), (i: int) => i in days, of)
         == Total(f.sessions[..n], (d: int) => DayFileShows(f, c, d), value)
      && Total(Range(0, n), (i: int) => i in days && i in flowed, of)
         == Total(f.sessions[..n], (d: int) => DayFileShows(f, c, d) && FlowShows(f, c, d), value)
  {
    hide Tally, Total, DayFileShows, FlowShows, LastValue;
    var of := (i: int) => if i in days then days[i] else 0.0;
    var value := (d: int) => match LastValue(f.dayFiles, c, d) { case None => 0.0 case Some(v) => v };
    assert f.sessions[0..n] == f.sessions[..n];
    TallyAlong(f.sessions, 0, n, (i: int) => i in days, (d: int) => DayFileShows(f, c, d));
    TallyAlong(f.sessions, 0, n, (i: int) => i in days && i in flowed,
               (d: int) => DayFileShows(f, c, d) && FlowShows(f, c, d));
    TotalAlong(f.sessions, 0, n, (i: int) => i in days, of, (d: int) => DayFileShows(f, c, d), value);
    TotalAlong(f.sessions, 0, n, (i: int) => i in days && i in flowed, of,
               (d: int) => DayFileShows(f, c, d) && FlowShows(f, c, d), value);
  }

  // ---------------------------------------------------------------- which shares and sectors

  /** A stored row on the calendar, or a record that is listed. */
  predicate Reported(f: Feed, c: Code) {
    || (exists x :: x in f.rows && x.code == c && x.flow.day in f.sessions)
    || (exists m :: m in f.shares && m.code == c && m.listed)
  }

  lemma CodesExactly(f: Feed, c: Code)
    requires f.sessions != []
    ensures c in Codes(Indexed(f)) <==> Reported(f, c)
  {
    hide Classify, ListingFor;
    if c in PlacedCodes(Held(Indexed(f))) {
      var p :| p in Held(Indexed(f)) && p.code == c;
      PlacedFrom(f.sessions, SharesOf(f), f.rows, p);
      var x :| x in f.rows && p in PlaceRow(f.sessions, SharesOf(f), x);
      assert x.code == c;
    }
    if x :| x in f.rows && x.code == c && x.flow.day in f.sessions {
      var p := PlaceRow(f.sessions, SharesOf(f), x)[0];
      PlacedFrom(f.sessions, SharesOf(f), f.rows, p);
    }
    if m :| m in f.shares && m.code == c && m.listed {
      assert c in RecordedCodes(f.shares);
    }
  }

  /** The report lists exactly the shares with a row on the calendar or a listed record,
      and exactly the sectors of those shares. */
  lemma ReportedOnRows(f: Feed, r: Report)
    requires f.sessions != [] && IsReport(f, r)
    ensures forall c :: c in r.built.share <==> Reported(f, c)
    ensures forall sec :: sec in r.built.sector <==> exists c :: Reported(f, c) && Record(f.shares, c).sector == sec
  {
    hide WindowsReported, BlocksBuilt, PreviousBuilt, CoversBuilt, Reported, Codes, ListingFor, Record;
    forall c ensures c in Codes(Indexed(f)) <==> Reported(f, c) { CodesExactly(f, c); }
    forall c | Reported(f, c) ensures SectorOf(SharesOf(f), c) == Record(f.shares, c).sector {
      assert c in AllCodes(f) by { ReportedIsKnown(f, c); }
    }
    assert Indexed(f).shares == SharesOf(f);
  }

  lemma ReportedIsKnown(f: Feed, c: Code)
    requires Reported(f, c)
    ensures c in AllCodes(f)
  {}
}
