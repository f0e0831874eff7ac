/** The whole report is a function of what is stored: no order in which shares, rows,
    prices or day files are read, and no order in which a map is walked, changes a
    figure of it. */
module MarketFlowLaws {
  import opened Companies
  import opened Coverage
  import opened Flows
  import opened Folds
  import opened MarketFlows
  import opened Orders
  import opened PriceChain
  import opened SectorFlowLaws
  import opened SectorFlows

  /** The same stored rows, read in another order. */
  ghost predicate Rearranged(f: Feed, g: Feed) {
    && g.sessions == f.sessions && multiset(g.rows) == multiset(f.rows) && multiset(g.shares) == multiset(f.shares)
    && multiset(g.prices) == multiset(f.prices) && multiset(g.dayFiles) == multiset(f.dayFiles)
  }

  function PriceKey(): PriceRow -> (string, int) { (r: PriceRow) => (r.code, r.price.day) }

  ghost predicate OneRecordPerShare(shares: seq<ShareRow>) {
    forall m, q :: m in shares && q in shares && m.code == q.code ==> m == q
  }

  /** The primary keys of the tables read: one record per share, one price and one
      day-file row per share and day. */
  ghost predicate StoredOnce(f: Feed) {
    OneRecordPerShare(f.shares) && NoRepeats(Map(f.prices, PriceKey())) && OneValuePerDay(f.dayFiles)
  }

  // ---------------------------------------------------------------- shares and prices

  lemma SameRecord(a: seq<ShareRow>, b: seq<ShareRow>, c: string)
    requires multiset(a) == multiset(b) && OneRecordPerShare(a)
    ensures Record(a, c) == Record(b, c) && RecordedCodes(a) == RecordedCodes(b) && ListedIn(a, c) == ListedIn(b, c)
  {
    SameMultisetSameMembers(a, b);
    NoRecord(a, c);
    NoRecord(b, c);
  }

  lemma {:induction false} PriceIsARow(prices: seq<PriceRow>, c: string, x: Price)
    ensures x in PricesOfShare(prices, c) <==> PriceRow(c, x) in prices
  {
    if prices != [] {
      PriceIsARow(prices[1..], c, x);
      PricesFirst(prices, c);
      assert prices == [prices[0]] + prices[1..];
    }
  }

  lemma PricesFirst(prices: seq<PriceRow>, c: string)
    requires prices != []
    ensures PricesOfShare(prices, c)
         == (if prices[0].code == c then [prices[0].price] else []) + PricesOfShare(prices[1..], c)
  {}

  /** One price a day leaves a share's prices on different days. */
  lemma {:induction false} DaysAreApart(prices: seq<PriceRow>, c: string)
    requires NoRepeats(Map(prices, PriceKey()))
    ensures Comparable(PricesOfShare(prices, c), Earlier())
  {
    if prices != [] {
      var rest, keys := prices[1..], Map(prices, PriceKey());
      assert Map(rest, PriceKey()) == keys[1..];
      DaysAreApart(rest, c);
      PricesFirst(prices, c);
      var tail := PricesOfShare(rest, c);
      forall k | 0 <= k < |tail| && prices[0].code == c ensures Apart(prices[0].price, tail[k], Earlier()) {
        PriceIsARow(rest, c, tail[k]);
        var j :| 0 <= j < |rest| && rest[j] == PriceRow(c, tail[k]);
        assert keys[0] != keys[j+1];
      }
    }
  }

  lemma EarlierIsAnOrder()
    ensures StrictOrder(Earlier())
  {
    forall a, b, c ensures OrderLaws(Earlier(), a, b, c) {}
  }

  /** However the prices come, a share's are the same once sorted. */
  lemma SamePrices(a: seq<PriceRow>, b: seq<PriceRow>, c: string)
    requires multiset(a) == multiset(b) && NoRepeats(Map(a, PriceKey()))
    ensures SortedPrices(a, c) == SortedPrices(b, c)
  {
    MapPermutation(a, b, PriceKey());
    NoRepeatsElsewhere(Map(a, PriceKey()), Map(b, PriceKey()));
    DaysAreApart(a, c);
    DaysAreApart(b, c);
    SameMultisetSameMembers(a, b);
    forall x ensures x in PricesOfShare(a, c) <==> x in PricesOfShare(b, c) {
      PriceIsARow(a, c, x);
      PriceIsARow(b, c, x);
    }
    EarlierIsAnOrder();
    SortIgnoresOrder(PricesOfShare(a, c), PricesOfShare(b, c), Earlier());
  }

  /** Nothing is left of the order once shares and prices are indexed. */
  lemma SameIndex(f: Feed, g: Feed)
    requires f.sessions != [] && Rearranged(f, g) && StoredOnce(f)
    ensures SameDays(Indexed(f), Indexed(g)) && AllCodes(f) == AllCodes(g) && Metas(f) == Metas(g)
    ensures forall c ::
        Record(f.shares, c) == Record(g.shares, c) && SortedPrices(f.prices, c) == SortedPrices(g.prices, c)
    ensures forall c :: ListingFor(f, c) == ListingFor(g, c)
  {
    hide Record, SortedPrices, StoredOnce, RecordedCodes, RowCodes, MetaFor;
    SameStored(f, g);
    assert AllCodes(f) == AllCodes(g);
    assert Metas(f) == Metas(g);
    assert SharesOf(f) == SharesOf(g);
  }

  lemma SameStored(f: Feed, g: Feed)
    requires f.sessions != [] && Rearranged(f, g) && StoredOnce(f)
    ensures RecordedCodes(f.shares) == RecordedCodes(g.shares)
        && RowCodes(f.sessions, f.rows) == RowCodes(g.sessions, g.rows)
    ensures forall c :: Record(f.shares, c) == Record(g.shares, c) && ListedIn(f.shares, c) == ListedIn(g.shares, c)
    ensures forall c :: SortedPrices(f.prices, c) == SortedPrices(g.prices, c)
  {
    SameMultisetSameMembers(f.rows, g.rows);
    SameRecord(f.shares, g.shares, "");
    forall c ensures Record(f.shares, c) == Record(g.shares, c) && ListedIn(f.shares, c) == ListedIn(g.shares, c)
      ensures SortedPrices(f.prices, c) == SortedPrices(g.prices, c)
    {
      SameRecord(f.shares, g.shares, c);
      SamePrices(f.prices, g.prices, c);
    }
  }

  // ---------------------------------------------------------------- price changes

  lemma SameChange(f: Feed, g: Feed, c: string, n: nat)
    requires 0 < n <= |f.sessions| && Rearranged(f, g) && StoredOnce(f)
    ensures ChangeFor(f, c, n) == ChangeFor(g, c, n)
  {
    SameIndex(f, g);
    SameHeld(Indexed(f), Indexed(g));
    hide SortedPrices, ListingFor, ChangeOver, Indexed, StoredOnce;
    FlatPermutation(f.rows, g.rows, TradedDay(f.sessions, c, n));
    AnyTradedOrder(SortedPrices(f.prices, c), TradedDays(f.sessions, f.rows, c, n),
                   TradedDays(g.sessions, g.rows, c, n),
                   f.sessions[n-1], f.sessions[0], ListingFor(f, c));
  }

  lemma SameChanges(f: Feed, g: Feed, n: nat)
    requires 0 < n <= |f.sessions| && Rearranged(f, g) && StoredOnce(f)
    ensures Changes(f, n) == Changes(g, n)
  {
    hide StoredOnce, ChangeFor, Indexed;
    SameIndex(f, g);
    forall c | c in AllCodes(f) ensures ChangeFor(f, c, n) == ChangeFor(g, c, n) { SameChange(f, g, c, n); }
  }

  // ---------------------------------------------------------------- what two reports share

  ghost predicate SameShares(f: Feed, a: Built, b: Built) {
    && a.share.Keys == b.share.Keys
    && forall c, n ::
      c in a.share && IsOpen(f, n) ==> n in a.share[c] && n in b.share[c] && a.share[c][n] == b.share[c][n]
  }

  ghost predicate SameSectors(f: Feed, a: Built, b: Built) {
    && a.sector.Keys == b.sector.Keys
    && forall sec, n :: sec in a.sector && IsOpen(f, n) ==>
         n in a.sector[sec] && n in b.sector[sec] && a.sector[sec][n] == b.sector[sec][n]
  }

  ghost predicate SameMarket(f: Feed, a: Built, b: Built) {
    forall n :: IsOpen(f, n) ==> n in a.market && n in b.market && a.market[n] == b.market[n]
  }

  ghost predicate SameWindows(f: Feed, a: Built, b: Built) {
    SameShares(f, a, b) && SameSectors(f, a, b) && SameMarket(f, a, b)
  }

  ghost predicate SameBlocks(a: Built, b: Built) {
    && a.marketShared.blocks == b.marketShared.blocks && a.sectorShared.Keys == b.sectorShared.Keys
    && forall sec :: sec in a.sectorShared ==> a.sectorShared[sec].blocks == b.sectorShared[sec].blocks
  }

  ghost predicate SamePreviousAt(a: Built, b: Built, n: int) {
    && n in a.marketShared.prev && n in b.marketShared.prev && a.marketShared.prev[n] == b.marketShared.prev[n]
    && forall sec :: sec in a.sectorShared ==>
         && sec in b.sectorShared && n in a.sectorShared[sec].prev && n in b.sectorShared[sec].prev
         && a.sectorShared[sec].prev[n] == b.sectorShared[sec].prev[n]
  }

  ghost predicate SamePrevious(f: Feed, a: Built, b: Built) {
    forall n :: n in WINDOWS && 2 * n <= |f.sessions| ==> SamePreviousAt(a, b, n)
  }

  ghost predicate SameCoverAt(sector: map<string, map<int, Cover>>, market: map<int, Cover>,
                              sector': map<string, map<int, Cover>>, market': map<int, Cover>, n: int)
  {
    && n in market && n in market' && market[n] == market'[n]
    && forall sec ::
      sec in sector && sec in sector' ==> n in sector[sec] && n in sector'[sec] && sector[sec][n] == sector'[sec][n]
  }

  ghost predicate SameShareCover(a: map<Code, map<int, Cover>>, b: map<Code, map<int, Cover>>) {
    && a.Keys == b.Keys
    && forall c, n: nat :: c in a && n in WINDOWS ==> n in a[c] && n in b[c] && a[c][n] == b[c][n]
  }

  ghost predicate SameGroupCover(sector: map<string, map<int, Cover>>, market: map<int, Cover>,
                                 sector': map<string, map<int, Cover>>, market': map<int, Cover>)
  {
    sector.Keys == sector'.Keys && forall n :: n in WINDOWS ==> SameCoverAt(sector, market, sector', market', n)
  }

  ghost predicate SameCoverage(a: Built, b: Built) {
    && SameShareCover(a.shareCover, b.shareCover)
    && SameGroupCover(a.sectorCover, a.marketCover, b.sectorCover, b.marketCover)
    && SameGroupCover(a.sectorPrevCover, a.marketPrevCover, b.sectorPrevCover, b.marketPrevCover)
  }

  ghost predicate SameTopsAt(a: Report, b: Report, n: int) {
    && n in a.changes && n in b.changes && a.changes[n] == b.changes[n]
    && n in a.tops && n in b.tops
    && (forall co :: co in a.tops[n].companies <==> co in b.tops[n].companies)
    && a.tops[n].inflow == b.tops[n].inflow && a.tops[n].outflow == b.tops[n].outflow
  }

  ghost predicate SameTops(f: Feed, a: Report, b: Report) { forall n :: IsOpen(f, n) ==> SameTopsAt(a, b, n) }

  lemma SharesAgree(f: Feed, input: Input, shuffled: Input, a: Built, b: Built)
    requires SameInput(input, shuffled) && input.sessions == f.sessions && WindowsBuilt(input, a)
        && WindowsBuilt(shuffled, b)
    ensures SameShares(f, a, b)
  {
    SharesIgnoreOrder(input, shuffled, a, b);
    hide WindowsBuilt, SameInput;
    assert forall n :: IsOpen(f, n) <==> Open(input, n);
  }

  lemma SectorsAgree(f: Feed, input: Input, shuffled: Input, a: Built, b: Built)
    requires SameInput(input, shuffled) && input.sessions == f.sessions && WindowsBuilt(input, a)
        && WindowsBuilt(shuffled, b)
    ensures SameSectors(f, a, b)
  {
    SectorsIgnoreOrder(input, shuffled, a, b);
    hide WindowsBuilt, SameInput;
    assert forall n :: IsOpen(f, n) <==> Open(input, n);
  }

  lemma WindowsAgree(f: Feed, input: Input, shuffled: Input, a: Built, b: Built)
    requires SameInput(input, shuffled) && input.sessions == f.sessions && WindowsBuilt(input, a)
        && WindowsBuilt(shuffled, b)
    ensures SameWindows(f, a, b)
  {
    hide WindowsBuilt, SameInput, SameShares, SameSectors;
    SharesAgree(f, input, shuffled, a, b);
    SectorsAgree(f, input, shuffled, a, b);
    forall n | IsOpen(f, n) ensures n in a.market && n in b.market && a.market[n] == b.market[n] {
      MarketIgnoresOrder(input, shuffled, a, b, n);
    }
  }

  lemma PreviousAgree(f: Feed, g: Feed, a: Built, b: Built)
    requires f.sessions != [] && Rearranged(f, g) && SameInput(Indexed(f), Indexed(g))
    requires BlocksBuilt(Indexed(f), a) && BlocksBuilt(Indexed(g), b)
    requires PreviousBuilt(Indexed(f), a) && PreviousBuilt(Indexed(g), b)
    ensures SamePrevious(f, a, b)
  {
    hide BlocksBuilt, PreviousBuilt, SharesOf, Known;
    var input, shuffled := Indexed(f), Indexed(g);
    hide BlocksBuilt, PreviousBuilt;
    forall n | n in WINDOWS && 2 * n <= |f.sessions| ensures SamePreviousAt(a, b, n) {
      assert HasPrevious(input, n);
      PreviousIgnoreOrder(input, shuffled, a, b, n);
    }
  }

  lemma CoverNowAgrees(input: Input, shuffled: Input, a: Built, b: Built)
    requires SameDays(input, shuffled) && OneValuePerDay(input.dayFiles)
    requires CoversBuilt(input, a) && CoversBuilt(shuffled, b) && a.sectorCover.Keys == b.sectorCover.Keys
    ensures SameGroupCover(a.sectorCover, a.marketCover, b.sectorCover, b.marketCover)
  {
    hide CoverBuilt, ShareCoverBuilt, SameDays, SameCoverAt, OneValuePerDay;
    forall n | n in WINDOWS ensures SameCoverAt(a.sectorCover, a.marketCover, b.sectorCover, b.marketCover, n) {
      CoverAgrees(input, shuffled, 0, n, n, a.sectorCover, a.marketCover, b.sectorCover, b.marketCover);
    }
  }

  lemma CoverBeforeAgrees(input: Input, shuffled: Input, a: Built, b: Built)
    requires SameDays(input, shuffled) && OneValuePerDay(input.dayFiles)
    requires CoversBuilt(input, a) && CoversBuilt(shuffled, b) && a.sectorPrevCover.Keys == b.sectorPrevCover.Keys
    ensures SameGroupCover(a.sectorPrevCover, a.marketPrevCover, b.sectorPrevCover, b.marketPrevCover)
  {
    hide CoverBuilt, ShareCoverBuilt, SameDays, SameCoverAt, OneValuePerDay;
    forall n | n in WINDOWS
      ensures SameCoverAt(a.sectorPrevCover, a.marketPrevCover, b.sectorPrevCover, b.marketPrevCover, n)
    {
      CoverAgrees(input, shuffled, n, 2 * n, n, a.sectorPrevCover, a.marketPrevCover, b.sectorPrevCover,
                  b.marketPrevCover);
    }
  }

  lemma SameKnown(input: Input, shuffled: Input, a: set<string>, b: set<string>)
    requires SameInput(input, shuffled)
    requires (forall sec :: sec in a <==> Known(input, sec)) && forall sec :: sec in b <==> Known(shuffled, sec)
    ensures a == b
  {
    SameHeld(input, shuffled);
    hide Known;
  }

  lemma CoverageAgrees(input: Input, shuffled: Input, a: Built, b: Built)
    requires SameDays(input, shuffled) && OneValuePerDay(input.dayFiles)
    requires IsBuilt(input, a) && IsBuilt(shuffled, b)
    ensures SameCoverage(a, b)
  {
    hide CoversBuilt, SameDays, SameInput, WindowsBuilt, BlocksBuilt, PreviousBuilt, Known, SameGroupCover,
      SameShareCover, OneValuePerDay;
    assert SameInput(input, shuffled) by { SameDaysIsSameInput(input, shuffled); }
    SameKnown(input, shuffled, a.sectorCover.Keys, b.sectorCover.Keys);
    SameKnown(input, shuffled, a.sectorPrevCover.Keys, b.sectorPrevCover.Keys);
    ShareCoverAgrees(input, shuffled, a, b);
    CoverNowAgrees(input, shuffled, a, b);
    CoverBeforeAgrees(input, shuffled, a, b);
  }

  lemma SameDaysIsSameInput(input: Input, shuffled: Input)
    requires SameDays(input, shuffled)
    ensures SameInput(input, shuffled)
  {}

  lemma ShareCoverAgrees(input: Input, shuffled: Input, a: Built, b: Built)
    requires SameDays(input, shuffled) && OneValuePerDay(input.dayFiles) && CoversBuilt(input, a)
        && CoversBuilt(shuffled, b)
    ensures SameShareCover(a.shareCover, b.shareCover)
  {
    hide CoverBuilt, ShareCoverBuilt, OneValuePerDay, SameDays;
    ShareCoverIgnoresOrder(input, shuffled, a.shareCover, b.shareCover);
  }

  lemma CoverAgrees(input: Input, shuffled: Input, lo: nat, hi: nat, n: int,
                    sector: map<string, map<int, Cover>>, market: map<int, Cover>,
                    sector': map<string, map<int, Cover>>, market': map<int, Cover>)
    requires SameDays(input, shuffled) && OneValuePerDay(input.dayFiles) && lo <= hi
    requires CoverBuilt(input, lo, hi, n, sector, market) && CoverBuilt(shuffled, lo, hi, n, sector', market')
    ensures SameCoverAt(sector, market, sector', market', n)
  {
    GroupCoverIgnoresOrder(input, shuffled, lo, hi, n, sector, market, sector', market');
  }

  /** The windows of two builds hold the same of every share. */
  lemma SameWindow(f: Feed, a: Built, b: Built, changes: map<string, Change>, n: int)
    requires SameWindows(f, a, b) && SameCoverage(a, b) && IsOpen(f, n)
    ensures WindowOf(a, changes, n) == WindowOf(b, changes, n)
  {
    hide SameSectors, SameMarket, SameGroupCover, AtLength;
    SameAtLength(a.share, b.share, n);
    SameAtLength(a.shareCover, b.shareCover, n);
  }

  lemma SameAtLength<A>(x: map<string, map<int, A>>, y: map<string, map<int, A>>, n: int)
    requires x.Keys == y.Keys && forall c :: c in x ==> n in x[c] && n in y[c] && x[c][n] == y[c][n]
    ensures AtLength(x, n) == AtLength(y, n)
  {
    assert AtLength(x, n).Keys == AtLength(y, n).Keys;
  }

  lemma TopsAgree(f: Feed, g: Feed, a: Report, b: Report, n: int)
    requires f.sessions != [] && Rearranged(f, g) && StoredOnce(f) && IsOpen(f, n)
    requires WindowsReported(f, a.built, a.changes, a.tops) && WindowsReported(g, b.built, b.changes, b.tops)
    requires SameWindows(f, a.built, b.built) && SameCoverage(a.built, b.built)
    ensures SameTopsAt(a, b, n)
  {
    hide AreCompanies, Metas, Changes;
    assert IsOpen(g, n);
    assert WindowReported(f, a.built, a.changes, a.tops, n) && WindowReported(g, b.built, b.changes, b.tops, n);
    hide WindowsReported, StoredOnce, SameWindows, SameCoverage, Rearranged, AreCompanies, WindowOf, Metas, Changes;
    SameIndex(f, g);
    SameChanges(f, g, n);
    SameWindow(f, a.built, b.built, Changes(f, n), n);
    var meta, w := Metas(f), WindowOf(a.built, Changes(f, n), n);
    TopListsAreDetermined(meta, w, a.tops[n].companies, b.tops[n].companies, Inflow, TOP_COMPANIES);
    TopListsAreDetermined(meta, w, a.tops[n].companies, b.tops[n].companies, Outflow, TOP_COMPANIES);
    SameCompanies(meta, w, a.tops[n].companies, b.tops[n].companies);
  }

  lemma SameCompanies(meta: map<string, Meta>, w: Window, a: seq<Company>, b: seq<Company>)
    requires AreCompanies(meta, w, a) && AreCompanies(meta, w, b)
    ensures forall co :: co in a <==> co in b
  {}

  /** Two reports on the same stored rows, however those were read, agree in every
      figure: the windows, blocks, previous windows and coverage of shares, sectors and
      the market, every share's price change, every company, and both top lists. */
  lemma ReportIgnoresOrder(f: Feed, g: Feed, a: Report, b: Report)
    requires f.sessions != [] && Rearranged(f, g) && StoredOnce(f) && IsReport(f, a) && IsReport(g, b)
    ensures SameWindows(f, a.built, b.built) && SameBlocks(a.built, b.built) && SamePrevious(f, a.built, b.built)
    ensures SameCoverage(a.built, b.built) && SameTops(f, a, b)
  {
    hide IsBuilt, WindowsReported;
    SameIndex(f, g);
    BuiltAgree(f, g, a.built, b.built);
    hide StoredOnce, SameWindows, SameCoverage, IsBuilt, Rearranged, WindowsReported, SameTopsAt;
    forall n | IsOpen(f, n) ensures SameTopsAt(a, b, n) { TopsAgree(f, g, a, b, n); }
  }

  lemma BuiltAgree(f: Feed, g: Feed, a: Built, b: Built)
    requires f.sessions != [] && Rearranged(f, g) && SameDays(Indexed(f), Indexed(g)) && OneValuePerDay(f.dayFiles)
    requires IsBuilt(Indexed(f), a) && IsBuilt(Indexed(g), b)
    ensures SameWindows(f, a, b) && SameBlocks(a, b) && SamePrevious(f, a, b) && SameCoverage(a, b)
  {
    hide WindowsBuilt, BlocksBuilt, PreviousBuilt, CoversBuilt, Rearranged;
    WindowsAgree(f, Indexed(f), Indexed(g), a, b);
    BlocksIgnoreOrder(Indexed(f), Indexed(g), a, b);
    PreviousAgree(f, g, a, b);
    CoverageAgrees(Indexed(f), Indexed(g), a, b);
  }
}
