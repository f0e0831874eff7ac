/** What the report answers, read off the stored rows: a share's price change, its
    listing session, the board that stands for a company and the companies that lead. */
module MarketAnswers {
  import opened Companies
  import opened DateSets
  import opened Flows
  import opened Folds
  import opened MarketFigures
  import opened MarketFlowLaws
  import opened MarketFlows
  import opened Orders
  import opened PriceChain
  import opened SectorFlowLaws
  import opened SectorFlows
  import opened Tallies
  import opened Wrappers

  // ---------------------------------------------------------------- traded and priced days

  /** A stored row of the share on that day shows a trade: on a session either side has a
      value, between sessions both together have one. */
  predicate TradeShown(f: Feed, c: Code, day: int) {
    exists x :: x in f.rows && x.code == c && x.flow.day == day && ShowsTrade(f, x)
  }

  predicate ShowsTrade(f: Feed, x: Row) {
    var bought, sold := x.flow.buyIValue + x.flow.buyNValue, x.flow.sellIValue + x.flow.sellNValue;
    if x.flow.day in f.sessions then bought > 0.0 || sold > 0.0 else bought + sold > 0.0
  }

  /** A stored price row of the share on that day has a close and a reference. */
  predicate PriceShown(f: Feed, c: Code, day: int) {
    exists y :: y in f.prices && y.code == c && y.price.day == day && y.price.close > 0.0 && y.price.reference > 0.0
  }

  lemma {:induction false} TradedFrom(sessions: seq<int>, rows: seq<Row>, c: Code, n: nat, d: int)
    requires 0 < n <= |sessions|
    ensures d in TradedDays(sessions, rows, c, n) <==> exists x :: x in rows && d in TradedDay(sessions, c, n)(x)
  {
    if rows != [] {
      TradedFrom(sessions, rows[1..], c, n, d);
      hide TradedDay;
      assert rows == [rows[0]] + rows[1..];
      assert TradedDays(sessions, rows, c, n)
          == TradedDay(sessions, c, n)(rows[0]) + TradedDays(sessions, rows[1..], c, n);
    }
  }

  /** The newest n sessions are those no older than the n-th. */
  lemma InSessions(sessions: seq<int>, n: nat, d: int)
    requires StrictlyDescending(sessions) && 0 < n <= |sessions| && d in sessions
    ensures d in sessions[..n] <==> sessions[n-1] <= d <= sessions[0]
  {
    var k :| 0 <= k < |sessions| && sessions[k] == d;
    if k < n { assert sessions[..n][k] == d; }
  }

  lemma OneRowTrades(f: Feed, c: Code, n: nat, x: Row, d: int)
    requires StrictlyDescending(f.sessions) && 0 < n <= |f.sessions|
    ensures d in TradedDay(f.sessions, c, n)(x) <==>
            x.code == c && x.flow.day == d && f.sessions[n-1] <= d <= f.sessions[0] && ShowsTrade(f, x)
  {
    hide Classify;
    TradedTier(x);
    var day := x.flow.day;
    PositionIsUnique(f.sessions, day, 0, n);
    assert f.sessions[0..n] == f.sessions[..n];
    if day in f.sessions { InSessions(f.sessions, n, day); }
    assert f.sessions[n-1] >= f.sessions[|f.sessions|-1];
  }

  /** The days a window's change must account for. */
  lemma TradedDaysOnRows(f: Feed, c: Code, n: nat, d: int)
    requires StrictlyDescending(f.sessions) && 0 < n <= |f.sessions|
    ensures d in TradedDays(f.sessions, f.rows, c, n) <==>
            f.sessions[n-1] <= d <= f.sessions[0] && TradeShown(f, c, d)
  {
    hide TradedDay, ShowsTrade;
    TradedFrom(f.sessions, f.rows, c, n, d);
    forall x ensures d in TradedDay(f.sessions, c, n)(x) <==>
                       x.code == c && x.flow.day == d && f.sessions[n-1] <= d <= f.sessions[0] && ShowsTrade(f, x)
    {
      OneRowTrades(f, c, n, x, d);
    }
  }

  lemma PricedOnRows(f: Feed, c: Code, d: int, from: int, to: int)
    ensures PricedOn(SortedPrices(f.prices, c), d, from, to) <==> from <= d <= to && PriceShown(f, c, d)
  {
    MembersOfSort(PricesOfShare(f.prices, c), Earlier());
    forall p ensures p in SortedPrices(f.prices, c) <==> PriceRow(c, p) in f.prices { PriceIsARow(f.prices, c, p); }
    hide SortedPrices;
    if PriceShown(f, c, d) && from <= d <= to {
      var y :| y in f.prices && y.code == c && y.price.day == d && y.price.close > 0.0 && y.price.reference > 0.0;
      assert y == PriceRow(c, y.price);
    }
  }

  // ---------------------------------------------------------------- the change of a share

  lemma {:induction false} PickOfShare(prices: seq<PriceRow>, c: Code, keep: Price -> bool, move: Price -> real,
                                       own: PriceRow -> bool, step: PriceRow -> real)
    requires forall y :: own(y) == (y.code == c && keep(y.price)) && step(y) == move(y.price)
    ensures Pick(PricesOfShare(prices, c), keep, move) == Pick(prices, own, step)
  {
    if prices != [] {
      PickOfShare(prices[1..], c, keep, move, own, step);
      PricesFirst(prices, c);
      hide PricesOfShare;
      AfterOne(if prices[0].code == c then [prices[0].price] else [], PricesOfShare(prices[1..], c));
    }
  }

  lemma ListedIsKnown(f: Feed, c: Code)
    requires f.sessions != [] && c in Codes(Indexed(f))
    ensures c in AllCodes(f)
  {
    hide Classify, ShareFor;
    if c in PlacedCodes(Held(Indexed(f))) {
      var p :| p in Held(Indexed(f)) && p.code == c;
      PlacedFrom(f.sessions, SharesOf(f), f.rows, p);
      var x :| x in f.rows && p in PlaceRow(f.sessions, SharesOf(f), x);
      assert x.code in RowCodes(f.sessions, f.rows);
    }
  }

  lemma ChangeOfListed(f: Feed, n: nat, c: Code)
    requires 0 < n <= |f.sessions| && c in Codes(Indexed(f))
    ensures c in Changes(f, n)
    ensures Changes(f, n)[c] == ChangeOver(SortedPrices(f.prices, c), TradedDays(f.sessions, f.rows, c, n),
                                           f.sessions[n-1], f.sessions[0], ListingFor(f, c))
  {
    hide AllCodes, Codes, ChangeOver, TradedDays, SortedPrices, ListingFor;
    ListedIsKnown(f, c);
  }

  /** Which answer a share's window gets, by the stored rows: no percentage while a day
      with a trade lacks its price row, and one exactly when none does and some priced
      day is not the listing session. */
  lemma ChangeOnRows(f: Feed, changes: map<string, Change>, n: nat, c: Code)
    requires StrictlyDescending(f.sessions) && 0 < n <= |f.sessions| && changes == Changes(f, n)
    requires c in Codes(Indexed(f))
    ensures c in changes
    ensures var change, from, to := changes[c], f.sessions[n-1], f.sessions[0];
      && (change.Unpriced? <==> exists d :: from <= d <= to && TradeShown(f, c, d) && !PriceShown(f, c, d))
      && (change.Moved? <==>
            && (forall d :: from <= d <= to && TradeShown(f, c, d) ==> PriceShown(f, c, d))
            && exists d :: from <= d <= to && PriceShown(f, c, d) && ListingFor(f, c) != Some(d))
      && (change == Idle <==> forall d :: from <= d <= to ==> !TradeShown(f, c, d) && !PriceShown(f, c, d))
      && change != NoClose
  {
    hide Changes, Codes, ChangeOver, TradedDays, SortedPrices, PricedOn, TradeShown, PriceShown, ListingFor,
         StrictlyDescending;
    ChangeOfListed(f, n, c);
    var from, to := f.sessions[n-1], f.sessions[0];
    var traded, prices := TradedDays(f.sessions, f.rows, c, n), SortedPrices(f.prices, c);
    AnswerExactly(prices, traded, from, to, ListingFor(f, c));
    forall d ensures d in traded <==> from <= d <= to && TradeShown(f, c, d) { TradedDaysOnRows(f, c, n, d); }
    forall d ensures PricedOn(prices, d, from, to) <==> from <= d <= to && PriceShown(f, c, d) {
      PricedOnRows(f, c, d, from, to);
    }
    assert traded != [] ==> traded[0] in traded;
  }

  /** And its value: the product of close over reference of the share's price rows in the
      window, in whatever order they are stored, the listing session's left out. */
  lemma PercentageOnRows(f: Feed, changes: map<string, Change>, n: nat, c: Code)
    requires 0 < n <= |f.sessions| && changes == Changes(f, n) && c in Codes(Indexed(f))
    requires c in changes && changes[c].Moved?
    ensures 1.0 + changes[c].pct / 100.0
         == Product(Pick(f.prices, (y: PriceRow) =>
                           && y.code == c && f.sessions[n-1] <= y.price.day <= f.sessions[0]
                           && y.price.close > 0.0 && y.price.reference > 0.0 && ListingFor(f, c) != Some(y.price.day),
                         (y: PriceRow) => if y.price.reference > 0.0 then y.price.close / y.price.reference else 1.0))
  {
    hide Changes, Codes, ChangeOver, TradedDays, ListingFor, Pick, Product, Chained, PricesOfShare;
    ChangeOfListed(f, n, c);
    var from, to, listing := f.sessions[n-1], f.sessions[0], ListingFor(f, c);
    MovedExactly(SortedPrices(f.prices, c), TradedDays(f.sessions, f.rows, c, n), from, to, listing);
    ChainedIsPicked(SortedPrices(f.prices, c), from, to, listing);
    SortHolds(PricesOfShare(f.prices, c), Earlier());
    OrderDoesNotMatter(SortedPrices(f.prices, c), PricesOfShare(f.prices, c), from, to, listing);
    ChainedIsPicked(PricesOfShare(f.prices, c), from, to, listing);
    PickOfShare(f.prices, c,
                (p: Price) =>
        from <= p.day <= to && p.close > 0.0 && p.reference > 0.0 && listing != Some(p.day),
                (p: Price) => if p.reference > 0.0 then p.close / p.reference else 1.0,
                (y: PriceRow) =>
                           && y.code == c && f.sessions[n-1] <= y.price.day <= f.sessions[0]
                           && y.price.close > 0.0 && y.price.reference > 0.0 && ListingFor(f, c) != Some(y.price.day),
                (y: PriceRow) => if y.price.reference > 0.0 then y.price.close / y.price.reference else 1.0);
  }

  // ---------------------------------------------------------------- listing sessions

  /** A share's listing session is its first stored one, when its close there lies more
      than a quarter above its reference or a fifth below it. */
  lemma ListingOnRows(f: Feed, c: Code, d: int)
    requires f.sessions != [] && NoRepeats(Map(f.prices, PriceKey()))
    ensures ListingFor(f, c) == Some(d) <==>
            && (Record(f.shares, c).flowFirst == Some(d)
                || (Record(f.shares, c).flowFirst.None? && d > f.sessions[|f.sessions|-1]
                    && (exists y :: y in f.prices && y.code == c && y.price.day == d)
                    && (forall y :: y in f.prices && y.code == c ==> d <= y.price.day)))
            && exists y :: y in f.prices && y.code == c && y.price.day == d && y.price.close > 0.0
                      && y.price.reference > 0.0
                      && (4.0 * y.price.close > 5.0 * y.price.reference
                          || 5.0 * y.price.close < 4.0 * y.price.reference)
  {
    var prices, oldest := SortedPrices(f.prices, c), f.sessions[|f.sessions|-1];
    SortedByDay(f, c);
    forall p, q | p in prices && q in prices && p.day == q.day ensures p == q { OneADay(prices, p, q); }
    ListingExactly(Record(f.shares, c).flowFirst, prices, oldest, d);
    hide SortedPrices, ListingOf, Record;
    FirstIsEarliest(f, c, d);
    var far := (p: Price) => p.day == d && p.close > 0.0 && p.reference > 0.0
                             && (4.0 * p.close > 5.0 * p.reference || 5.0 * p.close < 4.0 * p.reference);
    if p :| p in prices && far(p) { assert PriceRow(c, p) in f.prices; }
    if y :| y in f.prices && y.code == c && far(y.price) { assert y == PriceRow(c, y.price); }
  }

  lemma SortedByDay(f: Feed, c: Code)
    requires NoRepeats(Map(f.prices, PriceKey()))
    ensures SortedBy(SortedPrices(f.prices, c), Earlier())
    ensures forall p :: p in SortedPrices(f.prices, c) <==> PriceRow(c, p) in f.prices
  {
    DaysAreApart(f.prices, c);
    EarlierIsAnOrder();
    SortSorts(PricesOfShare(f.prices, c), Earlier());
    MembersOfSort(PricesOfShare(f.prices, c), Earlier());
    forall p ensures p in SortedPrices(f.prices, c) <==> PriceRow(c, p) in f.prices { PriceIsARow(f.prices, c, p); }
  }

  lemma OneADay(prices: seq<Price>, p: Price, q: Price)
    requires SortedBy(prices, Earlier()) && p in prices && q in prices && p.day == q.day
    ensures p == q
  {
    forall a, b | 0 <= a < b < |prices| ensures prices[a].day < prices[b].day {
      assert Earlier()(prices[a], prices[b]);
    }
    var i :| 0 <= i < |prices| && prices[i] == p;
    var j :| 0 <= j < |prices| && prices[j] == q;
  }

  lemma FirstIsEarliest(f: Feed, c: Code, d: int)
    requires SortedBy(SortedPrices(f.prices, c), Earlier())
    requires forall p :: p in SortedPrices(f.prices, c) <==> PriceRow(c, p) in f.prices
    ensures var prices := SortedPrices(f.prices, c);
      prices != [] && prices[0].day == d <==>
      && (exists y :: y in f.prices && y.code == c && y.price.day == d)
      && (forall y :: y in f.prices && y.code == c ==> d <= y.price.day)
  {
    hide SortedPrices;
    var prices := SortedPrices(f.prices, c);
    forall y | y in f.prices && y.code == c ensures prices != [] && prices[0].day <= y.price.day {
      assert y == PriceRow(c, y.price);
      var i :| 0 <= i < |prices| && prices[i] == y.price;
      assert i > 0 ==> Earlier()(prices[0], prices[i]);
    }
    if prices != [] {
      assert prices[0] in prices;
      assert PriceRow(c, prices[0]) in f.prices;
    }
  }

  // ---------------------------------------------------------------- companies

  lemma {:induction false} OnlyLists(codes: seq<Code>, key: Code -> string, k: string)
    requires NoRepeats(codes)
    ensures NoRepeats(Only(codes, key, k)) && forall c :: c in Only(codes, key, k) <==> c in codes && key(c) == k
  {
    if codes != [] {
      OnlyLists(codes[1..], key, k);
      assert codes == [codes[0]] + codes[1..];
      assert codes[0] !in codes[1..];
    }
  }

  /** What a window holds of a company is the table of the stored rows of all its shares on
      the window's sessions. */
  lemma CompanyOnRows(f: Feed, built: Built, n: nat, meta: map<Code, Meta>, w: Window, k: string, co: Company)
    requires StrictlyDescending(f.sessions) && f.sessions != [] && WindowsBuilt(Indexed(f), built) && IsOpen(f, n)
    requires w.acc == AtLength(built.share, n) && SumsBoards(w, MembersOf(meta, w.acc, k), co)
    ensures co.total
         == TotalsOf(Pick(f.rows, (x: Row) => BelongsTo(meta, x.code, k) && x.flow.day in f.sessions[..n], RowEntry(f)))
  {
    hide Indexed, Held, WindowsBuilt, AtLength, TotalsOf, RowEntry, Alone, Plus, Fold, GroupFold, CompanyKey, Codes,
         MembersOf, NoRepeats, StrictlyDescending, Pick;
    PlusIsAMonoid();
    InputOf(f, n);
    var input := Indexed(f);
    var codes := SomeListing(Codes(input));
    SharesInWindow(input, built, n, codes);
    var key, joint := (c: Code) => CompanyKey(meta, c), (p: Placed) => CompanyKey(meta, p.code);
    GroupsOfGroups(Held(input), codes, CodeOf(), key, joint, InWindow(n), Totalled(built.share, n), Plus, NOTHING, k);
    FoldOfOnly(codes, key, Totalled(built.share, n), Plus, NOTHING, k);
    OnlyLists(codes, key, k);
    var members := Only(codes, key, k);
    MembersAreListed(input, built, n, meta, w, k, codes, key);
    SameParts(members, AtCode(w.acc), Totalled(built.share, n), Plus, NOTHING);
    var g := (p: Placed) => Part(p, joint, InWindow(n), NOTHING, k);
    GroupIsFold(Held(input), joint, InWindow(n), Plus, NOTHING, k, g);
    forall c ensures BelongsTo(meta, c, k) <==> CompanyKey(meta, c) == k { KeyOfCompany(meta, c, k); }
    hide BelongsTo;
    assert f.sessions[0..n] == f.sessions[..n];
    TableOfRows(f, (c: Code) => BelongsTo(meta, c, k), 0, n, g,
                (x: Row) => BelongsTo(meta, x.code, k) && x.flow.day in f.sessions[..n]);
  }

  /** The companies of a report, on the stored rows: no two have one key, each holds the
      table of all rows of its shares in the window, some of them accepted, and the price
      change of the board that stands for it. */
  ghost predicate IsCompanyOfRows(f: Feed, changes: map<string, Change>, n: nat, co: Company)
    requires f.sessions != [] && n <= |f.sessions|
  {
    && co.total == TotalsOf(Pick(f.rows, (x: Row) =>
                              BelongsTo(Metas(f), x.code, co.key) && x.flow.day in f.sessions[..n], RowEntry(f)))
    && co.total.counts.barChecked + co.total.counts.identityOnly != 0
    && BelongsTo(Metas(f), co.shown, co.key)
    && (co.shown in changes ==> co.change == changes[co.shown])
  }

  lemma CompaniesOfReport(f: Feed, r: Report, n: nat)
    requires StrictlyDescending(f.sessions) && f.sessions != [] && IsReport(f, r) && IsOpen(f, n)
    ensures n in r.changes && r.changes[n] == Changes(f, n) && n in r.tops
    ensures forall co :: co in r.tops[n].companies ==> IsCompanyOfRows(f, r.changes[n], n, co)
    ensures forall i, j :: 0 <= i < j < |r.tops[n].companies| ==>
        r.tops[n].companies[i].key != r.tops[n].companies[j].key
  {
    hide BlocksBuilt, PreviousBuilt, CoversBuilt, WindowsBuilt, Changes, Metas, Indexed, TotalsOf, Pick, RowEntry,
         AtLength, SumsBoards, NamesBoards, Shows, MembersOf, BelongsTo, StrictlyDescending;
    var w := WindowOf(r.built, Changes(f, n), n);
    assert WindowReported(f, r.built, r.changes, r.tops, n);
    forall co | co in r.tops[n].companies ensures IsCompanyOfRows(f, r.changes[n], n, co) {
      CompanyOnRows(f, r.built, n, Metas(f), w, co.key, co);
      ShownExactly(Metas(f), w, co.key, co);
    }
  }

  /** A company's records are its shares' stored ones. */
  lemma MetasExactly(f: Feed, c: Code)
    requires f.sessions != [] && Reported(f, c)
    ensures c in Metas(f)
    ensures var r := Record(f.shares, c); Metas(f)[c] == Meta(r.symbol, r.board, r.companyCode, r.listed)
  {
    ReportedIsKnown(f, c);
  }

  lemma KeyOfCompany(meta: map<Code, Meta>, c: Code, k: string)
    ensures BelongsTo(meta, c, k) <==> CompanyKey(meta, c) == k
  {}

  lemma MembersAreListed(input: Input, built: Built, n: nat, meta: map<Code, Meta>, w: Window, k: string,
                         codes: seq<Code>, key: Code -> string)
    requires WindowsBuilt(input, built) && Open(input, n) && Lists(codes, Codes(input))
    requires w.acc == AtLength(built.share, n) && forall c :: key(c) == CompanyKey(meta, c)
    requires NoRepeats(Only(codes, key, k)) && forall c :: c in Only(codes, key, k) <==> c in codes && key(c) == k
    ensures Lists(Only(codes, key, k), MembersOf(meta, w.acc, k))
    ensures forall i :: 0 <= i < |Only(codes, key, k)| ==>
              AtCode(w.acc)(Only(codes, key, k)[i]) == Totalled(built.share, n)(Only(codes, key, k)[i])
  {
    hide Codes, NoRepeats, Held, Known, OfShare, OfSector, Whole, Only, CompanyKey;
    forall c ensures c in w.acc <==> c in codes {
      if c in codes { assert c in built.share && n in built.share[c]; }
    }
    forall i | 0 <= i < |Only(codes, key, k)|
      ensures AtCode(w.acc)(Only(codes, key, k)[i]) == Totalled(built.share, n)(Only(codes, key, k)[i])
    {
      assert Only(codes, key, k)[i] in Only(codes, key, k);
    }
  }

  /** The two lists on the companies: those whose individuals bought, or sold, most on
      balance, in that order; nobody with a larger figure is left out, and nobody at all
      while there is room. */
  lemma ListsOnCompanies(meta: map<Code, Meta>, w: Window, t: Tops)
    requires IsTops(meta, w, t)
    ensures var items := Map(t.companies, ItemOf(meta));
      && (forall i :: 0 <= i < |items| ==>
            var co := t.companies[i];
            items[i] == Item(co.total.sums.net, co.total.sums.value,
                             if co.shown in meta then meta[co.shown].symbol else "", co.shown))
      && |t.inflow| <= 15 && |t.outflow| <= 15
      && (forall i, j :: 0 <= i < j < |t.inflow| ==>
            Ahead(t.inflow[i].net, t.inflow[j].net, t.inflow[i], t.inflow[j]))
      && (forall i, j :: 0 <= i < j < |t.outflow| ==>
            Ahead(t.outflow[j].net, t.outflow[i].net, t.outflow[i], t.outflow[j]))
      && (forall x :: x in t.inflow ==> x in items && x.net > 0.0)
      && (forall x :: x in t.outflow ==> x in items && x.net < 0.0)
      && (forall x :: x in items && x.net > 0.0 && x !in t.inflow ==>
            |t.inflow| == 15 && forall y :: y in t.inflow ==> Ahead(y.net, x.net, y, x))
      && (forall x :: x in items && x.net < 0.0 && x !in t.outflow ==>
            |t.outflow| == 15 && forall y :: y in t.outflow ==> Ahead(x.net, y.net, y, x))
  {
    hide AreCompanies, Top, Ahead, DistinctCodes;
    CompaniesAreDistinct(meta, w, t.companies);
    LeadersExactly(Map(t.companies, ItemOf(meta)), TOP_COMPANIES);
  }
}
