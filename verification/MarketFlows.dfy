/** The whole build, from what the store holds to the response's figures: shares and
    prices indexed, listing sessions found, rows summed, every share's price change
    chained, and the companies of every window ranked. */
module MarketFlows {
  import opened Companies
  import opened Coverage
  import opened DateSets
  import opened Flows
  import opened Folds
  import opened Orders
  import opened PriceChain
  import opened SectorFlows
  import opened Wrappers

  datatype ShareRow = ShareRow(
    code: string, symbol: string, sector: string, board: string, companyCode: string, listed: bool,
    flowFirst: Option<int>)

  datatype PriceRow = PriceRow(code: string, price: Price)

  /** What is read for the build. `sessions` is the calendar, newest first. */
  datatype Feed = Feed(
    sessions: seq<int>, rows: seq<Row>, shares: seq<ShareRow>, prices: seq<PriceRow>, dayFiles: seq<DayRow>)

  const TOP_COMPANIES := 15

  // ---------------------------------------------------------------- the shares

  /** The last record of a share, when it has one. */
  function LastRecord(shares: seq<ShareRow>, c: string): Option<ShareRow> {
    if shares == [] then None
    else if shares[|shares|-1].code == c then Some(shares[|shares|-1])
    else LastRecord(shares[..|shares|-1], c)
  }

  /** A share with a row and no record stands under its code. */
  function Unknown(c: string): ShareRow { ShareRow(c, c, "", "", "", false, None) }

  function Record(shares: seq<ShareRow>, c: string): ShareRow {
    match LastRecord(shares, c) { case None => Unknown(c) case Some(r) => r }
  }

  function RecordedCodes(shares: seq<ShareRow>): set<string> { set m | m in shares :: m.code }

  /** The shares with a row on the calendar. */
  function RowCodes(sessions: seq<int>, rows: seq<Row>): set<string> {
    set r | r in rows && r.flow.day in sessions :: r.code
  }

  function AllCodes(f: Feed): set<string> { RecordedCodes(f.shares) + RowCodes(f.sessions, f.rows) }

  function Records(f: Feed): map<string, ShareRow> { map c | c in AllCodes(f) :: Record(f.shares, c) }

  predicate ListedIn(shares: seq<ShareRow>, c: string) { exists m :: m in shares && m.code == c && m.listed }

  lemma {:induction false} NoRecord(shares: seq<ShareRow>, c: string)
    ensures LastRecord(shares, c).None? <==> c !in RecordedCodes(shares)
    ensures LastRecord(shares, c).Some? ==>
        LastRecord(shares, c).value in shares && LastRecord(shares, c).value.code == c
    decreases |shares|
  {
    if shares != [] {
      NoRecord(shares[..|shares|-1], c);
      assert shares == shares[..|shares|-1] + [shares[|shares|-1]];
    }
  }

  ghost predicate LastAt(shares: seq<ShareRow>, c: string, r: ShareRow, i: int) {
    0 <= i < |shares| && shares[i] == r && r.code == c && forall j :: i < j < |shares| ==> shares[j].code != c
  }

  lemma {:induction false} LastRecordExactly(shares: seq<ShareRow>, c: string, r: ShareRow)
    ensures LastRecord(shares, c) == Some(r) <==> exists i :: LastAt(shares, c, r, i)
    decreases |shares|
  {
    if shares != [] {
      var n := |shares| - 1;
      LastRecordExactly(shares[..n], c, r);
      if i :| LastAt(shares[..n], c, r, i) {
        assert shares[n].code != c ==> LastAt(shares, c, r, i);
      }
      if i :| LastAt(shares, c, r, i) {
        assert i < n ==> LastAt(shares[..n], c, r, i);
      }
      assert shares[n].code == c && shares[n] == r ==> LastAt(shares, c, r, n);
    }
  }

  /** A share's record is the last one stored for its code; a code without one stands for
      itself, in no sector, on no board, of no company. */
  lemma RecordExactly(shares: seq<ShareRow>, c: string, r: ShareRow)
    ensures (exists i :: LastAt(shares, c, r, i)) ==> Record(shares, c) == r
    ensures (forall m :: m in shares ==> m.code != c) ==>
        Record(shares, c) == ShareRow(c, c, "", "", "", false, None)
  {
    LastRecordExactly(shares, c, r);
    NoRecord(shares, c);
  }

  function RecordsOf(shares: seq<ShareRow>): map<string, ShareRow> {
    map c | c in RecordedCodes(shares) :: Record(shares, c)
  }

  lemma RecordsGrow(shares: seq<ShareRow>, i: nat)
    requires i < |shares|
    ensures RecordsOf(shares[..i+1]) == RecordsOf(shares[..i])[shares[i].code := shares[i]]
  {
    var more := shares[..i+1];
    assert more == shares[..i] + [shares[i]] && more[..i] == shares[..i];
    assert RecordedCodes(more) == RecordedCodes(shares[..i]) + {shares[i].code};
  }

  function WithRows(f: Feed, n: nat): map<string, ShareRow>
    requires n <= |f.rows|
  {
    map c | c in RecordedCodes(f.shares) + RowCodes(f.sessions, f.rows[..n]) :: Record(f.shares, c)
  }

  lemma UnknownGrows(f: Feed, i: nat)
    requires i < |f.rows|
    ensures var c := f.rows[i].code;
      WithRows(f, i + 1)
      == if f.rows[i].flow.day !in f.sessions || c in WithRows(f, i) then WithRows(f, i)
        else WithRows(f, i)[c := Unknown(c)]
  {
    assert f.rows[..i+1] == f.rows[..i] + [f.rows[i]];
    NoRecord(f.shares, f.rows[i].code);
  }

  /** The shares by code: their records, a later one replacing an earlier one, and a
      bare one for every code that only has rows. */
  method IndexShares(f: Feed, pos: map<int, nat>) returns (records: map<string, ShareRow>)
    requires forall day :: day in pos <==> day in f.sessions
    ensures records == Records(f)
  {
    records := map[];
    for i := 0 to |f.shares|
      invariant records == RecordsOf(f.shares[..i])
    {
      RecordsGrow(f.shares, i);
      records := records[f.shares[i].code := f.shares[i]];
    }
    assert f.shares[..|f.shares|] == f.shares;
    assert records == WithRows(f, 0);
    for i := 0 to |f.rows|
      invariant records == WithRows(f, i)
    {
      UnknownGrows(f, i);
      var r := f.rows[i];
      if r.flow.day in pos && r.code !in records {
        records := records[r.code := Unknown(r.code)];
      }
    }
    assert f.rows[..|f.rows|] == f.rows;
  }

  // ---------------------------------------------------------------- the prices

  function PriceCode(): PriceRow -> string { (r: PriceRow) => r.code }

  function ThePrice(): PriceRow -> Price { (r: PriceRow) => r.price }

  function Earlier(): (Price, Price) -> bool { (a: Price, b: Price) => a.day < b.day }

  /** The prices of one share, as they come. */
  function PricesOfShare(prices: seq<PriceRow>, c: string): seq<Price> { Map(Only(prices, PriceCode(), c), ThePrice()) }

  /** Oldest first. */
  function SortedPrices(prices: seq<PriceRow>, c: string): seq<Price> { Sort(PricesOfShare(prices, c), Earlier()) }

  function PricesAt(byShare: map<string, seq<Price>>, c: string): seq<Price> { if c in byShare then byShare[c] else [] }

  lemma PricesGrow(prices: seq<PriceRow>, i: nat, c: string)
    requires i < |prices|
    ensures PricesOfShare(prices[..i+1], c)
         == PricesOfShare(prices[..i], c) + (if prices[i].code == c then [prices[i].price] else [])
  {
    assert prices[..i+1] == prices[..i] + [prices[i]];
    OnlyAppend(prices[..i], prices[i], PriceCode(), c);
  }

  ghost predicate PricesPlaced(prices: seq<PriceRow>, byShare: map<string, seq<Price>>) {
    forall c :: PricesAt(byShare, c) == PricesOfShare(prices, c)
  }

  lemma PlacedGrows(prices: seq<PriceRow>, i: nat, byShare: map<string, seq<Price>>)
    requires i < |prices| && PricesPlaced(prices[..i], byShare)
    ensures var r := prices[i];
      PricesPlaced(prices[..i+1], byShare[r.code := PricesAt(byShare, r.code) + [r.price]])
  {
    var r := prices[i];
    var next := byShare[r.code := PricesAt(byShare, r.code) + [r.price]];
    forall c ensures PricesAt(next, c) == PricesOfShare(prices[..i+1], c) {
      PricesGrow(prices, i, c);
      assert PricesAt(byShare, c) == PricesOfShare(prices[..i], c);
    }
  }

  /** Every share's prices, oldest first. */
  method PlacePrices(prices: seq<PriceRow>) returns (byShare: map<string, seq<Price>>)
    ensures forall c :: PricesAt(byShare, c) == SortedPrices(prices, c)
  {
    var placed: map<string, seq<Price>> := map[];
    for i := 0 to |prices|
      invariant PricesPlaced(prices[..i], placed)
    {
      PlacedGrows(prices, i, placed);
      placed := placed[prices[i].code := PricesAt(placed, prices[i].code) + [prices[i].price]];
    }
    assert prices[..|prices|] == prices;
    byShare := map c | c in placed :: Sort(placed[c], Earlier());
    forall c ensures PricesAt(byShare, c) == SortedPrices(prices, c) {
      assert PricesAt(placed, c) == PricesOfShare(prices, c);
    }
  }

  // ---------------------------------------------------------------- listing sessions

  function ListingFor(f: Feed, c: string): Option<int>
    requires f.sessions != []
  {
    ListingOf(Record(f.shares, c).flowFirst, SortedPrices(f.prices, c), f.sessions[|f.sessions|-1])
  }

  function ShareFor(f: Feed, c: string): Share
    requires f.sessions != []
  {
    Share(Record(f.shares, c).sector, ListedIn(f.shares, c), ListingFor(f, c))
  }

  function SharesOf(f: Feed): map<string, Share>
    requires f.sessions != []
  {
    map c | c in AllCodes(f) :: ShareFor(f, c)
  }

  /** What the sums are taken over. */
  function Indexed(f: Feed): Input
    requires f.sessions != []
  {
    Input(f.sessions, f.rows, SharesOf(f), f.dayFiles)
  }

  method FindShare(f: Feed, records: map<string, ShareRow>, byPrice: map<string, seq<Price>>, c: string)
    returns (share: Share)
    requires f.sessions != [] && records == Records(f) && c in records
    requires forall d :: PricesAt(byPrice, d) == SortedPrices(f.prices, d)
    ensures share == ShareFor(f, c)
  {
    var listing := ListingSession(records[c].flowFirst, PricesAt(byPrice, c), f.sessions[|f.sessions|-1]);
    share := Share(records[c].sector, ListedIn(f.shares, c), listing);
  }

  method FindShares(f: Feed, records: map<string, ShareRow>, byPrice: map<string, seq<Price>>)
    returns (shares: map<string, Share>)
    requires f.sessions != [] && records == Records(f)
    requires forall c :: PricesAt(byPrice, c) == SortedPrices(f.prices, c)
    ensures shares == SharesOf(f)
  {
    hide ShareFor, SortedPrices, Record;
    shares := map[];
    var codes := Listing(records.Keys);
    for i := 0 to |codes|
      invariant shares.Keys == set c | c in codes[..i]
      invariant forall c :: c in shares ==> shares[c] == ShareFor(f, c)
    {
      assert codes[..i+1] == codes[..i] + [codes[i]] && codes[i] in records;
      var share := FindShare(f, records, byPrice, codes[i]);
      shares := shares[codes[i] := share];
    }
    assert codes[..|codes|] == codes;
  }

  // ---------------------------------------------------------------- traded days

  /** The day of a placed row in the window, when its flow shows a trade. */
  function SessionDay(sessions: seq<int>, n: nat): Placed -> seq<int> {
    (p: Placed) => if p.idx < n && p.idx < |sessions| && p.entry.tier != NoTrade then [sessions[p.idx]] else []
  }

  function InSpan(from: int, to: int): int -> seq<int> { (day: int) => if from <= day <= to then [day] else [] }

  /** The days in the window on which a share's flow shows a trade: market sessions,
      and dates between them. */
  function TradedDay(sessions: seq<int>, c: string, n: nat): Row -> seq<int>
    requires 0 < n <= |sessions|
  {
    (r: Row) =>
      if r.code != c then []
      else
        match PositionOf(sessions, r.flow.day)
        case Some(i) => if i < n && Classify(r.flow, r.sessionValue) != NoTrade then [r.flow.day] else []
        case None => if IsThinTrade(sessions, r) && sessions[n-1] <= r.flow.day <= sessions[0] then [r.flow.day] else []
  }

  function TradedDays(sessions: seq<int>, rows: seq<Row>, c: string, n: nat): seq<int>
    requires 0 < n <= |sessions|
  {
    Flat(rows, TradedDay(sessions, c, n))
  }

  lemma {:induction false} OnlyConcat<T, K>(a: seq<T>, b: seq<T>, key: T -> K, k: K)
    ensures Only(a + b, key, k) == Only(a, key, k) + Only(b, key, k)
  {
    if a == [] {
      assert a + b == b;
    } else {
      OnlyConcat(a[1..], b, key, k);
      var first := if key(a[0]) == k then [a[0]] else [];
      assert (a + b)[0] == a[0] && (a + b)[1..] == a[1..] + b;
      Associate(first, Only(a[1..], key, k), Only(b, key, k));
    }
  }

  /** What one row gives, collected the two ways. */
  lemma OneRowTraded(sessions: seq<int>, shares: map<string, Share>, r: Row, c: string, n: nat)
    requires 0 < n <= |sessions|
    ensures Flat(Only(PlaceRow(sessions, shares, r), CodeOf(), c), SessionDay(sessions, n))
          + Flat(ThinDay(sessions, c)(r), InSpan(sessions[n-1], sessions[0]))
         == TradedDay(sessions, c, n)(r)
  {
    var placed := PlaceRow(sessions, shares, r);
    if placed != [] {
      assert placed[1..] == [] && Only(placed[1..], CodeOf(), c) == [];
      assert [placed[0]][1..] == [];
    }
    assert [r.flow.day][1..] == [];
  }

  /** Collecting sessions and the dates between them apart leaves the same days. */
  lemma {:induction false} TradedEitherWay(sessions: seq<int>, shares: map<string, Share>, rows: seq<Row>, c: string,
                                           n: nat)
    requires 0 < n <= |sessions|
    ensures multiset(Flat(Only(PlaceAll(sessions, shares, rows), CodeOf(), c), SessionDay(sessions, n))
                     + Flat(ThinDays(sessions, rows, c), InSpan(sessions[n-1], sessions[0])))
         == multiset(TradedDays(sessions, rows, c, n))
  {
    if rows != [] {
      hide PlaceRow, TradedDay, ThinDay, SessionDay, InSpan;
      var r, rest := rows[0], rows[1..];
      TradedEitherWay(sessions, shares, rest, c, n);
      OneRowTraded(sessions, shares, r, c, n);
      OnlyConcat(PlaceRow(sessions, shares, r), PlaceAll(sessions, shares, rest), CodeOf(), c);
      FlatConcat(Only(PlaceRow(sessions, shares, r), CodeOf(), c), Only(PlaceAll(sessions, shares, rest), CodeOf(), c),
                 SessionDay(sessions, n));
      FlatConcat(ThinDay(sessions, c)(r), ThinDays(sessions, rest, c), InSpan(sessions[n-1], sessions[0]));
      PlacedFirst(sessions, shares, rows);
    }
  }

  lemma PlacedFirst(sessions: seq<int>, shares: map<string, Share>, rows: seq<Row>)
    requires rows != []
    ensures PlaceAll(sessions, shares, rows)
        == PlaceRow(sessions, shares, rows[0]) + PlaceAll(sessions, shares, rows[1..])
  {}

  /** A share's traded days in the window: its sessions, then the dates between. */
  method TradedIn(rows: seq<Placed>, thin: seq<int>, sessions: seq<int>, n: nat) returns (days: seq<int>)
    requires 0 < n <= |sessions|
    ensures days == Flat(rows, SessionDay(sessions, n)) + Flat(thin, InSpan(sessions[n-1], sessions[0]))
  {
    hide SessionDay;
    days := [];
    for i := 0 to |rows|
      invariant days == Flat(rows[..i], SessionDay(sessions, n))
    {
      assert rows[..i+1] == rows[..i] + [rows[i]];
      FlatAppend(rows[..i], rows[i], SessionDay(sessions, n));
      days := days + SessionDay(sessions, n)(rows[i]);
    }
    assert rows[..|rows|] == rows;
    for i := 0 to |thin|
      invariant days == Flat(rows, SessionDay(sessions, n)) + Flat(thin[..i], InSpan(sessions[n-1], sessions[0]))
    {
      assert thin[..i+1] == thin[..i] + [thin[i]];
      FlatAppend(thin[..i], thin[i], InSpan(sessions[n-1], sessions[0]));
      if sessions[n-1] <= thin[i] <= sessions[0] { days := days + [thin[i]]; }
    }
    assert thin[..|thin|] == thin;
  }

  // ---------------------------------------------------------------- price changes

  /** A share's price change over a window. One the build does not list, which a company
      may still be shown by, has no traded days and no listing session there. */
  function ChangeFor(f: Feed, c: string, n: nat): Change
    requires 0 < n <= |f.sessions|
  {
    var from, to := f.sessions[n-1], f.sessions[0];
    if c in Codes(Indexed(f)) then
      ChangeOver(SortedPrices(f.prices, c), TradedDays(f.sessions, f.rows, c, n), from, to, ListingFor(f, c))
    else ChangeOver(SortedPrices(f.prices, c), [], from, to, None)
  }

  function Changes(f: Feed, n: nat): map<string, Change>
    requires 0 < n <= |f.sessions|
  {
    map c | c in AllCodes(f) :: ChangeFor(f, c, n)
  }

  /** What the changes are computed from. */
  datatype Placement = Placement(
    records: map<string, ShareRow>, shares: map<string, Share>, byShare: map<string, seq<Placed>>,
    thin: map<string, seq<int>>, byPrice: map<string, seq<Price>>)

  ghost predicate IsPlacement(f: Feed, p: Placement)
    requires f.sessions != []
  {
    && p.records == Records(f) && p.shares == SharesOf(f)
    && Grouped(Held(Indexed(f)), p.byShare) && p.byShare.Keys == Codes(Indexed(f))
    && ThinPlaced(f.sessions, f.rows, p.thin)
    && forall c :: PricesAt(p.byPrice, c) == SortedPrices(f.prices, c)
  }

  /** The change of one share, as the pages state it. */
  method ShareChange(f: Feed, p: Placement, c: string, n: nat) returns (change: Change)
    requires 0 < n <= |f.sessions| && IsPlacement(f, p) && c in p.shares
    ensures change == ChangeFor(f, c, n)
  {
    var from, to := f.sessions[n-1], f.sessions[0];
    if c in p.byShare {
      var days := TradedIn(p.byShare[c], ThinOf(p.thin, c), f.sessions, n);
      TradedEitherWay(f.sessions, p.shares, f.rows, c, n);
      AnyTradedOrder(SortedPrices(f.prices, c), days, TradedDays(f.sessions, f.rows, c, n), from, to, ListingFor(f, c));
      var listed;
      change, listed := ChainLinkedChange(PricesAt(p.byPrice, c), days, from, to, p.shares[c].listing);
    } else {
      var listed;
      change, listed := ChainLinkedChange(PricesAt(p.byPrice, c), [], from, to, None);
    }
  }

  method BuildChanges(f: Feed, p: Placement, n: nat) returns (changes: map<string, Change>)
    requires 0 < n <= |f.sessions| && IsPlacement(f, p)
    ensures changes == Changes(f, n)
  {
    hide IsPlacement, ChangeFor, AllCodes;
    changes := map[];
    SharesKeys(f, p);
    var codes := Listing(p.shares.Keys);
    for i := 0 to |codes|
      invariant changes.Keys == set c | c in codes[..i]
      invariant forall c :: c in changes ==> changes[c] == ChangeFor(f, c, n)
    {
      assert codes[..i+1] == codes[..i] + [codes[i]] && codes[i] in p.shares;
      var change := ShareChange(f, p, codes[i], n);
      changes := changes[codes[i] := change];
    }
    assert codes[..|codes|] == codes;
  }

  lemma SharesKeys(f: Feed, p: Placement)
    requires f.sessions != [] && IsPlacement(f, p)
    ensures p.shares.Keys == AllCodes(f)
  {}

  // ---------------------------------------------------------------- the top lists

  function MetaFor(r: ShareRow): Meta { Meta(r.symbol, r.board, r.companyCode, r.listed) }

  function Metas(f: Feed): map<string, Meta> { map c | c in AllCodes(f) :: MetaFor(Record(f.shares, c)) }

  function AtLength<A>(figures: map<string, map<int, A>>, n: int): map<string, A> {
    map c | c in figures && n in figures[c] :: figures[c][n]
  }

  /** What a window holds of every share. */
  function WindowOf(built: Built, changes: map<string, Change>, n: int): Window {
    Window(AtLength(built.share, n), AtLength(built.shareCover, n), changes)
  }

  /** A window's companies, in whatever order they were built, and its two lists. */
  datatype Tops = Tops(companies: seq<Company>, inflow: seq<Item>, outflow: seq<Item>)

  ghost predicate IsTops(meta: map<string, Meta>, w: Window, t: Tops) {
    && AreCompanies(meta, w, t.companies)
    && t.inflow == Top(Map(t.companies, ItemOf(meta)), Inflow, TOP_COMPANIES)
    && t.outflow == Top(Map(t.companies, ItemOf(meta)), Outflow, TOP_COMPANIES)
  }

  method BuildTops(meta: map<string, Meta>, w: Window) returns (t: Tops)
    ensures IsTops(meta, w, t)
  {
    var companies := BuildCompanies(meta, w);
    CompaniesAreDistinct(meta, w, companies);
    var inflow, outflow := TopOf(Map(companies, ItemOf(meta)), TOP_COMPANIES);
    t := Tops(companies, inflow, outflow);
  }

  // ---------------------------------------------------------------- the build

  /** The figures of shares, sectors, blocks and the market, and for every open window
      the shares' price changes and the companies. */
  datatype Report = Report(built: Built, changes: map<int, map<string, Change>>, tops: map<int, Tops>)

  predicate IsOpen(f: Feed, n: int) { n in [1, 5, 20, 60] && n <= |f.sessions| }

  ghost predicate WindowReported(f: Feed, built: Built, changes: map<int, map<string, Change>>, tops: map<int, Tops>,
                                 n: nat)
    requires 0 < n <= |f.sessions|
  {
    && n in changes && changes[n] == Changes(f, n)
    && n in tops && IsTops(Metas(f), WindowOf(built, Changes(f, n), n), tops[n])
  }

  ghost predicate WindowsReported(f: Feed, built: Built, changes: map<int, map<string, Change>>, tops: map<int, Tops>) {
    forall n :: IsOpen(f, n) ==> WindowReported(f, built, changes, tops, n)
  }

  ghost predicate IsReport(f: Feed, r: Report)
    requires f.sessions != []
  {
    IsBuilt(Indexed(f), r.built) && WindowsReported(f, r.built, r.changes, r.tops)
  }

  method IndexFeed(f: Feed, pos: map<int, nat>) returns (p: Placement)
    requires f.sessions != []
    requires forall day :: day in pos <==> day in f.sessions
    requires forall day :: day in pos ==> PositionOf(f.sessions, day) == Some(pos[day])
    ensures IsPlacement(f, p)
  {
    var records := IndexShares(f, pos);
    var byPrice := PlacePrices(f.prices);
    var shares := FindShares(f, records, byPrice);
    var byShare, thin := PlaceRows(Input(f.sessions, f.rows, shares, f.dayFiles), pos);
    p := Placement(records, shares, byShare, thin, byPrice);
  }

  method BuildWindows(f: Feed, p: Placement, built: Built)
    returns (changes: map<int, map<string, Change>>, tops: map<int, Tops>)
    requires f.sessions != [] && IsPlacement(f, p)
    ensures WindowsReported(f, built, changes, tops)
  {
    hide IsPlacement, IsTops, Changes, WindowOf, Metas;
    changes, tops := map[], map[];
    var meta := map c | c in p.records :: MetaFor(p.records[c]);
    MetasOfRecords(f, p);
    for i := 0 to |WINDOWS|
      invariant forall n :: n in WINDOWS[..i] && n <= |f.sessions| ==> WindowReported(f, built, changes, tops, n)
    {
      var n := WINDOWS[i];
      assert WINDOWS[..i+1] == WINDOWS[..i] + [n];
      if n <= |f.sessions| {
        var change := BuildChanges(f, p, n);
        var top := BuildTops(meta, WindowOf(built, change, n));
        changes, tops := changes[n := change], tops[n := top];
      }
    }
    assert WINDOWS[..|WINDOWS|] == WINDOWS;
  }

  /** No figures without a market session, and otherwise the whole report. */
  method BuildSectorFlows(f: Feed) returns (out: Option<Report>)
    requires StrictlyDescending(f.sessions)
    ensures out.None? <==> f.sessions == []
    ensures out.Some? ==> IsReport(f, out.value)
  {
    hide IsBuilt, WindowsReported, SortedPrices;
    if |f.sessions| == 0 { return None; }
    hide IsPlacement, IsBuilt, WindowsReported, Grouped;
    var pos := IndexSessions(f.sessions);
    var p := IndexFeed(f, pos);
    PlacedShares(f, p);
    var built := BuildFigures(Input(f.sessions, f.rows, p.shares, f.dayFiles), pos, p.byShare);
    var changes, tops := BuildWindows(f, p, built);
    out := Some(Report(built, changes, tops));
  }

  lemma PlacedShares(f: Feed, p: Placement)
    requires f.sessions != [] && IsPlacement(f, p)
    ensures Input(f.sessions, f.rows, p.shares, f.dayFiles) == Indexed(f)
    ensures Grouped(Held(Indexed(f)), p.byShare) && p.byShare.Keys == Codes(Indexed(f))
  {}

  lemma MetasOfRecords(f: Feed, p: Placement)
    requires f.sessions != [] && IsPlacement(f, p)
    ensures (map c | c in p.records :: MetaFor(p.records[c])) == Metas(f)
  {
    hide MetaFor, Record, AllCodes;
  }
}
