/** The market's flow over windows and blocks of sessions: rows placed on the
    calendar, summed per share, shares merged into sectors and sectors into the
    market.

    Sums are exact reals, so the order in which they are taken cannot matter; maps
    are walked in whatever order they yield their keys. */
module SectorFlows {
  import opened Coverage
  import opened DateSets
  import opened Flows
  import opened Folds
  import opened Wrappers

  type Code = string

  datatype Row = Row(code: Code, flow: Flow, sessionValue: Option<real>)

  /** A known share: its sector, whether it is listed, its listing session. */
  datatype Share = Share(sector: string, listed: bool, listing: Option<int>)

  /** A share the day file of one date shows trading, with its value. */
  datatype DayRow = DayRow(code: Code, day: int, value: real)

  /** The calendar, newest first, and what is summed over it. */
  datatype Input = Input(sessions: seq<int>, rows: seq<Row>, shares: map<Code, Share>, dayFiles: seq<DayRow>)

  /** A row on the calendar: 0 is the newest session. */
  datatype Placed = Placed(code: Code, idx: nat, entry: Entry)

  const WINDOWS: seq<int> := [1, 5, 20, 60]
  const BLOCK_SESSIONS := 5
  const BLOCK_COUNT := 12

  function SectorOf(shares: map<Code, Share>, code: Code): string { if code in shares then shares[code].sector else "" }

  function IsListing(shares: map<Code, Share>, code: Code, day: int): bool {
    code in shares && shares[code].listing == Some(day)
  }

  // ---------------------------------------------------------------- placing rows

  function PositionOf(sessions: seq<int>, day: int): (r: Option<nat>)
    ensures r.Some? ==> r.value < |sessions| && sessions[r.value] == day
    ensures r.None? ==> day !in sessions
  {
    if sessions == [] then None
    else if sessions[0] == day then Some(0)
    else match PositionOf(sessions[1..], day) { case None => None case Some(i) => Some(i + 1) }
  }

  function PlaceRow(sessions: seq<int>, shares: map<Code, Share>, r: Row): seq<Placed> {
    match PositionOf(sessions, r.flow.day)
    case None => []
    case Some(i) => [Placed(r.code, i,
                            Entry(r.flow, Classify(r.flow, r.sessionValue), IsListing(shares, r.code, r.flow.day)))]
  }

  function Placing(sessions: seq<int>, shares: map<Code, Share>): Row -> seq<Placed> {
    (r: Row) => PlaceRow(sessions, shares, r)
  }

  function PlaceAll(sessions: seq<int>, shares: map<Code, Share>, rows: seq<Row>): seq<Placed> {
    Flat(rows, Placing(sessions, shares))
  }

  lemma PlaceOneMore(sessions: seq<int>, shares: map<Code, Share>, rows: seq<Row>, i: nat)
    requires i < |rows|
    ensures PlaceAll(sessions, shares, rows[..i+1])
        == PlaceAll(sessions, shares, rows[..i]) + PlaceRow(sessions, shares, rows[i])
  {
    assert rows[..i+1] == rows[..i] + [rows[i]];
    FlatAppend(rows[..i], rows[i], Placing(sessions, shares));
  }

  function CodeOf(): Placed -> Code { (p: Placed) => p.code }

  /** Rows grouped by share. */
  ghost predicate Grouped(placed: seq<Placed>, byShare: map<Code, seq<Placed>>) {
    && (forall p :: p in placed ==> p.code in byShare)
    && (forall c :: c in byShare ==> byShare[c] == Only(placed, CodeOf(), c))
  }

  lemma GroupedGrows(placed: seq<Placed>, byShare: map<Code, seq<Placed>>, p: Placed)
    requires Grouped(placed, byShare)
    ensures Grouped(placed + [p], byShare[p.code := (if p.code in byShare then byShare[p.code] else []) + [p]])
  {
    var more := byShare[p.code := (if p.code in byShare then byShare[p.code] else []) + [p]];
    forall c | c in more ensures more[c] == Only(placed + [p], CodeOf(), c) {
      OnlyAppend(placed, p, CodeOf(), c);
      if c == p.code && c !in byShare { NoneOfCode(placed, c); }
    }
  }

  lemma {:induction false} NoneOfCode(placed: seq<Placed>, c: Code)
    requires forall p :: p in placed ==> p.code != c
    ensures Only(placed, CodeOf(), c) == []
  {
    if placed != [] {
      assert placed[0] in placed;
      NoneOfCode(placed[1..], c);
    }
  }

  /** The day of each calendar position, looked up in a map. */
  method IndexSessions(sessions: seq<int>) returns (pos: map<int, nat>)
    requires StrictlyDescending(sessions)
    ensures forall day :: day in pos <==> day in sessions
    ensures forall day :: day in pos ==> PositionOf(sessions, day) == Some(pos[day])
  {
    pos := map[];
    for i := 0 to |sessions|
      invariant forall day :: day in pos <==> day in sessions[..i]
      invariant forall day :: day in pos ==> pos[day] < |sessions| && sessions[pos[day]] == day
    {
      assert sessions[..i+1] == sessions[..i] + [sessions[i]];
      pos := pos[sessions[i] := i];
    }
    assert sessions[..|sessions|] == sessions;
  }

  /** A trade on a date between two sessions that is none itself. */
  predicate IsThinTrade(sessions: seq<int>, r: Row) {
    && r.flow.day !in sessions && sessions != []
    && sessions[|sessions|-1] <= r.flow.day <= sessions[0] && Bought(r.flow) + Sold(r.flow) > 0.0
  }

  function ThinDay(sessions: seq<int>, c: Code): Row -> seq<int> {
    (r: Row) => if r.code == c && IsThinTrade(sessions, r) then [r.flow.day] else []
  }

  /** The share's traded days between the sessions, in the order of the rows. */
  function ThinDays(sessions: seq<int>, rows: seq<Row>, c: Code): seq<int> { Flat(rows, ThinDay(sessions, c)) }

  function ThinOf(thin: map<Code, seq<int>>, c: Code): seq<int> { if c in thin then thin[c] else [] }

  ghost predicate ThinPlaced(sessions: seq<int>, rows: seq<Row>, thin: map<Code, seq<int>>) {
    forall c :: ThinOf(thin, c) == ThinDays(sessions, rows, c)
  }

  function WithThin(sessions: seq<int>, thin: map<Code, seq<int>>, r: Row): map<Code, seq<int>> {
    if IsThinTrade(sessions, r) then thin[r.code := ThinOf(thin, r.code) + [r.flow.day]] else thin
  }

  lemma ThinGrows(sessions: seq<int>, rows: seq<Row>, i: nat, thin: map<Code, seq<int>>)
    requires i < |rows| && ThinPlaced(sessions, rows[..i], thin)
    ensures ThinPlaced(sessions, rows[..i+1], WithThin(sessions, thin, rows[i]))
  {
    var next := WithThin(sessions, thin, rows[i]);
    forall c ensures ThinOf(next, c) == ThinDays(sessions, rows[..i+1], c) {
      assert rows[..i+1] == rows[..i] + [rows[i]];
      FlatAppend(rows[..i], rows[i], ThinDay(sessions, c));
      assert ThinOf(thin, c) == ThinDays(sessions, rows[..i], c);
    }
  }

  /** Puts every row of a session under its share, and the traded days between
      sessions beside them. A listed share without rows is kept, with none. */
  method PlaceRows(input: Input, pos: map<int, nat>)
    returns (byShare: map<Code, seq<Placed>>, thin: map<Code, seq<int>>)
    requires forall day :: day in pos <==> day in input.sessions
    requires forall day :: day in pos ==> PositionOf(input.sessions, day) == Some(pos[day])
    ensures Grouped(PlaceAll(input.sessions, input.shares, input.rows), byShare)
    ensures byShare.Keys == Codes(input)
    ensures ThinPlaced(input.sessions, input.rows, thin)
  {
    hide ThinPlaced, IsThinTrade;
    byShare, thin := map[], map[];
    NothingThin(input.sessions);
    for i := 0 to |input.rows|
      invariant Grouped(PlaceAll(input.sessions, input.shares, input.rows[..i]), byShare)
      invariant byShare.Keys == PlacedCodes(PlaceAll(input.sessions, input.shares, input.rows[..i]))
      invariant ThinPlaced(input.sessions, input.rows[..i], thin)
    {
      var r := input.rows[i];
      ghost var placed := PlaceAll(input.sessions, input.shares, input.rows[..i]);
      PlaceOneMore(input.sessions, input.shares, input.rows, i);
      ThinGrows(input.sessions, input.rows, i, thin);
      thin := WithThin(input.sessions, thin, r);
      if r.flow.day in pos {
        var p := Placed(r.code, pos[r.flow.day],
                        Entry(r.flow, Classify(r.flow, r.sessionValue), IsListing(input.shares, r.code, r.flow.day)));
        GroupedGrows(placed, byShare, p);
        byShare := byShare[p.code := (if p.code in byShare then byShare[p.code] else []) + [p]];
      } else {
        assert PlaceRow(input.sessions, input.shares, r) == [];
        assert placed + [] == placed;
      }
    }
    assert input.rows[..|input.rows|] == input.rows;
    byShare := KeepListed(input, byShare);
  }

  lemma NothingThin(sessions: seq<int>)
    ensures ThinPlaced(sessions, [], map[])
  {}

  method KeepListed(input: Input, byShare: map<Code, seq<Placed>>) returns (all: map<Code, seq<Placed>>)
    requires Grouped(PlaceAll(input.sessions, input.shares, input.rows), byShare)
    requires byShare.Keys == PlacedCodes(PlaceAll(input.sessions, input.shares, input.rows))
    ensures Grouped(PlaceAll(input.sessions, input.shares, input.rows), all) && all.Keys == Codes(input)
  {
    var idle := map c | c in input.shares && input.shares[c].listed && c !in byShare :: [];
    all := byShare + idle;
    forall c | c in idle ensures Only(PlaceAll(input.sessions, input.shares, input.rows), CodeOf(), c) == [] {
      NoneOfCode(PlaceAll(input.sessions, input.shares, input.rows), c);
    }
  }

  function PlacedCodes(placed: seq<Placed>): set<Code> { set p | p in placed :: p.code }

  /** The shares the build lists. */
  function Codes(input: Input): set<Code> {
    PlacedCodes(PlaceAll(input.sessions, input.shares, input.rows)) + set c | c in input.shares
      && input.shares[c].listed
  }

  // ---------------------------------------------------------------- what a row adds

  function InWindow(n: int): Placed -> Totals { (p: Placed) => if p.idx < n then Alone(p.entry) else NOTHING }

  function InBlock(b: int): Placed -> Totals {
    (p: Placed) => if p.idx / BLOCK_SESSIONS == b then Alone(p.entry) else NOTHING
  }

  /** Accepted value and rows of the window before. */
  datatype Prev = Prev(value: real, rows: int)

  const NO_PREV := Prev(0.0, 0)

  function AddPrev(a: Prev, b: Prev): Prev { Prev(a.value + b.value, a.rows + b.rows) }

  function Before(n: int): Placed -> Prev {
    (p: Placed) => if n <= p.idx < 2 * n && p.entry.tier.Accepted() then Prev(Bought(p.entry.flow), 1) else NO_PREV
  }

  lemma PrevIsAMonoid()
    ensures CommutativeMonoid(AddPrev, NO_PREV)
  {
    forall x, y, z ensures Laws(AddPrev, NO_PREV, x, y, z) {}
  }

  lemma PlusNothing(a: Totals)
    ensures Plus(a, NOTHING) == a
  {}

  lemma AddNoPrev(a: Prev)
    ensures AddPrev(a, NO_PREV) == a
  {}

  /** Every window has its own running value. */
  ghost predicate Keyed<A>(m: map<int, A>) { forall n :: n in WINDOWS <==> n in m }

  /** Adds one row to every open window it lies in. */
  method AddToWindows(acc: map<int, Totals>, p: Placed, sessions: nat) returns (next: map<int, Totals>)
    requires Keyed(acc)
    ensures Keyed(next)
    ensures forall n :: n in WINDOWS ==> next[n] == if n <= sessions then Plus(acc[n], InWindow(n)(p)) else acc[n]
  {
    next := acc;
    for k := 0 to |WINDOWS|
      invariant Keyed(next)
      invariant forall j :: 0 <= j < |WINDOWS| ==>
        next[WINDOWS[j]] == if j < k && WINDOWS[j] <= sessions then Plus(acc[WINDOWS[j]], InWindow(WINDOWS[j])(p))
          else acc[WINDOWS[j]]
    {
      var n := WINDOWS[k];
      PlusNothing(acc[n]);
      if n <= sessions && p.idx < n {
        next := next[n := Plus(next[n], Alone(p.entry))];
      }
    }
  }

  /** Adds an accepted row to every window whose previous one it lies in. */
  method AddToPrevious(acc: map<int, Prev>, p: Placed, sessions: nat) returns (next: map<int, Prev>)
    requires Keyed(acc)
    ensures Keyed(next)
    ensures forall n :: n in WINDOWS ==> next[n] == if 2 * n <= sessions then AddPrev(acc[n], Before(n)(p)) else acc[n]
  {
    hide AddPrev;
    next := acc;
    for k := 0 to |WINDOWS|
      invariant Keyed(next)
      invariant forall j :: 0 <= j < |WINDOWS| ==>
        next[WINDOWS[j]] == if j < k && 2 * WINDOWS[j] <= sessions then AddPrev(acc[WINDOWS[j]], Before(WINDOWS[j])(p))
          else acc[WINDOWS[j]]
    {
      var n := WINDOWS[k];
      AddNoPrev(acc[n]);
      if 2 * n <= sessions && n <= p.idx < 2 * n && p.entry.tier.Accepted() {
        next := next[n := AddPrev(next[n], Prev(p.entry.flow.buyIValue + p.entry.flow.buyNValue, 1))];
      }
    }
  }

  method AddToBlocks(blocks: seq<Totals>, p: Placed) returns (next: seq<Totals>)
    ensures |next| == |blocks|
    ensures forall b :: 0 <= b < |blocks| ==> next[b] == Plus(blocks[b], InBlock(b)(p))
  {
    next := blocks;
    var b := p.idx / BLOCK_SESSIONS;
    forall k | 0 <= k < |blocks| ensures Plus(blocks[k], NOTHING) == blocks[k] { PlusNothing(blocks[k]); }
    if b < |blocks| {
      next := next[b := Plus(next[b], Alone(p.entry))];
    }
  }

  // ---------------------------------------------------------------- one share's rows

  function WindowTotal(rows: seq<Placed>, n: int): Totals { Fold(Map(rows, InWindow(n)), Plus, NOTHING) }

  function BlockTotal(rows: seq<Placed>, b: int): Totals { Fold(Map(rows, InBlock(b)), Plus, NOTHING) }

  function PrevTotal(rows: seq<Placed>, n: int): Prev { Fold(Map(rows, Before(n)), AddPrev, NO_PREV) }

  ghost predicate WindowsHold(rows: seq<Placed>, sessions: nat, acc: map<int, Totals>) {
    Keyed(acc) && forall n :: n in WINDOWS ==> acc[n] == if n <= sessions then WindowTotal(rows, n) else NOTHING
  }

  ghost predicate BlocksHold(start: seq<Totals>, rows: seq<Placed>, blocks: seq<Totals>) {
    |blocks| == |start| && forall b ::
      0 <= b < |start| ==> Running(start[b], rows, InBlock(b), Plus, NOTHING, blocks[b])
  }

  ghost predicate PrevHold(start: map<int, Prev>, rows: seq<Placed>, sessions: nat, prev: map<int, Prev>) {
    && Keyed(start) && Keyed(prev)
    && forall n :: n in WINDOWS ==>
         if 2 * n <= sessions then Running(start[n], rows, Before(n), AddPrev, NO_PREV, prev[n])
           else prev[n] == start[n]
  }

  lemma WindowsGrow(rows: seq<Placed>, p: Placed, sessions: nat, acc: map<int, Totals>, next: map<int, Totals>)
    requires WindowsHold(rows, sessions, acc) && Keyed(next)
    requires forall n :: n in WINDOWS ==> next[n] == if n <= sessions then Plus(acc[n], InWindow(n)(p)) else acc[n]
    ensures WindowsHold(rows + [p], sessions, next)
  {
    PlusIsAMonoid();
    forall n | n in WINDOWS ensures next[n] == if n <= sessions then WindowTotal(rows + [p], n) else NOTHING {
      FoldMapAppend(rows, p, InWindow(n), Plus, NOTHING);
    }
  }

  lemma BlocksGrow(start: seq<Totals>, rows: seq<Placed>, p: Placed, blocks: seq<Totals>, next: seq<Totals>)
    requires BlocksHold(start, rows, blocks) && |next| == |blocks|
    requires forall b :: 0 <= b < |blocks| ==> next[b] == Plus(blocks[b], InBlock(b)(p))
    ensures BlocksHold(start, rows + [p], next)
  {
    PlusIsAMonoid();
    forall b | 0 <= b < |start| ensures Running(start[b], rows + [p], InBlock(b), Plus, NOTHING, next[b]) {
      RunningGrows(start[b], rows, p, InBlock(b), Plus, NOTHING, blocks[b]);
    }
  }

  lemma PrevGrow(start: map<int, Prev>, rows: seq<Placed>, p: Placed, sessions: nat, prev: map<int, Prev>,
                 next: map<int, Prev>)
    requires PrevHold(start, rows, sessions, prev) && Keyed(next)
    requires forall n ::
        n in WINDOWS ==> next[n] == if 2 * n <= sessions then AddPrev(prev[n], Before(n)(p)) else prev[n]
    ensures PrevHold(start, rows + [p], sessions, next)
  {
    PrevIsAMonoid();
    forall n | n in WINDOWS
      ensures if 2 * n <= sessions then Running(start[n], rows + [p], Before(n), AddPrev, NO_PREV, next[n])
          else next[n] == start[n]
    {
      if 2 * n <= sessions { RunningGrows(start[n], rows, p, Before(n), AddPrev, NO_PREV, prev[n]); }
    }
  }

  lemma NothingHeld(sessions: nat, blocks: seq<Totals>, prev: map<int, Prev>)
    requires Keyed(prev)
    ensures WindowsHold([], sessions, NoTotals()) && BlocksHold(blocks, [], blocks)
        && PrevHold(prev, [], sessions, prev)
  {
    PlusIsAMonoid();
    PrevIsAMonoid();
    forall b | 0 <= b < |blocks| ensures Running(blocks[b], [], InBlock(b), Plus, NOTHING, blocks[b]) {
      RunningStarts(blocks[b], InBlock(b), Plus, NOTHING);
    }
    forall n | n in WINDOWS ensures Running(prev[n], [], Before(n), AddPrev, NO_PREV, prev[n]) {
      RunningStarts(prev[n], Before(n), AddPrev, NO_PREV);
    }
  }

  function NoTotals(): (m: map<int, Totals>)
    ensures Keyed(m) && forall n :: n in m ==> m[n] == NOTHING
  {
    map n | n in WINDOWS :: NOTHING
  }

  function NoPrevs(): (m: map<int, Prev>)
    ensures Keyed(m) && forall n :: n in m ==> m[n] == NO_PREV
  {
    map n | n in WINDOWS :: NO_PREV
  }

  /** What the blocks and the previous windows have taken in. */
  datatype Shared = Shared(blocks: seq<Totals>, prev: map<int, Prev>)

  ghost predicate SharedHolds(start: Shared, rows: seq<Placed>, sessions: nat, now: Shared) {
    BlocksHold(start.blocks, rows, now.blocks) && PrevHold(start.prev, rows, sessions, now.prev)
  }

  function Flowed(rows: seq<Placed>): set<int> { set p | p in rows && p.entry.tier != NoTrade :: p.idx }

  /** Walks one share's rows: its own windows, and its sector's and the market's blocks
      and previous windows. */
  method AddShare(rows: seq<Placed>, sessions: nat, sector: Shared, market: Shared)
    returns (acc: map<int, Totals>, flowed: set<int>, sector': Shared, market': Shared)
    requires Keyed(sector.prev) && Keyed(market.prev)
    ensures WindowsHold(rows, sessions, acc) && flowed == Flowed(rows)
    ensures SharedHolds(sector, rows, sessions, sector') && SharedHolds(market, rows, sessions, market')
  {
    acc, flowed, sector', market' := NoTotals(), {}, sector, market;
    NothingHeld(sessions, sector.blocks, sector.prev);
    NothingHeld(sessions, market.blocks, market.prev);
    for i := 0 to |rows|
      invariant WindowsHold(rows[..i], sessions, acc) && flowed == Flowed(rows[..i])
      invariant SharedHolds(sector, rows[..i], sessions, sector') && SharedHolds(market, rows[..i], sessions, market')
    {
      var p := rows[i];
      assert rows[..i+1] == rows[..i] + [p];
      if p.entry.tier != NoTrade { flowed := flowed + {p.idx}; }
      var next := AddToWindows(acc, p, sessions);
      WindowsGrow(rows[..i], p, sessions, acc, next);
      acc := next;
      sector' := AddToShared(sector, rows[..i], p, sessions, sector');
      market' := AddToShared(market, rows[..i], p, sessions, market');
    }
    assert rows[..|rows|] == rows;
  }

  method AddToShared(ghost start: Shared, ghost rows: seq<Placed>, p: Placed, sessions: nat, now: Shared)
    returns (next: Shared)
    requires SharedHolds(start, rows, sessions, now)
    ensures SharedHolds(start, rows + [p], sessions, next)
  {
    var prev := AddToPrevious(now.prev, p, sessions);
    PrevGrow(start.prev, rows, p, sessions, now.prev, prev);
    var blocks := AddToBlocks(now.blocks, p);
    BlocksGrow(start.blocks, rows, p, now.blocks, blocks);
    next := Shared(blocks, prev);
  }

  // ---------------------------------------------------------------- all shares

  function RowsOf(byShare: map<Code, seq<Placed>>, c: Code): seq<Placed> { if c in byShare then byShare[c] else [] }

  function ShareBlock(byShare: map<Code, seq<Placed>>, b: int): Code -> Totals {
    (c: Code) => BlockTotal(RowsOf(byShare, c), b)
  }

  function SharePrev(byShare: map<Code, seq<Placed>>, n: int): Code -> Prev {
    (c: Code) => PrevTotal(RowsOf(byShare, c), n)
  }

  function SectorKey(shares: map<Code, Share>): Code -> string { (c: Code) => SectorOf(shares, c) }

  /** The market's blocks and previous windows after some shares. */
  ghost predicate MarketHolds(codes: seq<Code>, byShare: map<Code, seq<Placed>>, sessions: nat, nBlocks: nat,
                              market: Shared)
  {
    && |market.blocks| == nBlocks && Keyed(market.prev)
    && (forall b :: 0 <= b < nBlocks ==> market.blocks[b] == Fold(Map(codes, ShareBlock(byShare, b)), Plus, NOTHING))
    && (forall n ::
      n in WINDOWS && 2 * n <= sessions ==> market.prev[n] == Fold(Map(codes, SharePrev(byShare, n)), AddPrev, NO_PREV))
  }

  /** A sector's. */
  ghost predicate SectorHolds(codes: seq<Code>, byShare: map<Code, seq<Placed>>, shares: map<Code, Share>,
                              sessions: nat, nBlocks: nat,
                              sec: string, sector: Shared) {
    && |sector.blocks| == nBlocks && Keyed(sector.prev)
    && (forall b :: 0 <= b < nBlocks ==>
          sector.blocks[b] == GroupFold(codes, SectorKey(shares), ShareBlock(byShare, b), Plus, NOTHING, sec))
    && (forall n :: n in WINDOWS && 2 * n <= sessions ==>
          sector.prev[n] == GroupFold(codes, SectorKey(shares), SharePrev(byShare, n), AddPrev, NO_PREV, sec))
  }

  lemma MarketTakesShare(codes: seq<Code>, c: Code, byShare: map<Code, seq<Placed>>, sessions: nat, nBlocks: nat,
                         market: Shared, next: Shared)
    requires MarketHolds(codes, byShare, sessions, nBlocks, market)
        && SharedHolds(market, RowsOf(byShare, c), sessions, next)
    ensures MarketHolds(codes + [c], byShare, sessions, nBlocks, next)
  {
    PlusIsAMonoid();
    PrevIsAMonoid();
    forall b | 0 <= b < nBlocks
      ensures next.blocks[b] == Fold(Map(codes + [c], ShareBlock(byShare, b)), Plus, NOTHING)
    {
      FoldMapAppend(codes, c, ShareBlock(byShare, b), Plus, NOTHING);
    }
    forall n | n in WINDOWS && 2 * n <= sessions
      ensures next.prev[n] == Fold(Map(codes + [c], SharePrev(byShare, n)), AddPrev, NO_PREV)
    {
      FoldMapAppend(codes, c, SharePrev(byShare, n), AddPrev, NO_PREV);
    }
  }

  lemma SectorTakesShare(codes: seq<Code>, c: Code, byShare: map<Code, seq<Placed>>, shares: map<Code, Share>,
                         sessions: nat, nBlocks: nat,
                         sec: string, sector: Shared, next: Shared)
    requires SectorHolds(codes, byShare, shares, sessions, nBlocks, sec, sector)
    requires if SectorOf(shares, c) == sec then SharedHolds(sector, RowsOf(byShare, c), sessions, next)
        else next == sector
    ensures SectorHolds(codes + [c], byShare, shares, sessions, nBlocks, sec, next)
  {
    PlusIsAMonoid();
    PrevIsAMonoid();
    forall b | 0 <= b < nBlocks
      ensures next.blocks[b] == GroupFold(codes + [c], SectorKey(shares), ShareBlock(byShare, b), Plus, NOTHING, sec)
    {
      GroupFoldAppend(codes, c, SectorKey(shares), ShareBlock(byShare, b), Plus, NOTHING, sec);
    }
    forall n | n in WINDOWS && 2 * n <= sessions
      ensures next.prev[n] == GroupFold(codes + [c], SectorKey(shares), SharePrev(byShare, n), AddPrev, NO_PREV, sec)
    {
      GroupFoldAppend(codes, c, SectorKey(shares), SharePrev(byShare, n), AddPrev, NO_PREV, sec);
    }
  }

  function NoShared(nBlocks: nat): (r: Shared)
    ensures Keyed(r.prev) && |r.blocks| == nBlocks
  {
    Shared(seq(nBlocks, _ => NOTHING), NoPrevs())
  }

  lemma NewSector(codes: seq<Code>, byShare: map<Code, seq<Placed>>, shares: map<Code, Share>, sessions: nat,
                  nBlocks: nat, sec: string)
    requires forall c :: c in codes ==> SectorOf(shares, c) != sec
    ensures SectorHolds(codes, byShare, shares, sessions, nBlocks, sec, NoShared(nBlocks))
  {
    PlusIsAMonoid();
    PrevIsAMonoid();
    forall b | 0 <= b < nBlocks
      ensures GroupFold(codes, SectorKey(shares), ShareBlock(byShare, b), Plus, NOTHING, sec) == NOTHING
    {
      EmptyGroup(codes, SectorKey(shares), ShareBlock(byShare, b), Plus, NOTHING, sec);
    }
    forall n | n in WINDOWS && 2 * n <= sessions
      ensures GroupFold(codes, SectorKey(shares), SharePrev(byShare, n), AddPrev, NO_PREV, sec) == NO_PREV
    {
      EmptyGroup(codes, SectorKey(shares), SharePrev(byShare, n), AddPrev, NO_PREV, sec);
    }
  }

  lemma EmptyGroup<T(!new), K, A(!new)>(xs: seq<T>, key: T -> K, f: T -> A, op: (A, A) -> A, unit: A, k: K)
    requires CommutativeMonoid(op, unit) && forall x :: x in xs ==> key(x) != k
    ensures GroupFold(xs, key, f, op, unit, k) == unit
  {
    forall i | 0 <= i < |xs| ensures Part(xs[i], key, f, unit, k) == unit { assert xs[i] in xs; }
    FoldOfUnits(Map(xs, (x: T) => Part(x, key, f, unit, k)), op, unit);
  }

  /** The accumulators after some shares. */
  datatype Run = Run(share: map<Code, map<int, Totals>>, flowed: map<Code, set<int>>, sector: map<string, Shared>,
                     market: Shared)

  ghost predicate HasMember(codes: seq<Code>, shares: map<Code, Share>, sec: string) {
    exists i :: 0 <= i < |codes| && SectorOf(shares, codes[i]) == sec
  }

  ghost predicate SharesHold(codes: seq<Code>, byShare: map<Code, seq<Placed>>, sessions: nat, run: Run) {
    && (forall c :: c in run.share <==> c in codes) && run.flowed.Keys == run.share.Keys
    && (forall c :: c in run.share ==> WindowsHold(RowsOf(byShare, c), sessions, run.share[c]))
    && (forall c :: c in run.flowed ==> run.flowed[c] == Flowed(RowsOf(byShare, c)))
  }

  ghost predicate SectorsHold(codes: seq<Code>, byShare: map<Code, seq<Placed>>, shares: map<Code, Share>,
                              sessions: nat, nBlocks: nat,
                              sectors: map<string, Shared>) {
    && (forall sec :: sec in sectors <==> HasMember(codes, shares, sec))
    && (forall sec :: sec in sectors ==> SectorHolds(codes, byShare, shares, sessions, nBlocks, sec, sectors[sec]))
  }

  ghost predicate RunHolds(codes: seq<Code>, byShare: map<Code, seq<Placed>>, shares: map<Code, Share>, sessions: nat,
                           nBlocks: nat, run: Run)
  {
    && SharesHold(codes, byShare, sessions, run)
    && SectorsHold(codes, byShare, shares, sessions, nBlocks, run.sector)
    && MarketHolds(codes, byShare, sessions, nBlocks, run.market)
  }

  lemma MemberGrows(codes: seq<Code>, c: Code, shares: map<Code, Share>, sec: string)
    ensures HasMember(codes + [c], shares, sec) <==> HasMember(codes, shares, sec) || SectorOf(shares, c) == sec
  {
    var more := codes + [c];
    if HasMember(codes, shares, sec) {
      var i :| 0 <= i < |codes| && SectorOf(shares, codes[i]) == sec;
      assert more[i] == codes[i];
    }
    assert more[|codes|] == c;
  }

  lemma SectorsGrow(codes: seq<Code>, c: Code, byShare: map<Code, seq<Placed>>, shares: map<Code, Share>, sessions: nat,
                    nBlocks: nat,
                    sectors: map<string, Shared>, was: Shared, now: Shared)
    requires SectorsHold(codes, byShare, shares, sessions, nBlocks, sectors)
    requires var sec := SectorOf(shares, c); was == if sec in sectors then sectors[sec] else NoShared(nBlocks)
    requires SharedHolds(was, RowsOf(byShare, c), sessions, now)
    ensures SectorsHold(codes + [c], byShare, shares, sessions, nBlocks, sectors[SectorOf(shares, c) := now])
  {
    var own := SectorOf(shares, c);
    if own !in sectors {
      NewSector(codes, byShare, shares, sessions, nBlocks, own) by { NoMembers(codes, shares, own); }
    }
    forall sec
      ensures sec in sectors[own := now] <==> HasMember(codes + [c], shares, sec)
    {
      MemberGrows(codes, c, shares, sec);
    }
    var next := sectors[own := now];
    forall sec | sec in next ensures SectorHolds(codes + [c], byShare, shares, sessions, nBlocks, sec, next[sec]) {
      SectorTakesShare(codes, c, byShare, shares, sessions, nBlocks, sec, if sec == own then was
        else sectors[sec], next[sec]);
    }
  }

  lemma NoMembers(codes: seq<Code>, shares: map<Code, Share>, sec: string)
    requires !HasMember(codes, shares, sec)
    ensures forall c :: c in codes ==> SectorOf(shares, c) != sec
  {}

  /** Walks the shares, in the order of `codes`. */
  method RunShares(codes: seq<Code>, byShare: map<Code, seq<Placed>>, shares: map<Code, Share>, sessions: nat,
                   nBlocks: nat)
    returns (run: Run)
    requires forall c :: c in codes ==> c in byShare
    ensures RunHolds(codes, byShare, shares, sessions, nBlocks, run)
  {
    hide SharesHold, SectorsHold;
    run := Run(map[], map[], map[], NoShared(nBlocks));
    NothingRun(byShare, shares, sessions, nBlocks);
    for i := 0 to |codes|
      invariant RunHolds(codes[..i], byShare, shares, sessions, nBlocks, run)
    {
      var c := codes[i];
      assert codes[..i+1] == codes[..i] + [c] && c in byShare;
      var sec := SectorOf(shares, c);
      var was := if sec in run.sector then run.sector[sec] else NoShared(nBlocks);
      SectorIsKeyed(codes[..i], byShare, shares, sessions, nBlocks, run.sector, sec);
      var acc, flowed, sector, market := AddShare(byShare[c], sessions, was, run.market);
      RunGrows(codes[..i], c, byShare, shares, sessions, nBlocks, run, acc, flowed, was, sector, market);
      run := Run(run.share[c := acc], run.flowed[c := flowed], run.sector[sec := sector], market);
    }
    assert codes[..|codes|] == codes;
  }

  lemma NothingRun(byShare: map<Code, seq<Placed>>, shares: map<Code, Share>, sessions: nat, nBlocks: nat)
    ensures RunHolds([], byShare, shares, sessions, nBlocks, Run(map[], map[], map[], NoShared(nBlocks)))
  {}

  lemma SectorIsKeyed(codes: seq<Code>, byShare: map<Code, seq<Placed>>, shares: map<Code, Share>, sessions: nat,
                      nBlocks: nat,
                      sectors: map<string, Shared>, sec: string)
    requires SectorsHold(codes, byShare, shares, sessions, nBlocks, sectors)
    ensures Keyed((if sec in sectors then sectors[sec] else NoShared(nBlocks)).prev)
  {
    if sec in sectors { assert SectorHolds(codes, byShare, shares, sessions, nBlocks, sec, sectors[sec]); }
  }

  lemma RunGrows(codes: seq<Code>, c: Code, byShare: map<Code, seq<Placed>>, shares: map<Code, Share>, sessions: nat,
                 nBlocks: nat, run: Run,
                 acc: map<int, Totals>, flowed: set<int>, was: Shared, sector: Shared, market: Shared)
    requires RunHolds(codes, byShare, shares, sessions, nBlocks, run) && c in byShare
    requires was == if SectorOf(shares, c) in run.sector then run.sector[SectorOf(shares, c)] else NoShared(nBlocks)
    requires WindowsHold(byShare[c], sessions, acc) && flowed == Flowed(byShare[c])
    requires SharedHolds(was, byShare[c], sessions, sector) && SharedHolds(run.market, byShare[c], sessions, market)
    ensures RunHolds(codes + [c], byShare, shares, sessions, nBlocks,
                     Run(run.share[c := acc], run.flowed[c := flowed], run.sector[SectorOf(shares, c) := sector],
                         market))
  {
    SectorsGrow(codes, c, byShare, shares, sessions, nBlocks, run.sector, was, sector);
    MarketTakesShare(codes, c, byShare, sessions, nBlocks, run.market, market);
  }

  // ---------------------------------------------------------------- sectors and the market

  function AtWindow<A>(share: map<Code, map<int, A>>, n: int, unit: A): Code -> A {
    (c: Code) => if c in share && n in share[c] then share[c][n] else unit
  }

  /** Merges the members of a sector. */
  method MergeShares<A(!new)>(members: seq<Code>, share: map<Code, map<int, A>>, n: int, op: (A, A) -> A, unit: A)
    returns (total: A)
    requires CommutativeMonoid(op, unit) && forall c :: c in members ==> c in share && n in share[c]
    ensures total == Fold(Map(members, AtWindow(share, n, unit)), op, unit)
  {
    total := unit;
    for i := 0 to |members|
      invariant total == Fold(Map(members[..i], AtWindow(share, n, unit)), op, unit)
    {
      assert members[..i+1] == members[..i] + [members[i]] && members[i] in members;
      FoldMapAppend(members[..i], members[i], AtWindow(share, n, unit), op, unit);
      total := op(total, share[members[i]][n]);
    }
    assert members[..|members|] == members;
  }

  ghost predicate AreMembers(codes: seq<Code>, shares: map<Code, Share>, members: map<string, seq<Code>>) {
    && (forall sec :: sec in members <==> HasMember(codes, shares, sec))
    && (forall sec :: sec in members ==> members[sec] == Only(codes, SectorKey(shares), sec))
  }

  lemma MembersGrow(codes: seq<Code>, c: Code, shares: map<Code, Share>, members: map<string, seq<Code>>)
    requires AreMembers(codes, shares, members)
    ensures var sec := SectorOf(shares, c);
      AreMembers(codes + [c], shares, members[sec := (if sec in members then members[sec] else []) + [c]])
  {
    var own := SectorOf(shares, c);
    var next := members[own := (if own in members then members[own] else []) + [c]];
    if own !in members { NoneInSector(codes, shares, own); }
    forall sec ensures sec in next <==> HasMember(codes + [c], shares, sec) { MemberGrows(codes, c, shares, sec); }
    forall sec | sec in next
      ensures next[sec] == Only(codes + [c], SectorKey(shares), sec)
    {
      OnlyAppend(codes, c, SectorKey(shares), sec);
    }
  }

  /** The members of every sector, in the order of `codes`. */
  method Members(codes: seq<Code>, shares: map<Code, Share>) returns (members: map<string, seq<Code>>)
    ensures AreMembers(codes, shares, members)
  {
    members := map[];
    for i := 0 to |codes|
      invariant AreMembers(codes[..i], shares, members)
    {
      var sec := SectorOf(shares, codes[i]);
      assert codes[..i+1] == codes[..i] + [codes[i]];
      MembersGrow(codes[..i], codes[i], shares, members);
      members := members[sec := (if sec in members then members[sec] else []) + [codes[i]]];
    }
    assert codes[..|codes|] == codes;
  }

  lemma {:induction false} NoneInSector(codes: seq<Code>, shares: map<Code, Share>, sec: string)
    requires !HasMember(codes, shares, sec)
    ensures Only(codes, SectorKey(shares), sec) == []
  {
    if codes != [] {
      assert SectorOf(shares, codes[0]) != sec;
      assert forall i :: 0 <= i < |codes[1..]| ==> codes[1..][i] == codes[i+1];
      NoneInSector(codes[1..], shares, sec);
    }
  }

  lemma {:induction false} MembersAreCodes(codes: seq<Code>, shares: map<Code, Share>, sec: string)
    ensures forall c :: c in Only(codes, SectorKey(shares), sec) ==> c in codes
  {
    if codes != [] { MembersAreCodes(codes[1..], shares, sec); }
  }

  function SectorWindow<A>(codes: seq<Code>, shares: map<Code, Share>, share: map<Code, map<int, A>>, n: int,
                           op: (A, A) -> A, unit: A, sec: string): A
  {
    GroupFold(codes, SectorKey(shares), AtWindow(share, n, unit), op, unit, sec)
  }

  /** Exactly the sectors with a share, each the sum of its shares in every
      window, and a market that is the sum of all of them. */
  ghost predicate Summed<A>(codes: seq<Code>, shares: map<Code, Share>, share: map<Code, map<int, A>>, op: (A, A) -> A,
                            unit: A, windows: seq<int>, sector: map<string, map<int, A>>, market: map<int, A>)
  {
    && (forall sec :: sec in sector <==> HasMember(codes, shares, sec))
    && (forall sec :: sec in sector ==> SectorDone(codes, shares, share, op, unit, sec, windows, sector[sec]))
    && (forall n ::
      n in windows ==> n in market && market[n] == Fold(Map(codes, AtWindow(share, n, unit)), op, unit))
  }

  /** Sums every sector over its members and adds each sector into the market; no order
      of the sectors is fixed. */
  method SumSectors<A(!new)>(codes: seq<Code>, shares: map<Code, Share>, share: map<Code, map<int, A>>,
                             windows: seq<int>,
                             op: (A, A) -> A, unit: A)
    returns (sector: map<string, map<int, A>>, market: map<int, A>)
    requires CommutativeMonoid(op, unit) && NoRepeats(windows) && forall c, n ::
        c in codes && n in windows ==> c in share && n in share[c]
    ensures Summed(codes, shares, share, op, unit, windows, sector, market)
  {
    hide HasMember, SectorDone, MarketDone;
    var members := Members(codes, shares);
    var secs := Listing(members.Keys);
    sector, market := map[], map n | n in windows :: unit;
    NoSectorsYet(codes, shares, share, op, unit, windows);
    for i := 0 to |secs|
      invariant forall sec :: sec in sector <==> sec in secs[..i]
      invariant forall sec :: sec in sector ==> SectorDone(codes, shares, share, op, unit, sec, windows, sector[sec])
      invariant MarketDone(codes, shares, share, op, unit, secs[..i], windows, market)
    {
      var sec := secs[i];
      assert secs[..i+1] == secs[..i] + [sec] && sec in members;
      MembersAreCodes(codes, shares, sec);
      var own, all := SumSector(codes, shares, share, sec, members[sec], windows, market, secs[..i], op, unit);
      sector, market := sector[sec := own], all;
    }
    assert secs[..|secs|] == secs;
    MarketIsAllShares(codes, shares, share, op, unit, secs, windows, market);
  }

  lemma MarketIsAllShares<A(!new)>(codes: seq<Code>, shares: map<Code, Share>, share: map<Code, map<int, A>>,
                                   op: (A, A) -> A, unit: A, secs: seq<string>, windows: seq<int>,
                          market: map<int, A>)
    requires CommutativeMonoid(op, unit) && NoRepeats(secs)
        && (forall sec :: sec in secs <==> HasMember(codes, shares, sec))
    requires MarketDone(codes, shares, share, op, unit, secs, windows, market)
    ensures forall n ::
        n in windows ==> n in market && market[n] == Fold(Map(codes, AtWindow(share, n, unit)), op, unit)
  {
    forall n | n in windows ensures n in market && market[n] == Fold(Map(codes, AtWindow(share, n, unit)), op, unit) {
      assert MarketAt(codes, shares, share, op, unit, secs, market, n);
      AllSectors(codes, shares, AtWindow(share, n, unit), op, unit, secs);
    }
  }

  lemma NoSectorsYet<A(!new)>(codes: seq<Code>, shares: map<Code, Share>, share: map<Code, map<int, A>>,
                              op: (A, A) -> A, unit: A, windows: seq<int>)
    requires CommutativeMonoid(op, unit)
    ensures MarketDone(codes, shares, share, op, unit, [], windows, map n | n in windows :: unit)
  {}

  function SectorsSoFar<A>(codes: seq<Code>, shares: map<Code, Share>, share: map<Code, map<int, A>>, n: int,
                           op: (A, A) -> A, unit: A, secs: seq<string>): A
  {
    Fold(GroupFolds(codes, SectorKey(shares), AtWindow(share, n, unit), op, unit, secs), op, unit)
  }

  lemma AllSectors<A(!new)>(codes: seq<Code>, shares: map<Code, Share>, f: Code -> A, op: (A, A) -> A, unit: A,
                            secs: seq<string>)
    requires CommutativeMonoid(op, unit) && NoRepeats(secs) && forall sec ::
        sec in secs <==> HasMember(codes, shares, sec)
    ensures Fold(GroupFolds(codes, SectorKey(shares), f, op, unit, secs), op, unit) == Fold(Map(codes, f), op, unit)
  {
    forall i | 0 <= i < |codes|
      ensures SectorKey(shares)(codes[i]) in secs
    {
      assert HasMember(codes, shares, SectorOf(shares, codes[i]));
    }
    FoldByAllGroups(codes, SectorKey(shares), f, op, unit, secs);
  }

  lemma OneSectorMore<A(!new)>(codes: seq<Code>, shares: map<Code, Share>, f: Code -> A, op: (A, A) -> A, unit: A,
                               secs: seq<string>, sec: string)
    requires CommutativeMonoid(op, unit)
    ensures Fold(GroupFolds(codes, SectorKey(shares), f, op, unit, secs + [sec]), op, unit)
         == op(Fold(GroupFolds(codes, SectorKey(shares), f, op, unit, secs), op, unit),
               GroupFold(codes, SectorKey(shares), f, op, unit, sec))
  {
    assert GroupFolds(codes, SectorKey(shares), f, op, unit, secs + [sec])
        == GroupFolds(codes, SectorKey(shares), f, op, unit, secs)
          + [GroupFold(codes, SectorKey(shares), f, op, unit, sec)];
    FoldAppend(GroupFolds(codes, SectorKey(shares), f, op, unit, secs),
               GroupFold(codes, SectorKey(shares), f, op, unit, sec), op, unit);
  }

  /** One sector's windows, merged into the market's. */
  method SumSector<A(!new)>(codes: seq<Code>, shares: map<Code, Share>, share: map<Code, map<int, A>>, sec: string,
                            members: seq<Code>,
                   windows: seq<int>, market: map<int, A>, ghost secs: seq<string>,
                            op: (A, A) -> A, unit: A)
    returns (own: map<int, A>, all: map<int, A>)
    requires CommutativeMonoid(op, unit) && members == Only(codes, SectorKey(shares), sec) && NoRepeats(windows)
    requires forall c, n :: c in members && n in windows ==> c in share && n in share[c]
    requires MarketDone(codes, shares, share, op, unit, secs, windows, market)
    ensures SectorDone(codes, shares, share, op, unit, sec, windows, own)
    ensures MarketDone(codes, shares, share, op, unit, secs + [sec], windows, all)
    ensures (forall n :: n in own <==> n in windows) && all.Keys == market.Keys
  {
    hide Only, SectorWindow, SectorsSoFar;
    own, all := map[], market;
    for k := 0 to |windows|
      invariant (forall n :: n in own <==> n in windows[..k]) && all.Keys == market.Keys
      invariant forall j :: 0 <= j < k ==> SectorAt(codes, shares, share, op, unit, sec, own, windows[j])
      invariant forall j :: 0 <= j < k ==> MarketAt(codes, shares, share, op, unit, secs + [sec], all, windows[j])
      invariant forall j :: k <= j < |windows| ==> MarketAt(codes, shares, share, op, unit, secs, all, windows[j])
    {
      var n := windows[k];
      assert windows[..k+1] == windows[..k] + [n];
      assert n in windows;
      var a := MergeShares(members, share, n, op, unit);
      MergedIsSector(codes, shares, share, op, unit, sec, n);
      MarketGrows(codes, shares, share, op, unit, sec, secs, n);
      assert MarketAt(codes, shares, share, op, unit, secs, all, windows[k]);
      own, all := own[n := a], all[n := op(all[n], a)];
    }
    assert windows[..|windows|] == windows;
  }

  ghost predicate SectorAt<A>(codes: seq<Code>, shares: map<Code, Share>, share: map<Code, map<int, A>>,
                              op: (A, A) -> A, unit: A, sec: string, own: map<int, A>, n: int)
  {
    n in own && own[n] == SectorWindow(codes, shares, share, n, op, unit, sec)
  }

  ghost predicate MarketAt<A>(codes: seq<Code>, shares: map<Code, Share>, share: map<Code, map<int, A>>,
                              op: (A, A) -> A, unit: A, secs: seq<string>, all: map<int, A>, n: int)
  {
    n in all && all[n] == SectorsSoFar(codes, shares, share, n, op, unit, secs)
  }

  ghost predicate SectorDone<A>(codes: seq<Code>, shares: map<Code, Share>, share: map<Code, map<int, A>>,
                                op: (A, A) -> A, unit: A, sec: string, windows: seq<int>, own: map<int, A>)
  {
    forall n :: n in windows ==> SectorAt(codes, shares, share, op, unit, sec, own, n)
  }

  ghost predicate MarketDone<A>(codes: seq<Code>, shares: map<Code, Share>, share: map<Code, map<int, A>>,
                                op: (A, A) -> A, unit: A, secs: seq<string>, windows: seq<int>, all: map<int, A>)
  {
    forall n :: n in windows ==> MarketAt(codes, shares, share, op, unit, secs, all, n)
  }

  lemma MergedIsSector<A(!new)>(codes: seq<Code>, shares: map<Code, Share>, share: map<Code, map<int, A>>,
                                op: (A, A) -> A, unit: A, sec: string, n: int)
    requires CommutativeMonoid(op, unit)
    ensures Fold(Map(Only(codes, SectorKey(shares), sec), AtWindow(share, n, unit)), op, unit)
        == SectorWindow(codes, shares, share, n, op, unit, sec)
  {
    FoldOfOnly(codes, SectorKey(shares), AtWindow(share, n, unit), op, unit, sec);
  }

  lemma MarketGrows<A(!new)>(codes: seq<Code>, shares: map<Code, Share>, share: map<Code, map<int, A>>, op: (A, A) -> A,
                             unit: A, sec: string, secs: seq<string>, n: int)
    requires CommutativeMonoid(op, unit)
    ensures SectorsSoFar(codes, shares, share, n, op, unit, secs + [sec])
         == op(SectorsSoFar(codes, shares, share, n, op, unit, secs),
               SectorWindow(codes, shares, share, n, op, unit, sec))
  {
    OneSectorMore(codes, shares, AtWindow(share, n, unit), op, unit, secs, sec);
  }

  // ---------------------------------------------------------------- coverage

  /** The value the day files give a share on a day: the last row stated. */
  function LastValue(rows: seq<DayRow>, code: Code, day: int): Option<real> {
    if rows == [] then None
    else
      var r := rows[|rows|-1];
      if r.code == code && r.day == day then Some(r.value) else LastValue(rows[..|rows|-1], code, day)
  }

  /** A share's traded value by calendar position. */
  function DayFile(rows: seq<DayRow>, sessions: seq<int>, code: Code): map<int, real> {
    map i | 0 <= i < |sessions| && LastValue(rows, code, sessions[i]).Some? :: LastValue(rows, code, sessions[i]).value
  }

  function DaysOf(days: map<Code, map<int, real>>, code: Code): map<int, real> {
    if code in days then days[code] else map[]
  }

  lemma OneDayRowMore(rows: seq<DayRow>, sessions: seq<int>, i: nat, code: Code)
    requires i < |rows| && StrictlyDescending(sessions)
    ensures var r := rows[i];
      DayFile(rows[..i+1], sessions, code)
      == if r.code == code && r.day in sessions then
        DayFile(rows[..i], sessions, code)[PositionOf(sessions, r.day).value := r.value]
         else DayFile(rows[..i], sessions, code)
  {
    hide PositionOf;
    assert rows[..i+1][..i] == rows[..i];
  }

  ghost predicate DaysPlaced(rows: seq<DayRow>, sessions: seq<int>, days: map<Code, map<int, real>>) {
    forall code :: DaysOf(days, code) == DayFile(rows, sessions, code)
  }

  function WithDay(days: map<Code, map<int, real>>, code: Code, i: nat, value: real): map<Code, map<int, real>> {
    days[code := DaysOf(days, code)[i := value]]
  }

  lemma DaysGrow(rows: seq<DayRow>, sessions: seq<int>, i: nat, days: map<Code, map<int, real>>)
    requires i < |rows| && StrictlyDescending(sessions) && DaysPlaced(rows[..i], sessions, days)
    ensures var r := rows[i];
      match PositionOf(sessions, r.day)
      case None => DaysPlaced(rows[..i+1], sessions, days)
      case Some(k) => DaysPlaced(rows[..i+1], sessions, WithDay(days, r.code, k, r.value))
  {
    var r := rows[i];
    var next := match PositionOf(sessions, r.day) case None => days case Some(k) => WithDay(days, r.code, k, r.value);
    forall code ensures DaysOf(next, code) == DayFile(rows[..i+1], sessions, code) {
      OneDayRowMore(rows, sessions, i, code);
      assert DaysOf(days, code) == DayFile(rows[..i], sessions, code);
    }
  }

  method PlaceDayFiles(input: Input, pos: map<int, nat>) returns (days: map<Code, map<int, real>>)
    requires StrictlyDescending(input.sessions) && forall day :: day in pos <==> day in input.sessions
    requires forall day :: day in pos ==> PositionOf(input.sessions, day) == Some(pos[day])
    ensures DaysPlaced(input.dayFiles, input.sessions, days)
  {
    days := map[];
    for i := 0 to |input.dayFiles|
      invariant DaysPlaced(input.dayFiles[..i], input.sessions, days)
    {
      var r := input.dayFiles[i];
      DaysGrow(input.dayFiles, input.sessions, i, days);
      if r.day in pos {
        days := WithDay(days, r.code, pos[r.day], r.value);
      }
    }
    assert input.dayFiles[..|input.dayFiles|] == input.dayFiles;
  }

  ghost predicate CoverHolds(day: map<int, real>, flowed: set<int>, windows: seq<int>, cur: map<int, Cover>,
                             prev: map<int, Cover>)
  {
    && (forall n :: n in windows ==> n in cur && n >= 0 && cur[n] == Over(day, flowed, 0, n))
    && (forall n :: n in windows ==> n in prev && n >= 0 && prev[n] == Over(day, flowed, n, 2 * n))
  }

  method CoverShare(day: map<int, real>, flowed: set<int>, windows: seq<int>)
    returns (cur: map<int, Cover>, prev: map<int, Cover>)
    requires (forall i :: i in day ==> i >= 0) && forall n :: n in windows ==> n >= 0
    ensures CoverHolds(day, flowed, windows, cur, prev)
  {
    cur, prev := map[], map[];
    for k := 0 to |windows|
      invariant CoverHolds(day, flowed, windows[..k], cur, prev)
    {
      assert windows[..k+1] == windows[..k] + [windows[k]] && windows[k] in windows;
      var now, before := CoverageIn(day, flowed, windows[k]);
      cur, prev := cur[windows[k] := now], prev[windows[k] := before];
    }
    assert windows[..|windows|] == windows;
  }

  ghost predicate Covered(codes: seq<Code>, days: map<Code, map<int, real>>, flowed: map<Code, set<int>>,
                          windows: seq<int>, cur: map<Code, map<int, Cover>>, prev: map<Code, map<int, Cover>>)
  {
    && (forall c :: c in codes ==>
          c in cur && c in prev && c in flowed && CoverHolds(DaysOf(days, c), flowed[c], windows, cur[c], prev[c]))
    && (forall c :: c in cur || c in prev ==> c in codes)
  }

  method CoverShares(codes: seq<Code>, days: map<Code, map<int, real>>, flowed: map<Code, set<int>>, windows: seq<int>)
    returns (cur: map<Code, map<int, Cover>>, prev: map<Code, map<int, Cover>>)
    requires (forall c, i :: i in DaysOf(days, c) ==> i >= 0) && (forall n :: n in windows ==> n >= 0)
    requires forall c :: c in codes ==> c in flowed
    ensures Covered(codes, days, flowed, windows, cur, prev)
  {
    cur, prev := map[], map[];
    for k := 0 to |codes|
      invariant forall c ::
          c in codes[..k] ==> c in cur && c in prev && CoverHolds(DaysOf(days, c), flowed[c], windows, cur[c], prev[c])
      invariant forall c :: c in cur || c in prev ==> c in codes
    {
      assert codes[..k+1] == codes[..k] + [codes[k]];
      var now, before := CoverShare(DaysOf(days, codes[k]), flowed[codes[k]], windows);
      cur, prev := cur[codes[k] := now], prev[codes[k] := before];
    }
    assert codes[..|codes|] == codes;
  }

  // ---------------------------------------------------------------- the build

  datatype Built = Built(
    share: map<Code, map<int, Totals>>, sector: map<string, map<int, Totals>>, market: map<int, Totals>,
    sectorShared: map<string, Shared>, marketShared: Shared,
    shareCover: map<Code, map<int, Cover>>,
    sectorCover: map<string, map<int, Cover>>, marketCover: map<int, Cover>,
    sectorPrevCover: map<string, map<int, Cover>>, marketPrevCover: map<int, Cover>)

  function BlocksOf(sessions: nat): nat {
    if sessions / BLOCK_SESSIONS > BLOCK_COUNT then BLOCK_COUNT else sessions / BLOCK_SESSIONS
  }

  function Held(input: Input): seq<Placed> { PlaceAll(input.sessions, input.shares, input.rows) }

  function PlacedSector(shares: map<Code, Share>): Placed -> string { (p: Placed) => SectorOf(shares, p.code) }

  /** The sector has a listed share or a stored row. */
  ghost predicate Known(input: Input, sec: string) { exists c :: c in Codes(input) && SectorOf(input.shares, c) == sec }

  /** A quantity summed directly over all rows on the calendar, over those of a
      sector, or over those of a share. */
  function Whole<A>(input: Input, f: Placed -> A, op: (A, A) -> A, unit: A): A { Fold(Map(Held(input), f), op, unit) }

  function OfSector<A>(input: Input, f: Placed -> A, op: (A, A) -> A, unit: A, sec: string): A {
    GroupFold(Held(input), PlacedSector(input.shares), f, op, unit, sec)
  }

  function OfShare<A>(input: Input, f: Placed -> A, op: (A, A) -> A, unit: A, c: Code): A {
    GroupFold(Held(input), CodeOf(), f, op, unit, c)
  }

  predicate Open(input: Input, n: int) { n in WINDOWS && n <= |input.sessions| }

  predicate HasPrevious(input: Input, n: int) { n in WINDOWS && 2 * n <= |input.sessions| }

  ghost predicate WindowsBuilt(input: Input, out: Built) {
    && (forall c :: c in out.share <==> c in Codes(input)) && (forall sec :: sec in out.sector <==> Known(input, sec))
    && (forall c, n :: c in out.share && Open(input, n) ==>
          n in out.share[c] && out.share[c][n] == OfShare(input, InWindow(n), Plus, NOTHING, c))
    && (forall sec, n :: sec in out.sector && Open(input, n) ==>
          n in out.sector[sec] && out.sector[sec][n] == OfSector(input, InWindow(n), Plus, NOTHING, sec))
    && (forall n :: Open(input, n) ==> n in out.market && out.market[n] == Whole(input, InWindow(n), Plus, NOTHING))
  }

  ghost predicate BlocksBuilt(input: Input, out: Built) {
    && |out.marketShared.blocks| == BlocksOf(|input.sessions|)
    && (forall b ::
      0 <= b < |out.marketShared.blocks| ==> out.marketShared.blocks[b] == Whole(input, InBlock(b), Plus, NOTHING))
    && (forall sec :: sec in out.sectorShared <==> Known(input, sec))
    && (forall sec :: sec in out.sectorShared ==> |out.sectorShared[sec].blocks| == BlocksOf(|input.sessions|))
    && (forall sec, b :: sec in out.sectorShared && 0 <= b < BlocksOf(|input.sessions|) ==>
          out.sectorShared[sec].blocks[b] == OfSector(input, InBlock(b), Plus, NOTHING, sec))
  }

  ghost predicate PreviousBuilt(input: Input, out: Built) {
    && (forall n :: HasPrevious(input, n) ==>
          n in out.marketShared.prev && out.marketShared.prev[n] == Whole(input, Before(n), AddPrev, NO_PREV))
    && (forall sec, n :: sec in out.sectorShared && HasPrevious(input, n) ==>
          n in out.sectorShared[sec].prev
            && out.sectorShared[sec].prev[n] == OfSector(input, Before(n), AddPrev, NO_PREV, sec))
  }

  /** What the shares' rows sum to, share by share. */
  ghost predicate PerShare<A>(codes: seq<Code>, byShare: map<Code, seq<Placed>>, f: Placed -> A, g: Code -> A,
                              op: (A, A) -> A, unit: A)
  {
    forall i :: 0 <= i < |codes| ==> g(codes[i]) == Fold(Map(RowsOf(byShare, codes[i]), f), op, unit)
  }

  ghost predicate Listed(placed: seq<Placed>, byShare: map<Code, seq<Placed>>, codes: seq<Code>) {
    Grouped(placed, byShare) && NoRepeats(codes) && forall c :: c in codes <==> c in byShare
  }

  lemma ShareIsGroup<A(!new)>(placed: seq<Placed>, byShare: map<Code, seq<Placed>>, codes: seq<Code>, f: Placed -> A,
                              g: Code -> A,
                              op: (A, A) -> A, unit: A)
    requires CommutativeMonoid(op, unit) && Listed(placed, byShare, codes) && PerShare(codes, byShare, f, g, op, unit)
    ensures forall i :: 0 <= i < |codes| ==> g(codes[i]) == GroupFold(placed, CodeOf(), f, op, unit, codes[i])
    ensures forall i :: 0 <= i < |placed| ==> CodeOf()(placed[i]) in codes
  {
    forall i | 0 <= i < |codes| ensures g(codes[i]) == GroupFold(placed, CodeOf(), f, op, unit, codes[i]) {
      assert codes[i] in codes;
      FoldOfOnly(placed, CodeOf(), f, op, unit, codes[i]);
    }
    forall i | 0 <= i < |placed| ensures CodeOf()(placed[i]) in codes { assert placed[i] in placed; }
  }

  lemma SharesAreWhole<A(!new)>(placed: seq<Placed>, byShare: map<Code, seq<Placed>>, codes: seq<Code>, f: Placed -> A,
                                g: Code -> A,
                                op: (A, A) -> A, unit: A)
    requires CommutativeMonoid(op, unit) && Listed(placed, byShare, codes) && PerShare(codes, byShare, f, g, op, unit)
    ensures Fold(Map(codes, g), op, unit) == Fold(Map(placed, f), op, unit)
  {
    ShareIsGroup(placed, byShare, codes, f, g, op, unit);
    assert Map(codes, g) == GroupFolds(placed, CodeOf(), f, op, unit, codes);
    FoldByAllGroups(placed, CodeOf(), f, op, unit, codes);
  }

  lemma SharesAreSector<A(!new)>(placed: seq<Placed>, byShare: map<Code, seq<Placed>>, codes: seq<Code>,
                                 shares: map<Code, Share>,
                                 f: Placed -> A, g: Code -> A, op: (A, A) -> A, unit: A, sec: string)
    requires CommutativeMonoid(op, unit) && Listed(placed, byShare, codes) && PerShare(codes, byShare, f, g, op, unit)
    ensures GroupFold(codes, SectorKey(shares), g, op, unit, sec)
        == GroupFold(placed, PlacedSector(shares), f, op, unit, sec)
  {
    ShareIsGroup(placed, byShare, codes, f, g, op, unit);
    GroupsOfGroups(placed, codes, CodeOf(), SectorKey(shares), PlacedSector(shares), f, g, op, unit, sec);
  }

  // ---------------------------------------------------------------- from the run to the build

  lemma RunWindows(placed: seq<Placed>, byShare: map<Code, seq<Placed>>, codes: seq<Code>, sessions: nat, run: Run,
                   n: int)
    requires Listed(placed, byShare, codes) && SharesHold(codes, byShare, sessions, run) && n in WINDOWS
        && n <= sessions
    ensures PerShare(codes, byShare, InWindow(n), AtWindow(run.share, n, NOTHING), Plus, NOTHING)
    ensures forall c :: c in run.share ==> n in run.share[c] && AtWindow(run.share, n, NOTHING)(c) == run.share[c][n]
  {
    forall i | 0 <= i < |codes|
      ensures AtWindow(run.share, n, NOTHING)(codes[i])
          == Fold(Map(RowsOf(byShare, codes[i]), InWindow(n)), Plus, NOTHING)
    {
      assert codes[i] in codes;
      assert WindowsHold(RowsOf(byShare, codes[i]), sessions, run.share[codes[i]]);
    }
  }

  lemma KnownSector(input: Input, codes: seq<Code>, sec: string)
    requires forall c :: c in codes <==> c in Codes(input)
    ensures HasMember(codes, input.shares, sec) <==> Known(input, sec)
  {
    if Known(input, sec) {
      var c :| c in Codes(input) && SectorOf(input.shares, c) == sec;
      assert c in codes;
      var i :| 0 <= i < |codes| && codes[i] == c;
    }
    if HasMember(codes, input.shares, sec) {
      var i :| 0 <= i < |codes| && SectorOf(input.shares, codes[i]) == sec;
      assert codes[i] in codes;
    }
  }

  lemma WindowsAreBuilt(input: Input, byShare: map<Code, seq<Placed>>, codes: seq<Code>, run: Run, out: Built)
    requires Listed(Held(input), byShare, codes) && byShare.Keys == Codes(input)
    requires SharesHold(codes, byShare, |input.sessions|, run)
        && Summed(codes, input.shares, run.share, Plus, NOTHING, WINDOWS, out.sector, out.market)
    requires out.share == run.share
    ensures WindowsBuilt(input, out)
  {
    hide Listed, SharesHold, SectorDone, Codes, Known, HasMember, OfShare, OfSector, Whole, AtWindow;
    RunCodes(input, byShare, codes, run);
    forall sec ensures sec in out.sector <==> Known(input, sec) { KnownSector(input, codes, sec); }
    forall c, n | c in out.share && Open(input, n)
      ensures n in out.share[c] && out.share[c][n] == OfShare(input, InWindow(n), Plus, NOTHING, c)
    {
      ShareWindowIsBuilt(input, byShare, codes, run, c, n);
    }
    forall sec, n | sec in out.sector && Open(input, n)
      ensures n in out.sector[sec] && out.sector[sec][n] == OfSector(input, InWindow(n), Plus, NOTHING, sec)
    {
      SectorWindowIsBuilt(input, byShare, codes, run, out.sector[sec], sec, n);
    }
    forall n | Open(input, n) ensures n in out.market && out.market[n] == Whole(input, InWindow(n), Plus, NOTHING) {
      MarketWindowIsBuilt(input, byShare, codes, run, out.market, n);
    }
  }

  lemma RunCodes(input: Input, byShare: map<Code, seq<Placed>>, codes: seq<Code>, run: Run)
    requires Listed(Held(input), byShare, codes) && byShare.Keys == Codes(input)
    requires SharesHold(codes, byShare, |input.sessions|, run)
    ensures forall c :: c in codes <==> c in Codes(input)
    ensures forall c :: c in run.share <==> c in codes
  {
    hide Codes, Held, WindowsHold;
  }

  lemma ShareWindowIsBuilt(input: Input, byShare: map<Code, seq<Placed>>, codes: seq<Code>, run: Run, c: Code, n: int)
    requires Listed(Held(input), byShare, codes) && SharesHold(codes, byShare, |input.sessions|, run)
    requires c in run.share && c in codes && Open(input, n)
    ensures n in run.share[c] && run.share[c][n] == OfShare(input, InWindow(n), Plus, NOTHING, c)
  {
    PlusIsAMonoid();
    RunWindows(Held(input), byShare, codes, |input.sessions|, run, n);
    ShareIsGroup(Held(input), byShare, codes, InWindow(n), AtWindow(run.share, n, NOTHING), Plus, NOTHING);
    var i :| 0 <= i < |codes| && codes[i] == c;
  }

  lemma SectorWindowIsBuilt(input: Input, byShare: map<Code, seq<Placed>>, codes: seq<Code>, run: Run,
                            out: map<int, Totals>, sec: string, n: int)
    requires Listed(Held(input), byShare, codes) && SharesHold(codes, byShare, |input.sessions|, run)
    requires Open(input, n) && SectorDone(codes, input.shares, run.share, Plus, NOTHING, sec, WINDOWS, out)
    ensures n in out && out[n] == OfSector(input, InWindow(n), Plus, NOTHING, sec)
  {
    hide Listed, SharesHold;
    PlusIsAMonoid();
    RunWindows(Held(input), byShare, codes, |input.sessions|, run, n);
    SharesAreSector(Held(input), byShare, codes, input.shares, InWindow(n), AtWindow(run.share, n, NOTHING), Plus,
                    NOTHING, sec);
    assert SectorAt(codes, input.shares, run.share, Plus, NOTHING, sec, out, n);
  }

  lemma MarketWindowIsBuilt(input: Input, byShare: map<Code, seq<Placed>>, codes: seq<Code>, run: Run,
                            out: map<int, Totals>, n: int)
    requires Listed(Held(input), byShare, codes) && SharesHold(codes, byShare, |input.sessions|, run)
    requires Open(input, n) && n in out && out[n] == Fold(Map(codes, AtWindow(run.share, n, NOTHING)), Plus, NOTHING)
    ensures out[n] == Whole(input, InWindow(n), Plus, NOTHING)
  {
    hide Listed, SharesHold;
    PlusIsAMonoid();
    RunWindows(Held(input), byShare, codes, |input.sessions|, run, n);
    SharesAreWhole(Held(input), byShare, codes, InWindow(n), AtWindow(run.share, n, NOTHING), Plus, NOTHING);
  }

  lemma BlocksAreBuilt(input: Input, byShare: map<Code, seq<Placed>>, codes: seq<Code>, out: Built)
    requires Listed(Held(input), byShare, codes) && byShare.Keys == Codes(input)
    requires MarketHolds(codes, byShare, |input.sessions|, BlocksOf(|input.sessions|), out.marketShared)
    requires SectorsHold(codes, byShare, input.shares, |input.sessions|, BlocksOf(|input.sessions|), out.sectorShared)
    ensures BlocksBuilt(input, out)
  {
    PlusIsAMonoid();
    var placed := Held(input);
    forall sec ensures sec in out.sectorShared <==> Known(input, sec) { KnownSector(input, codes, sec); }
    forall b | 0 <= b < |out.marketShared.blocks|
      ensures out.marketShared.blocks[b] == Whole(input, InBlock(b), Plus, NOTHING)
    {
      assert PerShare(codes, byShare, InBlock(b), ShareBlock(byShare, b), Plus, NOTHING);
      SharesAreWhole(placed, byShare, codes, InBlock(b), ShareBlock(byShare, b), Plus, NOTHING);
    }
    forall sec, b | sec in out.sectorShared && 0 <= b < BlocksOf(|input.sessions|)
      ensures |out.sectorShared[sec].blocks| == BlocksOf(|input.sessions|)
           && out.sectorShared[sec].blocks[b] == OfSector(input, InBlock(b), Plus, NOTHING, sec)
    {
      assert SectorHolds(codes, byShare, input.shares, |input.sessions|, BlocksOf(|input.sessions|), sec,
                         out.sectorShared[sec]);
      assert PerShare(codes, byShare, InBlock(b), ShareBlock(byShare, b), Plus, NOTHING);
      SharesAreSector(placed, byShare, codes, input.shares, InBlock(b), ShareBlock(byShare, b), Plus, NOTHING, sec);
    }
  }

  lemma PreviousAreBuilt(input: Input, byShare: map<Code, seq<Placed>>, codes: seq<Code>, out: Built)
    requires Listed(Held(input), byShare, codes)
    requires MarketHolds(codes, byShare, |input.sessions|, BlocksOf(|input.sessions|), out.marketShared)
    requires SectorsHold(codes, byShare, input.shares, |input.sessions|, BlocksOf(|input.sessions|), out.sectorShared)
    ensures PreviousBuilt(input, out)
  {
    PrevIsAMonoid();
    var placed := Held(input);
    forall n | HasPrevious(input, n)
      ensures n in out.marketShared.prev && out.marketShared.prev[n] == Whole(input, Before(n), AddPrev, NO_PREV)
    {
      assert PerShare(codes, byShare, Before(n), SharePrev(byShare, n), AddPrev, NO_PREV);
      SharesAreWhole(placed, byShare, codes, Before(n), SharePrev(byShare, n), AddPrev, NO_PREV);
    }
    forall sec, n | sec in out.sectorShared && HasPrevious(input, n)
      ensures n in out.sectorShared[sec].prev
          && out.sectorShared[sec].prev[n] == OfSector(input, Before(n), AddPrev, NO_PREV, sec)
    {
      assert SectorHolds(codes, byShare, input.shares, |input.sessions|, BlocksOf(|input.sessions|), sec,
                         out.sectorShared[sec]);
      assert PerShare(codes, byShare, Before(n), SharePrev(byShare, n), AddPrev, NO_PREV);
      SharesAreSector(placed, byShare, codes, input.shares, Before(n), SharePrev(byShare, n), AddPrev, NO_PREV, sec);
    }
  }

  /** The calendar positions on which a share's flow shows a trade. */
  function FlowedIn(input: Input, c: Code): set<int> { Flowed(Only(Held(input), CodeOf(), c)) }

  /** A share's coverage over calendar positions. */
  function ShareCover(input: Input, lo: nat, hi: nat): Code -> Cover
    requires lo <= hi
  {
    (c: Code) => Over(DayFile(input.dayFiles, input.sessions, c), FlowedIn(input, c), lo, hi)
  }

  ghost predicate CoverBuilt(input: Input, lo: nat, hi: nat, n: int, sector: map<string, map<int, Cover>>,
                             market: map<int, Cover>)
    requires lo <= hi
  {
    forall codes :: Lists(codes, Codes(input)) ==>
      && n in market && market[n] == Fold(Map(codes, ShareCover(input, lo, hi)), Join, NO_COVER)
      && (forall sec :: sec in sector ==>
            n in sector[sec]
              && sector[sec][n]
              == GroupFold(codes, SectorKey(input.shares), ShareCover(input, lo, hi), Join, NO_COVER, sec))
  }

  /** Every listed share has, at n, the coverage the function gives. */
  ghost predicate Carries(codes: seq<Code>, cover: map<Code, map<int, Cover>>, n: int, f: Code -> Cover) {
    forall c :: c in codes ==> c in cover && n in cover[c] && cover[c][n] == f(c)
  }

  lemma CoverIsBuilt(input: Input, codes: seq<Code>, cover: map<Code, map<int, Cover>>, lo: nat, hi: nat, n: int,
                     sector: map<string, map<int, Cover>>, market: map<int, Cover>)
    requires lo <= hi && Lists(codes, Codes(input))
    requires Carries(codes, cover, n, ShareCover(input, lo, hi))
    requires n in market && market[n] == Fold(Map(codes, AtWindow(cover, n, NO_COVER)), Join, NO_COVER)
    requires forall sec :: sec in sector ==> SectorAt(codes, input.shares, cover, Join, NO_COVER, sec, sector[sec], n)
    ensures CoverBuilt(input, lo, hi, n, sector, market)
  {
    JoinIsAMonoid();
    var f, g := AtWindow(cover, n, NO_COVER), ShareCover(input, lo, hi);
    forall i | 0 <= i < |codes| ensures f(codes[i]) == g(codes[i]) { assert codes[i] in codes; }
    SameParts(codes, f, g, Join, NO_COVER);
    forall other | Lists(other, Codes(input))
      ensures market[n] == Fold(Map(other, g), Join, NO_COVER)
      ensures forall sec :: sec in sector ==>
                n in sector[sec] && sector[sec][n] == GroupFold(other, SectorKey(input.shares), g, Join, NO_COVER, sec)
    {
      ListingsArePermutations(codes, other, Codes(input));
      MapPermutation(codes, other, g);
      FoldPermutation(Map(codes, g), Map(other, g), Join, NO_COVER);
      forall sec | sec in sector
        ensures n in sector[sec] && sector[sec][n] == GroupFold(other, SectorKey(input.shares), g, Join, NO_COVER, sec)
      {
        assert SectorAt(codes, input.shares, cover, Join, NO_COVER, sec, sector[sec], n);
        SameGroupParts(codes, SectorKey(input.shares), f, g, Join, NO_COVER, sec);
        GroupFoldPermutation(codes, other, SectorKey(input.shares), g, Join, NO_COVER, sec);
      }
    }
  }

  ghost predicate ShareCoverBuilt(input: Input, cover: map<Code, map<int, Cover>>) {
    && cover.Keys == Codes(input)
    && forall c, n: nat :: c in cover && n in WINDOWS ==> n in cover[c] && cover[c][n] == ShareCover(input, 0, n)(c)
  }

  ghost predicate IsBuilt(input: Input, out: Built) {
    && WindowsBuilt(input, out) && BlocksBuilt(input, out) && PreviousBuilt(input, out) && CoversBuilt(input, out)
    && (forall sec :: sec in out.sectorCover <==> Known(input, sec))
    && (forall sec :: sec in out.sectorPrevCover <==> Known(input, sec))
  }

  /** All the sums over the placed rows, each what direct summation gives. */
  method BuildFigures(input: Input, pos: map<int, nat>, byShare: map<Code, seq<Placed>>) returns (out: Built)
    requires StrictlyDescending(input.sessions)
    requires forall day :: day in pos <==> day in input.sessions
    requires forall day :: day in pos ==> PositionOf(input.sessions, day) == Some(pos[day])
    requires Grouped(Held(input), byShare) && byShare.Keys == Codes(input)
    ensures IsBuilt(input, out)
  {
    hide Grouped, Held, Codes, Listed, Lists, Join, IsBuilt, WindowsBuilt, BlocksBuilt, PreviousBuilt, CoversBuilt,
         Summed, Covered, SharesHold, SectorsHold, MarketHolds;
    var days := PlaceDayFiles(input, pos);
    var codes := Listing(byShare.Keys);
    PlusIsAMonoid();
    JoinIsAMonoid();
    ListedIsLists(input, byShare, codes);
    var run := RunShares(codes, byShare, input.shares, |input.sessions|, BlocksOf(|input.sessions|));
    ShareFigures(codes, byShare, |input.sessions|, run);
    var sector, market := SumSectors(codes, input.shares, run.share, WINDOWS, Plus, NOTHING);
    DayPositions(input, days);
    var cur, prev := CoverShares(codes, days, run.flowed, WINDOWS);
    CoverKeys(codes, days, run.flowed, cur, prev);
    var sectorCur, marketCur := SumSectors(codes, input.shares, cur, WINDOWS, Join, NO_COVER);
    var sectorPrev, marketPrev := SumSectors(codes, input.shares, prev, WINDOWS, Join, NO_COVER);
    out := Built(run.share, sector, market, run.sector, run.market, cur, sectorCur, marketCur, sectorPrev, marketPrev);
    WindowsAreBuilt(input, byShare, codes, run, out);
    BlocksAreBuilt(input, byShare, codes, out);
    PreviousAreBuilt(input, byShare, codes, out);
    CoversAreBuilt(input, byShare, codes, days, run, cur, prev, out);
    AllIsBuilt(input, codes, prev, out);
  }

  lemma ListedIsLists(input: Input, byShare: map<Code, seq<Placed>>, codes: seq<Code>)
    requires Grouped(Held(input), byShare) && byShare.Keys == Codes(input) && Lists(codes, byShare.Keys)
    ensures Listed(Held(input), byShare, codes) && Lists(codes, Codes(input)) && forall c ::
        c in codes <==> c in byShare
  {}

  lemma ShareFigures(codes: seq<Code>, byShare: map<Code, seq<Placed>>, sessions: nat, run: Run)
    requires SharesHold(codes, byShare, sessions, run)
    ensures forall c, n :: c in codes && n in WINDOWS ==> c in run.share && n in run.share[c]
    ensures forall c :: c in codes ==> c in run.flowed
  {}

  lemma DayPositions(input: Input, days: map<Code, map<int, real>>)
    requires DaysPlaced(input.dayFiles, input.sessions, days)
    ensures forall c, i :: i in DaysOf(days, c) ==> i >= 0
  {}

  lemma CoverKeys(codes: seq<Code>, days: map<Code, map<int, real>>, flowed: map<Code, set<int>>,
                  cur: map<Code, map<int, Cover>>, prev: map<Code, map<int, Cover>>)
    requires Covered(codes, days, flowed, WINDOWS, cur, prev)
    ensures forall c, n :: c in codes && n in WINDOWS ==> c in cur && n in cur[c]
    ensures forall c, n :: c in codes && n in WINDOWS ==> c in prev && n in prev[c]
  {
    forall c, n | c in codes && n in WINDOWS ensures n in cur[c] && n in prev[c] {
      assert CoverHolds(DaysOf(days, c), flowed[c], WINDOWS, cur[c], prev[c]);
    }
  }

  /** The coverage of shares, sectors and the market, of every window and the one before. */
  ghost predicate CoversBuilt(input: Input, out: Built) {
    && ShareCoverBuilt(input, out.shareCover)
    && (forall n :: n in WINDOWS ==> CoverBuilt(input, 0, n, n, out.sectorCover, out.marketCover))
    && (forall n :: n in WINDOWS ==> CoverBuilt(input, n, 2 * n, n, out.sectorPrevCover, out.marketPrevCover))
  }

  lemma CoveredCodes(codes: seq<Code>, days: map<Code, map<int, real>>, flowed: map<Code, set<int>>,
                     cur: map<Code, map<int, Cover>>, prev: map<Code, map<int, Cover>>)
    requires Covered(codes, days, flowed, WINDOWS, cur, prev)
    ensures forall c :: c in cur <==> c in codes
  {
    hide CoverHolds;
  }

  lemma SummedParts(codes: seq<Code>, shares: map<Code, Share>, cover: map<Code, map<int, Cover>>,
                    sector: map<string, map<int, Cover>>, market: map<int, Cover>)
    requires Summed(codes, shares, cover, Join, NO_COVER, WINDOWS, sector, market)
    ensures forall n, sec ::
        n in WINDOWS && sec in sector ==> SectorAt(codes, shares, cover, Join, NO_COVER, sec, sector[sec], n)
    ensures forall n ::
        n in WINDOWS ==> n in market && market[n] == Fold(Map(codes, AtWindow(cover, n, NO_COVER)), Join, NO_COVER)
  {
    hide SectorAt, HasMember;
  }

  lemma CoversAreBuilt(input: Input, byShare: map<Code, seq<Placed>>, codes: seq<Code>, days: map<Code, map<int, real>>,
                       run: Run,
                       cur: map<Code, map<int, Cover>>, prev: map<Code, map<int, Cover>>, out: Built)
    requires Listed(Held(input), byShare, codes) && Lists(codes, Codes(input))
        && SharesHold(codes, byShare, |input.sessions|, run)
    requires DaysPlaced(input.dayFiles, input.sessions, days) && Covered(codes, days, run.flowed, WINDOWS, cur, prev)
    requires out.shareCover == cur
    requires Summed(codes, input.shares, cur, Join, NO_COVER, WINDOWS, out.sectorCover, out.marketCover)
    requires Summed(codes, input.shares, prev, Join, NO_COVER, WINDOWS, out.sectorPrevCover, out.marketPrevCover)
    ensures CoversBuilt(input, out)
  {
    hide CoverBuilt, Listed, Codes, SharesHold, DaysPlaced, ShareCover, HasMember, Covered, Summed;
    CoveredCodes(codes, days, run.flowed, cur, prev);
    SummedParts(codes, input.shares, cur, out.sectorCover, out.marketCover);
    SummedParts(codes, input.shares, prev, out.sectorPrevCover, out.marketPrevCover);
    forall n | n in WINDOWS
      ensures CoverBuilt(input, 0, n, n, out.sectorCover, out.marketCover)
      ensures CoverBuilt(input, n, 2 * n, n, out.sectorPrevCover, out.marketPrevCover)
      ensures Carries(codes, cur, n, ShareCover(input, 0, n))
    {
      CoverOfShares(input, byShare, codes, days, run, cur, prev, n);
      CoverIsBuilt(input, codes, cur, 0, n, n, out.sectorCover, out.marketCover);
      CoverIsBuilt(input, codes, prev, n, 2 * n, n, out.sectorPrevCover, out.marketPrevCover);
    }
  }

  lemma AllIsBuilt(input: Input, codes: seq<Code>, prev: map<Code, map<int, Cover>>, out: Built)
    requires Lists(codes, Codes(input)) && WindowsBuilt(input, out) && BlocksBuilt(input, out)
        && PreviousBuilt(input, out)
    requires CoversBuilt(input, out)
    requires Summed(codes, input.shares, out.shareCover, Join, NO_COVER, WINDOWS, out.sectorCover, out.marketCover)
    requires Summed(codes, input.shares, prev, Join, NO_COVER, WINDOWS, out.sectorPrevCover, out.marketPrevCover)
    ensures IsBuilt(input, out)
  {
    hide WindowsBuilt, BlocksBuilt, PreviousBuilt, CoversBuilt, SectorDone;
    forall sec ensures HasMember(codes, input.shares, sec) <==> Known(input, sec) { KnownSector(input, codes, sec); }
  }

  lemma CoverOfShares(input: Input, byShare: map<Code, seq<Placed>>, codes: seq<Code>, days: map<Code, map<int, real>>,
                      run: Run,
                      cur: map<Code, map<int, Cover>>, prev: map<Code, map<int, Cover>>, n: nat)
    requires Listed(Held(input), byShare, codes) && SharesHold(codes, byShare, |input.sessions|, run) && n in WINDOWS
    requires DaysPlaced(input.dayFiles, input.sessions, days) && Covered(codes, days, run.flowed, WINDOWS, cur, prev)
    ensures Carries(codes, cur, n, ShareCover(input, 0, n)) && Carries(codes, prev, n, ShareCover(input, n, 2 * n))
  {
    hide Listed, SharesHold, DaysPlaced, DaysOf, FlowedIn, DayFile, Held, Over, WindowsHold;
    var f, g := ShareCover(input, 0, n), ShareCover(input, n, 2 * n);
    forall c | c in codes
      ensures c in cur && n in cur[c] && cur[c][n] == f(c) && c in prev && n in prev[c] && prev[c][n] == g(c)
    {
      assert CoverHolds(DaysOf(days, c), run.flowed[c], WINDOWS, cur[c], prev[c]);
      SharePlaces(input, byShare, codes, days, run, c);
    }
  }

  /** What the run knows of a share's sessions is what the rows and day files say. */
  lemma SharePlaces(input: Input, byShare: map<Code, seq<Placed>>, codes: seq<Code>, days: map<Code, map<int, real>>,
                    run: Run, c: Code)
    requires Listed(Held(input), byShare, codes) && SharesHold(codes, byShare, |input.sessions|, run) && c in codes
    requires DaysPlaced(input.dayFiles, input.sessions, days)
    ensures c in run.flowed && run.flowed[c] == FlowedIn(input, c)
    ensures DaysOf(days, c) == DayFile(input.dayFiles, input.sessions, c)
  {
    assert run.flowed[c] == Flowed(RowsOf(byShare, c)) == FlowedIn(input, c);
  }
}
