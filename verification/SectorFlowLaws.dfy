/** What the built sums satisfy: conservation, tiling by blocks, tiers, and
    independence of every order. */
module SectorFlowLaws {
  import opened Coverage
  import opened Flows
  import opened Folds
  import opened Reals
  import opened SectorFlows

  // ---------------------------------------------------------------- conservation

  /** The totals of shares or sectors in a window. */
  function Totalled<K(==)>(m: map<K, map<int, Totals>>, n: int): K -> Totals {
    (k: K) => if k in m && n in m[k] then m[k][n] else NOTHING
  }

  lemma SharesInWindow(input: Input, out: Built, n: int, codes: seq<Code>)
    requires WindowsBuilt(input, out) && Open(input, n) && Lists(codes, Codes(input))
    ensures forall i :: 0 <= i < |codes| ==>
              Totalled(out.share, n)(codes[i]) == GroupFold(Held(input), CodeOf(), InWindow(n), Plus, NOTHING, codes[i])
    ensures forall i :: 0 <= i < |Held(input)| ==> CodeOf()(Held(input)[i]) in codes
  {
    forall i | 0 <= i < |codes|
      ensures Totalled(out.share, n)(codes[i]) == GroupFold(Held(input), CodeOf(), InWindow(n), Plus, NOTHING, codes[i])
    {
      assert codes[i] in codes && codes[i] in out.share;
    }
    forall i | 0 <= i < |Held(input)|
      ensures CodeOf()(Held(input)[i]) in codes
    {
      assert Held(input)[i] in Held(input);
    }
  }

  lemma MarketValue(input: Input, out: Built, n: int)
    requires WindowsBuilt(input, out) && Open(input, n)
    ensures n in out.market && out.market[n] == WindowTotal(Held(input), n)
  {
    hide Held, Fold, OfShare, OfSector, Known, Codes;
  }

  /** In every open window the market is the sum of its shares, which is the sum of
      all rows in the window taken directly. */
  lemma MarketIsItsShares(input: Input, out: Built, n: int, codes: seq<Code>)
    requires WindowsBuilt(input, out) && Open(input, n) && Lists(codes, Codes(input))
    ensures out.market[n] == Fold(Map(codes, Totalled(out.share, n)), Plus, NOTHING) == WindowTotal(Held(input), n)
  {
    hide WindowsBuilt, Fold, Held, Codes, Totalled;
    PlusIsAMonoid();
    MarketValue(input, out, n);
    SharesInWindow(input, out, n, codes);
    GroupsAreWhole(Held(input), codes, CodeOf(), InWindow(n), Totalled(out.share, n), Plus, NOTHING);
  }

  /** The market is the sum of its sectors. */
  lemma MarketIsItsSectors(input: Input, out: Built, n: int, secs: seq<string>)
    requires WindowsBuilt(input, out) && Open(input, n) && Lists(secs, out.sector.Keys)
    ensures out.market[n] == Fold(Map(secs, Totalled(out.sector, n)), Plus, NOTHING)
  {
    hide Fold, Known, OfShare;
    PlusIsAMonoid();
    forall i | 0 <= i < |secs|
      ensures Totalled(out.sector, n)(secs[i])
          == GroupFold(Held(input), PlacedSector(input.shares), InWindow(n), Plus, NOTHING, secs[i])
    {
      assert secs[i] in secs && secs[i] in out.sector;
    }
    SectorsHoldAll(input, out, secs);
    GroupsAreWhole(Held(input), secs, PlacedSector(input.shares), InWindow(n), Totalled(out.sector, n), Plus, NOTHING);
  }

  lemma SectorsHoldAll(input: Input, out: Built, secs: seq<string>)
    requires WindowsBuilt(input, out) && Lists(secs, out.sector.Keys)
    ensures forall i :: 0 <= i < |Held(input)| ==> PlacedSector(input.shares)(Held(input)[i]) in secs
  {
    forall i | 0 <= i < |Held(input)| ensures PlacedSector(input.shares)(Held(input)[i]) in secs {
      assert Held(input)[i] in Held(input) && Held(input)[i].code in Codes(input);
      assert Known(input, SectorOf(input.shares, Held(input)[i].code));
    }
  }

  lemma SectorOfShares(placed: seq<Placed>, codes: seq<Code>, shares: map<Code, Share>, n: int, share: Code -> Totals,
                       sec: string)
    requires NoRepeats(codes) && forall i :: 0 <= i < |placed| ==> CodeOf()(placed[i]) in codes
    requires forall i ::
        0 <= i < |codes| ==> share(codes[i]) == GroupFold(placed, CodeOf(), InWindow(n), Plus, NOTHING, codes[i])
    ensures GroupFold(codes, SectorKey(shares), share, Plus, NOTHING, sec)
         == GroupFold(placed, PlacedSector(shares), InWindow(n), Plus, NOTHING, sec)
  {
    PlusIsAMonoid();
    GroupsOfGroups(placed, codes, CodeOf(), SectorKey(shares), PlacedSector(shares), InWindow(n), share, Plus, NOTHING,
                   sec);
  }

  lemma SectorValue(input: Input, out: Built, n: int, sec: string)
    requires WindowsBuilt(input, out) && Open(input, n) && sec in out.sector
    ensures n in out.sector[sec]
    ensures out.sector[sec][n] == GroupFold(Held(input), PlacedSector(input.shares), InWindow(n), Plus, NOTHING, sec)
  {}

  /** A sector is the sum of its shares. */
  lemma SectorIsItsShares(input: Input, out: Built, n: int, codes: seq<Code>, sec: string)
    requires WindowsBuilt(input, out) && Open(input, n) && Lists(codes, Codes(input)) && sec in out.sector
    ensures n in out.sector[sec]
    ensures out.sector[sec][n] == GroupFold(codes, SectorKey(input.shares), Totalled(out.share, n), Plus, NOTHING, sec)
  {
    SectorValue(input, out, n, sec);
    SharesInWindow(input, out, n, codes);
    SectorOfShares(Held(input), codes, input.shares, n, Totalled(out.share, n), sec);
  }

  function BlockKey(): Placed -> int { (p: Placed) => p.idx / BLOCK_SESSIONS }

  function FirstInts(k: nat): (s: seq<int>)
    ensures |s| == k && forall i :: 0 <= i < k ==> s[i] == i
  {
    seq(k, i => i)
  }

  function BlockAt(placed: seq<Placed>): int -> Totals { (b: int) => BlockTotal(placed, b) }

  function AnyRow(): Placed -> Totals { (p: Placed) => Alone(p.entry) }

  lemma InFirstInts(k: nat, b: int)
    ensures b in FirstInts(k) <==> 0 <= b < k
  {
    if 0 <= b < k { assert FirstInts(k)[b] == b; }
  }

  /** The blocks tile the windows: the newest n/5 of them are window n. */
  lemma BlocksTileWindow(placed: seq<Placed>, k: nat)
    ensures WindowTotal(placed, BLOCK_SESSIONS * k) == Fold(Map(FirstInts(k), BlockAt(placed)), Plus, NOTHING)
  {
    PlusIsAMonoid();
    var keys := FirstInts(k);
    forall i | 0 <= i < k
      ensures BlockAt(placed)(keys[i]) == GroupFold(placed, BlockKey(), AnyRow(), Plus, NOTHING, keys[i])
    {
      PartsAreGroup(placed, BlockKey(), AnyRow(), InBlock(i), Plus, NOTHING, i);
    }
    forall i | 0 <= i < |placed|
      ensures InWindow(BLOCK_SESSIONS * k)(placed[i]) == if BlockKey()(placed[i]) in keys then AnyRow()(placed[i])
          else NOTHING
    {
      InFirstInts(k, placed[i].idx / BLOCK_SESSIONS);
    }
    GroupsAreTheirElements(placed, keys, BlockKey(), AnyRow(), BlockAt(placed), InWindow(BLOCK_SESSIONS * k), Plus,
                           NOTHING);
  }

  /** For 5, 20 and 60 sessions the market is the sum of the heatmap's newest blocks. */
  lemma MarketIsItsBlocks(input: Input, out: Built, n: int)
    requires WindowsBuilt(input, out) && BlocksBuilt(input, out) && Open(input, n) && n in [5, 20, 60]
    ensures n / BLOCK_SESSIONS <= |out.marketShared.blocks|
    ensures out.market[n] == Fold(out.marketShared.blocks[..n / BLOCK_SESSIONS], Plus, NOTHING)
  {
    hide Fold, Held, Codes;
    BlocksTileWindow(Held(input), n / BLOCK_SESSIONS);
    NewestBlocks(input, out, n / BLOCK_SESSIONS);
  }

  lemma NewestBlocks(input: Input, out: Built, k: nat)
    requires BlocksBuilt(input, out) && k <= |out.marketShared.blocks|
    ensures out.marketShared.blocks[..k] == Map(FirstInts(k), BlockAt(Held(input)))
  {}

  // ---------------------------------------------------------------- what the totals satisfy

  function Inside(n: int): Placed -> bool { (p: Placed) => p.idx < n }

  function EntryOf(): Placed -> Entry { (p: Placed) => p.entry }

  /** The rows of a window. */
  function EntriesIn(placed: seq<Placed>, n: int): seq<Entry> { Map(Only(placed, Inside(n), true), EntryOf()) }

  lemma EntriesOfRows(kept: seq<Placed>)
    ensures Map(Map(kept, EntryOf()), Alone) == Map(kept, AnyRow())
  {
    forall i | 0 <= i < |kept| ensures Map(Map(kept, EntryOf()), Alone)[i] == Map(kept, AnyRow())[i] {
      assert Map(kept, EntryOf())[i] == kept[i].entry;
    }
  }

  lemma WindowIsGroup(placed: seq<Placed>, n: int)
    ensures WindowTotal(placed, n) == GroupFold(placed, Inside(n), AnyRow(), Plus, NOTHING, true)
  {
    PartsAreGroup(placed, Inside(n), AnyRow(), InWindow(n), Plus, NOTHING, true);
  }

  lemma EntriesAreWindow(placed: seq<Placed>, n: int)
    ensures WindowTotal(placed, n) == TotalsOf(EntriesIn(placed, n))
  {
    PlusIsAMonoid();
    EntriesOfRows(Only(placed, Inside(n), true));
    FoldOfOnly(placed, Inside(n), AnyRow(), Plus, NOTHING, true);
    WindowIsGroup(placed, n);
  }

  /** A row entered with the tier its own statement of the session gives it. */
  ghost predicate EntryOfRow(rows: seq<Row>, e: Entry) {
    exists i :: 0 <= i < |rows| && e.flow == rows[i].flow && e.tier == Classify(rows[i].flow, rows[i].sessionValue)
  }

  lemma {:induction false} PlacedRowsAreClassified(sessions: seq<int>, shares: map<Code, Share>, rows: seq<Row>,
                                                   p: Placed)
    requires p in PlaceAll(sessions, shares, rows)
    ensures EntryOfRow(rows, p.entry)
  {
    if p in PlaceRow(sessions, shares, rows[0]) {
      assert p.entry.flow == rows[0].flow;
    } else {
      PlacedRowsAreClassified(sessions, shares, rows[1..], p);
      var i :| 0 <= i < |rows[1..]| && p.entry.flow == rows[1..][i].flow
          && p.entry.tier == Classify(rows[1..][i].flow, rows[1..][i].sessionValue);
      assert rows[i+1] == rows[1..][i];
    }
  }

  lemma EntryIsPlaced(placed: seq<Placed>, n: int, e: Entry)
    requires e in EntriesIn(placed, n)
    ensures exists p :: p in placed && p.entry == e
  {
    var kept := Only(placed, Inside(n), true);
    var i :| 0 <= i < |kept| && EntriesIn(placed, n)[i] == e;
    KeptAreMembers(placed, n);
    assert kept[i] in placed && kept[i].entry == e;
  }

  lemma {:induction false} KeptAreMembers(placed: seq<Placed>, n: int)
    ensures forall p :: p in Only(placed, Inside(n), true) ==> p in placed
  {
    if placed != [] { KeptAreMembers(placed[1..], n); }
  }

  /** Every market window: each row in one tier, and the stated institutional flow off
      by no more than the identity's tolerance of the larger side of every accepted
      row. */
  lemma MarketFiguresHold(input: Input, out: Built, n: int)
    requires WindowsBuilt(input, out) && Open(input, n)
    ensures var entries := EntriesIn(Held(input), n);
      && out.market[n] == TotalsOf(entries) && out.market[n].counts.rows == |entries|
        && EveryRowTiered(out.market[n].counts)
      && Abs(-out.market[n].sums.net - InstitutionalNet(entries)) <= IDENTITY_TOLERANCE * LargerSides(entries)
  {
    hide Codes, Known, Open, Plus;
    var entries := EntriesIn(Held(input), n);
    EntriesAreWindow(Held(input), n);
    RowsAreTheirTiers(entries);
    forall e | e in entries && e.tier.Accepted() ensures Balanced(Bought(e.flow), Sold(e.flow)) {
      EntryIsPlaced(Held(input), n, e);
      var p :| p in Held(input) && p.entry == e;
      PlacedRowsAreClassified(input.sessions, input.shares, input.rows, p);
      var i :| 0 <= i < |input.rows| && e.flow == input.rows[i].flow
          && e.tier == Classify(input.rows[i].flow, input.rows[i].sessionValue);
      AcceptedIsBalanced(input.rows[i].flow, input.rows[i].sessionValue);
    }
    InstitutionalIsTheOtherSide(entries);
  }

  /** A sector whose every share meets the coverage rule meets it. */
  lemma CoveredSharesCoverSector(input: Input, out: Built, sec: string, n: nat, codes: seq<Code>)
    requires CoverBuilt(input, 0, n, n, out.sectorCover, out.marketCover) && sec in out.sectorCover
        && Lists(codes, Codes(input))
    requires forall r :: r in input.dayFiles ==> r.value >= 0.0
    requires forall c :: c in codes && SectorOf(input.shares, c) == sec ==> Meets(ShareCover(input, 0, n)(c))
    ensures n in out.sectorCover[sec] && Meets(out.sectorCover[sec][n])
  {
    JoinIsAMonoid();
    FoldOfOnly(codes, SectorKey(input.shares), ShareCover(input, 0, n), Join, NO_COVER, sec);
    MembersMeet(input, sec, n, codes, Only(codes, SectorKey(input.shares), sec));
  }

  lemma MembersMeet(input: Input, sec: string, n: nat, codes: seq<Code>, members: seq<Code>)
    requires forall r :: r in input.dayFiles ==> r.value >= 0.0
    requires forall c :: c in codes && SectorOf(input.shares, c) == sec ==> Meets(ShareCover(input, 0, n)(c))
    requires members == Only(codes, SectorKey(input.shares), sec)
    ensures Meets(Fold(Map(members, ShareCover(input, 0, n)), Join, NO_COVER))
  {
    var covers := Map(members, ShareCover(input, 0, n));
    forall c | c in covers ensures Possible(c) && Meets(c) {
      var i :| 0 <= i < |members| && covers[i] == c;
      OnlyOfSector(codes, input.shares, sec, members[i]);
      DayValuesAreNonNegative(input, members[i]);
      OverIsPossible(DayFile(input.dayFiles, input.sessions, members[i]), FlowedIn(input, members[i]), 0, n);
    }
    GroupMeets(covers);
  }

  lemma {:induction false} OnlyOfSector(codes: seq<Code>, shares: map<Code, Share>, sec: string, c: Code)
    requires c in Only(codes, SectorKey(shares), sec)
    ensures c in codes && SectorOf(shares, c) == sec
  {
    if c !in (if SectorKey(shares)(codes[0]) == sec then [codes[0]] else []) {
      OnlyOfSector(codes[1..], shares, sec, c);
    }
  }

  lemma DayValuesAreNonNegative(input: Input, c: Code)
    requires forall r :: r in input.dayFiles ==> r.value >= 0.0
    ensures forall i ::
        i in DayFile(input.dayFiles, input.sessions, c) ==> DayFile(input.dayFiles, input.sessions, c)[i] >= 0.0
  {
    forall i | i in DayFile(input.dayFiles, input.sessions, c)
      ensures DayFile(input.dayFiles, input.sessions, c)[i] >= 0.0
    {
      LastValueIsARow(input.dayFiles, c, input.sessions[i]);
    }
  }

  lemma {:induction false} LastValueIsARow(rows: seq<DayRow>, code: Code, day: int)
    ensures LastValue(rows, code, day).Some? ==>
        exists r :: r in rows && r.code == code && r.day == day && r.value == LastValue(rows, code, day).value
    decreases |rows|
  {
    if rows != [] {
      var front, last := rows[..|rows|-1], rows[|rows|-1];
      assert last in rows;
      if !(last.code == code && last.day == day) { LastValueIsARow(front, code, day); }
    }
  }

  // ---------------------------------------------------------------- order

  ghost predicate OneValuePerDay(rows: seq<DayRow>) {
    forall r, q :: r in rows && q in rows && r.code == q.code && r.day == q.day ==> r == q
  }

  lemma LastValueIgnoresOrder(a: seq<DayRow>, b: seq<DayRow>, code: Code, day: int)
    requires OneValuePerDay(a) && multiset(a) == multiset(b)
    ensures LastValue(a, code, day) == LastValue(b, code, day)
  {
    LastValueIsARow(a, code, day);
    LastValueIsARow(b, code, day);
    SameMultisetSameMembers(a, b);
    LastValueOfNone(a, code, day);
    LastValueOfNone(b, code, day);
  }

  lemma {:induction false} LastValueOfNone(rows: seq<DayRow>, code: Code, day: int)
    ensures LastValue(rows, code, day).None? ==> forall r :: r in rows ==> r.code != code || r.day != day
    decreases |rows|
  {
    if rows != [] {
      LastValueOfNone(rows[..|rows|-1], code, day);
      assert rows == rows[..|rows|-1] + [rows[|rows|-1]];
    }
  }

  lemma SameCodes(input: Input, shuffled: Input)
    requires shuffled.shares == input.shares && multiset(Held(input)) == multiset(Held(shuffled))
    ensures Codes(input) == Codes(shuffled) && forall sec :: Known(input, sec) <==> Known(shuffled, sec)
  {
    SameMultisetSameMembers(Held(input), Held(shuffled));
    assert PlacedCodes(Held(input)) == PlacedCodes(Held(shuffled));
  }

  /** Everything summed over the rows is the same in any order of the rows. */
  lemma SumsIgnoreOrder<A(!new)>(input: Input, shuffled: Input, f: Placed -> A, op: (A, A) -> A, unit: A, c: Code,
                                 sec: string)
    requires CommutativeMonoid(op, unit) && shuffled.shares == input.shares
        && multiset(Held(input)) == multiset(Held(shuffled))
    ensures OfShare(input, f, op, unit, c) == OfShare(shuffled, f, op, unit, c)
    ensures OfSector(input, f, op, unit, sec) == OfSector(shuffled, f, op, unit, sec)
    ensures Whole(input, f, op, unit) == Whole(shuffled, f, op, unit)
  {
    GroupFoldPermutation(Held(input), Held(shuffled), CodeOf(), f, op, unit, c);
    GroupFoldPermutation(Held(input), Held(shuffled), PlacedSector(input.shares), f, op, unit, sec);
    FoldMapPermutation(Held(input), Held(shuffled), f, op, unit);
  }

  predicate SameInput(input: Input, shuffled: Input) {
    shuffled.sessions == input.sessions && shuffled.shares == input.shares
      && multiset(shuffled.rows) == multiset(input.rows)
  }

  lemma SameHeld(input: Input, shuffled: Input)
    requires SameInput(input, shuffled)
    ensures multiset(Held(input)) == multiset(Held(shuffled))
    ensures Codes(input) == Codes(shuffled) && forall sec :: Known(input, sec) <==> Known(shuffled, sec)
  {
    FlatPermutation(input.rows, shuffled.rows, Placing(input.sessions, input.shares));
    SameCodes(input, shuffled);
  }

  /** Rows in another order, walked in another order, give every share the same windows. */
  lemma SharesIgnoreOrder(input: Input, shuffled: Input, a: Built, b: Built)
    requires SameInput(input, shuffled) && WindowsBuilt(input, a) && WindowsBuilt(shuffled, b)
    ensures a.share.Keys == b.share.Keys
    ensures forall c, n ::
        c in a.share && Open(input, n) ==> n in a.share[c] && n in b.share[c] && a.share[c][n] == b.share[c][n]
  {
    hide Codes, OfShare;
    PlusIsAMonoid();
    SameHeld(input, shuffled);
    forall c, n | c in a.share && Open(input, n)
      ensures n in a.share[c] && n in b.share[c] && a.share[c][n] == b.share[c][n]
    {
      assert c in b.share && Open(shuffled, n);
      SumsIgnoreOrder(input, shuffled, InWindow(n), Plus, NOTHING, c, "");
    }
  }

  /** And every sector. */
  lemma SectorsIgnoreOrder(input: Input, shuffled: Input, a: Built, b: Built)
    requires SameInput(input, shuffled) && WindowsBuilt(input, a) && WindowsBuilt(shuffled, b)
    ensures a.sector.Keys == b.sector.Keys
    ensures forall sec, n ::
        sec in a.sector && Open(input, n) ==>
        n in a.sector[sec] && n in b.sector[sec] && a.sector[sec][n] == b.sector[sec][n]
  {
    hide Known;
    PlusIsAMonoid();
    SameHeld(input, shuffled);
    forall sec, n | sec in a.sector && Open(input, n)
      ensures n in a.sector[sec] && n in b.sector[sec] && a.sector[sec][n] == b.sector[sec][n]
    {
      assert sec in b.sector && Open(shuffled, n);
      SumsIgnoreOrder(input, shuffled, InWindow(n), Plus, NOTHING, "", sec);
    }
  }

  /** And the market. */
  lemma MarketIgnoresOrder(input: Input, shuffled: Input, a: Built, b: Built, n: int)
    requires SameInput(input, shuffled) && WindowsBuilt(input, a) && WindowsBuilt(shuffled, b) && Open(input, n)
    ensures n in a.market && n in b.market && a.market[n] == b.market[n]
  {
    PlusIsAMonoid();
    SameHeld(input, shuffled);
    assert Open(shuffled, n);
    SumsIgnoreOrder(input, shuffled, InWindow(n), Plus, NOTHING, "", "");
  }

  /** And the same blocks. */
  lemma BlocksIgnoreOrder(input: Input, shuffled: Input, a: Built, b: Built)
    requires SameInput(input, shuffled) && BlocksBuilt(input, a) && BlocksBuilt(shuffled, b)
    ensures a.marketShared.blocks == b.marketShared.blocks && a.sectorShared.Keys == b.sectorShared.Keys
    ensures forall sec :: sec in a.sectorShared ==> a.sectorShared[sec].blocks == b.sectorShared[sec].blocks
  {
    hide Known;
    PlusIsAMonoid();
    SameHeld(input, shuffled);
    forall i | 0 <= i < |a.marketShared.blocks| ensures a.marketShared.blocks[i] == b.marketShared.blocks[i] {
      SumsIgnoreOrder(input, shuffled, InBlock(i), Plus, NOTHING, "", "");
    }
    forall sec | sec in a.sectorShared ensures a.sectorShared[sec].blocks == b.sectorShared[sec].blocks {
      assert sec in b.sectorShared;
      forall i | 0 <= i < BlocksOf(|input.sessions|)
        ensures a.sectorShared[sec].blocks[i] == b.sectorShared[sec].blocks[i]
      {
        SumsIgnoreOrder(input, shuffled, InBlock(i), Plus, NOTHING, "", sec);
      }
    }
  }

  /** Nor does the order of the day files change any coverage. */
  lemma CoverageIgnoresOrder(input: Input, shuffled: Input, c: Code, lo: nat, hi: nat)
    requires SameInput(input, shuffled)
    requires OneValuePerDay(input.dayFiles) && multiset(shuffled.dayFiles) == multiset(input.dayFiles) && lo <= hi
    ensures ShareCover(input, lo, hi)(c) == ShareCover(shuffled, lo, hi)(c)
  {
    forall i | 0 <= i < |input.sessions|
      ensures LastValue(input.dayFiles, c, input.sessions[i]) == LastValue(shuffled.dayFiles, c, input.sessions[i])
    {
      LastValueIgnoresOrder(input.dayFiles, shuffled.dayFiles, c, input.sessions[i]);
    }
    assert DayFile(input.dayFiles, input.sessions, c) == DayFile(shuffled.dayFiles, shuffled.sessions, c);
    FlatPermutation(input.rows, shuffled.rows, Placing(input.sessions, input.shares));
    OnlyMembers(Held(input), c);
    OnlyMembers(Held(shuffled), c);
    SameMultisetSameMembers(Held(input), Held(shuffled));
    assert FlowedIn(input, c) == FlowedIn(shuffled, c);
  }

  /** And the same windows before, of the market and of every sector. */
  lemma PreviousIgnoreOrder(input: Input, shuffled: Input, a: Built, b: Built, n: int)
    requires SameInput(input, shuffled) && HasPrevious(input, n)
    requires PreviousBuilt(input, a) && PreviousBuilt(shuffled, b) && BlocksBuilt(input, a) && BlocksBuilt(shuffled, b)
    ensures n in a.marketShared.prev && n in b.marketShared.prev && a.marketShared.prev[n] == b.marketShared.prev[n]
    ensures forall sec :: sec in a.sectorShared ==>
      && sec in b.sectorShared && n in a.sectorShared[sec].prev && n in b.sectorShared[sec].prev
      && a.sectorShared[sec].prev[n] == b.sectorShared[sec].prev[n]
  {
    PrevIsAMonoid();
    SameHeld(input, shuffled);
    assert HasPrevious(shuffled, n);
    SumsIgnoreOrder(input, shuffled, Before(n), AddPrev, NO_PREV, "", "");
    forall sec | sec in a.sectorShared
      ensures sec in b.sectorShared && n in a.sectorShared[sec].prev && n in b.sectorShared[sec].prev
      ensures a.sectorShared[sec].prev[n] == b.sectorShared[sec].prev[n]
    {
      SumsIgnoreOrder(input, shuffled, Before(n), AddPrev, NO_PREV, "", sec);
    }
  }

  predicate SameDays(input: Input, shuffled: Input) {
    SameInput(input, shuffled) && multiset(shuffled.dayFiles) == multiset(input.dayFiles)
  }

  /** And the same coverage, over any calendar positions, of every sector and the market. */
  lemma GroupCoverIgnoresOrder(input: Input, shuffled: Input, lo: nat, hi: nat, n: int,
                               sector: map<string, map<int, Cover>>, market: map<int, Cover>,
                               sector': map<string, map<int, Cover>>, market': map<int, Cover>)
    requires SameDays(input, shuffled) && OneValuePerDay(input.dayFiles) && lo <= hi
    requires CoverBuilt(input, lo, hi, n, sector, market) && CoverBuilt(shuffled, lo, hi, n, sector', market')
    ensures n in market && n in market' && market[n] == market'[n]
    ensures forall sec :: sec in sector && sec in sector' ==>
      n in sector[sec] && n in sector'[sec] && sector[sec][n] == sector'[sec][n]
  {
    SameHeld(input, shuffled);
    var codes := SomeListing(Codes(input));
    var f, g := ShareCover(input, lo, hi), ShareCover(shuffled, lo, hi);
    forall i | 0 <= i < |codes| ensures f(codes[i]) == g(codes[i]) {
      CoverageIgnoresOrder(input, shuffled, codes[i], lo, hi);
    }
    SameParts(codes, f, g, Join, NO_COVER);
    forall sec | sec in sector && sec in sector'
      ensures n in sector[sec] && n in sector'[sec] && sector[sec][n] == sector'[sec][n]
    {
      SameGroupParts(codes, SectorKey(input.shares), f, g, Join, NO_COVER, sec);
    }
  }

  lemma ShareCoverIgnoresOrder(input: Input, shuffled: Input, a: map<Code, map<int, Cover>>,
                               b: map<Code, map<int, Cover>>)
    requires SameDays(input, shuffled) && OneValuePerDay(input.dayFiles)
    requires ShareCoverBuilt(input, a) && ShareCoverBuilt(shuffled, b)
    ensures a.Keys == b.Keys
    ensures forall c, n: nat :: c in a && n in WINDOWS ==> n in a[c] && n in b[c] && a[c][n] == b[c][n]
  {
    SameHeld(input, shuffled);
    forall c, n: nat | c in a && n in WINDOWS ensures n in a[c] && n in b[c] && a[c][n] == b[c][n] {
      CoverageIgnoresOrder(input, shuffled, c, 0, n);
    }
  }

  lemma {:induction false} OnlyMembers(placed: seq<Placed>, c: Code)
    ensures forall p :: p in Only(placed, CodeOf(), c) <==> p in placed && p.code == c
  {
    if placed != [] {
      OnlyMembers(placed[1..], c);
      assert forall p :: p in placed <==> p == placed[0] || p in placed[1..];
    }
  }
}
