/** Runs of the incremental fetch against the server that stores one share's
    sessions, adding what it lacks and overwriting nothing. */
module FetchRuns {
  import opened Wrappers
  import opened DateSets
  import opened FlowFetch

  const FLOW_OVERLAP_ROWS: int := 10

  type Store = map<int, Row>

  function Oldest(stored: Store): Option<int> { if stored == map[] then None else Some(Least(stored.Keys)) }

  function Newest(stored: Store): Option<int> { if stored == map[] then None else Some(Greatest(stored.Keys)) }

  /** One run for the share: the checked history it downloaded, the floor it was
      given (none for a roster share), the first day that is not settled, and
      whether its rows reached the store. A failed download, a refused payload and
      a contradicted history all leave the store as it was. */
  datatype Run = Run(history: seq<Row>, floor: Option<int>, cutoff: int, reached: bool)

  function Shipment(stored: Store, run: Run): seq<Row> {
    match TrimClientTypes(run.history, Newest(stored), Oldest(stored), FLOW_OVERLAP_ROWS, run.floor)
    case None => []
    case Some(rows) => rows
  }

  /** The server keeps its own copy of a session it already holds. */
  function Ingest(stored: Store, rows: seq<Row>, cutoff: int): Store {
    ByDate(Filter(rows, (r: Row) => r.date < cutoff)) + stored
  }

  function Next(stored: Store, run: Run): Store {
    if run.reached then Ingest(stored, Shipment(stored, run), run.cutoff) else stored
  }

  /** The store holds every session of `dates` between its oldest and its newest. */
  ghost predicate GapFree(stored: Store, dates: set<int>) {
    && stored.Keys <= dates
    && forall d, lo, hi :: d in dates && lo in stored && hi in stored && lo <= d <= hi ==> d in stored
  }

  /** The dates a run wants, given what is stored. */
  predicate RunWants(stored: Store, run: Run, d: int) {
    Wanted(Dates(run.history), d, Newest(stored), Oldest(stored), 10, run.floor)
  }

  ghost predicate RunLacks(stored: Store, run: Run) {
    Lacking(Dates(run.history), Newest(stored), Oldest(stored), run.floor)
  }

  lemma ShipmentIsExact(stored: Store, run: Run)
    requires DistinctDates(run.history)
    ensures forall x ::
        x in Shipment(stored, run) <==> x in run.history && RunLacks(stored, run) && RunWants(stored, run, x.date)
    ensures Newest1st(Shipment(stored, run))
    ensures Shipment(stored, run) == [] <==> !RunLacks(stored, run)
  {
    hide TrimClientTypes, Lacking, Wanted, DistinctDates;
    if stored == map[] {
      FirstFetchIsExact(run.history, FLOW_OVERLAP_ROWS, run.floor);
    } else {
      LaterFetchIsExact(run.history, Newest(stored).value, Oldest(stored).value, FLOW_OVERLAP_ROWS, run.floor);
    }
    if RunLacks(stored, run) {
      LackingIsWanted(run.history, Newest(stored), Oldest(stored), FLOW_OVERLAP_ROWS, run.floor);
    }
    assert forall x :: x in Shipment(stored, run) ==> RunLacks(stored, run);
    HasFirst(Shipment(stored, run));
  }

  /** What a run that reaches the store leaves in it. */
  lemma StoredAfter(stored: Store, run: Run)
    requires DistinctDates(run.history) && run.reached
    ensures forall d :: d in Next(stored, run) <==>
              d in stored || (d < run.cutoff && d in Dates(run.history) && RunLacks(stored, run)
                && RunWants(stored, run, d))
    ensures forall d :: d in stored ==> Next(stored, run)[d] == stored[d]
    ensures forall d :: d in Next(stored, run) && d !in stored ==> Next(stored, run)[d] in run.history
  {
    ShipmentIsExact(stored, run);
    var settled := Filter(Shipment(stored, run), (r: Row) => r.date < run.cutoff);
    forall d ensures d in Dates(settled)
      <==> d < run.cutoff && d in Dates(run.history) && RunLacks(stored, run) && RunWants(stored, run, d)
    {
      if d in Dates(run.history) && d < run.cutoff && RunLacks(stored, run) && RunWants(stored, run, d) {
        var x :| x in run.history && x.date == d;
        assert x in settled;
      }
    }
  }

  // ---------------------------------------------------------------- one admissible run

  /** TSETMC only appends: a later history keeps every session and adds newer ones. */
  ghost predicate Appends(before: set<int>, after: set<int>) {
    before <= after && forall d, e :: d in after && d !in before && e in before ==> e < d
  }

  /** A run as the script is used: the share's payload passed its check, the floor
      is absent or no later than the newest stored session, and the clock has not
      gone back behind a session already stored. */
  ghost predicate Admissible(stored: Store, seen: set<int>, run: Run) {
    && DistinctDates(run.history) && Appends(seen, Dates(run.history))
    && (stored != map[] && run.floor.Some? ==> run.floor.value <= Newest(stored).value)
    && forall d :: d in stored ==> d < run.cutoff
  }

  lemma AppendedIsGapFree(stored: Store, seen: set<int>, dates: set<int>)
    requires GapFree(stored, seen) && Appends(seen, dates)
    ensures GapFree(stored, dates)
  {}

  /** The settled sessions from the floor on. */
  function SettledFrom(dates: set<int>, floor: Option<int>, cutoff: int): set<int> {
    set d | d in dates && (floor.Some? ==> d >= floor.value) && d < cutoff
  }

  /** A run adds exactly the settled sessions from its floor on: the store becomes
      a copy of the history there, whatever it held. */
  lemma RunCompletes(stored: Store, seen: set<int>, run: Run)
    requires GapFree(stored, seen) && Admissible(stored, seen, run) && run.reached
    ensures Next(stored, run).Keys == stored.Keys + SettledFrom(Dates(run.history), run.floor, run.cutoff)
  {
    hide Next, GapFree, Admissible;
    var next := Next(stored, run);
    forall d ensures d in next.Keys <==> d in stored.Keys + SettledFrom(Dates(run.history), run.floor, run.cutoff) {
      DateCompleted(stored, seen, run, d);
    }
  }

  lemma DateCompleted(stored: Store, seen: set<int>, run: Run, d: int)
    requires GapFree(stored, seen) && Admissible(stored, seen, run) && run.reached
    ensures d in Next(stored, run) <==> d in stored || d in SettledFrom(Dates(run.history), run.floor, run.cutoff)
  {
    StoredAfter(stored, run);
    hide Next, DistinctDates, After;
    if d in Dates(run.history) && AtOrAbove(d, run.floor) && d < run.cutoff && d !in stored {
      AppendedIsGapFree(stored, seen, Dates(run.history));
      assert Outside(d, Newest(stored), Oldest(stored));
      assert RunLacks(stored, run) && RunWants(stored, run, d);
    }
  }

  lemma RunKeepsGapFree(stored: Store, seen: set<int>, run: Run)
    requires GapFree(stored, seen) && Admissible(stored, seen, run)
    ensures GapFree(Next(stored, run), Dates(run.history))
  {
    AppendedIsGapFree(stored, seen, Dates(run.history));
    if run.reached {
      hide Next, DistinctDates, GapFree;
      RunCompletes(stored, seen, run);
      CompletedIsGapFree(stored, Next(stored, run), Dates(run.history), run.floor, run.cutoff);
    }
  }

  lemma CompletedIsGapFree(stored: Store, next: Store, dates: set<int>, floor: Option<int>, cutoff: int)
    requires GapFree(stored, dates)
    requires next.Keys == stored.Keys + SettledFrom(dates, floor, cutoff)
    requires stored != map[] && floor.Some? ==> floor.value <= Newest(stored).value
    requires forall d :: d in stored ==> d < cutoff
    ensures GapFree(next, dates)
  {
    forall d, lo, hi | d in dates && lo in next && hi in next && lo <= d <= hi ensures d in next {
      assert lo in stored ==> Newest(stored).value in stored;
    }
  }


  lemma CountAtMost(rows: seq<Row>)
    ensures |Dates(rows)| <= |rows|
  {
    if rows != [] {
      CountAtMost(rows[1..]);
      assert forall x :: x in rows <==> x == rows[0] || x in rows[1..];
      assert Dates(rows) == Dates(rows[1..]) + {rows[0].date};
    }
  }

  lemma SubsetSize(a: set<int>, b: set<int>)
    requires a <= b
    ensures |a| <= |b|
  {
    assert b == a + (b - a);
  }

  /** At most the overlap is shipped again. */
  lemma ReshippedAtMostOverlap(stored: Store, run: Run)
    requires DistinctDates(run.history)
    ensures |set x | x in Shipment(stored, run) && x.date in stored :: x.date| <= 10
  {
    var again := set x | x in Shipment(stored, run) && x.date in stored :: x.date;
    if stored != map[] {
      var last := Newest(stored).value;
      var near := LastRows(UpTo(SortByDate(run.history), last), FLOW_OVERLAP_ROWS);
      ReshippedAreNear(stored, run);
      SubsetSize(again, Dates(near));
      CountAtMost(near);
    }
  }

  lemma ReshippedAreNear(stored: Store, run: Run)
    requires DistinctDates(run.history) && stored != map[]
    ensures var near := LastRows(UpTo(SortByDate(run.history), Newest(stored).value), FLOW_OVERLAP_ROWS);
      forall x :: x in Shipment(stored, run) && x.date in stored ==> x.date in Dates(near)
  {
    hide Shipment;
    ShipmentIsExact(stored, run);
    PartsOfHistory(run.history, Newest(stored).value, Oldest(stored), FLOW_OVERLAP_ROWS, run.floor);
  }

  // ---------------------------------------------------------------- any number of runs

  lemma KeepsStored(stored: Store, run: Run)
    ensures forall d :: d in stored ==> d in Next(stored, run) && Next(stored, run)[d] == stored[d]
  {}

  function AfterRuns(stored: Store, runs: seq<Run>): Store
    decreases runs
  {
    if runs == [] then stored else AfterRuns(Next(stored, runs[0]), runs[1..])
  }

  ghost predicate AdmissibleRuns(stored: Store, seen: set<int>, runs: seq<Run>)
    decreases runs
  {
    runs != [] ==>
      Admissible(stored, seen, runs[0]) && AdmissibleRuns(Next(stored, runs[0]), Dates(runs[0].history), runs[1..])
  }

  /** Every run of any sequence leaves the store gap-free against the history it
      read, and no stored session is ever changed. */
  lemma {:induction false} RunsStayGapFree(stored: Store, seen: set<int>, runs: seq<Run>)
    requires GapFree(stored, seen) && AdmissibleRuns(stored, seen, runs)
    ensures GapFree(AfterRuns(stored, runs), if runs == [] then seen else Dates(runs[|runs|-1].history))
    ensures forall d :: d in stored ==> d in AfterRuns(stored, runs) && AfterRuns(stored, runs)[d] == stored[d]
    decreases runs
  {
    hide GapFree;
    if runs != [] {
      hide GapFree, DistinctDates, Appends, Newest;
      RunKeepsGapFree(stored, seen, runs[0]);
      KeepsStored(stored, runs[0]);
      RunsStayGapFree(Next(stored, runs[0]), Dates(runs[0].history), runs[1..]);
    }
  }

  // ---------------------------------------------------------------- a floor that is too late

  lemma LateFloorWants(stored: Store, run: Run, d: int)
    requires stored != map[] && run.floor.Some? && run.floor.value > Newest(stored).value
    ensures RunWants(stored, run, d) <==> d in Dates(run.history) && run.floor.value <= d
    ensures RunWants(stored, run, d) ==> RunLacks(stored, run)
  {
    if d in Dates(run.history) && run.floor.value <= d {
      assert Outside(d, Newest(stored), Oldest(stored));
    }
  }

  lemma LateFloorStores(stored: Store, run: Run)
    requires stored != map[] && run.reached && DistinctDates(run.history)
    requires run.floor.Some? && run.floor.value > Newest(stored).value
    ensures forall d :: d in Next(stored, run) <==>
              d in stored || (d in Dates(run.history) && run.floor.value <= d < run.cutoff)
  {
    StoredAfter(stored, run);
    forall d
      ensures RunWants(stored, run, d) && RunLacks(stored, run) <==> d in Dates(run.history) && run.floor.value <= d
    {
      LateFloorWants(stored, run, d);
    }
  }

  /** A session between the newest stored one and the floor, and one from the floor
      on that the run can store: what a caller can look for beforehand. */
  ghost predicate FloorSkips(stored: Store, run: Run)
    requires stored != map[] && run.floor.Some?
  {
    && (exists d :: d in Dates(run.history) && Newest(stored).value < d < run.floor.value)
    && (exists e :: e in Dates(run.history) && run.floor.value <= e < run.cutoff)
  }

  /** Exactly when a run whose floor is later than everything stored leaves a hole:
      it skips a session between the two and stores one beyond it. */
  lemma LateFloorLeavesHole(stored: Store, seen: set<int>, run: Run)
    requires GapFree(stored, seen) && stored != map[] && run.reached
    requires DistinctDates(run.history) && Appends(seen, Dates(run.history))
    requires run.floor.Some? && run.floor.value > Newest(stored).value
    ensures GapFree(Next(stored, run), Dates(run.history)) <==> !FloorSkips(stored, run)
  {
    hide Next, DistinctDates, GapFree;
    LateFloorStores(stored, run);
    AppendedIsGapFree(stored, seen, Dates(run.history));
    HoleBelowFloor(stored, Next(stored, run), Dates(run.history), Newest(stored).value, run.floor.value, run.cutoff);
  }

  lemma HoleBelowFloor(stored: Store, next: Store, dates: set<int>, last: int, floor: int, cutoff: int)
    requires GapFree(stored, dates) && last in stored && last < floor && forall d :: d in stored ==> d <= last
    requires forall d :: d in next <==> d in stored || (d in dates && floor <= d < cutoff)
    ensures GapFree(next, dates)
      <==> !((exists d :: d in dates && last < d < floor) && (exists e :: e in dates && floor <= e < cutoff))
  {
    if (exists d :: d in dates && last < d < floor) && (exists e :: e in dates && floor <= e < cutoff) {
      var d :| d in dates && last < d < floor;
      var e :| e in dates && floor <= e < cutoff;
      assert last in next && e in next && d !in next;
    } else {
      forall d, lo, hi | d in dates && lo in next && hi in next && lo <= d <= hi ensures d in next {
        if d <= last {
          assert lo in stored && last in stored;
        } else {
          assert hi in dates && floor <= hi < cutoff;
        }
      }
    }
  }

  /** Exactly when a later run fills a hole: it has something else to ship, and the
      missing session is still among the newest few of the history at or before the
      newest stored one. */
  lemma HoleIsFilledExactly(stored: Store, run: Run, d: int)
    requires DistinctDates(run.history) && d in Dates(run.history)
    requires stored != map[] && d !in stored && Oldest(stored).value < d < Newest(stored).value
    ensures d in Next(stored, run)
      <==> && run.reached && RunLacks(stored, run) && (run.floor.Some? ==> d >= run.floor.value) && d < run.cutoff
           && After(Dates(run.history), d, Newest(stored).value) < 10
  {
    if run.reached { StoredAfter(stored, run); }
  }

  lemma AfterOnlyGrows(before: set<int>, after: set<int>, d: int, last: int, later: int)
    requires before <= after && last <= later
    ensures After(before, d, last) <= After(after, d, later)
  {
    SubsetSize(set e | e in before && d < e <= last, set e | e in after && d < e <= later);
  }

  /** Histories that only grow, whatever the floors. */
  ghost predicate GrowingRuns(seen: set<int>, runs: seq<Run>)
    decreases runs
  {
    runs != [] ==>
      && DistinctDates(runs[0].history) && seen <= Dates(runs[0].history)
      && GrowingRuns(Dates(runs[0].history), runs[1..])
  }

  /** A hole behind a full overlap of newer sessions is never filled again. */
  lemma {:induction false} DeepHoleIsPermanent(stored: Store, seen: set<int>, runs: seq<Run>, d: int)
    requires GrowingRuns(seen, runs) && d in seen
    requires stored != map[] && d !in stored && Oldest(stored).value < d < Newest(stored).value
    requires After(seen, d, Newest(stored).value) >= 10
    ensures d !in AfterRuns(stored, runs)
    decreases runs
  {
    if runs != [] {
      var run := runs[0];
      AfterOnlyGrows(seen, Dates(run.history), d, Newest(stored).value, Newest(stored).value);
      HoleIsFilledExactly(stored, run, d);
      if run.reached { StoredAfter(stored, run); }
      var next := Next(stored, run);
      assert Newest(stored).value in next && Oldest(stored).value in next;
      AfterOnlyGrows(seen, Dates(run.history), d, Newest(stored).value, Newest(next).value);
      DeepHoleIsPermanent(next, Dates(run.history), runs[1..], d);
    }
  }

  // ---------------------------------------------------------------- a hole that stays

  /** A history of the first `n` days. */
  function FirstDays(n: nat): (rows: seq<Row>)
    ensures |rows| == n && forall i :: 0 <= i < n ==> rows[i] == Row(i + 1, 0)
  {
    seq(n, i => Row(i + 1, 0))
  }

  lemma DatesOfFirstDays(n: nat)
    ensures DistinctDates(FirstDays(n)) && forall d :: d in Dates(FirstDays(n)) <==> 1 <= d <= n
  {
    forall d | 1 <= d <= n ensures d in Dates(FirstDays(n)) { assert FirstDays(n)[d-1] in FirstDays(n); }
  }

  function FirstDay(): Store { map[1 := Row(1, 0)] }

  lemma FirstDayStored()
    ensures Newest(FirstDay()) == Some(1) && Oldest(FirstDay()) == Some(1) && GapFree(FirstDay(), {1})
  {
    assert FirstDay().Keys == {1};
  }

  /** One day stored, three served, and a floor on the third: a gap-free store gets a
      hole. */
  lemma LateFloorHole()
    ensures var run := Run(FirstDays(3), Some(3), 10, true);
      && GapFree(FirstDay(), {1}) && Appends({1}, Dates(run.history))
      && !GapFree(Next(FirstDay(), run), Dates(run.history))
  {
    hide Next, Newest, GapFree;
    var run := Run(FirstDays(3), Some(3), 10, true);
    DatesOfFirstDays(3);
    FirstDayStored();
    assert 2 in Dates(run.history) && 3 in Dates(run.history);
    LateFloorLeavesHole(FirstDay(), {1}, run);
  }

  lemma AfterTheHole()
    ensures After(Dates(FirstDays(12)), 2, 12) == 10
  {
    var rows := FirstDays(12);
    DatesOfFirstDays(12);
    RankFromEnd(rows, 1);
    assert (set e | e in Dates(rows) && 2 < e <= 12) == set e | e in Dates(rows) && rows[1].date < e;
  }

  lemma StoredAroundHole()
    ensures forall d :: d in Next(FirstDay(), Run(FirstDays(12), Some(3), 20, true)) <==> d == 1 || 3 <= d <= 12
  {
    hide Next, Newest;
    DatesOfFirstDays(12);
    FirstDayStored();
    LateFloorStores(FirstDay(), Run(FirstDays(12), Some(3), 20, true));
  }

  lemma EndsAroundHole(next: Store)
    requires forall d :: d in next <==> d == 1 || 3 <= d <= 12
    ensures next != map[] && Oldest(next) == Some(1) && Newest(next) == Some(12)
  {
    assert 1 in next && 12 in next;
  }

  /** With twelve days served, the day the floor skipped is never stored, whatever runs
      come after and whatever floors they have. */
  lemma LateFloorHoleStays(runs: seq<Run>)
    requires GrowingRuns(Dates(FirstDays(12)), runs)
    ensures var run := Run(FirstDays(12), Some(3), 20, true);
      2 in Dates(run.history) && 2 !in AfterRuns(Next(FirstDay(), run), runs)
  {
    hide Next, Newest, Oldest, AfterRuns, GrowingRuns, After, FirstDays;
    var next := Next(FirstDay(), Run(FirstDays(12), Some(3), 20, true));
    DatesOfFirstDays(12);
    StoredAroundHole();
    EndsAroundHole(next);
    AfterTheHole();
    DeepHoleIsPermanent(next, Dates(FirstDays(12)), runs, 2);
  }

  // ---------------------------------------------------------------- handing a run over

  /** What one ingest call comes back with: nothing, or a report that may name the
      offset to go on from. */
  datatype Reply = CallFailed | Report(nextOffset: Option<int>)

  /** The service goes on where its chunk ended, until the part is done. */
  ghost predicate HonestAt(post: int -> Reply, o: int, chunk: int, total: int) {
    post(o) == CallFailed || post(o) == Report(if o + chunk < total then Some(o + chunk) else None)
  }

  ghost predicate AllHonest(post: int -> Reply, chunk: int, total: int) { forall o :: HonestAt(post, o, chunk, total) }

  /** The offsets of consecutive chunks from `from` to the end of the part. */
  ghost function Offsets(from: int, total: int, chunk: int): seq<int>
    requires chunk > 0
    decreases total - from
  {
    if from >= total then [] else [from] + Offsets(from + chunk, total, chunk)
  }

  predicate Covers(offset: int, chunk: int, item: int) { offset <= item < offset + chunk }

  /** Every item of the part lies in exactly one of those chunks. */
  lemma {:induction false} OffsetsPartition(from: int, total: int, chunk: int, item: int) returns (i: nat)
    requires chunk > 0 && from <= item < total
    ensures i < |Offsets(from, total, chunk)|
    ensures forall j :: 0 <= j < |Offsets(from, total, chunk)| ==>
      from <= Offsets(from, total, chunk)[j] && (Covers(Offsets(from, total, chunk)[j], chunk, item) <==> j == i)
    decreases total - from
  {
    if item < from + chunk {
      i := 0;
      OffsetsAfter(from + chunk, total, chunk);
    } else {
      var k := OffsetsPartition(from + chunk, total, chunk, item);
      i := k + 1;
    }
  }

  lemma {:induction false} OffsetsAfter(from: int, total: int, chunk: int)
    requires chunk > 0
    ensures forall j :: 0 <= j < |Offsets(from, total, chunk)| ==> from <= Offsets(from, total, chunk)[j]
    decreases total - from
  {
    if from < total { OffsetsAfter(from + chunk, total, chunk); }
  }

  lemma PostedNext(posted: seq<int>, offset: int, total: int, chunk: int)
    requires chunk > 0 && offset < total
    ensures posted + Offsets(offset, total, chunk) == (posted + [offset]) + Offsets(offset + chunk, total, chunk)
  {}

  /** Where the walk goes on from a call at `o`: behind its chunk when the call failed,
      at the offset the report names when that is further on, and nowhere otherwise. */
  ghost function GoesOn(post: int -> Reply, o: int, chunk: int, total: int): Option<int> {
    match post(o)
    case CallFailed => if o + chunk < total then Some(o + chunk) else None
    case Report(None) => None
    case Report(Some(next)) => if o < next < total then Some(next) else None
  }

  /** The offsets posted, each where the reply to the one before sends the walk, and the
      call that is due next. */
  ghost predicate FollowsReplies(post: int -> Reply, posted: seq<int>, chunk: int, total: int, due: Option<int>) {
    && (posted == [] ==> due == if total > 0 then Some(0) else None)
    && (posted != [] ==> posted[0] == 0 && due == GoesOn(post, posted[|posted|-1], chunk, total))
    && forall i :: 0 <= i < |posted| - 1 ==> GoesOn(post, posted[i], chunk, total) == Some(posted[i+1])
  }

  lemma FollowsOneMore(post: int -> Reply, posted: seq<int>, chunk: int, total: int, o: int)
    requires FollowsReplies(post, posted, chunk, total, Some(o))
    ensures FollowsReplies(post, posted + [o], chunk, total, GoesOn(post, o, chunk, total))
  {}

  lemma FollowsFirst(post: int -> Reply, chunk: int, total: int)
    ensures FollowsReplies(post, [], chunk, total, if total > 0 then Some(0) else None)
  {}

  /** Walks one part of the manifest in chunks. The walk ends whatever the replies
      and each call goes further than the last; against a service that goes on where
      its chunk ended, failed calls included, it posts exactly the consecutive
      chunks of the part. */
  method IngestChunks(post: int -> Reply, total: int, chunk: int) returns (posted: seq<int>)
    requires chunk > 0
    ensures StrictlyAscending(posted) && forall i :: 0 <= i < |posted| ==> 0 <= posted[i] < total
    ensures FollowsReplies(post, posted, chunk, total, None)
    ensures AllHonest(post, chunk, total) ==> posted == Offsets(0, total, chunk)
  {
    hide FollowsReplies;
    posted := [];
    var offset := 0;
    FollowsFirst(post, chunk, total);
    while offset < total
      invariant 0 <= offset && StrictlyAscending(posted)
      invariant FollowsReplies(post, posted, chunk, total, if offset < total then Some(offset) else None)
      invariant forall i :: 0 <= i < |posted| ==> 0 <= posted[i] < total && posted[i] < offset
      invariant AllHonest(post, chunk, total) ==> posted + Offsets(offset, total, chunk) == Offsets(0, total, chunk)
      decreases total - offset
    {
      assert AllHonest(post, chunk, total) ==> HonestAt(post, offset, chunk, total);
      PostedNext(posted, offset, total, chunk);
      FollowsOneMore(post, posted, chunk, total, offset);
      posted := posted + [offset];
      match post(offset) {
        case CallFailed =>
          offset := offset + chunk;
        case Report(next) =>
          offset := if next.Some? && next.value > offset then next.value else total;
      }
    }
  }
}
