/** The point-in-time read of a revisable series: for each reference period, the
    newest vintage that was already available at the cutoff.

    Periods are day numbers, availability is an instant. A row carries the fields
    the selection reads and one value that only travels with it. */
module PointInTime {
  import opened Tallies
  import opened Wrappers
  import opened DateSets
  import opened CursorPages

  datatype Obs = Obs(period: int, availableAt: int, vintage: int, isProjection: bool, value: real)

  predicate Eligible(r: Obs, asOf: int, includeProjections: bool) {
    r.availableAt <= asOf && (includeProjections || !r.isProjection)
  }

  /** `a` supersedes `b` for the same period. */
  predicate NewerVintage(a: Obs, b: Obs) {
    if a.availableAt != b.availableAt then a.availableAt > b.availableAt else a.vintage > b.vintage
  }

  /** The table's unique constraint: one row per period and vintage. */
  ghost predicate DistinctVintages(rows: seq<Obs>) {
    forall i, j :: 0 <= i < j < |rows| ==> rows[i].period != rows[j].period || rows[i].vintage != rows[j].vintage
  }

  ghost predicate Candidate(rows: seq<Obs>, r: Obs, asOf: int, includeProjections: bool) {
    r in rows && Eligible(r, asOf, includeProjections)
  }

  /** No candidate supersedes `r` for its period. */
  ghost predicate Best(rows: seq<Obs>, r: Obs, asOf: int, includeProjections: bool) {
    && Candidate(rows, r, asOf, includeProjections)
    && forall x :: Candidate(rows, x, asOf, includeProjections) && x.period == r.period ==> !NewerVintage(x, r)
  }

  ghost function Period(): Obs -> int { (r: Obs) => r.period }

  ghost predicate DescendingPeriods(list: seq<Obs>) {
    forall i, j :: 0 <= i < j < |list| ==> list[i].period > list[j].period
  }

  ghost predicate HasPeriod(list: seq<Obs>, period: int) { exists v :: v in list && v.period == period }

  /** The point-in-time view: newest period first, one row for every period with a
      candidate, and that row the best. */
  ghost predicate IsView(rows: seq<Obs>, asOf: int, includeProjections: bool, view: seq<Obs>) {
    && DescendingPeriods(view)
    && (forall r :: r in view ==> Best(rows, r, asOf, includeProjections))
    && (forall r :: Candidate(rows, r, asOf, includeProjections) ==> HasPeriod(view, r.period))
  }

  // ---------------------------------------------------------------- the reduction

  /** Sorts by period, newest first. With one row per period the order is the only
      one the source's comparison allows, whatever sort it calls. */
  function InsertByPeriod(r: Obs, s: seq<Obs>): seq<Obs> {
    if s == [] || r.period > s[0].period then [r] + s else [s[0]] + InsertByPeriod(r, s[1..])
  }

  lemma {:induction false} InsertKeepsDescending(r: Obs, s: seq<Obs>)
    requires forall i, j :: 0 <= i < j < |s| ==> s[i].period > s[j].period
    requires forall x :: x in s ==> x.period != r.period
    ensures var t := InsertByPeriod(r, s);
      && (forall i, j :: 0 <= i < j < |t| ==> t[i].period > t[j].period)
      && (forall x :: x in t <==> x == r || x in s)
    decreases s
  {
    if s != [] && r.period < s[0].period {
      InsertKeepsDescending(r, s[1..]);
      var rest := InsertByPeriod(r, s[1..]);
      forall j | 0 <= j < |rest| ensures s[0].period > rest[j].period { assert rest[j] in rest; }
      assert forall x :: x in s <==> x == s[0] || x in s[1..];
    } else if s != [] {
      assert s[0] in s;
    }
  }

  /** After the first `i` rows the map holds the best of them for each period. */
  ghost predicate BestSoFar(rows: seq<Obs>, i: nat, asOf: int, includeProjections: bool, best: map<int, Obs>) {
    && i <= |rows|
    && (forall p :: p in best ==> best[p].period == p && Best(rows[..i], best[p], asOf, includeProjections))
    && (forall r :: Candidate(rows[..i], r, asOf, includeProjections) ==> r.period in best)
  }

  lemma BestStep(rows: seq<Obs>, i: nat, asOf: int, includeProjections: bool, best: map<int, Obs>)
    requires i < |rows| && BestSoFar(rows, i, asOf, includeProjections, best)
    ensures var r := rows[i];
      BestSoFar(rows, i + 1, asOf, includeProjections,
        if Eligible(r, asOf, includeProjections) && (r.period !in best || NewerVintage(r, best[r.period])) then
          best[r.period := r] else best)
  {
    assert forall x :: x in rows[..i+1] <==> x in rows[..i] || x == rows[i];
  }

  /** Keeps, per period, the row a later one does not supersede, then lists them.
      The map is ranged over in an arbitrary order. */
  method ApplyPointInTime(rows: seq<Obs>, asOf: int, includeProjections: bool) returns (out: seq<Obs>)
    ensures IsView(rows, asOf, includeProjections, out)
    ensures forall i, j :: 0 <= i < j < |out| ==> out[i].period > out[j].period
    ensures forall r :: r in out ==> r in rows && Known(r, asOf, includeProjections)
    ensures forall x :: x in rows && Known(x, asOf, includeProjections) ==> HasPeriod(out, x.period)
    ensures forall r :: r in out ==> forall x ::
                x in rows && x.period == r.period && Known(x, asOf, includeProjections) ==> AtLeastAsNew(r, x)
  {
    var best: map<int, Obs> := map[];
    for i := 0 to |rows|
      invariant BestSoFar(rows, i, asOf, includeProjections, best)
    {
      BestStep(rows, i, asOf, includeProjections, best);
      var r := rows[i];
      if r.availableAt > asOf {
        continue;
      }
      if r.isProjection && !includeProjections {
        continue;
      }
      if r.period !in best || NewerVintage(r, best[r.period]) {
        best := best[r.period := r];
      }
    }
    assert rows[..|rows|] == rows;
    out := [];
    var todo := best.Keys;
    while todo != {}
      invariant todo <= best.Keys
      invariant forall i, j :: 0 <= i < j < |out| ==> out[i].period > out[j].period
      invariant forall r :: r in out <==> r.period in best && r.period !in todo && best[r.period] == r
      decreases todo
    {
      assert (forall d :: d !in todo) ==> todo == {};
      var p :| p in todo;
      InsertKeepsDescending(best[p], out);
      out := InsertByPeriod(best[p], out);
      todo := todo - {p};
    }
    forall r | Candidate(rows, r, asOf, includeProjections) ensures HasPeriod(out, r.period) {
      assert best[r.period] in out;
    }
    ViewOnRows(rows, asOf, includeProjections, out);
  }

  /** Known at the cutoff, and actual unless projections are asked for. */
  predicate Known(x: Obs, asOf: int, includeProjections: bool) {
    x.availableAt <= asOf && (includeProjections || !x.isProjection)
  }

  predicate AtLeastAsNew(r: Obs, x: Obs) {
    x.availableAt < r.availableAt || (x.availableAt == r.availableAt && x.vintage <= r.vintage)
  }

  lemma BestIsNewest(rows: seq<Obs>, asOf: int, includeProjections: bool, r: Obs)
    requires Best(rows, r, asOf, includeProjections)
    ensures r in rows && Known(r, asOf, includeProjections)
    ensures forall x :: x in rows && x.period == r.period && Known(x, asOf, includeProjections) ==> AtLeastAsNew(r, x)
  {
    forall x | x in rows && x.period == r.period && Known(x, asOf, includeProjections) ensures AtLeastAsNew(r, x) {
      assert Candidate(rows, x, asOf, includeProjections);
    }
  }

  /** The view read off the rows: every known period once, newest period first, by its
      newest row. */
  lemma ViewOnRows(rows: seq<Obs>, asOf: int, includeProjections: bool, view: seq<Obs>)
    requires IsView(rows, asOf, includeProjections, view)
    ensures forall i, j :: 0 <= i < j < |view| ==> view[i].period > view[j].period
    ensures forall r :: r in view ==> r in rows && Known(r, asOf, includeProjections)
    ensures forall x :: x in rows && Known(x, asOf, includeProjections) ==> HasPeriod(view, x.period)
    ensures forall r :: r in view ==> forall x ::
                x in rows && x.period == r.period && Known(x, asOf, includeProjections) ==> AtLeastAsNew(r, x)
  {
    hide Best, Known, AtLeastAsNew, HasPeriod;
    forall r | r in view
      ensures r in rows && Known(r, asOf, includeProjections)
      ensures forall x ::
          x in rows && x.period == r.period && Known(x, asOf, includeProjections) ==> AtLeastAsNew(r, x)
    {
      BestIsNewest(rows, asOf, includeProjections, r);
    }
    forall x | x in rows && Known(x, asOf, includeProjections) ensures HasPeriod(view, x.period) {
      KnownIsCandidate(rows, x, asOf, includeProjections);
    }
  }

  lemma KnownIsCandidate(rows: seq<Obs>, x: Obs, asOf: int, includeProjections: bool)
    requires x in rows && Known(x, asOf, includeProjections)
    ensures Candidate(rows, x, asOf, includeProjections)
  {}

  // ---------------------------------------------------------------- what the view is

  lemma SameRow(rows: seq<Obs>, a: Obs, b: Obs)
    requires DistinctVintages(rows) && a in rows && b in rows && a.period == b.period
    requires !NewerVintage(a, b) && !NewerVintage(b, a)
    ensures a == b
  {
    var i :| 0 <= i < |rows| && rows[i] == a;
    var j :| 0 <= j < |rows| && rows[j] == b;
  }

  lemma ViewMembers(rows: seq<Obs>, asOf: int, includeProjections: bool, a: seq<Obs>, b: seq<Obs>, r: Obs)
    requires DistinctVintages(rows) && IsView(rows, asOf, includeProjections, a)
        && IsView(rows, asOf, includeProjections, b)
    requires r in a
    ensures r in b
  {
    assert Best(rows, r, asOf, includeProjections);
    assert HasPeriod(b, r.period);
    var v :| v in b && v.period == r.period;
    assert Best(rows, v, asOf, includeProjections);
    SameRow(rows, r, v);
  }

  lemma {:induction false} DescendingListsAgree(a: seq<Obs>, b: seq<Obs>)
    requires forall i, j :: 0 <= i < j < |a| ==> a[i].period > a[j].period
    requires forall i, j :: 0 <= i < j < |b| ==> b[i].period > b[j].period
    requires forall r :: r in a <==> r in b
    ensures a == b
    decreases a
  {
    if a != [] {
      FirstIsShared(a, b);
      forall r ensures r in a[1..] <==> r in b[1..] {
        assert r in a[1..] <==> r in a && r != a[0];
        assert r in b[1..] <==> r in b && r != b[0];
      }
      DescendingListsAgree(a[1..], b[1..]);
    } else if b != [] {
      FirstIsShared(b, a);
    }
  }

  lemma FirstIsShared(a: seq<Obs>, b: seq<Obs>)
    requires a != [] && forall r :: r in a <==> r in b
    ensures b != [] && a[0] in b && b[0] in a
  {
    var x := a[0];
    assert x in a && x in b;
    var y := b[0];
    assert y in b;
  }

  /** The view depends on which rows there are, not on how they are ordered, and on
      nothing the reduction leaves open. */
  lemma ViewIsUnique(rows: seq<Obs>, shuffled: seq<Obs>, asOf: int, includeProjections: bool, a: seq<Obs>, b: seq<Obs>)
    requires DistinctVintages(rows) && forall r :: r in rows <==> r in shuffled
    requires IsView(rows, asOf, includeProjections, a) && IsView(shuffled, asOf, includeProjections, b)
    ensures a == b
  {
    assert forall r ::
        Candidate(rows, r, asOf, includeProjections) <==> Candidate(shuffled, r, asOf, includeProjections);
    assert IsView(rows, asOf, includeProjections, b);
    forall r ensures r in a <==> r in b {
      if r in a { ViewMembers(rows, asOf, includeProjections, a, b, r); }
      if r in b { ViewMembers(rows, asOf, includeProjections, b, a, r); }
    }
    DescendingListsAgree(a, b);
  }

  /** No look-ahead: rows that became available after the cutoff, any number of
      them and wherever they stand, change nothing. */
  lemma LateRowsAreInvisible(rows: seq<Obs>, withLate: seq<Obs>, asOf: int, includeProjections: bool, view: seq<Obs>)
    requires forall r: Obs :: r.availableAt <= asOf ==> (r in rows <==> r in withLate)
    ensures IsView(rows, asOf, includeProjections, view) <==> IsView(withLate, asOf, includeProjections, view)
  {
    assert forall r ::
        Candidate(rows, r, asOf, includeProjections) <==> Candidate(withLate, r, asOf, includeProjections);
  }

  /** A list with one eligible row per period is its own view. */
  lemma ReducedListIsFixed(list: seq<Obs>, asOf: int, includeProjections: bool)
    requires DescendingPeriods(list) && forall i :: 0 <= i < |list| ==> Eligible(list[i], asOf, includeProjections)
    ensures IsView(list, asOf, includeProjections, list)
  {
    forall r, x | r in list && x in list && x.period == r.period ensures x == r {
      var i :| 0 <= i < |list| && list[i] == r;
      var j :| 0 <= j < |list| && list[j] == x;
      assert i == j;
    }
  }

  /** A list that is its own view has no other. */
  lemma OwnViewIsOnly(list: seq<Obs>, asOf: int, includeProjections: bool, again: seq<Obs>)
    requires IsView(list, asOf, includeProjections, list) && IsView(list, asOf, includeProjections, again)
    ensures again == list
  {
    forall r | r in list ensures r in again {
      assert Best(list, r, asOf, includeProjections) && HasPeriod(again, r.period);
      var v :| v in again && v.period == r.period;
      assert Best(list, v, asOf, includeProjections);
      SamePeriodSameRow(list, r, v);
    }
    forall r | r in again ensures r in list { assert Best(list, r, asOf, includeProjections); }
    DescendingListsAgree(list, again);
  }

  /** Reducing a page that is already reduced gives it back: the statement's answer
      passes through the second reduction unchanged. */
  lemma ReducedPageIsFixed(rows: seq<Obs>, asOf: int, includeProjections: bool, view: seq<Obs>, n: nat)
    requires IsView(rows, asOf, includeProjections, view)
    ensures IsView(Take(view, n), asOf, includeProjections, Take(view, n))
    ensures forall again :: IsView(Take(view, n), asOf, includeProjections, again) ==> again == Take(view, n)
  {
    var page := Take(view, n);
    forall i | 0 <= i < |page| ensures Eligible(page[i], asOf, includeProjections) {
      assert view[i] in view && Best(rows, view[i], asOf, includeProjections);
    }
    ReducedListIsFixed(page, asOf, includeProjections);
    forall again | IsView(page, asOf, includeProjections, again) ensures again == page {
      OwnViewIsOnly(page, asOf, includeProjections, again);
    }
  }

  lemma SamePeriodSameRow(list: seq<Obs>, r: Obs, x: Obs)
    requires DescendingPeriods(list) && r in list && x in list && r.period == x.period
    ensures r == x
  {
    var i :| 0 <= i < |list| && list[i] == r;
    var j :| 0 <= j < |list| && list[j] == x;
    assert i == j;
  }

  // ---------------------------------------------------------------- serving a page

  /** A validated request: the parser has bounded the limit and ordered the window. */
  datatype Query = Query(asOf: int, from: Option<int>, to: Option<int>, limit: nat, includeProjections: bool)

  /** One period more than the page carries, so that the statement itself proves
      whether older periods exist. */
  function FetchLimit(q: Query): nat { if q.limit < 1 then 1 else q.limit + 1 }

  predicate InWindow(q: Query, before: Option<int>, period: int) {
    && (q.from.None? || period >= q.from.value) && (q.to.None? || period <= q.to.value)
    && BeforeCursor(period, before)
  }

  /** The rows of the series the statement's window admits. */
  function Where(db: seq<Obs>, q: Query, before: Option<int>): (r: seq<Obs>)
    ensures forall x :: x in r <==> x in db && InWindow(q, before, x.period)
  {
    if db == [] then []
    else (if InWindow(q, before, db[0].period) then [db[0]] else []) + Where(db[1..], q, before)
  }

  ghost predicate IsViewBefore(db: seq<Obs>, q: Query, before: Option<int>, view: seq<Obs>) {
    IsView(Where(db, q, before), q.asOf, q.includeProjections, view)
  }

  /** Restricting the rows to some periods restricts the view to them. */
  lemma RestrictedView(rows: seq<Obs>, some: seq<Obs>, view: seq<Obs>, part: seq<Obs>, asOf: int,
                       includeProjections: bool, keep: int -> bool)
    requires IsView(rows, asOf, includeProjections, view) && DescendingPeriods(part)
    requires forall r: Obs :: r in some <==> r in rows && keep(r.period)
    requires forall r: Obs :: r in part <==> r in view && keep(r.period)
    ensures IsView(some, asOf, includeProjections, part)
  {
    forall r | r in part ensures Best(some, r, asOf, includeProjections) {
      assert Best(rows, r, asOf, includeProjections);
      forall x | Candidate(some, x, asOf, includeProjections) && x.period == r.period ensures !NewerVintage(x, r) {
        assert Candidate(rows, x, asOf, includeProjections);
      }
    }
    forall r | Candidate(some, r, asOf, includeProjections) ensures HasPeriod(part, r.period) {
      assert Candidate(rows, r, asOf, includeProjections) && HasPeriod(view, r.period);
      var v :| v in view && v.period == r.period;
      assert v in part;
    }
  }

  /** A cursor selects a stretch of the full view: the best row of a period does not
      depend on where the page starts. */
  lemma OlderIsViewBefore(db: seq<Obs>, q: Query, before: Option<int>, view: seq<Obs>)
    requires IsViewBefore(db, q, None, view)
    ensures IsViewBefore(db, q, before, Older(view, Period(), before))
  {
    OlderMembers(view, Period(), before);
    RestrictedView(Where(db, q, None), Where(db, q, before), view, Older(view, Period(), before),
                   q.asOf, q.includeProjections, p => BeforeCursor(p, before));
  }

  lemma DistinctWhere(db: seq<Obs>, q: Query, before: Option<int>)
    requires DistinctVintages(db)
    ensures DistinctVintages(Where(db, q, before))
  {
    if db != [] {
      DistinctWhere(db[1..], q, before);
      var rest := Where(db[1..], q, before);
      forall j | 0 <= j < |rest| ensures rest[j].period != db[0].period || rest[j].vintage != db[0].vintage {
        assert rest[j] in db[1..];
      }
    }
  }

  /** The statement: per period of the window the newest available row, newest
      period first, at most one more than the page carries. */
  method SelectObservations(db: seq<Obs>, q: Query, before: Option<int>) returns (answer: seq<Obs>)
    ensures exists view :: IsViewBefore(db, q, before, view) && answer == Take(view, FetchLimit(q))
    ensures IsView(answer, q.asOf, q.includeProjections, answer)
  {
    var view := ApplyPointInTime(Where(db, q, before), q.asOf, q.includeProjections);
    ReducedPageIsFixed(Where(db, q, before), q.asOf, q.includeProjections, view, FetchLimit(q));
    answer := Take(view, FetchLimit(q));
  }

  datatype Response = Response(page: Page<Obs>, vintagesUsed: seq<int>, projectionsInPage: nat, count: nat)

  function Projections(items: seq<Obs>): nat {
    if items == [] then 0 else Projections(items[..|items|-1]) + (if items[|items|-1].isProjection then 1 else 0)
  }

  function Vintages(items: seq<Obs>): set<int> {
    if items == [] then {} else Vintages(items[..|items|-1]) + {items[|items|-1].vintage}
  }

  lemma {:induction false} VintagesAreServed(items: seq<Obs>)
    ensures Vintages(items) == set x | x in items :: x.vintage
    decreases items
  {
    if items != [] {
      VintagesAreServed(items[..|items|-1]);
      assert items == items[..|items|-1] + [items[|items|-1]];
    }
  }

  /** Walks the selected rows backwards, so that they come out oldest first. */
  method Render(selected: seq<Obs>) returns (items: seq<Obs>, seen: set<int>, projections: nat)
    ensures items == Reversed(selected) && projections == Projections(items)
    ensures seen == Vintages(items)
  {
    hide Vintages, Projections, Reversed;
    items, seen, projections := [], {}, 0;
    NothingRendered(selected);
    for i := |selected| downto 0
      invariant items == Reversed(selected[i..])
      invariant seen == Vintages(items)
      invariant projections == Projections(items)
    {
      var row := selected[i];
      if row.isProjection {
        projections := projections + 1;
      }
      seen := seen + {row.vintage};
      OneRowOlder(selected, i);
      OneRowServed(items, row);
      items := items + [row];
    }
    assert selected[0..] == selected;
  }

  lemma NothingRendered(selected: seq<Obs>)
    ensures Reversed(selected[|selected|..]) == [] && Vintages([]) == {} && Projections([]) == 0
  {}

  lemma OneRowOlder(selected: seq<Obs>, i: nat)
    requires i < |selected|
    ensures Reversed(selected[i..]) == Reversed(selected[i+1..]) + [selected[i]]
  {
    assert selected[i..][1..] == selected[i+1..];
  }

  lemma OneRowServed(items: seq<Obs>, row: Obs)
    ensures Vintages(items + [row]) == Vintages(items) + {row.vintage}
    ensures Projections(items + [row]) == Projections(items) + if row.isProjection then 1 else 0
  {
    assert (items + [row])[..|items|] == items;
  }

  /** Cuts the page off the view: its newest periods, the extra one only counted. */
  method BuildPage(view: seq<Obs>, limit: nat) returns (page: Page<Obs>, seen: set<int>, projections: nat)
    ensures page == PageOf(view, Period(), limit)
    ensures seen == Vintages(page.items) && projections == Projections(page.items)
  {
    var selected, hasMore := view, false;
    if |selected| > limit {
      selected, hasMore := selected[..limit], true;
    }
    var next := if hasMore && selected != [] then Some(selected[|selected|-1].period) else None;
    assert selected == Take(view, limit);
    var items;
    items, seen, projections := Render(selected);
    page := Page(items, hasMore, next);
  }

  lemma CursorIsServedPeriod(rows: seq<Obs>, asOf: int, includeProjections: bool, view: seq<Obs>, limit: nat)
    requires IsView(rows, asOf, includeProjections, view)
    ensures var next := PageOf(view, Period(), limit).nextBefore;
      next.Some? ==> exists x :: x in rows && x.period == next.value
  {
    if |view| > limit && limit > 0 {
      var x := Take(view, limit)[limit-1];
      assert Period()(x) == x.period;
      assert x in view && Best(rows, x, asOf, includeProjections);
      assert x in rows && PageOf(view, Period(), limit).nextBefore == Some(x.period);
    }
  }

  /** How many of the rows are projections. */
  lemma {:induction false} ProjectionsAreCounted(items: seq<Obs>)
    ensures Projections(items) == Tally(items, (x: Obs) => x.isProjection)
  {
    if items != [] {
      var front, last := items[..|items|-1], items[|items|-1];
      ProjectionsAreCounted(front);
      TallyAppend(front, last, (x: Obs) => x.isProjection);
      assert items == front + [last];
    }
  }

  /** What a response says beside its page: how many rows it has, how many of them are
      projections, and exactly their vintages, ascending. */
  ghost predicate NamesItsRows(r: Response) {
    && r.count == |r.page.items|
    && r.projectionsInPage == Tally(r.page.items, (x: Obs) => x.isProjection)
    && StrictlyAscending(r.vintagesUsed)
    && (set v | v in r.vintagesUsed) == set x | x in r.page.items :: x.vintage
  }

  /** Renders a page: the newest `limit` periods of the answer, oldest first. */
  method BuildResponse(answer: seq<Obs>, q: Query) returns (r: Response)
    ensures exists view ::
        IsView(answer, q.asOf, q.includeProjections, view) && r.page == PageOf(view, Period(), q.limit)
    ensures IsView(answer, q.asOf, q.includeProjections, answer) ==> r.page == PageOf(answer, Period(), q.limit)
    ensures NamesItsRows(r)
  {
    hide Projections;
    var view := ApplyPointInTime(answer, q.asOf, q.includeProjections);
    var page, seen, projections := BuildPage(view, q.limit);
    VintagesAreServed(page.items);
    if IsView(answer, q.asOf, q.includeProjections, answer) {
      OwnViewIsOnly(answer, q.asOf, q.includeProjections, view);
    }
    ProjectionsAreCounted(page.items);
    r := Response(page, Ascending(seen), projections, |page.items|);
  }

  // ---------------------------------------------------------------- requests and walks

  /** A stored row the request admits: inside its window, before its cursor, known at its
      cutoff, and actual unless projections are asked for. */
  predicate Admitted(db: seq<Obs>, q: Query, before: Option<int>, x: Obs) {
    && x in db
    && (q.from.None? || q.from.value <= x.period) && (q.to.None? || x.period <= q.to.value)
    && (before.None? || x.period < before.value)
    && Known(x, q.asOf, q.includeProjections)
  }

  /** Of the admitted rows, `r` is its period's newest. */
  ghost predicate NewestAdmitted(db: seq<Obs>, q: Query, before: Option<int>, r: Obs) {
    && Admitted(db, q, before, r)
    && forall x :: Admitted(db, q, before, x) && x.period == r.period ==> AtLeastAsNew(r, x)
  }

  /** The newest `limit` admitted periods, oldest first, each with its newest row; more
      exactly when an older period is admitted; and then the page's oldest as cursor. */
  ghost predicate IsPageOfRows(db: seq<Obs>, q: Query, before: Option<int>, page: Page<Obs>) {
    && |page.items| <= q.limit
    && (forall i, j :: 0 <= i < j < |page.items| ==> page.items[i].period < page.items[j].period)
    && (forall r :: r in page.items ==> NewestAdmitted(db, q, before, r))
    && (forall x :: Admitted(db, q, before, x) ==>
          || HasPeriod(page.items, x.period)
          || (|page.items| == q.limit && page.items != [] && x.period < page.items[0].period))
    && (page.hasMore <==>
          page.items != [] && exists x :: Admitted(db, q, before, x) && x.period < page.items[0].period)
    && page.nextBefore == if page.hasMore then Some(page.items[0].period) else None
  }

  lemma AdmittedIsWhere(db: seq<Obs>, q: Query, before: Option<int>, x: Obs)
    ensures Admitted(db, q, before, x) <==> x in Where(db, q, before) && Known(x, q.asOf, q.includeProjections)
  {}

  lemma {:induction false} ReversedMembers(s: seq<Obs>)
    ensures forall x :: x in Reversed(s) <==> x in s
  {
    if s != [] {
      ReversedMembers(s[1..]);
      assert s == [s[0]] + s[1..];
    }
  }

  lemma PageIsOfRows(db: seq<Obs>, q: Query, before: Option<int>, view: seq<Obs>)
    requires IsViewBefore(db, q, before, view) && q.limit >= 1
    ensures IsPageOfRows(db, q, before, PageOf(view, Period(), q.limit))
  {
    hide IsView, Where, Known, AtLeastAsNew, HasPeriod, IsPageOfRows;
    ViewOnRows(Where(db, q, before), q.asOf, q.includeProjections, view);
    forall x
      ensures Admitted(db, q, before, x) <==> x in Where(db, q, before) && Known(x, q.asOf, q.includeProjections)
    {
      AdmittedIsWhere(db, q, before, x);
    }
    hide Admitted;
    CutIsOfRows(db, q, before, view);
  }

  /** A period of the view that a page leaves out is older than the page. */
  lemma LeftOutIsOlder(view: seq<Obs>, limit: nat, period: int)
    requires limit >= 1 && HasPeriod(view, period)
    requires forall i, j :: 0 <= i < j < |view| ==> view[i].period > view[j].period
    ensures var items := PageOf(view, Period(), limit).items;
      HasPeriod(items, period) || (|items| == limit && items != [] && period < items[0].period)
  {
    var kept := Take(view, limit);
    ReversedMembers(kept);
    OldestOfPage(view, limit);
    var r :| r in view && r.period == period;
    var i :| 0 <= i < |view| && view[i] == r;
    if i < |kept| { assert kept[i] in kept; }
  }

  lemma CutIsOfRows(db: seq<Obs>, q: Query, before: Option<int>, view: seq<Obs>)
    requires q.limit >= 1 && forall i, j :: 0 <= i < j < |view| ==> view[i].period > view[j].period
    requires forall r :: r in view ==> NewestAdmitted(db, q, before, r)
    requires forall x :: Admitted(db, q, before, x) ==> HasPeriod(view, x.period)
    ensures IsPageOfRows(db, q, before, PageOf(view, Period(), q.limit))
  {
    hide Admitted, NewestAdmitted;
    var kept, page := Take(view, q.limit), PageOf(view, Period(), q.limit);
    ReversedMembers(kept);
    forall i | 0 <= i < |kept| ensures page.items[i] == kept[|kept|-1-i] { ReversedAt(kept, i); }
    OldestOfPage(view, q.limit);
    forall x | Admitted(db, q, before, x)
      ensures || HasPeriod(page.items, x.period)
              || (|page.items| == q.limit && page.items != [] && x.period < page.items[0].period)
    {
      LeftOutIsOlder(view, q.limit, x.period);
    }
    if |view| > q.limit {
      var x := view[q.limit];
      assert x in view && NewestAdmitted(db, q, before, x);
      NewestIsAdmitted(db, q, before, x);
    }
  }

  lemma NewestIsAdmitted(db: seq<Obs>, q: Query, before: Option<int>, r: Obs)
    requires NewestAdmitted(db, q, before, r)
    ensures Admitted(db, q, before, r)
  {}

  /** One request, as the handler serves it: the statement's answer, rendered. With
      the view fixed by the cutoff, the page is the stretch of it behind the cursor. */
  method Observations(db: seq<Obs>, q: Query, before: Option<int>) returns (r: Response)
    requires DistinctVintages(db) && q.limit >= 1
    ensures forall view ::
        IsViewBefore(db, q, None, view) ==> r.page == PageOf(Older(view, Period(), before), Period(), q.limit)
    ensures r.page.nextBefore.Some? ==>
      BeforeCursor(r.page.nextBefore.value, before) && exists x :: x in db && x.period == r.page.nextBefore.value
    ensures IsPageOfRows(db, q, before, r.page) && NamesItsRows(r)
  {
    hide Older, Period, IsView, IsViewBefore, Take, PageOf, Projections, IsPageOfRows, NamesItsRows;
    var answer := SelectObservations(db, q, before);
    r := BuildResponse(answer, q);
    ghost var mine :| IsViewBefore(db, q, before, mine) && answer == Take(mine, FetchLimit(q));
    PageBehindCursor(db, q, before, mine);
    PageIsOfRows(db, q, before, mine);
  }

  /** What the fetched rows are cut to is the page of the view behind the cursor. */
  lemma PageBehindCursor(db: seq<Obs>, q: Query, before: Option<int>, mine: seq<Obs>)
    requires DistinctVintages(db) && q.limit >= 1 && IsViewBefore(db, q, before, mine)
    ensures var page := PageOf(Take(mine, FetchLimit(q)), Period(), q.limit);
      && (forall view ::
        IsViewBefore(db, q, None, view) ==> page == PageOf(Older(view, Period(), before), Period(), q.limit))
      && (page.nextBefore.Some? ==>
            BeforeCursor(page.nextBefore.value, before) && exists x :: x in db && x.period == page.nextBefore.value)
      && page == PageOf(mine, Period(), q.limit)
  {
    hide Older, Period, IsView;
    OneExtraIsEnough(mine, Period(), q.limit);
    ViewBehindCursor(db, q, before, mine);
    CursorIsServedPeriod(Where(db, q, before), q.asOf, q.includeProjections, mine, q.limit);
  }

  lemma ViewBehindCursor(db: seq<Obs>, q: Query, before: Option<int>, mine: seq<Obs>)
    requires DistinctVintages(db) && IsViewBefore(db, q, before, mine)
    ensures forall view :: IsViewBefore(db, q, None, view) ==> Older(view, Period(), before) == mine
  {
    forall view | IsViewBefore(db, q, None, view) ensures mine == Older(view, Period(), before) {
      OlderIsViewBefore(db, q, before, view);
      DistinctWhere(db, q, before);
      ViewIsUnique(Where(db, q, before), Where(db, q, before), q.asOf, q.includeProjections, mine,
                   Older(view, Period(), before));
    }
  }

  /** How many periods of the series lie behind the cursor. */
  ghost function PeriodsBehind(db: seq<Obs>, before: Option<int>): nat {
    |set x | x in db && BeforeCursor(x.period, before) :: x.period|
  }

  lemma FewerPeriodsBehind(db: seq<Obs>, before: Option<int>, next: int)
    requires BeforeCursor(next, before) && exists x :: x in db && x.period == next
    ensures PeriodsBehind(db, Some(next)) < PeriodsBehind(db, before)
  {
    var x :| x in db && x.period == next;
    var behind := set x | x in db && BeforeCursor(x.period, before) :: x.period;
    var rest := set x | x in db && BeforeCursor(x.period, Some(next)) :: x.period;
    assert next in behind && next !in rest && rest <= behind - {next};
    assert behind == rest + (behind - rest) && next in behind - rest;
  }

  /** The whole series behind a cursor: every admitted period once, oldest first, each
      by its newest row. */
  ghost predicate IsSeriesOfRows(db: seq<Obs>, q: Query, before: Option<int>, all: seq<Obs>) {
    && (forall i, j :: 0 <= i < j < |all| ==> all[i].period < all[j].period)
    && (forall r :: r in all ==> NewestAdmitted(db, q, before, r))
    && (forall x :: Admitted(db, q, before, x) ==> HasPeriod(all, x.period))
  }

  lemma ReceivedOf(page: Page<Obs>, rest: seq<Page<Obs>>)
    ensures Received([page] + rest) == Received(rest) + page.items
  {
    assert ([page] + rest)[1..] == rest;
  }

  lemma LastPageIsAll(db: seq<Obs>, q: Query, before: Option<int>, page: Page<Obs>)
    requires q.limit >= 1 && IsPageOfRows(db, q, before, page) && page.nextBefore.None?
    ensures IsSeriesOfRows(db, q, before, page.items)
  {
    hide NewestAdmitted, Admitted, HasPeriod;
  }

  /** What is admitted behind a later cursor. */
  lemma AdmittedBehind(db: seq<Obs>, q: Query, before: Option<int>, next: int, x: Obs)
    requires before.None? || next < before.value
    ensures Admitted(db, q, Some(next), x) <==> Admitted(db, q, before, x) && x.period < next
    ensures NewestAdmitted(db, q, Some(next), x) ==> NewestAdmitted(db, q, before, x) && x.period < next
  {
    hide Known, AtLeastAsNew;
  }

  lemma OlderPagesJoin(db: seq<Obs>, q: Query, before: Option<int>, page: Page<Obs>, older: seq<Obs>)
    requires IsPageOfRows(db, q, before, page) && page.nextBefore.Some?
    requires before.None? || page.nextBefore.value < before.value
    requires IsSeriesOfRows(db, q, page.nextBefore, older)
    ensures IsSeriesOfRows(db, q, before, older + page.items)
  {
    hide NewestAdmitted, Admitted;
    var next, all := page.nextBefore.value, older + page.items;
    forall r | r in all ensures NewestAdmitted(db, q, before, r) {
      if r in older { AdmittedBehind(db, q, before, next, r); }
    }
    forall i, j | 0 <= i < j < |all| ensures all[i].period < all[j].period {
      if i < |older| <= j {
        assert older[i] in older;
        AdmittedBehind(db, q, before, next, older[i]);
      }
    }
    forall x | Admitted(db, q, before, x) ensures HasPeriod(all, x.period) {
      AdmittedBehind(db, q, before, next, x);
      if x.period < next {
        var r :| r in older && r.period == x.period;
        assert r in all;
      } else {
        var r :| r in page.items && r.period == x.period;
        assert r in all;
      }
    }
  }

  /** A client that asks again with `next_before` until there is none: it stops, and
      with the cutoff fixed it has received the whole view behind its first cursor,
      every period once and in order. */
  method FollowNextBefore(db: seq<Obs>, q: Query, before: Option<int>) returns (pages: seq<Page<Obs>>)
    requires DistinctVintages(db) && q.limit >= 1
    ensures forall view :: IsViewBefore(db, q, None, view) ==> IsWalk(view, Period(), q.limit, before, pages)
    ensures forall view ::
        IsViewBefore(db, q, None, view) ==> Received(pages) == Reversed(Older(view, Period(), before))
    ensures IsSeriesOfRows(db, q, before, Received(pages))
    decreases PeriodsBehind(db, before)
  {
    hide IsPageOfRows, IsSeriesOfRows;
    var r := Observations(db, q, before);
    pages := [r.page];
    if r.page.nextBefore.Some? {
      FewerPeriodsBehind(db, before, r.page.nextBefore.value);
      var rest := FollowNextBefore(db, q, r.page.nextBefore);
      OlderPagesJoin(db, q, before, r.page, Received(rest));
      ReceivedOf(r.page, rest);
      pages := pages + rest;
    } else {
      LastPageIsAll(db, q, before, r.page);
      ReceivedOf(r.page, []);
      assert pages == [r.page] + [] && Received([]) + r.page.items == r.page.items;
    }
    forall view | IsViewBefore(db, q, None, view)
      ensures IsWalk(view, Period(), q.limit, before, pages)
          && Received(pages) == Reversed(Older(view, Period(), before))
    {
      assert r.page.nextBefore.Some? ==> IsWalk(view, Period(), q.limit, r.page.nextBefore, pages[1..]);
      assert IsWalk(view, Period(), q.limit, before, pages);
      WalkReadsEverything(view, Period(), q.limit, before, pages);
    }
  }

  lemma OldestOfPage(list: seq<Obs>, limit: nat)
    requires limit >= 1
    ensures var page := PageOf(list, Period(), limit);
      && (page.items == [] <==> list == [])
      && (list != [] ==> page.items[0] == list[if |list| <= limit then |list| - 1 else limit - 1])
  {
    if list != [] { ReversedAt(Take(list, limit), 0); }
  }

  lemma NothingOlder(rows: seq<Obs>, asOf: int, includeProjections: bool, view: seq<Obs>, r: Obs)
    requires IsView(rows, asOf, includeProjections, view) && Candidate(rows, r, asOf, includeProjections)
    ensures view != [] && r.period >= view[|view|-1].period
  {
    hide Candidate, Best;
    assert HasPeriod(view, r.period);
    var v :| v in view && v.period == r.period;
    var i :| 0 <= i < |view| && view[i] == v;
  }

  lemma HasMoreOfView(rows: seq<Obs>, asOf: int, includeProjections: bool, view: seq<Obs>, limit: nat)
    requires IsView(rows, asOf, includeProjections, view) && limit >= 1
    ensures var page := PageOf(view, Period(), limit);
      page.hasMore <==> page.items != [] && exists r ::
        Candidate(rows, r, asOf, includeProjections) && r.period < page.items[0].period
  {
    OldestOfPage(view, limit);
    if |view| > limit {
      assert view[limit] in view && Best(rows, view[limit], asOf, includeProjections);
    } else {
      forall r | Candidate(rows, r, asOf, includeProjections)
        ensures view != [] && r.period >= view[|view|-1].period
      {
        NothingOlder(rows, asOf, includeProjections, view, r);
      }
    }
  }

  /** `has_more` is the truth about older periods, not about the page's length. */
  lemma HasMoreExactly(db: seq<Obs>, q: Query, before: Option<int>, view: seq<Obs>)
    requires IsViewBefore(db, q, None, view) && q.limit >= 1
    ensures var page := PageOf(Older(view, Period(), before), Period(), q.limit);
      page.hasMore <==> page.items != [] && exists r ::
        Candidate(Where(db, q, before), r, q.asOf, q.includeProjections) && r.period < page.items[0].period
  {
    OlderIsViewBefore(db, q, before, view);
    HasMoreOfView(Where(db, q, before), q.asOf, q.includeProjections, Older(view, Period(), before), q.limit);
  }
}
