/** The incremental fetch of one share's money-flow history, run again and again
    against a server that adds missing sessions and never overwrites one.

    Sessions are day numbers. `CheckClientTypes` and `TrimClientTypes` are the two
    decisions the script makes; `FetchRuns` composes them with the server. */
module FlowFetch {
  import opened Wrappers
  import opened DateSets

  datatype Row = Row(date: int, data: int)

  /** A row of the payload before it is checked; `recDate` is absent when the
      field is not a calendar date. */
  datatype RawRow = NotAnObject | Object(insCode: string, recDate: Option<int>, data: int)

  datatype FetchError = NotObject | WrongCode | BadDate | SessionTwice(date: int)

  function Dates(rows: seq<Row>): set<int> { set r | r in rows :: r.date }

  ghost predicate DistinctDates(rows: seq<Row>) {
    forall i, j :: 0 <= i < j < |rows| ==> rows[i].date != rows[j].date
  }

  // ---------------------------------------------------------------- checking a payload

  predicate Shaped(r: RawRow, insCode: string) { r.Object? && r.insCode == insCode && r.recDate.Some? }

  function ShapeError(r: RawRow, insCode: string): Option<FetchError> {
    if r.NotAnObject? then Some(NotObject)
    else if r.insCode != insCode then Some(WrongCode)
    else if r.recDate.None? then Some(BadDate)
    else None
  }

  function Checked(rows: seq<RawRow>, insCode: string): (r: seq<Row>)
    requires forall i :: 0 <= i < |rows| ==> Shaped(rows[i], insCode)
    ensures |r| == |rows|
  {
    seq(|rows|, i requires 0 <= i < |rows| && Shaped(rows[i], insCode) => Row(rows[i].recDate.value, rows[i].data))
  }

  /** On or after the floor, when there is one: the sessions a share ships. */
  predicate AtOrAbove(d: int, floor: Option<int>) { floor.None? || d >= floor.value }

  /** What is wrong with the row at `i`, given the ones before it: its shape, or a
      session already seen that would be shipped. */
  ghost predicate Fails(rows: seq<RawRow>, insCode: string, shipsFrom: Option<int>, i: int, e: FetchError)
    requires 0 <= i < |rows|
  {
    match e
    case NotObject => rows[i].NotAnObject?
    case WrongCode => rows[i].Object? && rows[i].insCode != insCode
    case BadDate => rows[i].Object? && rows[i].insCode == insCode && rows[i].recDate.None?
    case SessionTwice(d) =>
      && rows[i].Object? && rows[i].insCode == insCode && rows[i].recDate == Some(d)
      && (shipsFrom.Some? ==> d >= shipsFrom.value)
      && exists j :: 0 <= j < i && CarriesDate(rows[j], d)
  }

  function WithoutDates(rows: seq<Row>, dates: set<int>): (r: seq<Row>)
    ensures forall row :: row in r <==> row in rows && row.date !in dates
  {
    if rows == [] then []
    else (if rows[0].date in dates then [] else [rows[0]]) + WithoutDates(rows[1..], dates)
  }

  predicate CarriesDate(r: RawRow, d: int) { r.Object? && r.recDate == Some(d) }

  /** Two rows of the payload carry the date. */
  ghost predicate CarriedTwice(rows: seq<RawRow>, d: int) {
    exists i, j :: 0 <= i < j < |rows| && CarriesDate(rows[i], d) && CarriesDate(rows[j], d)
  }

  /** The row is one of the share's in the payload. */
  ghost predicate IsRowOf(rows: seq<RawRow>, insCode: string, row: Row) {
    Object(insCode, Some(row.date), row.data) in rows
  }

  lemma CheckedRows(rows: seq<RawRow>, insCode: string)
    requires AllShaped(rows, insCode)
    ensures forall row :: row in Checked(rows, insCode) <==> IsRowOf(rows, insCode, row)
  {
    var all := Checked(rows, insCode);
    forall row ensures row in all <==> IsRowOf(rows, insCode, row) {
      if row in all {
        var i :| 0 <= i < |all| && all[i] == row;
        assert rows[i] == Object(insCode, Some(row.date), row.data);
      }
      if IsRowOf(rows, insCode, row) {
        var i :| 0 <= i < |rows| && rows[i] == Object(insCode, Some(row.date), row.data);
        assert all[i] == row;
      }
    }
  }

  /** The dates `rows` carries more than once. */
  ghost predicate Repeated(rows: seq<Row>, d: int) {
    exists i, j :: 0 <= i < j < |rows| && rows[i].date == d && rows[j].date == d
  }

  lemma {:induction false} WithoutRepeatsIsDistinct(rows: seq<Row>, dates: set<int>)
    requires forall d :: Repeated(rows, d) ==> d in dates
    ensures DistinctDates(WithoutDates(rows, dates))
    decreases rows
  {
    if rows != [] {
      var rest, first := rows[1..], rows[0].date;
      forall d | Repeated(rest, d) ensures d in dates {
        var i, j :| 0 <= i < j < |rest| && rest[i].date == d && rest[j].date == d;
        assert rows[i+1].date == d && rows[j+1].date == d;
        assert Repeated(rows, d);
      }
      WithoutRepeatsIsDistinct(rest, dates);
      var kept := WithoutDates(rest, dates);
      forall k | 0 <= k < |kept| && rows[0].date !in dates ensures kept[k].date != rows[0].date {
        assert kept[k] in rest;
        var j :| 0 <= j < |rest| && rest[j] == kept[k];
        assert rows[j+1] == kept[k];
        assert rest[j].date == first ==> Repeated(rows, first);
      }
    }
  }

  /** The sessions among the first `i` rows, and those of them met before. */
  function Seen(rows: seq<RawRow>, i: nat): set<int>
    requires i <= |rows|
  {
    if i == 0 then {}
    else if rows[i-1].Object? && rows[i-1].recDate.Some? then Seen(rows, i - 1) + {rows[i-1].recDate.value}
    else Seen(rows, i - 1)
  }

  function SeenTwice(rows: seq<RawRow>, i: nat): set<int>
    requires i <= |rows|
  {
    if i == 0 then {}
    else if rows[i-1].Object? && rows[i-1].recDate.Some? && rows[i-1].recDate.value in Seen(rows, i - 1) then
      SeenTwice(rows, i - 1) + {rows[i-1].recDate.value}
    else SeenTwice(rows, i - 1)
  }

  lemma {:induction false} SeenIsEarlier(rows: seq<RawRow>, i: nat, d: int)
    requires i <= |rows|
    ensures d in Seen(rows, i) <==> exists j :: 0 <= j < i && CarriesDate(rows[j], d)
  {
    if i > 0 {
      SeenIsEarlier(rows, i - 1, d);
      assert CarriesDate(rows[i-1], d)
          <==> rows[i-1].Object? && rows[i-1].recDate.Some? && rows[i-1].recDate.value == d;
    }
  }

  lemma {:induction false} SeenTwiceIsRepeated(rows: seq<RawRow>, i: nat, d: int)
    requires i <= |rows|
    ensures d in SeenTwice(rows, i)
        <==> exists j, k :: 0 <= j < k < i && CarriesDate(rows[j], d) && CarriesDate(rows[k], d)
    ensures i == |rows| ==> (d in SeenTwice(rows, i) <==> CarriedTwice(rows, d))
  {
    if i > 0 {
      SeenTwiceIsRepeated(rows, i - 1, d);
      SeenIsEarlier(rows, i - 1, d);
      assert CarriesDate(rows[i-1], d)
          <==> rows[i-1].Object? && rows[i-1].recDate.Some? && rows[i-1].recDate.value == d;
    }
  }

  ghost predicate AllShaped(rows: seq<RawRow>, insCode: string) {
    forall i :: 0 <= i < |rows| ==> Shaped(rows[i], insCode)
  }

  lemma RepeatedInPayload(rows: seq<RawRow>, insCode: string)
    requires AllShaped(rows, insCode)
    ensures forall d :: d in SeenTwice(rows, |rows|) <==> Repeated(Checked(rows, insCode), d)
  {
    var all := Checked(rows, insCode);
    assert forall i, d :: 0 <= i < |rows| ==> (CarriesDate(rows[i], d) <==> all[i].date == d);
    forall d ensures d in SeenTwice(rows, |rows|) <==> Repeated(all, d) {
      SeenTwiceIsRepeated(rows, |rows|, d);
      if Repeated(all, d) {
        var j, k :| 0 <= j < k < |all| && all[j].date == d && all[k].date == d;
        assert CarriesDate(rows[j], d) && CarriesDate(rows[k], d);
      }
      if j, k :| 0 <= j < k < |rows| && CarriesDate(rows[j], d) && CarriesDate(rows[k], d) {
        assert all[j].date == d && all[k].date == d;
      }
    }
  }

  /** A payload is worth shipping: its rows are the share's and none of the sessions
      that would be shipped occurs twice. */
  ghost predicate Acceptable(rows: seq<RawRow>, insCode: string, shipsFrom: Option<int>) {
    && AllShaped(rows, insCode)
    && forall d :: CarriedTwice(rows, d) ==> shipsFrom.Some? && d < shipsFrom.value
  }

  /** What an accepted payload becomes: no session twice, and the sessions dropped,
      oldest first, are exactly the repeated ones. */
  ghost predicate CheckedResult(rows: seq<RawRow>, insCode: string, kept: seq<Row>, dropped: seq<int>) {
    && AllShaped(rows, insCode) && DistinctDates(kept) && StrictlyAscending(dropped)
    && (forall d :: d in dropped <==> CarriedTwice(rows, d))
    && (forall row :: row in kept <==> IsRowOf(rows, insCode, row) && row.date !in dropped)
  }

  /** The first row in error stops the check. */
  ghost predicate FirstError(rows: seq<RawRow>, insCode: string, shipsFrom: Option<int>, i: int, e: FetchError) {
    0 <= i < |rows| && Fails(rows, insCode, shipsFrom, i, e) && forall j :: 0 <= j < i ==> Shaped(rows[j], insCode)
  }

  lemma ShippedTwiceIsRefused(rows: seq<RawRow>, insCode: string, shipsFrom: Option<int>, i: nat)
    requires i < |rows| && Shaped(rows[i], insCode) && (forall j :: 0 <= j < i ==> Shaped(rows[j], insCode))
    requires rows[i].recDate.value in Seen(rows, i) && AtOrAbove(rows[i].recDate.value, shipsFrom)
    ensures FirstError(rows, insCode, shipsFrom, i, SessionTwice(rows[i].recDate.value))
    ensures !Acceptable(rows, insCode, shipsFrom)
  {
    hide Seen, AllShaped;
    SeenIsEarlier(rows, i, rows[i].recDate.value);
    var j :| 0 <= j < i && CarriesDate(rows[j], rows[i].recDate.value);
    assert CarriesDate(rows[i], rows[i].recDate.value);
    assert CarriedTwice(rows, rows[i].recDate.value);
  }

  lemma RepeatsAreDropped(rows: seq<RawRow>, insCode: string, shipsFrom: Option<int>, repeated: set<int>)
    requires AllShaped(rows, insCode) && repeated == SeenTwice(rows, |rows|)
    requires forall d :: d in repeated ==> !AtOrAbove(d, shipsFrom)
    ensures Acceptable(rows, insCode, shipsFrom)
    ensures CheckedResult(rows, insCode, WithoutDates(Checked(rows, insCode), repeated), Ascending(repeated))
  {
    hide SeenTwice, Shaped, Repeated, Checked, WithoutDates, CarriedTwice, IsRowOf;
    RepeatedInPayload(rows, insCode);
    CheckedRows(rows, insCode);
    forall d ensures d in repeated <==> CarriedTwice(rows, d) { SeenTwiceIsRepeated(rows, |rows|, d); }
    WithoutRepeatsIsDistinct(Checked(rows, insCode), repeated);
  }

  /** The shape checks of a downloaded payload: it is accepted exactly when it is
      acceptable, and otherwise the first row in error says why. */
  method CheckClientTypes(rows: seq<RawRow>, insCode: string, shipsFrom: Option<int>)
    returns (r: Result<(seq<Row>, seq<int>), FetchError>)
    ensures r.Ok? <==> Acceptable(rows, insCode, shipsFrom)
    ensures r.Ok? ==> CheckedResult(rows, insCode, r.value.0, r.value.1)
    ensures r.Err? ==> exists i :: FirstError(rows, insCode, shipsFrom, i, r.error)
  {
    var seen: set<int> := {};
    var repeated: set<int> := {};
    for i := 0 to |rows|
      invariant forall j :: 0 <= j < i ==> Shaped(rows[j], insCode)
      invariant seen == Seen(rows, i) && repeated == SeenTwice(rows, i)
      invariant forall d :: d in repeated ==> !AtOrAbove(d, shipsFrom)
    {
      var error := ShapeError(rows[i], insCode);
      if error.Some? {
        assert FirstError(rows, insCode, shipsFrom, i, error.value);
        assert !Shaped(rows[i], insCode);
        return Err(error.value);
      }
      var session := rows[i].recDate.value;
      if session in seen {
        if AtOrAbove(session, shipsFrom) {
          ShippedTwiceIsRefused(rows, insCode, shipsFrom, i);
          return Err(SessionTwice(session));
        }
        repeated := repeated + {session};
      }
      seen := seen + {session};
    }
    RepeatsAreDropped(rows, insCode, shipsFrom, repeated);
    return Ok((WithoutDates(Checked(rows, insCode), repeated), Ascending(repeated)));
  }

  // ---------------------------------------------------------------- trimming it

  /** Stable, oldest first: sorted() with the date as key. */
  function InsertByDate(r: Row, rows: seq<Row>): seq<Row> {
    if rows == [] || r.date <= rows[0].date then [r] + rows else [rows[0]] + InsertByDate(r, rows[1..])
  }

  function SortByDate(rows: seq<Row>): seq<Row> {
    if rows == [] then [] else InsertByDate(rows[0], SortByDate(rows[1..]))
  }

  ghost predicate Oldest1st(rows: seq<Row>) { forall i, j :: 0 <= i < j < |rows| ==> rows[i].date < rows[j].date }

  lemma {:induction false} InsertedMembers(r: Row, rows: seq<Row>)
    ensures forall x :: x in InsertByDate(r, rows) <==> x == r || x in rows
    decreases rows
  {
    if rows != [] && r.date > rows[0].date {
      InsertedMembers(r, rows[1..]);
      assert rows == [rows[0]] + rows[1..];
    }
  }

  lemma {:induction false} InsertKeepsOrder(r: Row, rows: seq<Row>)
    requires Oldest1st(rows) && r.date !in Dates(rows)
    ensures Oldest1st(InsertByDate(r, rows))
    decreases rows
  {
    if rows == [] || r.date <= rows[0].date {
      forall x | x in rows ensures r.date < x.date {
        assert x.date in Dates(rows);
        var j :| 0 <= j < |rows| && rows[j] == x;
      }
      PrependKeepsOrder(r, rows);
    } else {
      assert Dates(rows[1..]) <= Dates(rows);
      InsertKeepsOrder(r, rows[1..]);
      InsertedMembers(r, rows[1..]);
      PrependKeepsOrder(rows[0], InsertByDate(r, rows[1..]));
    }
  }

  lemma PrependKeepsOrder(first: Row, rest: seq<Row>)
    requires Oldest1st(rest) && forall x :: x in rest ==> first.date < x.date
    ensures Oldest1st([first] + rest)
  {
    var all := [first] + rest;
    forall j | 0 < j < |all| ensures all[0].date < all[j].date { assert all[j] in rest; }
  }

  lemma {:induction false} SortOrders(rows: seq<Row>)
    requires DistinctDates(rows)
    ensures Oldest1st(SortByDate(rows))
    ensures forall x :: x in SortByDate(rows) <==> x in rows
    decreases rows
  {
    if rows != [] {
      SortOrders(rows[1..]);
      assert rows[0].date !in Dates(SortByDate(rows[1..]));
      InsertedMembers(rows[0], SortByDate(rows[1..]));
      InsertKeepsOrder(rows[0], SortByDate(rows[1..]));
    }
  }

  function Filter(rows: seq<Row>, keep: Row -> bool): (r: seq<Row>)
    ensures forall x :: x in r <==> x in rows && keep(x)
  {
    if rows == [] then [] else (if keep(rows[0]) then [rows[0]] else []) + Filter(rows[1..], keep)
  }

  function Reverse(rows: seq<Row>): seq<Row> { seq(|rows|, i requires 0 <= i < |rows| => rows[|rows| - 1 - i]) }

  /** The `n` last rows: Python's rows[-n:] for positive n. */
  function LastRows(rows: seq<Row>, n: int): (r: seq<Row>)
    ensures forall x :: x in r ==> x in rows
  {
    if n <= 0 then [] else if n >= |rows| then rows else rows[|rows| - n..]
  }

  /** A dict built from rows keyed by date; a later row replaces an earlier one. */
  function ByDate(rows: seq<Row>): (m: map<int, Row>)
    ensures m.Keys == Dates(rows) && forall d :: d in m ==> m[d] in rows && m[d].date == d
  {
    if rows == [] then map[]
    else
      var last := rows[|rows|-1];
      assert forall x :: x in rows <==> x in rows[..|rows|-1] || x == last;
      ByDate(rows[..|rows|-1])[last.date := last]
  }

  function NewestFirst(m: map<int, Row>): seq<Row> {
    var dates := Descending(m.Keys);
    assert forall i :: 0 <= i < |dates| ==> dates[i] in dates;
    seq(|dates|, i requires 0 <= i < |dates| => m[dates[i]])
  }

  lemma NewestFirstMembers(m: map<int, Row>)
    ensures forall x :: x in NewestFirst(m) <==> exists d :: d in m && m[d] == x
  {
    var dates := Descending(m.Keys);
    var r := NewestFirst(m);
    forall x | x in r ensures exists d :: d in m && m[d] == x {
      var i :| 0 <= i < |r| && r[i] == x;
      assert dates[i] in dates && m[dates[i]] == x;
    }
    forall d | d in m ensures m[d] in r {
      assert d in dates;
      var i :| 0 <= i < |dates| && dates[i] == d;
      assert r[i] == m[d];
    }
  }

  function OrNone(rows: seq<Row>): Option<seq<Row>> { if rows == [] then None else Some(rows) }

  function NewerThan(dated: seq<Row>, last: int): (r: seq<Row>) {
    Filter(dated, (r: Row) => r.date > last)
  }

  function OlderThan(dated: seq<Row>, first: Option<int>, floor: Option<int>): seq<Row> {
    Filter(dated, (r: Row) => first.Some? && r.date < first.value && AtOrAbove(r.date, floor))
  }

  function UpTo(dated: seq<Row>, last: int): seq<Row> { Filter(dated, (r: Row) => r.date <= last) }

  /** The dict of rows to ship: three lists, later ones replacing earlier ones, cut
      at the floor. */
  function Merged(older: seq<Row>, near: seq<Row>, newer: seq<Row>, floor: Option<int>): map<int, Row> {
    var chosen := ByDate(older) + ByDate(near) + ByDate(newer);
    map d | d in chosen && AtOrAbove(d, floor) :: chosen[d]
  }

  lemma MergedRows(rows: seq<Row>, older: seq<Row>, near: seq<Row>, newer: seq<Row>, floor: Option<int>)
    requires forall x :: x in older || x in near || x in newer ==> x in rows
    ensures var m := Merged(older, near, newer, floor);
      && (forall d :: d in m ==> m[d] in rows && m[d].date == d)
      && (forall d :: d in m <==> AtOrAbove(d, floor) && (d in Dates(older) || d in Dates(near) || d in Dates(newer)))
  {}

  function Chosen(dated: seq<Row>, last: int, first: Option<int>, overlap: int, floor: Option<int>): map<int, Row> {
    Merged(OlderThan(dated, first, floor), LastRows(UpTo(dated, last), overlap), NewerThan(dated, last), floor)
  }

  function FromFloor(dated: seq<Row>, floor: Option<int>): seq<Row> {
    Filter(dated, (r: Row) => AtOrAbove(r.date, floor))
  }

  /** What of a downloaded history is worth shipping; None when the server already
      has it all. `first` and `last` are the oldest and newest sessions it holds. */
  function TrimClientTypes(rows: seq<Row>, last: Option<int>, first: Option<int>, overlap: int,
                           floor: Option<int>): Option<seq<Row>>
  {
    var dated := SortByDate(rows);
    if last.None? then OrNone(Reverse(FromFloor(dated, floor)))
    else if NewerThan(dated, last.value) == [] && OlderThan(dated, first, floor) == [] then None
    else OrNone(NewestFirst(Chosen(dated, last.value, first, overlap, floor)))
  }

  /** How many sessions of `dates` lie strictly after `d` and no later than `last`. */
  function After(dates: set<int>, d: int, last: int): nat { |set e | e in dates && d < e <= last| }

  /** The server lacks `d`: it is outside everything stored. */
  predicate Outside(d: int, last: Option<int>, first: Option<int>) {
    last.None? || d > last.value || (first.Some? && d < first.value)
  }

  /** The declarative rule: what the server lacks from the floor on, and the
      `overlap` newest sessions it already holds. */
  predicate Wanted(dates: set<int>, d: int, last: Option<int>, first: Option<int>, overlap: int, floor: Option<int>) {
    && d in dates && (floor.Some? ==> d >= floor.value)
    && (Outside(d, last, first) || After(dates, d, last.value) < overlap)
  }

  /** Something the server lacks is worth shipping. */
  ghost predicate Lacking(dates: set<int>, last: Option<int>, first: Option<int>, floor: Option<int>) {
    exists d :: d in dates && (floor.Some? ==> d >= floor.value) && Outside(d, last, first)
  }

  lemma {:induction false} FilterKeepsOrder(rows: seq<Row>, keep: Row -> bool)
    requires Oldest1st(rows)
    ensures Oldest1st(Filter(rows, keep))
    decreases rows
  {
    if rows != [] {
      FilterKeepsOrder(rows[1..], keep);
      var rest := Filter(rows[1..], keep);
      forall j | 0 <= j < |rest| ensures rows[0].date < rest[j].date {
        assert rest[j] in rows[1..];
      }
    }
  }

  lemma {:induction false} CountDates(rows: seq<Row>)
    requires Oldest1st(rows)
    ensures |Dates(rows)| == |rows|
    decreases rows
  {
    if rows != [] {
      CountDates(rows[1..]);
      assert forall x :: x in rows <==> x == rows[0] || x in rows[1..];
      assert Dates(rows) == Dates(rows[1..]) + {rows[0].date};
    }
  }

  /** In an ordered list the row at `i` has exactly the rows behind it after it. */
  lemma RankFromEnd(rows: seq<Row>, i: nat)
    requires Oldest1st(rows) && i < |rows|
    ensures |set e | e in Dates(rows) && rows[i].date < e| == |rows| - 1 - i
  {
    var behind := rows[i+1..];
    CountDates(behind);
    forall e ensures e in Dates(behind) <==> e in Dates(rows) && rows[i].date < e {
      if e in Dates(rows) && rows[i].date < e {
        var j :| 0 <= j < |rows| && rows[j].date == e;
        assert behind[j-i-1] == rows[j];
      }
      if e in Dates(behind) {
        var j :| 0 <= j < |behind| && behind[j].date == e;
        assert rows[j+i+1] == behind[j];
      }
    }
    assert Dates(behind) == set e | e in Dates(rows) && rows[i].date < e;
  }

  lemma LastRowsByRank(rows: seq<Row>, n: int, x: Row)
    requires Oldest1st(rows) && x in rows
    ensures x in LastRows(rows, n) <==> |set e | e in Dates(rows) && x.date < e| < n
  {
    var cut := if n <= 0 then |rows| else if n >= |rows| then 0 else |rows| - n;
    assert LastRows(rows, n) == rows[cut..];
    var i :| 0 <= i < |rows| && rows[i] == x;
    RankFromEnd(rows, i);
    if i >= cut { assert rows[cut..][i-cut] == x; }
    if x in rows[cut..] {
      var k :| 0 <= k < |rows[cut..]| && rows[cut..][k] == x;
      assert rows[cut+k] == x;
    }
  }

  lemma LastRowsAreNewest(dated: seq<Row>, last: int, n: int)
    requires Oldest1st(dated)
    ensures forall x ::
        x in LastRows(UpTo(dated, last), n) <==> x in dated && x.date <= last && After(Dates(dated), x.date, last) < n
  {
    var upto := UpTo(dated, last);
    FilterKeepsOrder(dated, (r: Row) => r.date <= last);
    forall x ensures x in LastRows(upto, n) <==> x in upto && After(Dates(dated), x.date, last) < n {
      if x in upto {
        LastRowsByRank(upto, n, x);
        assert (set e | e in Dates(upto) && x.date < e) == (set e | e in Dates(dated) && x.date < e <= last);
      }
    }
  }

  ghost predicate Newest1st(rows: seq<Row>) { forall i, j :: 0 <= i < j < |rows| ==> rows[i].date > rows[j].date }

  lemma NewestFirstOrder(m: map<int, Row>)
    requires forall d :: d in m ==> m[d].date == d
    ensures Newest1st(NewestFirst(m))
  {
    hide Descending;
    var dates := Descending(m.Keys);
    assert forall i :: 0 <= i < |dates| ==> dates[i] in dates;
    assert forall i :: 0 <= i < |dates| ==> NewestFirst(m)[i] == m[dates[i]];
  }

  lemma ReverseMembers(rows: seq<Row>)
    ensures Oldest1st(rows) ==> Newest1st(Reverse(rows))
    ensures forall x :: x in Reverse(rows) <==> x in rows
  {
    forall x | x in rows ensures x in Reverse(rows) {
      var i :| 0 <= i < |rows| && rows[i] == x;
      assert Reverse(rows)[|rows| - 1 - i] == x;
    }
  }

  /** A row of a history is the only one of its session. */
  lemma OneRowPerDate(rows: seq<Row>, x: Row, y: Row)
    requires DistinctDates(rows) && x in rows && y in rows && x.date == y.date
    ensures x == y
  {
    var i :| 0 <= i < |rows| && rows[i] == x;
    var j :| 0 <= j < |rows| && rows[j] == y;
  }

  /** What the decision comes to: nothing when nothing is lacking, and otherwise
      exactly the wanted rows, newest first. */
  ghost predicate ShipsExactlyWanted(rows: seq<Row>, r: Option<seq<Row>>, last: Option<int>, first: Option<int>,
                                     overlap: int, floor: Option<int>)
  {
    && (r.None? <==> !Lacking(Dates(rows), last, first, floor))
    && (r.Some? ==> Newest1st(r.value))
    && (r.Some? ==> forall x :: x in r.value <==> x in rows && Wanted(Dates(rows), x.date, last, first, overlap, floor))
  }

  lemma LackingIsSomeRow(rows: seq<Row>, last: Option<int>, first: Option<int>, floor: Option<int>)
    ensures Lacking(Dates(rows), last, first, floor)
      <==> exists x :: x in rows && AtOrAbove(x.date, floor) && Outside(x.date, last, first)
  {
    if Lacking(Dates(rows), last, first, floor) {
      var d :| d in Dates(rows) && AtOrAbove(d, floor) && Outside(d, last, first);
      var x :| x in rows && x.date == d;
    }
  }

  /** What is lacking is wanted. */
  lemma LackingIsWanted(rows: seq<Row>, last: Option<int>, first: Option<int>, overlap: int, floor: Option<int>)
    requires Lacking(Dates(rows), last, first, floor)
    ensures exists x :: x in rows && Wanted(Dates(rows), x.date, last, first, overlap, floor)
  {
    hide After;
    LackingIsSomeRow(rows, last, first, floor);
    var x :| x in rows && AtOrAbove(x.date, floor) && Outside(x.date, last, first);
    assert Wanted(Dates(rows), x.date, last, first, overlap, floor);
  }

  lemma HasFirst(rows: seq<Row>)
    ensures rows != [] ==> rows[0] in rows
  {}

  lemma FirstFetchIsExact(rows: seq<Row>, overlap: int, floor: Option<int>)
    requires DistinctDates(rows)
    ensures ShipsExactlyWanted(rows, TrimClientTypes(rows, None, None, overlap, floor), None, None, overlap, floor)
  {
    SortOrders(rows);
    var kept := FromFloor(SortByDate(rows), floor);
    FilterKeepsOrder(SortByDate(rows), (r: Row) => AtOrAbove(r.date, floor));
    ReverseMembers(kept);
    LackingIsSomeRow(rows, None, None, floor);
    HasFirst(kept);
  }

  lemma DateIn(rows: seq<Row>, some: seq<Row>, x: Row)
    requires DistinctDates(rows) && x in rows && forall y :: y in some ==> y in rows
    ensures x.date in Dates(some) <==> x in some
  {
    if x.date in Dates(some) {
      var y :| y in some && y.date == x.date;
      OneRowPerDate(rows, x, y);
    }
  }

  lemma PartsOfHistory(rows: seq<Row>, last: int, first: Option<int>, overlap: int, floor: Option<int>)
    requires DistinctDates(rows)
    ensures var dated := SortByDate(rows);
      && (forall x ::
        x in OlderThan(dated, first, floor)
        <==> x in rows && first.Some? && x.date < first.value && AtOrAbove(x.date, floor))
      && (forall x ::
        x in LastRows(UpTo(dated, last), overlap)
        <==> x in rows && x.date <= last && After(Dates(rows), x.date, last) < overlap)
      && (forall x :: x in NewerThan(dated, last) <==> x in rows && x.date > last)
  {
    SortOrders(rows);
    assert Dates(SortByDate(rows)) == Dates(rows);
    LastRowsAreNewest(SortByDate(rows), last, overlap);
  }

  /** A history split into what is older than the store, what is near its newest
      session and what is newer. */
  ghost predicate Parts(rows: seq<Row>, older: seq<Row>, near: seq<Row>, newer: seq<Row>, last: int, first: int,
                        overlap: int, floor: Option<int>)
  {
    && (forall x :: x in older <==> x in rows && x.date < first && AtOrAbove(x.date, floor))
    && (forall x :: x in near <==> x in rows && x.date <= last && After(Dates(rows), x.date, last) < overlap)
    && (forall x :: x in newer <==> x in rows && x.date > last)
  }

  lemma WantedByPart(rows: seq<Row>, older: seq<Row>, near: seq<Row>, newer: seq<Row>, last: int, first: int,
                     overlap: int, floor: Option<int>, x: Row)
    requires DistinctDates(rows) && x in rows && Parts(rows, older, near, newer, last, first, overlap, floor)
    ensures Wanted(Dates(rows), x.date, Some(last), Some(first), overlap, floor)
      <==> AtOrAbove(x.date, floor) && (x.date in Dates(older) || x.date in Dates(near) || x.date in Dates(newer))
  {
    DateIn(rows, older, x);
    DateIn(rows, near, x);
    DateIn(rows, newer, x);
  }

  lemma MergedShipsWanted(rows: seq<Row>, m: map<int, Row>, older: seq<Row>, near: seq<Row>, newer: seq<Row>,
                          last: int, first: int, overlap: int, floor: Option<int>)
    requires DistinctDates(rows) && Parts(rows, older, near, newer, last, first, overlap, floor)
    requires forall d :: d in m ==> m[d] in rows && m[d].date == d
    requires forall d :: d in m <==> AtOrAbove(d, floor) && (d in Dates(older) || d in Dates(near) || d in Dates(newer))
    ensures Newest1st(NewestFirst(m))
    ensures forall x ::
        x in NewestFirst(m) <==> x in rows && Wanted(Dates(rows), x.date, Some(last), Some(first), overlap, floor)
  {
    NewestFirstOrder(m);
    ListedRows(rows, m);
    forall x | x in rows ensures x.date in m <==> Wanted(Dates(rows), x.date, Some(last), Some(first), overlap, floor) {
      WantedByPart(rows, older, near, newer, last, first, overlap, floor, x);
    }
  }

  lemma ListedRows(rows: seq<Row>, m: map<int, Row>)
    requires DistinctDates(rows) && forall d :: d in m ==> m[d] in rows && m[d].date == d
    ensures forall x :: x in NewestFirst(m) <==> x in rows && x.date in m
  {
    NewestFirstMembers(m);
    forall x | x in rows && x.date in m ensures x == m[x.date] {
      OneRowPerDate(rows, x, m[x.date]);
    }
  }

  lemma LaterShipsWanted(rows: seq<Row>, last: int, first: int, overlap: int, floor: Option<int>)
    requires DistinctDates(rows)
    ensures var r := NewestFirst(Chosen(SortByDate(rows), last, Some(first), overlap, floor));
      && Newest1st(r)
      && forall x :: x in r <==> x in rows && Wanted(Dates(rows), x.date, Some(last), Some(first), overlap, floor)
  {
    PartsOfHistory(rows, last, Some(first), overlap, floor);
    var dated := SortByDate(rows);
    var older, near, newer := OlderThan(dated, Some(first), floor), LastRows(UpTo(dated, last), overlap),
        NewerThan(dated, last);
    MergedRows(rows, older, near, newer, floor);
    MergedShipsWanted(rows, Merged(older, near, newer, floor), older, near, newer, last, first, overlap, floor);
  }

  lemma NothingNewOrOlder(rows: seq<Row>, last: int, first: int, floor: Option<int>)
    requires DistinctDates(rows)
    ensures NewerThan(SortByDate(rows), last) == [] && OlderThan(SortByDate(rows), Some(first), floor) == []
      ==> !Lacking(Dates(rows), Some(last), Some(first), floor)
  {
    SortOrders(rows);
    LackingIsSomeRow(rows, Some(last), Some(first), floor);
    if x :| x in rows && AtOrAbove(x.date, floor) && Outside(x.date, Some(last), Some(first)) {
      assert x in NewerThan(SortByDate(rows), last) || x in OlderThan(SortByDate(rows), Some(first), floor);
    }
  }

  /** New sessions that all lie below the floor leave nothing to ship at all: the
      floor is then above everything stored. */
  lemma OnlyBelowFloor(rows: seq<Row>, last: int, first: int, overlap: int, floor: Option<int>, x: Row)
    requires DistinctDates(rows) && first <= last
    requires !Lacking(Dates(rows), Some(last), Some(first), floor)
    requires x in rows && Wanted(Dates(rows), x.date, Some(last), Some(first), overlap, floor)
    ensures NewerThan(SortByDate(rows), last) == [] && OlderThan(SortByDate(rows), Some(first), floor) == []
  {
    SortOrders(rows);
    LackingIsSomeRow(rows, Some(last), Some(first), floor);
    var newer, older := NewerThan(SortByDate(rows), last), OlderThan(SortByDate(rows), Some(first), floor);
    HasFirst(newer);
    HasFirst(older);
  }

  lemma LaterFetchIsExact(rows: seq<Row>, last: int, first: int, overlap: int, floor: Option<int>)
    requires DistinctDates(rows) && first <= last
    ensures ShipsExactlyWanted(rows, TrimClientTypes(rows, Some(last), Some(first), overlap, floor), Some(last),
                               Some(first), overlap, floor)
  {
    hide Lacking, Wanted, NewerThan, OlderThan, NewestFirst, Chosen, SortByDate, Newest1st, DistinctDates;
    var r := NewestFirst(Chosen(SortByDate(rows), last, Some(first), overlap, floor));
    LaterShipsWanted(rows, last, first, overlap, floor);
    NothingNewOrOlder(rows, last, first, floor);
    if Lacking(Dates(rows), Some(last), Some(first), floor) {
      LackingIsWanted(rows, Some(last), Some(first), overlap, floor);
    } else if r != [] {
      assert r[0] in r;
      OnlyBelowFloor(rows, last, first, overlap, floor, r[0]);
    }
  }

  /** Keying rows by session loses nothing that would be shipped: the check left at
      most one row for each session, and dropped none on or after the floor. */
  lemma NoShippableRowDropped(rows: seq<RawRow>, insCode: string, shipsFrom: Option<int>, kept: seq<Row>,
                              dropped: seq<int>, row: Row)
    requires Acceptable(rows, insCode, shipsFrom) && CheckedResult(rows, insCode, kept, dropped)
    requires IsRowOf(rows, insCode, row) && (shipsFrom.Some? ==> row.date >= shipsFrom.value)
    ensures row in kept && ByDate(kept)[row.date] == row
  {
    assert row.date !in dropped;
    OneRowPerDate(kept, row, ByDate(kept)[row.date]);
  }
}
