/** A share's price change over a window, chained through the exchange's own
    reference prices, and its agreement with the back-adjusted series.

    Dates are day numbers; prices are exact reals, before any rounding. */
module PriceChain {
  import opened Adjustment
  import opened Folds
  import opened Reals
  import opened Tallies
  import opened Wrappers

  datatype Price = Price(day: int, close: real, reference: real)

  const LISTING_BOUND := 1.25

  /** The row counts in a window. */
  predicate Usable(p: Price, from: int, to: int) {
    from <= p.day <= to && p.close > 0.0 && p.reference > 0.0
  }

  /** What one row contributes: its close against its own reference, except on
      the listing session, whose reference is no price. */
  function Link(p: Price, from: int, to: int, listing: Option<int>): real {
    if Usable(p, from, to) && Some(p.day) != listing then p.close / p.reference else 1.0
  }

  function Links(prices: seq<Price>, from: int, to: int, listing: Option<int>): seq<real> {
    seq(|prices|, i requires 0 <= i < |prices| => Link(prices[i], from, to, listing))
  }

  function Times(x: real, y: real): real { x * y }

  function Product(factors: seq<real>): real { Fold(factors, Times, 1.0) }

  lemma TimesIsAMonoid()
    ensures CommutativeMonoid(Times, 1.0)
  {
    forall x, y, z ensures Laws(Times, 1.0, x, y, z) { Regroup(x, y, z, 1.0); }
  }

  /** The chained price relative over [from, to]. */
  function Chained(prices: seq<Price>, from: int, to: int, listing: Option<int>): real {
    Product(Links(prices, from, to, listing))
  }

  lemma Regroup(a: real, b: real, c: real, d: real)
    ensures (a * b) * c == a * (b * c)
    ensures (a * b) * (c * d) == (a * c) * (b * d)
  {
    assert (a * b) * (c * d) == a * (b * c) * d == (a * c) * (b * d);
  }

  lemma {:induction false} ProductPointwise(whole: seq<real>, early: seq<real>, late: seq<real>)
    requires |whole| == |early| == |late|
    requires forall i :: 0 <= i < |whole| ==> whole[i] == early[i] * late[i]
    ensures Product(whole) == Product(early) * Product(late)
  {
    if whole != [] {
      ProductPointwise(whole[1..], early[1..], late[1..]);
      Regroup(early[0], late[0], Product(early[1..]), Product(late[1..]));
    }
  }

  // ---------------------------------------------------------------- the listing session

  predicate BeyondBound(p: Price)
    requires p.reference > 0.0
  {
    p.close / p.reference > LISTING_BOUND || p.close / p.reference < 1.0 / LISTING_BOUND
  }

  /** The day of the first stored session, when it is known. */
  function FirstSession(flowFirst: Option<int>, prices: seq<Price>, oldest: int): Option<int> {
    if flowFirst.Some? then flowFirst
    else if prices != [] && prices[0].day > oldest then Some(prices[0].day)
    else None
  }

  /** The first row of a day with two positive prices. */
  function PricedRowOn(prices: seq<Price>, day: int): Option<Price> {
    if prices == [] then None
    else if prices[0].day == day && prices[0].close > 0.0 && prices[0].reference > 0.0 then Some(prices[0])
    else PricedRowOn(prices[1..], day)
  }

  lemma {:induction false} PricedRowIsOnTheDay(prices: seq<Price>, day: int)
    ensures var row := PricedRowOn(prices, day);
      row.Some? ==> row.value in prices && row.value.day == day && row.value.close > 0.0 && row.value.reference > 0.0
    ensures PricedRowOn(prices, day).None? ==> forall p ::
        p in prices && p.day == day ==> p.close <= 0.0 || p.reference <= 0.0
  {
    if prices != [] { PricedRowIsOnTheDay(prices[1..], day); }
  }

  predicate IsListingDay(prices: seq<Price>, day: int) {
    var row := PricedRowOn(prices, day);
    row.Some? && row.value.reference > 0.0 && BeyondBound(row.value)
  }

  /** The listing session: the first stored one, when its close is too far from a
      reference it cannot have traded at. */
  function ListingOf(flowFirst: Option<int>, prices: seq<Price>, oldest: int): Option<int> {
    var first := FirstSession(flowFirst, prices, oldest);
    if first.Some? && IsListingDay(prices, first.value) then first else None
  }

  method ListingSession(flowFirst: Option<int>, prices: seq<Price>, oldest: int) returns (listing: Option<int>)
    ensures listing == ListingOf(flowFirst, prices, oldest)
  {
    var first := flowFirst;
    for i := 0 to |prices|
      invariant i == 0 ==> first == flowFirst
      invariant i > 0 ==> first.Some? && first == FirstSession(flowFirst, prices, oldest)
      invariant first.Some? ==> PricedRowOn(prices, first.value) == PricedRowOn(prices[i..], first.value)
    {
      var p := prices[i];
      assert prices[i..][1..] == prices[i+1..];
      if first.None? {
        if p.day <= oldest { return None; }
        first := Some(p.day);
        assert prices[0..] == prices;
      }
      if first == Some(p.day) && p.close > 0.0 && p.reference > 0.0 {
        if BeyondBound(p) { return first; }
        return None;
      }
    }
    return None;
  }

  ghost predicate OnePricePerDay(prices: seq<Price>) {
    forall p, q :: p in prices && q in prices && p.day == q.day ==> p == q
  }

  /** Beyond the bound: more than five quarters of the reference, or less than four
      fifths of it. */
  lemma BeyondExactly(p: Price)
    requires p.reference > 0.0
    ensures BeyondBound(p) <==> 4.0 * p.close > 5.0 * p.reference || 5.0 * p.close < 4.0 * p.reference
  {
    var q := p.close / p.reference;
    assert q * p.reference == p.close && 1.0 / LISTING_BOUND == 0.8;
    if q > 1.25 { PositiveProduct(q - 1.25, p.reference, p.close - 1.25 * p.reference); }
    else { NonNegativeProduct(1.25 - q, p.reference, 1.25 * p.reference - p.close); }
    if q < 0.8 { PositiveProduct(0.8 - q, p.reference, 0.8 * p.reference - p.close); }
    else { NonNegativeProduct(q - 0.8, p.reference, p.close - 0.8 * p.reference); }
  }

  /** With one price a day: a session is the listing exactly when it is the first stored
      one and its price is beyond the bound. */
  lemma ListingExactly(flowFirst: Option<int>, prices: seq<Price>, oldest: int, day: int)
    requires OnePricePerDay(prices)
    ensures ListingOf(flowFirst, prices, oldest) == Some(day) <==>
            && (flowFirst == Some(day)
                || (flowFirst.None? && prices != [] && prices[0].day == day && day > oldest))
            && exists p :: p in prices && p.day == day && p.close > 0.0 && p.reference > 0.0
                      && (4.0 * p.close > 5.0 * p.reference || 5.0 * p.close < 4.0 * p.reference)
  {
    hide BeyondBound;
    PricedRowIsOnTheDay(prices, day);
    forall p: Price | p.reference > 0.0
      ensures BeyondBound(p) <==> 4.0 * p.close > 5.0 * p.reference || 5.0 * p.close < 4.0 * p.reference
    {
      BeyondExactly(p);
    }
  }

  // ---------------------------------------------------------------- the change over a window

  datatype Change =
    | Unpriced(missing: nat)
    | OnlyListed
    | Idle
    | NoClose
    | Moved(pct: real)

  function MissingDays(traded: seq<int>, have: set<int>): nat {
    if traded == [] then 0 else (if traded[0] in have then 0 else 1) + MissingDays(traded[1..], have)
  }

  function PricedDays(prices: seq<Price>, from: int, to: int): set<int> {
    set p | p in prices && Usable(p, from, to) :: p.day
  }

  /** The days whose move is in the chain. */
  function LinkedDays(prices: seq<Price>, from: int, to: int, listing: Option<int>): set<int> {
    set p | p in prices && Usable(p, from, to) && Some(p.day) != listing :: p.day
  }

  predicate ListedWithin(prices: seq<Price>, from: int, to: int, listing: Option<int>) {
    listing.Some? && listing.value in PricedDays(prices, from, to)
  }

  /** The change a window is answered with. */
  function ChangeOver(prices: seq<Price>, traded: seq<int>, from: int, to: int, listing: Option<int>): Change {
    var missing := MissingDays(traded, PricedDays(prices, from, to));
    var linked := LinkedDays(prices, from, to, listing);
    if missing > 0 then Unpriced(missing)
    else if linked != {} then Moved((Chained(prices, from, to, listing) - 1.0) * 100.0)
    else if ListedWithin(prices, from, to, listing) then OnlyListed
    else if traded == [] then Idle
    else NoClose
  }

  /** A day of the window has a row with two positive prices. */
  predicate PricedOn(prices: seq<Price>, day: int, from: int, to: int) {
    exists p :: p in prices && p.day == day && from <= day <= to && p.close > 0.0 && p.reference > 0.0
  }

  /** Which answer a window gets, read off the rows: none while a traded day lacks its
      price; a percentage exactly when every traded day has one and some priced row of
      the window is not the listing session's; the listing alone when it is the only
      one priced; and the share at rest when nothing is. There is no fifth answer. */
  lemma AnswerExactly(prices: seq<Price>, traded: seq<int>, from: int, to: int, listing: Option<int>)
    ensures var c := ChangeOver(prices, traded, from, to, listing);
      && (c.Unpriced? <==> exists d :: d in traded && !PricedOn(prices, d, from, to))
      && (c.Moved? <==>
            && (forall d :: d in traded ==> PricedOn(prices, d, from, to))
            && exists d :: PricedOn(prices, d, from, to) && listing != Some(d))
      && (c == OnlyListed <==>
            && (forall d :: d in traded ==> PricedOn(prices, d, from, to))
            && (forall d :: PricedOn(prices, d, from, to) ==> listing == Some(d))
            && listing.Some? && PricedOn(prices, listing.value, from, to))
      && (c == Idle <==> traded == [] && forall d :: !PricedOn(prices, d, from, to))
      && c != NoClose
  {
    hide Chained;
    var have := PricedDays(prices, from, to);
    MissingNone(traded, have);
    forall d ensures d in have <==> PricedOn(prices, d, from, to) {}
    forall d ensures d in LinkedDays(prices, from, to, listing)
      <==> PricedOn(prices, d, from, to) && listing != Some(d) {}
    hide PricedOn, PricedDays, LinkedDays;
    assert (forall d :: d !in LinkedDays(prices, from, to, listing)) ==> LinkedDays(prices, from, to, listing) == {};
    assert traded != [] ==> traded[0] in traded;
  }

  /** How many traded days lack their price. */
  lemma MissingExactly(prices: seq<Price>, traded: seq<int>, from: int, to: int, listing: Option<int>)
    requires ChangeOver(prices, traded, from, to, listing).Unpriced?
    ensures ChangeOver(prices, traded, from, to, listing).missing
         == Tally(traded, (d: int) => !PricedOn(prices, d, from, to))
  {
    var have := PricedDays(prices, from, to);
    MissingIsTally(traded, have);
    TallySame(traded, (d: int) => d !in have, (d: int) => !PricedOn(prices, d, from, to));
  }

  lemma {:induction false} MissingIsTally(traded: seq<int>, have: set<int>)
    ensures MissingDays(traded, have) == Tally(traded, (d: int) => d !in have)
  {
    if traded != [] { MissingIsTally(traded[1..], have); }
  }

  /** The percentage is the product of close over reference of the usable rows that are
      not the listing session's. */
  lemma MovedExactly(prices: seq<Price>, traded: seq<int>, from: int, to: int, listing: Option<int>)
    requires ChangeOver(prices, traded, from, to, listing).Moved?
    ensures 1.0 + ChangeOver(prices, traded, from, to, listing).pct / 100.0
         == Product(Pick(prices, (p: Price) =>
                           from <= p.day <= to && p.close > 0.0 && p.reference > 0.0 && listing != Some(p.day),
                         (p: Price) => if p.reference > 0.0 then p.close / p.reference else 1.0))
  {
    hide Chained;
    ChainedIsPicked(prices, from, to, listing);
  }

  lemma {:induction false} ChainedIsPicked(prices: seq<Price>, from: int, to: int, listing: Option<int>)
    ensures Chained(prices, from, to, listing)
         == Product(Pick(prices, (p: Price) =>
                           from <= p.day <= to && p.close > 0.0 && p.reference > 0.0 && listing != Some(p.day),
                         (p: Price) => if p.reference > 0.0 then p.close / p.reference else 1.0))
  {
    var keep := (p: Price) =>
        from <= p.day <= to && p.close > 0.0 && p.reference > 0.0 && listing != Some(p.day);
    var move := (p: Price) => if p.reference > 0.0 then p.close / p.reference else 1.0;
    if prices != [] {
      ChainedIsPicked(prices[1..], from, to, listing);
      assert Links(prices, from, to, listing)[1..] == Links(prices[1..], from, to, listing);
      AfterOne(if keep(prices[0]) then [move(prices[0])] else [], Pick(prices[1..], keep, move));
    }
  }

  lemma ChainedGrows(prices: seq<Price>, from: int, to: int, listing: Option<int>, i: nat)
    requires i < |prices|
    ensures Chained(prices[..i+1], from, to, listing)
        == Chained(prices[..i], from, to, listing) * Link(prices[i], from, to, listing)
  {
    hide Link;
    var last := Link(prices[i], from, to, listing);
    assert Links(prices[..i+1], from, to, listing) == Links(prices[..i], from, to, listing) + [last];
    TimesIsAMonoid();
    FoldAppend(Links(prices[..i], from, to, listing), last, Times, 1.0);
  }

  lemma {:induction false} MissingGrows(traded: seq<int>, have: set<int>, i: nat)
    requires i < |traded|
    ensures MissingDays(traded[..i+1], have) == MissingDays(traded[..i], have) + if traded[i] in have then 0 else 1
  {
    if i > 0 {
      MissingGrows(traded[1..], have, i - 1);
      assert traded[1..][..i] == traded[..i+1][1..] && traded[1..][..i-1] == traded[..i][1..];
    }
  }

  /** What the pass over the rows knows after some of them. */
  ghost predicate Scanned(rows: seq<Price>, from: int, to: int, listing: Option<int>, have: set<int>, prod: real,
                          priced: int, listed: Option<Price>)
  {
    && have == PricedDays(rows, from, to)
    && prod == Chained(rows, from, to, listing)
    && 0 <= priced && (priced > 0 <==> LinkedDays(rows, from, to, listing) != {})
    && (listed.Some? <==> ListedWithin(rows, from, to, listing))
    && (listed.Some? ==> listed.value in rows && Some(listed.value.day) == listing && Usable(listed.value, from, to))
  }

  lemma ScanGrows(prices: seq<Price>, i: nat, from: int, to: int, listing: Option<int>,
                  have: set<int>, prod: real, priced: int, listed: Option<Price>)
    requires i < |prices| && Scanned(prices[..i], from, to, listing, have, prod, priced, listed)
    ensures var p := prices[i];
      if !Usable(p, from, to) then Scanned(prices[..i+1], from, to, listing, have, prod, priced, listed)
      else if listing == Some(p.day) then
        Scanned(prices[..i+1], from, to, listing, have + {p.day}, prod, priced, Some(p))
      else Scanned(prices[..i+1], from, to, listing, have + {p.day}, prod * (p.close / p.reference), priced + 1, listed)
  {
    hide Usable, PricedDays, Chained;
    ChainedGrows(prices, from, to, listing, i);
    DaysGrow(prices, from, to, listing, i);
  }

  /** One pass over the rows, one over the traded days. */
  method ChainLinkedChange(prices: seq<Price>, traded: seq<int>, from: int, to: int, listing: Option<int>)
    returns (change: Change, listed: Option<Price>)
    ensures change == ChangeOver(prices, traded, from, to, listing)
    ensures change.Unpriced? <==> exists d :: d in traded && !PricedOn(prices, d, from, to)
    ensures change.Unpriced? ==> change.missing == Tally(traded, (d: int) => !PricedOn(prices, d, from, to))
    ensures change.Moved? <==>
            && (forall d :: d in traded ==> PricedOn(prices, d, from, to))
            && exists d :: PricedOn(prices, d, from, to) && listing != Some(d)
    ensures change == OnlyListed <==>
            && (forall d :: d in traded ==> PricedOn(prices, d, from, to))
            && (forall d :: PricedOn(prices, d, from, to) ==> listing == Some(d))
            && listing.Some? && PricedOn(prices, listing.value, from, to)
    ensures change == Idle <==> traded == [] && forall d :: !PricedOn(prices, d, from, to)
    ensures change != NoClose
    ensures change.Moved? ==>
        1.0 + change.pct / 100.0
        == Product(Pick(prices, (p: Price) =>
                          from <= p.day <= to && p.close > 0.0 && p.reference > 0.0 && listing != Some(p.day),
                        (p: Price) => if p.reference > 0.0 then p.close / p.reference else 1.0))
    ensures listed.Some? <==> ListedWithin(prices, from, to, listing)
    ensures listed.Some? ==>
        listed.value in prices && Some(listed.value.day) == listing && Usable(listed.value, from, to)
  {
    var have, prod, priced;
    have, prod, priced, listed := ScanRows(prices, from, to, listing);
    var missing := 0;
    for i := 0 to |traded|
      invariant missing == MissingDays(traded[..i], have)
    {
      MissingGrows(traded, have, i);
      if traded[i] !in have { missing := missing + 1; }
    }
    assert traded[..|traded|] == traded;
    if missing > 0 { change := Unpriced(missing); }
    else if listed.Some? && priced == 0 { change := OnlyListed; }
    else if priced == 0 && |traded| == 0 { change := Idle; }
    else if priced == 0 { change := NoClose; }
    else { change := Moved((prod - 1.0) * 100.0); }
    hide ChangeOver, MissingDays, PricedOn;
    AnswerExactly(prices, traded, from, to, listing);
    if change.Unpriced? { MissingExactly(prices, traded, from, to, listing); }
    if change.Moved? { MovedExactly(prices, traded, from, to, listing); }
  }

  /** The first loop: the chain, the days it rests on, and the listing row. */
  method ScanRows(prices: seq<Price>, from: int, to: int, listing: Option<int>)
    returns (have: set<int>, prod: real, priced: int, listed: Option<Price>)
    ensures Scanned(prices, from, to, listing, have, prod, priced, listed)
  {
    have, prod, priced, listed := {}, 1.0, 0, None;
    for i := 0 to |prices|
      invariant Scanned(prices[..i], from, to, listing, have, prod, priced, listed)
    {
      have, prod, priced, listed := ScanRow(prices, i, from, to, listing, have, prod, priced, listed);
    }
    assert prices[..|prices|] == prices;
  }

  method ScanRow(prices: seq<Price>, i: nat, from: int, to: int, listing: Option<int>,
                 have: set<int>, prod: real, priced: int, listed: Option<Price>)
    returns (have': set<int>, prod': real, priced': int, listed': Option<Price>)
    requires i < |prices| && Scanned(prices[..i], from, to, listing, have, prod, priced, listed)
    ensures Scanned(prices[..i+1], from, to, listing, have', prod', priced', listed')
  {
    ScanGrows(prices, i, from, to, listing, have, prod, priced, listed);
    var p := prices[i];
    have', prod', priced', listed' := have, prod, priced, listed;
    if Usable(p, from, to) {
      have' := have + {p.day};
      if listing == Some(p.day) {
        listed' := Some(p);
      } else {
        prod' := prod * (p.close / p.reference);
        priced' := priced + 1;
      }
    }
  }

  lemma DaysGrow(prices: seq<Price>, from: int, to: int, listing: Option<int>, i: nat)
    requires i < |prices|
    ensures PricedDays(prices[..i+1], from, to)
         == PricedDays(prices[..i], from, to) + if Usable(prices[i], from, to) then {prices[i].day} else {}
    ensures LinkedDays(prices[..i+1], from, to, listing)
         == LinkedDays(prices[..i], from, to, listing)
            + if Usable(prices[i], from, to) && Some(prices[i].day) != listing then {prices[i].day} else {}
  {
    assert prices[..i+1] == prices[..i] + [prices[i]];
  }

  // ---------------------------------------------------------------- adjacent windows

  /** The chain over two adjacent windows is the product of their chains. */
  lemma AdjacentWindowsMultiply(prices: seq<Price>, from: int, mid: int, to: int, listing: Option<int>)
    requires from <= mid + 1 && mid <= to
    ensures Chained(prices, from, to, listing)
        == Chained(prices, from, mid, listing) * Chained(prices, mid + 1, to, listing)
  {
    ProductPointwise(Links(prices, from, to, listing), Links(prices, from, mid, listing),
                     Links(prices, mid + 1, to, listing));
  }

  lemma {:induction false} MissingNone(traded: seq<int>, have: set<int>)
    ensures MissingDays(traded, have) == 0 <==> forall d :: d in traded ==> d in have
  {
    if traded != [] {
      MissingNone(traded[1..], have);
      assert forall d :: d in traded <==> d == traded[0] || d in traded[1..];
    }
  }

  lemma {:induction false} MissingConcat(a: seq<int>, b: seq<int>, have: set<int>)
    ensures MissingDays(a + b, have) == MissingDays(a, have) + MissingDays(b, have)
  {
    if a == [] {
      assert a + b == b;
    } else {
      MissingConcat(a[1..], b, have);
      assert (a + b)[1..] == a[1..] + b;
    }
  }

  lemma {:induction false} MissingPermutation(a: seq<int>, b: seq<int>, have: set<int>)
    requires multiset(a) == multiset(b)
    ensures MissingDays(a, have) == MissingDays(b, have)
  {
    SameSize(a, b);
    if a != [] {
      var k := FirstElsewhere(a, b);
      MissingPermutation(a[1..], b[..k] + b[k+1..], have);
      MissingConcat(b[..k], b[k+1..], have);
      MissingConcat(b[..k], [b[k]] + b[k+1..], have);
      assert b == b[..k] + ([b[k]] + b[k+1..]) && ([b[k]] + b[k+1..])[1..] == b[k+1..];
    }
  }

  /** The answer does not depend on the order in which the traded days are collected. */
  lemma AnyTradedOrder(prices: seq<Price>, a: seq<int>, b: seq<int>, from: int, to: int, listing: Option<int>)
    requires multiset(a) == multiset(b)
    ensures ChangeOver(prices, a, from, to, listing) == ChangeOver(prices, b, from, to, listing)
  {
    SameSize(a, b);
    MissingPermutation(a, b, PricedDays(prices, from, to));
  }

  /** Two adjacent windows that both moved answer for the whole one. */
  lemma AdjacentChangesCompound(prices: seq<Price>, early: seq<int>, late: seq<int>, from: int, mid: int, to: int,
                                listing: Option<int>)
    requires from <= mid + 1 && mid <= to
    requires ChangeOver(prices, early, from, mid, listing).Moved?
        && ChangeOver(prices, late, mid + 1, to, listing).Moved?
    ensures var whole := ChangeOver(prices, early + late, from, to, listing);
      && whole.Moved?
      && 1.0 + whole.pct / 100.0
         == (1.0 + ChangeOver(prices, early, from, mid, listing).pct / 100.0)
            * (1.0 + ChangeOver(prices, late, mid + 1, to, listing).pct / 100.0)
  {
    hide MissingDays, Chained;
    AdjacentWindowsMultiply(prices, from, mid, to, listing);
    MissingNone(early, PricedDays(prices, from, mid));
    MissingNone(late, PricedDays(prices, mid + 1, to));
    MissingNone(early + late, PricedDays(prices, from, to));
    WiderWindowHasMore(prices, from, mid, from, to, listing);
    WiderWindowHasMore(prices, mid + 1, to, from, to, listing);
    assert forall d :: d in early + late <==> d in early || d in late;
  }

  lemma WiderWindowHasMore(prices: seq<Price>, from: int, to: int, wideFrom: int, wideTo: int, listing: Option<int>)
    requires wideFrom <= from && to <= wideTo
    ensures PricedDays(prices, from, to) <= PricedDays(prices, wideFrom, wideTo)
    ensures LinkedDays(prices, from, to, listing) <= LinkedDays(prices, wideFrom, wideTo, listing)
  {
    assert forall p :: Usable(p, from, to) ==> Usable(p, wideFrom, wideTo);
  }

  /** The chain does not depend on the order of the rows. */
  lemma OrderDoesNotMatter(a: seq<Price>, b: seq<Price>, from: int, to: int, listing: Option<int>)
    requires multiset(a) == multiset(b)
    ensures Chained(a, from, to, listing) == Chained(b, from, to, listing)
  {
    var link := (p: Price) => Link(p, from, to, listing);
    MapPermutation(a, b, link);
    assert Map(a, link) == Links(a, from, to, listing) && Map(b, link) == Links(b, from, to, listing);
    TimesIsAMonoid();
    FoldPermutation(Map(a, link), Map(b, link), Times, 1.0);
  }

  // ---------------------------------------------------------------- agreement with back-adjustment

  /** What the bars table guarantees of a stored bar. */
  predicate Stored(b: Bar) { b.finalClose > 0.0 && b.priceYesterday >= 0.0 }

  /** The bar is served as a price row. */
  predicate Served(b: Bar) { b.volume > 0 && b.priceYesterday > 0.0 }

  function PricesOf(bars: seq<Bar>): seq<Price> {
    if bars == [] then []
    else (if Served(bars[0]) then [Price(bars[0].date, bars[0].finalClose, bars[0].priceYesterday)] else [])
         + PricesOf(bars[1..])
  }

  /** The bar's move is in the chain: it is served, and on its own reference. */
  predicate Linked(b: Bar, listing: Option<int>) { Served(b) && Some(b.date) != listing }

  /** The move the chain carries for a bar. */
  function BarLink(b: Bar, listing: Option<int>): real {
    if Linked(b, listing) then b.finalClose / b.priceYesterday else 1.0
  }

  /** When the back-adjusted step of a bar is the chained one. */
  predicate Consistent(previous: Bar, current: Bar, found: Finding, listing: Option<int>) {
    if found == Contested then !Linked(current, listing) && current.finalClose == previous.finalClose
    else
      || Linked(current, listing) || (found.Restated? && found.kind == CloseRestated)
      || current.finalClose == current.priceYesterday
  }

  /** Without the factors: the step of one bar. */
  lemma StepOfBar(previous: Bar, current: Bar, alternatives: Alternatives, listing: Option<int>)
    requires Stored(previous) && Stored(current) && Find(previous, current, alternatives) != Underivable
    ensures var found := Find(previous, current, alternatives);
      && RatioOf(found) > 0.0
      && (current.finalClose == previous.finalClose * RatioOf(found) * BarLink(current, listing)
        <==> Consistent(previous, current, found, listing))
  {
    var found := Find(previous, current, alternatives);
    var py, before, fc := current.priceYesterday, previous.finalClose, current.finalClose;
    if found.Restated? && found.kind == ReferenceRestated {
      assert before * (py / before) == py;
    } else if found.Restated? {
      assert before * (fc / py) == fc;
    } else if Linked(current, listing) {
      assert py * (fc / py) == fc;
      if before != py { ScaledApart(before, py, fc / py); }
    }
  }

  lemma ScaledApart(x: real, y: real, k: real)
    requires x != y && k > 0.0
    ensures x * k != y * k
  {
    assert x * k - y * k == (x - y) * k;
  }

  lemma Cancel(x: real, y: real, k: real)
    requires x * k == y * k && k > 0.0
    ensures x == y
  {
    if x != y { ScaledApart(x, y, k); }
  }

  /** A detected and chained series over stored bars. */
  ghost predicate Computed(bars: seq<Bar>, alternatives: Alternatives, actions: seq<Action>) {
    && Ascending(bars) && Derivable(bars, alternatives)
    && (forall b :: b in bars ==> Stored(b))
    && Records(bars, Findings(bars, alternatives), |bars|, actions)
  }

  lemma FindingOf(bars: seq<Bar>, alternatives: Alternatives, i: nat)
    requires Derivable(bars, alternatives) && i < |bars|
    ensures FindingAt(bars, alternatives, i) != Underivable
  {
    assert Findings(bars, alternatives)[i] == FindingAt(bars, alternatives, i);
  }

  lemma {:induction false} FactorIsPositive(bars: seq<Bar>, alternatives: Alternatives, actions: seq<Action>, i: nat)
    requires Computed(bars, alternatives, actions) && i < |bars|
    ensures FactorAfter(Chain(actions), bars[i].date) > 0.0
  {
    var c := FirstAfter(actions, bars[i].date);
    FactorAfterSplit(actions, bars[i].date, c);
    forall a | a in actions[c..] ensures a.ratio > 0.0 {
      assert Shown(bars, Findings(bars, alternatives), |bars|, a);
      var j :| 0 <= j < |bars| && Findings(bars, alternatives)[j] == Restated(a.ratio, a.kind)
          && bars[j].date == a.date;
      StepOfBar(bars[j-1], bars[j], alternatives, None);
    }
    PositiveRatios(actions[c..]);
  }

  lemma {:induction false} PositiveRatios(actions: seq<Action>)
    requires forall a :: a in actions ==> a.ratio > 0.0
    ensures RatioProduct(actions) > 0.0
  {
    if actions != [] { PositiveRatios(actions[1..]); }
  }

  /** What an adjusted series is made of at a bar: its close times a positive
      factor, which the bar's own ratio carries back to the bar before. */
  ghost predicate ScaledAt(bars: seq<Bar>, found: seq<Finding>, adjusted: seq<real>, factors: seq<real>, i: nat)
    requires i < |bars| == |found| == |adjusted| == |factors|
  {
    && factors[i] > 0.0
    && adjusted[i] == bars[i].finalClose * factors[i]
    && (i > 0 ==> factors[i-1] == RatioOf(found[i]) * factors[i])
  }

  ghost predicate Scaled(bars: seq<Bar>, found: seq<Finding>, adjusted: seq<real>, factors: seq<real>) {
    && |bars| == |found| == |adjusted| == |factors|
    && forall i :: 0 <= i < |bars| ==> ScaledAt(bars, found, adjusted, factors, i)
  }

  /** The factor after a bar is positive, and the bar's ratio carries it back. */
  ghost predicate CarriesBack(bars: seq<Bar>, found: seq<Finding>, chained: seq<Action>, i: nat)
    requires i < |bars| == |found|
  {
    && FactorAfter(chained, bars[i].date) > 0.0
    && (i > 0 ==> FactorAfter(chained, bars[i-1].date) == RatioOf(found[i]) * FactorAfter(chained, bars[i].date))
  }

  lemma CarriesBackHere(bars: seq<Bar>, found: seq<Finding>, actions: seq<Action>, i: nat)
    requires Ascending(bars) && |found| == |bars| && Records(bars, found, |bars|, actions) && i < |bars|
    requires FactorAfter(Chain(actions), bars[i].date) > 0.0
    ensures CarriesBack(bars, found, Chain(actions), i)
  {
    if i > 0 { FactorStep(bars, found, actions, i); }
  }

  function FactorSeries(bars: seq<Bar>, chained: seq<Action>): seq<real> {
    seq(|bars|, i requires 0 <= i < |bars| => FactorAfter(chained, bars[i].date))
  }

  lemma ScaledFrom(bars: seq<Bar>, found: seq<Finding>, chained: seq<Action>)
    requires |found| == |bars| && forall i :: 0 <= i < |bars| ==> CarriesBack(bars, found, chained, i)
    ensures Scaled(bars, found, AdjustedSeries(bars, chained), FactorSeries(bars, chained))
  {
    var factors := FactorSeries(bars, chained);
    forall i | 0 <= i < |bars| ensures ScaledAt(bars, found, AdjustedSeries(bars, chained), factors, i) {
      assert CarriesBack(bars, found, chained, i);
      assert factors[i] == FactorAfter(chained, bars[i].date);
      if i > 0 { assert factors[i-1] == FactorAfter(chained, bars[i-1].date); }
    }
  }

  lemma AllCarryBack(bars: seq<Bar>, alternatives: Alternatives, actions: seq<Action>)
    requires Computed(bars, alternatives, actions)
    ensures forall i :: 0 <= i < |bars| ==> CarriesBack(bars, Findings(bars, alternatives), Chain(actions), i)
  {
    forall i | 0 <= i < |bars| ensures CarriesBack(bars, Findings(bars, alternatives), Chain(actions), i) {
      FactorIsPositive(bars, alternatives, actions, i);
      CarriesBackHere(bars, Findings(bars, alternatives), actions, i);
    }
  }

  lemma FactorsOf(bars: seq<Bar>, alternatives: Alternatives, actions: seq<Action>, adjusted: seq<real>)
    returns (factors: seq<real>)
    requires Computed(bars, alternatives, actions) && adjusted == AdjustedSeries(bars, Chain(actions))
    ensures Scaled(bars, Findings(bars, alternatives), adjusted, factors)
  {
    AllCarryBack(bars, alternatives, actions);
    ScaledFrom(bars, Findings(bars, alternatives), Chain(actions));
    factors := FactorSeries(bars, Chain(actions));
  }

  /** What a bar's finding means for the step to it. */
  ghost predicate ReadRightly(previous: Bar, current: Bar, found: Finding, listing: Option<int>) {
    current.finalClose == previous.finalClose * RatioOf(found) * BarLink(current, listing) <==>
    Consistent(previous, current, found, listing)
  }

  predicate AtReference(found: Finding) { found == Unbroken || (found.Restated? && found.kind == ReferenceRestated) }

  ghost predicate RightAt(bars: seq<Bar>, found: seq<Finding>, listing: Option<int>, i: nat)
    requires 1 <= i < |bars| == |found|
  {
    ReadRightly(bars[i-1], bars[i], found[i], listing)
  }

  ghost predicate AllRight(bars: seq<Bar>, found: seq<Finding>, listing: Option<int>)
    requires |found| == |bars|
  {
    forall i :: 1 <= i < |bars| ==> RightAt(bars, found, listing, i)
  }

  lemma AllReadRightly(bars: seq<Bar>, alternatives: Alternatives, found: seq<Finding>, listing: Option<int>)
    requires Derivable(bars, alternatives) && found == Findings(bars, alternatives) && forall b ::
        b in bars ==> Stored(b)
    ensures AllRight(bars, found, listing)
  {
    forall i | 1 <= i < |bars| ensures RightAt(bars, found, listing, i) {
      FindingOf(bars, alternatives, i);
      StepOfBar(bars[i-1], bars[i], alternatives, listing);
    }
  }

  lemma CommonFactor(x: real, y: real, ratio: real, link: real, factor: real)
    requires factor > 0.0
    ensures x * factor == (y * (ratio * factor)) * link <==> x == y * ratio * link
  {
    assert (y * (ratio * factor)) * link == (y * ratio * link) * factor;
    if x != y * ratio * link { ScaledApart(x, y * ratio * link, factor); }
  }

  lemma Reordered(fc: real, py: real, before: real, ratio: real, factor: real)
    requires fc > 0.0 && factor > 0.0
    ensures (fc * factor) * py == (before * (ratio * factor)) * fc <==> py == before * ratio
  {
    assert (fc * factor) * py == py * (fc * factor);
    assert (before * (ratio * factor)) * fc == (before * ratio) * (fc * factor);
    if py != before * ratio { ScaledApart(py, before * ratio, fc * factor); }
  }

  ghost predicate ReferenceRead(previous: Bar, current: Bar, found: Finding) {
    current.priceYesterday == previous.finalClose * RatioOf(found) <==> AtReference(found)
  }

  lemma RatioAgainstReference(previous: Bar, current: Bar, alternatives: Alternatives)
    requires Stored(previous) && Stored(current) && Find(previous, current, alternatives) != Underivable
    ensures ReferenceRead(previous, current, Find(previous, current, alternatives))
  {
    var found := Find(previous, current, alternatives);
    if found.Restated? && found.kind == ReferenceRestated {
      assert previous.finalClose * (current.priceYesterday / previous.finalClose) == current.priceYesterday;
    } else if found.Restated? {
      assert previous.finalClose * (current.finalClose / current.priceYesterday) == current.finalClose;
    }
  }

  predicate ConsistentAt(bars: seq<Bar>, found: seq<Finding>, listing: Option<int>, i: nat)
    requires 1 <= i < |bars| == |found|
  {
    Consistent(bars[i-1], bars[i], found[i], listing)
  }

  predicate StepHolds(bars: seq<Bar>, adjusted: seq<real>, listing: Option<int>, i: nat)
    requires 1 <= i < |bars| == |adjusted|
  {
    adjusted[i] == adjusted[i-1] * BarLink(bars[i], listing)
  }

  predicate MovesAgainstReference(bars: seq<Bar>, adjusted: seq<real>, i: nat)
    requires 1 <= i < |bars| == |adjusted|
  {
    adjusted[i] * bars[i].priceYesterday == adjusted[i-1] * bars[i].finalClose
  }

  /** The adjusted closes around a bar, in terms of one factor. */
  lemma AroundBar(bars: seq<Bar>, found: seq<Finding>, adjusted: seq<real>, factors: seq<real>, i: nat)
    requires Scaled(bars, found, adjusted, factors) && 1 <= i < |bars|
    ensures factors[i] > 0.0 && adjusted[i] == bars[i].finalClose * factors[i]
    ensures adjusted[i-1] == bars[i-1].finalClose * (RatioOf(found[i]) * factors[i])
  {
    assert ScaledAt(bars, found, adjusted, factors, i) && ScaledAt(bars, found, adjusted, factors, i - 1);
  }

  /** The adjusted series steps over a bar by the chained move exactly when the
      bar is consistent. */
  lemma StepAt(bars: seq<Bar>, found: seq<Finding>, adjusted: seq<real>, factors: seq<real>, listing: Option<int>,
               i: nat)
    requires Scaled(bars, found, adjusted, factors) && 1 <= i < |bars| && RightAt(bars, found, listing, i)
    ensures StepHolds(bars, adjusted, listing, i) <==> ConsistentAt(bars, found, listing, i)
  {
    AroundBar(bars, found, adjusted, factors, i);
    CommonFactor(bars[i].finalClose, bars[i-1].finalClose, RatioOf(found[i]), BarLink(bars[i], listing), factors[i]);
  }

  lemma ReferenceAt(bars: seq<Bar>, found: seq<Finding>, adjusted: seq<real>, factors: seq<real>, i: nat)
    requires Scaled(bars, found, adjusted, factors) && 1 <= i < |bars|
    requires ReferenceReadAt(bars, found, i)
    ensures MovesAgainstReference(bars, adjusted, i) <==> AtReference(found[i])
  {
    AroundBar(bars, found, adjusted, factors, i);
    Reordered(bars[i].finalClose, bars[i].priceYesterday, bars[i-1].finalClose, RatioOf(found[i]), factors[i]);
  }

  /** The move of a bar is its close over the exchange's own reference exactly
      when its basis is unbroken or restated at the reference: a close restated
      in place, or a contested break, is carried differently. */
  lemma ReturnAgainstReference(bars: seq<Bar>, alternatives: Alternatives, actions: seq<Action>, adjusted: seq<real>)
    requires Computed(bars, alternatives, actions) && adjusted == AdjustedSeries(bars, Chain(actions))
    ensures forall i :: 1 <= i < |bars| ==>
              (MovesAgainstReference(bars, adjusted, i) <==> AtReference(Findings(bars, alternatives)[i]))
  {
    var found := Findings(bars, alternatives);
    var factors := FactorsOf(bars, alternatives, actions, adjusted);
    AllReferencesRead(bars, alternatives);
    forall i | 1 <= i < |bars| ensures MovesAgainstReference(bars, adjusted, i) <==> AtReference(found[i]) {
      assert ReferenceReadAt(bars, found, i);
      ReferenceAt(bars, found, adjusted, factors, i);
    }
  }

  ghost predicate ReferenceReadAt(bars: seq<Bar>, found: seq<Finding>, i: nat)
    requires 1 <= i < |bars| == |found|
  {
    bars[i].finalClose > 0.0 && ReferenceRead(bars[i-1], bars[i], found[i])
  }

  lemma AllReferencesRead(bars: seq<Bar>, alternatives: Alternatives)
    requires Derivable(bars, alternatives) && forall b :: b in bars ==> Stored(b)
    ensures forall i :: 1 <= i < |bars| ==> ReferenceReadAt(bars, Findings(bars, alternatives), i)
  {
    forall i | 1 <= i < |bars| ensures ReferenceReadAt(bars, Findings(bars, alternatives), i) {
      FindingOf(bars, alternatives, i);
      RatioAgainstReference(bars[i-1], bars[i], alternatives);
    }
  }

  // ---------------------------------------------------------------- whole spans

  /** What the chain makes of the bars dated in a window. */
  function BarLinks(bars: seq<Bar>, from: int, to: int, listing: Option<int>): seq<real> {
    seq(|bars|, i requires 0 <= i < |bars| => if from <= bars[i].date <= to then BarLink(bars[i], listing) else 1.0)
  }

  lemma {:induction false} ChainOverBars(bars: seq<Bar>, from: int, to: int, listing: Option<int>)
    requires forall b :: b in bars ==> Stored(b)
    ensures Chained(PricesOf(bars), from, to, listing) == Product(BarLinks(bars, from, to, listing))
  {
    if bars == [] {
      assert Links([], from, to, listing) == [] && BarLinks([], from, to, listing) == [];
    } else {
      ChainOverBars(bars[1..], from, to, listing);
      var b := bars[0];
      var first := if from <= b.date <= to then BarLink(b, listing) else 1.0;
      assert BarLinks(bars, from, to, listing) == [first] + BarLinks(bars[1..], from, to, listing);
      LinksOfServed(bars, from, to, listing);
      TailOfBarLinks(bars, from, to, listing, first);
      if !Served(b) {
        assert Links(PricesOf(bars), from, to, listing) == Links(PricesOf(bars[1..]), from, to, listing);
      }
    }
  }

  lemma TailOfBarLinks(bars: seq<Bar>, from: int, to: int, listing: Option<int>, first: real)
    requires bars != [] && first == if from <= bars[0].date <= to then BarLink(bars[0], listing) else 1.0
    ensures Product(BarLinks(bars, from, to, listing)) == first * Product(BarLinks(bars[1..], from, to, listing))
    ensures Product([first] + Links(PricesOf(bars[1..]), from, to, listing))
        == first * Chained(PricesOf(bars[1..]), from, to, listing)
  {
    hide BarLink, Links;
    assert BarLinks(bars, from, to, listing)[1..] == BarLinks(bars[1..], from, to, listing);
    var rest := Links(PricesOf(bars[1..]), from, to, listing);
    assert ([first] + rest)[1..] == rest;
  }

  lemma LinksOfServed(bars: seq<Bar>, from: int, to: int, listing: Option<int>)
    requires bars != [] && Stored(bars[0])
    ensures Links(PricesOf(bars), from, to, listing)
         == (if Served(bars[0]) then [if from <= bars[0].date <= to then BarLink(bars[0], listing) else 1.0] else [])
            + Links(PricesOf(bars[1..]), from, to, listing)
  {}

  lemma {:induction false} ProductOfOnes(factors: seq<real>)
    requires forall i :: 0 <= i < |factors| ==> factors[i] == 1.0
    ensures Product(factors) == 1.0
  {
    if factors != [] { ProductOfOnes(factors[1..]); }
  }

  /** Over a window holding one bar the chain is that bar's move. */
  lemma ChainOverOneBar(bars: seq<Bar>, listing: Option<int>, i: nat)
    requires Ascending(bars) && 1 <= i < |bars| && forall b :: b in bars ==> Stored(b)
    ensures Chained(PricesOf(bars), bars[i-1].date + 1, bars[i].date, listing) == BarLink(bars[i], listing)
  {
    var from, to := bars[i-1].date + 1, bars[i].date;
    ChainOverBars(bars, from, to, listing);
    OneFactor(BarLinks(bars, from, to, listing), i);
  }

  lemma OneFactor(factors: seq<real>, i: nat)
    requires i < |factors| && forall k :: 0 <= k < |factors| && k != i ==> factors[k] == 1.0
    ensures Product(factors) == factors[i]
  {
    assert factors == factors[..i] + [factors[i]] + factors[i+1..];
    TimesIsAMonoid();
    MoveToFront(factors[..i], factors[i], factors[i+1..], Times, 1.0);
    ProductOfOnes(factors[..i] + factors[i+1..]);
  }

  /** The adjusted series and the chain agree from bar `a` to bar `b`. */
  ghost predicate SpanAgrees(bars: seq<Bar>, adjusted: seq<real>, listing: Option<int>, a: nat, b: nat)
    requires a <= b < |bars| == |adjusted|
  {
    adjusted[b] == adjusted[a] * Chained(PricesOf(bars), bars[a].date + 1, bars[b].date, listing)
  }

  lemma EmptySpan(bars: seq<Bar>, listing: Option<int>, day: int)
    requires forall b :: b in bars ==> Stored(b)
    ensures Chained(PricesOf(bars), day + 1, day, listing) == 1.0
  {
    ChainOverBars(bars, day + 1, day, listing);
    ProductOfOnes(BarLinks(bars, day + 1, day, listing));
  }

  lemma OneBarMore(bars: seq<Bar>, adjusted: seq<real>, listing: Option<int>, a: nat, b: nat)
    requires Ascending(bars) && |adjusted| == |bars| && a < b < |bars| && forall x :: x in bars ==> Stored(x)
    requires SpanAgrees(bars, adjusted, listing, a, b - 1) && StepHolds(bars, adjusted, listing, b)
    ensures SpanAgrees(bars, adjusted, listing, a, b)
  {
    hide Chained, BarLink, Stored;
    var prices, link := PricesOf(bars), BarLink(bars[b], listing);
    var first, mid, last := bars[a].date + 1, bars[b-1].date, bars[b].date;
    ChainOverOneBar(bars, listing, b);
    AdjacentWindowsMultiply(prices, first, mid, last, listing);
    Onward(adjusted[a], adjusted[b-1], adjusted[b], Chained(prices, first, mid, listing), link,
           Chained(prices, first, last, listing));
  }

  lemma Onward(x: real, y: real, z: real, before: real, link: real, whole: real)
    requires y == x * before && z == y * link && whole == before * link
    ensures z == x * whole
  {
    Regroup(x, before, link, 1.0);
  }

  lemma {:induction false} StepsMakeSpans(bars: seq<Bar>, adjusted: seq<real>, listing: Option<int>, a: nat, b: nat)
    requires Ascending(bars) && |adjusted| == |bars| && a <= b < |bars| && forall x :: x in bars ==> Stored(x)
    requires forall i :: a < i <= b ==> StepHolds(bars, adjusted, listing, i)
    ensures SpanAgrees(bars, adjusted, listing, a, b)
    decreases b
  {
    if a == b {
      EmptySpan(bars, listing, bars[a].date);
    } else {
      StepsMakeSpans(bars, adjusted, listing, a, b - 1);
      OneBarMore(bars, adjusted, listing, a, b);
    }
  }

  ghost predicate AllSpansAgree(bars: seq<Bar>, adjusted: seq<real>, listing: Option<int>)
    requires |adjusted| == |bars|
  {
    forall a, b :: 0 <= a <= b < |bars| ==> SpanAgrees(bars, adjusted, listing, a, b)
  }

  ghost predicate AllStepsHold(bars: seq<Bar>, adjusted: seq<real>, listing: Option<int>)
    requires |adjusted| == |bars|
  {
    forall i :: 1 <= i < |bars| ==> StepHolds(bars, adjusted, listing, i)
  }

  ghost predicate AllConsistent(bars: seq<Bar>, found: seq<Finding>, listing: Option<int>)
    requires |found| == |bars|
  {
    forall i :: 1 <= i < |bars| ==> ConsistentAt(bars, found, listing, i)
  }

  /** The two definitions of a return agree over every span exactly when every
      bar after the first is consistent. */
  lemma ReturnsAgreeExactly(bars: seq<Bar>, alternatives: Alternatives, actions: seq<Action>, adjusted: seq<real>,
                            listing: Option<int>)
    requires Computed(bars, alternatives, actions) && adjusted == AdjustedSeries(bars, Chain(actions))
    ensures AllSpansAgree(bars, adjusted, listing) <==> AllConsistent(bars, Findings(bars, alternatives), listing)
  {
    var found := Findings(bars, alternatives);
    var factors := FactorsOf(bars, alternatives, actions, adjusted);
    AllReadRightly(bars, alternatives, found, listing);
    SpansExactly(bars, found, adjusted, factors, listing);
  }

  lemma SpansExactly(bars: seq<Bar>, found: seq<Finding>, adjusted: seq<real>, factors: seq<real>, listing: Option<int>)
    requires Ascending(bars) && (forall b :: b in bars ==> Stored(b)) && Scaled(bars, found, adjusted, factors)
        && AllRight(bars, found, listing)
    ensures AllSpansAgree(bars, adjusted, listing) <==> AllConsistent(bars, found, listing)
  {
    forall i | 1 <= i < |bars|
      ensures StepHolds(bars, adjusted, listing, i) <==> ConsistentAt(bars, found, listing, i)
    {
      StepAt(bars, found, adjusted, factors, listing, i);
    }
    SpansAndSteps(bars, adjusted, listing);
  }

  lemma SpansAndSteps(bars: seq<Bar>, adjusted: seq<real>, listing: Option<int>)
    requires Ascending(bars) && (forall b :: b in bars ==> Stored(b)) && |adjusted| == |bars|
    ensures AllSpansAgree(bars, adjusted, listing) <==> AllStepsHold(bars, adjusted, listing)
  {
    hide Chained;
    if AllStepsHold(bars, adjusted, listing) {
      forall a: nat, b: nat | a <= b < |bars| ensures SpanAgrees(bars, adjusted, listing, a, b) {
        StepsMakeSpans(bars, adjusted, listing, a, b);
      }
      assert AllSpansAgree(bars, adjusted, listing);
    }
    if AllSpansAgree(bars, adjusted, listing) {
      forall i: nat | 1 <= i < |bars| ensures StepHolds(bars, adjusted, listing, i) {
        assert SpanAgrees(bars, adjusted, listing, i - 1, i);
        ChainOverOneBar(bars, listing, i);
      }
      assert AllStepsHold(bars, adjusted, listing);
    }
  }

  // ---------------------------------------------------------------- the answer itself

  lemma {:induction false} PositiveFactors(factors: seq<real>)
    requires forall i :: 0 <= i < |factors| ==> factors[i] > 0.0
    ensures Product(factors) > 0.0
  {
    if factors != [] { PositiveFactors(factors[1..]); }
  }

  lemma ChainIsPositive(bars: seq<Bar>, from: int, to: int, listing: Option<int>)
    requires forall b :: b in bars ==> Stored(b)
    ensures Chained(PricesOf(bars), from, to, listing) > 0.0
  {
    ChainOverBars(bars, from, to, listing);
    forall i | 0 <= i < |bars| ensures BarLinks(bars, from, to, listing)[i] > 0.0 { assert Stored(bars[i]); }
    PositiveFactors(BarLinks(bars, from, to, listing));
  }

  ghost predicate HasLinked(bars: seq<Bar>, from: int, to: int, listing: Option<int>) {
    exists b :: b in bars && Linked(b, listing) && from <= b.date <= to
  }

  function PriceOf(b: Bar): Price { Price(b.date, b.finalClose, b.priceYesterday) }

  lemma {:induction false} ServedAsPrices(bars: seq<Bar>)
    ensures forall p :: p in PricesOf(bars) <==> exists b :: b in bars && Served(b) && PriceOf(b) == p
  {
    if bars != [] { ServedAsPrices(bars[1..]); }
  }

  /** Some move is in the chain exactly when a linked bar lies in the window. */
  lemma LinkedDaysOfBars(bars: seq<Bar>, from: int, to: int, listing: Option<int>)
    requires forall b :: b in bars ==> Stored(b)
    ensures LinkedDays(PricesOf(bars), from, to, listing) != {} <==> HasLinked(bars, from, to, listing)
  {
    var linked := LinkedDays(PricesOf(bars), from, to, listing);
    ServedAsPrices(bars);
    if HasLinked(bars, from, to, listing) {
      var b :| b in bars && Linked(b, listing) && from <= b.date <= to;
      assert PriceOf(b) in PricesOf(bars) && PriceOf(b).day in linked;
    }
    assert (forall day :: day !in linked) ==> linked == {};
    if day :| day in linked {
      var p :| p in PricesOf(bars) && Usable(p, from, to) && Some(p.day) != listing && p.day == day;
      var b :| b in bars && Served(b) && PriceOf(b) == p;
      assert Linked(b, listing);
    }
  }

  /** The answer over the sessions after bar `a` up to bar `b`. */
  function AnswerOver(bars: seq<Bar>, traded: seq<int>, listing: Option<int>, a: nat, b: nat): Change
    requires a <= b < |bars|
  {
    ChangeOver(PricesOf(bars), traded, bars[a].date + 1, bars[b].date, listing)
  }

  /** The answer, when there is one, is the back-adjusted return. */
  ghost predicate AnswerAgrees(bars: seq<Bar>, adjusted: seq<real>, traded: seq<int>, listing: Option<int>, a: nat,
                               b: nat)
    requires a <= b < |bars| == |adjusted|
  {
    var answer := AnswerOver(bars, traded, listing, a, b);
    answer.Moved? ==> adjusted[a] > 0.0 && 1.0 + answer.pct / 100.0 == adjusted[b] / adjusted[a]
  }

  ghost predicate AllAnswersAgree(bars: seq<Bar>, adjusted: seq<real>, listing: Option<int>)
    requires |adjusted| == |bars|
  {
    forall traded, a, b :: 0 <= a <= b < |bars| ==> AnswerAgrees(bars, adjusted, traded, listing, a, b)
  }

  lemma QuotientIs(x: real, y: real, k: real)
    requires y > 0.0
    ensures x / y == k <==> x == y * k
  {
    assert y * (x / y) == x;
    if x == y * k { assert x / y == k; }
  }

  /** Over one span: the answer is the back-adjusted return exactly when chain and
      series agree there. */
  lemma AnswerOfSpan(bars: seq<Bar>, adjusted: seq<real>, traded: seq<int>, listing: Option<int>, a: nat, b: nat)
    requires a <= b < |bars| == |adjusted| && adjusted[a] > 0.0
    requires AnswerOver(bars, traded, listing, a, b).Moved?
    ensures AnswerAgrees(bars, adjusted, traded, listing, a, b) <==> SpanAgrees(bars, adjusted, listing, a, b)
  {
    var chain := Chained(PricesOf(bars), bars[a].date + 1, bars[b].date, listing);
    assert 1.0 + ((chain - 1.0) * 100.0) / 100.0 == chain;
    QuotientIs(adjusted[b], adjusted[a], chain);
  }

  /** A span holding a linked bar is answered when no traded day lacks its price. */
  lemma LinkedSpanIsAnswered(bars: seq<Bar>, listing: Option<int>, a: nat, b: nat, j: nat)
    requires Ascending(bars) && (forall x :: x in bars ==> Stored(x)) && a < j <= b < |bars| && Linked(bars[j], listing)
    ensures AnswerOver(bars, [], listing, a, b).Moved?
  {
    assert bars[j] in bars && bars[a].date < bars[j].date <= bars[b].date;
    LinkedDaysOfBars(bars, bars[a].date + 1, bars[b].date, listing);
  }

  lemma SameThrough(last: real, before: real, at: real, whole: real, link: real, chain: real)
    requires last == before * whole && last == at * chain && whole == link * chain && link == 1.0 && chain > 0.0
    ensures at == before * link
  {
    Cancel(before, at, chain);
  }

  /** A bar that is not linked steps rightly when the spans from it and from the bar
      before it agree up to the same later bar. */
  lemma StepBeforeSpan(bars: seq<Bar>, adjusted: seq<real>, listing: Option<int>, i: nat, b: nat)
    requires Ascending(bars) && |adjusted| == |bars| && (forall x :: x in bars ==> Stored(x))
    requires 1 <= i <= b < |bars| && !Linked(bars[i], listing)
    requires SpanAgrees(bars, adjusted, listing, i - 1, b) && SpanAgrees(bars, adjusted, listing, i, b)
    ensures StepHolds(bars, adjusted, listing, i)
  {
    var prices := PricesOf(bars);
    ChainOverOneBar(bars, listing, i);
    var first, mid, last := bars[i-1].date + 1, bars[i].date, bars[b].date;
    AdjacentWindowsMultiply(prices, first, mid, last, listing);
    ChainIsPositive(bars, mid + 1, last, listing);
    SameThrough(adjusted[b], adjusted[i-1], adjusted[i], Chained(prices, first, last, listing),
                Chained(prices, first, mid, listing), Chained(prices, mid + 1, last, listing));
  }

  /** And when the spans to it and to the bar before it agree from an earlier bar. */
  lemma StepAfterSpan(bars: seq<Bar>, adjusted: seq<real>, listing: Option<int>, i: nat, a: nat)
    requires Ascending(bars) && |adjusted| == |bars| && (forall x :: x in bars ==> Stored(x))
    requires a < i < |bars| && !Linked(bars[i], listing)
    requires SpanAgrees(bars, adjusted, listing, a, i) && SpanAgrees(bars, adjusted, listing, a, i - 1)
    ensures StepHolds(bars, adjusted, listing, i)
  {
    var prices := PricesOf(bars);
    ChainOverOneBar(bars, listing, i);
    var first, mid, last := bars[a].date + 1, bars[i-1].date, bars[i].date;
    AdjacentWindowsMultiply(prices, first, mid, last, listing);
    var before, whole := Chained(prices, first, mid, listing), Chained(prices, first, last, listing);
    assert whole == before;
  }

  ghost predicate SomeLinked(bars: seq<Bar>, listing: Option<int>) {
    exists j :: 1 <= j < |bars| && Linked(bars[j], listing)
  }

  lemma AnswersMakeSteps(bars: seq<Bar>, adjusted: seq<real>, listing: Option<int>, i: nat)
    requires Ascending(bars) && |adjusted| == |bars| && (forall x :: x in bars ==> Stored(x)) && 1 <= i < |bars|
    requires (forall k :: 0 <= k < |bars| ==> adjusted[k] > 0.0)
    requires SomeLinked(bars, listing) && AllAnswersAgree(bars, adjusted, listing)
    ensures StepHolds(bars, adjusted, listing, i)
  {
    hide Ascending, AllAnswersAgree, Linked, Stored, AnswerAgrees;
    var j :| 1 <= j < |bars| && Linked(bars[j], listing);
    if Linked(bars[i], listing) {
      AgreesAround(bars, adjusted, listing, i - 1, i, i);
      ChainOverOneBar(bars, listing, i);
    } else if i < j {
      AgreesAround(bars, adjusted, listing, i - 1, j, j);
      AgreesAround(bars, adjusted, listing, i, j, j);
      StepBeforeSpan(bars, adjusted, listing, i, j);
    } else {
      AgreesAround(bars, adjusted, listing, j - 1, i, j);
      AgreesAround(bars, adjusted, listing, j - 1, i - 1, j);
      StepAfterSpan(bars, adjusted, listing, i, j - 1);
    }
  }

  lemma AgreesAround(bars: seq<Bar>, adjusted: seq<real>, listing: Option<int>, a: nat, b: nat, j: nat)
    requires Ascending(bars) && |adjusted| == |bars| && (forall x :: x in bars ==> Stored(x))
    requires a < j <= b < |bars| && Linked(bars[j], listing) && adjusted[a] > 0.0
    requires AllAnswersAgree(bars, adjusted, listing)
    ensures SpanAgrees(bars, adjusted, listing, a, b)
  {
    LinkedSpanIsAnswered(bars, listing, a, b, j);
    assert AnswerAgrees(bars, adjusted, [], listing, a, b);
    AnswerOfSpan(bars, adjusted, [], listing, a, b);
  }

  /** Nothing linked after bar `a`: no span from there is answered. */
  lemma UnlinkedIsUnanswered(bars: seq<Bar>, traded: seq<int>, listing: Option<int>, a: nat, b: nat)
    requires Ascending(bars) && (forall x :: x in bars ==> Stored(x)) && a <= b < |bars| && !SomeLinked(bars, listing)
    ensures !AnswerOver(bars, traded, listing, a, b).Moved?
  {
    LinkedDaysOfBars(bars, bars[a].date + 1, bars[b].date, listing);
    LinkedIsLater(bars, listing, a, bars[b].date);
  }

  lemma LinkedIsLater(bars: seq<Bar>, listing: Option<int>, a: nat, to: int)
    requires Ascending(bars) && a < |bars|
    ensures HasLinked(bars, bars[a].date + 1, to, listing) ==> SomeLinked(bars, listing)
  {
    if HasLinked(bars, bars[a].date + 1, to, listing) {
      var x :| x in bars && Linked(x, listing) && bars[a].date < x.date <= to;
      var k :| 0 <= k < |bars| && bars[k] == x;
      assert k > a;
    }
  }

  /** Every answer a window between two bars gets is the back-adjusted return over
      it exactly when every bar after the first is consistent, or when none of
      them has a move in the chain and so no window is answered. */
  lemma AnswersAgreeExactly(bars: seq<Bar>, alternatives: Alternatives, actions: seq<Action>, adjusted: seq<real>,
                            listing: Option<int>)
    requires Computed(bars, alternatives, actions) && adjusted == AdjustedSeries(bars, Chain(actions))
    ensures AllAnswersAgree(bars, adjusted, listing)
      <==> AllConsistent(bars, Findings(bars, alternatives), listing) || !SomeLinked(bars, listing)
  {
    AdjustedIsPositive(bars, alternatives, actions, adjusted);
    ReturnsAgreeExactly(bars, alternatives, actions, adjusted, listing);
    SpansAndSteps(bars, adjusted, listing);
    if SomeLinked(bars, listing) && AllAnswersAgree(bars, adjusted, listing) {
      forall i: nat | 1 <= i < |bars| ensures StepHolds(bars, adjusted, listing, i) {
        AnswersMakeSteps(bars, adjusted, listing, i);
      }
      assert AllStepsHold(bars, adjusted, listing);
    }
    forall traded, a: nat, b: nat
      | a <= b < |bars| && (AllSpansAgree(bars, adjusted, listing) || !SomeLinked(bars, listing))
      ensures AnswerAgrees(bars, adjusted, traded, listing, a, b)
    {
      if !SomeLinked(bars, listing) {
        UnlinkedIsUnanswered(bars, traded, listing, a, b);
      } else if AnswerOver(bars, traded, listing, a, b).Moved? {
        assert SpanAgrees(bars, adjusted, listing, a, b);
        AnswerOfSpan(bars, adjusted, traded, listing, a, b);
      }
    }
  }

  lemma AdjustedIsPositive(bars: seq<Bar>, alternatives: Alternatives, actions: seq<Action>, adjusted: seq<real>)
    requires Computed(bars, alternatives, actions) && adjusted == AdjustedSeries(bars, Chain(actions))
    ensures forall k :: 0 <= k < |bars| ==> adjusted[k] > 0.0
  {
    var found := Findings(bars, alternatives);
    var factors := FactorsOf(bars, alternatives, actions, adjusted);
    AllPositive(bars, found, adjusted, factors);
  }

  lemma AllPositive(bars: seq<Bar>, found: seq<Finding>, adjusted: seq<real>, factors: seq<real>)
    requires Scaled(bars, found, adjusted, factors) && forall b :: b in bars ==> Stored(b)
    ensures forall k :: 0 <= k < |bars| ==> adjusted[k] > 0.0
  {
    forall k | 0 <= k < |bars| ensures adjusted[k] > 0.0 {
      assert Stored(bars[k]);
      PositiveAt(bars, found, adjusted, factors, k);
    }
  }

  lemma PositiveAt(bars: seq<Bar>, found: seq<Finding>, adjusted: seq<real>, factors: seq<real>, k: nat)
    requires Scaled(bars, found, adjusted, factors) && k < |bars| && bars[k].finalClose > 0.0
    ensures adjusted[k] > 0.0
  {
    assert ScaledAt(bars, found, adjusted, factors, k);
    PositiveProduct(bars[k].finalClose, factors[k], adjusted[k]);
  }

  // ---------------------------------------------------------------- where they part

  /** A halted bar whose close was restated in place moves otherwise than its
      reference. */
  lemma CloseRestatedInPlace()
    ensures var bars := [Bar(1, 100.0, 100.0, 10, 10), Bar(2, 50.0, 100.0, 0, 0)];
      var actions := [Action(2, 0.5, 0.0, CloseRestated)];
      && Computed(bars, map[], actions)
      && !MovesAgainstReference(bars, AdjustedSeries(bars, Chain(actions)), 1)
  {
    var a := Action(2, 0.5, 0.0, CloseRestated);
    OneActionShown(Bar(1, 100.0, 100.0, 10, 10), Bar(2, 50.0, 100.0, 0, 0), map[], a);
    FactorOfOne(a, 1);
    FactorOfOne(a, 2);
  }

  /** Two bars, the second of which shows the action. */
  lemma OneActionShown(previous: Bar, current: Bar, alternatives: Alternatives, a: Action)
    requires Stored(previous) && Stored(current) && previous.date < current.date == a.date
    requires Find(previous, current, alternatives) == Restated(a.ratio, a.kind)
    ensures Computed([previous, current], alternatives, [a])
  {
    var bars := [previous, current];
    var found := Findings(bars, alternatives);
    assert found == [Unbroken, Restated(a.ratio, a.kind)];
    assert found[1] == Restated(a.ratio, a.kind) && bars[1].date == a.date;
    assert [a][0].date == current.date;
    assert HasActionOn([a], current.date);
  }

  /** The chained factors of one action, around its date. */
  lemma FactorOfOne(a: Action, day: int)
    ensures FactorAfter(Chain([a]), day) == if a.date > day then a.ratio else 1.0
  {
    ChainAt([a], 0);
    assert [a][0..] == [a] && [a][1..] == [];
    assert Chain([a]) == [a.(factor := a.ratio * 1.0)];
    assert Chain([a])[1..] == [];
  }

  /** Two traded bars whose break a served copy contests: the adjusted series does
      not move against the reference, and answers differ from it. */
  lemma ContestedBreakDiffers()
    ensures var bars := [Bar(1, 100.0, 100.0, 10, 10), Bar(2, 99.0, 90.0, 10, 10)];
      var alternatives := map[1 := [(90.0, 100.0)]];
      var adjusted := AdjustedSeries(bars, Chain([]));
      && Computed(bars, alternatives, []) && Findings(bars, alternatives)[1] == Contested
      && !MovesAgainstReference(bars, adjusted, 1) && !AllAnswersAgree(bars, adjusted, None)
  {
    var previous, current := Bar(1, 100.0, 100.0, 10, 10), Bar(2, 99.0, 90.0, 10, 10);
    var alternatives := map[1 := [(90.0, 100.0)]];
    assert (90.0, 100.0) in alternatives[1];
    assert 90.0 in ClosesServed(previous, alternatives) * ReferencesServed(current, alternatives);
    ContestedComputed(previous, current, alternatives);
    ContestedDiffers(previous, current, alternatives);
  }

  lemma ContestedComputed(previous: Bar, current: Bar, alternatives: Alternatives)
    requires Stored(previous) && Stored(current) && previous.date < current.date
    requires Find(previous, current, alternatives) == Contested
    ensures Computed([previous, current], alternatives, [])
    ensures Findings([previous, current], alternatives) == [Unbroken, Contested]
  {
    assert Findings([previous, current], alternatives) == [Unbroken, Contested];
  }

  lemma ContestedDiffers(previous: Bar, current: Bar, alternatives: Alternatives)
    requires Computed([previous, current], alternatives, []) && Served(current)
    requires Findings([previous, current], alternatives) == [Unbroken, Contested]
    ensures var adjusted := AdjustedSeries([previous, current], Chain([]));
      !MovesAgainstReference([previous, current], adjusted, 1) && !AllAnswersAgree([previous, current], adjusted, None)
  {
    var bars := [previous, current];
    var adjusted := AdjustedSeries(bars, Chain([]));
    ReturnAgainstReference(bars, alternatives, [], adjusted);
    AnswersAgreeExactly(bars, alternatives, [], adjusted, None);
    assert !AtReference(Contested) && Linked(bars[1], None);
    assert !ConsistentAt(bars, Findings(bars, alternatives), None, 1);
  }
}
