/** One share's money flow on one session, the checks it passes, and the running
    totals of many. Values in toman as exact reals. */
module Flows {
  import opened Folds
  import opened Reals
  import opened Tallies
  import opened Wrappers

  datatype Flow = Flow(
    day: int,
    buyICount: int, buyNCount: int, sellICount: int, sellNCount: int,
    buyIVolume: real, buyNVolume: real, sellIVolume: real, sellNVolume: real,
    buyIValue: real, buyNValue: real, sellIValue: real, sellNValue: real,
    barValue: Option<real>)

  const IDENTITY_TOLERANCE := 0.001
  const BAR_TOLERANCE := 0.01

  function Bought(f: Flow): real { f.buyIValue + f.buyNValue }

  function Sold(f: Flow): real { f.sellIValue + f.sellNValue }

  function SharesBought(f: Flow): real { f.buyIVolume + f.buyNVolume }

  function SharesSold(f: Flow): real { f.sellIVolume + f.sellNVolume }

  /** Two sides of the same trades agree up to rounding. */
  predicate Balanced(x: real, y: real) { Abs(x - y) <= IDENTITY_TOLERANCE * Max(x, y) }

  /** A total agrees with an independent statement of it. */
  predicate Near(total: real, stated: real) { stated > 0.0 && Abs(total / stated - 1.0) <= BAR_TOLERANCE }

  // ---------------------------------------------------------------- the roster's check

  datatype Verdict = Consistent | NoValue | OneSided | NoBar | OffBar

  function Check(f: Flow): Verdict {
    if Bought(f) <= 0.0 && Sold(f) <= 0.0 then NoValue
    else if !Balanced(Bought(f), Sold(f)) then OneSided
    else if f.barValue.None? then NoBar
    else if !Near(Bought(f), f.barValue.value) then OffBar
    else Consistent
  }

  // ---------------------------------------------------------------- the market's tiers

  datatype Tier = NoTrade | Excluded | IdentityOnly | BarChecked {
    predicate Accepted() { this == BarChecked || this == IdentityOnly }
  }

  predicate Refused(f: Flow, stated: Option<real>) { stated.Some? && !Near(Bought(f), stated.value) }

  /** Both identities, then every independent statement of the value there is. */
  function Classify(f: Flow, sessionValue: Option<real>): Tier {
    if Bought(f) <= 0.0 && Sold(f) <= 0.0 then NoTrade
    else if !Balanced(Bought(f), Sold(f)) then Excluded
    else if SharesBought(f) <= 0.0 && SharesSold(f) <= 0.0 then Excluded
    else if !Balanced(SharesBought(f), SharesSold(f)) then Excluded
    else if Refused(f, sessionValue) || Refused(f, f.barValue) then Excluded
    else if sessionValue.Some? || f.barValue.Some? then BarChecked
    else IdentityOnly
  }

  predicate VolumesAgree(f: Flow) {
    (SharesBought(f) > 0.0 || SharesSold(f) > 0.0) && Balanced(SharesBought(f), SharesSold(f))
  }

  /** With only the bar to compare against, the market checks what the roster's
      check does and the share volumes besides. */
  lemma BarCheckedIsCheckWithVolumes(f: Flow)
    ensures Classify(f, None) == BarChecked <==> Check(f) == Consistent && VolumesAgree(f)
    ensures Classify(f, None) == IdentityOnly <==> Check(f) == NoBar && VolumesAgree(f)
    ensures Classify(f, None) == NoTrade <==> Check(f) == NoValue
  {}

  /** A session statement can confirm an accepted row or exclude it; it rescues none. */
  lemma StatementConfirmsOrExcludes(f: Flow, stated: real)
    ensures Classify(f, Some(stated))
         == if !Classify(f, None).Accepted() then Classify(f, None)
            else if Near(Bought(f), stated) then BarChecked else Excluded
  {}

  lemma AcceptedIsBalanced(f: Flow, sessionValue: Option<real>)
    requires Classify(f, sessionValue).Accepted()
    ensures Balanced(Bought(f), Sold(f)) && (Bought(f) > 0.0 || Sold(f) > 0.0)
  {}

  /** The tolerance without quotients and absolute values: neither side may exceed the
      other by more than a thousandth of itself. */
  lemma BalancedExactly(x: real, y: real)
    ensures Balanced(x, y) <==> 1000.0 * (x - y) <= x && 1000.0 * (y - x) <= y
  {}

  lemma NearExactly(total: real, stated: real)
    ensures Near(total, stated) <==> stated > 0.0 && 99.0 * stated <= 100.0 * total <= 101.0 * stated
  {
    if stated > 0.0 {
      var q := total / stated;
      assert q * stated == total;
      SameSide(q, 1.01, stated, total, 1.01 * stated);
      SameSide(0.99, q, stated, 0.99 * stated, total);
    }
  }

  lemma SameSide(a: real, b: real, k: real, ak: real, bk: real)
    requires k > 0.0 && ak == a * k && bk == b * k
    ensures a <= b <==> ak <= bk
  {
    if a <= b { NonNegativeProduct(b - a, k, bk - ak); } else { PositiveProduct(a - b, k, ak - bk); }
  }

  /** When a row is accepted, on its own fields: it traded, its two sides agree within a
      thousandth by value and by volume, and every statement of its value there is
      agrees within a hundredth. */
  lemma AcceptedExactly(f: Flow, stated: Option<real>)
    ensures Classify(f, stated) == NoTrade <==>
            f.buyIValue + f.buyNValue <= 0.0 && f.sellIValue + f.sellNValue <= 0.0
    ensures var b, s := f.buyIValue + f.buyNValue, f.sellIValue + f.sellNValue;
      var vb, vs := f.buyIVolume + f.buyNVolume, f.sellIVolume + f.sellNVolume;
      Classify(f, stated).Accepted() <==>
        && (b > 0.0 || s > 0.0) && 1000.0 * (b - s) <= b && 1000.0 * (s - b) <= s
        && (vb > 0.0 || vs > 0.0) && 1000.0 * (vb - vs) <= vb && 1000.0 * (vs - vb) <= vs
        && (stated.Some? ==> stated.value > 0.0 && 99.0 * stated.value <= 100.0 * b <= 101.0 * stated.value)
        && (f.barValue.Some? ==>
              f.barValue.value > 0.0 && 99.0 * f.barValue.value <= 100.0 * b <= 101.0 * f.barValue.value)
    ensures Classify(f, stated).Accepted() ==> (Classify(f, stated) == BarChecked <==> stated.Some? || f.barValue.Some?)
  {
    hide Near, Balanced;
    BalancedExactly(Bought(f), Sold(f));
    BalancedExactly(SharesBought(f), SharesSold(f));
    if stated.Some? { NearExactly(Bought(f), stated.value); }
    if f.barValue.Some? { NearExactly(Bought(f), f.barValue.value); }
  }

  /** When a session passes the roster's check. */
  lemma ConsistentExactly(f: Flow)
    ensures var b, s := f.buyIValue + f.buyNValue, f.sellIValue + f.sellNValue;
      Check(f) == Consistent <==>
        && (b > 0.0 || s > 0.0) && 1000.0 * (b - s) <= b && 1000.0 * (s - b) <= s
        && f.barValue.Some? && f.barValue.value > 0.0
        && 99.0 * f.barValue.value <= 100.0 * b <= 101.0 * f.barValue.value
  {
    hide Near, Balanced;
    BalancedExactly(Bought(f), Sold(f));
    if f.barValue.Some? { NearExactly(Bought(f), f.barValue.value); }
  }

  // ---------------------------------------------------------------- totals

  datatype Counts = Counts(
    rows: int, barChecked: int, identityOnly: int, excluded: int, noTrade: int, inflowRows: int, outflowRows: int,
    listing: int)

  datatype Sums = Sums(net: real, value: real, sellValue: real, buyI: real, sellI: real)

  /** Buyer power's own sums, without listing sessions. */
  datatype Power = Power(buyI: real, sellI: real, buyICount: int, sellICount: int)

  datatype Totals = Totals(counts: Counts, sums: Sums, power: Power) {
    function Accepted(): int { counts.barChecked + counts.identityOnly }
  }

  const NO_COUNTS := Counts(0, 0, 0, 0, 0, 0, 0, 0)
  const NO_SUMS := Sums(0.0, 0.0, 0.0, 0.0, 0.0)
  const NO_POWER := Power(0.0, 0.0, 0, 0)
  const NOTHING := Totals(NO_COUNTS, NO_SUMS, NO_POWER)

  function AddCounts(a: Counts, b: Counts): Counts {
    Counts(a.rows + b.rows, a.barChecked + b.barChecked, a.identityOnly + b.identityOnly, a.excluded + b.excluded,
           a.noTrade + b.noTrade, a.inflowRows + b.inflowRows, a.outflowRows + b.outflowRows, a.listing + b.listing)
  }

  function AddSums(a: Sums, b: Sums): Sums {
    Sums(a.net + b.net, a.value + b.value, a.sellValue + b.sellValue, a.buyI + b.buyI, a.sellI + b.sellI)
  }

  function AddPower(a: Power, b: Power): Power {
    Power(a.buyI + b.buyI, a.sellI + b.sellI, a.buyICount + b.buyICount, a.sellICount + b.sellICount)
  }

  function Plus(a: Totals, b: Totals): Totals {
    Totals(AddCounts(a.counts, b.counts), AddSums(a.sums, b.sums), AddPower(a.power, b.power))
  }

  lemma PlusIsAMonoid()
    ensures CommutativeMonoid(Plus, NOTHING)
  {
    forall x, y, z ensures Laws(Plus, NOTHING, x, y, z) {}
  }

  /** A row, its tier, and whether it is its share's listing session. */
  datatype Entry = Entry(flow: Flow, tier: Tier, listing: bool)

  function Count(b: bool): int { if b then 1 else 0 }

  /** What one row adds: a tier count always, figures only when it is accepted, and
      buyer power only when it is not a listing. */
  function Alone(e: Entry): Totals {
    var f, net := e.flow, e.flow.buyIValue - e.flow.sellIValue;
    var accepted := e.tier.Accepted();
    Totals(
      Counts(1, Count(e.tier == BarChecked), Count(e.tier == IdentityOnly), Count(e.tier == Excluded),
             Count(e.tier == NoTrade),
             Count(accepted && net > 0.0), Count(accepted && net < 0.0), Count(accepted && e.listing)),
      if accepted then Sums(net, Bought(f), Sold(f), f.buyIValue, f.sellIValue) else NO_SUMS,
      if accepted && !e.listing then Power(f.buyIValue, f.sellIValue, f.buyICount, f.sellICount) else NO_POWER)
  }

  function TotalsOf(entries: seq<Entry>): Totals { Fold(Map(entries, Alone), Plus, NOTHING) }

  /** The mutable accumulator. */
  class FlowAcc {
    var counts: Counts
    var sums: Sums
    var power: Power

    function Figures(): Totals
      reads this
    {
      Totals(counts, sums, power)
    }

    constructor ()
      ensures Figures() == NOTHING
    {
      counts, sums, power := NO_COUNTS, NO_SUMS, NO_POWER;
    }

    method Add(f: Flow, tier: Tier, listing: bool)
      modifies this
      ensures Figures() == Plus(old(Figures()), Alone(Entry(f, tier, listing)))
      ensures counts.rows == old(counts.rows) + 1
      ensures var accepted := tier == BarChecked || tier == IdentityOnly;
        && counts.inflowRows == old(counts.inflowRows) + Count(accepted && f.buyIValue > f.sellIValue)
        && counts.outflowRows == old(counts.outflowRows) + Count(accepted && f.buyIValue < f.sellIValue)
        && (accepted ==>
              && sums.net == old(sums.net) + f.buyIValue - f.sellIValue
              && sums.value == old(sums.value) + f.buyIValue + f.buyNValue
              && sums.sellValue == old(sums.sellValue) + f.sellIValue + f.sellNValue)
        && (!accepted ==> sums == old(sums) && power == old(power))
    {
      counts := counts.(rows := counts.rows + 1);
      match tier {
        case NoTrade =>
          counts := counts.(noTrade := counts.noTrade + 1);
          return;
        case Excluded =>
          counts := counts.(excluded := counts.excluded + 1);
          return;
        case BarChecked =>
          counts := counts.(barChecked := counts.barChecked + 1);
        case IdentityOnly =>
          counts := counts.(identityOnly := counts.identityOnly + 1);
      }
      var n := f.buyIValue - f.sellIValue;
      if n > 0.0 {
        counts := counts.(inflowRows := counts.inflowRows + 1);
      } else if n < 0.0 {
        counts := counts.(outflowRows := counts.outflowRows + 1);
      }
      sums := Sums(sums.net + n, sums.value + (f.buyIValue + f.buyNValue),
                   sums.sellValue + (f.sellIValue + f.sellNValue),
                   sums.buyI + f.buyIValue, sums.sellI + f.sellIValue);
      if listing {
        counts := counts.(listing := counts.listing + 1);
        return;
      }
      power := Power(power.buyI + f.buyIValue, power.sellI + f.sellIValue,
                     power.buyICount + f.buyICount, power.sellICount + f.sellICount);
    }

    method Merge(b: Totals)
      modifies this
      ensures Figures() == Plus(old(Figures()), b)
    {
      counts := AddCounts(counts, b.counts);
      sums := AddSums(sums, b.sums);
      power := AddPower(power, b.power);
    }
  }

  /** Adding rows one at a time, in any order, leaves their totals. */
  method AddAll(acc: FlowAcc, entries: seq<Entry>)
    modifies acc
    ensures acc.Figures() == Plus(old(acc.Figures()), TotalsOf(entries))
    ensures forall shuffled :: multiset(shuffled) == multiset(entries) ==> TotalsOf(shuffled) == TotalsOf(entries)
  {
    hide TotalsOf, Alone, Plus;
    ghost var start := acc.Figures();
    NoEntries(start);
    for i := 0 to |entries|
      invariant acc.Figures() == Plus(start, TotalsOf(entries[..i]))
    {
      OneEntryMore(start, entries, i);
      acc.Add(entries[i].flow, entries[i].tier, entries[i].listing);
    }
    assert entries[..|entries|] == entries;
    forall shuffled | multiset(shuffled) == multiset(entries) ensures TotalsOf(shuffled) == TotalsOf(entries) {
      TotalsIgnoreOrder(shuffled, entries);
    }
  }

  lemma NoEntries(start: Totals)
    ensures Plus(start, TotalsOf([])) == start
  {
    PlusIsAMonoid();
    assert Laws(Plus, NOTHING, start, NOTHING, NOTHING);
  }

  lemma OneEntryMore(start: Totals, entries: seq<Entry>, i: nat)
    requires i < |entries|
    ensures Plus(start, TotalsOf(entries[..i+1])) == Plus(Plus(start, TotalsOf(entries[..i])), Alone(entries[i]))
  {
    hide Plus, Alone;
    PlusIsAMonoid();
    assert Map(entries[..i+1], Alone) == Map(entries[..i], Alone) + [Alone(entries[i])];
    FoldAppend(Map(entries[..i], Alone), Alone(entries[i]), Plus, NOTHING);
    assert Laws(Plus, NOTHING, start, TotalsOf(entries[..i]), Alone(entries[i]));
  }

  lemma TotalsIgnoreOrder(shuffled: seq<Entry>, entries: seq<Entry>)
    requires multiset(shuffled) == multiset(entries)
    ensures TotalsOf(shuffled) == TotalsOf(entries)
  {
    PlusIsAMonoid();
    MapPermutation(shuffled, entries, Alone);
    FoldPermutation(Map(shuffled, Alone), Map(entries, Alone), Plus, NOTHING);
  }

  /** The first row, and the rest. */
  lemma TotalsSplit(entries: seq<Entry>)
    requires entries != []
    ensures TotalsOf(entries) == Plus(Alone(entries[0]), TotalsOf(entries[1..]))
  {
    assert Map(entries, Alone)[1..] == Map(entries[1..], Alone);
  }

  /** Every row is in exactly one tier. */
  predicate EveryRowTiered(c: Counts) { c.rows == c.barChecked + c.identityOnly + c.excluded + c.noTrade }

  lemma {:induction false} RowsAreTheirTiers(entries: seq<Entry>)
    ensures EveryRowTiered(TotalsOf(entries).counts) && TotalsOf(entries).counts.rows == |entries|
  {
    if entries != [] {
      RowsAreTheirTiers(entries[1..]);
      TotalsSplit(entries);
    }
  }

  // ---------------------------------------------------------------- what the figures are

  /** A count that adds up, and is one or nothing on a row, is the number of rows on
      which it is one. */
  lemma {:induction false} CountIsTally(entries: seq<Entry>, figure: Totals -> int, p: Entry -> bool)
    requires figure(NOTHING) == 0 && forall a, b :: figure(Plus(a, b)) == figure(a) + figure(b)
    requires forall e :: figure(Alone(e)) == if p(e) then 1 else 0
    ensures figure(TotalsOf(entries)) == Tally(entries, p)
  {
    if entries != [] {
      hide Alone, Plus, TotalsOf, Tally;
      CountIsTally(entries[1..], figure, p);
      TotalsSplit(entries);
      TallyFirst(entries, p);
    }
  }

  lemma {:induction false} SumIsTotal(entries: seq<Entry>, figure: Totals -> real, p: Entry -> bool,
                                      amount: Entry -> real)
    requires figure(NOTHING) == 0.0 && forall a, b :: figure(Plus(a, b)) == figure(a) + figure(b)
    requires forall e :: figure(Alone(e)) == if p(e) then amount(e) else 0.0
    ensures figure(TotalsOf(entries)) == Total(entries, p, amount)
  {
    if entries != [] {
      hide Alone, Plus, TotalsOf;
      SumIsTotal(entries[1..], figure, p, amount);
      TotalsSplit(entries);
    }
  }

  lemma {:induction false} SumIsHeadcount(entries: seq<Entry>, figure: Totals -> int, p: Entry -> bool,
                                          amount: Entry -> int)
    requires figure(NOTHING) == 0 && forall a, b :: figure(Plus(a, b)) == figure(a) + figure(b)
    requires forall e :: figure(Alone(e)) == if p(e) then amount(e) else 0
    ensures figure(TotalsOf(entries)) == Headcount(entries, p, amount)
  {
    if entries != [] {
      hide Alone, Plus, TotalsOf;
      SumIsHeadcount(entries[1..], figure, p, amount);
      TotalsSplit(entries);
    }
  }

  /** The counts of a table, read off its rows: how many lie in each tier, how many of
      the accepted ones individuals bought or sold on balance, how many list. */
  lemma TierCountsExactly(entries: seq<Entry>)
    ensures var c := TotalsOf(entries).counts;
      && c.barChecked == Tally(entries, (e: Entry) => e.tier == BarChecked)
      && c.identityOnly == Tally(entries, (e: Entry) => e.tier == IdentityOnly)
      && c.excluded == Tally(entries, (e: Entry) => e.tier == Excluded)
      && c.noTrade == Tally(entries, (e: Entry) => e.tier == NoTrade)
  {
    hide TotalsOf;
    CountIsTally(entries, (t: Totals) => t.counts.barChecked, (e: Entry) => e.tier == BarChecked);
    CountIsTally(entries, (t: Totals) => t.counts.identityOnly, (e: Entry) => e.tier == IdentityOnly);
    CountIsTally(entries, (t: Totals) => t.counts.excluded, (e: Entry) => e.tier == Excluded);
    CountIsTally(entries, (t: Totals) => t.counts.noTrade, (e: Entry) => e.tier == NoTrade);
  }

  lemma DirectionsExactly(entries: seq<Entry>)
    ensures var c := TotalsOf(entries).counts;
      && c.inflowRows == Tally(entries, (e: Entry) =>
           (e.tier == BarChecked || e.tier == IdentityOnly) && e.flow.buyIValue > e.flow.sellIValue)
      && c.outflowRows == Tally(entries, (e: Entry) =>
           (e.tier == BarChecked || e.tier == IdentityOnly) && e.flow.buyIValue < e.flow.sellIValue)
      && c.listing == Tally(entries, (e: Entry) => (e.tier == BarChecked || e.tier == IdentityOnly) && e.listing)
  {
    hide TotalsOf;
    var entered := (e: Entry) =>
        (e.tier == BarChecked || e.tier == IdentityOnly) && e.flow.buyIValue > e.flow.sellIValue;
    var left := (e: Entry) =>
        (e.tier == BarChecked || e.tier == IdentityOnly) && e.flow.buyIValue < e.flow.sellIValue;
    var lists := (e: Entry) => (e.tier == BarChecked || e.tier == IdentityOnly) && e.listing;
    CountIsTally(entries, (t: Totals) => t.counts.inflowRows, entered);
    CountIsTally(entries, (t: Totals) => t.counts.outflowRows, left);
    CountIsTally(entries, (t: Totals) => t.counts.listing, lists);
  }

  /** What the accepted rows add up to. */
  lemma SumsExactly(entries: seq<Entry>)
    ensures var s := TotalsOf(entries).sums;
      var accepted := (e: Entry) => e.tier == BarChecked || e.tier == IdentityOnly;
      && s.net == Total(entries, accepted, (e: Entry) => e.flow.buyIValue - e.flow.sellIValue)
      && s.value == Total(entries, accepted, (e: Entry) => e.flow.buyIValue + e.flow.buyNValue)
      && s.sellValue == Total(entries, accepted, (e: Entry) => e.flow.sellIValue + e.flow.sellNValue)
      && s.buyI == Total(entries, accepted, (e: Entry) => e.flow.buyIValue)
      && s.sellI == Total(entries, accepted, (e: Entry) => e.flow.sellIValue)
  {
    hide TotalsOf;
    var accepted := (e: Entry) => e.tier == BarChecked || e.tier == IdentityOnly;
    SumIsTotal(entries, (t: Totals) => t.sums.net, accepted, (e: Entry) => e.flow.buyIValue - e.flow.sellIValue);
    SumIsTotal(entries, (t: Totals) => t.sums.value, accepted, (e: Entry) => e.flow.buyIValue + e.flow.buyNValue);
    SumIsTotal(entries, (t: Totals) => t.sums.sellValue, accepted, (e: Entry) => e.flow.sellIValue + e.flow.sellNValue);
    SumIsTotal(entries, (t: Totals) => t.sums.buyI, accepted, (e: Entry) => e.flow.buyIValue);
    SumIsTotal(entries, (t: Totals) => t.sums.sellI, accepted, (e: Entry) => e.flow.sellIValue);
  }

  /** Buyer power's own sums leave listing sessions out. */
  lemma PowerExactly(entries: seq<Entry>)
    ensures var p := TotalsOf(entries).power;
      var moved := (e: Entry) => (e.tier == BarChecked || e.tier == IdentityOnly) && !e.listing;
      && p.buyI == Total(entries, moved, (e: Entry) => e.flow.buyIValue)
      && p.sellI == Total(entries, moved, (e: Entry) => e.flow.sellIValue)
      && p.buyICount == Headcount(entries, moved, (e: Entry) => e.flow.buyICount)
      && p.sellICount == Headcount(entries, moved, (e: Entry) => e.flow.sellICount)
  {
    hide TotalsOf;
    var moved := (e: Entry) => (e.tier == BarChecked || e.tier == IdentityOnly) && !e.listing;
    SumIsTotal(entries, (t: Totals) => t.power.buyI, moved, (e: Entry) => e.flow.buyIValue);
    SumIsTotal(entries, (t: Totals) => t.power.sellI, moved, (e: Entry) => e.flow.sellIValue);
    SumIsHeadcount(entries, (t: Totals) => t.power.buyICount, moved, (e: Entry) => e.flow.buyICount);
    SumIsHeadcount(entries, (t: Totals) => t.power.sellICount, moved, (e: Entry) => e.flow.sellICount);
  }

  // ---------------------------------------------------------------- the institutional side

  /** What institutions really bought less what they sold, over accepted rows. */
  function InstitutionalNet(entries: seq<Entry>): real {
    if entries == [] then 0.0
    else (if entries[0].tier.Accepted() then entries[0].flow.buyNValue - entries[0].flow.sellNValue else 0.0)
         + InstitutionalNet(entries[1..])
  }

  function LargerSides(entries: seq<Entry>): real {
    if entries == [] then 0.0
    else (if entries[0].tier.Accepted() then Max(Bought(entries[0].flow), Sold(entries[0].flow)) else 0.0)
         + LargerSides(entries[1..])
  }

  lemma AbsAdds(x: real, y: real, a: real, b: real)
    requires Abs(x) <= a && Abs(y) <= b
    ensures Abs(x + y) <= a + b
  {}

  /** The stated institutional flow, the negative of the individual one, less the
      true one. */
  function StatedLessTrue(entries: seq<Entry>): real { -TotalsOf(entries).sums.net - InstitutionalNet(entries) }

  /** By how much one row's two sides differ, when it counts. */
  function OffBy(e: Entry): real { if e.tier.Accepted() then Sold(e.flow) - Bought(e.flow) else 0.0 }

  lemma OneRowOff(entries: seq<Entry>)
    requires entries != []
    ensures StatedLessTrue(entries) == OffBy(entries[0]) + StatedLessTrue(entries[1..])
  {
    TotalsSplit(entries);
  }

  lemma RowOffIsSmall(e: Entry)
    requires e.tier.Accepted() ==> Balanced(Bought(e.flow), Sold(e.flow))
    ensures Abs(OffBy(e)) <= IDENTITY_TOLERANCE * (if e.tier.Accepted() then Max(Bought(e.flow), Sold(e.flow)) else 0.0)
  {}

  /** Stating the institutional flow as the negative of the individual one is off by
      no more than the identity's tolerance of the traded value. */
  lemma {:induction false} InstitutionalIsTheOtherSide(entries: seq<Entry>)
    requires forall e :: e in entries && e.tier.Accepted() ==> Balanced(Bought(e.flow), Sold(e.flow))
    ensures Abs(StatedLessTrue(entries)) <= IDENTITY_TOLERANCE * LargerSides(entries)
  {
    if entries == [] {
      assert StatedLessTrue(entries) == 0.0;
    } else {
      var e, rest := entries[0], entries[1..];
      assert e in entries;
      InstitutionalIsTheOtherSide(rest);
      OneRowOff(entries);
      RowOffIsSmall(e);
      AbsAdds(OffBy(e), StatedLessTrue(rest),
              IDENTITY_TOLERANCE * (if e.tier.Accepted() then Max(Bought(e.flow), Sold(e.flow)) else 0.0),
              IDENTITY_TOLERANCE * LargerSides(rest));
    }
  }

  /** Every accepted row of a classified table is balanced, so the bound holds of it. */
  lemma ClassifiedRowsAreBalanced(entries: seq<Entry>, stated: Flow -> Option<real>)
    requires forall e :: e in entries ==> e.tier == Classify(e.flow, stated(e.flow))
    ensures Abs(StatedLessTrue(entries)) <= IDENTITY_TOLERANCE * LargerSides(entries)
  {
    forall e | e in entries && e.tier.Accepted() ensures Balanced(Bought(e.flow), Sold(e.flow)) {
      AcceptedIsBalanced(e.flow, stated(e.flow));
    }
    InstitutionalIsTheOtherSide(entries);
  }

  // ---------------------------------------------------------------- a roster share's own summary

  datatype Summary = Summary(
    sessions: int, consistent: int, excluded: int, inflowSessions: int, outflowSessions: int,
    net: real, total: real, sellTotal: real, buyI: real, sellI: real, buyCount: int, sellCount: int)

  function CheckedEntry(f: Flow): Entry { Entry(f, if Check(f) == Consistent then BarChecked else Excluded, false) }

  function MarketEntry(f: Flow): Entry { Entry(f, Classify(f, None), false) }

  predicate Summarizes(s: Summary, t: Totals) {
    && s.sessions == t.counts.rows && s.consistent == t.counts.barChecked && s.excluded == t.counts.excluded
    && s.inflowSessions == t.counts.inflowRows && s.outflowSessions == t.counts.outflowRows
    && Sums(s.net, s.total, s.sellTotal, s.buyI, s.sellI) == t.sums
    && s.buyCount == t.power.buyICount && s.sellCount == t.power.sellICount
  }

  /** Sums up the sessions that pass the roster's check. */
  method SummarizeFlows(sessions: seq<Flow>) returns (s: Summary)
    ensures Summarizes(s, TotalsOf(Map(sessions, CheckedEntry)))
    ensures s.sessions == |sessions|
    ensures s.consistent == Tally(sessions, (f: Flow) => Check(f) == Consistent)
    ensures s.excluded == Tally(sessions, (f: Flow) => Check(f) != Consistent)
    ensures s.inflowSessions == Tally(sessions, (f: Flow) => Check(f) == Consistent && f.buyIValue > f.sellIValue)
    ensures s.outflowSessions == Tally(sessions, (f: Flow) => Check(f) == Consistent && f.buyIValue < f.sellIValue)
    ensures var consistent := (f: Flow) => Check(f) == Consistent;
      && s.net == Total(sessions, consistent, (f: Flow) => f.buyIValue - f.sellIValue)
      && s.total == Total(sessions, consistent, (f: Flow) => f.buyIValue + f.buyNValue)
      && s.sellTotal == Total(sessions, consistent, (f: Flow) => f.sellIValue + f.sellNValue)
      && s.buyI == Total(sessions, consistent, (f: Flow) => f.buyIValue)
      && s.sellI == Total(sessions, consistent, (f: Flow) => f.sellIValue)
      && s.buyCount == Headcount(sessions, consistent, (f: Flow) => f.buyICount)
      && s.sellCount == Headcount(sessions, consistent, (f: Flow) => f.sellICount)
  {
    hide Check, Tally, Total, Headcount;
    s := Summary(0, 0, 0, 0, 0, 0.0, 0.0, 0.0, 0.0, 0.0, 0, 0);
    for i := 0 to |sessions|
      invariant Summarizes(s, TotalsOf(Map(sessions[..i], CheckedEntry)))
    {
      var f := sessions[i];
      CheckedGrows(sessions, i);
      s := s.(sessions := s.sessions + 1);
      if Check(f) != Consistent {
        s := s.(excluded := s.excluded + 1);
      } else {
        var n := f.buyIValue - f.sellIValue;
        s := s.(consistent := s.consistent + 1, net := s.net + n, total := s.total + Bought(f),
                sellTotal := s.sellTotal + Sold(f),
                buyI := s.buyI + f.buyIValue, sellI := s.sellI + f.sellIValue,
                buyCount := s.buyCount + f.buyICount, sellCount := s.sellCount + f.sellICount,
                inflowSessions := s.inflowSessions + Count(n > 0.0),
                outflowSessions := s.outflowSessions + Count(n < 0.0));
      }
    }
    assert sessions[..|sessions|] == sessions;
    SummaryExactly(sessions);
  }

  /** The roster's figures, read off the sessions that pass its check. */
  lemma SummaryExactly(sessions: seq<Flow>)
    ensures var t := TotalsOf(Map(sessions, CheckedEntry));
      var consistent := (f: Flow) => Check(f) == Consistent;
      && t.counts.rows == |sessions|
      && t.counts.barChecked == Tally(sessions, consistent)
      && t.counts.excluded == Tally(sessions, (f: Flow) => Check(f) != Consistent)
      && t.counts.inflowRows == Tally(sessions, (f: Flow) => Check(f) == Consistent && f.buyIValue > f.sellIValue)
      && t.counts.outflowRows == Tally(sessions, (f: Flow) => Check(f) == Consistent && f.buyIValue < f.sellIValue)
      && t.sums.net == Total(sessions, consistent, (f: Flow) => f.buyIValue - f.sellIValue)
      && t.sums.value == Total(sessions, consistent, (f: Flow) => f.buyIValue + f.buyNValue)
      && t.sums.sellValue == Total(sessions, consistent, (f: Flow) => f.sellIValue + f.sellNValue)
      && t.sums.buyI == Total(sessions, consistent, (f: Flow) => f.buyIValue)
      && t.sums.sellI == Total(sessions, consistent, (f: Flow) => f.sellIValue)
      && t.power.buyICount == Headcount(sessions, consistent, (f: Flow) => f.buyICount)
      && t.power.sellICount == Headcount(sessions, consistent, (f: Flow) => f.sellICount)
  {
    hide Check, TotalsOf, Tally, Total, Headcount;
    var entries, all := Map(sessions, CheckedEntry), (f: Flow) => true;
    MapIsPick(sessions, CheckedEntry, all);
    RowsAreTheirTiers(entries);
    TierCountsExactly(entries);
    DirectionsExactly(entries);
    SumsExactly(entries);
    PowerExactly(entries);
    var consistent := (f: Flow) => Check(f) == Consistent;
    var accepted := (e: Entry) => e.tier == BarChecked || e.tier == IdentityOnly;
    var moved := (e: Entry) => (e.tier == BarChecked || e.tier == IdentityOnly) && !e.listing;
    TallyOfPick(sessions, all, CheckedEntry, (e: Entry) => e.tier == BarChecked, consistent);
    TallyOfPick(sessions, all, CheckedEntry, (e: Entry) => e.tier == Excluded, (f: Flow) => Check(f) != Consistent);
    TallyOfPick(sessions, all, CheckedEntry,
                (e: Entry) =>
        (e.tier == BarChecked || e.tier == IdentityOnly) && e.flow.buyIValue > e.flow.sellIValue,
                (f: Flow) => Check(f) == Consistent && f.buyIValue > f.sellIValue);
    TallyOfPick(sessions, all, CheckedEntry,
                (e: Entry) =>
        (e.tier == BarChecked || e.tier == IdentityOnly) && e.flow.buyIValue < e.flow.sellIValue,
                (f: Flow) => Check(f) == Consistent && f.buyIValue < f.sellIValue);
    TotalOfPick(sessions, all, CheckedEntry, accepted, (e: Entry) => e.flow.buyIValue - e.flow.sellIValue,
                consistent, (f: Flow) => f.buyIValue - f.sellIValue);
    TotalOfPick(sessions, all, CheckedEntry, accepted, (e: Entry) => e.flow.buyIValue + e.flow.buyNValue,
                consistent, (f: Flow) => f.buyIValue + f.buyNValue);
    TotalOfPick(sessions, all, CheckedEntry, accepted, (e: Entry) => e.flow.sellIValue + e.flow.sellNValue,
                consistent, (f: Flow) => f.sellIValue + f.sellNValue);
    TotalOfPick(sessions, all, CheckedEntry, accepted, (e: Entry) => e.flow.buyIValue,
                consistent, (f: Flow) => f.buyIValue);
    TotalOfPick(sessions, all, CheckedEntry, accepted, (e: Entry) => e.flow.sellIValue,
                consistent, (f: Flow) => f.sellIValue);
    HeadcountOfPick(sessions, all, CheckedEntry, moved, (e: Entry) => e.flow.buyICount,
                    consistent, (f: Flow) => f.buyICount);
    HeadcountOfPick(sessions, all, CheckedEntry, moved, (e: Entry) => e.flow.sellICount,
                    consistent, (f: Flow) => f.sellICount);
  }

  lemma {:induction false} MapIsPick<T(!new), A>(xs: seq<T>, f: T -> A, all: T -> bool)
    requires forall x :: all(x)
    ensures Map(xs, f) == Pick(xs, all, f)
  {
    if xs != [] {
      MapIsPick(xs[1..], f, all);
      assert Map(xs, f) == [f(xs[0])] + Map(xs[1..], f);
    }
  }

  lemma CheckedGrows(sessions: seq<Flow>, i: nat)
    requires i < |sessions|
    ensures TotalsOf(Map(sessions[..i+1], CheckedEntry))
         == Plus(TotalsOf(Map(sessions[..i], CheckedEntry)), Alone(CheckedEntry(sessions[i])))
  {
    var done, next := Map(sessions[..i], CheckedEntry), CheckedEntry(sessions[i]);
    PlusIsAMonoid();
    assert Map(sessions[..i+1], CheckedEntry) == done + [next];
    assert Map(done + [next], Alone) == Map(done, Alone) + [Alone(next)];
    FoldAppend(Map(done, Alone), Alone(next), Plus, NOTHING);
  }

  /** The roster's gate and the market's accept the same session. */
  predicate GatesAgree(f: Flow) { Check(f) == Consistent <==> Classify(f, None).Accepted() }

  /** They do exactly when the session has no value, when its values disagree, or when
      its volumes answer the daily bar: disagreeing where there is none, agreeing
      where the total is near the bar's. */
  lemma GatesAgreeExactly(f: Flow)
    ensures GatesAgree(f) <==>
            || (Bought(f) <= 0.0 && Sold(f) <= 0.0)
            || !Balanced(Bought(f), Sold(f))
            || (if f.barValue.None? then !VolumesAgree(f)
                else Near(Bought(f), f.barValue.value) ==> VolumesAgree(f))
  {}

  /** A session without a daily bar whose volumes agree: the market accepts it, the
      roster does not. */
  lemma MarketAloneAccepts()
    ensures var f := Flow(1, 1, 1, 1, 1, 10.0, 0.0, 0.0, 10.0, 500.0, 0.0, 0.0, 500.0, None);
      Check(f) == NoBar && Classify(f, None) == IdentityOnly && !GatesAgree(f)
  {
    hide GatesAgree;
    EqualIsBalanced(500.0);
    EqualIsBalanced(10.0);
    GatesAgreeExactly(Flow(1, 1, 1, 1, 1, 10.0, 0.0, 0.0, 10.0, 500.0, 0.0, 0.0, 500.0, None));
  }

  lemma EqualIsBalanced(x: real)
    requires x > 0.0
    ensures Balanced(x, x) && Near(x, x)
  {
    assert x / x == 1.0;
  }

  /** A session near its bar whose volumes disagree: the roster accepts it, the market
      does not. */
  lemma RosterAloneAccepts()
    ensures var f := Flow(1, 1, 1, 1, 1, 10.0, 0.0, 0.0, 20.0, 500.0, 0.0, 0.0, 500.0, Some(500.0));
      Check(f) == Consistent && Classify(f, None) == Excluded && !GatesAgree(f)
  {
    hide GatesAgree, Near;
    EqualIsBalanced(500.0);
    assert !Balanced(10.0, 20.0);
    GatesAgreeExactly(Flow(1, 1, 1, 1, 1, 10.0, 0.0, 0.0, 20.0, 500.0, 0.0, 0.0, 500.0, Some(500.0)));
  }

  /** The figures the two summaries have in common. */
  predicate SameFigures(a: Totals, b: Totals) {
    && a.Accepted() == b.Accepted() && a.sums == b.sums && a.power == b.power
    && a.counts.inflowRows == b.counts.inflowRows && a.counts.outflowRows == b.counts.outflowRows
  }

  lemma SameOfOne(f: Flow)
    requires GatesAgree(f)
    ensures SameFigures(Alone(MarketEntry(f)), Alone(CheckedEntry(f)))
  {}

  lemma SameOfSums(a: Totals, b: Totals, c: Totals, d: Totals)
    requires SameFigures(a, b) && SameFigures(c, d)
    ensures SameFigures(Plus(a, c), Plus(b, d))
  {}

  /** Where the gates agree on every session, the roster's summary and the market's
      totals carry the same figures. */
  lemma {:induction false} SummaryAgreesWithTotals(sessions: seq<Flow>)
    requires forall f :: f in sessions ==> GatesAgree(f)
    ensures SameFigures(TotalsOf(Map(sessions, MarketEntry)), TotalsOf(Map(sessions, CheckedEntry)))
  {
    hide TotalsOf, Alone;
    if sessions != [] {
      hide Alone, Plus, GatesAgree;
      var f, rest := sessions[0], sessions[1..];
      SameOfOne(f);
      SummaryAgreesWithTotals(rest);
      TotalsSplit(Map(sessions, MarketEntry));
      TotalsSplit(Map(sessions, CheckedEntry));
      assert Map(sessions, MarketEntry)[1..] == Map(rest, MarketEntry);
      assert Map(sessions, CheckedEntry)[1..] == Map(rest, CheckedEntry);
      SameOfSums(Alone(MarketEntry(f)), Alone(CheckedEntry(f)),
                 TotalsOf(Map(rest, MarketEntry)), TotalsOf(Map(rest, CheckedEntry)));
    }
  }
}
