/** Corporate-action detection and back-adjustment of one instrument's daily bars.

    Prices are exact reals. A bar's reference, `priceYesterday`, is the price the
    exchange opened the session against; where it disagrees with the previous
    close the basis of the price was restated. */
module Adjustment {
  import opened Wrappers

  datatype Bar = Bar(date: int, finalClose: real, priceYesterday: real, volume: nat, tradeCount: nat) {
    predicate Traded() { volume > 0 || tradeCount > 0 }
  }

  /** Per date, the other (close, reference) pairs a served copy has stated. */
  type Alternatives = map<int, seq<(real, real)>>

  datatype Kind = ReferenceRestated | CloseRestated

  datatype Action = Action(date: int, ratio: real, factor: real, kind: Kind)

  /** What a bar says about the basis, next to the bar before it. */
  datatype Finding = Unbroken | Contested | Underivable | Restated(ratio: real, kind: Kind)

  function ClosesServed(b: Bar, alternatives: Alternatives): set<real> {
    {b.finalClose} + if b.date in alternatives then set p | p in alternatives[b.date] :: p.0 else {}
  }

  function ReferencesServed(b: Bar, alternatives: Alternatives): set<real> {
    {b.priceYesterday} + if b.date in alternatives then set p | p in alternatives[b.date] :: p.1 else {}
  }

  /** Some served copy printed the two bars as one chain. */
  predicate ChainedByACopy(previous: Bar, current: Bar, alternatives: Alternatives) {
    alternatives != map[] && ClosesServed(previous, alternatives) * ReferencesServed(current, alternatives) != {}
  }

  function Find(previous: Bar, current: Bar, alternatives: Alternatives): Finding {
    if current.priceYesterday != previous.finalClose then
      if previous.Traded() && current.Traded() && ChainedByACopy(previous, current, alternatives) then Contested
      else if current.priceYesterday <= 0.0 || previous.finalClose <= 0.0 then Underivable
      else Restated(current.priceYesterday / previous.finalClose, ReferenceRestated)
    else if !current.Traded() && current.finalClose != current.priceYesterday then
      if current.priceYesterday <= 0.0 then Underivable
      else Restated(current.finalClose / current.priceYesterday, CloseRestated)
    else Unbroken
  }

  /** A copy, the stored one or one of the alternatives, states the bar's close. */
  ghost predicate StatesClose(b: Bar, alternatives: Alternatives, close: real) {
    close == b.finalClose || (b.date in alternatives && exists p :: p in alternatives[b.date] && p.0 == close)
  }

  ghost predicate StatesReference(b: Bar, alternatives: Alternatives, reference: real) {
    || reference == b.priceYesterday
    || (b.date in alternatives && exists p :: p in alternatives[b.date] && p.1 == reference)
  }

  /** Some copy's close of the first bar is some copy's reference of the second. */
  ghost predicate CopiesChain(previous: Bar, current: Bar, alternatives: Alternatives) {
    exists price :: StatesClose(previous, alternatives, price) && StatesReference(current, alternatives, price)
  }

  /** When a bar says what, on its prices. A break at the reference is contested when
      both bars traded and some copy chains them; any other break has a ratio exactly
      when its two prices are positive, and the ratio carries one price to the other. A
      halted bar breaks at its close. */
  ghost predicate IsFinding(previous: Bar, current: Bar, alternatives: Alternatives, f: Finding) {
    var close, reference := previous.finalClose, current.priceYesterday;
    var halted := current.volume == 0 && current.tradeCount == 0;
    var contested := !halted && (previous.volume > 0 || previous.tradeCount > 0) && alternatives != map[]
        && CopiesChain(previous, current, alternatives);
    match f
    case Unbroken => reference == close && (!halted || current.finalClose == reference)
    case Contested => reference != close && contested
    case Underivable =>
      || (reference != close && !contested && (reference <= 0.0 || close <= 0.0))
      || (reference == close && halted && current.finalClose != reference && reference <= 0.0)
    case Restated(ratio, ReferenceRestated) =>
      reference != close && !contested && reference > 0.0 && close > 0.0 && ratio * close == reference
    case Restated(ratio, CloseRestated) =>
      && reference == close && halted && current.finalClose != reference && reference > 0.0
      && ratio * reference == current.finalClose
  }

  lemma ChainedExactly(previous: Bar, current: Bar, alternatives: Alternatives)
    ensures ChainedByACopy(previous, current, alternatives)
        <==> alternatives != map[] && CopiesChain(previous, current, alternatives)
  {
    var closes, references := ClosesServed(previous, alternatives), ReferencesServed(current, alternatives);
    forall price ensures price in closes <==> StatesClose(previous, alternatives, price) {
      if previous.date in alternatives {
        assert price in (set p | p in alternatives[previous.date] :: p.0)
            <==> exists p :: p in alternatives[previous.date] && p.0 == price;
      }
    }
    forall price ensures price in references <==> StatesReference(current, alternatives, price) {
      if current.date in alternatives {
        assert price in (set p | p in alternatives[current.date] :: p.1)
            <==> exists p :: p in alternatives[current.date] && p.1 == price;
      }
    }
    assert closes * references != {} <==> exists price :: price in closes && price in references by {
      assert forall price :: price in closes && price in references ==> price in closes * references;
    }
  }

  lemma FindExactly(previous: Bar, current: Bar, alternatives: Alternatives)
    ensures IsFinding(previous, current, alternatives, Find(previous, current, alternatives))
  {
    hide ChainedByACopy, CopiesChain;
    ChainedExactly(previous, current, alternatives);
  }

  ghost predicate Ascending(bars: seq<Bar>) { forall i, j :: 0 <= i < j < |bars| ==> bars[i].date < bars[j].date }

  /** What the bar at `i` says; the first bar has none before it and says nothing. */
  function FindingAt(bars: seq<Bar>, alternatives: Alternatives, i: int): Finding
    requires 0 <= i < |bars|
  {
    if i == 0 then Unbroken else Find(bars[i-1], bars[i], alternatives)
  }

  function Findings(bars: seq<Bar>, alternatives: Alternatives): (found: seq<Finding>)
    ensures |found| == |bars|
  {
    seq(|bars|, i requires 0 <= i < |bars| => FindingAt(bars, alternatives, i))
  }

  ghost predicate Derivable(bars: seq<Bar>, alternatives: Alternatives) {
    Underivable !in Findings(bars, alternatives)
  }

  /** One of the first `n` bars shows the action. */
  ghost predicate Shown(bars: seq<Bar>, found: seq<Finding>, n: nat, a: Action)
    requires n <= |bars| == |found|
  {
    exists i :: 0 <= i < n && found[i] == Restated(a.ratio, a.kind) && bars[i].date == a.date
  }

  ghost predicate HasActionOn(actions: seq<Action>, date: int) {
    exists k :: 0 <= k < |actions| && actions[k].date == date
  }

  ghost predicate OldestFirst(actions: seq<Action>) {
    forall j, k :: 0 <= j < k < |actions| ==> actions[j].date < actions[k].date
  }

  /** `actions` records the restatements of the first `n` bars: oldest first, each
      at the bar that shows it, and none missed. */
  ghost predicate Records(bars: seq<Bar>, found: seq<Finding>, n: nat, actions: seq<Action>)
    requires n <= |bars| == |found|
  {
    && OldestFirst(actions)
    && (forall a :: a in actions ==> Shown(bars, found, n, a))
    && (forall i :: 0 <= i < n && found[i].Restated? ==> HasActionOn(actions, bars[i].date))
  }

  lemma ShownLater(bars: seq<Bar>, found: seq<Finding>, n: nat, a: Action)
    requires n < |bars| == |found| && Shown(bars, found, n, a)
    ensures Shown(bars, found, n + 1, a)
  {}

  lemma ShownBefore(bars: seq<Bar>, found: seq<Finding>, n: nat, a: Action)
    requires Ascending(bars) && n < |bars| == |found| && Shown(bars, found, n, a)
    ensures a.date < bars[n].date
  {}

  lemma RecordsNothingNew(bars: seq<Bar>, found: seq<Finding>, n: nat, actions: seq<Action>)
    requires n < |bars| == |found| && Records(bars, found, n, actions) && !found[n].Restated?
    ensures Records(bars, found, n + 1, actions)
  {
    forall a | a in actions ensures Shown(bars, found, n + 1, a) { ShownLater(bars, found, n, a); }
  }

  lemma RecordsOneMore(bars: seq<Bar>, found: seq<Finding>, n: nat, actions: seq<Action>, a: Action)
    requires Ascending(bars) && n < |bars| == |found| && Records(bars, found, n, actions)
    requires found[n] == Restated(a.ratio, a.kind) && a.date == bars[n].date
    ensures Records(bars, found, n + 1, actions + [a])
  {
    var more := actions + [a];
    forall x | x in more ensures Shown(bars, found, n + 1, x) {
      if x in actions { ShownLater(bars, found, n, x); }
    }
    forall k | 0 <= k < |actions| ensures more[k].date < a.date { ShownBefore(bars, found, n, actions[k]); }
    forall i | 0 <= i < n + 1 && found[i].Restated? ensures HasActionOn(more, bars[i].date) {
      ActionsOnMore(actions, a, bars[i].date);
    }
  }

  lemma ActionsOnMore(actions: seq<Action>, a: Action, date: int)
    ensures HasActionOn(actions, date) || date == a.date ==> HasActionOn(actions + [a], date)
  {
    var more := actions + [a];
    if HasActionOn(actions, date) {
      var k :| 0 <= k < |actions| && actions[k].date == date;
      assert more[k].date == date;
    }
    assert more[|actions|].date == a.date;
  }

  ghost predicate ContestedOn(bars: seq<Bar>, found: seq<Finding>, n: nat, date: int)
    requires n <= |bars| == |found|
  {
    exists i :: 0 <= i < n && found[i] == Contested && bars[i].date == date
  }

  ghost predicate ListsContested(bars: seq<Bar>, found: seq<Finding>, n: nat, contested: seq<int>)
    requires n <= |bars| == |found|
  {
    forall d :: d in contested <==> ContestedOn(bars, found, n, d)
  }

  lemma ContestedGrows(bars: seq<Bar>, found: seq<Finding>, n: nat, contested: seq<int>)
    requires n < |bars| == |found| && ListsContested(bars, found, n, contested)
    ensures ListsContested(bars, found, n + 1, if found[n] == Contested then contested + [bars[n].date] else contested)
  {
    var more := if found[n] == Contested then contested + [bars[n].date] else contested;
    forall d ensures d in more <==> ContestedOn(bars, found, n + 1, d) {
      assert d in more <==> d in contested || (found[n] == Contested && d == bars[n].date);
    }
  }

  /** Finds every restatement, oldest first, and the contested breaks. A ratio that
      cannot be formed refuses the series, naming the first bar where that happens. */
  method DetectActions(bars: seq<Bar>, alternatives: Alternatives) returns (r: Result<(seq<Action>, seq<int>), int>)
    requires Ascending(bars)
    ensures r.Ok? <==> Derivable(bars, alternatives)
    ensures r.Ok? ==> Records(bars, Findings(bars, alternatives), |bars|, r.value.0)
    ensures r.Ok? ==> ListsContested(bars, Findings(bars, alternatives), |bars|, r.value.1)
    ensures r.Err? ==>
        exists i :: 0 <= i < |bars| && Findings(bars, alternatives)[i] == Underivable && bars[i].date == r.error
  {
    hide Ascending;
    ghost var findings := Findings(bars, alternatives);
    var actions: seq<Action>, contested: seq<int> := [], [];
    if bars == [] {
      return Ok((actions, contested));
    }
    for index := 1 to |bars|
      invariant Records(bars, findings, index, actions)
      invariant forall i :: 0 <= i < index ==> findings[i] != Underivable
      invariant ListsContested(bars, findings, index, contested)
    {
      var previous, current := bars[index-1], bars[index];
      var found := Find(previous, current, alternatives);
      assert findings[index] == found;
      ContestedGrows(bars, findings, index, contested);
      match found {
        case Contested =>
          RecordsNothingNew(bars, findings, index, actions);
          contested := contested + [current.date];
        case Underivable =>
          return Err(current.date);
        case Restated(ratio, kind) =>
          var a := Action(current.date, ratio, 1.0, kind);
          RecordsOneMore(bars, findings, index, actions, a);
          actions := actions + [a];
        case Unbroken =>
          RecordsNothingNew(bars, findings, index, actions);
      }
    }
    return Ok((actions, contested));
  }

  // ---------------------------------------------------------------- factors

  /** The product of the ratios of `actions`. */
  function RatioProduct(actions: seq<Action>): real {
    if actions == [] then 1.0 else actions[0].ratio * RatioProduct(actions[1..])
  }

  /** Each action's factor is the product of its ratio and every later one. */
  function Chain(actions: seq<Action>): (chained: seq<Action>)
    ensures |chained| == |actions|
  {
    if actions == [] then []
    else [actions[0].(factor := RatioProduct(actions))] + Chain(actions[1..])
  }

  lemma {:induction false} ChainAt(actions: seq<Action>, k: nat)
    requires k < |actions|
    ensures Chain(actions)[k] == actions[k].(factor := RatioProduct(actions[k..]))
  {
    if k == 0 {
      assert actions[0..] == actions;
    } else {
      assert actions[1..][k-1..] == actions[k..];
      ChainAt(actions[1..], k - 1);
    }
  }

  /** Fills in the factors, chaining a running product from the newest action. */
  method ChainFactors(actions: seq<Action>) returns (chained: seq<Action>)
    ensures chained == Chain(actions)
  {
    chained := [];
    var running := 1.0;
    for k := |actions| downto 0
      invariant running == RatioProduct(actions[k..]) && chained == Chain(actions[k..])
    {
      assert actions[k..][1..] == actions[k+1..];
      running := actions[k].ratio * running;
      chained := [actions[k].(factor := running)] + chained;
    }
    assert actions[0..] == actions;
  }

  /** The read rule: the factor of the first action strictly after the day, and 1
      when none follows. */
  function FactorAfter(actions: seq<Action>, day: int): real {
    if actions == [] then 1.0
    else if actions[0].date > day then actions[0].factor
    else FactorAfter(actions[1..], day)
  }

  lemma {:induction false} FactorAfterFrom(actions: seq<Action>, day: int, cursor: nat)
    requires cursor <= |actions| && forall k :: 0 <= k < cursor ==> actions[k].date <= day
    ensures FactorAfter(actions, day) == FactorAfter(actions[cursor..], day)
    ensures cursor < |actions| && actions[cursor].date > day ==> FactorAfter(actions, day) == actions[cursor].factor
    ensures cursor == |actions| ==> FactorAfter(actions, day) == 1.0
    decreases cursor
  {
    if cursor == 0 {
      assert actions[0..] == actions;
    } else {
      assert actions[1..][cursor-1..] == actions[cursor..];
      FactorAfterFrom(actions[1..], day, cursor - 1);
    }
  }

  /** Back-adjusted closes in one walk over bars and actions. */
  method ApplyFactors(bars: seq<Bar>, actions: seq<Action>) returns (out: seq<real>)
    requires Ascending(bars) && forall i, j :: 0 <= i < j < |actions| ==> actions[i].date < actions[j].date
    ensures |out| == |bars|
    ensures forall i :: 0 <= i < |bars| ==> out[i] == bars[i].finalClose * FactorAfter(actions, bars[i].date)
  {
    out := [];
    var cursor := 0;
    for i := 0 to |bars|
      invariant cursor <= |actions| && |out| == i
      invariant i == 0 ==> cursor == 0
      invariant i > 0 ==> forall k :: 0 <= k < cursor ==> actions[k].date <= bars[i-1].date
      invariant forall j :: 0 <= j < i ==> out[j] == bars[j].finalClose * FactorAfter(actions, bars[j].date)
    {
      while cursor < |actions| && actions[cursor].date <= bars[i].date
        invariant cursor <= |actions|
        invariant forall k :: 0 <= k < cursor ==> actions[k].date <= bars[i].date
      {
        cursor := cursor + 1;
      }
      FactorAfterFrom(actions, bars[i].date, cursor);
      out := out + [bars[i].finalClose * (if cursor < |actions| then actions[cursor].factor else 1.0)];
    }
  }

  // ---------------------------------------------------------------- what a bar's return is

  /** The back-adjusted close of the bar at `i`. */
  function Adjusted(bars: seq<Bar>, chained: seq<Action>, i: nat): real
    requires i < |bars|
  {
    bars[i].finalClose * FactorAfter(chained, bars[i].date)
  }

  function AdjustedSeries(bars: seq<Bar>, chained: seq<Action>): (adjusted: seq<real>)
    ensures |adjusted| == |bars|
  {
    seq(|bars|, i requires 0 <= i < |bars| => Adjusted(bars, chained, i))
  }

  /** By how much a finding changes the basis. */
  function RatioOf(f: Finding): real { if f.Restated? then f.ratio else 1.0 }

  lemma {:induction false} FactorAfterSplit(actions: seq<Action>, day: int, c: nat)
    requires c <= |actions| && OldestFirst(actions)
    requires forall k :: 0 <= k < c ==> actions[k].date <= day
    requires forall k :: c <= k < |actions| ==> actions[k].date > day
    ensures FactorAfter(Chain(actions), day) == RatioProduct(actions[c..])
  {
    var chained := Chain(actions);
    forall k | 0 <= k < |actions| ensures chained[k].date == actions[k].date { ChainAt(actions, k); }
    FactorAfterFrom(chained, day, c);
    if c < |actions| { ChainAt(actions, c); }
  }

  /** The first action strictly after a day. */
  lemma {:induction false} FirstAfter(actions: seq<Action>, day: int) returns (c: nat)
    requires OldestFirst(actions)
    ensures c <= |actions|
    ensures forall k :: 0 <= k < c ==> actions[k].date <= day
    ensures forall k :: c <= k < |actions| ==> actions[k].date > day
  {
    c := 0;
    while c < |actions| && actions[c].date <= day
      invariant c <= |actions| && forall k :: 0 <= k < c ==> actions[k].date <= day
    {
      c := c + 1;
    }
  }

  lemma ActionIsAtBar(bars: seq<Bar>, found: seq<Finding>, actions: seq<Action>, i: nat, k: nat)
    requires Ascending(bars) && |found| == |bars| && Records(bars, found, |bars|, actions) && k < |actions|
        && 1 <= i < |bars|
    requires bars[i-1].date < actions[k].date <= bars[i].date
    ensures actions[k].date == bars[i].date && found[i] == Restated(actions[k].ratio, actions[k].kind)
  {
    assert Shown(bars, found, |bars|, actions[k]);
    var j :| 0 <= j < |bars| && found[j] == Restated(actions[k].ratio, actions[k].kind)
        && bars[j].date == actions[k].date;
    assert j == i;
  }

  /** Between two bars lies the action of the later one, when it has one, and no other. */
  lemma ActionsBetween(bars: seq<Bar>, found: seq<Finding>, actions: seq<Action>, i: nat, c: nat, d: nat)
    requires Ascending(bars) && |found| == |bars| && Records(bars, found, |bars|, actions) && 1 <= i < |bars|
    requires c <= |actions| && d <= |actions|
    requires forall k :: 0 <= k < c ==> actions[k].date <= bars[i-1].date
    requires forall k :: c <= k < |actions| ==> actions[k].date > bars[i-1].date
    requires forall k :: 0 <= k < d ==> actions[k].date <= bars[i].date
    requires forall k :: d <= k < |actions| ==> actions[k].date > bars[i].date
    ensures if found[i].Restated? then d == c + 1 && actions[c].ratio == found[i].ratio else d == c
  {
    forall k | c <= k < d
      ensures actions[k].date == bars[i].date && found[i] == Restated(actions[k].ratio, actions[k].kind)
    {
      ActionIsAtBar(bars, found, actions, i, k);
    }
    if found[i].Restated? {
      assert HasActionOn(actions, bars[i].date);
      var k :| 0 <= k < |actions| && actions[k].date == bars[i].date;
      assert c <= k < d;
      assert actions[c].date == actions[d-1].date == actions[k].date;
    }
    var atD := if d < |actions| then actions[d].date else bars[i].date + 1;
    var past := if c + 1 < |actions| then actions[c+1].date else bars[i].date + 1;
    assert c <= d <= c + 1;
    assert c < d ==> actions[c].date == bars[i].date && found[i] == Restated(actions[c].ratio, actions[c].kind);
  }

  /** The factor changes from one bar to the next by exactly the bar's ratio. */
  lemma FactorStep(bars: seq<Bar>, found: seq<Finding>, actions: seq<Action>, i: nat)
    requires Ascending(bars) && |found| == |bars| && Records(bars, found, |bars|, actions) && 1 <= i < |bars|
    ensures FactorAfter(Chain(actions), bars[i-1].date) == RatioOf(found[i]) * FactorAfter(Chain(actions), bars[i].date)
  {
    hide Chain;
    var c := FirstAfter(actions, bars[i-1].date);
    var d := FirstAfter(actions, bars[i].date);
    FactorAfterSplit(actions, bars[i-1].date, c);
    FactorAfterSplit(actions, bars[i].date, d);
    ActionsBetween(bars, found, actions, i, c, d);
    if c < d { assert actions[c..][1..] == actions[d..]; }
  }
}
