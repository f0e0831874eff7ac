/** What a group's figures rest on: the share-sessions the exchange's day files show
    trading, and those of them with a stored flow, by count and by value. */
module Coverage {
  import opened Folds
  import opened Tallies

  datatype Cover = Cover(dayFile: int, withFlow: int, dayValue: real, withFlowValue: real)

  const NO_COVER := Cover(0, 0, 0.0, 0.0)
  const MIN_FLOW_COVERAGE := 0.9

  function Join(a: Cover, b: Cover): Cover {
    Cover(a.dayFile + b.dayFile, a.withFlow + b.withFlow, a.dayValue + b.dayValue, a.withFlowValue + b.withFlowValue)
  }

  /** One share-session a day file shows trading. */
  function One(value: real, flowed: bool): Cover {
    Cover(1, if flowed then 1 else 0, value, if flowed then value else 0.0)
  }

  lemma JoinIsAMonoid()
    ensures CommutativeMonoid(Join, NO_COVER)
  {
    forall x, y, z ensures Laws(Join, NO_COVER, x, y, z) {}
  }

  /** Flow for nine tenths of the share-sessions, by count and by value; a group the
      day files never show trading misses nothing. */
  predicate Meets(c: Cover) {
    c.dayFile == 0
    || (c.withFlow as real >= MIN_FLOW_COVERAGE * c.dayFile as real
        && (c.dayValue <= 0.0 || c.withFlowValue >= MIN_FLOW_COVERAGE * c.dayValue))
  }

  /** The rule without its decimals. */
  lemma MeetsExactly(c: Cover)
    ensures Meets(c) <==>
            || c.dayFile == 0
            || (10 * c.withFlow >= 9 * c.dayFile
                && (c.dayValue <= 0.0 || 10.0 * c.withFlowValue >= 9.0 * c.dayValue))
  {}

  /** What counting non-negative values can give. */
  predicate Possible(c: Cover) {
    && 0 <= c.withFlow <= c.dayFile
    && 0.0 <= c.withFlowValue <= c.dayValue
    && (c.dayFile == 0 ==> c.dayValue == 0.0)
  }

  /** The rule is kept by joining groups. */
  lemma MeetsIsClosed(a: Cover, b: Cover)
    requires Possible(a) && Possible(b) && Meets(a) && Meets(b)
    ensures Possible(Join(a, b)) && Meets(Join(a, b))
  {}

  /** A sector whose shares all meet the rule meets it. */
  lemma {:induction false} GroupMeets(covers: seq<Cover>)
    requires forall c :: c in covers ==> Possible(c) && Meets(c)
    ensures Possible(Fold(covers, Join, NO_COVER)) && Meets(Fold(covers, Join, NO_COVER))
  {
    if covers != [] {
      assert covers[0] in covers;
      GroupMeets(covers[1..]);
      MeetsIsClosed(covers[0], Fold(covers[1..], Join, NO_COVER));
    }
  }

  /** The mutable accumulator. */
  class CoverageAcc {
    var dayFile: int
    var withFlow: int
    var dayValue: real
    var withFlowValue: real

    function Value(): Cover
      reads this
    {
      Cover(dayFile, withFlow, dayValue, withFlowValue)
    }

    constructor ()
      ensures Value() == NO_COVER
    {
      dayFile, withFlow, dayValue, withFlowValue := 0, 0, 0.0, 0.0;
    }

    method Add(value: real, flowed: bool)
      modifies this
      ensures Value() == Join(old(Value()), One(value, flowed))
    {
      dayFile := dayFile + 1;
      dayValue := dayValue + value;
      if flowed {
        withFlow := withFlow + 1;
        withFlowValue := withFlowValue + value;
      }
    }

    method Merge(o: Cover)
      modifies this
      ensures Value() == Join(old(Value()), o)
    {
      dayFile := dayFile + o.dayFile;
      withFlow := withFlow + o.withFlow;
      dayValue := dayValue + o.dayValue;
      withFlowValue := withFlowValue + o.withFlowValue;
    }
  }

  // ---------------------------------------------------------------- one share over a window

  /** The share's session at a calendar position, when a day file shows it trading. */
  function At(dayFile: map<int, real>, flowed: set<int>, i: int): Cover {
    if i in dayFile then One(dayFile[i], i in flowed) else NO_COVER
  }

  function Positions(dayFile: map<int, real>, flowed: set<int>, lo: nat, hi: nat): (covers: seq<Cover>)
    requires lo <= hi
    ensures |covers| == hi - lo
  {
    seq(hi - lo, k requires 0 <= k < hi - lo => At(dayFile, flowed, lo + k))
  }

  lemma PositionAt(dayFile: map<int, real>, flowed: set<int>, lo: nat, hi: nat, k: nat)
    requires lo <= hi && k < hi - lo
    ensures Positions(dayFile, flowed, lo, hi)[k] == At(dayFile, flowed, lo + k)
  {}

  /** The coverage over calendar positions [lo, hi). */
  function Over(dayFile: map<int, real>, flowed: set<int>, lo: nat, hi: nat): Cover
    requires lo <= hi
  {
    Fold(Positions(dayFile, flowed, lo, hi), Join, NO_COVER)
  }

  function Range(lo: nat, hi: nat): (r: seq<int>)
    requires lo <= hi
    ensures |r| == hi - lo && forall k :: 0 <= k < hi - lo ==> r[k] == lo + k
  {
    seq(hi - lo, k => lo + k)
  }

  lemma FirstPosition(dayFile: map<int, real>, flowed: set<int>, lo: nat, hi: nat)
    requires lo < hi
    ensures Over(dayFile, flowed, lo, hi) == Join(At(dayFile, flowed, lo), Over(dayFile, flowed, lo + 1, hi))
    ensures Range(lo, hi)[0] == lo && Range(lo, hi)[1..] == Range(lo + 1, hi)
  {
    var all, rest := Positions(dayFile, flowed, lo, hi), Positions(dayFile, flowed, lo + 1, hi);
    PositionAt(dayFile, flowed, lo, hi, 0);
    forall k | 0 <= k < hi - lo - 1 ensures all[1..][k] == rest[k] {
      PositionAt(dayFile, flowed, lo, hi, k + 1);
      PositionAt(dayFile, flowed, lo + 1, hi, k);
    }
    assert all[1..] == rest;
  }

  /** A share's coverage of some positions: how many of them a day file shows it trading
      on, how many of those have a flow, and the values of both. */
  lemma {:induction false} OverExactly(dayFile: map<int, real>, flowed: set<int>, lo: nat, hi: nat)
    requires lo <= hi
    ensures var c := Over(dayFile, flowed, lo, hi);
      var value := (i: int) => if i in dayFile then dayFile[i] else 0.0;
      && c.dayFile == Tally(Range(lo, hi), (i: int) => i in dayFile)
      && c.withFlow == Tally(Range(lo, hi), (i: int) => i in dayFile && i in flowed)
      && c.dayValue == Total(Range(lo, hi), (i: int) => i in dayFile, value)
      && c.withFlowValue == Total(Range(lo, hi), (i: int) => i in dayFile && i in flowed, value)
    decreases hi - lo
  {
    if lo < hi {
      OverExactly(dayFile, flowed, lo + 1, hi);
      FirstPosition(dayFile, flowed, lo, hi);
    }
  }

  lemma OneSessionMore(dayFile: map<int, real>, flowed: set<int>, lo: nat, hi: nat, i: int, value: real)
    requires i !in dayFile && lo <= hi
    ensures Over(dayFile[i := value], flowed, lo, hi)
         == if lo <= i < hi then Join(One(value, i in flowed), Over(dayFile, flowed, lo, hi))
           else Over(dayFile, flowed, lo, hi)
  {
    JoinIsAMonoid();
    var was, now := Positions(dayFile, flowed, lo, hi), Positions(dayFile[i := value], flowed, lo, hi);
    forall k | 0 <= k < hi - lo
      ensures was[k] == At(dayFile, flowed, lo + k) && now[k] == At(dayFile[i := value], flowed, lo + k)
    {
      PositionAt(dayFile, flowed, lo, hi, k);
      PositionAt(dayFile[i := value], flowed, lo, hi, k);
    }
    forall k | 0 <= k < hi - lo && lo + k != i ensures was[k] == now[k] {
      assert lo + k in dayFile[i := value] <==> lo + k in dayFile;
    }
    if lo <= i < hi {
      var k := i - lo;
      assert was[k] == NO_COVER && now[k] == One(value, i in flowed);
      assert was == was[..k] + [NO_COVER] + was[k+1..];
      assert now == was[..k] + [One(value, i in flowed)] + was[k+1..];
      MoveToFront(was[..k], NO_COVER, was[k+1..], Join, NO_COVER);
      MoveToFront(was[..k], One(value, i in flowed), was[k+1..], Join, NO_COVER);
      assert Laws(Join, NO_COVER, Fold(was[..k] + was[k+1..], Join, NO_COVER), NO_COVER, NO_COVER);
    } else {
      assert was == now;
    }
  }

  lemma NothingOver(flowed: set<int>, lo: nat, hi: nat)
    requires lo <= hi
    ensures Over(map[], flowed, lo, hi) == NO_COVER
  {
    JoinIsAMonoid();
    forall k | 0 <= k < hi - lo
      ensures Positions(map[], flowed, lo, hi)[k] == NO_COVER
    {
      PositionAt(map[], flowed, lo, hi, k);
    }
    FoldOfUnits(Positions(map[], flowed, lo, hi), Join, NO_COVER);
  }

  lemma JoinEitherWay(a: Cover, b: Cover)
    ensures Join(a, b) == Join(b, a)
  {}

  /** The two coverages of the sessions seen so far. */
  ghost predicate Counted(seen: map<int, real>, flowed: set<int>, n: nat, cur: Cover, prev: Cover) {
    cur == Over(seen, flowed, 0, n) && prev == Over(seen, flowed, n, 2 * n)
  }

  lemma CountedGrows(seen: map<int, real>, flowed: set<int>, n: nat, cur: Cover, prev: Cover, i: nat, value: real)
    requires i !in seen && Counted(seen, flowed, n, cur, prev)
    ensures var one := One(value, i in flowed);
      if i < n then Counted(seen[i := value], flowed, n, Join(cur, one), prev)
      else if i < 2 * n then Counted(seen[i := value], flowed, n, cur, Join(prev, one))
      else Counted(seen[i := value], flowed, n, cur, prev)
  {
    OneSessionMore(seen, flowed, 0, n, i, value);
    OneSessionMore(seen, flowed, n, 2 * n, i, value);
    JoinEitherWay(cur, One(value, i in flowed));
    JoinEitherWay(prev, One(value, i in flowed));
  }

  /** What is left of a map without some keys. */
  ghost function Without(m: map<int, real>, left: set<int>): map<int, real> { map i | i in m && i !in left :: m[i] }

  /** Sums over the share's sessions in whatever order the map yields them: the result
      is the window's and the previous window's coverage, every time. */
  method CoverageIn(dayFile: map<int, real>, flowed: set<int>, n: nat) returns (cur: Cover, prev: Cover)
    requires forall i :: i in dayFile ==> i >= 0
    ensures cur == Over(dayFile, flowed, 0, n)
    ensures prev == Over(dayFile, flowed, n, 2 * n)
  {
    cur, prev := NO_COVER, NO_COVER;
    var left := dayFile.Keys;
    NothingOver(flowed, 0, n);
    NothingOver(flowed, n, 2 * n);
    assert Without(dayFile, left) == map[];
    while left != {}
      invariant left <= dayFile.Keys
      invariant Counted(Without(dayFile, left), flowed, n, cur, prev)
      decreases |left|
    {
      assert (forall k :: k !in left) ==> left == {};
      var i :| i in left;
      CountedGrows(Without(dayFile, left), flowed, n, cur, prev, i, dayFile[i]);
      assert Without(dayFile, left - {i}) == Without(dayFile, left)[i := dayFile[i]];
      if i < n {
        cur := Join(cur, One(dayFile[i], i in flowed));
      } else if i < 2 * n {
        prev := Join(prev, One(dayFile[i], i in flowed));
      }
      left := left - {i};
    }
    assert Without(dayFile, {}) == dayFile;
  }

  lemma {:induction false} JoinedArePossible(covers: seq<Cover>)
    requires forall c :: c in covers ==> Possible(c)
    ensures Possible(Fold(covers, Join, NO_COVER))
  {
    if covers != [] {
      assert covers[0] in covers;
      JoinedArePossible(covers[1..]);
    }
  }

  /** A share's coverage is possible, so groups of shares obey the closure. */
  lemma OverIsPossible(dayFile: map<int, real>, flowed: set<int>, lo: nat, hi: nat)
    requires lo <= hi && forall i :: i in dayFile ==> dayFile[i] >= 0.0
    ensures Possible(Over(dayFile, flowed, lo, hi))
  {
    forall k | 0 <= k < hi - lo
      ensures Possible(Positions(dayFile, flowed, lo, hi)[k])
    {
      PositionAt(dayFile, flowed, lo, hi, k);
    }
    JoinedArePossible(Positions(dayFile, flowed, lo, hi));
  }
}
