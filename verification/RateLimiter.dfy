/** The per-IP token bucket of the HTTP server and its background evictor.

    Instants are nanoseconds; tokens are exact reals. A `Limiter` is the
    configuration one constructor call fixes, and the `buckets` map is the whole
    mutable state. `Allow` and `Cleanup` are the two critical sections of the
    mutex, so an execution of the running server is a sequence of such steps. */
module RateLimiter {
  import opened Reals

  const NANOS_PER_SECOND: int := 1_000_000_000
  // A bucket untouched for this long is dropped by the evictor.
  const IDLE_LIMIT: int := 600 * NANOS_PER_SECOND

  datatype Bucket = Bucket(tokens: real, lastFill: int)

  type Buckets = map<string, Bucket>

  datatype Limits = Limits(ratePerMin: int) {
    function RatePerSec(): real { ratePerMin as real / 60.0 }

    function Burst(): real { ratePerMin as real }
  }

  function Seconds(nanos: int): real { nanos as real / NANOS_PER_SECOND as real }

  lemma SecondsPass(nanos: int)
    ensures Seconds(nanos) > 0.0 <==> nanos > 0
  {}

  /** The tokens that flow back in `nanos` nanoseconds. */
  function Refill(l: Limits, nanos: int): real { Seconds(nanos) * l.RatePerSec() }

  /** The bucket of `key` once brought up to `now`; a new key starts full. */
  function Filled(l: Limits, m: Buckets, key: string, now: int): Bucket {
    if key !in m then Bucket(l.Burst(), now)
    else if now > m[key].lastFill then
      Bucket(Min(l.Burst(), m[key].tokens + Refill(l, now - m[key].lastFill)), now)
    else m[key]
  }

  function Admits(l: Limits, m: Buckets, key: string, now: int): bool {
    Filled(l, m, key, now).tokens >= 1.0
  }

  function AfterAllow(l: Limits, m: Buckets, key: string, now: int): Buckets {
    var b := Filled(l, m, key, now);
    m[key := if b.tokens >= 1.0 then b.(tokens := b.tokens - 1.0) else b]
  }

  function AfterCleanup(m: Buckets, now: int): Buckets {
    map k | k in m && !(m[k].lastFill < now - IDLE_LIMIT) :: m[k]
  }

  /** What a bucket holds after a wait, in the limit's own terms: a limit of r a minute
      gives back r tokens in sixty seconds, and never more than r. */
  function Refilled(ratePerMin: int, tokens: real, nanos: int): real {
    var more := tokens + ratePerMin as real * nanos as real / 60_000_000_000.0;
    if more >= ratePerMin as real then ratePerMin as real else more
  }

  lemma RefillExactly(l: Limits, nanos: int)
    ensures 60_000_000_000.0 * Refill(l, nanos) == l.ratePerMin as real * nanos as real
  {
    var s, r := Seconds(nanos), l.RatePerSec();
    assert 1_000_000_000.0 * s == nanos as real && 60.0 * r == l.ratePerMin as real;
    ScaledProduct(s, r, 1_000_000_000.0, 60.0);
  }

  lemma ScaledProduct(x: real, y: real, a: real, b: real)
    ensures (a * b) * (x * y) == (b * y) * (a * x)
  {
    assert (a * b) * (x * y) == a * (b * (x * y)) == a * (x * (b * y)) == (b * y) * (a * x);
  }

  /** The bucket a call finds, in those terms. */
  lemma FoundExactly(l: Limits, m: Buckets, key: string, now: int)
    ensures Filled(l, m, key, now).tokens
         == if key !in m then l.ratePerMin as real
           else if now > m[key].lastFill then Refilled(l.ratePerMin, m[key].tokens, now - m[key].lastFill)
           else m[key].tokens
  {
    if key in m && now > m[key].lastFill { RefillExactly(l, now - m[key].lastFill); }
  }

  class Limiter {
    var buckets: Buckets
    const ratePerSec: real
    const burst: real
    ghost const limits: Limits

    ghost predicate Valid() reads this { ratePerSec == limits.RatePerSec() && burst == limits.Burst() }

    constructor (ratePerMin: int)
      ensures Valid() && limits == Limits(ratePerMin) && buckets == map[]
      ensures 60.0 * ratePerSec == ratePerMin as real && burst == ratePerMin as real
    {
      buckets := map[];
      ratePerSec := ratePerMin as real / 60.0;
      burst := ratePerMin as real;
      limits := Limits(ratePerMin);
    }

    method Allow(key: string, now: int) returns (ok: bool)
      requires Valid()
      modifies this`buckets
      ensures ok == Admits(limits, old(buckets), key, now)
      ensures buckets == AfterAllow(limits, old(buckets), key, now)
      ensures key !in old(buckets) ==> (ok <==> limits.ratePerMin >= 1)
      ensures key in old(buckets) && now <= old(buckets)[key].lastFill ==> (ok <==> old(buckets)[key].tokens >= 1.0)
      ensures key in old(buckets) && now > old(buckets)[key].lastFill ==>
          (ok <==> Refilled(limits.ratePerMin, old(buckets)[key].tokens, now - old(buckets)[key].lastFill) >= 1.0)
    {
      hide Seconds, Refilled, Limits.RatePerSec;
      if key !in buckets {
        buckets := buckets[key := Bucket(burst, now)];
      }
      FoundExactly(limits, old(buckets), key, now);
      var b := buckets[key];
      var elapsed := Seconds(now - b.lastFill);
      SecondsPass(now - b.lastFill);
      if elapsed > 0.0 {
        b := Bucket(Min(burst, b.tokens + elapsed * ratePerSec), now);
        buckets := buckets[key := b];
      }
      assert b == Filled(limits, old(buckets), key, now);
      ok := b.tokens >= 1.0;
      if ok {
        buckets := buckets[key := b.(tokens := b.tokens - 1.0)];
      }
    }

    /** One tick of the evictor. The map is ranged over in whatever order the
        runtime picks, so the next key is an arbitrary one. */
    method Cleanup(now: int)
      modifies this`buckets
      ensures buckets == AfterCleanup(old(buckets), now)
      ensures forall k :: k in buckets <==>
                k in old(buckets) && now - old(buckets)[k].lastFill <= 600_000_000_000
    {
      var cutoff := now - IDLE_LIMIT;
      var todo := buckets.Keys;
      while todo != {}
        invariant todo <= old(buckets).Keys
        invariant buckets == map k | k in old(buckets)
            && (k in todo || !(old(buckets)[k].lastFill < cutoff)) :: old(buckets)[k]
        decreases todo
      {
        var k :| k in todo;
        if buckets[k].lastFill < cutoff {
          buckets := buckets - {k};
        }
        todo := todo - {k};
      }
    }
  }

  // ---------------------------------------------------------------- runs

  /** One step of a run. `Sweep` carries the evictor's own clock reading, taken
      before it acquires the mutex: it may be older than calls already served. */
  datatype Event = Call(key: string, now: int) | Sweep(at: int)

  /** The latest clock reading once `e` has happened. */
  function Latest(e: Event, clock: int): int {
    match e
    case Call(_, now) => now
    case Sweep(at) => if at > clock then at else clock
  }

  /** No clock reading is later than a call that follows it. */
  predicate WellTimed(events: seq<Event>, clock: int)
    decreases events
  {
    events != [] ==>
      (events[0].Call? ==> clock <= events[0].now) && WellTimed(events[1..], Latest(events[0], clock))
  }

  function After(l: Limits, m: Buckets, e: Event, evicting: bool): Buckets {
    match e
    case Call(key, now) => AfterAllow(l, m, key, now)
    case Sweep(at) => if evicting then AfterCleanup(m, at) else m
  }

  /** The answer of every step, `false` for a sweep. With `evicting` off the
      sweeps do nothing: the limiter that remembers every key for ever. */
  function Answers(l: Limits, m: Buckets, events: seq<Event>, evicting: bool): (a: seq<bool>)
    ensures |a| == |events|
    decreases events
  {
    if events == [] then []
    else [events[0].Call? && Admits(l, m, events[0].key, events[0].now)]
         + Answers(l, After(l, m, events[0], evicting), events[1..], evicting)
  }

  function AfterAll(l: Limits, m: Buckets, events: seq<Event>, evicting: bool): Buckets
    decreases events
  {
    if events == [] then m else AfterAll(l, After(l, m, events[0], evicting), events[1..], evicting)
  }

  // ---------------------------------------------------------------- invariants

  /** Tokens stay within [0, burst] and no bucket was filled after `clock`. */
  ghost predicate InBounds(l: Limits, m: Buckets, clock: int) {
    forall k :: k in m ==> 0.0 <= m[k].tokens <= l.Burst() && m[k].lastFill <= clock
  }

  lemma RefillIsMonotone(l: Limits, d: int, e: int)
    requires l.ratePerMin >= 0 && d <= e
    ensures Refill(l, d) <= Refill(l, e)
    ensures Refill(l, e) == Refill(l, d) + Refill(l, e - d)
    ensures Refill(l, e - d) >= 0.0
  {
    assert Seconds(e) == Seconds(d) + Seconds(e - d);
    assert Seconds(e - d) >= 0.0 && l.RatePerSec() >= 0.0;
  }

  lemma StepKeepsBounds(l: Limits, m: Buckets, e: Event, evicting: bool, clock: int)
    requires l.ratePerMin >= 0 && InBounds(l, m, clock) && WellTimed([e], clock)
    ensures InBounds(l, After(l, m, e, evicting), Latest(e, clock))
  {
    if e.Call? && e.key in m && e.now > m[e.key].lastFill {
      RefillIsMonotone(l, 0, e.now - m[e.key].lastFill);
    }
  }

  // ---------------------------------------------------------------- eviction

  /** What relates a limiter that evicts to one that does not: they agree on the
      keys both hold, and a key only the second holds has been idle so long that
      any call from `clock` on would find it full. */
  ghost predicate SameButIdle(small: Buckets, full: Buckets, clock: int) {
    && small.Keys <= full.Keys
    && (forall k :: k in small ==> small[k] == full[k])
    && (forall k :: k in full && k !in small ==> full[k].lastFill < clock - IDLE_LIMIT)
  }

  lemma IdleBucketIsFull(l: Limits, b: Bucket, now: int)
    requires l.ratePerMin >= 0 && b.tokens >= 0.0 && b.lastFill < now - IDLE_LIMIT
    ensures b.tokens + Refill(l, now - b.lastFill) >= l.Burst()
  {
    RefillIsMonotone(l, IDLE_LIMIT, now - b.lastFill);
    assert Seconds(IDLE_LIMIT) == 600.0;
    assert 600.0 * l.RatePerSec() == 10.0 * l.Burst();
  }

  lemma StepKeepsSimulation(l: Limits, small: Buckets, full: Buckets, e: Event, clock: int)
    requires l.ratePerMin >= 0 && InBounds(l, full, clock) && SameButIdle(small, full, clock)
    requires WellTimed([e], clock)
    ensures SameButIdle(After(l, small, e, true), After(l, full, e, false),
                        Latest(e, clock))
    ensures e.Call? ==> Admits(l, small, e.key, e.now) == Admits(l, full, e.key, e.now)
  {
    if e.Call? && e.key in full && e.key !in small {
      IdleBucketIsFull(l, full[e.key], e.now);
    }
  }

  lemma {:induction false} SimulatedAnswersAgree(l: Limits, small: Buckets, full: Buckets, events: seq<Event>,
                                                 clock: int)
    requires l.ratePerMin >= 0 && InBounds(l, full, clock) && SameButIdle(small, full, clock)
    requires WellTimed(events, clock)
    ensures Answers(l, small, events, true) == Answers(l, full, events, false)
    decreases events
  {
    if events != [] {
      var e := events[0];
      assert WellTimed([e], clock);
      StepKeepsBounds(l, full, e, false, clock);
      StepKeepsSimulation(l, small, full, e, clock);
      SimulatedAnswersAgree(l, After(l, small, e, true), After(l, full, e, false), events[1..],
                            Latest(e, clock));
    }
  }

  /** A limit of zero or less refuses everything, from any state at or below it. */
  lemma {:induction false} NonPositiveRateRefuses(l: Limits, m: Buckets, events: seq<Event>, evicting: bool)
    requires l.ratePerMin <= 0
    requires forall k :: k in m ==> m[k].tokens <= l.Burst()
    ensures forall i :: 0 <= i < |events| ==> !Answers(l, m, events, evicting)[i]
    decreases events
  {
    if events != [] {
      NonPositiveRateRefuses(l, After(l, m, events[0], evicting), events[1..], evicting);
    }
  }

  /** Eviction is invisible: whatever calls and sweeps interleave, every answer is
      the one a limiter that never forgets a key would have given. */
  lemma EvictionIsInvisible(l: Limits, events: seq<Event>, clock: int)
    requires WellTimed(events, clock)
    ensures Answers(l, map[], events, true) == Answers(l, map[], events, false)
  {
    if l.ratePerMin >= 0 {
      SimulatedAnswersAgree(l, map[], map[], events, clock);
    } else {
      NonPositiveRateRefuses(l, map[], events, true);
      NonPositiveRateRefuses(l, map[], events, false);
    }
  }

  // ---------------------------------------------------------------- the rate bound

  /** How many calls of `key` were admitted. */
  function Admitted(events: seq<Event>, answers: seq<bool>, key: string): nat
    requires |events| == |answers|
  {
    if events == [] then 0
    else (if answers[0] && events[0].Call? && events[0].key == key then 1 else 0)
         + Admitted(events[1..], answers[1..], key)
  }

  /** Every call of `key` happens within [lo, hi]. */
  ghost predicate CallsWithin(events: seq<Event>, key: string, lo: int, hi: int) {
    forall i :: 0 <= i < |events| && events[i].Call? && events[i].key == key ==> lo <= events[i].now <= hi
  }

  /** The tokens a call of `key` at `now` would find. */
  function Available(l: Limits, m: Buckets, key: string, now: int): real {
    Filled(l, m, key, now).tokens
  }

  /** A step takes from a key's bucket exactly what it admits of that key. */
  lemma AvailableAfterStep(l: Limits, m: Buckets, e: Event, key: string, later: int)
    requires e.Call? ==> e.key != key || e.now == later
    ensures Available(l, After(l, m, e, false), key, later)
         == Available(l, m, key, later)
            - (if e.Call? && e.key == key && Admits(l, m, key, e.now) then 1.0 else 0.0)
  {}

  /** Waiting adds at most the refill of the time that passes. */
  lemma AvailableGrows(l: Limits, m: Buckets, key: string, clock: int, now: int, later: int)
    requires l.ratePerMin >= 0 && InBounds(l, m, clock) && clock <= now <= later
    ensures Available(l, m, key, later) <= Available(l, m, key, now) + Refill(l, later - now)
  {
    RefillIsMonotone(l, 0, later - now);
    if key in m {
      RefillIsMonotone(l, now - m[key].lastFill, later - m[key].lastFill);
    }
  }

  lemma AvailableInBurst(l: Limits, m: Buckets, key: string, clock: int, now: int)
    requires l.ratePerMin >= 0 && InBounds(l, m, clock)
    ensures 0.0 <= Available(l, m, key, now) <= l.Burst()
  {
    if key in m && now > m[key].lastFill {
      RefillIsMonotone(l, 0, now - m[key].lastFill);
    }
  }

  lemma {:induction false} AdmittedFromState(l: Limits, m: Buckets, events: seq<Event>, key: string, clock: int,
                                             lo: int, hi: int)
    requires l.ratePerMin >= 0 && InBounds(l, m, clock) && WellTimed(events, clock)
    requires lo <= hi && CallsWithin(events, key, lo, hi)
    ensures clock <= lo ==>
      Admitted(events, Answers(l, m, events, false), key) as real
        <= Available(l, m, key, lo) + Refill(l, hi - lo)
    ensures lo < clock <= hi ==>
      Admitted(events, Answers(l, m, events, false), key) as real
        <= Available(l, m, key, clock) + Refill(l, hi - clock)
    ensures hi < clock ==> Admitted(events, Answers(l, m, events, false), key) == 0
    decreases events
  {
    hide InBounds, Available, AfterAllow;
    var from := if clock <= lo then lo else clock;
    AvailableInBurst(l, m, key, clock, from);
    if from <= hi { RefillIsMonotone(l, 0, hi - from); }
    if events != [] {
      var e := events[0];
      var clock' := Latest(e, clock);
      assert WellTimed([e], clock);
      StepKeepsBounds(l, m, e, false, clock);
      assert forall i :: 0 <= i < |events[1..]| ==> events[1..][i] == events[i + 1];
      AdmittedFromState(l, After(l, m, e, false), events[1..], key, clock', lo, hi);
      var from' := if clock' <= lo then lo else clock';
      if from' <= hi {
        AvailableGrows(l, m, key, clock, from, from');
        RefillIsMonotone(l, from' - from, hi - from);
        AvailableAfterStep(l, m, e, key, from');
      }
    }
  }

  lemma {:induction false} AnswersAfterPrefix(l: Limits, m: Buckets, events: seq<Event>, i: nat)
    requires i <= |events|
    ensures Answers(l, m, events, false)[i..] == Answers(l, AfterAll(l, m, events[..i], false), events[i..], false)
    decreases events
  {
    if i == 0 {
      assert events[0..] == events;
    } else {
      assert events[..i][1..] == events[1..][..i-1] && events[1..][i-1..] == events[i..];
      AnswersAfterPrefix(l, After(l, m, events[0], false), events[1..], i - 1);
    }
  }

  lemma {:induction false} BoundsAfterPrefix(l: Limits, m: Buckets, events: seq<Event>, i: nat, clock: int)
    returns (clock': int)
    requires l.ratePerMin >= 0 && InBounds(l, m, clock) && WellTimed(events, clock) && i <= |events|
    ensures InBounds(l, AfterAll(l, m, events[..i], false), clock') && WellTimed(events[i..], clock')
    decreases events
  {
    if i == 0 {
      assert events[0..] == events;
      clock' := clock;
    } else {
      assert WellTimed([events[0]], clock);
      StepKeepsBounds(l, m, events[0], false, clock);
      assert events[..i][1..] == events[1..][..i-1] && events[1..][i-1..] == events[i..];
      var e := events[0];
      clock' := BoundsAfterPrefix(l, After(l, m, e, false), events[1..], i - 1,
                                  Latest(e, clock));
    }
  }

  lemma {:induction false} WellTimedPrefix(events: seq<Event>, clock: int, j: nat)
    requires WellTimed(events, clock) && j <= |events|
    ensures WellTimed(events[..j], clock)
    decreases events
  {
    if j > 0 {
      assert events[..j][1..] == events[1..][..j-1];
      var e := events[0];
      WellTimedPrefix(events[1..], Latest(e, clock), j - 1);
    }
  }

  lemma {:induction false} AnswersOfPrefix(l: Limits, m: Buckets, events: seq<Event>, j: nat)
    requires j <= |events|
    ensures Answers(l, m, events[..j], false) == Answers(l, m, events, false)[..j]
    decreases events
  {
    if j > 0 {
      assert events[..j][1..] == events[1..][..j-1];
      AnswersOfPrefix(l, After(l, m, events[0], false), events[1..], j - 1);
    }
  }

  lemma AdmittedWithinBurst(l: Limits, m: Buckets, events: seq<Event>, key: string, clock: int, lo: int, hi: int)
    requires l.ratePerMin >= 0 && InBounds(l, m, clock) && WellTimed(events, clock)
    requires lo <= hi && CallsWithin(events, key, lo, hi)
    ensures Admitted(events, Answers(l, m, events, false), key) as real <= l.Burst() + Refill(l, hi - lo)
  {
    AdmittedFromState(l, m, events, key, clock, lo, hi);
    RefillIsMonotone(l, 0, hi - lo);
    AvailableInBurst(l, m, key, clock, lo);
    AvailableInBurst(l, m, key, clock, clock);
    if lo < clock <= hi {
      RefillIsMonotone(l, hi - clock, hi - lo);
    }
  }

  /** The published limit, for the evicting limiter: over any stretch of any run
      whose calls of `key` all happen within [lo, hi], at most one minute's worth is
      admitted, and the same rate again for as long as the span lasts. */
  lemma AdmissionBound(l: Limits, events: seq<Event>, key: string, clock: int, i: nat, j: nat, lo: int, hi: int)
    requires l.ratePerMin >= 0 && WellTimed(events, clock)
    requires i <= j <= |events| && lo <= hi && CallsWithin(events[i..j], key, lo, hi)
    ensures Admitted(events[i..j], Answers(l, map[], events, true)[i..j], key) as real
         <= l.Burst() + Refill(l, hi - lo)
    ensures Admitted(events[i..j], Answers(l, map[], events, true)[i..j], key) * 60_000_000_000
         <= l.ratePerMin * (60_000_000_000 + (hi - lo))
  {
    EvictionIsInvisible(l, events, clock);
    var prefix := events[..j];
    WellTimedPrefix(events, clock, j);
    AnswersOfPrefix(l, map[], events, j);
    AnswersAfterPrefix(l, map[], prefix, i);
    var clock' := BoundsAfterPrefix(l, map[], prefix, i, clock);
    var m := AfterAll(l, map[], prefix[..i], false);
    assert prefix[i..] == events[i..j];
    assert Answers(l, map[], events, true)[i..j] == Answers(l, m, events[i..j], false);
    AdmittedWithinBurst(l, m, events[i..j], key, clock', lo, hi);
    InNanoseconds(l, Admitted(events[i..j], Answers(l, map[], events, true)[i..j], key), hi - lo);
  }

  lemma InNanoseconds(l: Limits, admitted: nat, nanos: int)
    requires admitted as real <= l.Burst() + Refill(l, nanos)
    ensures admitted * 60_000_000_000 <= l.ratePerMin * (60_000_000_000 + nanos)
  {
    RefillExactly(l, nanos);
    assert (l.ratePerMin * nanos) as real == l.ratePerMin as real * nanos as real;
    assert (admitted * 60_000_000_000) as real <= (l.ratePerMin * 60_000_000_000 + l.ratePerMin * nanos) as real;
  }

  // ---------------------------------------------------------------- what is always admitted

  /** Every bucket was last filled at a call of its key. */
  ghost predicate FilledAtCalls(events: seq<Event>, m: Buckets) {
    forall k :: k in m ==> exists i :: 0 <= i < |events| && events[i] == Call(k, m[k].lastFill)
  }

  lemma {:induction false} FillsAreCalls(l: Limits, events: seq<Event>, i: nat)
    requires i <= |events|
    ensures FilledAtCalls(events[..i], AfterAll(l, map[], events[..i], false))
  {
    if i > 0 {
      FillsAreCalls(l, events, i - 1);
      var was := AfterAll(l, map[], events[..i-1], false);
      assert events[..i] == events[..i-1] + [events[i-1]];
      AfterOneMore(l, map[], events[..i-1], events[i-1]);
      var now := AfterAll(l, map[], events[..i], false);
      forall k | k in now ensures exists j :: 0 <= j < i && events[..i][j] == Call(k, now[k].lastFill) {
        if k in was && was[k].lastFill == now[k].lastFill {
          var j :| 0 <= j < i - 1 && events[..i-1][j] == Call(k, was[k].lastFill);
          assert events[..i][j] == events[..i-1][j];
        } else {
          assert events[..i][i-1] == events[i-1];
        }
      }
    }
  }

  lemma {:induction false} AfterOneMore(l: Limits, m: Buckets, events: seq<Event>, e: Event)
    ensures AfterAll(l, m, events + [e], false) == After(l, AfterAll(l, m, events, false), e, false)
    decreases events
  {
    if events == [] {
      assert [e][1..] == [];
    } else {
      assert (events + [e])[1..] == events[1..] + [e];
      AfterOneMore(l, After(l, m, events[0], false), events[1..], e);
    }
  }

  /** The other side of the limit: a caller who leaves a minute's r-th part between its
      calls is never refused. */
  lemma PacedCallIsAdmitted(l: Limits, events: seq<Event>, clock: int, j: nat)
    requires l.ratePerMin >= 1 && WellTimed(events, clock) && j < |events| && events[j].Call?
    requires forall i :: 0 <= i < j && events[i].Call? && events[i].key == events[j].key ==>
        l.ratePerMin * (events[j].now - events[i].now) >= 60_000_000_000
    ensures Answers(l, map[], events, true)[j]
  {
    EvictionIsInvisible(l, events, clock);
    AnswersAfterPrefix(l, map[], events, j);
    var m := AfterAll(l, map[], events[..j], false);
    FirstAnswer(l, m, events, j);
    FillsAreCalls(l, events, j);
    var clock' := BoundsAfterPrefix(l, map[], events, j, clock);
    var key := events[j].key;
    hide Answers, AfterAll, WellTimed, Admits;
    if key in m {
      var i :| 0 <= i < j && events[..j][i] == Call(key, m[key].lastFill);
      assert events[i] == Call(key, m[key].lastFill);
    }
    OneTokenIsBack(l, m, key, events[j].now);
  }

  lemma FirstAnswer(l: Limits, m: Buckets, events: seq<Event>, j: nat)
    requires j < |events| && events[j].Call?
    requires Answers(l, map[], events, false)[j..] == Answers(l, m, events[j..], false)
    ensures Answers(l, map[], events, false)[j] == Admits(l, m, events[j].key, events[j].now)
  {
    assert Answers(l, map[], events, false)[j] == Answers(l, map[], events, false)[j..][0];
  }

  lemma OneTokenIsBack(l: Limits, m: Buckets, key: string, now: int)
    requires l.ratePerMin >= 1
    requires key in m ==>
        m[key].tokens >= 0.0 && l.ratePerMin * (now - m[key].lastFill) >= 60_000_000_000
    ensures Admits(l, m, key, now)
  {
    if key in m {
      var d := now - m[key].lastFill;
      if d <= 0 { NoTimeNoTokens(l.ratePerMin, d); }
      RefillExactly(l, d);
      assert (l.ratePerMin * d) as real == l.ratePerMin as real * d as real;
    }
  }

  lemma NoTimeNoTokens(r: int, d: int)
    requires r >= 1 && d <= 0
    ensures r * d <= 0
  {}
}
