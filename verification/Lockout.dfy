/** Per-account login throttling: five failures inside a window lock an account,
    and a full table is swept of stale entries.

    Instants are nanoseconds since the zero instant of Go's `time.Time`, so an
    entry that was never locked carries `lockedUntil == 0`. */
module Lockout {
  const MAX_LOGIN_FAILS: int := 5
  const MINUTE: int := 60_000_000_000
  const FAIL_WINDOW: int := 15 * MINUTE
  const LOCK_DURATION: int := 15 * MINUTE
  const MAX_ENTRIES: int := 10000

  datatype Entry = Entry(fails: nat, firstFailAt: int, lockedUntil: int)

  type Entries = map<string, Entry>

  predicate Stale(e: Entry, now: int) { now - e.firstFailAt > FAIL_WINDOW && now > e.lockedUntil }

  function Swept(m: Entries, now: int): Entries { map k | k in m && !Stale(m[k], now) :: m[k] }

  /** The table a failure is recorded in: swept first when it is full. */
  function Room(m: Entries, now: int, sweeping: bool): Entries {
    if sweeping && |m| >= MAX_ENTRIES then Swept(m, now) else m
  }

  predicate StartsWindow(m: Entries, email: string, now: int) {
    email !in m || now - m[email].firstFailAt > FAIL_WINDOW
  }

  /** Whether this failure locks the account. */
  predicate Locks(m: Entries, email: string, now: int) {
    !StartsWindow(m, email, now) && m[email].fails + 1 >= MAX_LOGIN_FAILS
  }

  function AfterFail(m: Entries, email: string, now: int): Entries {
    if StartsWindow(m, email, now) then m[email := Entry(1, now, 0)]
    else if m[email].fails + 1 >= MAX_LOGIN_FAILS then m[email := Entry(0, now, now + LOCK_DURATION)]
    else m[email := m[email].(fails := m[email].fails + 1)]
  }

  predicate Locked(m: Entries, email: string, now: int) { email in m && now < m[email].lockedUntil }

  class LoginLockout {
    var entries: Entries

    constructor ()
      ensures entries == map[]
    {
      entries := map[];
    }

    method IsLocked(email: string, now: int) returns (locked: bool)
      ensures locked == Locked(entries, email, now)
      ensures locked <==> email in entries && now < entries[email].lockedUntil
    {
      if email in entries {
        locked := now < entries[email].lockedUntil;
      } else {
        locked := false;
      }
    }

    method Fail(email: string, now: int) returns (locked: bool)
      modifies this
      ensures locked == Locks(Room(old(entries), now, true), email, now)
      ensures entries == AfterFail(Room(old(entries), now, true), email, now)
      ensures forall k :: k in entries && k != email ==> k in old(entries) && entries[k] == old(entries)[k]
      ensures forall k :: k in old(entries) && k !in entries <==>
          k in old(entries) && k != email && |old(entries)| >= 10000
          && now - old(entries)[k].firstFailAt > 900_000_000_000 && now > old(entries)[k].lockedUntil
    {
      if |entries| >= MAX_ENTRIES {
        Sweep(now);
      }
      if email !in entries || now - entries[email].firstFailAt > FAIL_WINDOW {
        entries := entries[email := Entry(1, now, 0)];
        return false;
      }
      var e := entries[email];
      e := e.(fails := e.fails + 1);
      if e.fails >= MAX_LOGIN_FAILS {
        e := Entry(0, now, now + LOCK_DURATION);
        locked := true;
      } else {
        locked := false;
      }
      entries := entries[email := e];
    }

    /** Ranges over the table in an arbitrary order. */
    method Sweep(now: int)
      modifies this
      ensures entries == Swept(old(entries), now)
      ensures forall k :: k in old(entries) && k !in entries <==>
          k in old(entries)
          && now - old(entries)[k].firstFailAt > 900_000_000_000 && now > old(entries)[k].lockedUntil
    {
      var todo := entries.Keys;
      while todo != {}
        invariant todo <= old(entries).Keys
        invariant entries == map k | k in old(entries) && (k in todo || !Stale(old(entries)[k], now)) :: old(entries)[k]
        decreases todo
      {
        var k :| k in todo;
        if Stale(entries[k], now) {
          entries := entries - {k};
        }
        todo := todo - {k};
      }
    }

    method Success(email: string)
      modifies this
      ensures entries == old(entries) - {email}
    {
      entries := entries - {email};
    }
  }

  // ---------------------------------------------------------------- runs

  datatype Event = Failure(email: string, now: int) | Success(email: string) | Query(email: string, now: int)

  function Clock(e: Event, clock: int): int { if e.Success? then clock else e.now }

  /** Clock readings never run backwards, and none is before `clock`. */
  ghost predicate InOrder(events: seq<Event>, clock: int) {
    && (forall i :: 0 <= i < |events| && !events[i].Success? ==> clock <= events[i].now)
    && (forall i, j ::
      0 <= i < j < |events| && !events[i].Success? && !events[j].Success? ==> events[i].now <= events[j].now)
  }

  function After(m: Entries, e: Event, sweeping: bool): Entries {
    match e
    case Failure(email, now) => AfterFail(Room(m, now, sweeping), email, now)
    case Success(email) => m - {email}
    case Query(_, _) => m
  }

  function Answer(m: Entries, e: Event, sweeping: bool): bool {
    match e
    case Failure(email, now) => Locks(Room(m, now, sweeping), email, now)
    case Success(_) => false
    case Query(email, now) => Locked(m, email, now)
  }

  /** The answer of every step of a run; with `sweeping` off the table is never swept. */
  function Answers(m: Entries, events: seq<Event>, sweeping: bool): (a: seq<bool>)
    ensures |a| == |events|
    decreases events
  {
    if events == [] then []
    else [Answer(m, events[0], sweeping)] + Answers(After(m, events[0], sweeping), events[1..], sweeping)
  }

  // ---------------------------------------------------------------- the sweep

  /** The swept table holds the same entries but for stale ones. */
  ghost predicate SameButStale(small: Entries, full: Entries, clock: int) {
    && small.Keys <= full.Keys
    && (forall k :: k in small ==> small[k] == full[k])
    && (forall k :: k in full && k !in small ==> Stale(full[k], clock))
  }

  lemma StepKeepsSameButStale(small: Entries, full: Entries, e: Event, clock: int)
    requires SameButStale(small, full, clock) && clock <= Clock(e, clock)
    ensures SameButStale(After(small, e, true), After(full, e, false), Clock(e, clock))
    ensures Answer(small, e, true) == Answer(full, e, false)
  {
    if e.Failure? {
      var room := Room(small, e.now, true);
      assert SameButStale(room, full, e.now);
    }
  }

  lemma {:induction false} SweptAnswersAgree(small: Entries, full: Entries, events: seq<Event>, clock: int)
    requires SameButStale(small, full, clock) && InOrder(events, clock)
    ensures Answers(small, events, true) == Answers(full, events, false)
    decreases events
  {
    if events != [] {
      var e := events[0];
      StepKeepsSameButStale(small, full, e, clock);
      SweptAnswersAgree(After(small, e, true), After(full, e, false), events[1..], Clock(e, clock));
    }
  }

  /** The capacity sweep never changes an answer, whatever run leads to it. */
  lemma SweepIsInvisible(events: seq<Event>)
    requires Ordered(events)
    ensures Answers(map[], events, true) == Answers(map[], events, false)
  {
    SweptAnswersAgree(map[], map[], events, 0);
  }

  // ---------------------------------------------------------------- what a lock means

  /** The table after a whole run, never swept. */
  function Table(events: seq<Event>): Entries
    decreases events
  {
    if events == [] then map[]
    else After(Table(events[..|events|-1]), events[|events|-1], false)
  }

  /** The failure at position `i` locked its account. */
  predicate LockedAt(events: seq<Event>, i: nat)
    requires i < |events|
  {
    events[i].Failure? && Locks(Table(events[..i]), events[i].email, events[i].now)
  }

  /** `email` has no recorded success from position `i` on. */
  predicate NoSuccessSince(events: seq<Event>, email: string, i: int) {
    forall j :: 0 <= i <= j < |events| ==> events[j] != Success(email)
  }

  ghost predicate Ordered(events: seq<Event>) { InOrder(events, 0) }

  ghost predicate ReadBy(events: seq<Event>, now: int) {
    0 <= now && forall i :: 0 <= i < |events| && !events[i].Success? ==> events[i].now <= now
  }

  /** In every reachable table an entry's window opened no later than the last
      reading, fewer than five failures are pending, and a lock never outlasts
      the window it opened: a new window can only start once the lock is over. */
  ghost predicate Sound(events: seq<Event>) {
    var m := Table(events);
    forall k :: k in m ==>
      m[k].fails < MAX_LOGIN_FAILS && m[k].lockedUntil <= m[k].firstFailAt + LOCK_DURATION
  }

  lemma {:induction false} TableIsSound(events: seq<Event>)
    requires Ordered(events)
    ensures Sound(events)
    decreases events
  {
    if events != [] {
      TableIsSound(events[..|events|-1]);
    }
  }

  /** The last lock of `email` that no success has undone, if any. */
  ghost predicate LockInForce(events: seq<Event>, email: string, now: int, i: nat) {
    && i < |events| && events[i].Failure? && events[i].email == email
    && LockedAt(events, i) && now < events[i].now + 900_000_000_000
    && NoSuccessSince(events, email, i)
  }

  lemma {:induction false} LockOutlivesLaterSteps(events: seq<Event>, email: string, now: int, i: nat)
    requires Ordered(events) && ReadBy(events, now) && LockInForce(events, email, now, i)
    ensures email in Table(events) && Table(events)[email].lockedUntil >= events[i].now + 900_000_000_000
    decreases |events|
  {
    var last := |events| - 1;
    var before := events[..last];
    if i < last {
      assert before[..i] == events[..i];
      assert forall j :: 0 <= j < last ==> before[j] == events[j];
      LockOutlivesLaterSteps(before, email, now, i);
      TableIsSound(before);
      assert events[last] != Success(email);
    }
  }

  lemma EmptyTable(email: string)
    ensures email !in Table([])
  {}

  lemma OrderedFront(before: seq<Event>, e: Event)
    requires Ordered(before + [e])
    ensures Ordered(before)
  {
    assert (before + [e])[..|before|] == before;
  }

  lemma TableAfter(events: seq<Event>, e: Event)
    ensures Table(events + [e]) == After(Table(events), e, false)
    ensures e.Failure? ==> LockedAt(events + [e], |events|) == Locks(Table(events), e.email, e.now)
  {
    hide After, Locks;
    assert (events + [e])[..|events|] == events;
  }

  /** What a step leaves as an account's entry. */
  lemma EntryAfter(before: seq<Event>, e: Event, email: string)
    requires email in Table(before + [e])
    ensures e != Success(email)
    ensures var m, entry := Table(before), Table(before + [e])[email];
      if !(e.Failure? && e.email == email) then email in m && entry == m[email]
      else if StartsWindow(m, email, e.now) then !LockedAt(before + [e], |before|) && entry == Entry(1, e.now, 0)
      else if LockedAt(before + [e], |before|) then entry == Entry(0, e.now, e.now + LOCK_DURATION)
      else email in m && entry == m[email].(fails := m[email].fails + 1)
  {
    hide Table, LockedAt;
    TableAfter(before, e);
  }

  lemma {:induction false} LockComesFromFailure(events: seq<Event>, email: string, now: int) returns (i: nat)
    requires Ordered(events) && 0 <= now && Locked(Table(events), email, now)
    ensures LockInForce(events, email, now, i)
    decreases events
  {
    hide Table, LockedAt, StartsWindow, InOrder;
    EmptyTable(email);
    var last := |events| - 1;
    var before, e := events[..last], events[last];
    assert events == before + [e];
    OrderedFront(before, e);
    EntryAfter(before, e, email);
    if e.Failure? && e.email == email && LockedAt(events, last) {
      i := last;
    } else {
      i := LockComesFromFailure(before, email, now);
      LockStands(before, e, email, now, i);
    }
  }

  lemma LockStands(before: seq<Event>, e: Event, email: string, now: int, i: nat)
    requires LockInForce(before, email, now, i) && e != Success(email)
    ensures LockInForce(before + [e], email, now, i)
  {
    assert (before + [e])[..i] == before[..i];
  }

  /** Exactly when an account is refused, over every run: some failure locked it,
      less than the lock's duration ago, and no success has been recorded for it
      since. Failures of any account in between, and any sweep, change nothing. */
  lemma LockedExactly(events: seq<Event>, email: string, now: int)
    requires Ordered(events) && ReadBy(events, now)
    ensures Locked(Table(events), email, now) <==> exists i: nat :: LockInForce(events, email, now, i)
  {
    if Locked(Table(events), email, now) {
      var i := LockComesFromFailure(events, email, now);
    }
    if i: nat :| LockInForce(events, email, now, i) {
      LockOutlivesLaterSteps(events, email, now, i);
    }
  }

  lemma {:induction false} AnswersFromTable(events: seq<Event>, i: nat)
    requires i < |events|
    ensures Answers(map[], events, false)[i] == Answer(Table(events[..i]), events[i], false)
  {
    AnswersFrom(events, 0, i);
  }

  lemma {:induction false} AnswersFrom(events: seq<Event>, k: nat, i: nat)
    requires k <= i < |events|
    ensures Answers(Table(events[..k]), events[k..], false)[i - k] == Answer(Table(events[..i]), events[i], false)
    ensures k == 0 ==> Answers(map[], events, false)[i] == Answer(Table(events[..i]), events[i], false)
    decreases i - k
  {
    hide Answer, After;
    assert events[..k+1][..k] == events[..k];
    assert events[k..][1..] == events[k+1..];
    assert events[0..] == events;
    if k < i {
      AnswersFrom(events, k + 1, i);
    }
  }

  /** What the running guard answers: in any run, a query is refused exactly when
      a lock of its account is in force at that moment. */
  lemma QueryAnswer(events: seq<Event>, i: nat)
    requires Ordered(events) && i < |events| && events[i].Query?
    ensures Answers(map[], events, true)[i]
      <==> exists j: nat :: LockInForce(events[..i], events[i].email, events[i].now, j)
  {
    SweepIsInvisible(events);
    AnswersFromTable(events, i);
    LockedExactly(events[..i], events[i].email, events[i].now);
  }

  // ---------------------------------------------------------------- what it takes to lock

  /** Failures of `email` recorded at positions [i, |events|). */
  function Failures(events: seq<Event>, email: string, i: int): nat
    requires 0 <= i
    decreases |events| - i
  {
    if i >= |events| then 0
    else (if events[i].Failure? && events[i].email == email then 1 else 0) + Failures(events, email, i + 1)
  }

  lemma {:induction false} FailuresAppend(events: seq<Event>, e: Event, email: string, i: int)
    requires 0 <= i <= |events|
    ensures Failures(events + [e], email, i)
         == Failures(events, email, i) + (if e.Failure? && e.email == email then 1 else 0)
    decreases |events| - i
  {
    if i < |events| {
      assert (events + [e])[i] == events[i];
      FailuresAppend(events, e, email, i + 1);
    } else {
      assert (events + [e])[i] == e;
      assert Failures(events + [e], email, i + 1) == 0;
    }
  }

  /** From position `i` on, every failure of `email` falls at or after `since`,
      none locked, and no success intervened. */
  ghost predicate Window(events: seq<Event>, email: string, i: nat, since: int) {
    && i <= |events| && NoSuccessSince(events, email, i)
    && forall j :: i <= j < |events| && events[j].Failure? && events[j].email == email ==>
         since <= events[j].now && !LockedAt(events, j)
  }

  lemma WindowGrows(events: seq<Event>, e: Event, email: string, i: nat, since: int)
    requires Window(events, email, i, since) && e != Success(email)
    requires e.Failure? && e.email == email ==> since <= e.now && !LockedAt(events + [e], |events|)
    ensures i <= |events| && Window(events + [e], email, i, since)
  {
    forall j | i <= j < |events| ensures (events + [e])[j] == events[j] && (events + [e])[..j] == events[..j] {}
  }

  lemma {:induction false} FirstFailIsPast(events: seq<Event>, email: string) returns (i: nat)
    requires Ordered(events) && email in Table(events)
    ensures i < |events| && events[i].Failure? && events[i].email == email
    ensures events[i].now == Table(events)[email].firstFailAt
    decreases events
  {
    hide Table, LockedAt, StartsWindow, InOrder;
    EmptyTable(email);
    var last := |events| - 1;
    var before, e := events[..last], events[last];
    assert events == before + [e];
    OrderedFront(before, e);
    EntryAfter(before, e, email);
    i := last;
    if !(e.Failure? && e.email == email) || (!StartsWindow(Table(before), email, e.now) && !LockedAt(events, last)) {
      i := FirstFailIsPast(before, email);
    }
  }

  /** The pending count is the number of failures of the open window. */
  lemma {:induction false} PendingCountsWindow(events: seq<Event>, email: string) returns (i: nat)
    requires Ordered(events) && email in Table(events)
    ensures Window(events, email, i, Table(events)[email].firstFailAt)
    ensures Table(events)[email].fails == Failures(events, email, i)
    decreases events
  {
    hide Table, After, Window, Failures, Locks, StartsWindow, LockedAt, InOrder;
    EmptyTable(email);
    var last := |events| - 1;
    var before, e := events[..last], events[last];
    assert events == before + [e];
    OrderedFront(before, e);
    EntryAfter(before, e, email);
    if e.Failure? && e.email == email && LockedAt(events, last) {
      i := last + 1;
      EndWindow(events, email, Table(events)[email].firstFailAt);
    } else if e.Failure? && e.email == email && StartsWindow(Table(before), email, e.now) {
      i := last;
      EndWindow(before, email, e.now);
      WindowGrows(before, e, email, i, e.now);
      FailuresAppend(before, e, email, i);
    } else {
      i := PendingCountsWindow(before, email);
      if e.Failure? { FirstFailBeforeNow(before, e, email); }
      WindowGrows(before, e, email, i, Table(before)[email].firstFailAt);
      FailuresAppend(before, e, email, i);
    }
  }

  lemma EndWindow(events: seq<Event>, email: string, since: int)
    ensures Window(events, email, |events|, since) && Failures(events, email, |events|) == 0
  {}

  lemma FirstFailBeforeNow(before: seq<Event>, e: Event, email: string)
    requires Ordered(before + [e]) && email in Table(before) && e.Failure?
    ensures Table(before)[email].firstFailAt <= e.now
  {
    OrderedFront(before, e);
    var i := FirstFailIsPast(before, email);
    assert (before + [e])[i] == before[i] && (before + [e])[|before|] == e;
  }

  /** An account is locked by exactly its fifth failure: at every lock, the four
      before it lie in one stretch of the run without a success or a lock, none
      older than the fail window. */
  lemma LockNeedsFiveFailures(events: seq<Event>, k: nat) returns (i: nat)
    requires Ordered(events) && k < |events| && LockedAt(events, k)
    ensures Window(events[..k], events[k].email, i, events[k].now - 900_000_000_000)
    ensures Failures(events[..k], events[k].email, i) == 4
  {
    i := PendingCountsWindow(events[..k], events[k].email);
    TableIsSound(events[..k]);
  }

  /** `email` failed at position `i`, and not in the fifteen minutes before. */
  ghost predicate FailsAfterQuiet(events: seq<Event>, email: string, i: nat) {
    && i < |events| && events[i].Failure? && events[i].email == email
    && forall j :: 0 <= j < i && events[j].Failure? && events[j].email == email ==>
         events[j].now < events[i].now - 900_000_000_000
  }

  /** No failure of `email` from position `i` on is later than `until`. */
  ghost predicate NoneLater(events: seq<Event>, email: string, i: nat, until: int) {
    forall j :: i <= j < |events| && events[j].Failure? && events[j].email == email ==> events[j].now <= until
  }

  lemma QuietOpensWindow(events: seq<Event>, email: string, i: nat)
    requires Ordered(events) && FailsAfterQuiet(events, email, i)
    ensures StartsWindow(Table(events[..i]), email, events[i].now)
    ensures Table(events[..i+1]) == Table(events[..i])[email := Entry(1, events[i].now, 0)]
  {
    var before, e := events[..i], events[i];
    assert events[..i+1] == before + [e];
    assert StartsWindow(Table(before), email, e.now) by {
      if email in Table(before) {
        var j := FirstFailIsPast(before, email);
        assert events[j] == before[j];
      }
    }
    TableAfter(before, e);
  }

  /** While a window is open and has seen no more than four failures, the entry holds their number. */
  lemma {:induction false} OpenWindowCounts(events: seq<Event>, email: string, i: nat)
    requires Ordered(events) && FailsAfterQuiet(events, email, i) && NoSuccessSince(events, email, i)
    requires NoneLater(events, email, i, events[i].now + 900_000_000_000) && Failures(events, email, i) <= 4
    ensures email in Table(events)
    ensures Table(events)[email] == Entry(Failures(events, email, i), events[i].now, 0)
    decreases |events|
  {
    hide Table, Failures, InOrder;
    var last := |events| - 1;
    var before, e := events[..last], events[last];
    assert events == before + [e];
    FailuresAppend(before, e, email, i);
    if i == last {
      QuietOpensWindow(events, email, i);
      assert events[..i+1] == events;
      EndWindow(before, email, e.now);
    } else {
      OrderedFront(before, e);
      assert forall j :: 0 <= j < last ==> before[j] == events[j];
      OpenWindowCounts(before, email, i);
      TableAfter(before, e);
    }
  }

  /** Five failures inside fifteen minutes that follow fifteen quiet ones always
      lock: with four failures from the first one on, and no success since, a
      failure no later than fifteen minutes after the first is the locking one. */
  lemma FifthFailureLocks(events: seq<Event>, i: nat, k: nat)
    requires Ordered(events) && i < k < |events| && events[k].Failure?
    requires FailsAfterQuiet(events[..k], events[k].email, i) && NoSuccessSince(events[..k], events[k].email, i)
    requires Failures(events[..k], events[k].email, i) == 4
    requires events[k].now <= events[i].now + 900_000_000_000
    ensures LockedAt(events, k)
  {
    var before := events[..k];
    assert forall j :: 0 <= j < k ==> before[j] == events[j];
    OpenWindowCounts(before, events[k].email, i);
  }

  /** What the running guard answers to a recorded failure: whether that failure
      locked the account. */
  lemma FailureAnswer(events: seq<Event>, i: nat)
    requires Ordered(events) && i < |events| && events[i].Failure?
    ensures Answers(map[], events, true)[i] == LockedAt(events, i)
  {
    SweepIsInvisible(events);
    AnswersFromTable(events, i);
  }

  // ---------------------------------------------------------------- how fast one can guess

  /** A stretch of a run, from position `i`, in which no success and no lock of
      `email` occurs and every failure of it falls within one fail window. */
  ghost predicate QuietStretch(events: seq<Event>, email: string, i: nat, from: int) {
    && Window(events, email, i, from)
    && forall j ::
      i <= j < |events| && events[j].Failure? && events[j].email == email ==> events[j].now <= from + 900_000_000_000
  }

  function Pending(m: Entries, email: string): nat { if email in m then m[email].fails else 0 }

  lemma QuietPrefix(events: seq<Event>, e: Event, email: string, i: nat, from: int)
    requires QuietStretch(events + [e], email, i, from) && i <= |events|
    ensures QuietStretch(events, email, i, from)
  {
    forall j | i <= j < |events| ensures (events + [e])[j] == events[j] && (events + [e])[..j] == events[..j] {}
  }

  /** Of the failures of a stretch, all are pending, or all but a window's worth. */
  predicate OpensOne(m: Entries, email: string, fails: int, from: int) {
    || fails <= Pending(m, email)
    || (email in m && m[email].firstFailAt >= from && fails <= MAX_LOGIN_FAILS - 1 + Pending(m, email))
  }

  lemma OpensNoOther(m: Entries, e: Event, email: string, fails: int, from: int)
    requires OpensOne(m, email, fails, from) && e != Success(email)
    requires email in m ==> m[email].fails < MAX_LOGIN_FAILS
    requires e.Failure? && e.email == email ==> from <= e.now <= from + FAIL_WINDOW && !Locks(m, email, e.now)
    ensures OpensOne(After(m, e, false), email, fails + (if e.Failure? && e.email == email then 1 else 0), from)
  {}

  lemma QuietLast(before: seq<Event>, e: Event, email: string, i: nat, from: int)
    requires QuietStretch(before + [e], email, i, from) && i <= |before|
    ensures e != Success(email)
    ensures e.Failure? && e.email == email ==>
        from <= e.now <= from + FAIL_WINDOW && !Locks(Table(before), email, e.now)
  {
    var events := before + [e];
    assert events[|before|] == e && events[..|before|] == before;
    assert e.Failure? && e.email == email ==> !LockedAt(events, |before|);
  }

  /** Either the stretch has stayed in the window it began in, or it has opened
      one window of its own, and then no second one fits. */
  lemma {:induction false} StretchOpensOneWindow(events: seq<Event>, email: string, i: nat, from: int)
    requires Ordered(events) && QuietStretch(events, email, i, from)
    ensures OpensOne(Table(events), email, Failures(events, email, i), from)
    decreases |events|
  {
    var last := |events| - 1;
    if i <= last {
      var before, e := events[..last], events[last];
      assert events == before + [e];
      QuietPrefix(before, e, email, i, from);
      StretchOpensOneWindow(before, email, i, from);
      TableIsSound(before);
      FailuresAppend(before, e, email, i);
      QuietLast(before, e, email, i, from);
      assert Table(events) == After(Table(before), e, false);
      hide Table, Failures, Ordered, QuietStretch, Sound, After, OpensOne;
      OpensNoOther(Table(before), e, email, Failures(before, email, i), from);
    }
  }

  /** Between locks and successes, any span of one fail window sees at most twice
      four failures of an account. */
  lemma FailuresPerWindow(events: seq<Event>, email: string, i: nat, from: int)
    requires Ordered(events) && QuietStretch(events, email, i, from)
    ensures Failures(events, email, i) <= 8
  {
    StretchOpensOneWindow(events, email, i, from);
    TableIsSound(events);
  }

  lemma OneMoreEvent(events: seq<Event>, e: Event, now: int)
    requires Ordered(events) && ReadBy(events, now) && e.Failure? && e.now == now
    ensures Ordered(events + [e]) && ReadBy(events + [e], now)
    ensures Table(events + [e]) == AfterFail(Table(events), e.email, now)
    ensures LockedAt(events + [e], |events|) == Locks(Table(events), e.email, now)
  {
    hide Table, LockedAt, Locks, AfterFail, After;
    TableAfter(events, e);
    assert After(Table(events), e, false) == AfterFail(Table(events), e.email, now) by { PlainFailure(events, e); }
  }

  lemma PlainFailure(events: seq<Event>, e: Event)
    requires e.Failure?
    ensures After(Table(events), e, false) == AfterFail(Table(events), e.email, e.now)
  {
    hide Table, AfterFail;
  }

  /** One more failure inside an open window, short of the fifth. */
  lemma OneMoreFailure(events: seq<Event>, email: string, now: int, i: nat, from: int)
    requires Ordered(events) && ReadBy(events, now) && QuietStretch(events, email, i, from)
    requires from <= now <= from + FAIL_WINDOW && !Locks(Table(events), email, now)
    ensures var longer := events + [Failure(email, now)];
      && Ordered(longer) && ReadBy(longer, now) && QuietStretch(longer, email, i, from)
      && Table(longer) == AfterFail(Table(events), email, now)
      && Failures(longer, email, i) == Failures(events, email, i) + 1
  {
    var e := Failure(email, now);
    OneMoreEvent(events, e, now);
    FailuresAppend(events, e, email, i);
    WindowGrows(events, e, email, i, from);
  }

  lemma {:induction false} MoreFailures(events: seq<Event>, email: string, now: int, n: nat, i: nat, from: int)
    returns (longer: seq<Event>)
    requires Ordered(events) && ReadBy(events, now) && QuietStretch(events, email, i, from)
    requires from <= now <= from + FAIL_WINDOW && !StartsWindow(Table(events), email, now)
    requires Pending(Table(events), email) + n < MAX_LOGIN_FAILS
    ensures Ordered(longer) && ReadBy(longer, now) && QuietStretch(longer, email, i, from)
    ensures Failures(longer, email, i) == Failures(events, email, i) + n
    ensures email in Table(longer)
        && Table(longer)[email] == Table(events)[email].(fails := Table(events)[email].fails + n)
    decreases n
  {
    longer := events;
    if n > 0 {
      OneMoreFailure(events, email, now, i, from);
      longer := MoreFailures(events + [Failure(email, now)], email, now, n - 1, i, from);
    }
  }

  lemma FourFailures(email: string) returns (events: seq<Event>)
    ensures Ordered(events) && ReadBy(events, 0)
    ensures email in Table(events) && Table(events)[email] == Entry(4, 0, 0)
  {
    OneMoreFailure([], email, 0, 0, 0);
    events := MoreFailures([] + [Failure(email, 0)], email, 0, 3, 0, 0);
  }

  /** The bound of FailuresPerWindow is attained: four failures just inside the
      window a lock opened, then four more in the next. */
  lemma EightFailuresInOneWindow(email: string) returns (events: seq<Event>, i: nat)
    ensures Ordered(events) && QuietStretch(events, email, i, FAIL_WINDOW)
    ensures Failures(events, email, i) == 8
  {
    events := FourFailures(email);
    OneMoreEvent(events, Failure(email, 0), 0);
    events := events + [Failure(email, 0)];
    i := |events|;
    events := MoreFailures(events, email, FAIL_WINDOW, 4, i, FAIL_WINDOW);
    OneMoreFailure(events, email, FAIL_WINDOW + 1, i, FAIL_WINDOW);
    events := MoreFailures(events + [Failure(email, FAIL_WINDOW + 1)], email, FAIL_WINDOW + 1, 3, i, FAIL_WINDOW);
  }
}
