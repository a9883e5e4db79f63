/** One account's failure counter and lock: the script's arithmetic, the counter as a count over
    the event log, and how many guesses a client gets that waits out every lock. */
module ThrottleModel {
  import opened Domain

  datatype Policy = Policy(freeAttempts: int, baseDelaySeconds: int, maxDelaySeconds: int, failureWindowSeconds: int) {
    /** Delays are whole, positive seconds; the number of free attempts is not negative. */
    predicate Sound() {
      freeAttempts >= 0 && baseDelaySeconds >= 1 && maxDelaySeconds >= 1
    }

    function WindowMs(): int { failureWindowSeconds * 1000 }

    /** A window that a failure opened at `start` still stands: it is not over before the clock has passed its end. */
    predicate InWindow(start: int, now: int) {
      failureWindowSeconds > 0 && now <= start + WindowMs()
    }
  }

  const DEFAULT_POLICY := Policy(5, 1, 15 * 60, 15 * 60)

  /** Redis rounds the time left on a key to the nearest second: the last 499 ms of a lock read as zero. */
  const UNSEEN_MS := 499

  /** The two keys of one account; an expired slot may linger. */
  datatype Account = Account(counter: Option<Slot<int>>, lock: Option<int>) {
    predicate Counting(now: int) {
      counter.Some? && now <= counter.value.deadline
    }

    predicate Locked(now: int) {
      lock.Some? && now <= lock.value
    }

    /** The lock's remaining time, as Redis reports it, is not zero. */
    predicate Blocked(now: int) {
      lock.Some? && now + UNSEEN_MS < lock.value
    }
  }

  function Pow2(n: nat): (r: int)
    ensures r >= 1
  {
    if n == 0 then 1 else 2 * Pow2(n - 1)
  }

  function Delay(p: Policy, excess: int): int
    requires excess > 0
  {
    Min(p.baseDelaySeconds * Pow2(excess - 1), p.maxDelaySeconds)
  }

  /** What the counter says after a failure at `now`. */
  function CountAt(a: Account, now: int): int {
    if a.Counting(now) then a.counter.value.value + 1 else 1
  }

  /** The failure script. It fails after counting when Redis refuses a lock that is not positive. */
  function RecordFailure(p: Policy, a: Account, now: int): (Account, bool) {
    var failures := CountAt(a, now);
    var counter := if failures == 1
      then if p.failureWindowSeconds > 0 then Some(Slot(1, now + p.WindowMs())) else None
      else Some(Slot(failures, a.counter.value.deadline));
    var excess := failures - p.freeAttempts;
    if excess <= 0 then (Account(counter, a.lock), true)
    else if Delay(p, excess) > 0 then (Account(counter, Some(now + Delay(p, excess) * 1000)), true)
    else (Account(counter, a.lock), false)
  }

  function Fail(p: Policy, a: Account, now: int): Account {
    RecordFailure(p, a, now).0
  }

  // ----- delays -----

  /** The first delay is the base delay, or the cap if that is shorter; delays double until they reach the
      cap, never shrink, and lie between one second and the cap. */
  lemma DelayLaws(p: Policy, excess: int)
    requires p.Sound() && excess > 0
    ensures excess == 1 && p.baseDelaySeconds <= p.maxDelaySeconds ==> Delay(p, excess) == p.baseDelaySeconds
    ensures excess == 1 && p.baseDelaySeconds >= p.maxDelaySeconds ==> Delay(p, excess) == p.maxDelaySeconds
    ensures 1 <= Delay(p, excess) <= p.maxDelaySeconds
    ensures Delay(p, excess + 1) == Min(2 * Delay(p, excess), p.maxDelaySeconds)
    ensures Delay(p, excess) <= Delay(p, excess + 1)
  {
  }

  lemma {:induction false} DelayMonotone(p: Policy, e: int, e': int)
    requires p.Sound() && 0 < e <= e'
    ensures Delay(p, e) <= Delay(p, e')
    decreases e'
  {
    if e == e' {
    } else {
      DelayMonotone(p, e, e' - 1);
      DelayLaws(p, e' - 1);
    }
  }

  // ----- the counter as a count over the log -----

  datatype Event = Failed(at: int) | Cleared(at: int)

  predicate Ordered(log: seq<Event>) {
    forall i, j | 0 <= i < j < |log| :: log[i].at <= log[j].at
  }

  function Effect(p: Policy, a: Account, e: Event): Account {
    match e
    case Failed(at) => Fail(p, a, at)
    case Cleared(_) => Account(None, None)
  }

  function Replay(p: Policy, log: seq<Event>): Account
    decreases |log|
  {
    if log == [] then Account(None, None)
    else
      var before := Replay(p, log[..|log| - 1]);
      Effect(p, before, log[|log| - 1])
  }

  predicate EndsBy(log: seq<Event>, now: int) {
    Ordered(log) && (log != [] ==> log[|log| - 1].at <= now)
  }

  lemma EarlierEndsBy(log: seq<Event>, now: int)
    requires EndsBy(log, now) && log != []
    ensures var init, last := log[..|log| - 1], log[|log| - 1];
            log == init + [last] && EndsBy(init, last.at) && Ordered(init + [last]) && last.at <= now
  {
    assert log == log[..|log| - 1] + [log[|log| - 1]];
  }

  lemma ReplayNothing(p: Policy)
    ensures Replay(p, []) == Account(None, None) && EndsBy([], 0)
  {
  }

  lemma ReplayMore(p: Policy, log: seq<Event>, e: Event)
    ensures Replay(p, log + [e]) == Effect(p, Replay(p, log), e)
  {
    assert (log + [e])[..|log|] == log;
  }

  /** The failure at `i` opened a window that still stands after the whole log at `now`: it was not
      itself inside a standing window, nothing cleared the account since, and the window has not run out. */
  predicate Stands(p: Policy, log: seq<Event>, i: nat, now: int)
    requires i < |log|
    decreases |log|, 1
  {
    && log[i].Failed?
    && (forall j | i < j < |log| :: log[j].Failed?)
    && p.InWindow(log[i].at, now)
    && !Covered(p, log[..i], log[i].at)
  }

  predicate Covered(p: Policy, log: seq<Event>, now: int)
    decreases |log|, 2
  {
    exists j | 0 <= j < |log| :: Stands(p, log, j, now)
  }

  lemma StandsLonger(p: Policy, log: seq<Event>, last: Event, i: nat, now: int)
    requires i < |log| && Ordered(log + [last]) && last.at <= now
    ensures Stands(p, log + [last], i, now) ==> last.Failed? && Stands(p, log, i, last.at)
    ensures last.Failed? && Stands(p, log, i, last.at) && p.InWindow(log[i].at, now) ==> Stands(p, log + [last], i, now)
  {
    assert (log + [last])[..i] == log[..i] && (log + [last])[|log|] == last;
    assert forall j | 0 <= j < |log| :: (log + [last])[j] == log[j];
  }

  /** The account's counter says what the log says: live exactly while a window stands, with that
      window's deadline and the number of failures since it opened. */
  ghost predicate Agrees(p: Policy, a: Account, log: seq<Event>, now: int) {
    && (a.Counting(now) <==> Covered(p, log, now))
    && forall i | 0 <= i < |log| && Stands(p, log, i, now) ::
        a.counter == Some(Slot(|log| - i, log[i].at + p.WindowMs()))
  }

  lemma ClearedAgrees(p: Policy, log: seq<Event>, last: Event, now: int)
    requires Ordered(log + [last]) && last.Cleared? && last.at <= now
    ensures Agrees(p, Account(None, None), log + [last], now)
  {
    var log' := log + [last];
    assert log'[|log|] == last;
    forall i | 0 <= i < |log'| ensures !Stands(p, log', i, now) {
    }
  }

  lemma CoveredFailureAgrees(p: Policy, a: Account, log: seq<Event>, last: Event, now: int)
    requires Ordered(log + [last]) && last.Failed? && last.at <= now
    requires Agrees(p, a, log, last.at) && Covered(p, log, last.at)
    ensures Agrees(p, Fail(p, a, last.at), log + [last], now)
  {
    var log' := log + [last];
    var i :| 0 <= i < |log| && Stands(p, log, i, last.at);
    forall k | 0 <= k < |log'| ensures Stands(p, log', k, now) <==> k == i && p.InWindow(log[i].at, now) {
      if k < |log| {
        StandsLonger(p, log, last, k, now);
      } else {
        assert log'[..k] == log;
      }
    }
    assert Covered(p, log', now) <==> Stands(p, log', i, now);
  }

  lemma OpeningFailureAgrees(p: Policy, a: Account, log: seq<Event>, last: Event, now: int)
    requires Ordered(log + [last]) && last.Failed? && last.at <= now
    requires Agrees(p, a, log, last.at) && !Covered(p, log, last.at)
    ensures Agrees(p, Fail(p, a, last.at), log + [last], now)
  {
    var log' := log + [last];
    forall k | 0 <= k < |log'| ensures Stands(p, log', k, now) <==> k == |log| && p.InWindow(last.at, now) {
      if k < |log| {
        StandsLonger(p, log, last, k, now);
      } else {
        assert log'[..k] == log;
      }
    }
    assert Covered(p, log', now) <==> Stands(p, log', |log|, now);
  }

  lemma EventAgrees(p: Policy, a: Account, log: seq<Event>, last: Event, now: int)
    requires Ordered(log + [last]) && last.at <= now && Agrees(p, a, log, last.at)
    ensures Agrees(p, Effect(p, a, last), log + [last], now)
  {
    if last.Cleared? {
      ClearedAgrees(p, log, last, now);
    } else if Covered(p, log, last.at) {
      CoveredFailureAgrees(p, a, log, last, now);
    } else {
      OpeningFailureAgrees(p, a, log, last, now);
    }
  }

  lemma NothingAgrees(p: Policy, now: int)
    ensures Agrees(p, Account(None, None), [], now)
  {
  }

  /** The counter refines the event log, over any sequence of failures, resets and clock ticks: later
      failures never extend the window the first one opened, and no counter lacks a deadline. */
  lemma {:induction false} CounterCountsWindow(p: Policy, log: seq<Event>, now: int)
    requires EndsBy(log, now)
    ensures Agrees(p, Replay(p, log), log, now)
    decreases |log|
  {
    hide Agrees, Effect, EndsBy, Ordered, Replay;
    if log == [] {
      ReplayNothing(p);
      NothingAgrees(p, now);
    } else {
      var init, last := log[..|log| - 1], log[|log| - 1];
      EarlierEndsBy(log, now);
      CounterCountsWindow(p, init, last.at);
      EventAgrees(p, Replay(p, init), init, last, now);
      ReplayMore(p, init, last);
    }
  }

  // ----- the lock -----

  /** A login is never blocked later than the longest delay after the last recorded failure. */
  lemma {:induction false} LockBounded(p: Policy, log: seq<Event>, now: int)
    requires p.Sound() && Ordered(log) && Replay(p, log).Locked(now)
    ensures exists i :: 0 <= i < |log| && log[i].Failed? && now <= log[i].at + p.maxDelaySeconds * 1000
    decreases |log|
  {
    var init, last := log[..|log| - 1], log[|log| - 1];
    if last.Failed? {
      var failures := CountAt(Replay(p, init), last.at);
      if failures - p.freeAttempts > 0 {
        DelayLaws(p, failures - p.freeAttempts);
        assert log[|log| - 1].Failed? && now <= log[|log| - 1].at + p.maxDelaySeconds * 1000;
      } else {
        LockBounded(p, init, now);
        var i :| 0 <= i < |init| && init[i].Failed? && now <= init[i].at + p.maxDelaySeconds * 1000;
        assert log[i] == init[i];
      }
    }
  }

  /** The same, measured from the last failure of the log. */
  lemma LockEndsAfterLastFailure(p: Policy, log: seq<Event>, k: nat, now: int)
    requires p.Sound() && Ordered(log) && Replay(p, log).Locked(now)
    requires k < |log| && log[k].Failed? && forall i | k < i < |log| :: log[i].Cleared?
    ensures now <= log[k].at + p.maxDelaySeconds * 1000
  {
    LockBounded(p, log, now);
    var i :| 0 <= i < |log| && log[i].Failed? && now <= log[i].at + p.maxDelaySeconds * 1000;
    assert i <= k;
  }

  /** A counter ends within a window from now; past the free attempts it has set a lock, no later than
      its own delay from now. */
  ghost predicate LockFollows(p: Policy, a: Account, now: int)
    requires p.Sound()
  {
    a.counter.Some? ==>
      var n := a.counter.value.value;
      && n >= 1 && a.counter.value.deadline <= now + p.WindowMs()
      && (n > p.freeAttempts ==> a.lock.Some? && a.lock.value <= now + 1000 * Delay(p, n - p.freeAttempts))
  }

  lemma NothingFollows(p: Policy, now: int)
    requires p.Sound()
    ensures LockFollows(p, Account(None, None), now)
  {
  }

  lemma LockFollowsEvent(p: Policy, a: Account, e: Event, now: int)
    requires p.Sound() && LockFollows(p, a, e.at) && e.at <= now
    ensures LockFollows(p, Effect(p, a, e), now)
  {
  }

  lemma {:induction false} LockFollowsCount(p: Policy, log: seq<Event>, now: int)
    requires p.Sound() && EndsBy(log, now)
    ensures LockFollows(p, Replay(p, log), now)
    decreases |log|
  {
    hide LockFollows, Effect;
    if log == [] {
      NothingFollows(p, now);
    } else {
      var init, last := log[..|log| - 1], log[|log| - 1];
      EarlierEndsBy(log, now);
      LockFollowsCount(p, init, last.at);
      LockFollowsEvent(p, Replay(p, init), last, now);
    }
  }

  /** A failure moves the lock earlier exactly when it is the first of its counter lifetime to lock
      the account and finds a lock, left from an earlier lifetime, that outlasts the shortest delay. */
  lemma {:induction false} LockMovesEarlier(p: Policy, log: seq<Event>, t: int)
    requires p.Sound() && EndsBy(log, t) && Replay(p, log).lock.Some?
    ensures var a := Replay(p, log); var a' := Fail(p, a, t);
            && a'.lock.Some?
            && (a'.lock.value < a.lock.value
                <==> CountAt(a, t) == p.freeAttempts + 1 && a.lock.value > t + 1000 * Delay(p, 1))
  {
    LockFollowsCount(p, log, t);
    var a := Replay(p, log);
    var excess := CountAt(a, t) - p.freeAttempts;
    if excess > 1 {
      DelayLaws(p, excess - 1);
    }
  }

  lemma FailInLifetime(p: Policy, a: Account, t: int)
    requires a.Counting(t) && a.counter.value.value >= 1
    ensures Fail(p, a, t).counter == Some(Slot(a.counter.value.value + 1, a.counter.value.deadline))
  {
  }

  /** Once a counter lifetime has locked the account, none of its later failures moves the lock
      earlier, however many race. */
  lemma {:induction false} LockNeverEarlier(p: Policy, log: seq<Event>, more: seq<Event>)
    requires p.Sound() && Ordered(log + more) && log != []
    requires var c := Replay(p, log).counter;
             c.Some? && c.value.value > p.freeAttempts && forall e <- more :: e.Failed? && e.at <= c.value.deadline
    ensures var a, a' := Replay(p, log), Replay(p, log + more);
            && a.lock.Some? && a'.lock.Some? && a.lock.value <= a'.lock.value
            && a'.counter == Some(Slot(a.counter.value.value + |more|, a.counter.value.deadline))
    decreases |more|
  {
    hide Replay, Delay, RecordFailure;
    if more == [] {
      assert log + more == log;
      LockFollowsCount(p, log, log[|log| - 1].at);
    } else {
      var n := |more| - 1;
      var before, e := log + more[..n], more[n];
      assert log + more == before + [e] && e in more;
      assert forall x <- more[..n] :: x in more;
      assert forall i | 0 <= i < |before| :: before[i] == (log + more)[i];
      assert (log + more)[|before|] == e;
      LockNeverEarlier(p, log, more[..n]);
      LockMovesEarlier(p, before, e.at);
      ReplayMore(p, before, e);
      FailInLifetime(p, Replay(p, before), e.at);
    }
  }

  /** Nor does a failure whose own lock check saw the lock as it still is. */
  lemma CheckedLockNeverEarlier(p: Policy, log: seq<Event>, checkedAt: int, t: int)
    requires p.Sound() && EndsBy(log, t) && Replay(p, log).lock.Some?
    requires checkedAt <= t && !Replay(p, log).Blocked(checkedAt)
    ensures Fail(p, Replay(p, log), t).lock.Some? && Replay(p, log).lock.value <= Fail(p, Replay(p, log), t).lock.value
  {
    LockMovesEarlier(p, log, t);
    DelayLaws(p, 1);
  }

  /** `k` failures at once: requests that had all passed their lock check. */
  function Burst(t: int, k: nat): (log: seq<Event>)
    ensures |log| == k && forall e <- log :: e == Failed(t)
  {
    if k == 0 then [] else Burst(t, k - 1) + [Failed(t)]
  }

  lemma BurstEndsBy(log: seq<Event>, t: int, k: nat)
    requires EndsBy(log, t)
    ensures EndsBy(log + Burst(t, k), t)
  {
    var both := log + Burst(t, k);
    forall i | 0 <= i < |both| ensures both[i].at <= t && (i >= |log| ==> both[i].at == t) {
      assert i >= |log| ==> both[i] in Burst(t, k);
    }
  }

  lemma {:induction false} ReplayBurst(p: Policy, log: seq<Event>, t: int, k: nat)
    requires p.Sound() && p.failureWindowSeconds > 0 && k > 0 && EndsBy(log, t)
    ensures EndsBy(log + Burst(t, k), t)
    ensures var a, a' := Replay(p, log), Replay(p, log + Burst(t, k)); var n := CountAt(a, t) + k - 1;
            && a'.counter == Some(Slot(n, if a.Counting(t) then a.counter.value.deadline else t + p.WindowMs()))
            && a'.lock == (if n > p.freeAttempts then Some(t + 1000 * Delay(p, n - p.freeAttempts)) else a.lock)
    decreases k
  {
    hide Replay, Delay, EndsBy;
    BurstEndsBy(log, t, k);
    LockFollowsCount(p, log, t);
    var before := log + Burst(t, k - 1);
    assert log + Burst(t, k) == before + [Failed(t)];
    ReplayMore(p, before, Failed(t));
    var n := CountAt(Replay(p, log), t) + k - 1;
    if n > p.freeAttempts {
      DelayLaws(p, n - p.freeAttempts);
    }
    if k == 1 {
      assert before == log;
    } else {
      ReplayBurst(p, log, t, k - 1);
    }
  }

  lemma RacedDelays()
    ensures Delay(DEFAULT_POLICY, 10) == 512 && Delay(DEFAULT_POLICY, 11) == 900 && Delay(DEFAULT_POLICY, 1) == 1
  {
  }

  /** It happens with the default policy: 15 failures race, one more comes in the last millisecond of
      their window, and six that had passed their lock check come in the next. The sixth shortens
      the lock from 15 minutes to a second. */
  lemma LockEarlierInANewLifetime()
    ensures var p := DEFAULT_POLICY; var log := Burst(0, 15) + Burst(900000, 1) + Burst(900001, 5);
            && EndsBy(log, 900001)
            && Replay(p, log).lock == Some(1800000) && Replay(p, log + Burst(900001, 1)).lock == Some(901001)
  {
    hide Replay, Burst, Ordered, Delay;
    var p := DEFAULT_POLICY;
    var one := Burst(0, 15);
    var two := one + Burst(900000, 1);
    var log := two + Burst(900001, 5);
    ReplayNothing(p);
    assert [] + one == one;
    ReplayBurst(p, [], 0, 15);
    ReplayBurst(p, one, 900000, 1);
    ReplayBurst(p, two, 900001, 5);
    ReplayBurst(p, log, 900001, 1);
    RacedDelays();
  }

  // ----- guesses -----

  /** One failed login of a client that waits: the lock is checked, then the failure recorded. */
  datatype Attempt = Attempt(checkedAt: int, failedAt: int)

  function After(p: Policy, a: Account, attempts: seq<Attempt>): Account
    decreases |attempts|
  {
    if attempts == [] then a else After(p, Fail(p, a, attempts[0].failedAt), attempts[1..])
  }

  /** Each attempt starts after the failure before it was recorded, and passes the lock check. */
  predicate Sequential(p: Policy, a: Account, from: int, attempts: seq<Attempt>)
    decreases |attempts|
  {
    attempts == [] ||
    (var t := attempts[0];
     && from <= t.checkedAt <= t.failedAt && !a.Blocked(t.checkedAt)
     && Sequential(p, Fail(p, a, t.failedAt), t.failedAt, attempts[1..]))
  }

  function LastFailure(from: int, attempts: seq<Attempt>): int {
    if attempts == [] then from else attempts[|attempts| - 1].failedAt
  }

  lemma {:induction false} SequentialJoined(p: Policy, a: Account, from: int, xs: seq<Attempt>, ys: seq<Attempt>)
    ensures Sequential(p, a, from, xs + ys) <==>
              Sequential(p, a, from, xs) && Sequential(p, After(p, a, xs), LastFailure(from, xs), ys)
    ensures After(p, a, xs + ys) == After(p, After(p, a, xs), ys)
    decreases |xs|
  {
    if xs == [] {
      assert xs + ys == ys;
    } else {
      assert (xs + ys)[1..] == xs[1..] + ys;
      SequentialJoined(p, Fail(p, a, xs[0].failedAt), xs[0].failedAt, xs[1..], ys);
    }
  }

  /** The milliseconds a client must wait for `n` locks in a row, up to the unseen end of each. */
  function TotalWait(p: Policy, n: int): int {
    if n <= 0 then 0 else TotalWait(p, n - 1) + 1000 * Delay(p, n) - UNSEEN_MS
  }

  lemma {:induction false} TotalWaitMonotone(p: Policy, m: int, n: int)
    requires p.Sound() && m <= n
    ensures 0 <= TotalWait(p, m) <= TotalWait(p, n)
    ensures 0 < n && m < n ==> TotalWait(p, m) < TotalWait(p, n)
    decreases n
  {
    if n <= 0 {
    } else {
      DelayLaws(p, n);
      TotalWaitMonotone(p, if m < n then m else n - 1, n - 1);
    }
  }

  /** The account at least `n` failures into a counter lifetime that ends at `deadline`; the first of the
      `n` came at `first` and the last at `last`. */
  ghost predicate Into(p: Policy, a: Account, n: nat, deadline: int, first: int, last: int) {
    && n > 0 && a.counter.Some? && a.counter.value.deadline == deadline
    && var count := a.counter.value.value;
       && count >= n
       && (count > p.freeAttempts ==> a.lock == Some(last + 1000 * Delay(p, count - p.freeAttempts)))
       && last - first >= TotalWait(p, n - 1 - p.freeAttempts)
  }

  /** A failure inside the window, once the lock no longer blocks, leads one further into the lifetime. */
  lemma IntoNext(p: Policy, a: Account, n: nat, deadline: int, first: int, last: int, t: Attempt)
    requires p.Sound() && Into(p, a, n, deadline, first, last)
    requires last <= t.checkedAt <= t.failedAt <= deadline && !a.Blocked(t.checkedAt)
    ensures var count, a' := a.counter.value.value, Fail(p, a, t.failedAt);
            && Into(p, a', n + 1, deadline, first, t.failedAt) && a'.counter.value.value == count + 1
            && (count + 1 <= p.freeAttempts ==> a'.lock == a.lock)
  {
    if n > p.freeAttempts {
      DelayMonotone(p, n - p.freeAttempts, a.counter.value.value - p.freeAttempts);
    }
  }

  lemma {:induction false} IntoLifetime(p: Policy, a: Account, n: nat, deadline: int, first: int, last: int,
                                        attempts: seq<Attempt>)
    requires p.Sound() && Into(p, a, n, deadline, first, last)
    requires Sequential(p, a, last, attempts) && forall t <- attempts :: t.failedAt <= deadline
    ensures var count, a' := a.counter.value.value, After(p, a, attempts);
            && Into(p, a', n + |attempts|, deadline, first, LastFailure(last, attempts))
            && a'.counter.value.value == count + |attempts|
            && (count + |attempts| <= p.freeAttempts ==> a'.lock == a.lock)
    decreases |attempts|
  {
    hide Fail, Delay, TotalWait;
    if attempts == [] {
    } else {
      var t := attempts[0];
      assert attempts == [t] + attempts[1..];
      IntoNext(p, a, n, deadline, first, last, t);
      IntoLifetime(p, Fail(p, a, t.failedAt), n + 1, deadline, first, t.failedAt, attempts[1..]);
    }
  }

  /** A client's failures of one counter lifetime, the first of them at `first`. */
  ghost predicate Lifetime(p: Policy, a: Account, first: int, attempts: seq<Attempt>) {
    && attempts != [] && attempts[0].failedAt == first && !a.Counting(first)
    && Sequential(p, a, attempts[0].checkedAt, attempts)
    && forall t <- attempts :: p.InWindow(first, t.failedAt)
  }

  lemma LifetimeInto(p: Policy, a: Account, first: int, attempts: seq<Attempt>)
    requires p.Sound() && Lifetime(p, a, first, attempts)
    ensures var a' := After(p, a, attempts);
            && Into(p, a', |attempts|, first + p.WindowMs(), first, LastFailure(first, attempts))
            && a'.counter.value.value == |attempts|
            && (|attempts| <= p.freeAttempts ==> a'.lock == a.lock)
  {
    assert attempts == [attempts[0]] + attempts[1..];
    IntoLifetime(p, Fail(p, a, first), 1, first + p.WindowMs(), first, first, attempts[1..]);
  }

  /** The guess bound: sequential failures fit into one counter lifetime only if the waits they
      had to sit out are no longer than the window. */
  lemma GuessesPerLifetime(p: Policy, a: Account, first: int, attempts: seq<Attempt>)
    requires p.Sound() && Lifetime(p, a, first, attempts)
    ensures TotalWait(p, |attempts| - 1 - p.freeAttempts) <= LastFailure(first, attempts) - first <= p.WindowMs()
  {
    LifetimeInto(p, a, first, attempts);
    assert attempts[|attempts| - 1] in attempts;
  }

  /** The instant of failure number `n + 1` of a client that fails again the moment each lock lets it. */
  function WaitedUntil(p: Policy, first: int, n: int): int {
    first + TotalWait(p, n - p.freeAttempts)
  }

  lemma WaitsGrow(p: Policy, first: int, m: int, n: int)
    requires p.Sound() && m <= n
    ensures first <= WaitedUntil(p, first, m) <= WaitedUntil(p, first, n)
  {
    TotalWaitMonotone(p, m - p.freeAttempts, n - p.freeAttempts);
  }

  /** That client's attempts `k` to `f` of a lifetime. */
  function Greedy(p: Policy, first: int, k: nat, f: nat): (attempts: seq<Attempt>)
    requires k <= f
    ensures |attempts| == f - k
    decreases f - k
  {
    if k == f then []
    else
      var t := WaitedUntil(p, first, k);
      [Attempt(t, t)] + Greedy(p, first, k + 1, f)
  }

  lemma {:induction false} GreedyTimes(p: Policy, n: nat, first: int, f: nat)
    requires p.Sound() && n <= f
    ensures forall t <- Greedy(p, first, n, f) :: first <= t.failedAt <= WaitedUntil(p, first, f - 1)
    decreases f - n
  {
    if n == f {
    } else {
      WaitsGrow(p, first, n, f - 1);
      GreedyTimes(p, n + 1, first, f);
    }
  }

  /** The waiting client's account, exactly `n` failures into a lifetime. */
  ghost predicate Waiting(p: Policy, a: Account, n: nat, deadline: int, first: int) {
    && Into(p, a, n, deadline, first, WaitedUntil(p, first, n - 1))
    && a.counter.value.value == n
    && (n <= p.freeAttempts ==> !a.Blocked(first))
  }

  lemma WaitingNext(p: Policy, a: Account, n: nat, deadline: int, first: int)
    requires p.Sound() && Waiting(p, a, n, deadline, first) && WaitedUntil(p, first, n) <= deadline
    ensures var t := WaitedUntil(p, first, n);
            && WaitedUntil(p, first, n - 1) <= t && !a.Blocked(t)
            && Waiting(p, Fail(p, a, t), n + 1, deadline, first)
  {
    WaitsGrow(p, first, n - 1, n);
    var t := WaitedUntil(p, first, n);
    IntoNext(p, a, n, deadline, first, WaitedUntil(p, first, n - 1), Attempt(t, t));
  }

  lemma {:induction false} GreedyFits(p: Policy, a: Account, n: nat, deadline: int, first: int, f: nat)
    requires p.Sound() && 0 < n <= f && Waiting(p, a, n, deadline, first) && WaitedUntil(p, first, f - 1) <= deadline
    ensures Sequential(p, a, WaitedUntil(p, first, n - 1), Greedy(p, first, n, f))
    ensures Waiting(p, After(p, a, Greedy(p, first, n, f)), f, deadline, first)
    decreases f - n
  {
    hide Fail, Waiting, WaitedUntil;
    if n == f {
    } else {
      var t := WaitedUntil(p, first, n);
      WaitsGrow(p, first, n, f - 1);
      WaitingNext(p, a, n, deadline, first);
      GreedyFits(p, Fail(p, a, t), n + 1, deadline, first, f);
      assert Greedy(p, first, n, f)[1..] == Greedy(p, first, n + 1, f);
    }
  }

  lemma FirstFailure(p: Policy, a: Account, first: int)
    requires p.Sound() && !a.Counting(first) && !a.Blocked(first) && p.failureWindowSeconds > 0
    ensures Waiting(p, Fail(p, a, first), 1, first + p.WindowMs(), first)
  {
  }

  /** Once the window is over and the last lock lets go, the waiting client's account is clean. */
  lemma WaitingEnds(p: Policy, a: Account, n: nat, deadline: int, first: int, later: int)
    requires p.Sound() && Waiting(p, a, n, deadline, first) && deadline < later && WaitedUntil(p, first, n) <= later
    ensures !a.Counting(later) && !a.Blocked(later)
  {
    WaitsGrow(p, first, n - 1, n);
  }

  /** The whole of one greedy lifetime: `f` failures, and a clean account at `later`. */
  lemma GreedyLifetime(p: Policy, a: Account, first: int, f: nat, later: int)
    requires p.Sound() && f > 0 && !a.Counting(first) && !a.Blocked(first) && p.failureWindowSeconds > 0
    requires WaitedUntil(p, first, f - 1) <= first + p.WindowMs() < later && WaitedUntil(p, first, f) <= later
    ensures var xs := Greedy(p, first, 0, f);
            && Lifetime(p, a, first, xs) && Sequential(p, a, first, xs)
            && (forall t <- xs :: first <= t.failedAt <= WaitedUntil(p, first, f - 1))
            && !After(p, a, xs).Counting(later) && !After(p, a, xs).Blocked(later)
  {
    hide RecordFailure, Delay, Waiting;
    var xs := Greedy(p, first, 0, f);
    WaitsGrow(p, first, 0, f - 1);
    GreedyTimes(p, 0, first, f);
    FirstFailure(p, a, first);
    GreedyFits(p, Fail(p, a, first), 1, first + p.WindowMs(), first, f);
    assert xs[0] == Attempt(first, first) && xs[1..] == Greedy(p, first, 1, f);
    WaitingEnds(p, After(p, a, xs), f, first + p.WindowMs(), first, later);
  }

  /** The bound is exact: a lifetime that starts on an account that is not blocked can hold `f` sequential
      failures if and only if there is a window and the waits before the last one are no longer. */
  lemma GuessesExact(p: Policy, a: Account, first: int, f: nat)
    requires p.Sound() && f > 0 && !a.Counting(first) && !a.Blocked(first)
    ensures (exists attempts :: |attempts| == f && Lifetime(p, a, first, attempts))
            <==> p.failureWindowSeconds > 0 && TotalWait(p, f - 1 - p.freeAttempts) <= p.WindowMs()
  {
    if p.failureWindowSeconds > 0 && TotalWait(p, f - 1 - p.freeAttempts) <= p.WindowMs() {
      var late := first + p.WindowMs() + TotalWait(p, f - p.freeAttempts) + 1;
      TotalWaitMonotone(p, f - 1 - p.freeAttempts, f - p.freeAttempts);
      GreedyLifetime(p, a, first, f, late);
      assert Lifetime(p, a, first, Greedy(p, first, 0, f));
    }
    if attempts :| |attempts| == f && Lifetime(p, a, first, attempts) {
      GuessesPerLifetime(p, a, first, attempts);
      assert attempts[0] in attempts;
    }
  }

  lemma DefaultDelays()
    ensures TotalWait(DEFAULT_POLICY, 7) == 123507 && TotalWait(DEFAULT_POLICY, 8) == 251008
    ensures TotalWait(DEFAULT_POLICY, 9) == 506509 && TotalWait(DEFAULT_POLICY, 10) == 1018010
    ensures Delay(DEFAULT_POLICY, 10) == 512
  {
  }

  /** With the default policy a counter lifetime holds at most 15 sequential failures. */
  lemma AtMostFifteen(a: Account, first: int, attempts: seq<Attempt>)
    requires Lifetime(DEFAULT_POLICY, a, first, attempts)
    ensures |attempts| <= 15
  {
    GuessesPerLifetime(DEFAULT_POLICY, a, first, attempts);
    DefaultDelays();
    if |attempts| > 15 {
      TotalWaitMonotone(DEFAULT_POLICY, 10, |attempts| - 6);
    }
  }

  // ----- guesses over many windows, with the default policy -----

  /** From the start of one lifetime to the earliest start of the next, and by how much a lifetime of
      15 failures holds up the next one: its last lock still blocks when the window is over. */
  const PERIOD_MS := 900001
  const OVERRUN_MS := 118009

  /** Attempts that begin at `from` and whose failures lie between `start` and `end`. */
  ghost predicate Within(a: Account, from: int, start: int, end: int, attempts: seq<Attempt>) {
    && Sequential(DEFAULT_POLICY, a, from, attempts)
    && (attempts != [] ==> start <= attempts[0].failedAt)
    && forall t <- attempts :: t.failedAt < end
  }

  /** The attempts that fail before `end`; times never go back, so they come first. */
  function Before(attempts: seq<Attempt>, end: int): (n: nat)
    ensures n <= |attempts| && (forall t <- attempts[..n] :: t.failedAt < end)
    ensures n < |attempts| ==> attempts[n].failedAt >= end
  {
    if attempts == [] || attempts[0].failedAt >= end then 0
    else
      var n := Before(attempts[1..], end);
      assert attempts[..n + 1] == [attempts[0]] + attempts[1..][..n];
      n + 1
  }

  /** When the next lifetime can begin, after one of `k` failures that began at `first`. */
  function NextStart(first: int, k: nat): int {
    first + PERIOD_MS + if k == 15 then OVERRUN_MS else 0
  }

  /** A run of attempts is one counter lifetime, and a run that has to wait for its window to end and,
      if it had 15 failures, for its last lock. */
  lemma OneLifetime(a: Account, from: int, start: int, end: int, attempts: seq<Attempt>)
    returns (xs: seq<Attempt>, from': int, later: int, ys: seq<Attempt>)
    requires attempts != [] && Within(a, from, start, end, attempts) && !a.Counting(start)
    ensures attempts == xs + ys && Lifetime(DEFAULT_POLICY, a, attempts[0].failedAt, xs) && |xs| <= 15
    ensures NextStart(start, |xs|) <= later && (ys != [] ==> later < end)
    ensures Within(After(DEFAULT_POLICY, a, xs), from', later, end, ys) && !After(DEFAULT_POLICY, a, xs).Counting(later)
  {
    hide RecordFailure, Delay, TotalWait;
    var p, first := DEFAULT_POLICY, attempts[0].failedAt;
    var k := Before(attempts, first + PERIOD_MS);
    xs, ys := attempts[..k], attempts[k..];
    assert attempts == xs + ys && xs[0] == attempts[0];
    SequentialJoined(p, a, from, xs, ys);
    AtMostFifteen(a, first, xs);
    LifetimeInto(p, a, first, xs);
    DefaultDelays();
    from', later := LastFailure(from, xs), NextStart(first, |xs|);
    assert ys != [] ==> ys[0] in ys;
  }

  /** What still fits when less than a window is left. */
  lemma LastLifetime(a: Account, first: int, paid: nat, xs: seq<Attempt>, end: int)
    requires Lifetime(DEFAULT_POLICY, a, first, xs) && paid < 8
    requires end <= first + PERIOD_MS - paid * OVERRUN_MS && forall t <- xs :: t.failedAt < end
    ensures |xs| <= 15 && |xs| <= 19 - paid
  {
    var p := DEFAULT_POLICY;
    AtMostFifteen(a, first, xs);
    GuessesPerLifetime(p, a, first, xs);
    DefaultDelays();
    assert xs[|xs| - 1] in xs;
    if |xs| > 19 - paid {
      TotalWaitMonotone(p, 14 - paid, |xs| - 6);
    }
  }

  /** `paid` lifetimes of 15 have already used up time for good; eight of them cost a whole window. */
  lemma {:induction false} LongRun(a: Account, from: int, start: int, n: nat, paid: nat, attempts: seq<Attempt>)
    requires n >= 1 && paid <= 8 && !a.Counting(start)
    requires Within(a, from, start, start + n * PERIOD_MS - paid * OVERRUN_MS, attempts)
    ensures |attempts| <= 14 * n + 5 - paid && |attempts| <= 15 * n
    decreases n
  {
    if attempts == [] {
    } else if paid == 8 {
      assert attempts[0] in attempts;
      LongRun(a, from, start, n - 1, 0, attempts);
    } else {
      var end := start + n * PERIOD_MS - paid * OVERRUN_MS;
      var xs, from', later, ys := OneLifetime(a, from, start, end, attempts);
      if n == 1 {
        LastLifetime(a, attempts[0].failedAt, paid, xs, end);
      } else {
        LongRun(After(DEFAULT_POLICY, a, xs), from', later, n - 1, if |xs| == 15 then paid + 1 else paid, ys);
      }
    }
  }

  /** `n` greedy lifetimes, one every `period` milliseconds. */
  function Repeated(p: Policy, first: int, f: nat, period: int, n: nat): (attempts: seq<Attempt>)
    decreases n
  {
    if n == 0 then [] else Greedy(p, first, 0, f) + Repeated(p, first + period, f, period, n - 1)
  }

  lemma OneMore(n: nat, k: int)
    requires n > 0
    ensures k * n == k * (n - 1) + k && (n - 1) * k + k == n * k && (k >= 0 ==> (n - 1) * k >= 0)
  {
  }

  lemma LaterStart(p: Policy, a: Account, from: int, from': int, attempts: seq<Attempt>)
    requires from <= from' && Sequential(p, a, from', attempts)
    ensures Sequential(p, a, from, attempts)
  {
  }

  /** A client that fails again the moment each lock lets it gets `f` guesses in every period, for as many
      periods as it likes, when a period holds the window and all the waits; the account ends up clean. */
  lemma {:induction false} GuessesEveryPeriod(p: Policy, a: Account, first: int, f: nat, period: int, n: nat)
    requires p.Sound() && f > 0 && !a.Counting(first) && !a.Blocked(first)
    requires p.failureWindowSeconds > 0 && TotalWait(p, f - 1 - p.freeAttempts) <= p.WindowMs() < period
    requires TotalWait(p, f - p.freeAttempts) <= period
    ensures var xs := Repeated(p, first, f, period, n);
            && |xs| == f * n && Sequential(p, a, first, xs)
            && (forall t <- xs :: first <= t.failedAt <= WaitedUntil(p, first + (n - 1) * period, f - 1))
            && !After(p, a, xs).Counting(first + n * period) && !After(p, a, xs).Blocked(first + n * period)
    decreases n
  {
    hide RecordFailure, Delay, TotalWait, Greedy, Into, Lifetime;
    if n == 0 {
    } else {
      var xs, ys := Greedy(p, first, 0, f), Repeated(p, first + period, f, period, n - 1);
      GreedyLifetime(p, a, first, f, first + period);
      GuessesEveryPeriod(p, After(p, a, xs), first + period, f, period, n - 1);
      OneMore(n, f);
      OneMore(n, period);
      assert LastFailure(first, xs) <= first + period by {
        assert xs[|xs| - 1] in xs;
      }
      LaterStart(p, After(p, a, xs), LastFailure(first, xs), first + period, ys);
      SequentialJoined(p, a, first, xs, ys);
    }
  }

  /** From a clean account: `i` lifetimes of 15 failures, then `j` of 14. */
  lemma CleanSchedule(a: Account, start: int, i: nat, j: nat) returns (attempts: seq<Attempt>)
    requires j >= 1 && !a.Counting(start) && !a.Blocked(start)
    ensures |attempts| == 15 * i + 14 * j
    ensures Within(a, start, start, start + i * (PERIOD_MS + OVERRUN_MS) + (j - 1) * PERIOD_MS + 251009, attempts)
  {
    hide RecordFailure, Delay, TotalWait, Greedy, Repeated, Sequential, After;
    var p, later := DEFAULT_POLICY, start + i * (PERIOD_MS + OVERRUN_MS);
    var xs := Repeated(p, start, 15, PERIOD_MS + OVERRUN_MS, i);
    var ys := Repeated(p, later, 14, PERIOD_MS, j);
    DefaultDelays();
    GuessesEveryPeriod(p, a, start, 15, PERIOD_MS + OVERRUN_MS, i);
    GuessesEveryPeriod(p, After(p, a, xs), later, 14, PERIOD_MS, j);
    assert LastFailure(start, xs) <= later by {
      assert xs != [] ==> xs[|xs| - 1] in xs;
    }
    LaterStart(p, After(p, a, xs), LastFailure(start, xs), later, ys);
    SequentialJoined(p, a, start, xs, ys);
    attempts := xs + ys;
    assert attempts[0] in xs || attempts[0] in ys;
  }

  lemma Shorter(a: Account, start: int, end: int, attempts: seq<Attempt>, c: nat)
    requires Within(a, start, start, end, attempts) && c <= |attempts|
    ensures Within(a, start, start, end, attempts[..c])
  {
    SequentialJoined(DEFAULT_POLICY, a, start, attempts[..c], attempts[c..]);
    assert attempts == attempts[..c] + attempts[c..] && (c > 0 ==> attempts[..c][0] == attempts[0]);
  }

  /** `n` windows back to back, or up to 43 s less: the bounds below do not depend on the difference. */
  predicate Windows(start: int, end: int, n: nat) {
    start + n * PERIOD_MS - 43000 <= end <= start + n * PERIOD_MS
  }

  /** A client that finds no count and no lock can fail exactly up to 14 n + 5 times in `n` windows, for every
      `n` of at least six. */
  lemma GuessesWhenIdle(a: Account, start: int, end: int, n: nat, c: nat)
    requires n >= 6 && Windows(start, end, n) && !a.Counting(start) && !a.Blocked(start)
    ensures (exists attempts :: |attempts| == c && Within(a, start, start, end, attempts)) <==> c <= 14 * n + 5
  {
    if c <= 14 * n + 5 {
      var best := CleanSchedule(a, start, 5, n - 5);
      Shorter(a, start, end, best, c);
    }
    if attempts :| |attempts| == c && Within(a, start, start, end, attempts) {
      LongRun(a, start, start, n, 0, attempts);
    }
  }

  // ----- and after any history -----

  lemma NoWait(p: Policy, n: int)
    requires n <= 0
    ensures TotalWait(p, n) == 0
  {
  }

  lemma LeftoverFirst(a: Account, first: int)
    requires a.Counting(first) && a.counter.value.value >= 1
    ensures Into(DEFAULT_POLICY, Fail(DEFAULT_POLICY, a, first), 2, a.counter.value.deadline, first, first)
  {
  }

  lemma LeftoverInto(a: Account, from: int, start: int, deadline: int, xs: seq<Attempt>)
    requires xs != [] && Within(a, from, start, deadline + 1, xs) && a.Counting(start)
    requires a.counter.value.deadline == deadline
    requires a.counter.value.value >= 1 && deadline <= start + DEFAULT_POLICY.WindowMs()
    ensures |xs| <= 14
    ensures Into(DEFAULT_POLICY, After(DEFAULT_POLICY, a, xs), |xs| + 1, deadline, xs[0].failedAt,
            LastFailure(from, xs))
  {
    hide RecordFailure, Delay, TotalWait;
    var p, first := DEFAULT_POLICY, xs[0].failedAt;
    LeftoverFirst(a, first);
    assert xs == [xs[0]] + xs[1..] && xs[|xs| - 1] in xs;
    IntoLifetime(p, Fail(p, a, first), 2, deadline, first, first, xs[1..]);
    DefaultDelays();
    if |xs| > 14 {
      TotalWaitMonotone(p, 10, |xs| - 5);
    }
  }

  /** The last lock of the leftover lifetime lets nobody in before its own wait is over. */
  lemma LeftoverWait(a: Account, k: nat, deadline: int, first: int, last: int, t: int)
    requires k > 4 && Into(DEFAULT_POLICY, a, k + 1, deadline, first, last) && !a.Blocked(t)
    ensures first + TotalWait(DEFAULT_POLICY, k - 4) <= t
  {
    var p := DEFAULT_POLICY;
    DelayMonotone(p, k - 4, a.counter.value.value - p.freeAttempts);
  }

  /** The attempts that still fall into a lifetime already under way, and what is left of the run. */
  lemma Leftover(a: Account, from: int, start: int, end: int, attempts: seq<Attempt>)
    returns (xs: seq<Attempt>, from': int, later: int, ys: seq<Attempt>)
    requires Within(a, from, start, end, attempts) && a.Counting(start)
    requires a.counter.value.value >= 1 && a.counter.value.deadline <= start + DEFAULT_POLICY.WindowMs()
    ensures attempts == xs + ys && |xs| <= 14 && start + TotalWait(DEFAULT_POLICY, |xs| - 4) <= later
    ensures Within(After(DEFAULT_POLICY, a, xs), from', later, end, ys) && !After(DEFAULT_POLICY, a, xs).Counting(later)
  {
    hide RecordFailure, Delay, TotalWait;
    var p, deadline := DEFAULT_POLICY, a.counter.value.deadline;
    var k := Before(attempts, deadline + 1);
    xs, ys := attempts[..k], attempts[k..];
    assert attempts == xs + ys;
    SequentialJoined(p, a, from, xs, ys);
    from', later := LastFailure(from, xs), deadline + 1;
    if xs != [] {
      LeftoverInto(a, from, start, deadline, xs);
    }
    if k <= 4 {
      NoWait(p, |xs| - 4);
    } else {
      var free: int := start + TotalWait(p, |xs| - 4);
      if ys != [] {
        LeftoverWait(After(p, a, xs), k, deadline, xs[0].failedAt, from', ys[0].checkedAt);
      }
      later := if later < free then free else later;
    }
  }

  /** What the leftover lifetime costs the run that follows, in overruns. */
  function Paid(k: nat): nat {
    if k <= 10 then 0 else if k <= 13 then k - 10 else 8
  }

  /** Whatever has happened to the account before, a client can fail at most 14 n + 15 times in `n` windows. */
  lemma AfterAnyHistory(log: seq<Event>, from: int, start: int, n: nat, attempts: seq<Attempt>)
    requires n >= 1 && EndsBy(log, start)
    requires Within(Replay(DEFAULT_POLICY, log), from, start, start + n * PERIOD_MS, attempts)
    ensures |attempts| <= 14 * n + 15
  {
    hide Replay, Sequential, TotalWait, Delay;
    var p, a := DEFAULT_POLICY, Replay(DEFAULT_POLICY, log);
    LockFollowsCount(p, log, start);
    if a.Counting(start) {
      var xs, from', later, ys := Leftover(a, from, start, start + n * PERIOD_MS, attempts);
      DefaultDelays();
      if |xs| <= 10 {
        TotalWaitMonotone(p, |xs| - 4, |xs| - 4);
      }
      LongRun(After(p, a, xs), from', later, n, Paid(|xs|), ys);
    } else {
      LongRun(a, from, start, n, 0, attempts);
    }
  }

  lemma OneFailure(t: int)
    ensures EndsBy([Failed(t)], t)
    ensures Waiting(DEFAULT_POLICY, Replay(DEFAULT_POLICY, [Failed(t)]), 1, t + 900000, t + 700000)
    ensures WaitedUntil(DEFAULT_POLICY, t + 700000, 0) == t + 700000
  {
    assert [Failed(t)][..0] == [];
  }

  /** One failure 700 s ago: twelve more fit into what is left of its lifetime. */
  lemma TwelveMore(start: int) returns (log: seq<Event>, xs: seq<Attempt>)
    ensures var p, later := DEFAULT_POLICY, start + 251008; var a := Replay(p, log);
            && EndsBy(log, start) && |xs| == 12 && Sequential(p, a, start, xs)
            && (forall t <- xs :: start <= t.failedAt < later)
            && !After(p, a, xs).Counting(later) && !After(p, a, xs).Blocked(later)
  {
    var p := DEFAULT_POLICY;
    log, xs := [Failed(start - 700000)], Greedy(p, start, 1, 13);
    OneFailure(start - 700000);
    hide Replay, RecordFailure, Delay, TotalWait, Greedy, Sequential, After, Waiting;
    DefaultDelays();
    GreedyFits(p, Replay(p, log), 1, start + 200000, start, 13);
    GreedyTimes(p, 1, start, 13);
    WaitingEnds(p, After(p, Replay(p, log), xs), 13, start + 200000, start, start + 251008);
  }

  /** The best a client can do: those twelve, then three lifetimes of 15, then lifetimes of 14. */
  lemma BusySchedule(start: int, n: nat) returns (log: seq<Event>, attempts: seq<Attempt>)
    requires n >= 4
    ensures EndsBy(log, start) && |attempts| == 14 * n + 15
    ensures Within(Replay(DEFAULT_POLICY, log), start, start, start + n * PERIOD_MS - 43000, attempts)
  {
    hide Replay, Sequential, After, EndsBy;
    var p, xs := DEFAULT_POLICY, [];
    log, xs := TwelveMore(start);
    var a, later := Replay(p, log), start + 251008;
    var ys := CleanSchedule(After(p, a, xs), later, 3, n - 3);
    assert xs[0] in xs && xs[|xs| - 1] in xs;
    LaterStart(p, After(p, a, xs), LastFailure(start, xs), later, ys);
    SequentialJoined(p, a, start, xs, ys);
    attempts := xs + ys;
  }

  /** Attempts between `start` and `end` on an account with this log. */
  ghost predicate Follows(log: seq<Event>, start: int, end: int, attempts: seq<Attempt>) {
    EndsBy(log, start) && Within(Replay(DEFAULT_POLICY, log), start, start, end, attempts)
  }

  /** Over all histories of the account, a client can fail exactly up to 14 n + 15 times in `n` windows, for
      every `n` of at least four. */
  lemma GuessesInWindows(start: int, end: int, n: nat, c: nat)
    requires n >= 4 && Windows(start, end, n)
    ensures (exists log, attempts :: |attempts| == c && Follows(log, start, end, attempts)) <==> c <= 14 * n + 15
  {
    if c <= 14 * n + 15 {
      var log, best := BusySchedule(start, n);
      Shorter(Replay(DEFAULT_POLICY, log), start, end, best, c);
      assert Follows(log, start, end, best[..c]);
    }
    if log, attempts :| |attempts| == c && Follows(log, start, end, attempts) {
      AfterAnyHistory(log, start, start, n, attempts);
    }
  }

  /** So the worst day has 1359 guesses, and a day that starts idle up to 1349; docs/security.md speaks
      of a few hundred. */
  lemma GuessesInADay(start: int, c: nat)
    ensures var end := start + 24 * 60 * 60 * 1000;
            && ((exists log, attempts :: |attempts| == c && Follows(log, start, end, attempts)) <==> c <= 1359)
            && (forall a: Account | !a.Counting(start) && !a.Blocked(start) ::
                  (exists attempts :: |attempts| == c && Within(a, start, start, end, attempts)) <==> c <= 1349)
  {
    var end := start + 24 * 60 * 60 * 1000;
    GuessesInWindows(start, end, 96, c);
    forall a: Account | !a.Counting(start) && !a.Blocked(start)
      ensures (exists attempts :: |attempts| == c && Within(a, start, start, end, attempts)) <==> c <= 1349
    {
      GuessesWhenIdle(a, start, end, 96, c);
    }
  }
}
