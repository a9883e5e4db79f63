/** The login throttle as the source runs it: commands on the shared keyspace, proved to act on
    one account of the throttle model and on nothing else. */
module LoginThrottles {
  import opened Domain
  import opened Keyspace
  import opened RedisServer
  import opened ThrottleModel

  predicate IsSpace(c: char) {
    c == ' ' || c == '\t' || c == '\n' || c == '\r' || c == '\U{0B}' || c == '\U{0C}'
  }

  function TrimStart(s: string): string {
    if s != [] && IsSpace(s[0]) then TrimStart(s[1..]) else s
  }

  function TrimEnd(s: string): string {
    if s != [] && IsSpace(s[|s| - 1]) then TrimEnd(s[..|s| - 1]) else s
  }

  function ToLower(c: char): char {
    if 'A' <= c <= 'Z' then c - 'A' + 'a' else c
  }

  function Lowercase(s: string): (r: string)
    ensures |r| == |s| && forall i | 0 <= i < |s| :: r[i] == ToLower(s[i])
  {
    if s == [] then [] else [ToLower(s[0])] + Lowercase(s[1..])
  }

  function Normalize(username: string): string {
    Lowercase(TrimEnd(TrimStart(username)))
  }

  lemma {:induction false} LowercasePart(s: string, i: nat, j: nat)
    requires i <= j <= |s|
    ensures Lowercase(s[i..j]) == Lowercase(s)[i..j]
  {
    assert forall k | 0 <= k < j - i :: Lowercase(s[i..j])[k] == ToLower(s[i..j][k]) == Lowercase(s)[i..j][k];
  }

  lemma CaseKeepsSpace(c: char)
    ensures IsSpace(ToLower(c)) <==> IsSpace(c)
  {
  }

  lemma SameSpaces(a: string, b: string, i: nat)
    requires Lowercase(a) == Lowercase(b) && i < |a|
    ensures |a| == |b| && (IsSpace(a[i]) <==> IsSpace(b[i]))
  {
    hide IsSpace, ToLower;
    assert ToLower(a[i]) == Lowercase(a)[i] == Lowercase(b)[i] == ToLower(b[i]);
    CaseKeepsSpace(a[i]);
    CaseKeepsSpace(b[i]);
  }

  lemma {:induction false} EndSpacesKept(a: string, b: string)
    requires Lowercase(a) == Lowercase(b)
    ensures Lowercase(TrimEnd(a)) == Lowercase(TrimEnd(b))
    decreases |a|
  {
    assert |a| == |Lowercase(a)| == |b|;
    if a == [] {
    } else {
      var n := |a| - 1;
      SameSpaces(a, b, n);
      LowercasePart(a, 0, n);
      LowercasePart(b, 0, n);
      EndSpacesKept(a[..n], b[..n]);
    }
  }

  /** Spellings of one name that differ in case share one counter and one lock. */
  lemma {:induction false} CaseVariantsShareKeys(a: string, b: string)
    requires Lowercase(a) == Lowercase(b)
    ensures Normalize(a) == Normalize(b)
    decreases |a|
  {
    assert |a| == |Lowercase(a)| == |b|;
    if a != [] && IsSpace(a[0]) {
      SameSpaces(a, b, 0);
      LowercasePart(a, 1, |a|);
      LowercasePart(b, 1, |b|);
      CaseVariantsShareKeys(a[1..], b[1..]);
    } else {
      if a != [] {
        SameSpaces(a, b, 0);
      }
      EndSpacesKept(a, b);
    }
  }

  /** The same letter, upper or lower case, or the same character. */
  predicate SameLetter(c: char, d: char) {
    || c == d
    || ('A' <= c <= 'Z' && d as int == c as int + 32)
    || ('A' <= d <= 'Z' && c as int == d as int + 32)
  }

  lemma LettersFold(c: char, d: char)
    ensures ToLower(c) == ToLower(d) <==> SameLetter(c, d)
    ensures !('A' <= ToLower(c) <= 'Z')
  {
  }

  lemma LetterAt(s: string, i: nat)
    requires i < |s|
    ensures |Lowercase(s)| == |s| && Lowercase(s)[i] == ToLower(s[i])
  {
  }

  predicate AgreeUpToCase(a: string, b: string) {
    |a| == |b| && forall i | 0 <= i < |a| :: SameLetter(a[i], b[i])
  }

  lemma FoldedAgree(a: string, b: string)
    requires Lowercase(a) == Lowercase(b)
    ensures AgreeUpToCase(a, b)
  {
    hide ToLower, SameLetter;
    assert |Lowercase(a)| == |a| && |Lowercase(b)| == |b|;
    forall i | 0 <= i < |a| ensures SameLetter(a[i], b[i]) {
      LetterAt(a, i);
      LetterAt(b, i);
      LettersFold(a[i], b[i]);
    }
  }

  lemma {:induction false} AgreeingFold(a: string, b: string)
    requires AgreeUpToCase(a, b)
    ensures Lowercase(a) == Lowercase(b)
    decreases |a|
  {
    hide ToLower, SameLetter;
    if a == [] {
    } else {
      LettersFold(a[0], b[0]);
      assert forall i | 0 <= i < |a| - 1 :: a[1..][i] == a[i + 1] && b[1..][i] == b[i + 1];
      AgreeingFold(a[1..], b[1..]);
    }
  }

  /** Lowercasing identifies names exactly when they agree letter by letter up to case. */
  lemma CaseFolds(a: string, b: string)
    ensures Lowercase(a) == Lowercase(b) <==> AgreeUpToCase(a, b)
  {
    hide Lowercase, AgreeUpToCase;
    if Lowercase(a) == Lowercase(b) {
      FoldedAgree(a, b);
    }
    if AgreeUpToCase(a, b) {
      AgreeingFold(a, b);
    }
  }

  predicate Blank(s: string) {
    forall c | c in s :: IsSpace(c)
  }

  predicate Bare(s: string) {
    s != [] ==> !IsSpace(s[0]) && !IsSpace(s[|s| - 1])
  }

  lemma {:induction false} BlankTrimmed(s: string)
    requires Blank(s)
    ensures TrimStart(s) == []
    decreases |s|
  {
    if s == [] {
    } else {
      assert s[0] in s;
      BlankTrimmed(s[1..]);
    }
  }

  lemma {:induction false} EndTrimmed(s: string, after: string)
    requires Blank(after) && Bare(s)
    ensures TrimEnd(s + after) == s
    decreases |after|
  {
    if after == [] {
      assert s + after == s;
    } else {
      var n := |after| - 1;
      assert after[n] in after && (s + after)[..|s| + n] == s + after[..n];
      EndTrimmed(s, after[..n]);
    }
  }

  lemma {:induction false} StartReached(before: string, s: string)
    requires Blank(before) && s != [] && !IsSpace(s[0])
    ensures TrimStart(before + s) == s
    decreases |before|
  {
    if before == [] {
      assert before + s == s;
    } else {
      assert before[0] in before && (before + s)[1..] == before[1..] + s;
      StartReached(before[1..], s);
    }
  }

  lemma Trimmed(a: string, a0: string, a1: string)
    requires Bare(a) && Blank(a0) && Blank(a1)
    ensures TrimEnd(TrimStart(a0 + a + a1)) == a
  {
    if a == [] {
      assert a0 + a + a1 == a0 + a1;
      BlankTrimmed(a0 + a1);
    } else {
      StartReached(a0, a + a1);
      assert a0 + a + a1 == a0 + (a + a1);
      EndTrimmed(a, a1);
    }
  }

  /** Two names, with any blanks around them, share one counter and one lock exactly when they agree letter
      by letter up to case. */
  lemma NamesShareKeys(a: string, b: string, a0: string, a1: string, b0: string, b1: string)
    requires Bare(a) && Bare(b) && Blank(a0) && Blank(a1) && Blank(b0) && Blank(b1)
    ensures Normalize(a0 + a + a1) == Normalize(b0 + b + b1)
            <==> |a| == |b| && forall i | 0 <= i < |a| :: SameLetter(a[i], b[i])
  {
    hide Lowercase, SameLetter, TrimStart, TrimEnd, Blank, Bare;
    Trimmed(a, a0, a1);
    Trimmed(b, b0, b1);
    CaseFolds(a, b);
  }

  function AccountIn(failures: map<string, Slot<int>>, locks: map<string, int>, name: string): Account {
    Account(if name in failures then Some(failures[name]) else None, if name in locks then Some(locks[name]) else None)
  }

  /** The account behind a normalized name. */
  function AccountOf(v: Spaces, name: string): Account {
    AccountIn(v.failures, v.locks, name)
  }

  ghost predicate OtherAccountsKept(before: Spaces, after: Spaces, name: string) {
    forall m | m != name :: AccountOf(after, m) == AccountOf(before, m)
  }

  /** One account may have changed; every other account and every other namespace is as it was. */
  ghost predicate OnlyAccount(before: Spaces, after: Spaces, name: string) {
    && after.sessions == before.sessions && after.indexes == before.indexes && after.profiles == before.profiles
    && OtherAccountsKept(before, after, name)
  }

  /** The counter key of the keyspace is the account's counter. */
  lemma CounterAt(db: Db, now: int, name: string)
    requires Typed(db)
    ensures Visible(db, now, FailuresKey(name)) <==> AccountOf(View(db), name).Counting(now)
    ensures Visible(db, now, FailuresKey(name)) ==>
              && name in View(db).failures
              && db[FailuresKey(name)]
                  == Entry(CounterValue(View(db).failures[name].value), Some(View(db).failures[name].deadline))
  {
    hide View;
    FailuresAt(db);
    assert name in View(db).failures <==> FailuresKey(name) in db;
  }

  class LoginThrottle {
    const redisClient: Redis
    const policy: Policy

    constructor (redisClient: Redis, policy: Policy)
      ensures this.redisClient == redisClient && this.policy == policy
    {
      this.redisClient := redisClient;
      this.policy := policy;
    }

    /** The seconds left on the lock, if it blocks a login now; a reply of zero seconds lets the login through. */
    method AssertNotThrottled(username: string) returns (retryAfter: Option<int>)
      requires Typed(redisClient.db)
      ensures var account := AccountOf(View(redisClient.db), Normalize(username));
              && (retryAfter.Some? <==> account.Blocked(redisClient.now))
              && (retryAfter.Some? <==> account.lock.Some? && account.lock.value - redisClient.now >= 500)
      ensures retryAfter.Some? ==>
                var left := AccountOf(View(redisClient.db), Normalize(username)).lock.value - redisClient.now;
                retryAfter.value > 0 && left - 500 < retryAfter.value * 1000 <= left + 500
    {
      hide View;
      var redis := redisClient;
      var name := Normalize(username);
      LocksAt(redis.db);
      assert name in View(redis.db).locks <==> LockKey(name) in redis.db;
      var ttl := redis.Ttl(LockKey(name));
      retryAfter := if ttl > 0 then Some(ttl) else None;
    }

    /** INCR, and EXPIRE for the first failure. */
    method CountFailure(name: string) returns (failures: int)
      requires Typed(redisClient.db)
      modifies redisClient`db
      ensures Typed(redisClient.db)
      ensures failures == CountAt(AccountOf(old(View(redisClient.db)), name), redisClient.now)
      ensures View(redisClient.db) ==
              var v := old(View(redisClient.db));
              if failures != 1 then PutView(v, name, CounterValue(failures), v.failures[name].deadline)
              else if policy.failureWindowSeconds > 0
              then PutView(v, name, CounterValue(1), redisClient.now + policy.WindowMs())
              else DelView(v, FAILURES_PREFIX, name)
    {
      hide View, Typed, Suits, PutView, DelView;
      var redis := redisClient;
      var key := FailuresKey(name);
      ghost var db0 := redis.db;
      CounterAt(db0, redis.now, name);
      failures := redis.Incr(key);
      if failures == 1 {
        redis.Expire(key, policy.failureWindowSeconds);
        if policy.failureWindowSeconds > 0 {
          assert redis.db == db0[key := Entry(CounterValue(1), Some(redis.now + policy.WindowMs()))];
          PutRefines(db0, redis.db, name, CounterValue(1), redis.now + policy.WindowMs());
        } else {
          assert redis.db == db0 - {key};
          DelRefines(db0, redis.db, FAILURES_PREFIX, name);
        }
      } else {
        PutRefines(db0, redis.db, name, CounterValue(failures), View(db0).failures[name].deadline);
      }
    }

    method Lock(name: string, delay: int) returns (ok: bool)
      requires Typed(redisClient.db)
      modifies redisClient`db
      ensures Typed(redisClient.db) && ok == (delay > 0)
      ensures View(redisClient.db) ==
              if ok then PutView(old(View(redisClient.db)), name, LockValue, redisClient.now + delay * 1000)
                                      else old(View(redisClient.db))
    {
      hide View;
      var redis := redisClient;
      ghost var db0 := redis.db;
      ok := redis.SetEx(LockKey(name), LockValue, delay);
      if ok {
        PutRefines(db0, redis.db, name, LockValue, redis.now + delay * 1000);
      }
    }

    method RecordFailure(username: string) returns (ok: bool)
      requires Typed(redisClient.db)
      modifies redisClient`db
      ensures Typed(redisClient.db)
      ensures OnlyAccount(old(View(redisClient.db)), View(redisClient.db), Normalize(username))
      ensures (AccountOf(View(redisClient.db), Normalize(username)), ok)
              == ThrottleModel.RecordFailure(
                   policy, AccountOf(old(View(redisClient.db)), Normalize(username)), redisClient.now)
    {
      hide View;
      var name := Normalize(username);
      var failures := CountFailure(name);
      var excess := failures - policy.freeAttempts;
      ok := true;
      if excess > 0 {
        ok := Lock(name, Delay(policy, excess));
      }
    }

    method Reset(username: string)
      requires Typed(redisClient.db)
      modifies redisClient`db
      ensures Typed(redisClient.db)
      ensures OnlyAccount(old(View(redisClient.db)), View(redisClient.db), Normalize(username))
      ensures AccountOf(View(redisClient.db), Normalize(username)) == Account(None, None)
    {
      hide View;
      var redis := redisClient;
      var name := Normalize(username);
      ghost var db0 := redis.db;
      redis.Del(FailuresKey(name));
      ghost var db1 := redis.db;
      DelRefines(db0, db1, FAILURES_PREFIX, name);
      redis.Del(LockKey(name));
      DelRefines(db1, redis.db, LOCK_PREFIX, name);
    }
  }
}
