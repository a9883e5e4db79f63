/** The typed session state, the meaning of each repository operation on it, and the laws of
    one operation. `SessionRepository` implements these operations over a string-keyed Redis. */
module SessionStore {
  import opened Domain

  datatype RotateParams = RotateParams(presentedHash: Digest, newHash: Digest, role: Role, now: int)

  datatype RotateOutcome = Rotated | Concurrent | Reused | Missing

  /** `now` is the server's clock. Expired slots may linger in the maps: a slot counts
      only until the clock is past its deadline. */
  datatype Store = Store(
    now: int,
    sessions: map<string, Slot<SessionRecord>>,
    indexes: map<string, Slot<set<string>>>)
  {
    predicate Live(sessionId: string) {
      sessionId in sessions && now <= sessions[sessionId].deadline
    }

    predicate IndexLive(userId: string) {
      userId in indexes && now <= indexes[userId].deadline
    }

    function Members(userId: string): set<string> {
      if IndexLive(userId) then indexes[userId].value else {}
    }

    function Get(sessionId: string): Option<SessionRecord> {
      if Live(sessionId) then Some(sessions[sessionId].value) else None
    }
  }

  /** SREM: a member leaves an unexpired index, and an index left empty goes with it. */
  function RemoveMember(st: Store, userId: string, sessionId: string): map<string, Slot<set<string>>> {
    if sessionId !in st.Members(userId) then st.indexes
    else
      var rest := st.indexes[userId].value - {sessionId};
      if rest == {} then st.indexes - {userId}
      else st.indexes[userId := Slot(rest, st.indexes[userId].deadline)]
  }

  function Delete(st: Store, sessionId: string, userId: string): Store {
    st.(sessions := st.sessions - {sessionId}, indexes := RemoveMember(st, userId, sessionId))
  }

  function DeleteAll(st: Store, userId: string): Store {
    st.(sessions := st.sessions - st.Members(userId), indexes := st.indexes - {userId})
  }

  function SessionTtl(absoluteExpiresAt: int, sampled: int): int {
    Min(SESSION_IDLE_TTL_SECONDS, CeilSeconds(absoluteExpiresAt - sampled))
  }

  /** A non-positive TTL makes Redis refuse the session's SET while the other queued
      commands still apply; the second component tells whether the record was stored. */
  function Create(st: Store, sessionId: string, record: SessionRecord, sampled: int): (Store, bool) {
    var ttl := SessionTtl(record.absoluteExpiresAt, sampled);
    var index := Slot(st.Members(record.userId) + {sessionId}, st.now + SESSION_ABSOLUTE_TTL_SECONDS * 1000);
    var indexed := st.(indexes := st.indexes[record.userId := index]);
    if ttl > 0 then
      (indexed.(sessions := st.sessions[sessionId := Slot(record, st.now + ttl * 1000)]), true)
    else (indexed, false)
  }

  /** Logging in adds one session and one index entry: every other session of this user and of all
      others stays, and so does every other index entry. The session is stored while its cap is ahead, for a
      week or until the cap rounded up to seconds, and the index lasts 30 days from now. */
  lemma CreateEffects(st: Store, id: string, record: SessionRecord, sampled: int)
    ensures var (st', ok) := Create(st, id, record, sampled);
            && st'.now == st.now && (forall k | k != id :: st'.Get(k) == st.Get(k))
            && (forall u, k :: k in st'.Members(u) <==> k in st.Members(u) || (u == record.userId && k == id))
            && (ok <==> sampled < record.absoluteExpiresAt)
            && st'.Get(id) == (if ok then Some(record) else st.Get(id))
            && st'.indexes[record.userId].deadline == st.now + 2592000000
            && (ok ==>
                  var left, ttl := record.absoluteExpiresAt - sampled, st'.sessions[id].deadline - st.now;
                  if left <= 604800000 then left <= ttl < left + 1000 else ttl == 604800000)
  {
  }

  function RotatedRecord(s: SessionRecord, p: RotateParams): SessionRecord {
    s.(previousRefreshTokenHash := Some(p.presentedHash),
       refreshTokenHash := p.newHash,
       role := p.role,
       rotatedAt := Some(p.now),
       expiresAt := p.now + SessionTtl(s.absoluteExpiresAt, p.now) * 1000)
  }

  predicate WithinGrace(s: SessionRecord, p: RotateParams) {
    && s.previousRefreshTokenHash == Some(p.presentedHash)
    && s.rotatedAt.Some?
    && p.now - s.rotatedAt.value <= REFRESH_GRACE_PERIOD_MS
  }

  function Rotate(st: Store, sessionId: string, userId: string, p: RotateParams): (Store, RotateOutcome) {
    if !st.Live(sessionId) then (st, Missing)
    else
      var s := st.sessions[sessionId].value;
      if s.refreshTokenHash != p.presentedHash then
        if WithinGrace(s, p) then (st, Concurrent)
        else (Delete(st, sessionId, userId), Reused)
      else if s.absoluteExpiresAt - p.now <= 0 then (Delete(st, sessionId, userId), Missing)
      else
        var slot := Slot(RotatedRecord(s, p), st.now + SessionTtl(s.absoluteExpiresAt, p.now) * 1000);
        (st.(sessions := st.sessions[sessionId := slot]), Rotated)
  }

  /** Racing refreshes of one session, in the order Redis runs their scripts. */
  datatype Attempt = Attempt(elapsed: nat, newHash: Digest, role: Role, now: int)

  function Race(st: Store, sessionId: string, userId: string, presented: Digest, attempts: seq<Attempt>)
    : (Store, seq<RotateOutcome>)
    decreases |attempts|
  {
    if attempts == [] then (st, [])
    else
      var a := attempts[0];
      var (st1, outcome) := Rotate(st.(now := st.now + a.elapsed), sessionId, userId,
                                   RotateParams(presented, a.newHash, a.role, a.now));
      var (st2, outcomes) := Race(st1, sessionId, userId, presented, attempts[1..]);
      (st2, [outcome] + outcomes)
  }

  function TotalElapsed(attempts: seq<Attempt>): nat {
    if attempts == [] then 0 else attempts[0].elapsed + TotalElapsed(attempts[1..])
  }

  function AllConcurrent(n: nat): (outcomes: seq<RotateOutcome>)
    ensures |outcomes| == n && forall i | 0 <= i < n :: outcomes[i] == Concurrent
  {
    if n == 0 then [] else [Concurrent] + AllConcurrent(n - 1)
  }

  /** Once somebody else has rotated the presented hash away, and while the session's key lasts,
      every further attempt is `concurrent` exactly when all were sampled within the grace period
      of the winner; none of them then changes anything but the clock. */
  lemma {:induction false} LosersAreConcurrent(st: Store, sessionId: string, userId: string, presented: Digest,
                                               attempts: seq<Attempt>)
    requires st.Live(sessionId)
    requires st.now + TotalElapsed(attempts) <= st.sessions[sessionId].deadline
    requires var s := st.sessions[sessionId].value;
             s.refreshTokenHash != presented && s.previousRefreshTokenHash == Some(presented) && s.rotatedAt.Some?
    ensures var rotatedAt := st.sessions[sessionId].value.rotatedAt.value;
            Race(st, sessionId, userId, presented, attempts).1 == AllConcurrent(|attempts|)
            <==> forall a <- attempts :: a.now - rotatedAt <= REFRESH_GRACE_PERIOD_MS
    ensures Race(st, sessionId, userId, presented, attempts).1 == AllConcurrent(|attempts|) ==>
              Race(st, sessionId, userId, presented, attempts).0 == st.(now := st.now + TotalElapsed(attempts))
    decreases |attempts|
  {
    if attempts == [] {
    } else {
      var a := attempts[0];
      var ticked := st.(now := st.now + a.elapsed);
      assert attempts == [a] + attempts[1..];
      if a.now - st.sessions[sessionId].value.rotatedAt.value <= REFRESH_GRACE_PERIOD_MS {
        LosersAreConcurrent(ticked, sessionId, userId, presented, attempts[1..]);
        var rest := Race(ticked, sessionId, userId, presented, attempts[1..]).1;
        assert ([Concurrent] + rest)[1..] == rest;
        assert ([Concurrent] + AllConcurrent(|attempts| - 1))[1..] == AllConcurrent(|attempts| - 1);
      } else {
        assert Race(st, sessionId, userId, presented, attempts).1[0] == Reused;
      }
    }
  }

  /** N requests race with the current refresh token, in any order: the first script to run wins
      and every other one is told `concurrent`, exactly when each loser's clock sample is at most
      30 s after the winner's; the session then holds the winner's hash. */
  lemma ExactlyOneWins(st: Store, sessionId: string, userId: string, attempts: seq<Attempt>)
    requires st.Live(sessionId) && attempts != []
    requires st.now + attempts[0].elapsed <= st.sessions[sessionId].deadline
    requires var s := st.sessions[sessionId].value;
             attempts[0].now < s.absoluteExpiresAt && attempts[0].newHash != s.refreshTokenHash
    requires var s := st.sessions[sessionId].value;  // the winner's key outlasts the race
             TotalElapsed(attempts[1..]) <= SessionTtl(s.absoluteExpiresAt, attempts[0].now) * 1000
    ensures var s := st.sessions[sessionId].value;
            var (after, outcomes) := Race(st, sessionId, userId, s.refreshTokenHash, attempts);
            && (outcomes == [Rotated] + AllConcurrent(|attempts| - 1)
                <==> forall a <- attempts[1..] :: a.now - attempts[0].now <= REFRESH_GRACE_PERIOD_MS)
            && (outcomes == [Rotated] + AllConcurrent(|attempts| - 1) ==>
                  after.Live(sessionId) && after.sessions[sessionId].value.refreshTokenHash == attempts[0].newHash)
  {
    var presented := st.sessions[sessionId].value.refreshTokenHash;
    var a := attempts[0];
    var (st1, outcome) :=
        Rotate(st.(now := st.now + a.elapsed), sessionId, userId, RotateParams(presented, a.newHash, a.role, a.now));
    LosersAreConcurrent(st1, sessionId, userId, presented, attempts[1..]);
    var outcomes := Race(st, sessionId, userId, presented, attempts).1;
    assert outcomes[1..] == Race(st1, sessionId, userId, presented, attempts[1..]).1;
    assert ([Rotated] + AllConcurrent(|attempts| - 1))[1..] == AllConcurrent(|attempts| - 1);
  }
}
