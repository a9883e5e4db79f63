/** The session repository as the source runs it: commands and scripts on the flat keyspace,
    each proved to be its operation on the typed store. */
module SessionRepositories {
  import opened Domain
  import opened Keyspace
  import opened RedisServer
  import Spec = SessionStore
  import opened SessionStore

  /** Only the session and index namespaces may differ. */
  ghost predicate OtherSpacesKept(before: Db, after: Db) {
    && View(after).failures == View(before).failures
    && View(after).locks == View(before).locks
    && View(after).profiles == View(before).profiles
  }

  lemma DeleteRefines(db: Db, db1: Db, db': Db, now: int, sessionId: string, userId: string)
    requires Typed(db) && db1 == db - {SessionKey(sessionId)}
    requires Visible(db1, now, UserSessionsKey(userId)) ==> db1[UserSessionsKey(userId)].value.MembersValue?
    requires db' == WithoutMember(db1, now, UserSessionsKey(userId), sessionId)
    ensures Typed(db') && OtherSpacesKept(db, db')
    ensures StoreOf(now, db') == Spec.Delete(StoreOf(now, db), sessionId, userId)
  {
    DelRefines(db, db1, SESSION_PREFIX, sessionId);
    IndexesAt(db1);
    var st := StoreOf(now, db);
    if sessionId in st.Members(userId) {
      var rest := st.indexes[userId].value - {sessionId};
      if rest == {} {
        DelRefines(db1, db', INDEX_PREFIX, userId);
      } else {
        PutRefines(db1, db', userId, MembersValue(rest), st.indexes[userId].deadline);
      }
    }
  }

  class SessionRepository {
    const redisClient: Redis

    constructor (redisClient: Redis)
      ensures this.redisClient == redisClient
    {
      this.redisClient := redisClient;
    }

    method Get(sessionId: string) returns (r: Option<SessionRecord>)
      requires Typed(redisClient.db)
      ensures r == StoreOf(redisClient.now, redisClient.db).Get(sessionId)
    {
      hide View;
      var redis := redisClient;
      SessionsAt(redis.db);
      var stored := redis.Get(SessionKey(sessionId));
      r := if stored.Some? then Some(stored.value.record) else None;
    }

    /** SET of the session key: one entry of the typed map, or nothing if the TTL is refused. */
    method StoreSession(sessionId: string, record: SessionRecord, ttl: int) returns (ok: bool)
      requires Typed(redisClient.db)
      modifies redisClient`db
      ensures Typed(redisClient.db) && ok == (ttl > 0)
      ensures View(redisClient.db) ==
              if ok
              then PutView(old(View(redisClient.db)), sessionId, SessionValue(record), redisClient.now + ttl * 1000)
              else old(View(redisClient.db))
    {
      hide View;
      var redis := redisClient;
      ghost var db0 := redis.db;
      ok := redis.SetEx(SessionKey(sessionId), SessionValue(record), ttl);
      if ok {
        PutRefines(db0, redis.db, sessionId, SessionValue(record), redis.now + ttl * 1000);
      }
    }

    /** SADD and EXPIRE of the user's index: the id joins, and the whole index lasts 30 days from now. */
    method IndexSession(sessionId: string, userId: string)
      requires Typed(redisClient.db)
      modifies redisClient`db
      ensures Typed(redisClient.db)
      ensures var members := old(StoreOf(redisClient.now, redisClient.db)).Members(userId) + {sessionId};
              View(redisClient.db) == PutView(old(View(redisClient.db)), userId, MembersValue(members),
                                              redisClient.now + SESSION_ABSOLUTE_TTL_SECONDS * 1000)
    {
      hide View, Typed, Suits;
      var redis := redisClient;
      IndexesAt(redis.db);
      ghost var db0 := redis.db;
      ghost var members := StoreOf(redis.now, db0).Members(userId) + {sessionId};
      assert userId in View(db0).indexes <==> UserSessionsKey(userId) in db0;
      redis.SAdd(UserSessionsKey(userId), sessionId);
      assert redis.db[UserSessionsKey(userId)].value == MembersValue(members);
      redis.Expire(UserSessionsKey(userId), SESSION_ABSOLUTE_TTL_SECONDS);
      PutRefines(db0, redis.db, userId, MembersValue(members), redis.now + SESSION_ABSOLUTE_TTL_SECONDS * 1000);
    }

    /** `dateNow` is the repository's own clock sample. */
    method Create(sessionId: string, record: SessionRecord, dateNow: int) returns (ok: bool)
      requires Typed(redisClient.db)
      modifies redisClient`db
      ensures Typed(redisClient.db) && OtherSpacesKept(old(redisClient.db), redisClient.db)
      ensures (StoreOf(redisClient.now, redisClient.db), ok)
              == Spec.Create(old(StoreOf(redisClient.now, redisClient.db)), sessionId, record, dateNow)
      ensures var st, st' := old(StoreOf(redisClient.now, redisClient.db)), StoreOf(redisClient.now, redisClient.db);
              && (forall k | k != sessionId :: st'.Get(k) == st.Get(k))
              && (forall u, k :: k in st'.Members(u) <==> k in st.Members(u) || (u == record.userId && k == sessionId))
              && (ok ==> st'.Get(sessionId) == Some(record))
    {
      hide View;
      CreateEffects(StoreOf(redisClient.now, redisClient.db), sessionId, record, dateNow);
      var ttlSeconds := Min(SESSION_IDLE_TTL_SECONDS, CeilSeconds(record.absoluteExpiresAt - dateNow));
      ok := StoreSession(sessionId, record, ttlSeconds);
      IndexSession(sessionId, record.userId);
    }

    method Delete(sessionId: string, userId: string)
      requires Typed(redisClient.db)
      modifies redisClient`db
      ensures Typed(redisClient.db) && OtherSpacesKept(old(redisClient.db), redisClient.db)
      ensures StoreOf(redisClient.now, redisClient.db)
              == Spec.Delete(old(StoreOf(redisClient.now, redisClient.db)), sessionId, userId)
    {
      hide View;
      var redis := redisClient;
      ghost var db0 := redis.db;
      redis.Del(SessionKey(sessionId));
      ghost var db1 := redis.db;
      DelRefines(db0, db1, SESSION_PREFIX, sessionId);
      IndexesAt(db1);
      redis.SRem(UserSessionsKey(userId), sessionId);
      DeleteRefines(db0, db1, redis.db, redis.now, sessionId, userId);
    }

    method Rotate(sessionId: string, userId: string, p: RotateParams) returns (outcome: RotateOutcome)
      requires Typed(redisClient.db)
      modifies redisClient`db
      ensures Typed(redisClient.db) && OtherSpacesKept(old(redisClient.db), redisClient.db)
      ensures (StoreOf(redisClient.now, redisClient.db), outcome)
              == Spec.Rotate(old(StoreOf(redisClient.now, redisClient.db)), sessionId, userId, p)
    {
      var raw := Get(sessionId);
      if raw.None? {
        return Missing;
      }
      var s := raw.value;
      if s.refreshTokenHash != p.presentedHash {
        if s.previousRefreshTokenHash == Some(p.presentedHash) && s.rotatedAt.Some?
           && p.now - s.rotatedAt.value <= REFRESH_GRACE_PERIOD_MS {
          return Concurrent;
        }
        Delete(sessionId, userId);
        return Reused;
      }
      var remainingMs := s.absoluteExpiresAt - p.now;
      if remainingMs <= 0 {
        Delete(sessionId, userId);
        return Missing;
      }
      var ttl := Min(SESSION_IDLE_TTL_SECONDS, CeilSeconds(remainingMs));
      s := s.(previousRefreshTokenHash := Some(p.presentedHash));
      s := s.(refreshTokenHash := p.newHash);
      s := s.(role := p.role);
      s := s.(rotatedAt := Some(p.now));
      s := s.(expiresAt := p.now + ttl * 1000);
      var _ := StoreSession(sessionId, s, ttl);
      return Rotated;
    }

    /** The script's loop: DEL of each member's session key. */
    method DeleteEach(ids: set<string>)
      requires Typed(redisClient.db)
      modifies redisClient`db
      ensures Typed(redisClient.db)
      ensures View(redisClient.db) == old(View(redisClient.db)).(sessions := old(View(redisClient.db)).sessions - ids)
    {
      hide View;
      var redis := redisClient;
      ghost var v := View(redis.db);
      var left := ids;
      while left != {}
        invariant Typed(redis.db) && left <= ids
        invariant View(redis.db) == v.(sessions := v.sessions - (ids - left))
      {
        var id :| id in left;
        ghost var db0 := redis.db;
        redis.Del(SessionKey(id));
        DelRefines(db0, redis.db, SESSION_PREFIX, id);
        left := left - {id};
      }
    }

    method DeleteAllForUser(userId: string) returns (count: int)
      requires Typed(redisClient.db)
      modifies redisClient`db
      ensures Typed(redisClient.db) && OtherSpacesKept(old(redisClient.db), redisClient.db)
      ensures count == |old(StoreOf(redisClient.now, redisClient.db)).Members(userId)|
      ensures StoreOf(redisClient.now, redisClient.db)
              == Spec.DeleteAll(old(StoreOf(redisClient.now, redisClient.db)), userId)
    {
      hide View;
      var redis := redisClient;
      IndexesAt(redis.db);
      assert userId in View(redis.db).indexes <==> UserSessionsKey(userId) in redis.db;
      var ids := redis.SMembers(UserSessionsKey(userId));
      DeleteEach(ids);
      ghost var db1 := redis.db;
      redis.Del(UserSessionsKey(userId));
      DelRefines(db1, redis.db, INDEX_PREFIX, userId);
      return |ids|;
    }
  }
}
