/** The users table, the profile cache, and the read-through profile lookup over both. */
module UserServices {
  import opened Domain
  import opened Keyspace
  import opened RedisServer
  import opened LoginThrottles
  import opened ProfileCache

  /** PostgreSQL's users table, keyed by id. */
  class UserTable {
    var rows: map<string, UserRow>

    constructor ()
      ensures rows == map[]
    {
      rows := map[];
    }

    method FindById(id: string) returns (r: Option<UserRow>)
      ensures r == if id in rows then Some(rows[id]) else None
    {
      r := if id in rows then Some(rows[id]) else None;
    }

    /** Usernames match case-insensitively. */
    method FindByUsername(username: string) returns (id: string, r: Option<UserRow>)
      ensures r.Some? ==> id in rows && rows[id] == r.value && Lowercase(r.value.username) == Lowercase(username)
      ensures r.None? ==> forall k | k in rows :: Lowercase(rows[k].username) != Lowercase(username)
    {
      id, r := "", None;
      var left := rows.Keys;
      while left != {}
        invariant left <= rows.Keys
        invariant r.None? && forall k | k in rows.Keys - left :: Lowercase(rows[k].username) != Lowercase(username)
      {
        var k :| k in left;
        if Lowercase(rows[k].username) == Lowercase(username) {
          return k, Some(rows[k]);
        }
        left := left - {k};
      }
    }
  }

  class CacheRepository {
    const redisClient: Redis

    constructor (redisClient: Redis)
      ensures this.redisClient == redisClient
    {
      this.redisClient := redisClient;
    }

    method GetUserProfile(userId: string) returns (r: Option<UserPublic>)
      requires Typed(redisClient.db)
      ensures var profiles := View(redisClient.db).profiles;
              r == if userId in profiles && redisClient.now <= profiles[userId].deadline
                   then Some(profiles[userId].value) else None
    {
      hide View;
      var redis := redisClient;
      ProfilesAt(redis.db);
      assert userId in View(redis.db).profiles <==> ProfileKey(userId) in redis.db;
      var cached := redis.Get(ProfileKey(userId));
      r := if cached.Some? then Some(cached.value.profile) else None;
    }

    method SetUserProfile(userId: string, profile: UserPublic)
      requires Typed(redisClient.db)
      modifies redisClient`db
      ensures Typed(redisClient.db)
      ensures View(redisClient.db)
              == PutView(old(View(redisClient.db)), userId, ProfileValue(profile),
                  redisClient.now + PROFILE_TTL_SECONDS * 1000)
    {
      hide View;
      var redis := redisClient;
      ghost var db0 := redis.db;
      var _ := redis.SetEx(ProfileKey(userId), ProfileValue(profile), PROFILE_TTL_SECONDS);
      PutRefines(db0, redis.db, userId, ProfileValue(profile), redis.now + PROFILE_TTL_SECONDS * 1000);
    }
  }

  /** The cache machine's state and the real one agree: same clock, same rows, same cached profiles. */
  ghost predicate Mirrors(w: CacheWorld, now: int, profiles: map<string, Slot<UserPublic>>,
                          rows: map<string, UserRow>)
  {
    && w.now == now && w.table != [] && Rows(w) == rows
    && w.cache.Keys == profiles.Keys
    && forall u | u in profiles ::
        w.cache[u].value.profile == profiles[u].value && w.cache[u].deadline == profiles[u].deadline
  }

  /** The last profile served is this one, served now. */
  predicate JustServed(w: CacheWorld, user: string, profile: UserPublic) {
    && w.served != []
    && var e := w.served[|w.served| - 1]; e.user == user && e.sighting.profile == profile && e.at == w.now
  }

  /** What is served now was the user's row at a read no older than an hour plus the gap before its write. */
  ghost predicate Recent(w: CacheWorld, user: string, profile: UserPublic) {
    && JustServed(w, user, profile)
    && var s := w.served[|w.served| - 1].sighting;
       && WasRow(w.table, user, profile, s.readAt)
       && s.readAt <= s.writtenAt <= w.now && w.now - s.readAt <= 3600000 + (s.writtenAt - s.readAt)
  }

  lemma ServedIsRecent(w: CacheWorld, user: string, profile: UserPublic)
    requires Reachable(w) && JustServed(w, user, profile)
    ensures Recent(w, user, profile)
  {
    ServedAgeBounded(w);
    var e := w.served[|w.served| - 1];
    assert e in w.served;
  }

  /** Writing a reader's profile, or failing to, is the machine's fill. */
  lemma FillMirrors(w: CacheWorld, now: int, v: Spaces, rows: map<string, UserRow>, reader: nat, written: bool,
                    answers: bool)
    requires Mirrors(w, now, v.profiles, rows) && reader in w.readers && w.readers[reader].HasRow?
    ensures var w', r := Next(w, Fill(reader, written, answers)), w.readers[reader];
            var v' := if written
                      then PutView(v, r.user, ProfileValue(r.profile), now + PROFILE_TTL_SECONDS * 1000) else v;
            && Mirrors(w', now, v'.profiles, rows) && v' == v.(profiles := v'.profiles)
            && (answers ==> JustServed(w', r.user, r.profile))
  {
  }

  /** Only the profile namespace may differ. */
  ghost predicate OnlyProfiles(before: Db, after: Db) {
    View(after) == View(before).(profiles := View(after).profiles)
  }

  class UserService {
    const users: UserTable
    const cacheRepository: CacheRepository

    /** The cache machine's view of everything that has happened, readers in flight included. */
    var ledger: CacheWorld

    ghost predicate Valid()
      reads this, users, cacheRepository.redisClient
    {
      var redis := cacheRepository.redisClient;
      Typed(redis.db) && Reachable(ledger) && Mirrors(ledger, redis.now, View(redis.db).profiles, users.rows)
    }

    constructor (users: UserTable, cacheRepository: CacheRepository)
      requires cacheRepository.redisClient.db == map[] && users.rows == map[]
      ensures Valid() && ledger == Init(cacheRepository.redisClient.now)
      ensures this.users == users && this.cacheRepository == cacheRepository
    {
      this.users := users;
      this.cacheRepository := cacheRepository;
      ledger := Init(cacheRepository.redisClient.now);
      assert Run(Init(cacheRepository.redisClient.now), []) == Init(cacheRepository.redisClient.now);
    }

    method ReadCachedProfile(userId: string, readable: bool) returns (cached: Option<UserPublic>)
      requires Typed(cacheRepository.redisClient.db)
      ensures var redis := cacheRepository.redisClient; var profiles := View(redis.db).profiles;
              cached == if readable && userId in profiles && redis.now <= profiles[userId].deadline
                        then Some(profiles[userId].value) else None
    {
      hide View;
      cached := None;
      if readable {
        cached := cacheRepository.GetUserProfile(userId);
      }
    }

    /** The best-effort cache read: the profile it finds answers the request. */
    method ReadCache(reader: nat, userId: string, readable: bool) returns (cached: Option<UserPublic>)
      requires Valid() && reader !in ledger.readers
      modifies this`ledger
      ensures Valid() && ledger == Next(old(ledger), Look(reader, userId, readable))
      ensures cached == if readable && Cached(old(ledger), userId)
                        then Some(old(ledger).cache[userId].value.profile) else None
      ensures cached.Some? ==> JustServed(ledger, userId, cached.value)
      ensures cached.None? ==> reader in ledger.readers && ledger.readers[reader] == NeedsRow(userId)
    {
      hide View;
      cached := ReadCachedProfile(userId, readable);
      ReachableNext(ledger, Look(reader, userId, readable));
      ledger := Next(ledger, Look(reader, userId, readable));
    }

    /** The read of the user's row. */
    method ReadRow(reader: nat, userId: string) returns (user: Option<UserRow>)
      requires Valid() && reader in ledger.readers && ledger.readers[reader] == NeedsRow(userId)
      modifies this`ledger
      ensures Valid() && ledger == Next(old(ledger), CacheStep.ReadRow(reader)) && old(ledger).table != []
      ensures user == if userId in Rows(old(ledger)) then Some(Rows(old(ledger))[userId]) else None
      ensures user.Some? ==> reader in ledger.readers && ledger.readers[reader].HasRow?
                             && ledger.readers[reader].user == userId
                             && ledger.readers[reader].profile == ToPublicUser(userId, user.value)
    {
      hide View;
      user := users.FindById(userId);
      ReachableNext(ledger, CacheStep.ReadRow(reader));
      ledger := Next(ledger, CacheStep.ReadRow(reader));
    }

    /** The best-effort cache write of the row read before. */
    method WriteCache(reader: nat, userId: string, profile: UserPublic, writable: bool, answers: bool)
      requires Valid() && reader in ledger.readers && ledger.readers[reader].HasRow?
      requires ledger.readers[reader].user == userId && ledger.readers[reader].profile == profile
      modifies this`ledger, cacheRepository.redisClient`db
      ensures Valid() && ledger == Next(old(ledger), Fill(reader, writable, answers))
      ensures OnlyProfiles(old(cacheRepository.redisClient.db), cacheRepository.redisClient.db)
      ensures View(cacheRepository.redisClient.db).profiles ==
              if writable
              then old(View(cacheRepository.redisClient.db)).profiles[
                     userId := Slot(profile, cacheRepository.redisClient.now + 3600000)]
              else old(View(cacheRepository.redisClient.db)).profiles
      ensures answers ==> JustServed(ledger, userId, profile)
    {
      hide View, Mirrors, Next, JustServed;
      FillMirrors(ledger, cacheRepository.redisClient.now, View(cacheRepository.redisClient.db), users.rows, reader,
          writable, answers);
      if writable {
        cacheRepository.SetUserProfile(userId, profile);
      }
      ReachableNext(ledger, Fill(reader, writable, answers));
      ledger := Next(ledger, Fill(reader, writable, answers));
    }

    /** One step of some other reader, or of the world around the service. */
    method Execute(s: CacheStep)
      requires Valid()
      modifies this`ledger, cacheRepository.redisClient, users
      ensures Valid() && ledger == Next(old(ledger), s)
      ensures OnlyProfiles(old(cacheRepository.redisClient.db), cacheRepository.redisClient.db)
    {
      hide View, Reachable;
      if s.Fill? && s.reader in ledger.readers && ledger.readers[s.reader].HasRow? {
        var r := ledger.readers[s.reader];
        WriteCache(s.reader, r.user, r.profile, s.written, s.answers);
      } else {
        if s.Tick? {
          cacheRepository.redisClient.now := cacheRepository.redisClient.now + s.elapsed;
        } else if s.Change? {
          users.rows := s.rows;
        }
        ReachableNext(ledger, s);
        ledger := Next(ledger, s);
      }
    }

    /** Whatever other readers do while this one awaits. */
    method Interfere(steps: seq<CacheStep>, reader: nat)
      requires Valid() && forall s | s in steps :: ReaderOf(s) != Some(reader)
      modifies this`ledger, cacheRepository.redisClient, users
      ensures Valid() && ledger == Run(old(ledger), steps)
      ensures OnlyProfiles(old(cacheRepository.redisClient.db), cacheRepository.redisClient.db)
      ensures reader in ledger.readers <==> reader in old(ledger).readers
      ensures reader in ledger.readers ==> ledger.readers[reader] == old(ledger).readers[reader]
      decreases |steps|
    {
      hide View, Next;
      if steps != [] {
        assert steps[0] in steps;
        ReaderKept(ledger, steps[0], reader);
        Execute(steps[0]);
        Interfere(steps[1..], reader);
      }
    }

    /** The three shapes of a profile read: a hit, a miss for a user that is not there, and a miss that
        answers from the table and fills the cache if it can. */
    ghost predicate ProfileRun(trace: seq<CacheStep>, reader: nat, userId: string, readable: bool, writable: bool,
                               env1: seq<CacheStep>, env2: seq<CacheStep>)
    {
      || trace == [Look(reader, userId, readable)]
      || trace == [Look(reader, userId, readable)] + env1 + [CacheStep.ReadRow(reader)]
      || trace == [Look(reader, userId, readable)] + env1 + [CacheStep.ReadRow(reader)] + env2
          + [Fill(reader, writable, true)]
    }

    /** `readable` and `writable` tell whether each cache command reaches Redis; `env1` and `env2` run during
        the awaits of the table read and of the cache write. */
    method GetUserProfile(reader: nat, userId: string, readable: bool, writable: bool, env1: seq<CacheStep>,
                          env2: seq<CacheStep>)
      returns (profile: Option<UserPublic>, ghost trace: seq<CacheStep>)
      requires Valid() && reader !in ledger.readers
      requires forall s | s in env1 + env2 :: ReaderOf(s) != Some(reader)
      modifies this`ledger, cacheRepository.redisClient, users
      ensures Valid() && OnlyProfiles(old(cacheRepository.redisClient.db), cacheRepository.redisClient.db)
      ensures ProfileRun(trace, reader, userId, readable, writable, env1, env2) && ledger == Run(old(ledger), trace)
      ensures var hit := readable && Cached(old(ledger), userId);
              && (hit <==> trace == [Look(reader, userId, readable)])
              && (hit ==> profile == Some(old(ledger).cache[userId].value.profile))
              && (!hit ==>
                    var w := Run(Next(old(ledger), Look(reader, userId, readable)), env1);
                    && w.table != []
                    && (profile.Some? <==> userId in Rows(w))
                    && (profile.Some? ==>
                          var row := Rows(w)[userId];
                          profile.value == UserPublic(userId, row.name, row.username, row.email, row.role)))
      ensures profile.Some? ==> Recent(ledger, userId, profile.value)
    {
      hide View, Next, Mirrors, Rows, Recent, JustServed, Reachable;
      ghost var w0 := ledger;
      RunThree(w0, Look(reader, userId, readable), env1, CacheStep.ReadRow(reader), env2, Fill(reader, writable, true));
      var cached := ReadCache(reader, userId, readable);
      trace := [Look(reader, userId, readable)];
      if cached.Some? {
        ServedIsRecent(ledger, userId, cached.value);
        return cached, trace;
      }
      Interfere(env1, reader);
      var user := ReadRow(reader, userId);
      trace := trace + env1 + [CacheStep.ReadRow(reader)];
      if user.None? {
        return None, trace;
      }
      Interfere(env2, reader);
      var found := ToPublicUser(userId, user.value);
      WriteCache(reader, userId, found, writable, true);
      trace := trace + env2 + [Fill(reader, writable, true)];
      ServedIsRecent(ledger, userId, found);
      return Some(found), trace;
    }
  }
}
