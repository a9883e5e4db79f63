/** The authentication service as the source runs it. Each await can let other requests in, given as
    a sequence of their steps that are executed on the same stores; every method's effect is proved to
    be a run of the protocol and an extension of the throttle's log, so what holds of all runs and logs
    holds of this code. */
module AuthServices {
  import opened Domain
  import opened Keyspace
  import opened RedisServer
  import opened SessionRepositories
  import opened LoginThrottles
  import opened UserServices
  import opened ThrottleModel
  import opened Tokens
  import opened Protocol
  import opened SessionStore
  import opened Invariants
  import opened Theorems
  import opened Deletion
  import opened Effects
  import opened Environments

  const DUMMY_PASSWORD_HASH := "$2b$12$N8DZ7uzc8TAyWiPvYcdXoOWfKC0ALogP42AwN.hdaE9tXoaZqYWUu"

  lemma BeginSeen(w: World, req: nat, raw: string, digest: Digest)
    requires digest !in w.seen + DigestsOf(RefreshGet(req, raw))
    ensures digest !in Next(w, RefreshGet(req, raw)).seen
  {
  }

  lemma FirstReadKeeps(w: World, req: nat, raw: string)
    ensures Next(w, RefreshGet(req, raw)).store == w.store
  {
  }

  lemma FindUserSeen(w: World, req: nat)
    ensures Next(w, RefreshFindUser(req)).seen == w.seen
  {
  }

  lemma NothingStored(now: int)
    ensures StoreOf(now, map[]) == Store(now, map[], map[])
  {
    var db: Db := map[];
    SessionsAt(db);
    IndexesAt(db);
  }

  lemma ClockIs(now: int, db: Db)
    ensures StoreOf(now, db).now == now
  {
  }

  class AuthService {
    const redisClient: Redis
    const users: UserTable
    const sessions: SessionRepository
    const throttle: LoginThrottle
    const cache: CacheRepository
    const compare: (string, string) -> bool

    /** The protocol's view of everything that has happened, requests in flight included. */
    var ledger: World

    /** Every failure and reset of every account so far. */
    var throttleLog: seq<Logged>

    ghost predicate Valid()
      reads this, redisClient, users
    {
      && sessions.redisClient == redisClient && throttle.redisClient == redisClient && cache.redisClient == redisClient
      && Typed(redisClient.db)
      && Reachable(ledger) && ledger.db != []
      && ledger.store == StoreOf(redisClient.now, redisClient.db)
      && Current(ledger.db) == users.rows
      && Tallies(throttle.policy, View(redisClient.db).failures, View(redisClient.db).locks, throttleLog)
      && LogEndsBy(throttleLog, redisClient.now)
    }

    /** The clock, the throttle's log and the cached profiles. */
    ghost function Shares(): Shared
      reads this, redisClient
    {
      Shared(redisClient.now, throttleLog, View(redisClient.db).profiles)
    }

    constructor (redisClient: Redis, users: UserTable, policy: Policy, compare: (string, string) -> bool)
      requires redisClient.db == map[] && users.rows == map[]
      ensures Valid() && ledger == Init(redisClient.now) && throttleLog == []
      ensures this.redisClient == redisClient && this.users == users && this.compare == compare
    {
      hide View, Typed;
      this.redisClient, this.users, this.compare := redisClient, users, compare;
      sessions := new SessionRepository(redisClient);
      throttle := new LoginThrottle(redisClient, policy);
      cache := new CacheRepository(redisClient);
      ledger, throttleLog := Init(redisClient.now), [];
      assert Run(Init(redisClient.now), []) == Init(redisClient.now);
      NothingStored(redisClient.now);
      TalliesNothing(policy);
    }

    /** So the counter of every account is the number of failures since its window opened. */
    lemma CountersCountWindows(name: string)
      requires Valid()
      ensures var events := EventsFor(throttleLog, name);
              && EndsBy(events, redisClient.now)
              && AccountOf(View(redisClient.db), name) == Replay(throttle.policy, events)
              && Agrees(throttle.policy, AccountOf(View(redisClient.db), name), events, redisClient.now)
    {
      hide View, Agrees, EndsBy, Replay;
      EventsEndBy(throttleLog, name, redisClient.now);
      CounterCountsWindow(throttle.policy, EventsFor(throttleLog, name), redisClient.now);
    }

    /** One step of some other request, or of the world around the service. */
    method Execute(s: Step)
      requires Valid() && Enabled(ledger, s)
      modifies this`ledger, redisClient, users
      ensures Valid() && ledger == Next(old(ledger), s)
      ensures OtherSpacesKept(old(redisClient.db), redisClient.db)
      ensures redisClient.now == old(redisClient.now) + Elapsed(s)
    {
      hide View, Protocol.Reachable, Tallies, LogEndsBy;
      EndsLater(throttleLog, redisClient.now, redisClient.now + Elapsed(s));
      match s {
        case Tick(elapsed) => redisClient.now := redisClient.now + elapsed;
        case SignUp(user, row) => users.rows := users.rows[user := row];
        case UpdateUser(user, row) => users.rows := users.rows[user := row];
        case DeleteUser(user) => users.rows := users.rows - {user};
        case LoginCreate(req, sessionId, validator, now, createNow) =>
          var q := ledger.requests[req];
          var _ := sessions.Create(sessionId, NewRecord(q.user, q.row.role, Digest(validator), now), createNow);
        case RefreshRotate(req, validator, now) =>
          var q := ledger.requests[req];
          var _ := sessions.Rotate(q.token.sessionId, q.owner, ParamsOf(q, s));
        case RefreshRevoke(req) => var _ := sessions.DeleteAllForUser(ledger.requests[req].owner);
        case Logout(sessionId, user) => sessions.Delete(sessionId, user);
        case LogoutAll(user) => var _ := sessions.DeleteAllForUser(user);
        case _ =>
      }
      ReachableNext(ledger, s);
      ledger := Next(ledger, s);
    }

    /** Commands on throttle and cache keys leave the protocol's state as it is. */
    lemma StillValid(db: Db, db': Db)
      requires View(db').sessions == View(db).sessions && View(db').indexes == View(db).indexes
      ensures forall now :: StoreOf(now, db') == StoreOf(now, db)
    {
    }

    /** With whole, positive delays Redis accepts every lock. */
    lemma SoundCounts(a: Account, now: int)
      ensures throttle.policy.Sound() ==> ThrottleModel.RecordFailure(throttle.policy, a, now).1
    {
      var excess := CountAt(a, now) - throttle.policy.freeAttempts;
      if throttle.policy.Sound() && excess > 0 {
        DelayLaws(throttle.policy, excess);
      }
    }

    lemma AccountTallied(v: Spaces, name: string)
      requires Tallies(throttle.policy, v.failures, v.locks, throttleLog)
      ensures AccountOf(v, name) == Replay(throttle.policy, EventsFor(throttleLog, name))
    {
    }

    /** The failure script goes through: Redis accepts the lock, if one is due. */
    function Counted(s: Shared, username: string): bool {
      var a := Replay(throttle.policy, EventsFor(s.log, Normalize(username)));
      ThrottleModel.RecordFailure(throttle.policy, a, s.now).1
    }

    /** The failure script on this account: one more failure in the log. */
    method CountFailure(username: string) returns (ok: bool)
      requires Valid()
      modifies this`throttleLog, redisClient`db
      ensures Valid() && Shares() == old(Shares()).Noted(username, true)
      ensures ok == Counted(old(Shares()), username) && (throttle.policy.Sound() ==> ok)
      ensures AccountOf(View(redisClient.db), Normalize(username))
              == Fail(throttle.policy, AccountOf(old(View(redisClient.db)), Normalize(username)), redisClient.now)
      ensures OtherAccountsKept(old(View(redisClient.db)), View(redisClient.db), Normalize(username))
    {
      hide View, Tallies, LogEndsBy, Replay, EventsFor, OtherAccountsKept, ThrottleModel.RecordFailure, AccountOf;
      ghost var db0 := redisClient.db;
      var name := Normalize(username);
      AccountTallied(View(db0), name);
      SoundCounts(AccountOf(View(db0), name), redisClient.now);
      ok := throttle.RecordFailure(username);
      StillValid(db0, redisClient.db);
      TalliesMore(throttle.policy, View(db0), View(redisClient.db), throttleLog, name, Failed(redisClient.now));
      LogMore(throttleLog, Logged(name, Failed(redisClient.now)), redisClient.now);
      throttleLog := throttleLog + [Logged(name, Failed(redisClient.now))];
    }

    /** The reset of this account: one more reset in the log. */
    method ClearFailures(username: string)
      requires Valid()
      modifies this`throttleLog, redisClient`db
      ensures Valid() && Shares() == old(Shares()).Noted(username, false)
      ensures AccountOf(View(redisClient.db), Normalize(username)) == Account(None, None)
      ensures OtherAccountsKept(old(View(redisClient.db)), View(redisClient.db), Normalize(username))
    {
      hide View, Tallies, LogEndsBy, OtherAccountsKept, AccountOf;
      ghost var db0 := redisClient.db;
      var name := Normalize(username);
      throttle.Reset(username);
      StillValid(db0, redisClient.db);
      TalliesMore(throttle.policy, View(db0), View(redisClient.db), throttleLog, name, Cleared(redisClient.now));
      LogMore(throttleLog, Logged(name, Cleared(redisClient.now)), redisClient.now);
      throttleLog := throttleLog + [Logged(name, Cleared(redisClient.now))];
    }

    /** The best-effort profile write that follows a login: whatever state the cache machine is in, if it
        agrees with the stores and holds this row for this login, the write is its fill. */
    method CacheProfile(userId: string, profile: UserPublic, reachable: bool)
      requires Valid()
      modifies redisClient`db
      ensures Valid() && Shares() == if reachable then old(Shares()).Cached(userId, profile) else old(Shares())
      ensures View(redisClient.db).profiles ==
              if reachable then old(View(redisClient.db)).profiles[userId := Slot(profile, redisClient.now + 3600000)]
              else old(View(redisClient.db)).profiles
      ensures forall w, reader |
                && Mirrors(w, redisClient.now, old(View(redisClient.db)).profiles, users.rows)
                && reader in w.readers && w.readers[reader].HasRow?
                && w.readers[reader].user == userId && w.readers[reader].profile == profile ::
                Mirrors(ProfileCache.Next(w, ProfileCache.Fill(reader, reachable, false)),
                        redisClient.now, View(redisClient.db).profiles, users.rows)
    {
      hide View, Mirrors, Tallies, LogEndsBy;
      ghost var db0 := redisClient.db;
      if reachable {
        cache.SetUserProfile(userId, profile);
        StillValid(db0, redisClient.db);
      }
      forall w, reader |
        && Mirrors(w, redisClient.now, View(db0).profiles, users.rows)
        && reader in w.readers && w.readers[reader].HasRow?
        && w.readers[reader].user == userId && w.readers[reader].profile == profile
        ensures Mirrors(ProfileCache.Next(w, ProfileCache.Fill(reader, reachable, false)),
                        redisClient.now, View(redisClient.db).profiles, users.rows)
      {
        FillMirrors(w, redisClient.now, View(db0), users.rows, reader, reachable, false);
      }
    }

    /** One step of the environment; a protocol step that cannot happen now is skipped. */
    method ExecuteOne(e: EnvStep)
      requires Valid()
      modifies this, redisClient, users
      ensures Valid() && Shares() == SharedNext(old(Shares()), e)
      ensures ledger == if e.Session? then Next(old(ledger), e.step) else old(ledger)
      ensures e.Fails? ==>
                var name := Normalize(e.username);
                AccountOf(View(redisClient.db), name)
                == Fail(throttle.policy, AccountOf(old(View(redisClient.db)), name), redisClient.now)
      ensures e.Clears? ==> AccountOf(View(redisClient.db), Normalize(e.username)) == Account(None, None)
      ensures e.Caches? ==>
                View(redisClient.db).profiles
                == old(View(redisClient.db)).profiles[e.userId := Slot(e.profile, redisClient.now + 3600000)]
    {
      hide View, Tallies, LogEndsBy, Protocol.Reachable, Replay, ThrottleModel.RecordFailure, Mirrors;
      match e {
        case Session(s) =>
          if Enabled(ledger, s) {
            Execute(s);
          }
        case Fails(username) => var _ := CountFailure(username);
        case Clears(username) => ClearFailures(username);
        case Caches(userId, profile) => CacheProfile(userId, profile, true);
      }
    }

    /** Whatever others do while this request awaits. */
    method Interfere(env: seq<EnvStep>, req: nat, digest: Digest, sessionId: string)
      requires Valid() && Foreign(env, req, digest, sessionId)
      modifies this, redisClient, users
      ensures Valid() && ledger == Run(old(ledger), StepsOf(env)) && Shares() == SharedAfter(old(Shares()), env)
      ensures req in ledger.requests <==> req in old(ledger).requests
      ensures req in ledger.requests ==> ledger.requests[req] == old(ledger).requests[req]
      ensures digest in ledger.seen <==> digest in old(ledger).seen
      ensures sessionId in ledger.chains <==> sessionId in old(ledger).chains
      decreases |env|
    {
      hide View, Next, Shares, SharedNext, Tallies, LogEndsBy;
      if env != [] {
        var e := env[0];
        assert e in env;
        if e.Session? {
          RequestStep(ledger, e.step, req);
          FreshStep(ledger, e.step, digest, sessionId);
        }
        ExecuteOne(e);
        Interfere(env[1..], req, digest, sessionId);
      }
    }

    /** The first await of a refresh: split the token and read the session it names. */
    method ReadSession(req: nat, raw: string) returns (session: Option<SessionRecord>)
      requires Valid() && req !in ledger.requests
      modifies this`ledger
      ensures Valid() && Shares() == old(Shares()) && ledger == Next(old(ledger), RefreshGet(req, raw))
      ensures req in ledger.requests
      ensures session.Some? <==> raw != "" && SplitRefreshToken(raw).Some?
                                 && old(ledger).store.Live(SplitRefreshToken(raw).value.sessionId)
      ensures session.None? ==> ledger.requests[req] == Finished(if raw == "" then BadRequest else Unauthorized)
      ensures session.Some? ==> SplitRefreshToken(raw).Some?
                                && session == old(ledger).store.Get(SplitRefreshToken(raw).value.sessionId)
                                && ledger.requests[req]
                                   == SessionFound(SplitRefreshToken(raw).value, session.value.userId)
    {
      hide View, Tallies, LogEndsBy;
      var split := SplitRefreshToken(raw);
      session := None;
      if raw != "" && split.Some? {
        session := sessions.Get(split.value.sessionId);
      }
      ReachableNext(ledger, RefreshGet(req, raw));
      ledger := Next(ledger, RefreshGet(req, raw));
    }

    /** The second await: read the session's user from the database. */
    method ReadUser(req: nat, userId: string) returns (user: Option<UserRow>)
      requires Valid() && req in ledger.requests && ledger.requests[req].SessionFound?
      requires ledger.requests[req].owner == userId
      modifies this`ledger
      ensures Valid() && Shares() == old(Shares()) && ledger == Next(old(ledger), RefreshFindUser(req))
      ensures old(ledger).db != [] && (user.Some? <==> userId in Current(old(ledger).db))
      ensures req in ledger.requests
      ensures ledger.requests[req] == match user
                                      case None => UserMissing(userId)
                                      case Some(row) =>
                                        UserFound(old(ledger).requests[req].token, userId, row, |ledger.db| - 1)
    {
      hide View, Tallies, LogEndsBy;
      user := users.FindById(userId);
      ReachableNext(ledger, RefreshFindUser(req));
      ledger := Next(ledger, RefreshFindUser(req));
    }

    /** The last await when the user is gone. */
    method RevokeAll(req: nat, userId: string)
      requires Valid() && req in ledger.requests && ledger.requests[req] == UserMissing(userId)
      modifies this`ledger, redisClient`db
      ensures Valid() && Shares() == old(Shares())
      ensures ledger == Next(old(ledger), RefreshRevoke(req))
      ensures req in ledger.requests && ledger.requests[req] == Finished(Unauthorized)
    {
      hide View, Tallies, LogEndsBy;
      var _ := sessions.DeleteAllForUser(userId);
      ReachableNext(ledger, RefreshRevoke(req));
      ledger := Next(ledger, RefreshRevoke(req));
    }

    /** The token log ends with the pair just handed out, in exchange for `token`. */
    ghost predicate AnsweredFor(w: World, req: nat, token: SplitToken, reply: Reply) {
      && w.issues != []
      && var e := w.issues[|w.issues| - 1]; Answers(e, req, reply) && e.presented == Some(token)
    }

    lemma MintedIsLogged(w: World, s: Step)
      requires Protocol.Reachable(w) && Enabled(w, s) && s.RefreshRotate?
      ensures OutcomeOf(w, s) == Rotated ==>
                s.req in Next(w, s).requests && Next(w, s).requests[s.req].Finished?
                && AnsweredFor(Next(w, s), s.req, w.requests[s.req].token, Next(w, s).requests[s.req].reply)
      ensures OutcomeOf(w, s) != Rotated ==>
                s.req in Next(w, s).requests && Next(w, s).requests[s.req].Finished?
                    && !Next(w, s).requests[s.req].reply.Refreshed?
    {
      hide Next, Rotate, HistoryOk, StoreOk;
      RepliesByOutcome(w, s);
      ReachableInv(w);
      if OutcomeOf(w, s) == Rotated {
        RotatedFacts(w, s);
        RotationAnswers(w, s);
      }
    }

    /** The last await otherwise: the rotate script, and the reply its outcome calls for. */
    method RotateToken(req: nat, token: SplitToken, userId: string, row: UserRow, validator: string, now: int)
      returns (reply: Reply)
      requires Valid() && Enabled(ledger, RefreshRotate(req, validator, now))
      requires ledger.requests[req].token == token && ledger.requests[req].owner == userId
      requires ledger.requests[req].row == row
      modifies this`ledger, redisClient`db
      ensures Valid() && Shares() == old(Shares())
      ensures ledger == Next(old(ledger), RefreshRotate(req, validator, now))
      ensures req in ledger.requests && ledger.requests[req] == Finished(reply)
      ensures reply.Refreshed? ==> AnsweredFor(ledger, req, token, reply)
    {
      hide View, Tallies, LogEndsBy;
      MintedIsLogged(ledger, RefreshRotate(req, validator, now));
      var outcome := sessions.Rotate(token.sessionId, userId,
                                     RotateParams(Digest(token.validator), Digest(validator), row.role, now));
      ReachableNext(ledger, RefreshRotate(req, validator, now));
      ledger := Next(ledger, RefreshRotate(req, validator, now));
      match outcome {
        case Rotated =>
          reply := Refreshed(AccessToken(userId, token.sessionId, row.role),
              JoinRefreshToken(SplitToken(token.sessionId, validator)));
        case Concurrent => reply := ConflictReply;
        case Reused => reply := Unauthorized;
        case Missing => reply := Unauthorized;
      }
    }

    /** The three shapes of a refresh: over after the session read, ended by a user that is gone, or
        decided by the rotate script. */
    ghost predicate RefreshRun(trace: seq<Step>, req: nat, raw: string, env1: seq<Step>, env2: seq<Step>,
                               validator: string)
    {
      || trace == [RefreshGet(req, raw)]
      || trace == [RefreshGet(req, raw)] + env1 + [RefreshFindUser(req)] + env2 + [RefreshRevoke(req)]
      || exists now ::
          trace == [RefreshGet(req, raw)] + env1 + [RefreshFindUser(req)] + env2 + [RefreshRotate(req, validator, now)]
    }

    /** The rest of a refresh once its session has been found: the user read, and the last store access. */
    method FinishRefresh(req: nat, token: SplitToken, userId: string, validator: string, lag: nat, env1: seq<EnvStep>,
                         env2: seq<EnvStep>)
      returns (reply: Reply, ghost last: Step)
      requires Valid() && req in ledger.requests && ledger.requests[req] == SessionFound(token, userId)
      requires validator != "" && Digest(validator) !in ledger.seen
      requires Foreign(env1, req, Digest(validator), "") && Foreign(env2, req, Digest(validator), "")
      modifies this, redisClient, users
      ensures Valid() && Shares() == SharedAfter(old(Shares()), env1 + env2)
      ensures req in ledger.requests && ledger.requests[req] == Finished(reply)
      ensures reply.Refreshed? ==> AnsweredFor(ledger, req, token, reply)
      ensures var w1 := Run(old(ledger), StepsOf(env1));
              var w2 := Run(Next(w1, RefreshFindUser(req)), StepsOf(env2));
              && w1.db != [] && ledger == Next(w2, last)
              && (if userId in Current(w1.db)
                  then last == RefreshRotate(req, validator, redisClient.now - lag) && Enabled(w2, last)
                       && RepliedByHistory(w2, last, reply)
                  else last == RefreshRevoke(req) && reply == Unauthorized)
    {
      hide View, StoreOf, Next, AnsweredFor, Protocol.Reachable, Tallies, LogEndsBy, Shares, StepsOf, SharedNext,
           Foreign, RepliedByHistory;
      InTwoParts(Shares(), env1, env2);
      Interfere(env1, req, Digest(validator), "");
      FindUserSeen(ledger, req);
      var user := ReadUser(req, userId);
      Interfere(env2, req, Digest(validator), "");
      if user.None? {
        last := RefreshRevoke(req);
        RevokeAll(req, userId);
        return Unauthorized, last;
      }
      var now := redisClient.now - lag;
      last := RefreshRotate(req, validator, now);
      ClockIs(redisClient.now, redisClient.db);
      RepliesByHistory(ledger, last);
      reply := RotateToken(req, token, userId, user.value, validator, now);
    }

    /** `env1` and `env2` run during the awaits of the user read and of the last store access;
        `lag` is the time between the clock sample and the script; `ran` is what has run in the end. */
    method Refresh(req: nat, raw: string, validator: string, lag: nat, env1: seq<EnvStep>, env2: seq<EnvStep>)
      returns (reply: Reply, ghost trace: seq<Step>, ghost ran: seq<EnvStep>)
      requires Valid() && req !in ledger.requests
      requires validator != "" && Digest(validator) !in ledger.seen + DigestsOf(RefreshGet(req, raw))
      requires Foreign(env1, req, Digest(validator), "") && Foreign(env2, req, Digest(validator), "")
      modifies this, redisClient, users
      ensures Valid() && ran == (if |trace| == 1 then [] else env1 + env2)
      ensures Shares() == SharedAfter(old(Shares()), ran)
      ensures RefreshRun(trace, req, raw, StepsOf(env1), StepsOf(env2), validator) && ledger == Run(old(ledger), trace)
      ensures req in ledger.requests && ledger.requests[req] == Finished(reply)
      ensures reply.Refreshed? ==>
              SplitRefreshToken(raw).Some? && AnsweredFor(ledger, req, SplitRefreshToken(raw).value, reply)
      // It goes past the session read exactly when the token splits and names a session live at the start, ...
      ensures |trace| > 1 <==> raw != "" && SplitRefreshToken(raw).Some?
                               && old(ledger).store.Live(SplitRefreshToken(raw).value.sessionId)
      ensures |trace| == 1 ==>
                reply == (if raw == "" then BadRequest else Unauthorized) && ledger.store == old(ledger).store
      // ... and on to the rotate script exactly when that session's user is still there, which then decides.
      ensures |trace| > 1 ==>
                var w1 := Run(Next(old(ledger), RefreshGet(req, raw)), StepsOf(env1));
                var w2 := Run(Next(w1, RefreshFindUser(req)), StepsOf(env2));
                var owner := old(ledger).store.sessions[SplitRefreshToken(raw).value.sessionId].value.userId;
                var last := trace[|trace| - 1];
                && w1.db != [] && ledger == Next(w2, last)
                && (if owner in Current(w1.db)
                    then last == RefreshRotate(req, validator, redisClient.now - lag) && Enabled(w2, last)
                         && RepliedByHistory(w2, last, reply)
                    else last == RefreshRevoke(req) && reply == Unauthorized)
    {
      hide View, StoreOf, Next, AnsweredFor, Protocol.Reachable, SplitRefreshToken, Tallies, LogEndsBy, Shares,
           StepsOf, SharedNext, DigestsOf, Foreign, RepliedByHistory;
      ghost var w0, last := ledger, RefreshGet(req, raw);
      BeginSeen(ledger, req, raw, Digest(validator));
      var session := ReadSession(req, raw);
      trace, ran := [RefreshGet(req, raw)], [];
      if session.None? {
        FirstReadKeeps(w0, req, raw);
        return if raw == "" then BadRequest else Unauthorized, trace, ran;
      }
      reply, last := FinishRefresh(req, SplitRefreshToken(raw).value, session.value.userId, validator, lag, env1, env2);
      RunThree(w0, RefreshGet(req, raw), StepsOf(env1), RefreshFindUser(req), StepsOf(env2), last);
      trace := trace + StepsOf(env1) + [RefreshFindUser(req)] + StepsOf(env2) + [last];
      ran := env1 + env2;
    }

    /** A login's database read, once the password has matched. */
    method NoteVerified(req: nat, userId: string)
      requires Valid() && req !in ledger.requests && userId in users.rows
      modifies this`ledger
      ensures Valid() && Shares() == old(Shares()) && ledger == Next(old(ledger), LoginRead(req, userId))
      ensures req in ledger.requests
      ensures ledger.requests[req] == LoginVerified(userId, users.rows[userId], |ledger.db| - 1)
      ensures ledger.seen == old(ledger).seen && ledger.chains == old(ledger).chains
    {
      hide View, Tallies, LogEndsBy;
      ReachableNext(ledger, LoginRead(req, userId));
      ledger := Next(ledger, LoginRead(req, userId));
    }

    /** What a login answers: the session cannot be stored once its cap is behind the repository's clock. */
    function LoginReply(userId: string, row: UserRow, token: SplitToken, now: int, createNow: int): Reply {
      if createNow < now + SESSION_ABSOLUTE_TTL_SECONDS * 1000
      then LoggedIn(AccessToken(userId, token.sessionId, row.role), JoinRefreshToken(token), ToPublicUser(userId, row))
      else ServerError
    }

    /** Every session but this one, and every index entry for another, is as it was. */
    ghost predicate OthersKept(st: Store, st': Store, sessionId: string) {
      && (forall k | k != sessionId :: st'.Get(k) == st.Get(k))
      && (forall u, k | k != sessionId :: k in st'.Members(u) <==> k in st.Members(u))
    }

    /** A login's session write, and the reply it leads to. */
    method CreateSession(req: nat, userId: string, row: UserRow, token: SplitToken, now: int, createNow: int)
      returns (reply: Reply)
      requires Valid() && Enabled(ledger, LoginCreate(req, token.sessionId, token.validator, now, createNow))
      requires ledger.requests[req].user == userId && ledger.requests[req].row == row
      modifies this`ledger, redisClient`db
      ensures Valid() && Shares() == old(Shares())
      ensures ledger == Next(old(ledger), LoginCreate(req, token.sessionId, token.validator, now, createNow))
      ensures req in ledger.requests && ledger.requests[req] == Finished(reply)
      ensures reply == LoginReply(userId, row, token, now, createNow)
      ensures OthersKept(old(ledger).store, ledger.store, token.sessionId)
    {
      hide View, Tallies, LogEndsBy;
      var record := NewRecord(userId, row.role, Digest(token.validator), now);
      CreateEffects(ledger.store, token.sessionId, record, createNow);
      var ok := sessions.Create(token.sessionId, record, createNow);
      ReachableNext(ledger, LoginCreate(req, token.sessionId, token.validator, now, createNow));
      ledger := Next(ledger, LoginCreate(req, token.sessionId, token.validator, now, createNow));
      if ok {
        var access := AccessToken(userId, token.sessionId, row.role);
        reply := LoggedIn(access, JoinRefreshToken(token), ToPublicUser(userId, row));
      } else {
        reply := ServerError;
      }
    }

    /** As names are unique whatever their case, no row goes by the name or one that does has another
        password exactly when no row has both the name and the password. */
    lemma RefusedOrAccepted(rows: map<string, UserRow>, username: string, password: string)
      requires forall i, j | i in rows && j in rows && Lowercase(rows[i].username) == Lowercase(rows[j].username) ::
                 i == j
      ensures (|| (forall id | id in rows :: Lowercase(rows[id].username) != Lowercase(username))
               || (exists id | id in rows ::
                     Lowercase(rows[id].username) == Lowercase(username) && !compare(password, rows[id].passwordHash)))
              <==> !exists id | id in rows ::
                      Lowercase(rows[id].username) == Lowercase(username) && compare(password, rows[id].passwordHash)
    {
    }

    /** The user whose password this is; an unknown name costs a comparison too. */
    method FindByCredentials(username: string, password: string) returns (userId: string, row: Option<UserRow>)
      ensures row.Some? ==>
                && userId in users.rows && users.rows[userId] == row.value
                && Lowercase(row.value.username) == Lowercase(username) && compare(password, row.value.passwordHash)
      ensures row.None? ==>
                || (forall id | id in users.rows :: Lowercase(users.rows[id].username) != Lowercase(username))
                || (exists id | id in users.rows ::
                      && Lowercase(users.rows[id].username) == Lowercase(username)
                      && !compare(password, users.rows[id].passwordHash))
    {
      var user;
      userId, user := users.FindByUsername(username);
      var passwordMatch := compare(password, if user.Some? then user.value.passwordHash else DUMMY_PASSWORD_HASH);
      row := if user.None? || !passwordMatch then None else user;
    }

    /** A login from the moment its credentials have been found good: the account is cleared, the session
        created, and the profile cached if the cache is up, with others' steps at each of these awaits. */
    method OpenSession(req: nat, username: string, userId: string, row: UserRow, token: SplitToken, lag: nat,
                       createLag: nat, cacheUp: bool, env2: seq<EnvStep>, env3: seq<EnvStep>, env4: seq<EnvStep>)
      returns (reply: Reply, ghost now: int, ghost createNow: int)
      requires Valid() && req !in ledger.requests && createLag <= lag && userId in users.rows
      requires users.rows[userId] == row
      requires Mintable(token) && Digest(token.validator) !in ledger.seen && token.sessionId !in ledger.chains
      requires Foreign(env2 + env3 + env4, req, Digest(token.validator), token.sessionId)
      modifies this, redisClient, users
      ensures Valid()
      ensures ledger == Run(Next(Run(Next(old(ledger), LoginRead(req, userId)), StepsOf(env2 + env3)),
                                 LoginCreate(req, token.sessionId, token.validator, now, createNow)), StepsOf(env4))
      ensures createNow - now == lag - createLag
      ensures var done := SharedAfter(SharedAfter(old(Shares()), env2).Noted(username, false), env3 + env4);
              Shares() == if reply.LoggedIn? && cacheUp then done.Cached(userId, ToPublicUser(userId, row)) else done
      ensures req in ledger.requests && ledger.requests[req] == Finished(reply)
      ensures reply == LoginReply(userId, row, token, now, createNow)
      ensures var w := Run(Next(old(ledger), LoginRead(req, userId)), StepsOf(env2 + env3));
              OthersKept(w.store, Next(w, LoginCreate(req, token.sessionId, token.validator, now, createNow)).store,
                         token.sessionId)
    {
      hide View, StoreOf, Next, Protocol.Reachable, Normalize, LoginReply, Tallies, LogEndsBy, Mirrors, Shares,
           OthersKept, Fail, OtherAccountsKept;
      ghost var s0, w0 := Shares(), Next(ledger, LoginRead(req, userId));
      NoteVerified(req, userId);
      Interfere(env2, req, Digest(token.validator), token.sessionId);
      ClearFailures(username);
      InTwoParts(Shares(), env3, env4);
      Interfere(env3, req, Digest(token.validator), token.sessionId);
      InTwoParts(s0, env2, env3);
      RunConcat(w0, StepsOf(env2), StepsOf(env3));
      var sampled, sampledAgain := redisClient.now - lag, redisClient.now - createLag;
      now, createNow := sampled, sampledAgain;
      ClockIs(redisClient.now, redisClient.db);
      reply := CreateSession(req, userId, row, token, sampled, sampledAgain);
      Interfere(env4, req, Digest(token.validator), token.sessionId);
      if reply.LoggedIn? {
        CacheProfile(userId, ToPublicUser(userId, row), cacheUp);
      }
    }

    /** A reset stays in the log of its account, whatever is added to it. */
    lemma ResetStays(s: Shared, username: string, env: seq<EnvStep>)
      ensures var log, name := SharedAfter(s.Noted(username, false), env).log, Normalize(username);
              EventsFor(s.log, name) + [Cleared(s.now)] <= EventsFor(log, name)
    {
      hide EventsFor, Normalize;
      var e := Logged(Normalize(username), Cleared(s.now));
      SharedGrows(s.Noted(username, false), env);
      EventsForMore(s.log, e, e.name);
      EventsGrow(s.log + [e], SharedAfter(s.Noted(username, false), env).log, e.name);
    }

    /** The run of a login that opens a session. */
    ghost predicate LoginRun(trace: seq<Step>, req: nat, user: string, token: SplitToken, now: int, createNow: int,
                             before: seq<Step>, between: seq<Step>, after: seq<Step>)
    {
      trace == before + [LoginRead(req, user)] + between
               + [LoginCreate(req, token.sessionId, token.validator, now, createNow)] + after
    }

    /** `env1` runs before the credentials are looked up, `env2` during the password comparison and the
        throttle's await, `env3` during that of the session write and `env4` during that of the profile write;
        `lag` and `createLag` are the ages of the two clock samples when the session is written.
        A locked account is turned away before anything else happens; wrong credentials are counted
        against the account and open no session; a login clears the account and hands out its tokens. */
    method Login(req: nat, username: string, password: string, token: SplitToken, lag: nat, createLag: nat,
                 cacheUp: bool, env1: seq<EnvStep>, env2: seq<EnvStep>, env3: seq<EnvStep>, env4: seq<EnvStep>)
      returns (reply: Reply, ghost trace: seq<Step>, ghost userId: string, ghost now: int, ghost createNow: int)
      requires Valid() && req !in ledger.requests && createLag <= lag
      requires Mintable(token) && Digest(token.validator) !in ledger.seen && token.sessionId !in ledger.chains
      requires Foreign(env1 + env2 + env3 + env4, req, Digest(token.validator), token.sessionId)
      modifies this, redisClient, users
      ensures Valid() && ledger == Run(old(ledger), trace) && Run(old(ledger), StepsOf(env1)).db != []
      // Turned away: exactly while half a second or more of the lock is left, and nothing changes.
      ensures var lock := Replay(throttle.policy, EventsFor(old(throttleLog), Normalize(username))).lock;
              reply.TooManyRequests? <==> lock.Some? && lock.value - old(redisClient.now) >= 500
      ensures reply.TooManyRequests? ==> trace == [] && Shares() == old(Shares()) && reply.retryAfterSeconds > 0
      // Refused: by the rows at the lookup, and counted once.
      ensures !reply.TooManyRequests? && trace == StepsOf(env1 + env2) ==>
                var rows, name := Current(Run(old(ledger), StepsOf(env1)).db), Normalize(username);
                var s := SharedAfter(old(Shares()), env1 + env2);
                && (|| (forall id | id in rows :: Lowercase(rows[id].username) != Lowercase(username))
                    || (exists id | id in rows ::
                          && Lowercase(rows[id].username) == Lowercase(username)
                          && !compare(password, rows[id].passwordHash)))
                && Shares() == s.Noted(username, true)
                && EventsFor(throttleLog, name) == EventsFor(s.log, name) + [Failed(s.now)]
                && AccountOf(View(redisClient.db), name)
                   == Fail(throttle.policy, Replay(throttle.policy, EventsFor(s.log, name)), s.now)
                && reply == (if Counted(s, username) then Unauthorized else ServerError)
                && (throttle.policy.Sound() ==> reply == Unauthorized)
      // Accepted: the reply shows the row found, the account is reset, and no other session is touched.
      ensures !reply.TooManyRequests? && trace != StepsOf(env1 + env2) ==>
                var w, name := Run(old(ledger), StepsOf(env1)), Normalize(username);
                && userId in Current(w.db)
                && createNow - now == lag - createLag
                && (var row := Current(w.db)[userId];
                    && Lowercase(row.username) == Lowercase(username) && compare(password, row.passwordHash)
                    && reply == (if createNow < now + 2592000000
                                 then LoggedIn(AccessToken(userId, token.sessionId, row.role),
                                               token.sessionId + "." + token.validator,
                                               UserPublic(userId, row.name, row.username, row.email, row.role))
                                 else ServerError))
                && LoginRun(trace, req, userId, token, now, createNow, StepsOf(env1), StepsOf(env2 + env3),
                            StepsOf(env4))
                && req in ledger.requests && ledger.requests[req] == Finished(reply)
                && var w3 := Run(Next(w, LoginRead(req, userId)), StepsOf(env2 + env3));
                   var w4 := Next(w3, LoginCreate(req, token.sessionId, token.validator, now, createNow));
                   OthersKept(w3.store, w4.store, token.sessionId)
      ensures !reply.TooManyRequests? && trace != StepsOf(env1 + env2) ==>
                var s, name := SharedAfter(old(Shares()), env1 + env2), Normalize(username);
                var done := SharedAfter(s.Noted(username, false), env3 + env4);
                && EventsFor(s.log, name) + [Cleared(s.now)] <= EventsFor(throttleLog, name)
                && Shares() == if reply.LoggedIn? && cacheUp then done.Cached(userId, reply.user) else done
    {
      hide View, StoreOf, Next, ThrottleModel.RecordFailure, Protocol.Reachable, Normalize, Tallies, LogEndsBy, Replay,
           EventsFor, SharedAfter, OthersKept, Fail, OtherAccountsKept;
      ghost var w0, s0, name := ledger, Shares(), Normalize(username);
      trace, userId, now, createNow := [], "", 0, 0;
      ReachableRun(ledger, StepsOf(env1));
      ReachableHasTable(Run(ledger, StepsOf(env1)));
      AccountTallied(View(redisClient.db), name);
      var retryAfter := throttle.AssertNotThrottled(username);
      if retryAfter.Some? {
        return TooManyRequests(retryAfter.value), trace, userId, now, createNow;
      }
      InTwoParts(s0, env1, env2);
      Interfere(env1, req, Digest(token.validator), token.sessionId);
      var id, row := FindByCredentials(username, password);
      userId := id;
      if row.None? {
        RunConcat(w0, StepsOf(env1), StepsOf(env2));
        trace := StepsOf(env1 + env2);
        Interfere(env2, req, Digest(token.validator), token.sessionId);
        AccountTallied(View(redisClient.db), name);
        EventsForMore(throttleLog, Logged(name, Failed(redisClient.now)), name);
        var counted := CountFailure(username);
        return if counted then Unauthorized else ServerError, trace, userId, now, createNow;
      }
      reply, now, createNow :=
          OpenSession(req, username, id, row.value, token, lag, createLag, cacheUp, env2, env3, env4);
      ghost var create := LoginCreate(req, token.sessionId, token.validator, now, createNow);
      trace := StepsOf(env1) + [LoginRead(req, userId)] + StepsOf(env2 + env3) + [create] + StepsOf(env4);
      RunTwo(w0, StepsOf(env1), LoginRead(req, userId), StepsOf(env2 + env3), create, StepsOf(env4));
      InTwoParts(s0, env2, env3);
      ResetStays(SharedAfter(s0, env1 + env2), username, env3 + env4);
    }

    /** `sessionId` and `userId` are what the authentication middleware put on the request, if anything. */
    method Logout(sessionId: Option<string>, userId: Option<string>) returns (ok: bool)
      requires Valid()
      modifies this`ledger, redisClient`db
      ensures Valid() && OtherSpacesKept(old(redisClient.db), redisClient.db)
      ensures ok <==> sessionId.Some? && sessionId.value != "" && userId.Some? && userId.value != ""
      ensures ledger == if ok then Next(old(ledger), Step.Logout(sessionId.value, userId.value)) else old(ledger)
      ensures ok ==>
                var st, st' := old(ledger).store, ledger.store;
                && !st'.Live(sessionId.value) && (forall k | k != sessionId.value :: st'.Get(k) == st.Get(k))
                && (forall u, k :: k in st'.Members(u) <==>
                                     k in st.Members(u) && !(u == userId.value && k == sessionId.value))
    {
      hide View, Tallies, LogEndsBy;
      if sessionId.None? || sessionId.value == "" || userId.None? || userId.value == "" {
        return false;
      }
      LogoutSparesOthers(ledger, sessionId.value, userId.value);
      sessions.Delete(sessionId.value, userId.value);
      ReachableNext(ledger, Step.Logout(sessionId.value, userId.value));
      ledger := Next(ledger, Step.Logout(sessionId.value, userId.value));
      return true;
    }

    method LogoutAll(userId: Option<string>) returns (revoked: Option<int>)
      requires Valid()
      modifies this`ledger, redisClient`db
      ensures Valid() && OtherSpacesKept(old(redisClient.db), redisClient.db)
      ensures revoked.Some? <==> userId.Some? && userId.value != ""
      ensures revoked.Some? ==> revoked.value == |old(ledger).store.Members(userId.value)|
      ensures ledger == if revoked.Some? then Next(old(ledger), Step.LogoutAll(userId.value)) else old(ledger)
      ensures revoked.Some? ==>
                var st, st' := old(ledger).store, ledger.store;
                && (forall k :: st'.Get(k) == if k in st.Members(userId.value) then None else st.Get(k))
                && (forall u :: st'.Members(u) == if u == userId.value then {} else st.Members(u))
    {
      hide View, Tallies, LogEndsBy;
      if userId.None? || userId.value == "" {
        return None;
      }
      var count := sessions.DeleteAllForUser(userId.value);
      ReachableNext(ledger, Step.LogoutAll(userId.value));
      ledger := Next(ledger, Step.LogoutAll(userId.value));
      return Some(count);
    }
  }
}
