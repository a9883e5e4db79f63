/** The session protocol as a state machine. Every await of `AuthService` that touches shared
    state is one step, so a run is an interleaving of any number of requests with clock ticks,
    database changes, logouts and bulk revocations. A step whose guard fails changes nothing,
    so every sequence of steps is a run. */
module Protocol {
  import opened Domain
  import opened SessionStore
  import opened Tokens

  /** One refresh token of a session: its digest, the application's clock sample behind it, the
      server time of the script that stored it, and the database version its role was read at. */
  datatype Link = Link(digest: Digest, sampledAt: int, executedAt: int, version: nat)

  /** The whole token history of one session. The store keeps only its last two digests. */
  datatype Chain = Chain(owner: string, createdAt: int, cap: int, links: seq<Link>)

  /** One pair of tokens handed to a client; `presented` is the refresh token it was exchanged for. */
  datatype Issue = Issue(req: nat, access: AccessToken, refresh: SplitToken, link: nat, presented: Option<SplitToken>)

  datatype Reply =
    | LoggedIn(access: AccessToken, refreshToken: string, user: UserPublic)
    | Refreshed(access: AccessToken, refreshToken: string)
    | BadRequest
    | Unauthorized
    | ConflictReply
    | TooManyRequests(retryAfterSeconds: int)
    | ServerError

  /** Where a request stands, and what it has captured so far. */
  datatype Request =
    | LoginVerified(user: string, row: UserRow, version: nat)
    | SessionFound(token: SplitToken, owner: string)
    | UserFound(token: SplitToken, owner: string, row: UserRow, version: nat)
    | UserMissing(owner: string)
    | Finished(reply: Reply)

  /** `db` lists the versions of the users table, the current one last; `users` holds every id
      ever inserted; `seen` holds the digest of every validator generated or presented so
      far; `sent` holds the refresh token, as it came in, of every refresh request. */
  datatype World = World(
    store: Store,
    db: seq<map<string, UserRow>>,
    users: set<string>,
    requests: map<nat, Request>,
    chains: map<string, Chain>,
    seen: set<Digest>,
    sent: map<nat, string>,
    issues: seq<Issue>)

  datatype Step =
    | Tick(elapsed: nat)
    | SignUp(user: string, row: UserRow)
    | UpdateUser(user: string, row: UserRow)
    | DeleteUser(user: string)
    | LoginRead(req: nat, user: string)
    | LoginCreate(req: nat, sessionId: string, validator: string, now: int, createNow: int)
    | RefreshGet(req: nat, raw: string)
    | RefreshFindUser(req: nat)
    | RefreshRevoke(req: nat)
    | RefreshRotate(req: nat, validator: string, now: int)
    | Logout(sessionId: string, user: string)
    | LogoutAll(user: string)

  function Init(start: int): World {
    World(Store(start, map[], map[]), [map[]], {}, map[], map[], {}, map[], [])
  }

  function Current(db: seq<map<string, UserRow>>): map<string, UserRow>
    requires db != []
  {
    db[|db| - 1]
  }

  /** Guards: requests move forward, generated ids and validators are new, and no clock sample
      of the application runs ahead of the server. */
  predicate Enabled(w: World, s: Step) {
    && w.db != []
    && match s
       case Tick(_) => true
       case SignUp(user, _) => user !in w.users
       case UpdateUser(user, _) => user in Current(w.db)
       case DeleteUser(user) => user in Current(w.db)
       case LoginRead(req, user) => req !in w.requests && user in Current(w.db)
       case LoginCreate(req, sessionId, validator, now, createNow) =>
         && req in w.requests && w.requests[req].LoginVerified?
         && sessionId !in w.chains && Digest(validator) !in w.seen
         && Mintable(SplitToken(sessionId, validator))
         && now <= createNow <= w.store.now
       case RefreshGet(req, _) => req !in w.requests
       case RefreshFindUser(req) => req in w.requests && w.requests[req].SessionFound?
       case RefreshRevoke(req) => req in w.requests && w.requests[req].UserMissing?
       case RefreshRotate(req, validator, now) =>
         && req in w.requests && w.requests[req].UserFound?
         && Digest(validator) !in w.seen && validator != ""
         && now <= w.store.now
       case Logout(_, _) => true
       case LogoutAll(_) => true
  }

  function NewRecord(user: string, role: Role, hash: Digest, now: int): SessionRecord {
    SessionRecord(user, role, hash, None, None, now,
                  now + SESSION_IDLE_TTL_SECONDS * 1000, now + SESSION_ABSOLUTE_TTL_SECONDS * 1000)
  }

  function AfterLoginCreate(w: World, s: Step): World
    requires s.LoginCreate? && Enabled(w, s)
  {
    var q := w.requests[s.req];
    var token := SplitToken(s.sessionId, s.validator);
    var (store, ok) :=
        Create(w.store, s.sessionId, NewRecord(q.user, q.row.role, Digest(s.validator), s.now), s.createNow);
    var link := Link(Digest(s.validator), s.createNow, w.store.now, q.version);
    var access := AccessToken(q.user, s.sessionId, q.row.role);
    var reply := if ok then LoggedIn(access, JoinRefreshToken(token), ToPublicUser(q.user, q.row)) else ServerError;
    w.(store := store,
       chains := w.chains[s.sessionId := Chain(q.user, s.now, s.now + SESSION_ABSOLUTE_TTL_SECONDS * 1000, [link])],
       seen := w.seen + {Digest(s.validator)},
       issues := if ok then w.issues + [Issue(s.req, access, token, 0, None)] else w.issues,
       requests := w.requests[s.req := Finished(reply)])
  }

  function AfterRefreshGet(w: World, s: Step): World
    requires s.RefreshGet? && Enabled(w, s)
  {
    var sent := w.sent[s.req := s.raw];
    if s.raw == "" then w.(sent := sent, requests := w.requests[s.req := Finished(BadRequest)])
    else
      match SplitRefreshToken(s.raw)
      case None => w.(sent := sent, requests := w.requests[s.req := Finished(Unauthorized)])
      case Some(token) =>
        var q := match w.store.Get(token.sessionId)
          case None => Finished(Unauthorized)
          case Some(session) => SessionFound(token, session.userId);
        w.(sent := sent, seen := w.seen + {Digest(token.validator)}, requests := w.requests[s.req := q])
  }

  function AfterRefreshFindUser(w: World, s: Step): World
    requires s.RefreshFindUser? && Enabled(w, s)
  {
    var q := w.requests[s.req];
    var found := if q.owner in Current(w.db)
      then UserFound(q.token, q.owner, Current(w.db)[q.owner], |w.db| - 1)
      else UserMissing(q.owner);
    w.(requests := w.requests[s.req := found])
  }

  function RotateReply(outcome: RotateOutcome, access: AccessToken, refresh: SplitToken): Reply {
    match outcome
    case Rotated => Refreshed(access, JoinRefreshToken(refresh))
    case Concurrent => ConflictReply
    case Reused => Unauthorized
    case Missing => Unauthorized
  }

  function ParamsOf(q: Request, s: Step): RotateParams
    requires s.RefreshRotate? && q.UserFound?
  {
    RotateParams(Digest(q.token.validator), Digest(s.validator), q.row.role, s.now)
  }

  function AfterRefreshRotate(w: World, s: Step): World
    requires s.RefreshRotate? && Enabled(w, s)
  {
    var q := w.requests[s.req];
    var id := q.token.sessionId;
    var (store, outcome) := Rotate(w.store, id, q.owner, ParamsOf(q, s));
    var access := AccessToken(q.owner, id, q.row.role);
    var refresh := SplitToken(id, s.validator);
    var moved := w.(store := store,
                    seen := w.seen + {Digest(s.validator)},
                    requests := w.requests[s.req := Finished(RotateReply(outcome, access, refresh))]);
    if outcome == Rotated && id in w.chains then
      var c := w.chains[id];
      var link := Link(Digest(s.validator), s.now, w.store.now, q.version);
      moved.(chains := w.chains[id := c.(links := c.links + [link])],
             issues := w.issues + [Issue(s.req, access, refresh, |c.links|, Some(q.token))])
    else moved
  }

  function Next(w: World, s: Step): World {
    if !Enabled(w, s) then w
    else
      match s
      case Tick(elapsed) => w.(store := w.store.(now := w.store.now + elapsed))
      case SignUp(user, row) => w.(db := w.db + [Current(w.db)[user := row]], users := w.users + {user})
      case UpdateUser(user, row) => w.(db := w.db + [Current(w.db)[user := row]])
      case DeleteUser(user) => w.(db := w.db + [Current(w.db) - {user}])
      case LoginRead(req, user) =>
        w.(requests := w.requests[req := LoginVerified(user, Current(w.db)[user], |w.db| - 1)])
      case LoginCreate(_, _, _, _, _) => AfterLoginCreate(w, s)
      case RefreshGet(_, _) => AfterRefreshGet(w, s)
      case RefreshFindUser(_) => AfterRefreshFindUser(w, s)
      case RefreshRevoke(req) =>
        w.(store := DeleteAll(w.store, w.requests[req].owner), requests := w.requests[req := Finished(Unauthorized)])
      case RefreshRotate(_, _, _) => AfterRefreshRotate(w, s)
      case Logout(sessionId, user) => w.(store := Delete(w.store, sessionId, user))
      case LogoutAll(user) => w.(store := DeleteAll(w.store, user))
  }

  function Run(w: World, steps: seq<Step>): World
    decreases |steps|
  {
    if steps == [] then w else Run(Next(w, steps[0]), steps[1..])
  }

  ghost predicate Reachable(w: World) {
    exists start: int, steps: seq<Step> :: w == Run(Init(start), steps)
  }

  lemma {:induction false} RunConcat(w: World, a: seq<Step>, b: seq<Step>)
    ensures Run(w, a + b) == Run(Run(w, a), b)
    decreases |a|
  {
    if a == [] {
      assert a + b == b;
    } else {
      assert (a + b)[1..] == a[1..] + b;
      RunConcat(Next(w, a[0]), a[1..], b);
    }
  }

  /** Runs extend runs. */
  lemma ReachableRun(w: World, steps: seq<Step>)
    requires Reachable(w)
    ensures Reachable(Run(w, steps))
  {
    var start: int, before: seq<Step> :| w == Run(Init(start), before);
    RunConcat(Init(start), before, steps);
  }

  lemma ReachableNext(w: World, s: Step)
    requires Reachable(w)
    ensures Reachable(Next(w, s))
  {
    ReachableRun(w, [s]);
    assert Run(w, [s]) == Next(w, s);
  }

  /** The authentication middleware's check of a verified access token against the store. */
  function Authenticate(st: Store, token: AccessToken): bool {
    var session := st.Get(token.sessionId);
    session.Some? && session.value.userId == token.subject
  }
}
