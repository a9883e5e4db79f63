/** What each operation changes and what it leaves alone, said of the sessions one can read, the members
    of the indexes and the replies; and the refresh from its first read to its reply. */
module Effects {
  import opened Domain
  import opened SessionStore
  import opened Tokens
  import opened Protocol
  import opened Invariants
  import opened Theorems
  import opened Deletion

  // ----- sessions end only for their own reasons -----

  /** The step takes away or replaces the session `id`, or may: its own logout or rotation, or a bulk
      revocation of its user. */
  predicate Touches(w: World, s: Step, id: string, user: string) {
    match s
    case Logout(sessionId, _) => sessionId == id
    case LogoutAll(u) => u == user
    case RefreshRevoke(req) => Enabled(w, s) && w.requests[req].owner == user
    case RefreshRotate(req, _, _) => Enabled(w, s) && w.requests[req].token.sessionId == id
    case _ => false
  }

  lemma UntouchedLogin(w: World, s: Step, id: string)
    requires s.LoginCreate? && Enabled(w, s) && id in w.chains && id in w.store.sessions
    ensures var w' := Next(w, s); id in w'.store.sessions && w'.store.sessions[id] == w.store.sessions[id]
  {
  }

  lemma UntouchedRefresh(w: World, s: Step, id: string)
    requires s.RefreshRotate? && Enabled(w, s) && w.requests[s.req].token.sessionId != id && id in w.store.sessions
    ensures var w' := Next(w, s); id in w'.store.sessions && w'.store.sessions[id] == w.store.sessions[id]
  {
  }

  /** Indexes name only their user's sessions, so revoking one user's does not reach another's. */
  lemma UntouchedBulk(w: World, user: string, id: string)
    requires Pure(w.store, w.chains) && id in w.chains && w.chains[id].owner != user && id in w.store.sessions
    ensures id in DeleteAll(w.store, user).sessions && DeleteAll(w.store, user).sessions[id] == w.store.sessions[id]
    ensures forall u | u != user :: DeleteAll(w.store, user).Members(u) == w.store.Members(u)
  {
  }

  lemma UntouchedSession(w: World, s: Step, id: string)
    requires Enabled(w, s) && Pure(w.store, w.chains) && DbOk(w.db, w.users)
    requires id in w.chains && id in w.store.sessions && !Touches(w, s, id, w.chains[id].owner)
    ensures var w' := Next(w, s); id in w'.store.sessions && w'.store.sessions[id] == w.store.sessions[id]
  {
    if Quiet(s) {
      hide Next;
      QuietGrows(w, s);
    } else {
      hide Create, Rotate, DeleteAll, Pure;
      match s
      case LoginCreate(_, _, _, _, _) => UntouchedLogin(w, s, id);
      case RefreshRotate(_, _, _) => UntouchedRefresh(w, s, id);
      case RefreshRevoke(req) => UntouchedBulk(w, w.requests[req].owner, id);
      case LogoutAll(user) => UntouchedBulk(w, user, id);
      case Logout(_, _) =>
    }
  }

  lemma UntouchedStep(w: World, s: Step, id: string)
    requires Inv(w) && id in w.chains && id in w.store.sessions && !Touches(w, s, id, w.chains[id].owner)
    ensures var w' := Next(w, s);
            && id in w'.chains && w'.chains[id].owner == w.chains[id].owner
            && id in w'.store.sessions && w'.store.sessions[id] == w.store.sessions[id]
  {
    hide Next, RecordOk, IssuesOk, ChainOk, RequestOk, Touches, Pure, DbOk, Indexed;
    InvStep(w, s);
    assert ChainGrows(w.chains[id], Next(w, s).chains[id], w.seen);
    if Enabled(w, s) {
      UntouchedSession(w, s, id);
    } else {
      Stutter(w, s);
    }
  }

  /** No step of the run touches the session. */
  ghost predicate Undisturbed(w: World, steps: seq<Step>, id: string, user: string)
    decreases |steps|
  {
    steps != [] ==> !Touches(w, steps[0], id, user) && Undisturbed(Next(w, steps[0]), steps[1..], id, user)
  }

  lemma {:induction false} UndisturbedRun(w: World, steps: seq<Step>, id: string)
    requires Inv(w) && id in w.chains && id in w.store.sessions && Undisturbed(w, steps, id, w.chains[id].owner)
    ensures var w' := Run(w, steps); id in w'.store.sessions && w'.store.sessions[id] == w.store.sessions[id]
    decreases |steps|
  {
    hide Inv, Touches, Next;
    if steps == [] {
    } else {
      InvStep(w, steps[0]);
      UntouchedStep(w, steps[0], id);
      UndisturbedRun(Next(w, steps[0]), steps[1..], id);
    }
  }

  /** Over any run, whatever other sessions, users and requests do, a session keeps its record and
      deadline, and so lives exactly until that deadline, as long as nothing of its own happens to it. */
  lemma SessionsEndForTheirOwnReasons(w: World, steps: seq<Step>, id: string)
    requires Reachable(w) && w.store.Live(id)
    ensures id in w.chains
    ensures Undisturbed(w, steps, id, w.chains[id].owner) ==>
              var w' := Run(w, steps);
              && (w'.store.Live(id) <==> w'.store.now <= w.store.sessions[id].deadline)
              && (w'.store.Live(id) ==> w'.store.Get(id) == w.store.Get(id))
  {
    ReachableInv(w);
    if Undisturbed(w, steps, id, w.chains[id].owner) {
      UndisturbedRun(w, steps, id);
    }
  }

  /** A logout ends the named session only, of this user as of any other. */
  lemma LogoutSparesOthers(w: World, id: string, user: string)
    requires w.db != []
    ensures var w' := Next(w, Logout(id, user));
            && !w'.store.Live(id) && w'.store.now == w.store.now
            && (forall k | k != id :: w'.store.Get(k) == w.store.Get(k))
            && (forall u, k :: k in w'.store.Members(u) <==> k in w.store.Members(u) && !(u == user && k == id))
  {
  }

  /** The revocation that follows a missing user leaves every other user's sessions and index alone. */
  lemma RevokeSparesOthers(w: World, req: nat)
    requires Reachable(w) && req in w.requests && w.requests[req].UserMissing?
    ensures var w', user := Next(w, RefreshRevoke(req)), w.requests[req].owner;
            && (forall id | id in w.chains && w.chains[id].owner != user :: w'.store.Get(id) == w.store.Get(id))
            && (forall u | u != user :: w'.store.Members(u) == w.store.Members(u))
  {
    hide Reachable;
    ReachableHasTable(w);
    IndexCompleteAndPure(w);
    var w', user := Next(w, RefreshRevoke(req)), w.requests[req].owner;
    assert w'.store == DeleteAll(w.store, user);
    forall id | id in w.chains && w.chains[id].owner != user ensures w'.store.Get(id) == w.store.Get(id) {
      assert id !in w.store.Members(user);
    }
  }

  // ----- logins -----

  lemma NotYetStored(w: World, id: string)
    requires StoreOk(w) && id !in w.chains
    ensures id !in w.store.sessions
  {
  }

  /** A login's session write answers with the access token of the row it read, the refresh token of the new
      session and that row's public fields, and the session is there; or, once the cap is behind the
      repository's clock, with an error, and no session is. */
  lemma LoginMints(w: World, s: Step)
    requires Reachable(w) && Enabled(w, s) && s.LoginCreate?
    ensures var w', q, id := Next(w, s), w.requests[s.req], s.sessionId;
            && q.version < |w.db| && q.user in w.db[q.version] && q.row == w.db[q.version][q.user]
            && (if s.createNow < s.now + 2592000000 then
                  && w'.requests[s.req] == Finished(LoggedIn(
                       AccessToken(q.user, id, q.row.role), id + "." + s.validator,
                       UserPublic(q.user, q.row.name, q.row.username, q.row.email, q.row.role)))
                  && w'.store.Live(id) && w'.store.sessions[id].value.userId == q.user
                  && w'.store.sessions[id].value.refreshTokenHash == Digest(s.validator)
                  && id in w'.store.Members(q.user)
                  && w'.issues == w.issues + [Issue(s.req, AccessToken(q.user, id, q.row.role),
                                                    SplitToken(id, s.validator), 0, None)]
                else
                  && w'.requests[s.req] == Finished(ServerError) && !w'.store.Live(id) && w'.issues == w.issues)
            && (forall k | k != id :: w'.store.Get(k) == w.store.Get(k))
            && (forall u, k | k != id :: k in w'.store.Members(u) <==> k in w.store.Members(u))
  {
    hide Create, HistoryOk, StoreOk;
    ReachableInv(w);
    RequestHeld(w, s.req);
    var q := w.requests[s.req];
    NotYetStored(w, s.sessionId);
    CreateEffects(w.store, s.sessionId, NewRecord(q.user, q.row.role, Digest(s.validator), s.now), s.createNow);
  }

  // ----- refreshes -----

  /** What the first read of a refresh leads to: an unreadable token, or one whose session is not live, is
      refused; any other goes on, whatever its validator. Nothing but the request changes. */
  lemma FirstRead(w: World, req: nat, raw: string)
    requires w.db != [] && req !in w.requests
    ensures var w' := Next(w, RefreshGet(req, raw));
            && w'.store == w.store && w'.db == w.db && w'.chains == w.chains && w'.issues == w.issues
            && req in w'.requests
            && (raw == "" ==> w'.requests[req] == Finished(BadRequest))
            && (raw != "" && SplitRefreshToken(raw).None? ==> w'.requests[req] == Finished(Unauthorized))
            && (forall token | SplitRefreshToken(raw) == Some(token) ::
                  w'.requests[req] == if w.store.Live(token.sessionId)
                                      then SessionFound(token, w.store.sessions[token.sessionId].value.userId)
                                      else Finished(Unauthorized))
  {
    hide IndexOf;
  }

  /** What the second read leads to: the current row of the session's user, or its absence. */
  lemma SecondRead(w: World, req: nat)
    requires w.db != [] && req in w.requests && w.requests[req].SessionFound?
    ensures var w', q := Next(w, RefreshFindUser(req)), w.requests[req];
            && w'.store == w.store && w'.db == w.db && w'.chains == w.chains && w'.issues == w.issues
            && w'.requests == w.requests[req := if q.owner in Current(w.db)
                                                then UserFound(q.token, q.owner, Current(w.db)[q.owner], |w.db| - 1)
                                                else UserMissing(q.owner)]
  {
  }

  /** A refresh that names a live session of a user who is still there reaches the rotate script, with the
      token it was sent and the user's current row, whatever others do between its reads. */
  lemma RefreshReachesScript(w: World, req: nat, raw: string, token: SplitToken, env1: seq<Step>, env2: seq<Step>)
    requires Reachable(w) && req !in w.requests && SplitRefreshToken(raw) == Some(token)
    requires w.store.Live(token.sessionId) && Others(env1, req) && Others(env2, req)
    ensures token.sessionId in w.chains
    ensures var w1 := Run(Next(w, RefreshGet(req, raw)), env1); var owner := w.chains[token.sessionId].owner;
            var w2 := Run(Next(w1, RefreshFindUser(req)), env2);
            && w1.db != [] && req in w2.requests
            && w2.requests[req] == if owner in Current(w1.db)
                                   then UserFound(token, owner, Current(w1.db)[owner], |w1.db| - 1)
                                   else UserMissing(owner)
  {
    hide Next, Run, SplitRefreshToken, HistoryOk, StoreOk;
    ReachableInv(w);
    ReachableHasTable(w);
    RecordHeld(w, token.sessionId);
    var read := Next(w, RefreshGet(req, raw));
    FirstRead(w, req, raw);
    ReachableNext(w, RefreshGet(req, raw));
    RequestKept(read, env1, req);
    var w1 := Run(read, env1);
    ReachableRun(read, env1);
    ReachableHasTable(w1);
    SecondRead(w1, req);
    RequestKept(Next(w1, RefreshFindUser(req)), env2, req);
  }

  /** The reply that goes with each outcome of the script. */
  lemma RepliesByOutcome(w: World, s: Step)
    requires Enabled(w, s) && s.RefreshRotate?
    ensures var w', q, outcome := Next(w, s), w.requests[s.req], OutcomeOf(w, s);
            && s.req in w'.requests && w'.requests[s.req].Finished?
            && (outcome == Concurrent ==> w'.requests[s.req].reply == ConflictReply)
            && (outcome == Reused || outcome == Missing ==> w'.requests[s.req].reply == Unauthorized)
            && (outcome == Rotated ==>
                  w'.requests[s.req].reply == Refreshed(AccessToken(q.owner, q.token.sessionId, q.row.role),
                                                        q.token.sessionId + "." + s.validator))
  {
    hide Rotate;
  }

  /** So sending a token that is not the current one ends its session for good, from the first read of the
      refresh on and whatever others do between its awaits, outside the grace period of the last rotation. */
  lemma SendingAReplayEndsTheSession(w: World, req: nat, raw: string, token: SplitToken, env1: seq<Step>,
                                     env2: seq<Step>, validator: string, now: int, after: seq<Step>)
    requires Reachable(w) && req !in w.requests && SplitRefreshToken(raw) == Some(token)
    requires w.store.Live(token.sessionId) && Others(env1, req) && Others(env2, req)
    requires var w1 := Run(Next(w, RefreshGet(req, raw)), env1);
             w1.db != [] && token.sessionId in w.chains && w.chains[token.sessionId].owner in Current(w1.db)
    requires var w2 := Run(Next(Run(Next(w, RefreshGet(req, raw)), env1), RefreshFindUser(req)), env2);
             && Digest(validator) !in w2.seen && validator != "" && now <= w2.store.now
             && token.sessionId in w2.chains
             && Replays(w2.chains[token.sessionId], Digest(token.validator), now)
    ensures var w2 := Run(Next(Run(Next(w, RefreshGet(req, raw)), env1), RefreshFindUser(req)), env2);
            var w3 := Next(w2, RefreshRotate(req, validator, now));
            && !Run(w3, after).store.Live(token.sessionId)
            && (forall access: AccessToken | access.sessionId == token.sessionId ::
                  !Authenticate(Run(w3, after).store, access))
            && req in w3.requests && w3.requests[req] == Finished(Unauthorized)
  {
    hide Next, Run, SplitRefreshToken, HistoryOk, StoreOk, Replays, Authenticate, Rotate;
    RefreshReachesScript(w, req, raw, token, env1, env2);
    var w1 := Run(Next(w, RefreshGet(req, raw)), env1);
    var w2 := Run(Next(w1, RefreshFindUser(req)), env2);
    ReachableNext(w, RefreshGet(req, raw));
    ReachableRun(Next(w, RefreshGet(req, raw)), env1);
    ReachableNext(w1, RefreshFindUser(req));
    ReachableRun(Next(w1, RefreshFindUser(req)), env2);
    ReachableHasTable(w2);
    var s := RefreshRotate(req, validator, now);
    ReplayKillsSession(w2, s, after);
    PresenterOwns(w2, req);
    if w2.store.Live(token.sessionId) {
      ReplayIsReuse(w2, token.sessionId, ParamsOf(w2.requests[req], s));
    } else {
      RotateEffects(w2.store, token.sessionId, w2.requests[req].owner, ParamsOf(w2.requests[req], s));
    }
    RepliesByOutcome(w2, s);
  }

  lemma ChainHeld(w: World, id: string)
    requires HistoryOk(w) && id in w.chains
    ensures ChainOk(w.chains[id], w.store.now, w.db, w.seen)
  {
  }

  /** How a refresh that reaches the script is answered, by the presented token's place in its session's
      history: a new pair for the current token before the cap; a conflict for the one before it within 30 s of
      its rotation; a refusal for every other token, for the current one at the cap, and for a dead session. */
  ghost predicate RepliedByHistory(w: World, s: Step, reply: Reply)
    requires Enabled(w, s) && s.RefreshRotate?
  {
    var token := w.requests[s.req].token;
    && token.sessionId in w.chains && w.chains[token.sessionId].links != []
    && var c, live := w.chains[token.sessionId], w.store.Live(token.sessionId); var n := |c.links|;
       && (reply.Refreshed? <==> live && Digest(token.validator) == c.links[n - 1].digest && s.now < c.cap)
       && (reply == ConflictReply <==>
             && live && n >= 2 && Digest(token.validator) == c.links[n - 2].digest
             && s.now - c.links[n - 1].sampledAt <= 30000)
       && (reply.Refreshed? || reply == ConflictReply || reply == Unauthorized)
  }

  lemma RepliesByHistory(w: World, s: Step)
    requires Reachable(w) && Enabled(w, s) && s.RefreshRotate?
    ensures var w' := Next(w, s);
            && s.req in w'.requests && w'.requests[s.req].Finished?
            && RepliedByHistory(w, s, w'.requests[s.req].reply)
  {
    hide Rotate, Next, HistoryOk, StoreOk;
    ReachableInv(w);
    PresenterOwns(w, s.req);
    var q := w.requests[s.req];
    var id := q.token.sessionId;
    ChainHeld(w, id);
    RepliesByOutcome(w, s);
    if w.store.Live(id) {
      RotateDecidesByHistory(w, id, ParamsOf(q, s));
    } else {
      RotateEffects(w.store, id, q.owner, ParamsOf(q, s));
    }
  }

  // ----- authentication -----

  /** A token is admitted exactly while its session lives and belongs to the token's subject. */
  lemma OnlyTheOwnerAuthenticates(w: World, token: AccessToken)
    requires Reachable(w)
    ensures Authenticate(w.store, token) <==>
              && w.store.Live(token.sessionId) && token.sessionId in w.chains
              && w.chains[token.sessionId].owner == token.subject
  {
    IndexCompleteAndPure(w);
  }
}
