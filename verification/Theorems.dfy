/** What the protocol guarantees over every run. */
module Theorems {
  import opened Domain
  import opened SessionStore
  import opened Tokens
  import opened Protocol
  import opened Invariants

  // ----- refresh tokens and roles -----

  /** Single use: over a whole run no refresh token is exchanged for a new pair twice. */
  lemma SingleUse(w: World)
    requires Reachable(w)
    ensures forall i, j | 0 <= i < j < |w.issues| && w.issues[i].presented.Some? && w.issues[j].presented.Some? ::
              JoinRefreshToken(w.issues[i].presented.value) != JoinRefreshToken(w.issues[j].presented.value)
  {
    ReachableInv(w);
    forall i, j | 0 <= i < j < |w.issues| && w.issues[i].presented.Some? && w.issues[j].presented.Some?
      ensures JoinRefreshToken(w.issues[i].presented.value) != JoinRefreshToken(w.issues[j].presented.value)
    {
      var a, b := w.issues[i], w.issues[j];
      assert IssueOk(a, w.db, w.chains) && IssueOk(b, w.db, w.chains);
      assert a.presented.value != b.presented.value by {
        if a.refresh.sessionId == b.refresh.sessionId {
          assert ChainOk(w.chains[a.refresh.sessionId], w.store.now, w.db, w.seen);
        }
      }
      SplitInvertsJoin(JoinRefreshToken(a.presented.value), a.presented.value);
      SplitInvertsJoin(JoinRefreshToken(b.presented.value), b.presented.value);
    }
  }

  /** Every refresh token handed out splits back into the session it belongs to and the
      validator whose digest that session's chain holds. */
  lemma MintedTokensSplit(w: World)
    requires Reachable(w)
    ensures forall e | e in w.issues ::
              && SplitRefreshToken(JoinRefreshToken(e.refresh)) == Some(e.refresh)
              && e.refresh.sessionId in w.chains
              && exists k :: 0 <= k < |w.chains[e.refresh.sessionId].links|
                          && w.chains[e.refresh.sessionId].links[k].digest == Digest(e.refresh.validator)
  {
    ReachableInv(w);
    forall e | e in w.issues
      ensures SplitRefreshToken(JoinRefreshToken(e.refresh)) == Some(e.refresh)
      ensures e.refresh.sessionId in w.chains
      ensures exists k :: 0 <= k < |w.chains[e.refresh.sessionId].links|
                       && w.chains[e.refresh.sessionId].links[k].digest == Digest(e.refresh.validator)
    {
      assert IssueOk(e, w.db, w.chains);
      SplitInvertsJoin(JoinRefreshToken(e.refresh), e.refresh);
    }
  }

  function VersionOf(w: World, e: Issue): nat
    requires e.refresh.sessionId in w.chains && e.link < |w.chains[e.refresh.sessionId].links|
  {
    w.chains[e.refresh.sessionId].links[e.link].version
  }

  /** Each access token carries the role its subject had at the database version behind its link. */
  lemma RolesFromTheirVersions(w: World)
    requires Reachable(w)
    ensures forall e | e in w.issues ::
              && e.refresh.sessionId in w.chains && e.link < |w.chains[e.refresh.sessionId].links|
              && VersionOf(w, e) < |w.db| && e.access.subject in w.db[VersionOf(w, e)]
              && e.access.role == w.db[VersionOf(w, e)][e.access.subject].role
  {
    ReachableInv(w);
    forall e | e in w.issues ensures IssueOk(e, w.db, w.chains) {
    }
  }

  /** Roles never go backwards: in issue order, the access tokens of one session carry the roles of
      nondecreasing database versions. */
  lemma RolesNeverGoBack(w: World)
    requires Reachable(w)
    ensures forall e | e in w.issues ::
            e.refresh.sessionId in w.chains && e.link < |w.chains[e.refresh.sessionId].links|
    ensures forall i, j | 0 <= i < j < |w.issues| && w.issues[i].refresh.sessionId == w.issues[j].refresh.sessionId ::
              VersionOf(w, w.issues[i]) <= VersionOf(w, w.issues[j])
  {
    ReachableInv(w);
    RolesFromTheirVersions(w);
    forall i, j | 0 <= i < j < |w.issues| && w.issues[i].refresh.sessionId == w.issues[j].refresh.sessionId
      ensures VersionOf(w, w.issues[i]) <= VersionOf(w, w.issues[j])
    {
      assert w.issues[i] in w.issues && w.issues[j] in w.issues;
      assert ChainOk(w.chains[w.issues[i].refresh.sessionId], w.store.now, w.db, w.seen);
    }
  }

  lemma NewestIsLatest(slot: Slot<SessionRecord>, c: Chain, e: Issue, w: World)
    requires e.refresh.sessionId in w.chains && c == w.chains[e.refresh.sessionId]
    requires RecordOk(slot, c, w.store.now, w.db, w.seen) && IssueOk(e, w.db, w.chains)
    ensures VersionOf(w, e) <= Last(c).version < |w.db| && c.owner in w.db[Last(c).version]
    ensures slot.value.role == w.db[Last(c).version][c.owner].role
  {
    assert Last(c) == c.links[|c.links| - 1];
  }

  /** A live session stores the role of its newest link's version, which no token of it postdates. */
  lemma StoredRoleIsNewest(w: World, id: string, e: Issue)
    requires Reachable(w) && w.store.Live(id) && e in w.issues && e.refresh.sessionId == id
    ensures id in w.chains && w.chains[id].links != [] && e.link < |w.chains[id].links|
    ensures var newest := Last(w.chains[id]);
            && VersionOf(w, e) <= newest.version < |w.db| && w.chains[id].owner in w.db[newest.version]
            && w.store.sessions[id].value.role == w.db[newest.version][w.chains[id].owner].role
  {
    ReachableInv(w);
    NewestIsLatest(w.store.sessions[id], w.chains[id], e, w);
  }

  /** The pair a refresh returns carries the role that this very request read, at the version it read. */
  lemma RefreshMintsItsOwnRead(w: World, s: Step)
    requires Reachable(w) && Enabled(w, s) && s.RefreshRotate? && OutcomeOf(w, s) == Rotated
    ensures var w', q := Next(w, s), w.requests[s.req];
            && q.version < |w.db| && q.owner in w.db[q.version]
            && w'.requests[s.req] == Finished(Refreshed(
                 AccessToken(q.owner, q.token.sessionId, w.db[q.version][q.owner].role),
                 q.token.sessionId + "." + s.validator))
            && |w'.issues| == |w.issues| + 1
            && w'.issues[|w.issues|].presented == Some(q.token)
            && w'.issues[|w.issues|].refresh == SplitToken(q.token.sessionId, s.validator)
            && q.token.sessionId in w'.chains && w'.issues[|w.issues|].link < |w'.chains[q.token.sessionId].links|
            && VersionOf(w', w'.issues[|w.issues|]) == q.version
  {
    ReachableInv(w);
    RotatedFacts(w, s);
  }

  /** `e` is the log entry behind a request's reply. */
  predicate Answers(e: Issue, req: nat, reply: Reply) {
    e.req == req && e.presented.Some? && reply == Refreshed(e.access, JoinRefreshToken(e.refresh))
  }

  ghost predicate RepliesLogged(w: World) {
    forall req | req in w.requests && w.requests[req].Finished? && w.requests[req].reply.Refreshed? ::
      exists e | e in w.issues :: Answers(e, req, w.requests[req].reply)
  }

  /** The last entry of the log is the one a successful rotation adds. */
  lemma RotationAnswers(w: World, s: Step)
    requires Winning(w, s)
    ensures var w' := Next(w, s);
            && w'.issues == w.issues + [w'.issues[|w.issues|]]
            && Answers(w'.issues[|w.issues|], s.req, w'.requests[s.req].reply)
            && w'.issues[|w.issues|].presented == Some(w.requests[s.req].token)
            && w'.requests == w.requests[s.req := w'.requests[s.req]]
  {
  }

  lemma OtherReplies(w: World, s: Step)
    requires s.RefreshRotate? && Enabled(w, s) ==> OutcomeOf(w, s) != Rotated
    ensures w.issues <= Next(w, s).issues
    ensures var w' := Next(w, s);
            forall req | req in w'.requests && w'.requests[req].Finished? && w'.requests[req].reply.Refreshed? ::
              req in w.requests && w.requests[req] == w'.requests[req]
  {
  }

  lemma RepliesStep(w: World, s: Step)
    requires Inv(w) && RepliesLogged(w)
    ensures RepliesLogged(Next(w, s))
  {
    hide Next, HistoryOk, StoreOk, Answers;
    var w' := Next(w, s);
    if Enabled(w, s) && s.RefreshRotate? && OutcomeOf(w, s) == Rotated {
      RotatedFacts(w, s);
      RotationAnswers(w, s);
      assert w'.issues[|w.issues|] in w'.issues;
    } else {
      OtherReplies(w, s);
    }
    forall req | req in w'.requests && w'.requests[req].Finished? && w'.requests[req].reply.Refreshed?
      ensures exists e | e in w'.issues :: Answers(e, req, w'.requests[req].reply)
    {
      if req in w.requests && w.requests[req] == w'.requests[req] {
        var e :| e in w.issues && Answers(e, req, w.requests[req].reply);
        assert e in w'.issues;
      }
    }
  }

  predicate Presenting(q: Request) {
    q.SessionFound? || q.UserFound?
  }

  /** A refresh in flight, and every exchange in the log, presents the token its request was sent. */
  ghost predicate Sent(w: World) {
    && w.sent.Keys <= w.requests.Keys
    && (forall req | req in w.requests && Presenting(w.requests[req]) ::
          req in w.sent && SplitRefreshToken(w.sent[req]) == Some(w.requests[req].token))
    && (forall e | e in w.issues && e.presented.Some? ::
          e.req in w.sent && SplitRefreshToken(w.sent[e.req]) == e.presented)
  }

  /** Only the two reads of a refresh leave it presenting a token. */
  lemma OthersPresentNothing(w: World, s: Step)
    requires !s.RefreshGet? && !s.RefreshFindUser?
    ensures var w' := Next(w, s);
            && w'.sent == w.sent && w.requests.Keys <= w'.requests.Keys
            && forall req | req in w'.requests && Presenting(w'.requests[req]) ::
                 req in w.requests && w'.requests[req] == w.requests[req]
  {
  }

  lemma ReadsPresent(w: World, s: Step)
    requires Enabled(w, s) && (s.RefreshGet? || s.RefreshFindUser?)
    ensures var w' := Next(w, s);
            && s.req in w'.requests && w'.requests == w.requests[s.req := w'.requests[s.req]]
            && w'.sent == (if s.RefreshGet? then w.sent[s.req := s.raw] else w.sent)
            && (Presenting(w'.requests[s.req]) ==>
                  if s.RefreshGet? then SplitRefreshToken(s.raw) == Some(w'.requests[s.req].token)
                  else w'.requests[s.req].token == w.requests[s.req].token)
  {
    hide SplitRefreshToken;
  }

  lemma ExchangesSent(w: World, s: Step)
    ensures var w' := Next(w, s);
            forall e | e in w'.issues && e.presented.Some? ::
              || e in w.issues
              || (e.req in w.requests && Presenting(w.requests[e.req])
                  && e.presented == Some(w.requests[e.req].token))
  {
    hide SplitRefreshToken;
    forall e | e in Next(w, s).issues ensures e in w.issues || e == Next(w, s).issues[|w.issues|] {
    }
  }

  lemma Stutter(w: World, s: Step)
    requires !Enabled(w, s)
    ensures Next(w, s) == w
  {
  }

  lemma SentStep(w: World, s: Step)
    requires Sent(w)
    ensures Sent(Next(w, s))
  {
    hide Next, SplitRefreshToken;
    ExchangesSent(w, s);
    if !s.RefreshGet? && !s.RefreshFindUser? {
      OthersPresentNothing(w, s);
    } else if Enabled(w, s) {
      ReadsPresent(w, s);
    } else {
      Stutter(w, s);
    }
  }

  lemma {:induction false} LogRun(w: World, steps: seq<Step>)
    requires Inv(w) && RepliesLogged(w) && Sent(w)
    ensures RepliesLogged(Run(w, steps)) && Sent(Run(w, steps))
    decreases |steps|
  {
    if steps == [] {
    } else {
      RepliesStep(w, steps[0]);
      SentStep(w, steps[0]);
      InvStep(w, steps[0]);
      LogRun(Next(w, steps[0]), steps[1..]);
    }
  }

  lemma ReachableLog(w: World)
    requires Reachable(w)
    ensures RepliesLogged(w) && Sent(w)
  {
    var start: int, steps: seq<Step> :| w == Run(Init(start), steps);
    LogRun(Init(start), steps);
  }

  /** So it is for the clients: no two refresh requests that were sent the same string are both
      answered with a new pair. */
  lemma NoTwoPairsForOneToken(w: World, req1: nat, req2: nat)
    requires Reachable(w) && req1 != req2 && req1 in w.requests && req2 in w.requests
    requires w.requests[req1].Finished? && w.requests[req1].reply.Refreshed?
    requires w.requests[req2].Finished? && w.requests[req2].reply.Refreshed?
    ensures req1 in w.sent && req2 in w.sent && w.sent[req1] != w.sent[req2]
  {
    hide Run, SplitRefreshToken;
    ReachableLog(w);
    var e1 :| e1 in w.issues && Answers(e1, req1, w.requests[req1].reply);
    var e2 :| e2 in w.issues && Answers(e2, req2, w.requests[req2].reply);
    SingleUse(w);
    var i :| 0 <= i < |w.issues| && w.issues[i] == e1;
    var j :| 0 <= j < |w.issues| && w.issues[j] == e2;
    assert i != j;
  }

  /** What rotate should answer, judged by the whole token history: `k` is the presented
      digest's position in it. */
  function DecideAt(c: Chain, k: nat, now: int): RotateOutcome
    requires k < |c.links|
  {
    if k == |c.links| - 1 then if now < c.cap then Rotated else Missing
    else if k == |c.links| - 2 && now - Last(c).sampledAt <= 30000 then Concurrent
    else Reused
  }

  lemma SummaryDecides(st: Store, id: string, c: Chain, db: seq<map<string, UserRow>>, p: RotateParams)
    requires st.Live(id) && c.links != [] && Last(c).version < |db| && c.owner in db[Last(c).version]
    requires Summarises(st.sessions[id].value, c, db)
    requires forall i, j | 0 <= i < j < |c.links| :: c.links[i].digest != c.links[j].digest
    ensures var outcome := Rotate(st, id, c.owner, p).1;
            && (forall k | 0 <= k < |c.links| && c.links[k].digest == p.presentedHash ::
                outcome == DecideAt(c, k, p.now))
            && ((forall k | 0 <= k < |c.links| :: c.links[k].digest != p.presentedHash) ==> outcome == Reused)
  {
  }

  /** The record's two digests are enough: rotate decides as if it saw the session's whole token
      history, by the position of the presented digest in it; a digest outside the history is reuse. */
  lemma RotateDecidesByHistory(w: World, id: string, p: RotateParams)
    requires Reachable(w) && w.store.Live(id)
    ensures id in w.chains && w.chains[id].links != []
    ensures var c := w.chains[id]; var outcome := Rotate(w.store, id, c.owner, p).1;
            && (forall k | 0 <= k < |c.links| && c.links[k].digest == p.presentedHash ::
                outcome == DecideAt(c, k, p.now))
            && ((forall k | 0 <= k < |c.links| :: c.links[k].digest != p.presentedHash) ==> outcome == Reused)
  {
    ReachableInv(w);
    assert RecordOk(w.store.sessions[id], w.chains[id], w.store.now, w.db, w.seen);
    SummaryDecides(w.store, id, w.chains[id], w.db, p);
  }

  /** Concurrent changes nothing; rotated replaces this session's record only and keeps it live;
      reused and missing remove this session, and nothing else, from the store and its index. */
  lemma RotateEffects(st: Store, id: string, user: string, p: RotateParams)
    ensures var (st', outcome) := Rotate(st, id, user, p);
            && (outcome == Concurrent ==> st' == st)
            && (!st.Live(id) ==> outcome == Missing && st' == st)
            && (outcome == Rotated ==> st'.Live(id) && st'.sessions[id].value.refreshTokenHash == p.newHash
                                       && st' == st.(sessions := st.sessions[id := st'.sessions[id]]))
            && (outcome == Reused || outcome == Missing ==>
                  && !st'.Live(id) && st'.now == st.now
                  && (forall k | k != id :: st'.Get(k) == st.Get(k))
                  && (st.Live(id) ==> id !in st'.Members(user))
                  && (forall u, k | k != id || u != user :: k in st'.Members(u) <==> k in st.Members(u)))
  {
  }

  // ----- death -----

  lemma DeadStep(w: World, s: Step, id: string)
    requires id in w.chains && !w.store.Live(id)
    ensures id in Next(w, s).chains && !Next(w, s).store.Live(id)
    ensures w.issues <= Next(w, s).issues
            && forall e | e in Next(w, s).issues[|w.issues|..] :: e.refresh.sessionId != id
  {
  }

  /** Dead stays dead: once a session is gone, no continuation of the run revives it, mints another
      pair for it, or lets a request naming it through authentication. */
  lemma {:induction false} DeadStaysDead(w: World, steps: seq<Step>, id: string)
    requires id in w.chains && !w.store.Live(id)
    ensures var w' := Run(w, steps);
            && id in w'.chains && !w'.store.Live(id)
            && (forall token: AccessToken | token.sessionId == id :: !Authenticate(w'.store, token))
            && w.issues <= w'.issues && forall e | e in w'.issues[|w.issues|..] :: e.refresh.sessionId != id
    decreases |steps|
  {
    if steps == [] {
    } else {
      DeadStep(w, steps[0], id);
      var w1, w' := Next(w, steps[0]), Run(w, steps);
      DeadStaysDead(w1, steps[1..], id);
      assert w'.issues[|w.issues|..] == w'.issues[|w.issues|..|w1.issues|] + w'.issues[|w1.issues|..];
      assert w'.issues[|w.issues|..|w1.issues|] == w1.issues[|w.issues|..];
    }
  }

  /** The request presents neither the chain's last digest nor, within the grace period of the last
      rotation, the one before it. */
  ghost predicate Replays(c: Chain, presented: Digest, now: int) {
    && c.links != [] && presented != Last(c).digest
    && (now - Last(c).sampledAt > REFRESH_GRACE_PERIOD_MS || |c.links| < 2
        || presented != c.links[|c.links| - 2].digest)
  }

  lemma ReplayIsReuse(w: World, id: string, p: RotateParams)
    requires Reachable(w) && w.store.Live(id) && id in w.chains && Replays(w.chains[id], p.presentedHash, p.now)
    ensures Rotate(w.store, id, w.chains[id].owner, p).1 == Reused
  {
    hide Rotate;
    RotateDecidesByHistory(w, id, p);
    var c := w.chains[id];
    if k :| 0 <= k < |c.links| && c.links[k].digest == p.presentedHash {
      assert DecideAt(c, k, p.now) == Reused;
    }
  }

  lemma ReplayEnds(w: World, s: Step)
    requires Enabled(w, s) && s.RefreshRotate?
    requires w.store.Live(w.requests[s.req].token.sessionId) ==> OutcomeOf(w, s) == Reused
    ensures !Next(w, s).store.Live(w.requests[s.req].token.sessionId) && Next(w, s).issues == w.issues
    ensures Next(w, s).chains == w.chains
  {
  }

  /** A request past its user read presents a token of a session that belongs to the user it read. */
  lemma PresenterOwns(w: World, req: nat)
    requires Reachable(w) && req in w.requests && w.requests[req].UserFound?
    ensures var q := w.requests[req]; q.token.sessionId in w.chains && w.chains[q.token.sessionId].owner == q.owner
  {
    ReachableInv(w);
    RequestHeld(w, req);
  }

  /** Replaying a token that is not the current one, outside the grace period of the last
      rotation, kills the whole session for good. */
  lemma ReplayKillsSession(w: World, s: Step, steps: seq<Step>)
    requires Reachable(w) && Enabled(w, s) && s.RefreshRotate?
    requires var token := w.requests[s.req].token;
             token.sessionId in w.chains && Replays(w.chains[token.sessionId], Digest(token.validator), s.now)
    ensures var id, w' := w.requests[s.req].token.sessionId, Run(Next(w, s), steps);
            && !w'.store.Live(id)
            && (forall token: AccessToken | token.sessionId == id :: !Authenticate(w'.store, token))
            && w.issues <= w'.issues && forall e | e in w'.issues[|w.issues|..] :: e.refresh.sessionId != id
  {
    hide Replays, Rotate, Next, HistoryOk, StoreOk, Run, Authenticate;
    var q := w.requests[s.req];
    PresenterOwns(w, s.req);
    if w.store.Live(q.token.sessionId) {
      ReplayIsReuse(w, q.token.sessionId, ParamsOf(q, s));
    }
    ReplayEnds(w, s);
    DeadStaysDead(Next(w, s), steps, q.token.sessionId);
  }

  lemma ReachableHasTable(w: World)
    requires Reachable(w)
    ensures w.db != []
  {
    ReachableInv(w);
  }

  /** Deleting a session takes it and its index entry, and touches nothing else. */
  lemma DeleteEffects(st: Store, id: string, user: string)
    ensures var st' := Delete(st, id, user);
            && !st'.Live(id) && id !in st'.Members(user) && st'.now == st.now
            && (forall k | k != id :: st'.Get(k) == st.Get(k))
            && (forall u, k | k != id || u != user :: k in st'.Members(u) <==> k in st.Members(u))
  {
  }

  /** Logging out ends the named session for good, even for a refresh already past its reads. */
  lemma LogoutIsFinal(w: World, id: string, user: string, steps: seq<Step>)
    requires Reachable(w) && id in w.chains
    ensures var w' := Run(Next(w, Logout(id, user)), steps);
            && !w'.store.Live(id)
            && w.issues <= w'.issues && forall e | e in w'.issues[|w.issues|..] :: e.refresh.sessionId != id
  {
    ReachableHasTable(w);
    DeadStaysDead(Next(w, Logout(id, user)), steps, id);
  }

  // ----- the per-user index -----

  /** Each live session whose cap is ahead is in its owner's live index, and an index names only
      sessions created for its user. */
  lemma IndexCompleteAndPure(w: World)
    requires Reachable(w)
    ensures forall id | w.store.Live(id) :: id in w.chains && w.store.sessions[id].value.userId == w.chains[id].owner
    ensures forall id | w.store.Live(id) && w.store.now < w.chains[id].cap :: id in w.store.Members(w.chains[id].owner)
    ensures forall u: string, id | id in w.store.Members(u) :: id in w.chains && w.chains[id].owner == u
  {
    ReachableInv(w);
    forall id | w.store.Live(id)
      ensures id in w.chains && w.store.sessions[id].value.userId == w.chains[id].owner
      ensures w.store.now < w.chains[id].cap ==> id in w.store.Members(w.chains[id].owner)
    {
      assert RecordOk(w.store.sessions[id], w.chains[id], w.store.now, w.db, w.seen);
      assert Indexed(w.store, id);
    }
  }

  /** The user's sessions that bulk revocation promises to end. */
  function Revocable(w: World, user: string): set<string> {
    set id | id in w.store.sessions && w.store.Live(id) && id in w.chains && w.chains[id].owner == user
        && w.store.now < w.chains[id].cap
  }

  lemma SubsetCount<T>(a: set<T>, b: set<T>)
    requires a <= b
    ensures |a| <= |b|
  {
    assert b == a + (b - a);
  }

  /** Bulk revocation ends every live session of the user whose cap is ahead, reports at least
      that many, and leaves every other user's sessions and index as they were. */
  lemma BulkRevoke(w: World, user: string)
    requires Reachable(w)
    ensures var w' := Next(w, LogoutAll(user));
            && Revocable(w', user) == {} && (forall id | id in Revocable(w, user) :: !w'.store.Live(id))
            && |Revocable(w, user)| <= |w.store.Members(user)|
            && (forall id | id in w.store.sessions && id in w.chains && w.chains[id].owner != user ::
                  id in w'.store.sessions && w'.store.sessions[id] == w.store.sessions[id])
            && (forall u | u != user :: w'.store.Members(u) == w.store.Members(u))
  {
    ReachableHasTable(w);
    IndexCompleteAndPure(w);
    SubsetCount(Revocable(w, user), w.store.Members(user));
    var w' := Next(w, LogoutAll(user));
    assert forall id | id in w'.store.sessions ::
        id in w.store.sessions && w'.store.sessions[id] == w.store.sessions[id];
  }

  lemma BulkRevokeEnds(w: World, user: string, id: string)
    requires Reachable(w) && id in w.chains && w.chains[id].owner == user && w.store.now < w.chains[id].cap
    ensures !Next(w, LogoutAll(user)).store.Live(id)
  {
    BulkRevoke(w, user);
    assert w.store.Live(id) ==> id in Revocable(w, user);
  }

  /** A genuine access token authenticates exactly while its session lives. */
  lemma MintedTokensAuthenticate(w: World, e: Issue)
    requires Reachable(w) && e in w.issues
    ensures Authenticate(w.store, e.access) <==> w.store.Live(e.access.sessionId)
  {
    ReachableInv(w);
    assert IssueOk(e, w.db, w.chains);
    if w.store.Live(e.access.sessionId) {
      assert RecordOk(w.store.sessions[e.access.sessionId], w.chains[e.access.sessionId], w.store.now, w.db, w.seen);
    }
  }

  // ----- lifetimes -----

  /** Every stored session has the owner, creation time and cap it was created with; the TTL it is
      stored with lies between one second and seven days; it cannot outlive its cap by a second more than
      the delay between the sample and the script; and no rotation was sampled at or past its cap. */
  lemma LifetimeBounds(w: World, id: string)
    requires Reachable(w) && id in w.store.sessions
    ensures id in w.chains && w.chains[id].links != []
    ensures var c, slot := w.chains[id], w.store.sessions[id]; var newest := Last(c);
            && slot.value.userId == c.owner && slot.value.createdAt == c.createdAt
            && slot.value.absoluteExpiresAt == c.cap
            && c.cap == c.createdAt + 2592000000
            && newest.executedAt + 1000 <= slot.deadline <= newest.executedAt + 604800000
            && slot.deadline < c.cap + 1000 + (newest.executedAt - newest.sampledAt)
            && slot.value.expiresAt < c.cap + 1000
            && (if |c.links| == 1 then slot.value.expiresAt == c.createdAt + 604800000
                else slot.value.expiresAt - newest.sampledAt == slot.deadline - newest.executedAt)
            && (forall i | 1 <= i < |c.links| :: c.links[i].sampledAt < c.cap)
  {
    ReachableInv(w);
    assert RecordOk(w.store.sessions[id], w.chains[id], w.store.now, w.db, w.seen);
  }

  lemma LifetimeFixed(w: World, steps: seq<Step>, id: string)
    requires Reachable(w) && w.store.Live(id) && Run(w, steps).store.Live(id)
    ensures var r, r' := w.store.sessions[id].value, Run(w, steps).store.sessions[id].value;
            r'.userId == r.userId && r'.createdAt == r.createdAt && r'.absoluteExpiresAt == r.absoluteExpiresAt
  {
    ReachableInv(w);
    InvRun(w, steps);
    var w' := Run(w, steps);
    assert RecordOk(w.store.sessions[id], w.chains[id], w.store.now, w.db, w.seen);
    assert RecordOk(w'.store.sessions[id], w'.chains[id], w'.store.now, w'.db, w'.seen);
    assert ChainGrows(w.chains[id], w'.chains[id], w.seen);
  }

  /** How far past its cap a rotated session's key is written to last, when `remaining` ms are left until
      the cap at the sample and the script runs `lag` ms after it: the TTL is rounded up to seconds. */
  function Overshoot(remaining: int, lag: int): int {
    var idle := SESSION_IDLE_TTL_SECONDS * 1000;
    lag + if remaining <= idle then (-remaining) % 1000 else idle - remaining
  }

  lemma KeyOutlivesCap(st: Store, id: string, user: string, p: RotateParams)
    requires Rotate(st, id, user, p).1 == Rotated && p.now <= st.now
    ensures var cap, key := st.sessions[id].value.absoluteExpiresAt, Rotate(st, id, user, p).0.sessions[id].deadline;
            var remaining, lag, idle := cap - p.now, st.now - p.now, SESSION_IDLE_TTL_SECONDS * 1000;
            && key == cap + Overshoot(remaining, lag)
            && (key > cap <==> if remaining <= idle then lag > 0 || remaining % 1000 != 0 else lag > remaining - idle)
  {
  }
}
