/** What happens to a user's sessions once the row is gone from the users table. */
module Deletion {
  import opened Domain
  import opened SessionStore
  import opened Protocol
  import opened Invariants
  import opened Theorems

  function RequestOf(s: Step): Option<nat> {
    match s
    case LoginRead(req, _) => Some(req)
    case LoginCreate(req, _, _, _, _) => Some(req)
    case RefreshGet(req, _) => Some(req)
    case RefreshFindUser(req) => Some(req)
    case RefreshRevoke(req) => Some(req)
    case RefreshRotate(req, _, _) => Some(req)
    case _ => None
  }

  predicate Others(steps: seq<Step>, req: nat) {
    forall s | s in steps :: RequestOf(s) != Some(req)
  }

  lemma RequestStep(w: World, s: Step, req: nat)
    requires RequestOf(s) != Some(req)
    ensures req in Next(w, s).requests <==> req in w.requests
    ensures req in w.requests ==> Next(w, s).requests[req] == w.requests[req]
  {
  }

  /** Between two awaits of one request, nothing the others do changes what it has captured. */
  lemma {:induction false} RequestKept(w: World, steps: seq<Step>, req: nat)
    requires Others(steps, req)
    ensures req in Run(w, steps).requests <==> req in w.requests
    ensures req in w.requests ==> Run(w, steps).requests[req] == w.requests[req]
    decreases |steps|
  {
    if steps == [] {
    } else {
      assert steps[0] in steps;
      RequestStep(w, steps[0], req);
      RequestKept(Next(w, steps[0]), steps[1..], req);
    }
  }

  /** Ids of deleted users are never inserted again. */
  ghost predicate Deleted(w: World, user: string) {
    w.db != [] && user in w.users && user !in Current(w.db)
  }

  /** The state of affairs any time after the user was found deleted in `w0`. */
  ghost predicate Winding(w0: World, w: World, user: string) {
    && Grows(w0, w) && Deleted(w, user)
    && (forall req | req in w.requests && w.requests[req].UserFound? && w.requests[req].owner == user ::
          req in w0.requests && w0.requests[req] == w.requests[req])
    && (forall id | id in w.chains && w.chains[id].owner == user ::
          |w.chains[id].links| <= if id in w0.chains then |w0.chains[id].links| + 1 else 1)
    && (forall i | |w0.issues| <= i < |w.issues| && w.issues[i].access.subject == user && w.issues[i].presented.Some? ::
          w.issues[i].req in w0.requests && w0.requests[w.issues[i].req].UserFound?)
  }

  lemma WindingRotate(w0: World, w: World, req: nat, user: string, q: Request)
    requires q.UserFound? && q.owner == user && req in w.requests && w.requests[req] == q
    requires HistoryOk(w0) && Winding(w0, w, user)
    requires q.token.sessionId in w.chains && w.chains[q.token.sessionId].links != []
    requires Last(w.chains[q.token.sessionId]).digest == Digest(q.token.validator)
    ensures req in w0.requests && w0.requests[req] == q && q.token.sessionId in w0.chains
    ensures |w.chains[q.token.sessionId].links| <= |w0.chains[q.token.sessionId].links|
  {
    assert RequestOk(q, w0.db, w0.chains, w0.seen);
    assert ChainGrows(w0.chains[q.token.sessionId], w.chains[q.token.sessionId], w0.seen);
  }

  /** No step but a successful rotation adds a link to a chain or logs an exchanged token. */
  lemma OtherStepMints(w: World, s: Step)
    requires Enabled(w, s) && (s.RefreshRotate? ==> OutcomeOf(w, s) != Rotated)
    ensures var w' := Next(w, s);
            && (forall id | id in w'.chains ::
                if id in w.chains then w'.chains[id] == w.chains[id] else |w'.chains[id].links| == 1)
            && w.issues <= w'.issues && forall i | |w.issues| <= i < |w'.issues| :: w'.issues[i].presented.None?
  {
  }

  /** No request can read a user that is gone. */
  lemma DeletedUnread(w: World, s: Step, user: string)
    requires Deleted(w, user)
    ensures Deleted(Next(w, s), user)
    ensures var w' := Next(w, s);
            forall req | req in w'.requests && w'.requests[req].UserFound? && w'.requests[req].owner == user ::
              req in w.requests && w.requests[req] == w'.requests[req]
  {
  }

  lemma WindingOtherStep(w0: World, w: World, s: Step, user: string)
    requires Winding(w0, w, user) && Enabled(w, s) && Grows(w0, Next(w, s))
    requires s.RefreshRotate? ==> OutcomeOf(w, s) != Rotated
    ensures Winding(w0, Next(w, s), user)
  {
    hide Next, Deleted, Grows, OutcomeOf, Enabled;
    OtherStepMints(w, s);
    DeletedUnread(w, s, user);
  }

  /** A link more for one chain, within the allowance, by a request already past its read in `w0`. */
  lemma WindingLinked(w0: World, w: World, w': World, id: string, req: nat, user: string)
    requires Winding(w0, w, user) && Grows(w0, w') && Links(w, w', id) && Logs(w, w', id)
    requires id in w.chains && |w'.chains[id].links| == |w.chains[id].links| + 1
    requires |w'.issues| == |w.issues| + 1 && w'.issues[|w.issues|].req == req
    requires w.chains[id].owner == user ==>
               && id in w0.chains && |w.chains[id].links| <= |w0.chains[id].links|
               && req in w0.requests && w0.requests[req].UserFound?
    ensures Winding(w0, w', user)
  {
  }

  lemma WindingRotateStep(w0: World, w: World, w': World, s: Step, user: string)
    requires Inv(w0) && Inv(w) && Winding(w0, w, user) && Enabled(w, s) && s.RefreshRotate?
    requires OutcomeOf(w, s) == Rotated && w' == AfterRefreshRotate(w, s) && Grows(w0, w')
    ensures Winding(w0, w', user)
  {
    hide AfterRefreshRotate, Winding, HistoryOk, StoreOk, Grows;
    RotatedFacts(w, s);
    if w.requests[s.req].owner == user {
      WindingRotate(w0, w, s.req, user, w.requests[s.req]);
    }
    RotatedLinks(w, s);
    RotatedLogs(w, s);
    RotatedShape(w, s);
    WindingLinked(w0, w, w', w.requests[s.req].token.sessionId, s.req, user);
  }

  lemma {:induction false} WindingRun(w0: World, w: World, steps: seq<Step>, user: string)
    requires Inv(w0) && Inv(w) && Winding(w0, w, user)
    ensures Winding(w0, Run(w, steps), user)
    decreases |steps|
  {
    if steps == [] {
    } else {
      var s := steps[0];
      InvStep(w, s);
      GrowsTransitive(w0, w, Next(w, s));
      if Enabled(w, s) {
        if s.RefreshRotate? && OutcomeOf(w, s) == Rotated {
          WindingRotateStep(w0, w, Next(w, s), s, user);
        } else {
          WindingOtherStep(w0, w, s, user);
        }
      }
      WindingRun(w0, Next(w, s), steps[1..], user);
    }
  }

  /** After the row of a user is gone, each of the user's sessions is rotated at most once more, a
      session created later not at all, and only by refreshes already past their user read. */
  lemma DeletedUserRotatesAtMostOnce(w0: World, steps: seq<Step>, user: string)
    requires Reachable(w0) && Deleted(w0, user)
    ensures var w := Run(w0, steps);
            && Deleted(w, user)
            && (forall id | id in w.chains && w.chains[id].owner == user ::
                  |w.chains[id].links| <= if id in w0.chains then |w0.chains[id].links| + 1 else 1)
            && |w0.issues| <= |w.issues|
            && (forall i | |w0.issues| <= i < |w.issues|
                           && w.issues[i].access.subject == user && w.issues[i].presented.Some? ::
                  w.issues[i].req in w0.requests && w0.requests[w.issues[i].req].UserFound?)
  {
    ReachableInv(w0);
    WindingRun(w0, w0, steps, user);
  }

  lemma MissedRead(w: World, req: nat)
    requires w.db != [] && req in w.requests && w.requests[req].SessionFound? && w.requests[req].owner !in Current(w.db)
    ensures Next(w, RefreshFindUser(req)).requests == w.requests[req := UserMissing(w.requests[req].owner)]
  {
  }

  lemma RevokeEnds(w: World, req: nat)
    requires Reachable(w) && w.db != [] && req in w.requests && w.requests[req].UserMissing?
    ensures var w' := Next(w, RefreshRevoke(req));
            && Revocable(w', w.requests[req].owner) == {}
            && req in w'.requests && w'.requests[req] == Finished(Unauthorized)
  {
    BulkRevoke(w, w.requests[req].owner);
    assert Revocable(Next(w, RefreshRevoke(req)), w.requests[req].owner)
        == Revocable(Next(w, LogoutAll(w.requests[req].owner)), w.requests[req].owner);
  }

  /** A refresh whose own read misses the user goes on, whatever happens in between, to end every
      live session of that user whose cap is ahead. */
  lemma MissingUserRevokesAll(w: World, req: nat, between: seq<Step>)
    requires Reachable(w) && req in w.requests && w.requests[req].SessionFound?
    requires w.db != [] && w.requests[req].owner !in Current(w.db) && Others(between, req)
    ensures var w1 := Run(Next(w, RefreshFindUser(req)), between); var w2 := Next(w1, RefreshRevoke(req));
            && Revocable(w2, w.requests[req].owner) == {}
            && req in w2.requests && w2.requests[req] == Finished(Unauthorized)
  {
    var read := Next(w, RefreshFindUser(req));
    MissedRead(w, req);
    ReachableNext(w, RefreshFindUser(req));
    ReachableRun(read, between);
    RequestKept(read, between, req);
    ReachableInv(Run(read, between));
    RevokeEnds(Run(read, between), req);
  }

  lemma OnlyLoginAddsChains(w: World, s: Step)
    ensures forall id | id in Next(w, s).chains && id !in w.chains ::
              s.LoginCreate? && Enabled(w, s) && Next(w, s).chains[id].owner == w.requests[s.req].user
  {
  }

  lemma NoLoginRead(w: World, s: Step, user: string)
    requires Deleted(w, user)
    requires forall req | req in w.requests :: w.requests[req].LoginVerified? ==> w.requests[req].user != user
    ensures forall req | req in Next(w, s).requests ::
              Next(w, s).requests[req].LoginVerified? ==> Next(w, s).requests[req].user != user
  {
  }

  lemma NothingRevocableStep(w: World, s: Step, user: string)
    requires Inv(w) && Revocable(w, user) == {}
    requires forall req | req in w.requests :: w.requests[req].LoginVerified? ==> w.requests[req].user != user
    ensures Revocable(Next(w, s), user) == {}
  {
    hide Next, HistoryOk, StoreOk;
    var w' := Next(w, s);
    InvStep(w, s);
    OnlyLoginAddsChains(w, s);
    if id :| id in Revocable(w', user) {
      assert id in w.chains && ChainGrows(w.chains[id], w'.chains[id], w.seen);
      assert id !in Revocable(w, user);
      DeadStep(w, s, id);
      assert false;
    }
  }

  /** Once that revocation has run and no login of the user is still past its user read, no session
      of the user with its cap ahead is ever live again. */
  lemma {:induction false} RevocationIsFinal(w: World, steps: seq<Step>, user: string)
    requires Reachable(w) && Deleted(w, user) && Revocable(w, user) == {}
    requires forall req | req in w.requests :: w.requests[req].LoginVerified? ==> w.requests[req].user != user
    ensures Revocable(Run(w, steps), user) == {}
    decreases |steps|
  {
    if steps == [] {
    } else {
      ReachableInv(w);
      DeletedUnread(w, steps[0], user);
      NoLoginRead(w, steps[0], user);
      NothingRevocableStep(w, steps[0], user);
      ReachableNext(w, steps[0]);
      RevocationIsFinal(Next(w, steps[0]), steps[1..], user);
    }
  }
}
