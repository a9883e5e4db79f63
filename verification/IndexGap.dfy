/** When the index of a user outlives every session in it, as bulk revocation needs: exactly as long as
    no rotation writes a key that lasts longer, which the rounded-up TTL of a late one can. */
module IndexGap {
  import opened Domain
  import opened SessionStore
  import opened Tokens
  import opened Protocol
  import opened Invariants
  import opened Theorems

  /** The session's owner has an index that names it and lasts at least as long as its key. */
  ghost predicate Covered(st: Store, id: string) {
    && id in st.sessions
    && var slot := st.sessions[id];
       && slot.value.userId in st.indexes
       && id in st.indexes[slot.value.userId].value
       && slot.deadline <= st.indexes[slot.value.userId].deadline
  }

  ghost predicate AllCovered(st: Store) {
    forall id | st.Live(id) :: Covered(st, id)
  }

  /** The owner's index lasts beyond the cap by at least the overshoot of the rotation `s`. */
  predicate Reaches(w: World, s: Step)
    requires Enabled(w, s) && s.RefreshRotate? && w.requests[s.req].token.sessionId in w.store.sessions
  {
    var q := w.requests[s.req];
    var cap := w.store.sessions[q.token.sessionId].value.absoluteExpiresAt;
    q.owner in w.store.indexes && Overshoot(cap - s.now, w.store.now - s.now) <= w.store.indexes[q.owner].deadline - cap
  }

  lemma KeyCovered(st: Store, id: string, user: string, p: RotateParams)
    requires Rotate(st, id, user, p).1 == Rotated && p.now <= st.now && st.sessions[id].value.userId == user
    ensures var cap := st.sessions[id].value.absoluteExpiresAt;
            Covered(Rotate(st, id, user, p).0, id) <==>
              && user in st.indexes && id in st.indexes[user].value
              && Overshoot(cap - p.now, st.now - p.now) <= st.indexes[user].deadline - cap
  {
    KeyOutlivesCap(st, id, user, p);
  }

  /** A successful rotation leaves its session covered exactly when the index names it and reaches far
      enough. While the cap is ahead the index does name it, and lasts to the cap or beyond; for a
      script that runs at or past the cap neither is certain. */
  lemma RotationCovers(w: World, s: Step)
    requires Reachable(w) && Enabled(w, s) && s.RefreshRotate? && OutcomeOf(w, s) == Rotated
    ensures var q := w.requests[s.req]; var id := q.token.sessionId;
            && id in w.store.sessions && w.store.sessions[id].value.userId == q.owner
            && (Covered(Next(w, s).store, id) <==> Reaches(w, s) && id in w.store.indexes[q.owner].value)
            && (w.store.now < w.store.sessions[id].value.absoluteExpiresAt ==>
                  && q.owner in w.store.indexes && id in w.store.indexes[q.owner].value
                  && w.store.sessions[id].value.absoluteExpiresAt <= w.store.indexes[q.owner].deadline)
  {
    hide Rotate, HistoryOk, ChainOk, DeadlinesOk, Overshoot, Covered;
    ReachableInv(w);
    RotatedFacts(w, s);
    RotatedShape(w, s);
    var q := w.requests[s.req];
    KeyCovered(w.store, q.token.sessionId, q.owner, ParamsOf(q, s));
    assert Indexed(w.store, q.token.sessionId);
  }

  /** A rotation whose key outlasts the index. */
  ghost predicate Late(w: World, s: Step) {
    Enabled(w, s) && s.RefreshRotate? && OutcomeOf(w, s) == Rotated && !Reaches(w, s)
  }

  lemma OneReplaced(st: Store, st': Store, id: string)
    requires AllCovered(st) && st'.Live(id) && st' == st.(sessions := st.sessions[id := st'.sessions[id]])
    ensures AllCovered(st') <==> Covered(st', id)
  {
    forall k | k != id && st'.Live(k) ensures Covered(st', k) {
      assert st.Live(k);
    }
  }

  lemma AllCoveredAt(st: Store, id: string)
    requires AllCovered(st) && st.Live(id)
    ensures Covered(st, id)
  {
  }

  lemma RotatedCovered(w: World, s: Step)
    requires Reachable(w) && AllCovered(w.store) && Enabled(w, s) && s.RefreshRotate? && OutcomeOf(w, s) == Rotated
    ensures AllCovered(Next(w, s).store) <==> !Late(w, s)
  {
    hide Rotate, Reaches, HistoryOk, StoreOk, RecordOk, AllCovered;
    ReachableInv(w);
    RotatedFacts(w, s);
    RotationCovers(w, s);
    RotatedShape(w, s);
    var q := w.requests[s.req];
    RotateEffects(w.store, q.token.sessionId, q.owner, ParamsOf(q, s));
    OneReplaced(w.store, Next(w, s).store, q.token.sessionId);
    AllCoveredAt(w.store, q.token.sessionId);
  }

  /** Logging in pushes the index past the key of every session in it. */
  lemma CreateCovers(st: Store, id: string, record: SessionRecord, sampled: int)
    requires AllCovered(st) && id !in st.sessions
    requires forall k | k in st.sessions :: st.sessions[k].deadline <= st.now + SESSION_IDLE_TTL_SECONDS * 1000
    ensures AllCovered(Create(st, id, record, sampled).0)
  {
    var st' := Create(st, id, record, sampled).0;
    forall k | st'.Live(k) ensures Covered(st', k) {
      assert k != id ==> st.Live(k);
    }
  }

  lemma KeysNear(w: World)
    requires Reachable(w)
    ensures forall id | id in w.store.sessions ::
              id in w.chains && w.store.sessions[id].deadline <= w.store.now + SESSION_IDLE_TTL_SECONDS * 1000
  {
    ReachableInv(w);
  }

  lemma LoginCovered(w: World, s: Step)
    requires Reachable(w) && AllCovered(w.store) && Enabled(w, s) && s.LoginCreate?
    ensures AllCovered(Next(w, s).store)
  {
    hide Create, AllCovered;
    KeysNear(w);
    var q := w.requests[s.req];
    CreateCovers(w.store, s.sessionId, NewRecord(q.user, q.row.role, Digest(s.validator), s.now), s.createNow);
  }

  lemma ShrunkCovered(st: Store, st': Store)
    requires AllCovered(st) && Shrinks(st, st')
    ensures AllCovered(st')
  {
    forall id | st'.Live(id) ensures Covered(st', id) {
      assert st.Live(id);
    }
  }

  lemma RemovalShrinks(w: World, s: Step)
    requires Enabled(w, s) && !Quiet(s) && !s.LoginCreate? && (s.RefreshRotate? ==> OutcomeOf(w, s) != Rotated)
    ensures Shrinks(w.store, Next(w, s).store)
  {
    match s
    case RefreshRevoke(req) => DeleteAllShrinks(w.store, w.requests[req].owner);
    case Logout(sessionId, user) => DeleteShrinks(w.store, sessionId, user);
    case LogoutAll(user) => DeleteAllShrinks(w.store, user);
    case RefreshRotate(req, _, _) =>
      var q := w.requests[req];
      LosingShrinks(w.store, q.token.sessionId, q.owner, ParamsOf(q, s));
  }

  lemma CoveredStep(w: World, s: Step)
    requires Reachable(w) && AllCovered(w.store)
    ensures AllCovered(Next(w, s).store) <==> !Late(w, s)
  {
    hide Reachable;
    if Enabled(w, s) {
      if s.LoginCreate? {
        LoginCovered(w, s);
      } else if s.RefreshRotate? && OutcomeOf(w, s) == Rotated {
        RotatedCovered(w, s);
      } else if Quiet(s) {
        ReachableInv(w);
        QuietGrows(w, s);
        assert forall id | Next(w, s).store.Live(id) :: w.store.Live(id);
      } else {
        RemovalShrinks(w, s);
        ShrunkCovered(w.store, Next(w, s).store);
      }
    }
  }

  /** In every state of the run, every live session is covered. */
  ghost predicate AlwaysCovered(w: World, steps: seq<Step>)
    decreases |steps|
  {
    AllCovered(w.store) && (steps != [] ==> AlwaysCovered(Next(w, steps[0]), steps[1..]))
  }

  ghost predicate NeverLate(w: World, steps: seq<Step>)
    decreases |steps|
  {
    steps != [] ==> !Late(w, steps[0]) && NeverLate(Next(w, steps[0]), steps[1..])
  }

  lemma {:induction false} CoveredRun(w: World, steps: seq<Step>)
    requires Reachable(w) && AllCovered(w.store)
    ensures AlwaysCovered(w, steps) <==> NeverLate(w, steps)
    decreases |steps|
  {
    hide Reachable, AllCovered, Late, Next;
    if steps == [] {
    } else {
      CoveredStep(w, steps[0]);
      ReachableNext(w, steps[0]);
      if !Late(w, steps[0]) {
        CoveredRun(Next(w, steps[0]), steps[1..]);
      }
    }
  }

  /** The index of every user outlives every session throughout a run exactly when no rotation of
      the run overshoots its cap by more than the index lasts beyond it. */
  lemma IndexOutlivesSessions(start: int, steps: seq<Step>)
    ensures AlwaysCovered(Init(start), steps) <==> NeverLate(Init(start), steps)
  {
    assert Run(Init(start), []) == Init(start);
    CoveredRun(Init(start), steps);
  }

  /** Bulk revocation ends a live session of the user exactly when the user's index still names it, which
      it does while the session is covered. */
  lemma CoveredIsRevoked(w: World, id: string)
    requires Reachable(w) && w.store.Live(id)
    ensures var user := w.store.sessions[id].value.userId;
            && (!Next(w, LogoutAll(user)).store.Live(id) <==> id in w.store.Members(user))
            && (Covered(w.store, id) ==> id in w.store.Members(user))
  {
    ReachableHasTable(w);
  }

  // ----- a run in which it fails -----

  const DAY := 24 * 60 * 60 * 1000

  /** One user "u" with one session "s", after `k - 1` refreshes: the current validator is the
      only one of its length, and no validator seen so far is longer. */
  ghost predicate Holding(w: World, k: nat, validator: string, deadline: int) {
    && w.db != [] && "u" in Current(w.db)
    && w.store.now <= deadline && |validator| == k > 0
    && "s" in w.store.sessions && w.store.sessions["s"].deadline == deadline
    && w.store.sessions["s"].value.userId == "u"
    && w.store.sessions["s"].value.refreshTokenHash == Digest(validator)
    && w.store.sessions["s"].value.absoluteExpiresAt == 30 * DAY
    && w.store.indexes == map["u" := Slot({"s"}, 30 * DAY)]
    && (forall d | d in w.seen :: |d.validator| <= k)
    && (forall req | req in w.requests :: req < k)
  }

  lemma Verified() returns (w: World)
    ensures Reachable(w) && w.store == Store(0, map[], map[]) && w.chains == map[] && w.seen == {}
    ensures w.db != [] && "u" in Current(w.db)
    ensures w.requests.Keys == {0} && w.requests[0].LoginVerified? && w.requests[0].user == "u"
  {
    var row := UserRow("", "", "", "", User);
    var w0 := Init(0);
    assert Run(w0, []) == w0;
    var w1 := Next(w0, SignUp("u", row));
    w := Next(w1, LoginRead(0, "u"));
    ReachableNext(w0, SignUp("u", row));
    ReachableNext(w1, LoginRead(0, "u"));
  }

  lemma LogIn() returns (w: World)
    ensures Reachable(w) && Holding(w, 1, "a", 7 * DAY) && w.store.now == 0
  {
    var w2 := Verified();
    w := Next(w2, LoginCreate(0, "s", "a", 0, 0));
    ReachableNext(w2, LoginCreate(0, "s", "a", 0, 0));
    assert w == AfterLoginCreate(w2, LoginCreate(0, "s", "a", 0, 0));
    assert w2.store.Members("u") + {"s"} == {"s"};
  }

  /** The two reads of a refresh: the session is live, and the user is still there. */
  lemma ReadBoth(w: World, k: nat, v: string, deadline: int) returns (w': World)
    requires Reachable(w) && Holding(w, k, v, deadline)
    ensures Reachable(w') && w'.store == w.store && w'.db == w.db && w'.seen == w.seen + {Digest(v)}
    ensures w'.requests.Keys == w.requests.Keys + {k}
    ensures w'.requests[k].UserFound? && w'.requests[k].token == SplitToken("s", v) && w'.requests[k].owner == "u"
  {
    var raw := JoinRefreshToken(SplitToken("s", v));
    SplitInvertsJoin(raw, SplitToken("s", v));
    var w1 := Next(w, RefreshGet(k, raw));
    assert w1 == AfterRefreshGet(w, RefreshGet(k, raw));
    w' := Next(w1, RefreshFindUser(k));
    assert w' == AfterRefreshFindUser(w1, RefreshFindUser(k));
    ReachableNext(w, RefreshGet(k, raw));
    ReachableNext(w1, RefreshFindUser(k));
  }

  lemma RefreshNow(w: World, k: nat, v: string, deadline: int) returns (w': World)
    requires Reachable(w) && Holding(w, k, v, deadline) && w.store.now < 30 * DAY
    ensures Reachable(w') && w'.store.now == w.store.now
    ensures Holding(w', k + 1, v + "a", w.store.now + SessionTtl(30 * DAY, w.store.now) * 1000)
  {
    hide Reachable, Run;
    var read := ReadBoth(w, k, v, deadline);
    var s := RefreshRotate(k, v + "a", w.store.now);
    w' := Next(read, s);
    ReachableNext(read, s);
    assert w' == AfterRefreshRotate(read, s);
  }

  lemma RefreshLater(w: World, k: nat, v: string, deadline: int, elapsed: nat) returns (w': World)
    requires Reachable(w) && Holding(w, k, v, deadline)
    requires w.store.now + elapsed <= deadline && w.store.now + elapsed < 30 * DAY
    ensures Reachable(w') && w'.store.now == w.store.now + elapsed
    ensures Holding(w', k + 1, v + "a", w'.store.now + SessionTtl(30 * DAY, w'.store.now) * 1000)
  {
    ReachableNext(w, Tick(elapsed));
    w' := RefreshNow(Next(w, Tick(elapsed)), k, v, deadline);
  }

  /** Past the cap but before the rounded-up deadline, the session is live and in no index. */
  lemma PastTheCap(w: World, k: nat, v: string, deadline: int)
    requires Holding(w, k, v, deadline) && w.store.now < 30 * DAY && 30 * DAY + 200 < deadline
    ensures var w' := Next(w, Tick(30 * DAY + 200 - w.store.now));
            && w'.store.Live("s") && w'.store.Get("s").value.userId == "u"
            && w'.store.Members("u") == {} && Next(w', LogoutAll("u")).store.Live("s")
  {
  }

  /** The index does not outlive every session: after weekly refreshes and one 0.5 s before the cap,
      the session is live past its cap, its index has expired, and bulk revocation misses it. */
  lemma SessionOutlivesIndex() returns (w: World)
    ensures Reachable(w) && w.store.Live("s") && w.store.Get("s").value.userId == "u"
    ensures w.store.Members("u") == {} && Next(w, LogoutAll("u")).store.Live("s")
  {
    hide Holding, Next;
    var w0 := LogIn();
    var w1 := RefreshLater(w0, 1, "a", 7 * DAY, 6 * DAY);
    var w2 := RefreshLater(w1, 2, "aa", 13 * DAY, 6 * DAY);
    var w3 := RefreshLater(w2, 3, "aaa", 19 * DAY, 6 * DAY);
    var w4 := RefreshLater(w3, 4, "aaaa", 25 * DAY, 6 * DAY);
    var w5 := RefreshLater(w4, 5, "aaaaa", 30 * DAY, 6 * DAY - 500);
    PastTheCap(w5, 6, "aaaaaa", 30 * DAY + 500);
    w := Next(w5, Tick(700));
    ReachableNext(w5, Tick(700));
  }
}
