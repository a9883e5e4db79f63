/** What every reachable state satisfies, and the proof that every step keeps it. */
module Invariants {
  import opened Domain
  import opened SessionStore
  import opened Tokens
  import opened Protocol

  ghost predicate DbOk(db: seq<map<string, UserRow>>, users: set<string>) {
    db != [] && forall i | 0 <= i < |db| :: db[i].Keys <= users
  }

  /** A chain's digests are distinct, its database versions never decrease, and no link after
      the first was sampled at or past the cap. */
  ghost predicate ChainOk(c: Chain, now: int, db: seq<map<string, UserRow>>, seen: set<Digest>) {
    && c.links != []
    && c.cap == c.createdAt + SESSION_ABSOLUTE_TTL_SECONDS * 1000
    && c.createdAt <= c.links[0].sampledAt
    && (forall i | 0 <= i < |c.links| ::
          && c.links[i].sampledAt <= c.links[i].executedAt <= now
          && c.links[i].version < |db| && c.owner in db[c.links[i].version]
          && c.links[i].digest in seen)
    && (forall i | 1 <= i < |c.links| :: c.links[i].sampledAt < c.cap)
    && (forall i, j | 0 <= i < j < |c.links| ::
          c.links[i].version <= c.links[j].version && c.links[i].digest != c.links[j].digest)
  }

  function Last(c: Chain): Link
    requires c.links != []
  {
    c.links[|c.links| - 1]
  }

  /** The part of a stored record that its chain determines: the last two links, and what login fixed. */
  ghost predicate Summarises(r: SessionRecord, c: Chain, db: seq<map<string, UserRow>>)
    requires c.links != [] && Last(c).version < |db| && c.owner in db[Last(c).version]
  {
    && r.userId == c.owner && r.createdAt == c.createdAt && r.absoluteExpiresAt == c.cap
    && r.role == db[Last(c).version][c.owner].role
    && r.refreshTokenHash == Last(c).digest
    && r.previousRefreshTokenHash == (if |c.links| == 1 then None else Some(c.links[|c.links| - 2].digest))
    && r.rotatedAt == (if |c.links| == 1 then None else Some(Last(c).sampledAt))
  }

  ghost predicate DeadlinesOk(slot: Slot<SessionRecord>, c: Chain)
    requires c.links != []
  {
    var ttl := SessionTtl(c.cap, Last(c).sampledAt);
    && 1 <= ttl <= SESSION_IDLE_TTL_SECONDS
    && slot.deadline == Last(c).executedAt + ttl * 1000
    && slot.value.expiresAt
       == (if |c.links| == 1 then c.createdAt + SESSION_IDLE_TTL_SECONDS * 1000 else Last(c).sampledAt + ttl * 1000)
  }

  ghost predicate RecordOk(slot: Slot<SessionRecord>, c: Chain, now: int, db: seq<map<string, UserRow>>,
                           seen: set<Digest>)
  {
    && ChainOk(c, now, db, seen)
    && Summarises(slot.value, c, db)
    && DeadlinesOk(slot, c)
  }

  ghost predicate Presents(token: SplitToken, owner: string, chains: map<string, Chain>, seen: set<Digest>) {
    && token.sessionId in chains && chains[token.sessionId].owner == owner
    && Digest(token.validator) in seen
    && Mintable(token)
  }

  /** A request past its user read holds the row of the version it read, and that version is at
      least the one behind any link whose token it presents. */
  ghost predicate RequestOk(q: Request, db: seq<map<string, UserRow>>, chains: map<string, Chain>, seen: set<Digest>) {
    match q
    case LoginVerified(user, row, version) => version < |db| && user in db[version] && row == db[version][user]
    case SessionFound(token, owner) => Presents(token, owner, chains, seen)
    case UserFound(token, owner, row, version) =>
      && Presents(token, owner, chains, seen)
      && version < |db| && owner in db[version] && row == db[version][owner]
      && forall i | 0 <= i < |chains[token.sessionId].links| ::
           chains[token.sessionId].links[i].digest == Digest(token.validator) ==>
               chains[token.sessionId].links[i].version <= version
    case UserMissing(_) => true
    case Finished(_) => true
  }

  /** Index completeness and purity for one session: if its key is live and its cap ahead, then
      its owner's index lasts until that cap and contains it. */
  ghost predicate Indexed(st: Store, sessionId: string)
    requires sessionId in st.sessions
  {
    var slot := st.sessions[sessionId];
    st.now <= slot.deadline && st.now < slot.value.absoluteExpiresAt ==>
      && slot.value.userId in st.indexes
      && slot.value.absoluteExpiresAt <= st.indexes[slot.value.userId].deadline
      && sessionId in st.indexes[slot.value.userId].value
  }

  ghost predicate Pure(st: Store, chains: map<string, Chain>) {
    forall u | u in st.indexes :: forall id | id in st.indexes[u].value :: id in chains && chains[id].owner == u
  }

  /** Each issue in the log is a link of its session's chain, and the token it replaced is the link before. */
  ghost predicate IssueOk(e: Issue, db: seq<map<string, UserRow>>, chains: map<string, Chain>) {
    && e.access.sessionId == e.refresh.sessionId && e.refresh.sessionId in chains
    && var c := chains[e.refresh.sessionId];
    && e.link < |c.links| && e.access.subject == c.owner
    && c.links[e.link].version < |db| && c.owner in db[c.links[e.link].version]
    && e.access.role == db[c.links[e.link].version][c.owner].role
    && c.links[e.link].digest == Digest(e.refresh.validator)
    && Mintable(e.refresh)
    && (e.presented.None? <==> e.link == 0)
    && (e.link > 0 ==>
          && e.presented.value.sessionId == e.refresh.sessionId
          && Digest(e.presented.value.validator) == c.links[e.link - 1].digest
          && Mintable(e.presented.value))
  }

  ghost predicate IssuesOk(issues: seq<Issue>, db: seq<map<string, UserRow>>, chains: map<string, Chain>) {
    && (forall i | 0 <= i < |issues| :: IssueOk(issues[i], db, chains))
    && (forall i, j | 0 <= i < j < |issues| && issues[i].refresh.sessionId == issues[j].refresh.sessionId ::
          issues[i].link < issues[j].link)
  }

  ghost predicate StoreOk(w: World) {
    && (forall id | id in w.store.sessions ::
        id in w.chains && RecordOk(w.store.sessions[id], w.chains[id], w.store.now, w.db, w.seen))
    && (forall id | id in w.store.sessions :: Indexed(w.store, id))
    && Pure(w.store, w.chains)
  }

  ghost predicate HistoryOk(w: World) {
    && DbOk(w.db, w.users)
    && (forall id | id in w.chains :: ChainOk(w.chains[id], w.store.now, w.db, w.seen))
    && (forall req | req in w.requests :: RequestOk(w.requests[req], w.db, w.chains, w.seen))
    && IssuesOk(w.issues, w.db, w.chains)
  }

  ghost predicate Inv(w: World) {
    HistoryOk(w) && StoreOk(w)
  }

  ghost predicate ChainGrows(c: Chain, c': Chain, seen: set<Digest>) {
    && c' == c.(links := c'.links)
    && c.links <= c'.links
    && forall i | |c.links| <= i < |c'.links| :: c'.links[i].digest !in seen
  }

  /** Time, database versions and seen digests only grow; chains only appear or gain links. */
  ghost predicate Grows(w: World, w': World) {
    && w.store.now <= w'.store.now
    && w.db <= w'.db && w.users <= w'.users && w.seen <= w'.seen && w.issues <= w'.issues
    && (forall id | id in w.chains :: id in w'.chains && ChainGrows(w.chains[id], w'.chains[id], w.seen))
  }

  /** What held of a chain, a request or an issue still holds after the world has grown around it. */
  lemma HistoryKept(w: World, w': World)
    requires HistoryOk(w) && Grows(w, w')
    ensures forall id | id in w.chains && w'.chains[id] == w.chains[id] ::
            ChainOk(w'.chains[id], w'.store.now, w'.db, w'.seen)
    ensures forall req | req in w.requests :: RequestOk(w.requests[req], w'.db, w'.chains, w'.seen)
    ensures forall i | 0 <= i < |w.issues| :: IssueOk(w.issues[i], w'.db, w'.chains)
  {
  }

  lemma ChainKept(c: Chain, w: World, w': World)
    requires ChainOk(c, w.store.now, w.db, w.seen) && Grows(w, w')
    ensures ChainOk(c, w'.store.now, w'.db, w'.seen)
  {
  }

  lemma RecordsKept(w: World, w': World)
    requires Inv(w) && Grows(w, w')
    ensures forall id | id in w.store.sessions && w'.chains[id] == w.chains[id] ::
              RecordOk(w.store.sessions[id], w'.chains[id], w'.store.now, w'.db, w'.seen)
  {
    forall id | id in w.store.sessions && w'.chains[id] == w.chains[id]
      ensures RecordOk(w.store.sessions[id], w'.chains[id], w'.store.now, w'.db, w'.seen)
    {
      ChainKept(w.chains[id], w, w');
      var v := Last(w.chains[id]).version;
      assert w'.db[v] == w.db[v];
    }
  }

  // ----- steps that leave the store's contents and the chains alone -----

  /** Steps of the clock, the users table and the requests' private reads. */
  predicate Quiet(s: Step) {
    s.Tick? || s.SignUp? || s.UpdateUser? || s.DeleteUser? || s.LoginRead? || s.RefreshGet? || s.RefreshFindUser?
  }

  lemma QuietGrows(w: World, s: Step)
    requires DbOk(w.db, w.users) && Enabled(w, s) && Quiet(s)
    ensures var w' := Next(w, s);
            && Grows(w, w') && DbOk(w'.db, w'.users)
            && w'.chains == w.chains && w'.issues == w.issues && w'.store == w.store.(now := w'.store.now)
  {
  }

  lemma QuietOwnRequest(w: World, s: Step)
    requires Enabled(w, s) && Quiet(s)
    ensures forall req | req in Next(w, s).requests
                         && !(req in w.requests && Next(w, s).requests[req] == w.requests[req]) ::
              (s.LoginRead? || s.RefreshGet? || s.RefreshFindUser?) && req == s.req
  {
  }

  lemma LoginReadRequest(w: World, s: Step)
    requires Enabled(w, s) && s.LoginRead?
    ensures var w' := Next(w, s); RequestOk(w'.requests[s.req], w'.db, w'.chains, w'.seen)
  {
  }

  /** A link older than the read carries a version no newer than the one read. */
  lemma FindUserRequest(w: World, s: Step)
    requires Inv(w) && Enabled(w, s) && s.RefreshFindUser?
    ensures var w' := Next(w, s); RequestOk(w'.requests[s.req], w'.db, w'.chains, w'.seen)
  {
    hide StoreOk, IssuesOk, DbOk;
  }

  lemma RefreshGetRequest(w: World, s: Step)
    requires Inv(w) && Enabled(w, s) && s.RefreshGet?
    ensures var w' := Next(w, s); RequestOk(w'.requests[s.req], w'.db, w'.chains, w'.seen)
  {
    hide HistoryOk, ChainOk, DeadlinesOk;
  }

  lemma QuietRequests(w: World, s: Step)
    requires HistoryOk(w) && StoreOk(w) && Enabled(w, s) && Quiet(s)
    requires forall req | req in w.requests ::
            RequestOk(w.requests[req], Next(w, s).db, Next(w, s).chains, Next(w, s).seen)
    ensures var w' := Next(w, s);
            forall req | req in w'.requests :: RequestOk(w'.requests[req], w'.db, w'.chains, w'.seen)
  {
    hide Next, RequestOk, HistoryOk, StoreOk;
    QuietOwnRequest(w, s);
    if s.LoginRead? {
      LoginReadRequest(w, s);
    } else if s.RefreshGet? {
      RefreshGetRequest(w, s);
    } else if s.RefreshFindUser? {
      FindUserRequest(w, s);
    }
  }

  lemma QuietStore(w: World, s: Step)
    requires Inv(w) && Enabled(w, s) && Quiet(s)
    ensures StoreOk(Next(w, s))
  {
    QuietGrows(w, s);
    var w' := Next(w, s);
    RecordsKept(w, w');
    forall id | id in w'.store.sessions ensures Indexed(w'.store, id) {
      assert Indexed(w.store, id);
    }
  }

  lemma QuietStep(w: World, s: Step)
    requires Inv(w) && Enabled(w, s) && Quiet(s)
    ensures Grows(w, Next(w, s)) && Inv(Next(w, s))
  {
    QuietGrows(w, s);
    HistoryKept(w, Next(w, s));
    QuietRequests(w, s);
    QuietStore(w, s);
  }

  // ----- steps that only remove sessions -----

  predicate Removal(s: Step) {
    s.RefreshRevoke? || s.Logout? || s.LogoutAll?
  }

  /** Taking sessions out of the store keeps it well formed when every index entry that goes
      belongs to a session that goes. */
  ghost predicate Shrinks(st: Store, st': Store) {
    && st'.now == st.now
    && st'.sessions.Keys <= st.sessions.Keys && st'.indexes.Keys <= st.indexes.Keys
    && (forall id | id in st'.sessions :: st'.sessions[id] == st.sessions[id])
    && (forall u | u in st'.indexes ::
        st'.indexes[u].value <= st.indexes[u].value && st'.indexes[u].deadline == st.indexes[u].deadline)
    && (forall u | u in st.indexes && st.now <= st.indexes[u].deadline ::
        forall id | id in st.indexes[u].value && id in st'.sessions ::
          u in st'.indexes && id in st'.indexes[u].value)
  }

  lemma ShrinkingKeeps(st: Store, st': Store, chains: map<string, Chain>)
    requires Shrinks(st, st') && Pure(st, chains)
    requires forall id | id in st.sessions :: Indexed(st, id)
    ensures Pure(st', chains) && forall id | id in st'.sessions :: Indexed(st', id)
  {
  }

  lemma DeleteShrinks(st: Store, sessionId: string, userId: string)
    ensures Shrinks(st, Delete(st, sessionId, userId))
  {
  }

  lemma DeleteAllShrinks(st: Store, userId: string)
    ensures Shrinks(st, DeleteAll(st, userId))
  {
  }

  /** Any step that at most removes sessions, finishes requests and sees new digests. */
  lemma ShrinkStep(w: World, w': World)
    requires Inv(w) && Shrinks(w.store, w'.store)
    requires w'.db == w.db && w'.users == w.users && w'.chains == w.chains && w'.issues == w.issues && w.seen <= w'.seen
    requires forall req | req in w'.requests ::
            w'.requests[req].Finished? || (req in w.requests && w'.requests[req] == w.requests[req])
    ensures Grows(w, w') && Inv(w')
  {
    HistoryKept(w, w');
    RecordsKept(w, w');
    ShrinkingKeeps(w.store, w'.store, w.chains);
  }

  lemma RemovalStep(w: World, s: Step)
    requires Inv(w) && Enabled(w, s) && Removal(s)
    ensures Grows(w, Next(w, s)) && Inv(Next(w, s))
  {
    match s
    case RefreshRevoke(req) => DeleteAllShrinks(w.store, w.requests[req].owner); ShrinkStep(w, Next(w, s));
    case Logout(sessionId, user) => DeleteShrinks(w.store, sessionId, user); ShrinkStep(w, Next(w, s));
    case LogoutAll(user) => DeleteAllShrinks(w.store, user); ShrinkStep(w, Next(w, s));
  }

  // ----- steps that add a link -----

  /** What a login or a successful rotation does to the history: one chain appears or gains a
      link, and at most one issue is logged. */
  ghost predicate Links(w: World, w': World, id: string) {
    && w'.db == w.db && w'.users == w.users && w.seen <= w'.seen && w'.store.now == w.store.now
    && id in w'.chains && w'.chains == w.chains[id := w'.chains[id]]
    && (id in w.chains ==> ChainGrows(w.chains[id], w'.chains[id], w.seen))
    && ChainOk(w'.chains[id], w'.store.now, w'.db, w'.seen)
    && (forall req | req in w'.requests ::
        w'.requests[req].Finished? || (req in w.requests && w'.requests[req] == w.requests[req]))
  }

  ghost predicate Logs(w: World, w': World, id: string) {
    || w'.issues == w.issues
    || (&& |w'.issues| == |w.issues| + 1 && w.issues <= w'.issues
        && var e := w'.issues[|w.issues|];
        && IssueOk(e, w'.db, w'.chains) && e.refresh.sessionId == id
        && e.link == |w'.chains[id].links| - 1
        && (id in w.chains ==> |w.chains[id].links| < |w'.chains[id].links|))
  }

  lemma LinkedGrows(w: World, w': World, id: string)
    requires Links(w, w', id) && Logs(w, w', id)
    ensures Grows(w, w')
  {
  }

  lemma LinkedIssues(w: World, w': World, id: string)
    requires IssuesOk(w.issues, w.db, w.chains) && Links(w, w', id) && Logs(w, w', id)
    requires forall i | 0 <= i < |w.issues| :: IssueOk(w.issues[i], w'.db, w'.chains)
    ensures IssuesOk(w'.issues, w'.db, w'.chains)
  {
    forall i, j | 0 <= i < j < |w'.issues| && w'.issues[i].refresh.sessionId == w'.issues[j].refresh.sessionId
      ensures w'.issues[i].link < w'.issues[j].link
    {
      assert w'.issues[i] == w.issues[i] && IssueOk(w.issues[i], w.db, w.chains);
    }
  }

  lemma LinkedHistory(w: World, w': World, id: string)
    requires HistoryOk(w) && Links(w, w', id) && Logs(w, w', id)
    ensures Grows(w, w') && HistoryOk(w')
  {
    LinkedGrows(w, w', id);
    HistoryKept(w, w');
    LinkedIssues(w, w', id);
    forall k | k in w'.chains ensures ChainOk(w'.chains[k], w'.store.now, w'.db, w'.seen) {
      assert k != id ==> w'.chains[k] == w.chains[k];
    }
  }

  lemma OneLinkChainOk(owner: string, createdAt: int, link: Link, now: int, db: seq<map<string, UserRow>>,
                       seen: set<Digest>)
    requires createdAt <= link.sampledAt <= link.executedAt <= now
    requires link.version < |db| && owner in db[link.version] && link.digest in seen
    ensures ChainOk(Chain(owner, createdAt, createdAt + SESSION_ABSOLUTE_TTL_SECONDS * 1000, [link]), now, db, seen)
  {
  }

  lemma LongerChainOk(c: Chain, link: Link, now: int, db: seq<map<string, UserRow>>, seen: set<Digest>)
    requires ChainOk(c, now, db, seen)
    requires link.sampledAt <= link.executedAt <= now && link.sampledAt < c.cap
    requires Last(c).version <= link.version < |db| && c.owner in db[link.version] && link.digest !in seen
    ensures ChainOk(c.(links := c.links + [link]), now, db, seen + {link.digest})
  {
  }

  // ----- login -----

  lemma LoginLinks(w: World, s: Step)
    requires HistoryOk(w) && Enabled(w, s) && s.LoginCreate?
    ensures Links(w, AfterLoginCreate(w, s), s.sessionId) && Logs(w, AfterLoginCreate(w, s), s.sessionId)
  {
    var q := w.requests[s.req];
    assert RequestOk(q, w.db, w.chains, w.seen);
    var w' := AfterLoginCreate(w, s);
    OneLinkChainOk(q.user, s.now, Link(Digest(s.validator), s.createNow, w.store.now, q.version), w.store.now, w.db,
        w'.seen);
  }

  lemma LoginRecord(w: World, s: Step)
    requires HistoryOk(w) && Enabled(w, s) && s.LoginCreate?
    requires s.sessionId in AfterLoginCreate(w, s).store.sessions && s.sessionId !in w.store.sessions
    ensures var w' := AfterLoginCreate(w, s);
            RecordOk(w'.store.sessions[s.sessionId], w'.chains[s.sessionId], w'.store.now, w'.db, w'.seen)
  {
  }

  /** Logging in pushes the index deadline past the cap of every session already in it. */
  lemma CreateIndexes(st: Store, sessionId: string, record: SessionRecord, sampled: int)
    requires forall id | id in st.sessions :: Indexed(st, id)
    requires forall id | id in st.sessions ::
            st.sessions[id].value.absoluteExpiresAt <= st.now + SESSION_ABSOLUTE_TTL_SECONDS * 1000
    requires record.absoluteExpiresAt <= st.now + SESSION_ABSOLUTE_TTL_SECONDS * 1000
    ensures var st' := Create(st, sessionId, record, sampled).0; forall id | id in st'.sessions :: Indexed(st', id)
  {
  }

  lemma CapsNear(w: World)
    requires Inv(w)
    ensures forall id | id in w.store.sessions ::
              w.store.sessions[id].value.absoluteExpiresAt <= w.store.now + SESSION_ABSOLUTE_TTL_SECONDS * 1000
  {
  }

  lemma CreatePure(w: World, w': World, s: Step)
    requires Pure(w.store, w.chains) && Enabled(w, s) && s.LoginCreate? && w' == AfterLoginCreate(w, s)
    ensures Pure(w'.store, w'.chains)
  {
  }

  lemma LoginStep(w: World, s: Step)
    requires Inv(w) && Enabled(w, s) && s.LoginCreate?
    ensures Grows(w, AfterLoginCreate(w, s)) && Inv(AfterLoginCreate(w, s))
  {
    hide ChainOk, RequestOk, IssuesOk, Summarises, DeadlinesOk;
    var w' := AfterLoginCreate(w, s);
    LoginLinks(w, s);
    LinkedHistory(w, w', s.sessionId);
    RecordsKept(w, w');
    CapsNear(w);
    var q := w.requests[s.req];
    CreateIndexes(w.store, s.sessionId, NewRecord(q.user, q.row.role, Digest(s.validator), s.now), s.createNow);
    if s.sessionId in w'.store.sessions {
      LoginRecord(w, s);
    }
    CreatePure(w, w', s);
  }

  // ----- a rotation that succeeds -----

  function OutcomeOf(w: World, s: Step): RotateOutcome
    requires s.RefreshRotate? && Enabled(w, s)
  {
    var q := w.requests[s.req];
    Rotate(w.store, q.token.sessionId, q.owner, ParamsOf(q, s)).1
  }

  lemma RequestHeld(w: World, req: nat)
    requires HistoryOk(w) && req in w.requests
    ensures RequestOk(w.requests[req], w.db, w.chains, w.seen)
  {
  }

  lemma RecordHeld(w: World, id: string)
    requires StoreOk(w) && id in w.store.sessions
    ensures id in w.chains && RecordOk(w.store.sessions[id], w.chains[id], w.store.now, w.db, w.seen)
  {
  }

  /** What a rotation that succeeds knows: the presented digest is the chain's last one, the cap is
      ahead of the sample, and the request's read is no older than that link. */
  ghost predicate Winning(w: World, s: Step) {
    && Enabled(w, s) && s.RefreshRotate? && OutcomeOf(w, s) == Rotated
    && var q := w.requests[s.req]; var id := q.token.sessionId;
       && id in w.chains && w.store.Live(id) && w.chains[id].owner == q.owner
       && RecordOk(w.store.sessions[id], w.chains[id], w.store.now, w.db, w.seen)
       && Last(w.chains[id]).digest == Digest(q.token.validator)
       && Last(w.chains[id]).version <= q.version < |w.db|
       && q.owner in w.db[q.version] && q.row == w.db[q.version][q.owner]
       && s.now < w.chains[id].cap && Mintable(q.token)
  }

  lemma LastPresented(c: Chain, token: SplitToken, owner: string, version: nat, chains: map<string, Chain>,
                      db: seq<map<string, UserRow>>, seen: set<Digest>, row: UserRow)
    requires RequestOk(UserFound(token, owner, row, version), db, chains, seen)
    requires c == chains[token.sessionId] && c.links != [] && Last(c).digest == Digest(token.validator)
    ensures Last(c).version <= version
  {
    assert c.links[|c.links| - 1].digest == Digest(token.validator);
  }

  lemma RotatedFacts(w: World, s: Step)
    requires Inv(w) && Enabled(w, s) && s.RefreshRotate? && OutcomeOf(w, s) == Rotated
    ensures Winning(w, s)
  {
    hide HistoryOk, StoreOk, DeadlinesOk;
    var q := w.requests[s.req];
    var id := q.token.sessionId;
    RequestHeld(w, s.req);
    RecordHeld(w, id);
    LastPresented(w.chains[id], q.token, q.owner, q.version, w.chains, w.db, w.seen, q.row);
  }

  lemma RotatedLinks(w: World, s: Step)
    requires Winning(w, s)
    ensures var w', id := AfterRefreshRotate(w, s), w.requests[s.req].token.sessionId;
            && Links(w, w', id)
            && w'.chains[id].links[..|w.chains[id].links|] == w.chains[id].links
            && |w'.chains[id].links| == |w.chains[id].links| + 1
  {
    var q := w.requests[s.req];
    var c := w.chains[q.token.sessionId];
    LongerChainOk(c, Link(Digest(s.validator), s.now, w.store.now, q.version), w.store.now, w.db, w.seen);
  }

  lemma RotatedLogs(w: World, s: Step)
    requires Winning(w, s)
    ensures Logs(w, AfterRefreshRotate(w, s), w.requests[s.req].token.sessionId)
  {
  }

  lemma RotatedRecordOk(w: World, s: Step)
    requires Winning(w, s)
    ensures var w', id := AfterRefreshRotate(w, s), w.requests[s.req].token.sessionId;
            && id in w'.chains && id in w'.store.sessions
            && RecordOk(w'.store.sessions[id], w'.chains[id], w'.store.now, w'.db, w'.seen)
  {
    hide Links;
    RotatedLinks(w, s);
  }

  lemma RotatingKeepsIndexed(st: Store, sessionId: string, userId: string, p: RotateParams)
    requires Rotate(st, sessionId, userId, p).1 == Rotated
    requires forall id | id in st.sessions :: Indexed(st, id)
    ensures var st' := Rotate(st, sessionId, userId, p).0; forall id | id in st'.sessions :: Indexed(st', id)
  {
  }

  lemma PureKept(w: World, w': World)
    requires Pure(w.store, w.chains) && Grows(w, w') && w'.store.indexes == w.store.indexes
    ensures Pure(w'.store, w'.chains)
  {
  }

  lemma ReplacedRecord(w: World, w': World, id: string)
    requires Inv(w) && Grows(w, w') && id in w.store.sessions && id in w'.store.sessions && id in w'.chains
    requires w'.chains == w.chains[id := w'.chains[id]]
    requires w'.store == w.store.(sessions := w.store.sessions[id := w'.store.sessions[id]])
    requires RecordOk(w'.store.sessions[id], w'.chains[id], w'.store.now, w'.db, w'.seen)
    requires forall k | k in w'.store.sessions :: Indexed(w'.store, k)
    ensures StoreOk(w')
  {
    hide HistoryOk, RecordOk, Indexed, Grows, Pure;
    PureKept(w, w');
    RecordsKept(w, w');
    forall k | k in w'.store.sessions
      ensures k in w'.chains && RecordOk(w'.store.sessions[k], w'.chains[k], w'.store.now, w'.db, w'.seen)
    {
      if k != id {
        assert w'.chains[k] == w.chains[k] && w'.store.sessions[k] == w.store.sessions[k];
      }
    }
  }

  lemma RotatedShape(w: World, s: Step)
    requires Winning(w, s)
    ensures var w', q := AfterRefreshRotate(w, s), w.requests[s.req]; var id := q.token.sessionId;
            && w'.store == Rotate(w.store, id, q.owner, ParamsOf(q, s)).0
            && id in w.store.sessions && id in w'.store.sessions && id in w'.chains
            && w'.chains == w.chains[id := w'.chains[id]]
            && w'.store == w.store.(sessions := w.store.sessions[id := w'.store.sessions[id]])
            && |w'.issues| == |w.issues| + 1 && w'.issues[|w.issues|].req == s.req
  {
  }

  lemma RotatedStore(w: World, s: Step)
    requires Inv(w) && Winning(w, s) && Grows(w, AfterRefreshRotate(w, s))
    ensures StoreOk(AfterRefreshRotate(w, s))
  {
    hide AfterRefreshRotate, Rotate, RecordOk;
    var q := w.requests[s.req];
    RotatedRecordOk(w, s);
    RotatingKeepsIndexed(w.store, q.token.sessionId, q.owner, ParamsOf(q, s));
    RotatedShape(w, s);
    ReplacedRecord(w, AfterRefreshRotate(w, s), q.token.sessionId);
  }

  lemma RotatedStep(w: World, s: Step)
    requires Inv(w) && Enabled(w, s) && s.RefreshRotate? && OutcomeOf(w, s) == Rotated
    ensures Grows(w, AfterRefreshRotate(w, s)) && Inv(AfterRefreshRotate(w, s))
  {
    RotatedFacts(w, s);
    RotatedLinks(w, s);
    RotatedLogs(w, s);
    LinkedHistory(w, AfterRefreshRotate(w, s), w.requests[s.req].token.sessionId);
    RotatedStore(w, s);
  }

  lemma LosingShrinks(st: Store, sessionId: string, userId: string, p: RotateParams)
    requires Rotate(st, sessionId, userId, p).1 != Rotated
    ensures Shrinks(st, Rotate(st, sessionId, userId, p).0)
  {
  }

  lemma LostStep(w: World, s: Step)
    requires Inv(w) && Enabled(w, s) && s.RefreshRotate? && OutcomeOf(w, s) != Rotated
    ensures Grows(w, AfterRefreshRotate(w, s)) && Inv(AfterRefreshRotate(w, s))
  {
    hide Rotate, Inv, Shrinks;
    var q := w.requests[s.req];
    LosingShrinks(w.store, q.token.sessionId, q.owner, ParamsOf(q, s));
    ShrinkStep(w, AfterRefreshRotate(w, s));
  }

  // ----- whole runs -----

  lemma InvStep(w: World, s: Step)
    requires Inv(w)
    ensures Inv(Next(w, s)) && Grows(w, Next(w, s))
  {
    if Enabled(w, s) {
      if Quiet(s) {
        QuietStep(w, s);
      } else if Removal(s) {
        RemovalStep(w, s);
      } else if s.LoginCreate? {
        LoginStep(w, s);
      } else if OutcomeOf(w, s) == Rotated {
        RotatedStep(w, s);
      } else {
        LostStep(w, s);
      }
    }
  }

  lemma GrowsTransitive(a: World, b: World, c: World)
    requires Grows(a, b) && Grows(b, c)
    ensures Grows(a, c)
  {
  }

  lemma {:induction false} InvRun(w: World, steps: seq<Step>)
    requires Inv(w)
    ensures Inv(Run(w, steps)) && Grows(w, Run(w, steps))
    decreases |steps|
  {
    if steps == [] {
    } else {
      InvStep(w, steps[0]);
      InvRun(Next(w, steps[0]), steps[1..]);
      GrowsTransitive(w, Next(w, steps[0]), Run(w, steps));
    }
  }

  lemma ReachableInv(w: World)
    requires Reachable(w)
    ensures Inv(w)
  {
    var start: int, steps: seq<Step> :| w == Run(Init(start), steps);
    InvRun(Init(start), steps);
  }
}
