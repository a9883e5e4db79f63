/** The one flat, string-keyed Redis keyspace that sessions, indexes, failure counters, locks and
    profiles share, and the proof that it behaves as five separate maps. */
module Keyspace {
  import opened Domain
  import opened SessionStore

  datatype Value =
    | SessionValue(record: SessionRecord)
    | MembersValue(members: set<string>)
    | CounterValue(count: int)
    | LockValue
    | ProfileValue(profile: UserPublic)

  /** `expiry` is absent on a key that never expires. */
  datatype Entry = Entry(value: Value, expiry: Option<int>)

  type Db = map<string, Entry>

  const SESSION_PREFIX := "session:"
  const INDEX_PREFIX := "user_sessions:"
  const FAILURES_PREFIX := "login:failures:"
  const LOCK_PREFIX := "login:lock:"
  const PROFILE_PREFIX := "user-"

  function SessionKey(sessionId: string): string { SESSION_PREFIX + sessionId }

  function UserSessionsKey(userId: string): string { INDEX_PREFIX + userId }

  function FailuresKey(name: string): string { FAILURES_PREFIX + name }

  function LockKey(name: string): string { LOCK_PREFIX + name }

  function ProfileKey(userId: string): string { PROFILE_PREFIX + userId }

  predicate IsPrefix(p: string) {
    p in {SESSION_PREFIX, INDEX_PREFIX, FAILURES_PREFIX, LOCK_PREFIX, PROFILE_PREFIX}
  }

  /** Key builders are injective and never collide, whatever strings clients supply. */
  lemma KeysDisjoint(p: string, q: string, a: string, b: string)
    requires IsPrefix(p) && IsPrefix(q)
    ensures p + a == q + b <==> p == q && a == b
  {
    if p + a == q + b {
      assert (p + a)[0] == p[0] && (p + a)[3] == p[3] && (p + a)[4] == p[4];
      assert (q + b)[0] == q[0] && (q + b)[3] == q[3] && (q + b)[4] == q[4];
      if p[0] == 'l' {
        assert (p + a)[6] == p[6] && (q + b)[6] == q[6];
      }
      assert p == q;
      assert (p + a)[|p|..] == a && (q + b)[|q|..] == b;
    }
  }

  /** The keys under one prefix, with the prefix stripped. */
  function Suffixes(db: Db, p: string): set<string> {
    set k | k in db && p <= k :: k[|p|..]
  }

  function Sub(db: Db, p: string): Db {
    map id | id in Suffixes(db, p) && p + id in db :: db[p + id]
  }

  lemma SubMembers(db: Db, p: string)
    ensures forall id :: id in Sub(db, p) <==> p + id in db
    ensures forall id | id in Sub(db, p) :: Sub(db, p)[id] == db[p + id]
  {
  }

  /** A write or a removal under one prefix is that write or removal on its map, and leaves
      every other prefix's map alone. */
  lemma SubPut(db: Db, p: string, q: string, id: string, e: Entry)
    requires IsPrefix(p) && IsPrefix(q)
    ensures Sub(db[p + id := e], q) == if p == q then Sub(db, q)[id := e] else Sub(db, q)
  {
    hide IsPrefix, Sub;
    var db' := db[p + id := e];
    SubMembers(db, q);
    SubMembers(db', q);
    forall k ensures q + k == p + id <==> q == p && k == id {
      KeysDisjoint(q, p, k, id);
    }
  }

  lemma SubDel(db: Db, p: string, q: string, id: string)
    requires IsPrefix(p) && IsPrefix(q)
    ensures Sub(db - {p + id}, q) == if p == q then Sub(db, q) - {id} else Sub(db, q)
  {
    hide IsPrefix, Sub;
    var db' := db - {p + id};
    SubMembers(db, q);
    SubMembers(db', q);
    forall k ensures q + k == p + id <==> q == p && k == id {
      KeysDisjoint(q, p, k, id);
    }
  }

  // ----- the typed view -----

  function AsSessions(m: Db): map<string, Slot<SessionRecord>> {
    map id | id in m && m[id].value.SessionValue? && m[id].expiry.Some? :: Slot(m[id].value.record, m[id].expiry.value)
  }

  function AsIndexes(m: Db): map<string, Slot<set<string>>> {
    map id | id in m && m[id].value.MembersValue? && m[id].expiry.Some? :: Slot(m[id].value.members, m[id].expiry.value)
  }

  function AsCounters(m: Db): map<string, Slot<int>> {
    map id | id in m && m[id].value.CounterValue? && m[id].expiry.Some? :: Slot(m[id].value.count, m[id].expiry.value)
  }

  function AsLocks(m: Db): map<string, int> {
    map id | id in m && m[id].value.LockValue? && m[id].expiry.Some? :: m[id].expiry.value
  }

  function AsProfiles(m: Db): map<string, Slot<UserPublic>> {
    map id | id in m && m[id].value.ProfileValue? && m[id].expiry.Some? :: Slot(m[id].value.profile, m[id].expiry.value)
  }

  /** An entry suits its key when it expires some day and holds the type the key's prefix announces. */
  predicate Suits(key: string, e: Entry) {
    && e.expiry.Some?
    && (SESSION_PREFIX <= key ==> e.value.SessionValue?)
    && (INDEX_PREFIX <= key ==> e.value.MembersValue?)
    && (FAILURES_PREFIX <= key ==> e.value.CounterValue?)
    && (LOCK_PREFIX <= key ==> e.value.LockValue?)
    && (PROFILE_PREFIX <= key ==> e.value.ProfileValue?)
  }

  function Misfits(db: Db): set<string> {
    set k | k in db && !Suits(k, db[k])
  }

  /** No key holds a type its prefix does not announce, and none lives forever. */
  predicate Typed(db: Db) {
    Misfits(db) == {}
  }

  lemma TypedAt(db: Db)
    ensures Typed(db) <==> forall k | k in db :: Suits(k, db[k])
  {
    assert forall k | k in db :: !Suits(k, db[k]) <==> k in Misfits(db);
  }

  datatype Spaces = Spaces(
    sessions: map<string, Slot<SessionRecord>>,
    indexes: map<string, Slot<set<string>>>,
    failures: map<string, Slot<int>>,
    locks: map<string, int>,
    profiles: map<string, Slot<UserPublic>>)

  function View(db: Db): Spaces {
    Spaces(AsSessions(Sub(db, SESSION_PREFIX)), AsIndexes(Sub(db, INDEX_PREFIX)), AsCounters(Sub(db, FAILURES_PREFIX)),
           AsLocks(Sub(db, LOCK_PREFIX)), AsProfiles(Sub(db, PROFILE_PREFIX)))
  }

  function StoreOf(now: int, db: Db): Store {
    Store(now, View(db).sessions, View(db).indexes)
  }

  // ----- refinement -----

  function PrefixOf(value: Value): string {
    match value
    case SessionValue(_) => SESSION_PREFIX
    case MembersValue(_) => INDEX_PREFIX
    case CounterValue(_) => FAILURES_PREFIX
    case LockValue => LOCK_PREFIX
    case ProfileValue(_) => PROFILE_PREFIX
  }

  function PutView(v: Spaces, id: string, value: Value, deadline: int): Spaces {
    match value
    case SessionValue(record) => v.(sessions := v.sessions[id := Slot(record, deadline)])
    case MembersValue(members) => v.(indexes := v.indexes[id := Slot(members, deadline)])
    case CounterValue(count) => v.(failures := v.failures[id := Slot(count, deadline)])
    case LockValue => v.(locks := v.locks[id := deadline])
    case ProfileValue(profile) => v.(profiles := v.profiles[id := Slot(profile, deadline)])
  }

  // Membership and contents of each typed map, key by key.

  lemma SessionsAt(db: Db)
    requires Typed(db)
    ensures forall id :: id in View(db).sessions <==> SessionKey(id) in db
    ensures forall id | id in View(db).sessions ::
              db[SessionKey(id)]
                  == Entry(SessionValue(View(db).sessions[id].value), Some(View(db).sessions[id].deadline))
  {
    TypedAt(db);
    SubMembers(db, SESSION_PREFIX);
  }

  lemma IndexesAt(db: Db)
    requires Typed(db)
    ensures forall id :: id in View(db).indexes <==> UserSessionsKey(id) in db
    ensures forall id | id in View(db).indexes ::
              db[UserSessionsKey(id)]
                  == Entry(MembersValue(View(db).indexes[id].value), Some(View(db).indexes[id].deadline))
  {
    TypedAt(db);
    SubMembers(db, INDEX_PREFIX);
  }

  lemma FailuresAt(db: Db)
    requires Typed(db)
    ensures forall id :: id in View(db).failures <==> FailuresKey(id) in db
    ensures forall id | id in View(db).failures ::
              db[FailuresKey(id)]
                  == Entry(CounterValue(View(db).failures[id].value), Some(View(db).failures[id].deadline))
  {
    TypedAt(db);
    SubMembers(db, FAILURES_PREFIX);
  }

  lemma LocksAt(db: Db)
    requires Typed(db)
    ensures forall id :: id in View(db).locks <==> LockKey(id) in db
    ensures forall id | id in View(db).locks ::
              db[LockKey(id)] == Entry(LockValue, Some(View(db).locks[id]))
  {
    TypedAt(db);
    SubMembers(db, LOCK_PREFIX);
  }

  lemma ProfilesAt(db: Db)
    requires Typed(db)
    ensures forall id :: id in View(db).profiles <==> ProfileKey(id) in db
    ensures forall id | id in View(db).profiles ::
              db[ProfileKey(id)]
                  == Entry(ProfileValue(View(db).profiles[id].value), Some(View(db).profiles[id].deadline))
  {
    TypedAt(db);
    SubMembers(db, PROFILE_PREFIX);
  }

  lemma TypedPut(m: Db, id: string, value: Value, deadline: int)
    ensures var m' := m[id := Entry(value, Some(deadline))];
            match value
            case SessionValue(record) => AsSessions(m') == AsSessions(m)[id := Slot(record, deadline)]
            case MembersValue(members) => AsIndexes(m') == AsIndexes(m)[id := Slot(members, deadline)]
            case CounterValue(count) => AsCounters(m') == AsCounters(m)[id := Slot(count, deadline)]
            case LockValue => AsLocks(m') == AsLocks(m)[id := deadline]
            case ProfileValue(profile) => AsProfiles(m') == AsProfiles(m)[id := Slot(profile, deadline)]
  {
  }

  lemma TypedDel(m: Db, id: string)
    ensures AsSessions(m - {id}) == AsSessions(m) - {id}
    ensures AsIndexes(m - {id}) == AsIndexes(m) - {id}
    ensures AsCounters(m - {id}) == AsCounters(m) - {id}
    ensures AsLocks(m - {id}) == AsLocks(m) - {id}
    ensures AsProfiles(m - {id}) == AsProfiles(m) - {id}
  {
  }

  lemma OnePrefix(p: string, q: string, id: string)
    requires IsPrefix(p) && IsPrefix(q)
    ensures q <= p + id <==> q == p
  {
    if q <= p + id {
      assert p + id == q + (p + id)[|q|..];
      KeysDisjoint(p, q, id, (p + id)[|q|..]);
    }
  }

  lemma PutTyped(db: Db, id: string, value: Value, deadline: int)
    requires Typed(db)
    ensures Typed(db[PrefixOf(value) + id := Entry(value, Some(deadline))])
  {
    var key, e := PrefixOf(value) + id, Entry(value, Some(deadline));
    OnePrefix(PrefixOf(value), SESSION_PREFIX, id);
    OnePrefix(PrefixOf(value), INDEX_PREFIX, id);
    OnePrefix(PrefixOf(value), FAILURES_PREFIX, id);
    OnePrefix(PrefixOf(value), LOCK_PREFIX, id);
    OnePrefix(PrefixOf(value), PROFILE_PREFIX, id);
    assert Suits(key, e);
    TypedAt(db);
    TypedAt(db[key := e]);
  }

  /** Writing one key of the flat keyspace writes one entry of the typed map its prefix selects. */
  lemma PutRefines(db: Db, db': Db, id: string, value: Value, deadline: int)
    requires Typed(db) && db' == db[PrefixOf(value) + id := Entry(value, Some(deadline))]
    ensures Typed(db') && View(db') == PutView(View(db), id, value, deadline)
  {
    var p, e := PrefixOf(value), Entry(value, Some(deadline));
    PutTyped(db, id, value, deadline);
    SubPut(db, p, SESSION_PREFIX, id, e);
    SubPut(db, p, INDEX_PREFIX, id, e);
    SubPut(db, p, FAILURES_PREFIX, id, e);
    SubPut(db, p, LOCK_PREFIX, id, e);
    SubPut(db, p, PROFILE_PREFIX, id, e);
    TypedPut(Sub(db, p), id, value, deadline);
  }

  function DelView(v: Spaces, p: string, id: string): Spaces {
    Spaces(if p == SESSION_PREFIX then v.sessions - {id} else v.sessions,
           if p == INDEX_PREFIX then v.indexes - {id} else v.indexes,
           if p == FAILURES_PREFIX then v.failures - {id} else v.failures,
           if p == LOCK_PREFIX then v.locks - {id} else v.locks,
           if p == PROFILE_PREFIX then v.profiles - {id} else v.profiles)
  }

  lemma DelTyped(db: Db, key: string)
    requires Typed(db)
    ensures Typed(db - {key})
  {
  }

  /** Removing one key removes one entry of the typed map its prefix selects. */
  lemma DelRefines(db: Db, db': Db, p: string, id: string)
    requires Typed(db) && IsPrefix(p) && db' == db - {p + id}
    ensures Typed(db') && View(db') == DelView(View(db), p, id)
  {
    DelTyped(db, p + id);
    TypedDel(Sub(db, p), id);
    SubDel(db, p, SESSION_PREFIX, id);
    SubDel(db, p, INDEX_PREFIX, id);
    SubDel(db, p, FAILURES_PREFIX, id);
    SubDel(db, p, LOCK_PREFIX, id);
    SubDel(db, p, PROFILE_PREFIX, id);
  }
}
