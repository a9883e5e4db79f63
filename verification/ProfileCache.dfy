/** The read-through profile cache: how old a served profile can be, over every interleaving of
    profile reads, logins, table changes and cache writes that come late or not at all. */
module ProfileCache {
  import opened Domain

  /** The users table from `since` on, until the next version. */
  datatype Version = Version(since: int, rows: map<string, UserRow>)

  /** A profile with the instants at which its row was read and (for a cached one) it was written. */
  datatype Sighting = Sighting(profile: UserPublic, readAt: int, writtenAt: int)

  datatype Served = Served(user: string, sighting: Sighting, at: int, fromCache: bool)

  datatype Reader = NeedsRow(user: string) | HasRow(user: string, profile: UserPublic, readAt: int) | Done

  datatype CacheWorld = CacheWorld(
    now: int,
    table: seq<Version>,
    cache: map<string, Slot<Sighting>>,
    readers: map<nat, Reader>,
    served: seq<Served>)

  /** `Look` is the cache read of a profile request; `Skip` starts a reader that goes to the table
      first, as a login does; `Fill` is the cache write after a table read, `written` if it succeeds;
      `answers` tells a profile request, which returns its profile, from a login. */
  datatype CacheStep =
    | Tick(elapsed: nat)
    | Change(rows: map<string, UserRow>)
    | Look(reader: nat, user: string, reachable: bool)
    | Skip(reader: nat, user: string)
    | ReadRow(reader: nat)
    | Fill(reader: nat, written: bool, answers: bool)

  function Init(start: int): CacheWorld {
    CacheWorld(start, [Version(start, map[])], map[], map[], [])
  }

  function Rows(w: CacheWorld): map<string, UserRow>
    requires w.table != []
  {
    w.table[|w.table| - 1].rows
  }

  predicate Cached(w: CacheWorld, user: string) {
    user in w.cache && w.now <= w.cache[user].deadline
  }

  function Next(w: CacheWorld, s: CacheStep): CacheWorld {
    match s
    case Tick(elapsed) => w.(now := w.now + elapsed)
    case Change(rows) => w.(table := w.table + [Version(w.now, rows)])
    case Look(reader, user, reachable) =>
      if reader in w.readers then w
      else if reachable && Cached(w, user) then
        w.(readers := w.readers[reader := Done], served := w.served + [Served(user, w.cache[user].value, w.now, true)])
      else w.(readers := w.readers[reader := NeedsRow(user)])
    case Skip(reader, user) => if reader in w.readers then w else w.(readers := w.readers[reader := NeedsRow(user)])
    case ReadRow(reader) =>
      if !(reader in w.readers && w.readers[reader].NeedsRow? && w.table != []) then w
      else
        var user, rows := w.readers[reader].user, Rows(w);
        var r := if user in rows then HasRow(user, ToPublicUser(user, rows[user]), w.now) else Done;
        w.(readers := w.readers[reader := r])
    case Fill(reader, written, answers) =>
      if !(reader in w.readers && w.readers[reader].HasRow?) then w
      else
        var r := w.readers[reader];
        var sighting := Sighting(r.profile, r.readAt, w.now);
        w.(readers := w.readers[reader := Done],
           cache := if written then w.cache[r.user := Slot(sighting, w.now + PROFILE_TTL_SECONDS * 1000)] else w.cache,
           served := if answers then w.served + [Served(r.user, sighting, w.now, false)] else w.served)
  }

  function Run(w: CacheWorld, steps: seq<CacheStep>): CacheWorld
    decreases |steps|
  {
    if steps == [] then w else Run(Next(w, steps[0]), steps[1..])
  }

  predicate InForce(table: seq<Version>, i: nat, user: string, profile: UserPublic, t: int)
    requires i < |table|
  {
    && table[i].since <= t && (i + 1 < |table| ==> t <= table[i + 1].since)
    && user in table[i].rows
    && var row := table[i].rows[user]; profile == UserPublic(user, row.name, row.username, row.email, row.role)
  }

  /** `profile` was the public projection of the user's row in the version of the table in force at `t`. */
  ghost predicate WasRow(table: seq<Version>, user: string, profile: UserPublic, t: int) {
    exists i | 0 <= i < |table| :: InForce(table, i, user, profile, t)
  }

  ghost predicate TableOk(w: CacheWorld) {
    && w.table != [] && w.table[|w.table| - 1].since <= w.now
    && forall i, j | 0 <= i < j < |w.table| :: w.table[i].since <= w.table[j].since
  }

  ghost predicate SightingOk(w: CacheWorld, user: string, s: Sighting) {
    s.readAt <= s.writtenAt <= w.now && WasRow(w.table, user, s.profile, s.readAt)
  }

  ghost predicate ServedOk(w: CacheWorld, e: Served) {
    && SightingOk(w, e.user, e.sighting) && e.at <= w.now
    && e.sighting.writtenAt <= e.at
    && (if e.fromCache then e.at <= e.sighting.writtenAt + 3600000 else e.at == e.sighting.writtenAt)
  }

  ghost predicate Inv(w: CacheWorld) {
    && TableOk(w)
    && (forall u | u in w.cache ::
        SightingOk(w, u, w.cache[u].value) && w.cache[u].deadline == w.cache[u].value.writtenAt + 3600000)
    && (forall r | r in w.readers && w.readers[r].HasRow? ::
          w.readers[r].readAt <= w.now && WasRow(w.table, w.readers[r].user, w.readers[r].profile, w.readers[r].readAt))
    && (forall e | e in w.served :: ServedOk(w, e))
  }

  /** A row seen at `t` is still that row at `t` once the table has moved on. */
  lemma WasRowKept(table: seq<Version>, v: Version, user: string, profile: UserPublic, t: int)
    requires WasRow(table, user, profile, t) && t <= v.since
    ensures WasRow(table + [v], user, profile, t)
  {
    var i :| 0 <= i < |table| && InForce(table, i, user, profile, t);
    assert InForce(table + [v], i, user, profile, t);
  }

  lemma ChangeStep(w: CacheWorld, rows: map<string, UserRow>)
    requires Inv(w)
    ensures Inv(Next(w, Change(rows)))
  {
    var w' := Next(w, Change(rows));
    forall user, profile, t | t <= w.now && WasRow(w.table, user, profile, t)
      ensures WasRow(w'.table, user, profile, t)
    {
      WasRowKept(w.table, Version(w.now, rows), user, profile, t);
    }
    forall e | e in w'.served ensures ServedOk(w', e) {
      assert ServedOk(w, e);
    }
  }

  lemma ReadRowStep(w: CacheWorld, s: CacheStep)
    requires Inv(w) && s.ReadRow?
    ensures Inv(Next(w, s))
  {
    var w' := Next(w, s);
    if w' != w && w'.readers[s.reader].HasRow? {
      assert InForce(w.table, |w.table| - 1, w'.readers[s.reader].user, w'.readers[s.reader].profile, w.now);
    }
    forall e | e in w'.served ensures ServedOk(w', e) {
      assert ServedOk(w, e);
    }
  }

  lemma FillStep(w: CacheWorld, s: CacheStep)
    requires Inv(w) && s.Fill?
    ensures Inv(Next(w, s))
  {
    hide WasRow;
  }

  lemma PlainStep(w: CacheWorld, s: CacheStep)
    requires Inv(w) && (s.Tick? || s.Look? || s.Skip?)
    ensures Inv(Next(w, s))
  {
    hide WasRow;
    var w' := Next(w, s);
    forall e | e in w'.served ensures ServedOk(w', e) {
      assert e in w.served ==> ServedOk(w, e);
    }
  }

  lemma {:induction false} InvRun(w: CacheWorld, steps: seq<CacheStep>)
    requires Inv(w)
    ensures Inv(Run(w, steps))
    decreases |steps|
  {
    if steps == [] {
    } else {
      match steps[0] {
        case Change(rows) => ChangeStep(w, rows);
        case ReadRow(_) => ReadRowStep(w, steps[0]);
        case Fill(_, _, _) => FillStep(w, steps[0]);
        case _ => PlainStep(w, steps[0]);
      }
      InvRun(Next(w, steps[0]), steps[1..]);
    }
  }

  ghost predicate Reachable(w: CacheWorld) {
    exists start: int, steps: seq<CacheStep> :: w == Run(Init(start), steps)
  }

  /** Over every run, a served profile is the public projection of the user's row as it was at some
      past read, at most an hour older than the gap between the read and the write that filled the entry. */
  lemma ServedAgeBounded(w: CacheWorld)
    requires Reachable(w)
    ensures forall e | e in w.served ::
              && WasRow(w.table, e.user, e.sighting.profile, e.sighting.readAt)
              && e.sighting.readAt <= e.sighting.writtenAt <= e.at <= w.now
              && e.at - e.sighting.readAt <= 3600000 + (e.sighting.writtenAt - e.sighting.readAt)
              && (!e.fromCache ==> e.at == e.sighting.writtenAt)
  {
    var start: int, steps: seq<CacheStep> :| w == Run(Init(start), steps);
    InvRun(Init(start), steps);
  }

  /** Everything known about `user` after `w0` comes from `w0`'s version of the table. */
  ghost predicate Fresh(w0: CacheWorld, w: CacheWorld, user: string)
    requires w0.table != []
  {
    var rows := Rows(w0);
    && w.table == w0.table && w0.served <= w.served
    && (Cached(w, user) ==> user in rows && w.cache[user].value.profile == ToPublicUser(user, rows[user]))
    && (forall r | r in w.readers && w.readers[r].HasRow? && w.readers[r].user == user ::
          user in rows && w.readers[r].profile == ToPublicUser(user, rows[user]))
    && (forall e | e in w.served[|w0.served|..] && e.user == user ::
        user in rows && e.sighting.profile == ToPublicUser(user, rows[user]))
  }

  lemma FreshStep(w0: CacheWorld, w: CacheWorld, s: CacheStep, user: string)
    requires w0.table != [] && Fresh(w0, w, user) && !s.Change?
    ensures Fresh(w0, Next(w, s), user)
  {
    hide ToPublicUser;
  }

  lemma {:induction false} FreshFrom(w0: CacheWorld, w: CacheWorld, steps: seq<CacheStep>, user: string)
    requires w0.table != [] && Fresh(w0, w, user) && forall s | s in steps :: !s.Change?
    ensures Fresh(w0, Run(w, steps), user)
    decreases |steps|
  {
    if steps == [] {
    } else {
      assert steps[0] in steps;
      FreshStep(w0, w, steps[0], user);
      FreshFrom(w0, Next(w, steps[0]), steps[1..], user);
    }
  }

  /** While the table stays as it is, once no cached entry and no reader holds an older row of a user,
      every profile served for that user is the current row. */
  lemma StaleReadsEnd(w: CacheWorld, steps: seq<CacheStep>, user: string)
    requires w.table != [] && forall s | s in steps :: !s.Change?
    requires var rows := Rows(w);
             && (Cached(w, user) ==> user in rows && w.cache[user].value.profile == ToPublicUser(user, rows[user]))
             && (forall r | r in w.readers && w.readers[r].HasRow? && w.readers[r].user == user ::
                   user in rows && w.readers[r].profile == ToPublicUser(user, rows[user]))
    ensures var w', rows := Run(w, steps), Rows(w);
            && w'.table == w.table && w.served <= w'.served
            && forall e | e in w'.served[|w.served|..] && e.user == user ::
                 user in rows && e.sighting.profile == ToPublicUser(user, rows[user])
  {
    FreshFrom(w, w, steps, user);
  }

  /** A cache write that succeeds answers every reader of that user that reaches the cache for an hour,
      and none after that. */
  lemma FilledServesForAnHour(w: CacheWorld, reader: nat, answers: bool, elapsed: nat, next: nat)
    requires reader in w.readers && w.readers[reader].HasRow? && next !in w.readers
    ensures var r := w.readers[reader];
            var w' := Next(Next(w, Fill(reader, true, answers)), Tick(elapsed));
            var served := Next(w', Look(next, r.user, true));
            if elapsed <= 3600000
            then |served.served| == |w'.served| + 1 && served.served[|w'.served|].user == r.user
                 && served.served[|w'.served|].sighting.profile == r.profile
            else served.served == w'.served && next in served.readers && served.readers[next] == NeedsRow(r.user)
  {
  }

  // ----- runs of one reader among others -----

  lemma {:induction false} RunConcat(w: CacheWorld, a: seq<CacheStep>, b: seq<CacheStep>)
    ensures Run(w, a + b) == Run(Run(w, a), b)
    decreases |a|
  {
    if a == [] {
      assert a + b == b;
    } else {
      assert (a + b)[1..] == a[1..] + b;
      RunConcat(Next(w, a[0]), a[1..], b);
    }
  }

  lemma RunNext(w: CacheWorld, a: seq<CacheStep>, s: CacheStep)
    ensures Run(w, a + [s]) == Next(Run(w, a), s)
  {
    RunConcat(w, a, [s]);
  }

  lemma RunThree(w: CacheWorld, a: CacheStep, env1: seq<CacheStep>, b: CacheStep, env2: seq<CacheStep>, c: CacheStep)
    ensures Run(w, [a] + env1 + [b]) == Next(Run(Next(w, a), env1), b)
    ensures Run(w, [a] + env1 + [b] + env2 + [c]) == Next(Run(Next(Run(Next(w, a), env1), b), env2), c)
  {
    RunConcat(w, [a], env1);
    RunNext(w, [a] + env1, b);
    RunConcat(w, [a] + env1 + [b], env2);
    RunNext(w, [a] + env1 + [b] + env2, c);
  }

  lemma ReachableNext(w: CacheWorld, s: CacheStep)
    requires Reachable(w)
    ensures Reachable(Next(w, s))
  {
    var start: int, steps: seq<CacheStep> :| w == Run(Init(start), steps);
    RunNext(Init(start), steps, s);
  }

  function ReaderOf(s: CacheStep): Option<nat> {
    match s
    case Look(reader, _, _) => Some(reader)
    case Skip(reader, _) => Some(reader)
    case ReadRow(reader) => Some(reader)
    case Fill(reader, _, _) => Some(reader)
    case _ => None
  }

  lemma ReaderKept(w: CacheWorld, s: CacheStep, reader: nat)
    requires ReaderOf(s) != Some(reader)
    ensures reader in Next(w, s).readers <==> reader in w.readers
    ensures reader in w.readers ==> Next(w, s).readers[reader] == w.readers[reader]
  {
  }
}
