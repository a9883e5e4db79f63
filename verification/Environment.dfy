/** What goes on around one request of the authentication service while it awaits: protocol steps of
    other requests, other logins' failures and successes, and profile writes of whoever reads or logs in. */
module Environments {
  import opened Domain
  import opened Keyspace
  import opened LoginThrottles
  import opened ThrottleModel
  import opened Tokens
  import opened Protocol
  import opened Deletion

  /** One failure or reset of the account with this normalized name. */
  datatype Logged = Logged(name: string, event: Event)

  /** `Caches` is a cache write that has gone through, of a login or of a profile read. */
  datatype EnvStep =
    | Session(step: Step)
    | Fails(username: string)
    | Clears(username: string)
    | Caches(userId: string, profile: UserPublic)

  // ----- the throttle's log -----

  function EventsFor(log: seq<Logged>, name: string): seq<Event>
    decreases |log|
  {
    if log == [] then []
    else
      var init, last := EventsFor(log[..|log| - 1], name), log[|log| - 1];
      if last.name == name then init + [last.event] else init
  }

  lemma EventsForMore(log: seq<Logged>, e: Logged, name: string)
    ensures EventsFor(log + [e], name)
            == if e.name == name then EventsFor(log, name) + [e.event] else EventsFor(log, name)
  {
    assert (log + [e])[..|log|] == log;
  }

  /** Every account is what the throttle's script makes of its log. */
  ghost predicate Tallies(p: Policy, failures: map<string, Slot<int>>, locks: map<string, int>, log: seq<Logged>) {
    forall name :: AccountIn(failures, locks, name) == Replay(p, EventsFor(log, name))
  }

  lemma TalliesNothing(p: Policy)
    ensures Typed(map[]) && Tallies(p, View(map[]).failures, View(map[]).locks, [])
  {
    hide View, Suits;
    var db: Db := map[];
    FailuresAt(db);
    LocksAt(db);
  }

  lemma TalliesMore(p: Policy, v: Spaces, v': Spaces, log: seq<Logged>, name: string, e: Event)
    requires Tallies(p, v.failures, v.locks, log) && OtherAccountsKept(v, v', name)
    requires AccountOf(v', name) == Effect(p, AccountOf(v, name), e)
    ensures Tallies(p, v'.failures, v'.locks, log + [Logged(name, e)])
  {
    hide Effect;
    forall n ensures AccountIn(v'.failures, v'.locks, n) == Replay(p, EventsFor(log + [Logged(name, e)], n)) {
      EventsForMore(log, Logged(name, e), n);
      ReplayMore(p, EventsFor(log, n), e);
      if n != name {
        assert AccountOf(v', n) == AccountOf(v, n);
      }
    }
  }

  ghost predicate LogEndsBy(log: seq<Logged>, now: int) {
    && (forall i, j | 0 <= i < j < |log| :: log[i].event.at <= log[j].event.at)
    && forall i | 0 <= i < |log| :: log[i].event.at <= now
  }

  lemma EndsLater(log: seq<Logged>, now: int, later: int)
    requires LogEndsBy(log, now) && now <= later
    ensures LogEndsBy(log, later)
  {
  }

  lemma LogMore(log: seq<Logged>, e: Logged, now: int)
    requires LogEndsBy(log, now) && e.event.at == now
    ensures LogEndsBy(log + [e], now)
  {
  }

  lemma EventsAppended(events: seq<Event>, e: Event, now: int)
    requires EndsBy(events, e.at) && e.at <= now
    ensures EndsBy(events, now) && EndsBy(events + [e], now)
  {
  }

  lemma {:induction false} EventsEndBy(log: seq<Logged>, name: string, now: int)
    requires LogEndsBy(log, now)
    ensures EndsBy(EventsFor(log, name), now)
    decreases |log|
  {
    if log == [] {
    } else {
      var init, last := log[..|log| - 1], log[|log| - 1];
      assert LogEndsBy(init, last.event.at);
      EventsEndBy(init, name, last.event.at);
      EventsAppended(EventsFor(init, name), last.event, now);
    }
  }

  lemma {:induction false} EventsGrow(log: seq<Logged>, more: seq<Logged>, name: string)
    requires log <= more
    ensures EventsFor(log, name) <= EventsFor(more, name)
    decreases |more|
  {
    if log == more {
    } else {
      var init := more[..|more| - 1];
      assert more == init + [more[|more| - 1]];
      EventsGrow(log, init, name);
      EventsForMore(init, more[|more| - 1], name);
    }
  }

  // ----- what the environment does to the state it shares with the request -----

  datatype Shared = Shared(now: int, log: seq<Logged>, profiles: map<string, Slot<UserPublic>>) {
    function Noted(username: string, failed: bool): Shared {
      this.(log := log + [Logged(Normalize(username), if failed then Failed(now) else Cleared(now))])
    }

    function Cached(userId: string, profile: UserPublic): Shared {
      this.(profiles := profiles[userId := Slot(profile, now + PROFILE_TTL_SECONDS * 1000)])
    }
  }

  function Elapsed(s: Step): nat {
    if s.Tick? then s.elapsed else 0
  }

  function SharedNext(s: Shared, e: EnvStep): Shared {
    match e
    case Session(step) => s.(now := s.now + Elapsed(step))
    case Fails(username) => s.Noted(username, true)
    case Clears(username) => s.Noted(username, false)
    case Caches(userId, profile) => s.Cached(userId, profile)
  }

  function SharedAfter(s: Shared, env: seq<EnvStep>): Shared
    decreases |env|
  {
    if env == [] then s else SharedAfter(SharedNext(s, env[0]), env[1..])
  }

  /** The protocol steps among the environment's. */
  function StepsOf(env: seq<EnvStep>): seq<Step> {
    if env == [] then []
    else if env[0].Session? then [env[0].step] + StepsOf(env[1..])
    else StepsOf(env[1..])
  }

  lemma {:induction false} InTwoParts(s: Shared, a: seq<EnvStep>, b: seq<EnvStep>)
    ensures SharedAfter(s, a + b) == SharedAfter(SharedAfter(s, a), b)
    ensures StepsOf(a + b) == StepsOf(a) + StepsOf(b)
    decreases |a|
  {
    if a == [] {
      assert a + b == b;
    } else {
      assert (a + b)[1..] == a[1..] + b;
      InTwoParts(SharedNext(s, a[0]), a[1..], b);
    }
  }

  /** What one environment step adds to an account's log: a failure or a reset of that account now, or nothing. */
  lemma EnvironmentEvents(s: Shared, e: EnvStep, name: string)
    ensures EventsFor(SharedNext(s, e).log, name) == EventsFor(s.log, name) + (
              if e.Fails? && Normalize(e.username) == name then [Failed(s.now)]
              else if e.Clears? && Normalize(e.username) == name then [Cleared(s.now)]
              else [])
  {
    hide Normalize;
    if e.Fails? {
      EventsForMore(s.log, Logged(Normalize(e.username), Failed(s.now)), name);
    } else if e.Clears? {
      EventsForMore(s.log, Logged(Normalize(e.username), Cleared(s.now)), name);
    }
  }

  lemma {:induction false} SharedGrows(s: Shared, env: seq<EnvStep>)
    ensures s.log <= SharedAfter(s, env).log && s.now <= SharedAfter(s, env).now
    decreases |env|
  {
    if env == [] {
    } else {
      SharedGrows(SharedNext(s, env[0]), env[1..]);
    }
  }

  function Sessions(steps: seq<Step>): seq<EnvStep> {
    if steps == [] then [] else [Session(steps[0])] + Sessions(steps[1..])
  }

  /** Any sequence of protocol steps can go on during an await. */
  lemma {:induction false} AnyStepsCanRun(steps: seq<Step>)
    ensures StepsOf(Sessions(steps)) == steps
    decreases |steps|
  {
    if steps == [] {
    } else {
      AnyStepsCanRun(steps[1..]);
      assert Sessions(steps)[1..] == Sessions(steps[1..]);
    }
  }

  // ----- steps of other requests -----

  /** Digests of the validators that a step generates or presents. */
  function DigestsOf(s: Step): set<Digest> {
    match s
    case LoginCreate(_, _, validator, _, _) => {Digest(validator)}
    case RefreshRotate(_, validator, _) => {Digest(validator)}
    case RefreshGet(_, raw) =>
      var token := SplitRefreshToken(raw);
      if token.Some? then {Digest(token.value.validator)} else {}
    case _ => {}
  }

  function SessionsOf(s: Step): set<string> {
    if s.LoginCreate? then {s.sessionId} else {}
  }

  predicate ForeignStep(s: Step, req: nat, digest: Digest, sessionId: string) {
    RequestOf(s) != Some(req) && digest !in DigestsOf(s) && sessionId !in SessionsOf(s)
  }

  /** Steps of other requests, none of which happens upon this validator or session id. */
  predicate Foreign(env: seq<EnvStep>, req: nat, digest: Digest, sessionId: string) {
    forall e | e in env && e.Session? :: ForeignStep(e.step, req, digest, sessionId)
  }

  lemma FreshStep(w: World, s: Step, digest: Digest, sessionId: string)
    requires digest !in DigestsOf(s) && sessionId !in SessionsOf(s)
    ensures digest in Next(w, s).seen <==> digest in w.seen
    ensures sessionId in Next(w, s).chains <==> sessionId in w.chains
  {
  }

  lemma RunTwo(w: World, env1: seq<Step>, a: Step, env2: seq<Step>, b: Step, env3: seq<Step>)
    ensures Run(w, env1 + [a] + env2 + [b] + env3) == Run(Next(Run(Next(Run(w, env1), a), env2), b), env3)
  {
    RunConcat(w, env1, [a]);
    RunConcat(w, env1 + [a], env2);
    RunConcat(w, env1 + [a] + env2, [b]);
    RunConcat(w, env1 + [a] + env2 + [b], env3);
  }

  lemma RunThree(w: World, a: Step, env1: seq<Step>, b: Step, env2: seq<Step>, c: Step)
    ensures Run(w, [a] + env1 + [b] + env2 + [c]) == Next(Run(Next(Run(Next(w, a), env1), b), env2), c)
  {
    RunConcat(w, [a], env1);
    RunConcat(w, [a] + env1, [b]);
    RunConcat(w, [a] + env1 + [b], env2);
    RunConcat(w, [a] + env1 + [b] + env2, [c]);
  }
}
