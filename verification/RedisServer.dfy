/** The Redis server: one keyspace, one clock, and the commands the application issues. */
module RedisServer {
  import opened Domain
  import opened Keyspace

  /** A key is gone only once the clock is past its expiry. */
  predicate Visible(db: Db, now: int, key: string) {
    key in db && (db[key].expiry.Some? ==> now <= db[key].expiry.value)
  }

  /** SREM keeps the expiry of a set that stays non-empty and removes one left empty. */
  function WithoutMember(db: Db, now: int, key: string, member: string): Db
    requires Visible(db, now, key) ==> db[key].value.MembersValue?
  {
    if !Visible(db, now, key) || member !in db[key].value.members then db
    else
      var rest := db[key].value.members - {member};
      if rest == {} then db - {key} else db[key := Entry(MembersValue(rest), db[key].expiry)]
  }

  class Redis {
    var now: int
    var db: Db

    constructor (start: int)
      ensures now == start && db == map[]
    {
      now, db := start, map[];
    }

    method Get(key: string) returns (v: Option<Value>)
      ensures v == if Visible(db, now, key) then Some(db[key].value) else None
    {
      if key in db && (db[key].expiry.None? || now <= db[key].expiry.value) {
        v := Some(db[key].value);
      } else {
        v := None;
      }
    }

    /** SET with EX: a TTL that is not positive is an error and writes nothing. */
    method SetEx(key: string, value: Value, ttl: int) returns (ok: bool)
      modifies this`db
      ensures ok == (ttl > 0)
      ensures db == if ok then old(db)[key := Entry(value, Some(now + ttl * 1000))] else old(db)
    {
      ok := ttl > 0;
      if ok {
        db := db[key := Entry(value, Some(now + ttl * 1000))];
      }
    }

    method Del(key: string)
      modifies this`db
      ensures db == old(db) - {key}
    {
      db := db - {key};
    }

    method SAdd(key: string, member: string)
      requires Visible(db, now, key) ==> db[key].value.MembersValue?
      modifies this`db
      ensures db == old(db)[key := if old(Visible(db, now, key))
                                   then Entry(MembersValue(old(db)[key].value.members + {member}), old(db)[key].expiry)
                                   else Entry(MembersValue({member}), None)]
    {
      if Visible(db, now, key) {
        db := db[key := Entry(MembersValue(db[key].value.members + {member}), db[key].expiry)];
      } else {
        db := db[key := Entry(MembersValue({member}), None)];
      }
    }

    method SRem(key: string, member: string)
      requires Visible(db, now, key) ==> db[key].value.MembersValue?
      modifies this`db
      ensures db == WithoutMember(old(db), now, key, member)
    {
      if Visible(db, now, key) && member in db[key].value.members {
        var rest := db[key].value.members - {member};
        if rest == {} {
          db := db - {key};
        } else {
          db := db[key := Entry(MembersValue(rest), db[key].expiry)];
        }
      }
    }

    method SMembers(key: string) returns (members: set<string>)
      requires Visible(db, now, key) ==> db[key].value.MembersValue?
      ensures members == if Visible(db, now, key) then db[key].value.members else {}
    {
      members := if Visible(db, now, key) then db[key].value.members else {};
    }

    /** A TTL that is not positive removes the key at once. */
    method Expire(key: string, ttl: int)
      modifies this`db
      ensures db == if !old(Visible(db, now, key)) then old(db)
                    else if ttl > 0 then old(db)[key := old(db)[key].(expiry := Some(now + ttl * 1000))]
                    else old(db) - {key}
    {
      if Visible(db, now, key) {
        if ttl > 0 {
          db := db[key := db[key].(expiry := Some(now + ttl * 1000))];
        } else {
          db := db - {key};
        }
      }
    }

    /** INCR creates a missing counter at 1, without an expiry. */
    method Incr(key: string) returns (n: int)
      requires Visible(db, now, key) ==> db[key].value.CounterValue?
      modifies this`db
      ensures n == if old(Visible(db, now, key)) then old(db)[key].value.count + 1 else 1
      ensures var expiry := if old(Visible(db, now, key)) then old(db)[key].expiry else None;
              db == old(db)[key := Entry(CounterValue(n), expiry)]
    {
      if Visible(db, now, key) {
        n := db[key].value.count + 1;
        db := db[key := Entry(CounterValue(n), db[key].expiry)];
      } else {
        n := 1;
        db := db[key := Entry(CounterValue(n), None)];
      }
    }

    /** Seconds left, rounded to the nearest; -2 for a missing key, -1 for one that never expires. */
    method Ttl(key: string) returns (seconds: int)
      ensures seconds == if !Visible(db, now, key) then -2
                         else if db[key].expiry.None? then -1
                         else (db[key].expiry.value - now + 500) / 1000
    {
      if !Visible(db, now, key) {
        seconds := -2;
      } else if db[key].expiry.None? {
        seconds := -1;
      } else {
        seconds := (db[key].expiry.value - now + 500) / 1000;
      }
    }
  }
}
