/** The limiter object itself, each call proved to be one operation of the Limiter model
    (internal/api/http/httputil/limiter.go:49-209). */
module LoginRateLimiters {
  import opened Limiter

  lemma Overwrite(m: Entries, ip: string, a: Entry, b: Entry)
    ensures m[ip := a][ip := b] == m[ip := b]
  {
  }

  class LoginRateLimiter {
    const cfg: Config
    var entries: Entries

    ghost predicate Valid()
      reads this
    {
      Normal(cfg) && Inv(cfg, entries)
    }

    constructor (c: Config)
      ensures Valid() && cfg == Normalized(c) && entries == map[]
    {
      cfg := Normalized(c);
      entries := map[];
    }

    /** The scan for the longest-idle entry; map order decides among equals. */
    method OldestKey() returns (oldestKey: string)
      requires Valid() && |entries| > 0
      ensures IsOldest(entries, oldestKey)
    {
      var todo := entries.Keys;
      oldestKey := "";
      var oldestTime := 0;
      assert |entries| == |entries.Keys|;
      while todo != {}
        invariant todo <= entries.Keys
        invariant oldestKey == "" ==> todo == entries.Keys
        invariant oldestKey != "" ==> oldestKey in entries && entries[oldestKey].lastRefill == oldestTime
        invariant forall k :: k in entries && k !in todo ==> oldestKey != "" && oldestTime <= entries[k].lastRefill
        decreases |todo|
      {
        var k :| k in todo;
        if oldestKey == "" || entries[k].lastRefill < oldestTime {
          oldestKey := k;
          oldestTime := entries[k].lastRefill;
        }
        todo := todo - {k};
      }
    }

    /** Finds or creates the entry of ip; the victim is what was evicted, if anything was. */
    method EntryLocked(ip: string, now: int) returns (e: Entry, ghost victim: string)
      requires Valid() && ip != ""
      modifies this
      ensures Valid()
      ensures Possible(cfg, old(entries), TakeOp(ip, now, victim))
      ensures e == Found(cfg, old(entries), ip, now)
      ensures entries == Room(cfg, old(entries), ip, victim)[ip := e]
    {
      victim := "";
      if ip in entries {
        e := entries[ip];
        assert entries == entries[ip := e];
      } else {
        if |entries| >= cfg.maxEntries {
          var oldestKey := OldestKey();
          victim := oldestKey;
          RoomSize(cfg, entries, ip, victim);
          entries := entries - {oldestKey};
        }
        e := Entry(cfg.capacity, now);
        UpdateSize(entries, ip, e);
        entries := entries[ip := e];
      }
    }

    method RefillLocked(e: Entry, now: int) returns (r: Entry)
      requires Normal(cfg) && Sane(cfg, e)
      ensures r == Refilled(cfg, e, now) && Sane(cfg, r)
    {
      RefilledSane(cfg, e, now);
      var elapsed := now - e.lastRefill;
      if elapsed <= 0 {
        return e;
      }
      r := Entry(Min(cfg.capacity, e.tokens + Accrued(cfg, elapsed)), now);
    }

    /** One attempt from ip: the state and the answer are those of a Take the model allows. */
    method Take(ip: string, now: int) returns (retryAfter: int, ok: bool, ghost victim: string)
      requires Valid()
      modifies this
      ensures Valid()
      ensures Possible(cfg, old(entries), TakeOp(ip, now, victim))
      ensures (entries, Answer(retryAfter, ok)) == Limiter.Take(cfg, old(entries), ip, now, victim)
    {
      victim := "";
      if ip == "" {
        return 0, true, victim;
      }
      ghost var before := entries;
      var e;
      e, victim := EntryLocked(ip, now);
      ghost var room := Room(cfg, before, ip, victim);
      TakeInv(cfg, before, ip, now, victim);
      ghost var created := e;
      e := RefillLocked(e, now);
      var left := e;
      if e.tokens >= 1.0 {
        left := Entry(e.tokens - 1.0, e.lastRefill);
        retryAfter, ok := 0, true;
      } else {
        retryAfter, ok := Ceil((1.0 - e.tokens) / Rate(cfg)), false;
      }
      assert (left, Answer(retryAfter, ok)) == Spend(cfg, e);
      Overwrite(room, ip, created, left);
      entries := entries[ip := left];
    }

    method RecordLoginSuccess(ip: string)
      requires Valid()
      modifies this
      ensures Valid() && entries == Step(cfg, old(entries), SuccessOp(ip), true)
    {
      StepInv(cfg, entries, SuccessOp(ip), true);
      if ip != "" {
        entries := entries - {ip};
      }
    }

    method Cleanup(now: int)
      requires Valid()
      modifies this
      ensures Valid() && entries == Step(cfg, old(entries), CleanupOp(now), true)
    {
      StepInv(cfg, entries, CleanupOp(now), true);
      ghost var before := entries;
      var cutoff := now - cfg.staleTTL;
      var todo := entries.Keys;
      while todo != {}
        invariant todo <= entries.Keys <= before.Keys
        invariant forall k :: k in entries ==> entries[k] == before[k]
        invariant forall k :: k in entries && k !in todo ==> before[k].lastRefill >= cutoff
        invariant forall k :: k in before && k !in entries ==> before[k].lastRefill < cutoff
        decreases |todo|
      {
        var k :| k in todo;
        if entries[k].lastRefill < cutoff {
          entries := entries - {k};
        }
        todo := todo - {k};
      }
      assert entries == Cleaned(cfg, before, now);
    }
  }
}
