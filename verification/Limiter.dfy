/** The login token bucket: admission bound, unobservable cleanup and sufficient Retry-After
    (internal/api/http/httputil/limiter.go). Times are nanoseconds; token amounts are exact reals. */
module Limiter {
  datatype Config = Config(capacity: real, period: int, maxEntries: int, staleTTL: int)

  /** normalized: non-positive settings fall back to the defaults. */
  function Normalized(c: Config): (r: Config)
    ensures Normal(r)
    ensures c.capacity > 0.0 ==> r.capacity == c.capacity
    ensures c.period > 0 ==> r.period == c.period
    ensures c.maxEntries > 0 ==> r.maxEntries == c.maxEntries
    ensures c.staleTTL > 0 ==> r.staleTTL == c.staleTTL
  {
    Config(if c.capacity <= 0.0 then 5.0 else c.capacity,
           if c.period <= 0 then 600_000_000_000 else c.period,
           if c.maxEntries <= 0 then 10000 else c.maxEntries,
           if c.staleTTL <= 0 then 1_200_000_000_000 else c.staleTTL)
  }

  predicate Normal(c: Config) {
    c.capacity > 0.0 && c.period > 0 && c.maxEntries > 0 && c.staleTTL > 0
  }

  datatype Entry = Entry(tokens: real, lastRefill: int)

  type Entries = map<string, Entry>

  /** Tokens per nanosecond. */
  function Rate(c: Config): real
    requires Normal(c)
  {
    c.capacity / c.period as real
  }

  /** What accrues in some nanoseconds, one after the other; see AccruedIs. */
  function Accrued(c: Config, elapsed: int): real
    requires Normal(c)
    decreases if elapsed < 0 then -elapsed else elapsed
  {
    if elapsed == 0 then 0.0
    else if elapsed > 0 then Accrued(c, elapsed - 1) + Rate(c)
    else Accrued(c, elapsed + 1) - Rate(c)
  }

  function Min(x: real, y: real): real {
    if x < y then x else y
  }

  function Ceil(x: real): int {
    -((-x).Floor)
  }

  /** refillLocked. */
  function Refilled(c: Config, e: Entry, now: int): Entry
    requires Normal(c)
  {
    if now <= e.lastRefill then e
    else Entry(Min(c.capacity, e.tokens + Accrued(c, now - e.lastRefill)), now)
  }

  // ---------- Steps ----------

  /** A longest-idle entry; which of several equals is taken depends on map order. */
  ghost predicate IsOldest(m: Entries, k: string) {
    k in m && forall j :: j in m ==> m[k].lastRefill <= m[j].lastRefill
  }

  predicate Full(c: Config, m: Entries, ip: string) {
    ip !in m && |m| >= c.maxEntries
  }

  /** The table with room for ip: when it is full the victim is evicted. */
  function Room(c: Config, m: Entries, ip: string, victim: string): Entries {
    if Full(c, m, ip) then m - {victim} else m
  }

  /** entryLocked: the entry of ip, a full one where there is none yet. */
  function Found(c: Config, m: Entries, ip: string, now: int): Entry {
    if ip in m then m[ip] else Entry(c.capacity, now)
  }

  datatype Answer = Answer(retryAfter: int, ok: bool)

  /** Spending a token of a refilled entry, or the wait until there is one. */
  function Spend(c: Config, e: Entry): (Entry, Answer)
    requires Normal(c)
  {
    if e.tokens >= 1.0 then (Entry(e.tokens - 1.0, e.lastRefill), Answer(0, true))
    else (e, Answer(Ceil((1.0 - e.tokens) / Rate(c)), false))
  }

  function Take(c: Config, m: Entries, ip: string, now: int, victim: string): (Entries, Answer)
    requires Normal(c)
  {
    if ip == "" then (m, Answer(0, true))
    else
      var (e, answer) := Spend(c, Refilled(c, Found(c, m, ip, now), now));
      (Room(c, m, ip, victim)[ip := e], answer)
  }

  /** Cleanup: drop entries idle longer than StaleTTL. */
  function Cleaned(c: Config, m: Entries, now: int): Entries {
    map k | k in m && m[k].lastRefill >= now - c.staleTTL :: m[k]
  }

  datatype Op =
    | TakeOp(ip: string, now: int, victim: string)
    | SuccessOp(ip: string)
    | CleanupOp(now: int)

  /** One operation; with cleaning off, Cleanup does nothing. */
  function Step(c: Config, m: Entries, op: Op, cleaning: bool): Entries
    requires Normal(c)
  {
    match op
    case TakeOp(ip, now, victim) => Take(c, m, ip, now, victim).0
    case SuccessOp(ip) => if ip == "" then m else m - {ip}
    case CleanupOp(now) => if cleaning then Cleaned(c, m, now) else m
  }

  /** The victim of an evicting Take is one the scan can choose. */
  ghost predicate Possible(c: Config, m: Entries, op: Op) {
    op.TakeOp? && op.ip != "" && Full(c, m, op.ip) ==> IsOldest(m, op.victim)
  }

  ghost predicate PossibleRun(c: Config, m: Entries, ops: seq<Op>, cleaning: bool)
    requires Normal(c)
    decreases |ops|
  {
    ops == [] || (Possible(c, m, ops[0]) && PossibleRun(c, Step(c, m, ops[0], cleaning), ops[1..], cleaning))
  }

  /** The answers of the Takes of a run, in order. */
  function Answers(c: Config, m: Entries, ops: seq<Op>, cleaning: bool): seq<Answer>
    requires Normal(c)
    decreases |ops|
  {
    if ops == [] then []
    else
      (if ops[0].TakeOp? then [Take(c, m, ops[0].ip, ops[0].now, ops[0].victim).1] else [])
      + Answers(c, Step(c, m, ops[0], cleaning), ops[1..], cleaning)
  }

  // ---------- Arithmetic of the refill ----------

  /** Elapsed time times the refill rate. */
  lemma {:induction false} AccruedIs(c: Config, elapsed: int)
    requires Normal(c)
    ensures Accrued(c, elapsed) == elapsed as real * Rate(c)
    decreases if elapsed < 0 then -elapsed else elapsed
  {
    if elapsed > 0 {
      AccruedIs(c, elapsed - 1);
    } else if elapsed < 0 {
      AccruedIs(c, elapsed + 1);
    }
  }

  lemma {:induction false} AccruedAdd(c: Config, a: int, b: int)
    requires Normal(c)
    ensures Accrued(c, a + b) == Accrued(c, a) + Accrued(c, b)
    decreases if b < 0 then -b else b
  {
    if b > 0 {
      AccruedAdd(c, a, b - 1);
    } else if b < 0 {
      AccruedAdd(c, a, b + 1);
    }
  }

  lemma {:induction false} AccruedMono(c: Config, a: int, b: int)
    requires Normal(c) && a <= b
    ensures Accrued(c, a) <= Accrued(c, b)
    ensures a >= 0 ==> Accrued(c, a) >= 0.0
  {
    AccruedAdd(c, a, b - a);
    AccruedGrows(c, b - a);
    if a >= 0 {
      AccruedGrows(c, a);
    }
  }

  lemma {:induction false} AccruedGrows(c: Config, n: nat)
    requires Normal(c)
    ensures Accrued(c, n) >= 0.0
  {
    RatePositive(c);
    if n > 0 {
      AccruedGrows(c, n - 1);
    }
  }

  lemma RatePositive(c: Config)
    requires Normal(c)
    ensures Rate(c) > 0.0
  {
  }

  lemma AccruedPeriod(c: Config)
    requires Normal(c)
    ensures Accrued(c, c.period) == c.capacity
  {
    AccruedIs(c, c.period);
  }

  ghost predicate Sane(c: Config, e: Entry) {
    0.0 <= e.tokens <= c.capacity
  }

  lemma RefilledSane(c: Config, e: Entry, now: int)
    requires Normal(c) && Sane(c, e)
    ensures Sane(c, Refilled(c, e, now)) && Refilled(c, e, now).lastRefill >= e.lastRefill
    ensures Refilled(c, e, now).tokens >= e.tokens
    ensures Refilled(c, e, now).lastRefill == if now <= e.lastRefill then e.lastRefill else now
  {
    if now > e.lastRefill {
      AccruedMono(c, 0, now - e.lastRefill);
    }
  }

  /** Refilling in two steps is refilling once. */
  lemma RefillComposes(c: Config, e: Entry, t: int, u: int)
    requires Normal(c) && Sane(c, e) && e.lastRefill <= t <= u
    ensures Refilled(c, Refilled(c, e, t), u) == Refilled(c, e, u)
  {
    AccruedAdd(c, t - e.lastRefill, u - t);
    AccruedMono(c, 0, u - t);
    AccruedMono(c, 0, t - e.lastRefill);
  }

  /** An entry idle for a whole period is full again. */
  lemma FullAfterPeriod(c: Config, e: Entry, now: int)
    requires Normal(c) && Sane(c, e) && now - e.lastRefill >= c.period
    ensures Refilled(c, e, now) == Entry(c.capacity, now)
  {
    AccruedMono(c, c.period, now - e.lastRefill);
    AccruedPeriod(c);
  }

  // ---------- Bounds kept by every run ----------

  ghost predicate Inv(c: Config, m: Entries) {
    && (forall k :: k in m ==> k != "" && Sane(c, m[k]))
    && |m| <= c.maxEntries
  }

  lemma SubmapSize(a: Entries, b: Entries)
    requires a.Keys <= b.Keys
    ensures |a| <= |b|
    ensures a.Keys < b.Keys ==> |a| < |b|
  {
    assert |a| == |a.Keys| && |b| == |b.Keys| && b.Keys == a.Keys + (b.Keys - a.Keys);
    if a.Keys < b.Keys {
      var k :| k in b.Keys - a.Keys;
    }
  }

  lemma UpdateSize(m: Entries, ip: string, e: Entry)
    ensures |m[ip := e]| == if ip in m then |m| else |m| + 1
  {
  }

  lemma RoomSize(c: Config, m: Entries, ip: string, victim: string)
    requires |m| <= c.maxEntries && (Full(c, m, ip) ==> victim in m)
    ensures |Room(c, m, ip, victim)| + (if ip in m then 0 else 1) <= c.maxEntries
  {
  }

  lemma TakeInv(c: Config, m: Entries, ip: string, now: int, victim: string)
    requires Normal(c) && Inv(c, m) && ip != "" && (Full(c, m, ip) ==> victim in m)
    ensures Inv(c, Take(c, m, ip, now, victim).0)
  {
    var e := Refilled(c, Found(c, m, ip, now), now);
    assert Sane(c, Found(c, m, ip, now));
    RefilledSane(c, Found(c, m, ip, now), now);
    RoomSize(c, m, ip, victim);
    UpdateSize(Room(c, m, ip, victim), ip, Spend(c, e).0);
  }

  lemma StepInv(c: Config, m: Entries, op: Op, cleaning: bool)
    requires Normal(c) && Inv(c, m) && Possible(c, m, op)
    ensures Inv(c, Step(c, m, op, cleaning))
  {
    match op
    case TakeOp(ip, now, victim) =>
      if ip != "" {
        TakeInv(c, m, ip, now, victim);
      }
    case SuccessOp(ip) => SubmapSize(m - {ip}, m);
    case CleanupOp(now) => SubmapSize(Cleaned(c, m, now), m);
  }

  /** Tokens stay between zero and the capacity, and the table within MaxEntries, over every run. */
  lemma {:induction false} RunInv(c: Config, m: Entries, ops: seq<Op>, cleaning: bool)
    requires Normal(c) && Inv(c, m) && PossibleRun(c, m, ops, cleaning)
    ensures forall i :: 0 <= i <= |ops| ==> Inv(c, StateAt(c, m, ops[..i], cleaning))
    decreases |ops|
  {
    if ops == [] {
      assert ops[..0] == [];
    } else {
      StepInv(c, m, ops[0], cleaning);
      var m' := Step(c, m, ops[0], cleaning);
      RunInv(c, m', ops[1..], cleaning);
      forall i | 0 <= i <= |ops|
        ensures Inv(c, StateAt(c, m, ops[..i], cleaning))
      {
        if i > 0 {
          assert ops[..i][1..] == ops[1..][..i - 1];
          assert Inv(c, StateAt(c, m', ops[1..][..i - 1], cleaning));
        }
      }
    }
  }

  function StateAt(c: Config, m: Entries, ops: seq<Op>, cleaning: bool): Entries
    requires Normal(c)
    decreases |ops|
  {
    if ops == [] then m else StateAt(c, Step(c, m, ops[0], cleaning), ops[1..], cleaning)
  }

  // ---------- The admission bound ----------

  /** One if the call is a Take of ip that is let through. */
  function Admits(c: Config, m: Entries, op: Op, ip: string): nat
    requires Normal(c)
  {
    if op.TakeOp? && op.ip == ip && Take(c, m, ip, op.now, op.victim).1.ok then 1 else 0
  }

  /** Takes of ip that were let through. */
  function Admitted(c: Config, m: Entries, ops: seq<Op>, ip: string, cleaning: bool): nat
    requires Normal(c)
    decreases |ops|
  {
    if ops == [] then 0
    else Admits(c, m, ops[0], ip) + Admitted(c, Step(c, m, ops[0], cleaning), ops[1..], ip, cleaning)
  }

  /** No success, eviction or cleanup removes the entry of ip while it exists. */
  ghost predicate NeverRemoved(c: Config, m: Entries, ops: seq<Op>, ip: string, cleaning: bool)
    requires Normal(c)
    decreases |ops|
  {
    ops == [] ||
    ((ip in m ==> ip in Step(c, m, ops[0], cleaning))
     && NeverRemoved(c, Step(c, m, ops[0], cleaning), ops[1..], ip, cleaning))
  }

  /** Every Take of ip happens in the window. */
  ghost predicate Within(ops: seq<Op>, ip: string, lo: int, hi: int) {
    forall i :: 0 <= i < |ops| && ops[i].TakeOp? && ops[i].ip == ip ==> lo <= ops[i].now <= hi
  }

  function Ahead(hi: int, e: Entry): nat {
    if hi > e.lastRefill then hi - e.lastRefill else 0
  }

  /** What a Take costs the budget of tokens held plus tokens still to accrue. */
  lemma TakeBudget(c: Config, e: Entry, now: int, hi: int)
    requires Normal(c) && Sane(c, e) && now <= hi
    ensures var (e', answer) := Spend(c, Refilled(c, e, now));
            e'.tokens + Accrued(c, Ahead(hi, e')) + (if answer.ok then 1.0 else 0.0)
            <= e.tokens + Accrued(c, Ahead(hi, e))
  {
    if now > e.lastRefill {
      AccruedAdd(c, now - e.lastRefill, hi - now);
      assert Accrued(c, 0) == 0.0;
    }
  }

  lemma {:induction false} Budget(c: Config, m: Entries, ops: seq<Op>, ip: string, lo: int, hi: int)
    requires Normal(c) && Inv(c, m) && PossibleRun(c, m, ops, false) && NeverRemoved(c, m, ops, ip, false)
    requires ip in m && Within(ops, ip, lo, hi)
    ensures Admitted(c, m, ops, ip, false) as real <= m[ip].tokens + Accrued(c, Ahead(hi, m[ip]))
    decreases |ops|
  {
    AccruedMono(c, 0, Ahead(hi, m[ip]));
    if ops != [] {
      var op, m' := ops[0], Step(c, m, ops[0], false);
      StepInv(c, m, op, false);
      assert Within(ops[1..], ip, lo, hi);
      Budget(c, m', ops[1..], ip, lo, hi);
      if op.TakeOp? && op.ip == ip {
        TakeBudget(c, m[ip], op.now, hi);
      }
    }
  }

  /** In any window, attempts admitted without the entry being removed number at most
      the capacity plus what accrues over the window. Clock readings need not be ordered. */
  lemma {:induction false} AdmissionBound(c: Config, m: Entries, ops: seq<Op>, ip: string, lo: int, hi: int)
    requires Normal(c) && Inv(c, m) && PossibleRun(c, m, ops, false) && NeverRemoved(c, m, ops, ip, false)
    requires ip != "" && lo <= hi && Within(ops, ip, lo, hi)
    ensures Admitted(c, m, ops, ip, false) as real <= c.capacity + Accrued(c, hi - lo)
    decreases |ops|
  {
    AccruedMono(c, 0, hi - lo);
    if ops != [] {
      var op, m' := ops[0], Step(c, m, ops[0], false);
      StepInv(c, m, op, false);
      assert Within(ops[1..], ip, lo, hi);
      if op.TakeOp? && op.ip == ip {
        FirstTake(c, m, ops, ip, lo, hi);
      } else {
        AdmissionBound(c, m', ops[1..], ip, lo, hi);
      }
    }
  }

  /** A first Take in the window leaves at most the capacity and what can still accrue. */
  lemma FirstSpend(c: Config, e: Entry, now: int, lo: int, hi: int)
    requires Normal(c) && Sane(c, e) && lo <= now <= hi
    ensures var (e', answer) := Spend(c, Refilled(c, e, now));
            e'.tokens + Accrued(c, Ahead(hi, e')) + (if answer.ok then 1.0 else 0.0)
            <= c.capacity + Accrued(c, hi - lo)
  {
    RefilledSane(c, e, now);
    AccruedMono(c, Ahead(hi, Refilled(c, e, now)), hi - lo);
  }

  lemma FirstTake(c: Config, m: Entries, ops: seq<Op>, ip: string, lo: int, hi: int)
    requires Normal(c) && Inv(c, m) && PossibleRun(c, m, ops, false) && NeverRemoved(c, m, ops, ip, false)
    requires ip != "" && ops != [] && ops[0].TakeOp? && ops[0].ip == ip && Within(ops, ip, lo, hi)
    ensures Admitted(c, m, ops, ip, false) as real <= c.capacity + Accrued(c, hi - lo)
  {
    var op := ops[0];
    var e := Found(c, m, ip, op.now);
    assert Sane(c, e);
    FirstSpend(c, e, op.now, lo, hi);
    TakeInv(c, m, ip, op.now, op.victim);
    assert Within(ops[1..], ip, lo, hi);
    Budget(c, Step(c, m, op, false), ops[1..], ip, lo, hi);
  }

  // ---------- The admission bound with cleanups ----------

  /** The latest clock reading so far. */
  function Latest(clock: int, op: Op): int {
    if op.SuccessOp? || op.now < clock then clock else op.now
  }

  /** No reading is more than lag behind the latest one before it; 0 means readings in order. */
  ghost predicate Lagging(ops: seq<Op>, clock: int, lag: nat)
    decreases |ops|
  {
    ops == [] ||
    ((ops[0].SuccessOp? || clock - lag <= ops[0].now) && Lagging(ops[1..], Latest(clock, ops[0]), lag))
  }

  /** No success and no eviction removes the entry of ip; cleanups may. */
  ghost predicate Unforgiven(c: Config, m: Entries, ops: seq<Op>, ip: string)
    requires Normal(c)
    decreases |ops|
  {
    ops == [] ||
    ((ip in m && !ops[0].CleanupOp? ==> ip in Step(c, m, ops[0], true))
     && Unforgiven(c, Step(c, m, ops[0], true), ops[1..], ip))
  }

  /** What ip can still be given up to hi: tokens held plus tokens to come. Without an entry it gets a
      full one, at base at the earliest. */
  function Credit(c: Config, m: Entries, ip: string, base: int, hi: int): real
    requires Normal(c)
  {
    if ip in m then m[ip].tokens + Accrued(c, Ahead(hi, m[ip]))
    else if hi < base then 0.0
    else c.capacity + Accrued(c, hi - base)
  }

  lemma CreditFalls(c: Config, m: Entries, ip: string, base: int, base': int, hi: int)
    requires Normal(c) && Inv(c, m) && base <= base'
    ensures 0.0 <= Credit(c, m, ip, base', hi) <= Credit(c, m, ip, base, hi)
  {
    if ip in m {
      AccruedMono(c, 0, Ahead(hi, m[ip]));
    } else {
      if hi >= base {
        AccruedMono(c, 0, hi - base);
      }
      if hi >= base' {
        AccruedMono(c, hi - base', hi - base);
      }
    }
  }

  lemma TakeCredit(c: Config, m: Entries, ip: string, now: int, v: string, base: int, base': int, hi: int)
    requires Normal(c) && Inv(c, m) && ip != "" && base <= now <= hi
    ensures var (m', answer) := Take(c, m, ip, now, v);
            Credit(c, m', ip, base', hi) + (if answer.ok then 1.0 else 0.0) <= Credit(c, m, ip, base, hi)
  {
    var e := Found(c, m, ip, now);
    assert Sane(c, e);
    TakeBudget(c, e, now, hi);
    if ip !in m {
      AccruedMono(c, hi - now, hi - base);
    }
  }

  /** An entry that a cleanup drops would have been full again before the next reading. */
  lemma CleanupCredit(c: Config, m: Entries, ip: string, now: int, base: int, hi: int)
    requires Normal(c) && Inv(c, m) && ip in m && ip !in Cleaned(c, m, now)
    requires now - c.staleTTL + c.period - 1 <= base
    ensures Credit(c, Cleaned(c, m, now), ip, base, hi) <= Credit(c, m, ip, base, hi)
  {
    if hi >= base {
      FullLater(c, m[ip].lastRefill, base, hi);
    } else {
      AccruedMono(c, 0, Ahead(hi, m[ip]));
    }
  }

  lemma FullLater(c: Config, last: int, base: int, hi: int)
    requires Normal(c) && last + c.period <= base <= hi
    ensures Accrued(c, hi - last) >= c.capacity + Accrued(c, hi - base)
  {
    AccruedMono(c, c.period, base - last);
    AccruedPeriod(c);
    AccruedAdd(c, hi - base, base - last);
  }

  /** A call that is not a Take of ip leaves its entry alone or removes it. */
  lemma StepElsewhere(c: Config, m: Entries, op: Op, ip: string)
    requires Normal(c) && !(op.TakeOp? && op.ip == ip)
    ensures var m' := Step(c, m, op, true); ip in m' ==> ip in m && m'[ip] == m[ip]
    ensures op.CleanupOp? && ip in m ==> (ip in Step(c, m, op, true) <==> ip in Cleaned(c, m, op.now))
  {
  }

  lemma SameCredit(c: Config, m: Entries, m': Entries, ip: string, base: int, hi: int)
    requires Normal(c) && (ip in m <==> ip in m') && (ip in m ==> m[ip] == m'[ip])
    ensures Credit(c, m, ip, base, hi) == Credit(c, m', ip, base, hi)
  {
  }

  lemma ElsewhereCredit(c: Config, m: Entries, op: Op, ip: string, base: int, hi: int)
    requires Normal(c) && Inv(c, m) && !(op.TakeOp? && op.ip == ip)
    requires ip in m && !op.CleanupOp? ==> ip in Step(c, m, op, true)
    requires op.CleanupOp? ==> op.now - c.staleTTL + c.period - 1 <= base
    ensures Credit(c, Step(c, m, op, true), ip, base, hi) <= Credit(c, m, ip, base, hi)
  {
    StepElsewhere(c, m, op, ip);
    if op.CleanupOp? && ip in m && ip !in Cleaned(c, m, op.now) {
      CleanupCredit(c, m, ip, op.now, base, hi);
    } else {
      SameCredit(c, m, Step(c, m, op, true), ip, base, hi);
    }
  }

  /** No call raises the credit, and an admission costs one token of it. */
  lemma StepCredit(c: Config, m: Entries, op: Op, ip: string, base: int, base': int, hi: int)
    requires Normal(c) && Inv(c, m) && ip != "" && base <= base'
    requires op.TakeOp? && op.ip == ip ==> base <= op.now <= hi
    requires op.CleanupOp? ==> op.now - c.staleTTL + c.period - 1 <= base'
    requires ip in m && !op.CleanupOp? ==> ip in Step(c, m, op, true)
    ensures Credit(c, Step(c, m, op, true), ip, base', hi)
            + Admits(c, m, op, ip) as real
            <= Credit(c, m, ip, base, hi)
  {
    if op.TakeOp? && op.ip == ip {
      TakeCredit(c, m, ip, op.now, op.victim, base, base', hi);
    } else {
      CreditFalls(c, m, ip, base, base', hi);
      ElsewhereCredit(c, m, op, ip, base', hi);
    }
  }

  /** A run in which only cleanups may remove the entry of ip, and whose Takes of ip lie in the window. */
  ghost predicate Fair(c: Config, m: Entries, ops: seq<Op>, ip: string, clock: int, lag: nat, lo: int, hi: int)
    requires Normal(c)
  {
    && Inv(c, m) && PossibleRun(c, m, ops, true) && Unforgiven(c, m, ops, ip) && ip != ""
    && Lagging(ops, clock, lag) && c.period + lag <= c.staleTTL + 1 && Within(ops, ip, lo, hi)
  }

  lemma FairStep(c: Config, m: Entries, ops: seq<Op>, ip: string, clock: int, lag: nat, lo: int, hi: int)
    requires Normal(c) && ops != [] && Fair(c, m, ops, ip, clock, lag, lo, hi)
    ensures Fair(c, Step(c, m, ops[0], true), ops[1..], ip, Latest(clock, ops[0]), lag, lo, hi)
    ensures ops[0].SuccessOp? || clock - lag <= ops[0].now
    ensures ops[0].TakeOp? && ops[0].ip == ip ==> lo <= ops[0].now <= hi
    ensures ip in m && !ops[0].CleanupOp? ==> ip in Step(c, m, ops[0], true)
  {
    StepInv(c, m, ops[0], true);
  }

  lemma FairCredit(c: Config, m: Entries, ops: seq<Op>, ip: string, clock: int, lag: nat, lo: int, hi: int)
    requires Normal(c) && ops != [] && Fair(c, m, ops, ip, clock, lag, lo, hi)
    ensures Credit(c, Step(c, m, ops[0], true), ip, Latest(clock, ops[0]) - lag, hi) + Admits(c, m, ops[0], ip) as real
            <= Credit(c, m, ip, clock - lag, hi)
  {
    FairStep(c, m, ops, ip, clock, lag, lo, hi);
    StepCredit(c, m, ops[0], ip, clock - lag, Latest(clock, ops[0]) - lag, hi);
  }

  lemma {:induction false} BudgetWithCleanup(c: Config, m: Entries, ops: seq<Op>, ip: string,
                                             clock: int, lag: nat, lo: int, hi: int)
    requires Normal(c) && Fair(c, m, ops, ip, clock, lag, lo, hi)
    ensures Admitted(c, m, ops, ip, true) as real <= Credit(c, m, ip, clock - lag, hi)
    decreases |ops|
  {
    if ops == [] {
      CreditFalls(c, m, ip, clock - lag, clock - lag, hi);
    } else {
      FairStep(c, m, ops, ip, clock, lag, lo, hi);
      FairCredit(c, m, ops, ip, clock, lag, lo, hi);
      BudgetWithCleanup(c, Step(c, m, ops[0], true), ops[1..], ip, Latest(clock, ops[0]), lag, lo, hi);
    }
  }

  /** Cleanups do not loosen the bound, even with readings out of order by up to StaleTTL + 1 - RefillPeriod:
      what a window admits is at most the capacity plus what accrues over it. */
  lemma {:induction false} AdmissionBoundWithCleanup(c: Config, m: Entries, ops: seq<Op>, ip: string,
                                                     clock: int, lag: nat, lo: int, hi: int)
    requires Normal(c) && Fair(c, m, ops, ip, clock, lag, lo, hi) && lo <= hi
    ensures Admitted(c, m, ops, ip, true) as real <= c.capacity + Accrued(c, hi - lo)
    decreases |ops|
  {
    AccruedMono(c, 0, hi - lo);
    if ops != [] {
      var op, m' := ops[0], Step(c, m, ops[0], true);
      FairStep(c, m, ops, ip, clock, lag, lo, hi);
      if op.TakeOp? && op.ip == ip {
        FirstCredit(c, m, op, ip, Latest(clock, op) - lag, lo, hi);
        BudgetWithCleanup(c, m', ops[1..], ip, Latest(clock, op), lag, lo, hi);
      } else {
        AdmissionBoundWithCleanup(c, m', ops[1..], ip, Latest(clock, op), lag, lo, hi);
      }
    }
  }

  lemma FirstCredit(c: Config, m: Entries, op: Op, ip: string, base: int, lo: int, hi: int)
    requires Normal(c) && Inv(c, m) && ip != "" && op.TakeOp? && op.ip == ip && lo <= op.now <= hi
    ensures Credit(c, Step(c, m, op, true), ip, base, hi) + Admits(c, m, op, ip) as real
            <= c.capacity + Accrued(c, hi - lo)
  {
    assert Sane(c, Found(c, m, ip, op.now));
    FirstSpend(c, Found(c, m, ip, op.now), op.now, lo, hi);
  }

  // ---------- A recorded success ----------

  /** After a recorded success the address has a full bucket again: of the next attempts at one instant, as many are
      admitted as the capacity has whole tokens; every other address keeps its entry. */
  lemma SuccessForgives(c: Config, m: Entries, ip: string, now: int, v: string)
    requires Normal(c) && ip != ""
    ensures var m' := Step(c, m, SuccessOp(ip), true);
            && ip !in m' && (forall k :: k in m && k != ip ==> k in m' && m'[k] == m[k])
            && (forall k :: k in m' ==> k in m)
            && Take(c, m', ip, now, v).1.ok == (c.capacity >= 1.0)
            && Take(c, m', ip, now, v).0[ip] == Entry(if c.capacity >= 1.0 then c.capacity - 1.0 else c.capacity, now)
  {
  }

  // ---------- Retry-After ----------

  lemma CeilIsLeast(x: real, n: int)
    ensures n >= Ceil(x) <==> n as real >= x
  {
  }

  /** Tokens of an entry reach one exactly when the announced wait is over. */
  lemma WaitIsExact(c: Config, e: Entry, t: int)
    requires Normal(c) && Sane(c, e) && c.capacity >= 1.0 && e.tokens < 1.0 && e.lastRefill <= t
    ensures Refilled(c, e, t).tokens >= 1.0 <==> t >= e.lastRefill + Spend(c, e).1.retryAfter
  {
    var wait, r := t - e.lastRefill, Rate(c);
    AccruedIs(c, wait);
    CeilIsLeast((1.0 - e.tokens) / r, wait);
    assert r > 0.0;
    QuotientIff(1.0 - e.tokens, r, wait as real);
  }

  lemma QuotientIff(x: real, r: real, w: real)
    requires r > 0.0
    ensures w >= x / r <==> w * r >= x
  {
    assert x / r * r == x;
    if w >= x / r {
      assert (w - x / r) * r >= 0.0;
    } else {
      assert (x / r - w) * r > 0.0;
    }
  }

  /** Should there be an entry of ip, it holds a token by time t. */
  ghost predicate ReadyBy(c: Config, m: Entries, ip: string, t: int)
    requires Normal(c)
  {
    ip in m ==> Refilled(c, m[ip], t).tokens >= 1.0
  }

  lemma LaterIsFuller(c: Config, e: Entry, t: int, u: int)
    requires Normal(c) && Sane(c, e) && t <= u
    ensures Refilled(c, e, t).tokens <= Refilled(c, e, u).tokens
  {
    if t > e.lastRefill {
      AccruedMono(c, t - e.lastRefill, u - e.lastRefill);
    } else {
      RefilledSane(c, e, u);
    }
  }

  lemma StepReady(c: Config, m: Entries, op: Op, cleaning: bool, ip: string, t: int)
    requires Normal(c) && Inv(c, m) && Possible(c, m, op) && c.capacity >= 1.0 && ip != ""
    requires ReadyBy(c, m, ip, t)
    requires op.TakeOp? && op.ip == ip ==> !Take(c, m, ip, op.now, op.victim).1.ok
    ensures ReadyBy(c, Step(c, m, op, cleaning), ip, t)
  {
    if op.TakeOp? && op.ip == ip {
      assert ip in m;
      var e := m[ip];
      if op.now >= t {
        LaterIsFuller(c, e, t, op.now);
      } else if op.now > e.lastRefill {
        RefillComposes(c, e, op.now, t);
      }
    }
  }

  lemma {:induction false} RunReady(c: Config, m: Entries, ops: seq<Op>, cleaning: bool, ip: string, t: int)
    requires Normal(c) && Inv(c, m) && PossibleRun(c, m, ops, cleaning) && c.capacity >= 1.0 && ip != ""
    requires ReadyBy(c, m, ip, t) && Admitted(c, m, ops, ip, cleaning) == 0
    ensures Inv(c, StateAt(c, m, ops, cleaning)) && ReadyBy(c, StateAt(c, m, ops, cleaning), ip, t)
    decreases |ops|
  {
    if ops != [] {
      StepReady(c, m, ops[0], cleaning, ip, t);
      StepInv(c, m, ops[0], cleaning);
      RunReady(c, Step(c, m, ops[0], cleaning), ops[1..], cleaning, ip, t);
    }
  }

  /** After a refusal, whatever happens meanwhile short of another admission, a Take succeeds once the
      announced delay has passed since the entry's last refill; earlier, with nothing in between, it fails. */
  lemma RetryAfterSuffices(c: Config, m: Entries, ip: string, now: int, v: string,
                           ops: seq<Op>, cleaning: bool, t: int, w: string)
    requires Normal(c) && Inv(c, m) && Possible(c, m, TakeOp(ip, now, v)) && c.capacity >= 1.0 && ip != ""
    requires !Take(c, m, ip, now, v).1.ok
    requires var after := Take(c, m, ip, now, v).0;
             PossibleRun(c, after, ops, cleaning) && Admitted(c, after, ops, ip, cleaning) == 0
    ensures var (after, answer) := Take(c, m, ip, now, v);
            && ip in after
            && (t >= after[ip].lastRefill + answer.retryAfter ==>
                  Take(c, StateAt(c, after, ops, cleaning), ip, t, w).1.ok)
            && (t < after[ip].lastRefill + answer.retryAfter ==> !Take(c, after, ip, t, w).1.ok)
  {
    var (after, answer) := Take(c, m, ip, now, v);
    var e := Refilled(c, Found(c, m, ip, now), now);
    assert Sane(c, Found(c, m, ip, now));
    RefilledSane(c, Found(c, m, ip, now), now);
    assert after[ip] == e && answer == Spend(c, e).1;
    var due := e.lastRefill + answer.retryAfter;
    if t >= e.lastRefill {
      WaitIsExact(c, e, t);
    }
    if t >= due {
      CeilIsLeast((1.0 - e.tokens) / Rate(c), 0);
      WaitIsExact(c, e, due);
      TakeInv(c, m, ip, now, v);
      RunReady(c, after, ops, cleaning, ip, due);
      var last := StateAt(c, after, ops, cleaning);
      if ip in last {
        LaterIsFuller(c, last[ip], due, t);
      }
    }
  }

  /** Counted from the call itself the delay is right exactly when the call's clock reading, taken before
      the lock, is not behind the entry's last refill. */
  lemma RetryAfterIff(c: Config, m: Entries, ip: string, now: int, v: string, w: string)
    requires Normal(c) && Inv(c, m) && Possible(c, m, TakeOp(ip, now, v)) && c.capacity >= 1.0 && ip != ""
    requires !Take(c, m, ip, now, v).1.ok
    ensures var (after, answer) := Take(c, m, ip, now, v);
            Take(c, after, ip, now + answer.retryAfter, w).1.ok <==> (ip in m ==> m[ip].lastRefill <= now)
  {
    var answer := Take(c, m, ip, now, v).1;
    RetryAfterSuffices(c, m, ip, now, v, [], false, now + answer.retryAfter, w);
    assert Sane(c, Found(c, m, ip, now));
    RefilledSane(c, Found(c, m, ip, now), now);
  }

  /** Below one token of capacity nothing is ever admitted, however long the caller waits. */
  lemma {:induction false} TooSmallNeverAdmits(c: Config, m: Entries, ops: seq<Op>, cleaning: bool, ip: string)
    requires Normal(c) && Inv(c, m) && PossibleRun(c, m, ops, cleaning) && c.capacity < 1.0 && ip != ""
    ensures Admitted(c, m, ops, ip, cleaning) == 0
    decreases |ops|
  {
    if ops != [] {
      var op := ops[0];
      if op.TakeOp? {
        assert ip in m ==> Sane(c, m[ip]);
        RefilledSane(c, Found(c, m, ip, op.now), op.now);
      }
      StepInv(c, m, op, cleaning);
      TooSmallNeverAdmits(c, Step(c, m, op, cleaning), ops[1..], cleaning, ip);
    }
  }
}
