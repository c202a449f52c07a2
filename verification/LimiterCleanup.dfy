/** What the limiter's cleanup leaves visible: nothing, exactly when entries outlive a refill
    (internal/api/http/httputil/limiter.go:115-124). */
module LimiterCleanup {
  import opened Limiter

  // ---------- Cleanup leaves no trace ----------

  /** kept is full minus entries that are stale at clock and idle longer than everything kept. */
  ghost predicate Shadows(c: Config, full: Entries, kept: Entries, clock: int) {
    && (forall k :: k in kept ==> k in full && full[k] == kept[k])
    && (forall k :: k in full && k !in kept ==> clock - full[k].lastRefill > c.staleTTL)
    && (forall j, k :: j in kept && k in full && k !in kept ==> full[k].lastRefill < full[j].lastRefill)
  }

  lemma SameTable(c: Config, full: Entries, kept: Entries, clock: int)
    requires Inv(c, full) && Shadows(c, full, kept, clock)
    ensures |kept| <= |full|
    ensures |kept| >= c.maxEntries ==> kept == full
  {
    SubmapSize(kept, full);
  }

  lemma UpdateShadows(c: Config, full: Entries, kept: Entries, ip: string, e: Entry, clock: int)
    requires Shadows(c, full, kept, clock)
    requires forall k :: k in full && k !in kept && k != ip ==> full[k].lastRefill < e.lastRefill
    ensures Shadows(c, full[ip := e], kept[ip := e], clock)
  {
  }

  /** Whatever the full table evicts, the kept one evicts too or has dropped already. */
  lemma RoomShadows(c: Config, full: Entries, kept: Entries, ip: string, v: string, w: string, clock: int)
    requires Inv(c, full) && Shadows(c, full, kept, clock) && (ip in full ==> ip in kept)
    requires Full(c, full, ip) ==> IsOldest(full, v)
    requires Full(c, kept, ip) ==> v == w
    ensures Shadows(c, Room(c, full, ip, v), Room(c, kept, ip, w), clock)
  {
    SameTable(c, full, kept, clock);
    if Full(c, full, ip) && !Full(c, kept, ip) {
      SubmapSize(kept, full);
      assert exists k :: k in full && k !in kept by {
        if forall k :: k in full ==> k in kept {
          SubmapSize(full, kept);
        }
      }
      assert v !in kept;
    }
  }

  lemma TakeShadows(c: Config, full: Entries, kept: Entries, ip: string, now: int, v: string, w: string,
                    clock: int, lag: nat)
    requires Normal(c) && Inv(c, full) && Shadows(c, full, kept, clock) && clock - lag <= now && ip != ""
    requires c.period + lag <= c.staleTTL + 1
    requires Full(c, full, ip) ==> IsOldest(full, v)
    requires Full(c, kept, ip) ==> v == w
    ensures Take(c, full, ip, now, v).1 == Take(c, kept, ip, now, w).1
    ensures Shadows(c, Take(c, full, ip, now, v).0, Take(c, kept, ip, now, w).0, clock)
  {
    var e := Refilled(c, Found(c, full, ip, now), now);
    if ip in full && ip !in kept {
      SameTable(c, full, kept, clock);
      FullAfterPeriod(c, full[ip], now);
    } else {
      RoomShadows(c, full, kept, ip, v, w, clock);
      assert Sane(c, Found(c, full, ip, now));
      RefilledSane(c, Found(c, full, ip, now), now);
    }
    UpdateShadows(c, Room(c, full, ip, v), Room(c, kept, ip, w), ip, Spend(c, e).0, clock);
  }

  lemma LaterShadows(c: Config, full: Entries, kept: Entries, clock: int, clock': int)
    requires Shadows(c, full, kept, clock) && clock <= clock'
    ensures Shadows(c, full, kept, clock')
  {
  }

  lemma CleanedShadows(c: Config, full: Entries, kept: Entries, now: int, clock: int)
    requires Shadows(c, full, kept, clock) && now <= clock
    ensures Shadows(c, full, Cleaned(c, kept, now), clock)
  {
  }

  /** The victim the uncleaned table may evict for the same call; w where the cleaned one evicts w. */
  ghost predicate Matches(c: Config, full: Entries, kept: Entries, op: Op, v: string) {
    op.TakeOp? && op.ip != "" ==>
      && (Full(c, full, op.ip) ==> IsOldest(full, v))
      && (Full(c, kept, op.ip) ==> v == op.victim)
  }

  /** One call on both tables: same answer, and the cleaned table stays the shadow of the other. */
  lemma StepShadows(c: Config, full: Entries, kept: Entries, op: Op, op': Op, clock: int, lag: nat)
    requires Normal(c) && Inv(c, full) && Shadows(c, full, kept, clock) && c.period + lag <= c.staleTTL + 1
    requires op.SuccessOp? || clock - lag <= op.now
    requires SameCall(op, op')
    requires op.TakeOp? ==> Matches(c, full, kept, op, op'.victim)
    ensures op.TakeOp? ==> Take(c, full, op.ip, op.now, op'.victim).1 == Take(c, kept, op.ip, op.now, op.victim).1
    ensures Shadows(c, Step(c, full, op', false), Step(c, kept, op, true), Latest(clock, op))
    ensures Inv(c, Step(c, full, op', false))
  {
    StepInv(c, full, op', false);
    LaterShadows(c, full, kept, clock, Latest(clock, op));
    match op
    case TakeOp(ip, now, w) =>
      if ip != "" {
        TakeShadows(c, full, kept, ip, now, op'.victim, w, clock, lag);
        LaterShadows(c, Take(c, full, ip, now, op'.victim).0, Take(c, kept, ip, now, w).0, clock, Latest(clock, op));
      }
    case SuccessOp(_) =>
    case CleanupOp(now) => CleanedShadows(c, full, kept, now, Latest(clock, op));
  }

  /** With StaleTTL at least the refill period (one nanosecond less will do), every run without cleanup gives
      the same answers when cleanups happen at its marked points. Readings may be out of order by up to what
      StaleTTL leaves over. */
  lemma {:induction false} CleanupUnobservable(c: Config, full: Entries, kept: Entries, ops: seq<Op>,
                                               clock: int, lag: nat)
    requires Normal(c) && Inv(c, full) && Shadows(c, full, kept, clock) && Lagging(ops, clock, lag)
    requires c.period + lag <= c.staleTTL + 1
    requires PossibleRun(c, full, ops, false)
    ensures PossibleRun(c, kept, ops, true) && Answers(c, kept, ops, true) == Answers(c, full, ops, false)
    decreases |ops|
  {
    if ops != [] {
      var op := ops[0];
      SameTable(c, full, kept, clock);
      StepShadows(c, full, kept, op, op, clock, lag);
      CleanupUnobservable(c, Step(c, full, op, false), Step(c, kept, op, true), ops[1..], Latest(clock, op), lag);
    }
  }

  lemma {:induction false} OldestExists(m: Entries) returns (k: string)
    requires |m| > 0
    ensures IsOldest(m, k)
    decreases |m|
  {
    assert |m| == |m.Keys|;
    k :| k in m;
    var rest := m - {k};
    assert rest.Keys == m.Keys - {k} && |rest| == |rest.Keys|;
    if |rest| > 0 {
      var j := OldestExists(rest);
      forall i | i in m && i != k
        ensures m[j].lastRefill <= m[i].lastRefill
      {
        assert i in rest && rest[i] == m[i] && rest[j] == m[j];
      }
      if m[j].lastRefill < m[k].lastRefill {
        k := j;
      }
    } else {
      assert forall i :: i in m && i != k ==> i in rest.Keys;
    }
  }

  /** The same operations, up to which of the longest-idle entries an eviction takes. */
  ghost predicate SameCalls(ops: seq<Op>, ops': seq<Op>) {
    |ops| == |ops'| && forall i :: 0 <= i < |ops| ==> SameCall(ops[i], ops'[i])
  }

  predicate SameCall(a: Op, b: Op) {
    if a.TakeOp? then b.TakeOp? && a.ip == b.ip && a.now == b.now else a == b
  }

  /** Some victim the uncleaned table may evict matches the cleaned one's. */
  lemma MatchingOp(c: Config, full: Entries, kept: Entries, op: Op, clock: int) returns (op': Op)
    requires Normal(c) && Inv(c, full) && Shadows(c, full, kept, clock) && Possible(c, kept, op)
    ensures SameCall(op, op')
    ensures op.TakeOp? ==> Matches(c, full, kept, op, op'.victim)
    ensures Possible(c, full, op')
  {
    SameTable(c, full, kept, clock);
    op' := op;
    if op.TakeOp? && op.ip != "" && Full(c, full, op.ip) && !Full(c, kept, op.ip) {
      var v := OldestExists(full);
      op' := op.(victim := v);
    }
  }

  lemma SameCallsCons(op: Op, op': Op, rest: seq<Op>, rest': seq<Op>)
    requires SameCall(op, op') && SameCalls(rest, rest')
    ensures SameCalls([op] + rest, [op'] + rest')
  {
  }

  /** Conversely every run with cleanups gives the answers of a run without them. */
  lemma {:induction false} CleanupAddsNothing(c: Config, full: Entries, kept: Entries, ops: seq<Op>,
                                              clock: int, lag: nat)
    returns (ops': seq<Op>)
    requires Normal(c) && Inv(c, full) && Shadows(c, full, kept, clock) && Lagging(ops, clock, lag)
    requires c.period + lag <= c.staleTTL + 1
    requires PossibleRun(c, kept, ops, true)
    ensures SameCalls(ops, ops')
    ensures PossibleRun(c, full, ops', false) && Answers(c, full, ops', false) == Answers(c, kept, ops, true)
    decreases |ops|
  {
    if ops == [] {
      return [];
    }
    var op := ops[0];
    var op' := MatchingOp(c, full, kept, op, clock);
    StepShadows(c, full, kept, op, op', clock, lag);
    var rest := CleanupAddsNothing(c, Step(c, full, op', false), Step(c, kept, op, true), ops[1..],
                                   Latest(clock, op), lag);
    SameCallsCons(op, op', ops[1..], rest);
    assert ops == [op] + ops[1..] && ([op'] + rest)[1..] == rest;
    ops' := [op'] + rest;
  }

  // ---------- Exactly when cleanup leaves no trace ----------

  /** From a new limiter, cleanups never change an answer, for readings out of order by at most lag. */
  ghost predicate Invisible(c: Config, lag: nat)
    requires Normal(c)
  {
    forall ops :: Lagging(ops, 0, lag) && PossibleRun(c, map[], ops, false)
      ==> Answers(c, map[], ops, true) == Answers(c, map[], ops, false)
  }

  function Only(ip: string, tokens: real, at: int): Entries {
    map[ip := Entry(tokens, at)]
  }

  ghost predicate AllAdmitted(answers: seq<Answer>) {
    forall x :: x in answers ==> x.ok
  }

  // A script is a list of waits, each followed by one attempt.

  function Ticks(ws: seq<nat>, ip: string, at: int): seq<Op> {
    if ws == [] then [] else [TakeOp(ip, at + ws[0], ip)] + Ticks(ws[1..], ip, at + ws[0])
  }

  function Sum(ws: seq<nat>): nat {
    if ws == [] then 0 else ws[0] + Sum(ws[1..])
  }

  /** Tokens left if every attempt is admitted and no refill is cut off at the capacity. */
  function Left(c: Config, ws: seq<nat>, tokens: real): real
    requires Normal(c)
  {
    if ws == [] then tokens else Left(c, ws[1..], tokens + Accrued(c, ws[0]) - 1.0)
  }

  /** Every attempt is admitted, and no refill is cut off. */
  predicate Smooth(c: Config, ws: seq<nat>, tokens: real)
    requires Normal(c)
  {
    ws == [] ||
    (1.0 <= tokens + Accrued(c, ws[0]) <= c.capacity && Smooth(c, ws[1..], tokens + Accrued(c, ws[0]) - 1.0))
  }

  lemma {:induction false} LeftIs(c: Config, ws: seq<nat>, tokens: real)
    requires Normal(c)
    ensures Left(c, ws, tokens) == tokens + Accrued(c, Sum(ws)) - |ws| as real
  {
    if ws != [] {
      LeftIs(c, ws[1..], tokens + Accrued(c, ws[0]) - 1.0);
      AccruedAdd(c, ws[0], Sum(ws[1..]));
    }
  }

  lemma {:induction false} SmoothMore(c: Config, ws: seq<nat>, w: nat, tokens: real)
    requires Normal(c) && Smooth(c, ws, tokens) && 1.0 <= Left(c, ws, tokens) + Accrued(c, w) <= c.capacity
    ensures Smooth(c, ws + [w], tokens) && Left(c, ws + [w], tokens) == Left(c, ws, tokens) + Accrued(c, w) - 1.0
  {
    if ws == [] {
      assert ws + [w] == [w];
      assert Left(c, [w][1..], tokens + Accrued(c, w) - 1.0) == tokens + Accrued(c, w) - 1.0;
    } else {
      assert (ws + [w])[1..] == ws[1..] + [w];
      SmoothMore(c, ws[1..], w, tokens + Accrued(c, ws[0]) - 1.0);
    }
  }

  lemma {:induction false} SmoothEnds(c: Config, ws: seq<nat>, tokens: real)
    requires Normal(c) && Smooth(c, ws, tokens) && 0.0 <= tokens <= c.capacity
    ensures 0.0 <= Left(c, ws, tokens) <= c.capacity
  {
    if ws != [] {
      SmoothEnds(c, ws[1..], tokens + Accrued(c, ws[0]) - 1.0);
    }
  }

  /** One attempt on a table that holds just ip. */
  lemma OneTick(c: Config, ip: string, tokens: real, at: int, w: nat)
    requires Normal(c) && ip != "" && 0.0 <= tokens <= c.capacity
    ensures var (m', answer) := Take(c, Only(ip, tokens, at), ip, at + w, ip);
            m' == Only(ip, AfterTick(c, tokens, w), at + w) && answer.ok == TickOk(c, tokens, w)
  {
    var e := Refilled(c, Entry(tokens, at), at + w);
    assert w == 0 ==> Accrued(c, w) == 0.0;
    assert e == Entry(Min(c.capacity, tokens + Accrued(c, w)), at + w);
    assert Only(ip, tokens, at)[ip := Spend(c, e).0] == map[ip := Spend(c, e).0];
  }

  /** The attempt is admitted. */
  predicate TickOk(c: Config, tokens: real, w: nat)
    requires Normal(c)
  {
    Min(c.capacity, tokens + Accrued(c, w)) >= 1.0
  }

  /** Tokens after one attempt. */
  function AfterTick(c: Config, tokens: real, w: nat): real
    requires Normal(c)
  {
    Min(c.capacity, tokens + Accrued(c, w)) - (if TickOk(c, tokens, w) then 1.0 else 0.0)
  }

  /** Every attempt of the script is admitted. */
  predicate AllOk(c: Config, ws: seq<nat>, tokens: real)
    requires Normal(c)
  {
    ws == [] || (TickOk(c, tokens, ws[0]) && AllOk(c, ws[1..], AfterTick(c, tokens, ws[0])))
  }

  function AfterTicks(c: Config, ws: seq<nat>, tokens: real): real
    requires Normal(c)
  {
    if ws == [] then tokens else AfterTicks(c, ws[1..], AfterTick(c, tokens, ws[0]))
  }

  /** A script runs as its first attempt and then the rest. */
  lemma FirstTick(c: Config, ws: seq<nat>, ip: string, tokens: real, at: int, cleaning: bool)
    requires Normal(c) && ip != "" && 0.0 <= tokens <= c.capacity && ws != []
    ensures var m, m' := Only(ip, tokens, at), Only(ip, AfterTick(c, tokens, ws[0]), at + ws[0]);
            var ops, rest := Ticks(ws, ip, at), Ticks(ws[1..], ip, at + ws[0]);
            && (AllAdmitted(Answers(c, m, ops, cleaning))
                <==> TickOk(c, tokens, ws[0]) && AllAdmitted(Answers(c, m', rest, cleaning)))
            && (PossibleRun(c, m, ops, cleaning) <==> PossibleRun(c, m', rest, cleaning))
  {
    OneTick(c, ip, tokens, at, ws[0]);
    var rest := Ticks(ws[1..], ip, at + ws[0]);
    assert Ticks(ws, ip, at)[1..] == rest;
    HeadAdmitted(Take(c, Only(ip, tokens, at), ip, at + ws[0], ip).1,
                 Answers(c, Only(ip, AfterTick(c, tokens, ws[0]), at + ws[0]), rest, cleaning));
  }

  lemma FirstTickLeaves(c: Config, ws: seq<nat>, ip: string, tokens: real, at: int, cleaning: bool)
    requires Normal(c) && ip != "" && 0.0 <= tokens <= c.capacity && ws != []
    ensures StateAt(c, Only(ip, tokens, at), Ticks(ws, ip, at), cleaning)
            == StateAt(c, Only(ip, AfterTick(c, tokens, ws[0]), at + ws[0]), Ticks(ws[1..], ip, at + ws[0]), cleaning)
  {
    OneTick(c, ip, tokens, at, ws[0]);
    assert Ticks(ws, ip, at)[1..] == Ticks(ws[1..], ip, at + ws[0]);
  }

  lemma HeadAdmitted(x: Answer, rest: seq<Answer>)
    ensures AllAdmitted([x] + rest) <==> x.ok && AllAdmitted(rest)
  {
    assert x in [x] + rest;
  }

  /** A script on a table that holds just ip is arithmetic on its tokens. */
  lemma {:induction false} TicksAre(c: Config, ws: seq<nat>, ip: string, tokens: real, at: int, cleaning: bool)
    requires Normal(c) && ip != "" && 0.0 <= tokens <= c.capacity
    ensures PossibleRun(c, Only(ip, tokens, at), Ticks(ws, ip, at), cleaning)
    ensures AllAdmitted(Answers(c, Only(ip, tokens, at), Ticks(ws, ip, at), cleaning)) <==> AllOk(c, ws, tokens)
    decreases |ws|
  {
    if ws != [] {
      FirstTick(c, ws, ip, tokens, at, cleaning);
      TickSane(c, tokens, ws[0]);
      TicksAre(c, ws[1..], ip, AfterTick(c, tokens, ws[0]), at + ws[0], cleaning);
    }
  }

  lemma {:induction false} TicksLeave(c: Config, ws: seq<nat>, ip: string, tokens: real, at: int, cleaning: bool)
    requires Normal(c) && ip != "" && 0.0 <= tokens <= c.capacity
    ensures StateAt(c, Only(ip, tokens, at), Ticks(ws, ip, at), cleaning)
            == Only(ip, AfterTicks(c, ws, tokens), at + Sum(ws))
    decreases |ws|
  {
    if ws != [] {
      FirstTickLeaves(c, ws, ip, tokens, at, cleaning);
      TickSane(c, tokens, ws[0]);
      TicksLeave(c, ws[1..], ip, AfterTick(c, tokens, ws[0]), at + ws[0], cleaning);
    }
  }

  lemma TickSane(c: Config, tokens: real, w: nat)
    requires Normal(c) && 0.0 <= tokens <= c.capacity
    ensures 0.0 <= AfterTick(c, tokens, w) <= c.capacity
    ensures TickOk(c, tokens, w) ==> AfterTick(c, tokens, w) <= tokens + Accrued(c, w) - 1.0
  {
    AccruedMono(c, 0, w);
  }

  /** A smooth script is admitted throughout and leaves what it should. */
  lemma {:induction false} SmoothRun(c: Config, ws: seq<nat>, tokens: real)
    requires Normal(c) && Smooth(c, ws, tokens)
    ensures AllOk(c, ws, tokens) && AfterTicks(c, ws, tokens) == Left(c, ws, tokens)
  {
    if ws != [] {
      SmoothRun(c, ws[1..], tokens + Accrued(c, ws[0]) - 1.0);
    }
  }

  lemma LeftMono(c: Config, ws: seq<nat>, a: real, b: real)
    requires Normal(c) && a <= b
    ensures Left(c, ws, a) <= Left(c, ws, b)
  {
    LeftIs(c, ws, a);
    LeftIs(c, ws, b);
  }

  /** A script that is admitted throughout had the tokens for it: refills cut off only lose some. */
  lemma {:induction false} AdmittedHadTokens(c: Config, ws: seq<nat>, tokens: real)
    requires Normal(c) && 0.0 <= tokens <= c.capacity && AllOk(c, ws, tokens)
    ensures Left(c, ws, tokens) >= 0.0
  {
    if ws != [] {
      var left := AfterTick(c, tokens, ws[0]);
      TickSane(c, tokens, ws[0]);
      AdmittedHadTokens(c, ws[1..], left);
      LeftMono(c, ws[1..], left, tokens + Accrued(c, ws[0]) - 1.0);
    }
  }

  /** A new entry is a full one. */
  lemma FromNothing(c: Config, ws: seq<nat>, ip: string, at: int, cleaning: bool)
    requires Normal(c) && ip != "" && ws != [] && ws[0] == 0
    ensures var ops := Ticks(ws, ip, at);
            && Answers(c, map[], ops, cleaning) == Answers(c, Only(ip, c.capacity, at), ops, cleaning)
            && StateAt(c, map[], ops, cleaning) == StateAt(c, Only(ip, c.capacity, at), ops, cleaning)
            && (PossibleRun(c, map[], ops, cleaning) <==> PossibleRun(c, Only(ip, c.capacity, at), ops, cleaning))
  {
    var e := Spend(c, Entry(c.capacity, at)).0;
    assert map[][ip := e] == Only(ip, c.capacity, at)[ip := e];
    assert Take(c, map[], ip, at, ip) == Take(c, Only(ip, c.capacity, at), ip, at, ip);
  }

  // ---------- A script that leaves less than half a nanosecond's accrual ----------

  /** What a script leaves of a full entry: a multiple of a nanosecond's accrual, less whole tokens. */
  lemma LeftFromFull(c: Config, ws: seq<nat>)
    requires Normal(c)
    ensures Left(c, ws, c.capacity) == Accrued(c, c.period + Sum(ws)) - |ws| as real
  {
    LeftIs(c, ws, c.capacity);
    AccruedAdd(c, c.period, Sum(ws));
    AccruedPeriod(c);
  }

  /** Spend every whole token at once. */
  lemma {:induction false} Drain(c: Config, ws: seq<nat>) returns (ws': seq<nat>)
    requires Normal(c) && Smooth(c, ws, c.capacity) && Left(c, ws, c.capacity) >= 0.0
    ensures |ws| <= |ws'| && ws' == ws + ws'[|ws|..] && Smooth(c, ws', c.capacity)
    ensures 0.0 <= Left(c, ws', c.capacity) < 1.0
    ensures Left(c, ws', c.capacity) <= Left(c, ws, c.capacity)
    ensures Left(c, ws, c.capacity) >= 1.0 ==> |ws'| > |ws| && ws'[|ws|] == 0
    decreases Left(c, ws, c.capacity).Floor
  {
    ws' := ws;
    if Left(c, ws, c.capacity) >= 1.0 {
      assert Accrued(c, 0) == 0.0;
      SmoothEnds(c, ws, c.capacity);
      SmoothMore(c, ws, 0, c.capacity);
      ws' := Drain(c, ws + [0]);
    }
  }

  lemma Scale(a: real, b: real, r: real)
    requires r > 0.0
    ensures a <= b <==> a * r <= b * r
    ensures a < b <==> a * r < b * r
  {
    assert b * r - a * r == (b - a) * r;
  }

  /** How many nanoseconds bring x to one token, and how little beyond. */
  lemma ReachOne(x: real, r: real) returns (k: nat)
    requires r > 0.0 && x < 1.0
    ensures 0.0 <= x + k as real * r - 1.0 < r
  {
    var d := 1.0 - x;
    var q := d / r;
    Quotient(d, r, q);
    k := Ceil(q);
    Scale(q, k as real, r);
    CloseBy(q, k as real, d, r);
  }

  lemma Quotient(d: real, r: real, q: real)
    requires r > 0.0 && q == d / r
    ensures q * r == d && (d > 0.0 ==> q > 0.0)
  {
  }

  /** Less than one apart, less than r apart after scaling. */
  lemma CloseBy(q: real, k: real, d: real, r: real)
    requires r > 0.0 && q * r == d && k < q + 1.0
    ensures k * r < d + r
  {
    var z := q + 1.0 - k;
    assert z * r > 0.0;
    calc { z * r; (q + 1.0 - k) * r; q * r + r - k * r; }
  }

  /** One token as whole nanoseconds of accrual and a rest. */
  lemma TokenInTime(r: real) returns (k: nat, rest: real)
    requires r > 0.0
    ensures k as real * r + rest == 1.0 && 0.0 <= rest < r
  {
    var q := 1.0 / r;
    Quotient(1.0, r, q);
    k := q.Floor;
    rest := 1.0 - k as real * r;
    Scale(k as real, q, r);
    CloseBy(k as real, q, k as real * r, r);
  }

  lemma FloorFalls(a: real, d: real)
    requires d > 0.0 && a >= d
    ensures 0 <= ((a - d) / d).Floor < (a / d).Floor
  {
    var p, q := (a - d) / d, a / d;
    Quotient(a - d, d, p);
    Quotient(a, d, q);
    OneLess(p, q, a, d);
  }

  lemma OneLess(p: real, q: real, a: real, d: real)
    requires d > 0.0 && p * d == a - d && q * d == a && a >= d
    ensures p == q - 1.0 && p >= 0.0
  {
    var z := q - 1.0 - p;
    calc { z * d; (q - 1.0 - p) * d; q * d - d - p * d; 0.0; }
    assert z == 0.0;
    Scale(0.0, p, d);
  }

  /** What is left of a full entry after a script. */
  function Rest(c: Config, ws: seq<nat>): real
    requires Normal(c)
  {
    Left(c, ws, c.capacity)
  }

  /** A script on a full entry that starts at once. */
  ghost predicate Plays(c: Config, ws: seq<nat>)
    requires Normal(c)
  {
    ws != [] && ws[0] == 0 && Smooth(c, ws, c.capacity) && Rest(c, ws) >= 0.0
  }

  /** One more wait and attempt. */
  lemma PlayOn(c: Config, ws: seq<nat>, w: nat)
    requires Normal(c) && Plays(c, ws) && 1.0 <= Rest(c, ws) + Accrued(c, w) <= c.capacity
    ensures Plays(c, ws + [w]) && Rest(c, ws + [w]) == Rest(c, ws) + Accrued(c, w) - 1.0
  {
    SmoothMore(c, ws, w, c.capacity);
  }

  /** Waiting fewer nanoseconds than a period, from less than a nanosecond's accrual, stays below full. */
  lemma BelowFull(c: Config, x: real, w: nat)
    requires Normal(c) && x < Rate(c) && w < c.period
    ensures x + Accrued(c, w) <= c.capacity
  {
    AccruedAdd(c, w, 1);
    AccruedMono(c, w + 1, c.period);
    AccruedPeriod(c);
    assert Accrued(c, 1) == Rate(c);
  }

  /** Where a token takes k nanoseconds and at most half of one more, each attempt leaves a bit less. */
  lemma {:induction false} Descend(c: Config, ws: seq<nat>, k: nat, rest: real) returns (ws': seq<nat>)
    requires Normal(c) && Plays(c, ws) && Rest(c, ws) < Rate(c) && k < c.period
    requires Accrued(c, k) + rest == 1.0 && 0.0 <= rest && 2.0 * rest <= Rate(c)
    requires rest == 0.0 ==> Rest(c, ws) == 0.0
    ensures Plays(c, ws') && 2.0 * Rest(c, ws') < Rate(c)
    decreases if rest > 0.0 then (Rest(c, ws) / rest).Floor else 0
  {
    ws' := ws;
    if 2.0 * Rest(c, ws) >= Rate(c) {
      BelowFull(c, Rest(c, ws), k);
      PlayOn(c, ws, k);
      FloorFalls(Rest(c, ws), rest);
      ws' := Descend(c, ws + [k], k, rest);
    }
  }

  /** Where it takes more than half of one more, attempts leave a bit more until one leaves little. */
  lemma {:induction false} Ascend(c: Config, ws: seq<nat>, k: nat, rest: real) returns (ws': seq<nat>)
    requires Normal(c) && Plays(c, ws) && Rest(c, ws) < Rate(c) && k + 1 < c.period
    requires Accrued(c, k) + rest == 1.0 && rest < Rate(c) < 2.0 * rest
    ensures Plays(c, ws') && 2.0 * Rest(c, ws') < Rate(c)
    decreases ((Rate(c) - Rest(c, ws)) / (Rate(c) - rest)).Floor
  {
    ws' := ws;
    if Rest(c, ws) >= rest {
      BelowFull(c, Rest(c, ws), k);
      PlayOn(c, ws, k);
      ws' := ws + [k];
    } else if 2.0 * Rest(c, ws) >= Rate(c) {
      AccruedAdd(c, k, 1);
      assert Accrued(c, 1) == Rate(c);
      BelowFull(c, Rest(c, ws), k + 1);
      PlayOn(c, ws, k + 1);
      FloorFalls(Rate(c) - Rest(c, ws), Rate(c) - rest);
      ws' := Ascend(c, ws + [k + 1], k, rest);
    }
  }

  /** If tokens come in whole nanoseconds, less than a nanosecond's accrual is nothing. */
  lemma OnGrid(c: Config, ws: seq<nat>, k: nat)
    requires Normal(c) && Accrued(c, k) == 1.0 && 0.0 <= Rest(c, ws) < Rate(c)
    ensures Rest(c, ws) == 0.0
  {
    var n := |ws|;
    LeftFromFull(c, ws);
    var m := c.period + Sum(ws) - n * k;
    WholeTokens(c, n, k);
    AccruedAdd(c, m, n * k);
    assert Rest(c, ws) == Accrued(c, m);
    if m >= 1 {
      AccruedMono(c, 1, m);
    } else if m <= -1 {
      AccruedMono(c, m, -1);
    }
  }

  lemma {:induction false} WholeTokens(c: Config, n: nat, k: nat)
    requires Normal(c) && Accrued(c, k) == 1.0
    ensures Accrued(c, n * k) == n as real
  {
    if n > 0 {
      WholeTokens(c, n - 1, k);
      AccruedAdd(c, (n - 1) * k, k);
      assert (n - 1) * k + k == n * k;
    }
  }

  /** Spend the whole tokens. */
  lemma Drained(c: Config) returns (ws: seq<nat>)
    requires Normal(c) && c.capacity >= 1.0
    ensures Plays(c, ws) && Rest(c, ws) < 1.0 && Rest(c, ws) <= c.capacity - 1.0
  {
    var once: seq<nat> := [0];
    SmoothMore(c, [], 0, c.capacity);
    assert [] + once == once && Left(c, once, c.capacity) == c.capacity - 1.0;
    ws := Drain(c, once);
    assert ws[0] == (once + ws[1..])[0];
  }

  /** Then come within a nanosecond's accrual of nothing. */
  lemma Approach(c: Config, ws: seq<nat>) returns (ws': seq<nat>)
    requires Normal(c) && Plays(c, ws) && Rate(c) <= Rest(c, ws) < 1.0 && Rest(c, ws) <= c.capacity - 1.0
    ensures Plays(c, ws') && Rest(c, ws') < Rate(c)
  {
    RatePositive(c);
    var k := ReachOne(Rest(c, ws), Rate(c));
    AccruedIs(c, k);
    PlayOn(c, ws, k);
    ws' := ws + [k];
  }

  lemma LowScript(c: Config) returns (ws: seq<nat>)
    requires Normal(c) && c.capacity >= 1.0
    ensures Plays(c, ws) && 2.0 * Rest(c, ws) < Rate(c)
  {
    ws := Drained(c);
    if 2.0 * Rest(c, ws) >= Rate(c) {
      if Rest(c, ws) >= Rate(c) {
        ws := Approach(c, ws);
      }
      RatePositive(c);
      var k, rest := TokenInTime(Rate(c));
      AccruedIs(c, k);
      TokenFits(c, k, rest);
      if rest == 0.0 {
        OnGrid(c, ws, k);
      }
      if 2.0 * rest <= Rate(c) {
        ws := Descend(c, ws, k, rest);
      } else {
        ws := Ascend(c, ws, k, rest);
      }
    }
  }

  /** Above one token of capacity a token takes less than a period, and if its rest is large and the capacity
      is not close to one, clearly less. */
  lemma TokenFits(c: Config, k: nat, rest: real)
    requires Normal(c) && c.capacity > 1.0 && Accrued(c, k) + rest == 1.0 && 0.0 <= rest < Rate(c)
    ensures k < c.period
    ensures 2.0 * rest > Rate(c) && 2.0 * (c.capacity - 1.0) >= Rate(c) ==> k + 1 < c.period
  {
    AccruedPeriod(c);
    if k >= c.period {
      AccruedMono(c, c.period, k);
    } else if k + 1 == c.period {
      AccruedAdd(c, k, 1);
      assert Accrued(c, 1) == Rate(c);
    }
  }

  // ---------- A run in which the cleanup shows ----------

  lemma {:induction false} TicksLagging(ws: seq<nat>, ip: string, at: int, clock: int, lag: nat, ops: seq<Op>)
    requires clock - lag <= at && Lagging(ops, if clock < at + Sum(ws) then at + Sum(ws) else clock, lag)
    requires ws == [] ==> at <= clock
    ensures Lagging(Ticks(ws, ip, at) + ops, clock, lag)
    decreases |ws|
  {
    var all := Ticks(ws, ip, at) + ops;
    if ws == [] {
      assert all == ops;
    } else {
      var first := at + ws[0];
      assert all[0] == TakeOp(ip, first, ip) && all[1..] == Ticks(ws[1..], ip, first) + ops;
      TicksLagging(ws[1..], ip, first, Latest(clock, all[0]), lag, ops);
    }
  }

  lemma {:induction false} AnswersConcat(c: Config, m: Entries, a: seq<Op>, b: seq<Op>, cleaning: bool)
    requires Normal(c)
    ensures Answers(c, m, a + b, cleaning)
            == Answers(c, m, a, cleaning) + Answers(c, StateAt(c, m, a, cleaning), b, cleaning)
    decreases |a|
  {
    if a == [] {
      assert a + b == b;
    } else {
      assert (a + b)[1..] == a[1..] + b;
      AnswersConcat(c, Step(c, m, a[0], cleaning), a[1..], b, cleaning);
    }
  }

  lemma {:induction false} PossibleConcat(c: Config, m: Entries, a: seq<Op>, b: seq<Op>, cleaning: bool)
    requires Normal(c) && PossibleRun(c, m, a, cleaning) && PossibleRun(c, StateAt(c, m, a, cleaning), b, cleaning)
    ensures PossibleRun(c, m, a + b, cleaning)
    decreases |a|
  {
    if a == [] {
      assert a + b == b;
    } else {
      assert (a + b)[1..] == a[1..] + b;
      PossibleConcat(c, Step(c, m, a[0], cleaning), a[1..], b, cleaning);
    }
  }

  /** Without the cleanup the second time falls short. */
  lemma SecondFallsShort(c: Config, ws: seq<nat>, ip: string, gap: nat, at: int, cleaning: bool)
    requires Normal(c) && ip != "" && Plays(c, ws) && 2.0 * Rest(c, ws) < Rate(c) && gap < c.period
    ensures PossibleRun(c, Only(ip, Rest(c, ws), at), Ticks(ws, ip, at + gap), cleaning)
    ensures !AllAdmitted(Answers(c, Only(ip, Rest(c, ws), at), Ticks(ws, ip, at + gap), cleaning))
  {
    var z, later := Rest(c, ws), [gap] + ws[1..];
    SmoothEnds(c, ws, c.capacity);
    assert later[1..] == ws[1..] && Ticks(later, ip, at) == Ticks(ws, ip, at + gap);
    TicksAre(c, later, ip, z, at, cleaning);
    if AllOk(c, later, z) {
      AdmittedHadTokens(c, later, z);
      LaterLeft(c, ws, gap);
    }
  }

  lemma LaterLeft(c: Config, ws: seq<nat>, gap: nat)
    requires Normal(c) && Plays(c, ws) && gap < c.period
    ensures Left(c, [gap] + ws[1..], Rest(c, ws)) <= 2.0 * Rest(c, ws) - Rate(c)
  {
    var z, later := Rest(c, ws), [gap] + ws[1..];
    LeftIs(c, later, z);
    LeftIs(c, ws, c.capacity);
    assert later[1..] == ws[1..] && Sum(later) == gap + Sum(ws);
    AccruedAdd(c, gap, Sum(ws));
    BelowFull(c, 0.0, gap);
    AccruedAdd(c, gap, 1);
    AccruedMono(c, gap + 1, c.period);
    AccruedPeriod(c);
    assert Accrued(c, 1) == Rate(c);
  }

  lemma CleanupFirst(c: Config, m: Entries, now: int, ops: seq<Op>, cleaning: bool)
    requires Normal(c)
    ensures var m' := if cleaning then Cleaned(c, m, now) else m;
            && Answers(c, m, [CleanupOp(now)] + ops, cleaning) == Answers(c, m', ops, cleaning)
            && (PossibleRun(c, m, [CleanupOp(now)] + ops, cleaning) <==> PossibleRun(c, m', ops, cleaning))
  {
    assert ([CleanupOp(now)] + ops)[1..] == ops;
  }

  /** Played on a missing entry the script is admitted throughout. */
  lemma FirstTimeGoes(c: Config, ws: seq<nat>, ip: string, at: int, cleaning: bool)
    requires Normal(c) && ip != "" && Plays(c, ws)
    ensures Leads(c, map[], Ticks(ws, ip, at), Only(ip, Rest(c, ws), at + Sum(ws)), cleaning)
  {
    FromNothing(c, ws, ip, at, cleaning);
    TicksAre(c, ws, ip, c.capacity, at, cleaning);
    TicksLeave(c, ws, ip, c.capacity, at, cleaning);
    SmoothRun(c, ws, c.capacity);
  }

  lemma AdmittedConcat(a: seq<Answer>, b: seq<Answer>)
    ensures AllAdmitted(a + b) <==> AllAdmitted(a) && AllAdmitted(b)
  {
    if AllAdmitted(a + b) {
      assert forall x :: x in a ==> x in a + b;
      assert forall x :: x in b ==> x in a + b;
    }
  }

  /** A run, a cleanup and another run: if the first is admitted, the second decides. */
  lemma SecondDecides(c: Config, first: seq<Op>, now: int, second: seq<Op>, m: Entries, cleaning: bool)
    requires Normal(c) && PossibleRun(c, map[], first, cleaning) && AllAdmitted(Answers(c, map[], first, cleaning))
    requires m == (if cleaning then Cleaned(c, StateAt(c, map[], first, cleaning), now)
                   else StateAt(c, map[], first, cleaning))
    requires PossibleRun(c, m, second, cleaning)
    ensures var ops := first + ([CleanupOp(now)] + second);
            && PossibleRun(c, map[], ops, cleaning)
            && (AllAdmitted(Answers(c, map[], ops, cleaning)) <==> AllAdmitted(Answers(c, m, second, cleaning)))
  {
    var mid, encore := StateAt(c, map[], first, cleaning), [CleanupOp(now)] + second;
    CleanupFirst(c, mid, now, second, cleaning);
    PossibleConcat(c, map[], first, encore, cleaning);
    AnswersConcat(c, map[], first, encore, cleaning);
    AdmittedConcat(Answers(c, map[], first, cleaning), Answers(c, mid, encore, cleaning));
  }

  lemma StaleIsGone(c: Config, ip: string, tokens: real, at: int)
    ensures Cleaned(c, Only(ip, tokens, at), at + c.staleTTL + 1) == map[]
  {
  }

  /** A first run that is admitted either way and leaves mid, a cleanup that empties mid, and a second run that
      is admitted on the empty table but not on mid: the cleanup shows. */
  lemma CleanupShows(c: Config, lag: nat, first: seq<Op>, now: int, second: seq<Op>, mid: Entries)
    requires Normal(c) && Lagging(first + ([CleanupOp(now)] + second), 0, lag) && Cleaned(c, mid, now) == map[]
    requires Leads(c, map[], first, mid, true) && Leads(c, map[], first, mid, false)
    requires PossibleRun(c, map[], second, true) && AllAdmitted(Answers(c, map[], second, true))
    requires PossibleRun(c, mid, second, false) && !AllAdmitted(Answers(c, mid, second, false))
    ensures !Invisible(c, lag)
  {
    SecondDecides(c, first, now, second, map[], true);
    SecondDecides(c, first, now, second, mid, false);
  }

  /** The run is possible, admitted throughout, and leads from m to m'. */
  ghost predicate Leads(c: Config, m: Entries, ops: seq<Op>, m': Entries, cleaning: bool)
    requires Normal(c)
  {
    PossibleRun(c, m, ops, cleaning) && AllAdmitted(Answers(c, m, ops, cleaning)) && StateAt(c, m, ops, cleaning) == m'
  }

  /** Play the script at time 0, before whatever comes next. */
  lemma FirstPart(c: Config, ws: seq<nat>, ip: string, lag: nat, next: seq<Op>) returns (first: seq<Op>)
    requires Normal(c) && ip != "" && Plays(c, ws) && Lagging(next, Sum(ws), lag)
    ensures Lagging(first + next, 0, lag)
    ensures Leads(c, map[], first, Only(ip, Rest(c, ws), Sum(ws)), true)
    ensures Leads(c, map[], first, Only(ip, Rest(c, ws), Sum(ws)), false)
  {
    first := Ticks(ws, ip, 0);
    TicksLagging(ws, ip, 0, 0, lag, next);
    FirstTimeGoes(c, ws, ip, 0, true);
    FirstTimeGoes(c, ws, ip, 0, false);
  }

  /** Play it again gap after it ended, by readings that are not too far behind the cleanup. */
  lemma SecondPart(c: Config, ws: seq<nat>, ip: string, gap: nat, lag: nat) returns (second: seq<Op>)
    requires Normal(c) && ip != "" && Plays(c, ws) && 2.0 * Rest(c, ws) < Rate(c) && gap < c.period
    requires c.staleTTL + 1 <= gap + lag
    ensures Lagging([CleanupOp(Sum(ws) + c.staleTTL + 1)] + second, Sum(ws), lag)
    ensures PossibleRun(c, map[], second, true) && AllAdmitted(Answers(c, map[], second, true))
    ensures var mid := Only(ip, Rest(c, ws), Sum(ws));
            PossibleRun(c, mid, second, false) && !AllAdmitted(Answers(c, mid, second, false))
  {
    second := Ticks(ws, ip, Sum(ws) + gap);
    EncoreLagging(c, ws, ip, gap, lag);
    FirstTimeGoes(c, ws, ip, Sum(ws) + gap, true);
    SecondFallsShort(c, ws, ip, gap, Sum(ws), false);
  }

  lemma EncoreLagging(c: Config, ws: seq<nat>, ip: string, gap: nat, lag: nat)
    requires Normal(c) && ws != [] && c.staleTTL + 1 <= gap + lag
    ensures Lagging([CleanupOp(Sum(ws) + c.staleTTL + 1)] + Ticks(ws, ip, Sum(ws) + gap), Sum(ws), lag)
  {
    var t := Sum(ws);
    var now, second := t + c.staleTTL + 1, Ticks(ws, ip, t + gap);
    TicksLagging(ws, ip, t + gap, now, lag, []);
    assert second + [] == second == ([CleanupOp(now)] + second)[1..];
  }

  // ---------- Below one token of capacity ----------

  /** No token is ever spent, so every entry is full. */
  ghost predicate AllFull(c: Config, m: Entries) {
    forall k :: k in m ==> m[k].tokens == c.capacity
  }

  lemma StepAllFull(c: Config, m: Entries, op: Op, cleaning: bool)
    requires Normal(c) && c.capacity < 1.0 && AllFull(c, m)
    ensures AllFull(c, Step(c, m, op, cleaning))
    ensures op.TakeOp? && op.ip != "" ==>
              Take(c, m, op.ip, op.now, op.victim).1 == Spend(c, Entry(c.capacity, op.now)).1
  {
    if op.TakeOp? && op.ip != "" {
      var e := Found(c, m, op.ip, op.now);
      if op.now > e.lastRefill {
        AccruedMono(c, 0, op.now - e.lastRefill);
      }
      assert Refilled(c, e, op.now).tokens == c.capacity;
    }
  }

  lemma {:induction false} TooSmallToTell(c: Config, m: Entries, m': Entries, ops: seq<Op>)
    requires Normal(c) && c.capacity < 1.0 && AllFull(c, m) && AllFull(c, m')
    ensures Answers(c, m, ops, true) == Answers(c, m', ops, false)
    decreases |ops|
  {
    if ops != [] {
      StepAllFull(c, m, ops[0], true);
      StepAllFull(c, m', ops[0], false);
      TooSmallToTell(c, Step(c, m, ops[0], true), Step(c, m', ops[0], false), ops[1..]);
    }
  }

  /** With at least one token of capacity and entries that do not outlive a refill by the lag, a cleanup shows. */
  lemma Shows(c: Config, lag: nat)
    requires Normal(c) && c.capacity >= 1.0 && c.period + lag > c.staleTTL + 1
    ensures !Invisible(c, lag)
  {
    var ws := LowScript(c);
    var gap := if lag <= c.staleTTL + 1 then c.staleTTL + 1 - lag else 0;
    var now := Sum(ws) + c.staleTTL + 1;
    var second := SecondPart(c, ws, "a", gap, lag);
    var first := FirstPart(c, ws, "a", lag, [CleanupOp(now)] + second);
    StaleIsGone(c, "a", Rest(c, ws), Sum(ws));
    CleanupShows(c, lag, first, now, second, Only("a", Rest(c, ws), Sum(ws)));
  }

  lemma Hides(c: Config, lag: nat)
    requires Normal(c) && (c.capacity < 1.0 || c.period + lag <= c.staleTTL + 1)
    ensures Invisible(c, lag)
  {
    forall ops | Lagging(ops, 0, lag) && PossibleRun(c, map[], ops, false)
      ensures Answers(c, map[], ops, true) == Answers(c, map[], ops, false)
    {
      if c.capacity < 1.0 {
        TooSmallToTell(c, map[], map[], ops);
      } else {
        CleanupUnobservable(c, map[], map[], ops, 0, lag);
      }
    }
  }

  /** Cleanup is unobservable exactly when the capacity is below one token or entries outlive a refill by
      as much as readings may be out of order. */
  lemma CleanupInvisibleIff(c: Config, lag: nat)
    requires Normal(c)
    ensures Invisible(c, lag) <==> c.capacity < 1.0 || c.period + lag <= c.staleTTL + 1
  {
    if c.capacity < 1.0 || c.period + lag <= c.staleTTL + 1 {
      Hides(c, lag);
    } else {
      Shows(c, lag);
    }
  }

  /** The settings the program runs with: five attempts per ten minutes, ten thousand addresses, entries dropped after
      twenty minutes. Their cleanup stays invisible for readings out of order by up to ten minutes. */
  lemma DefaultsAreSafe(lag: nat)
    ensures var c := Normalized(Config(0.0, 0, 0, 0));
            && c == Config(5.0, 600_000_000_000, 10000, 1_200_000_000_000)
            && (Invisible(c, lag) <==> lag <= 600_000_000_001)
  {
    CleanupInvisibleIff(Normalized(Config(0.0, 0, 0, 0)), lag);
  }
}
