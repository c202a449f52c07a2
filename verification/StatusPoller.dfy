/** The status poller protocol: any number of concurrent starters and stoppers around one mutex
    and a pair of channels per poller (internal/service/hub.go). */
module StatusPoller {
  import opened Bytes

  /** A poller goroutine: in its select, polling, past the loop, past close(done), or gone. */
  datatype Poller = Selecting | Polling | Leaving | Closed | Gone

  /** A goroutine inside startStatusPoller or stopStatusPoller; awaited is the poller whose done channel it waits on. */
  datatype Caller =
    | Starting
    | StartWaits(awaited: nat)
    | Started
    | Stopping
    | StopWaits(awaited: nat)
    | Stopped(current: Option<nat>)  // current: the poller current when it took the lock

  /** Poller n owns stop channel n and done channel n. */
  datatype Hub = Hub(
    running: bool,
    statusStop: Option<nat>,
    statusDone: Option<nat>,
    pollers: seq<Poller>,
    stopCloses: seq<nat>,
    doneCloses: seq<nat>,
    callers: map<nat, Caller>)

  datatype Action =
    | CallStart(t: nat)
    | CallStop(t: nat)
    | StartLocked(t: nat)
    | StartWakes(t: nat)
    | StopLocked(t: nat)
    | StopWakes(t: nat)
    | Tick(n: nat)
    | PollDone(n: nat)
    | SeeStop(n: nat)
    | CloseDone(n: nat)
    | ClearDone(n: nat)

  function Initial(): Hub {
    Hub(false, None, None, [], [], [], map[])
  }

  /** The done channel of poller n is closed. */
  predicate IsDone(h: Hub, n: nat) {
    n < |h.doneCloses| && h.doneCloses[n] > 0
  }

  predicate Enabled(h: Hub, a: Action) {
    match a
    case CallStart(t) => t !in h.callers
    case CallStop(t) => t !in h.callers
    case StartLocked(t) => t in h.callers && h.callers[t].Starting?
    case StartWakes(t) =>
      t in h.callers && h.callers[t].StartWaits? && IsDone(h, h.callers[t].awaited)
    case StopLocked(t) =>
      && t in h.callers && h.callers[t].Stopping?
      && (h.running ==> h.statusStop.Some? && h.statusStop.value < |h.stopCloses|)
    case StopWakes(t) =>
      t in h.callers && h.callers[t].StopWaits? && IsDone(h, h.callers[t].awaited)
    case Tick(n) => n < |h.pollers| && h.pollers[n].Selecting?
    case PollDone(n) => n < |h.pollers| && h.pollers[n].Polling?
    case SeeStop(n) => n < |h.pollers| && h.pollers[n].Selecting? && n < |h.stopCloses| && h.stopCloses[n] > 0
    case CloseDone(n) => n < |h.pollers| && h.pollers[n].Leaving? && n < |h.doneCloses|
    case ClearDone(n) => n < |h.pollers| && h.pollers[n].Closed?
  }

  function At(h: Hub, t: nat, c: Caller): Hub {
    h.(callers := h.callers[t := c])
  }

  function Move(h: Hub, n: nat, p: Poller): Hub
    requires n < |h.pollers|
  {
    h.(pollers := h.pollers[n := p])
  }

  function Step(h: Hub, a: Action): Hub
    requires Enabled(h, a)
  {
    match a
    case CallStart(t) => At(h, t, Starting)
    case CallStop(t) => At(h, t, Stopping)
    case StartLocked(t) => AfterStart(h, t)
    case StartWakes(t) => At(h, t, Starting)
    case StopLocked(t) => AfterStop(h, t)
    case StopWakes(t) => At(h, t, Stopped(Some(h.callers[t].awaited)))
    case Tick(n) => Move(h, n, Polling)
    case PollDone(n) => Move(h, n, Selecting)
    case SeeStop(n) => Move(h, n, Leaving)
    case CloseDone(n) => Move(h, n, Closed).(doneCloses := h.doneCloses[n := h.doneCloses[n] + 1])
    case ClearDone(n) => Move(h, n, Gone).(statusDone := if h.statusDone == Some(n) then None else h.statusDone)
  }

  /** One turn of the starter's loop under the lock: already running, wait for the old poller, or start. */
  function AfterStart(h: Hub, t: nat): Hub {
    if h.running then At(h, t, Started)
    else if h.statusDone.Some? then At(h, t, StartWaits(h.statusDone.value))
    else
      At(h, t, Started).(
        running := true, statusStop := Some(|h.pollers|), statusDone := Some(|h.pollers|),
        pollers := h.pollers + [Selecting], stopCloses := h.stopCloses + [0], doneCloses := h.doneCloses + [0])
  }

  /** The stopper's locked region: close(stop) if running, then wait for whatever done channel is current. */
  function AfterStop(h: Hub, t: nat): Hub
    requires h.running ==> h.statusStop.Some? && h.statusStop.value < |h.stopCloses|
  {
    if !h.running then
      At(h, t, if h.statusDone.Some? then StopWaits(h.statusDone.value) else Stopped(None))
    else
      var n := h.statusStop.value;
      At(h, t, if h.statusDone.Some? then StopWaits(h.statusDone.value) else Stopped(None)).(
        running := false, statusStop := None, stopCloses := h.stopCloses[n := h.stopCloses[n] + 1])
  }

  function After(run: seq<Action>): Option<Hub> {
    if run == [] then Some(Initial())
    else
      var before := After(run[..|run| - 1]);
      if before.Some? && Enabled(before.value, run[|run| - 1]) then Some(Step(before.value, run[|run| - 1])) else None
  }

  // ---------- The invariant ----------

  /** What the shared fields say about poller n. */
  ghost predicate PollerInv(h: Hub, n: nat)
    requires n < |h.pollers| == |h.stopCloses| == |h.doneCloses|
  {
    && (h.pollers[n].Gone? <==> h.statusDone != Some(n))
    && h.stopCloses[n] == (if h.running && h.statusStop == Some(n) then 0 else 1)
    && h.doneCloses[n] == (if h.pollers[n].Closed? || h.pollers[n].Gone? then 1 else 0)
    && (h.stopCloses[n] == 0 ==> h.pollers[n].Selecting? || h.pollers[n].Polling?)
  }

  ghost predicate CallerInv(h: Hub, c: Caller) {
    match c
    case StartWaits(d) => d < |h.pollers| && d < |h.stopCloses| && h.stopCloses[d] == 1
    case StopWaits(d) => d < |h.pollers| && d < |h.stopCloses| && h.stopCloses[d] == 1
    case Stopped(current) =>
      current.Some? ==> current.value < |h.pollers| && h.pollers[current.value] in {Closed, Gone}
    case _ => true
  }

  ghost predicate Inv(h: Hub) {
    && |h.pollers| == |h.stopCloses| == |h.doneCloses|
    && (h.running ==> h.statusStop.Some? && h.statusStop == h.statusDone)
    && (h.statusDone.Some? ==> h.statusDone.value < |h.pollers|)
    && (forall n :: 0 <= n < |h.pollers| ==> PollerInv(h, n))
    && (forall t :: t in h.callers ==> CallerInv(h, h.callers[t]))
  }

  lemma StepPoller(h: Hub, a: Action, n: nat)
    requires Inv(h) && Enabled(h, a) && n < |Step(h, a).pollers|
    ensures |Step(h, a).pollers| == |Step(h, a).stopCloses| == |Step(h, a).doneCloses|
    ensures PollerInv(Step(h, a), n)
  {
    assert n < |h.pollers| ==> PollerInv(h, n);
    assert h.statusDone.Some? ==> PollerInv(h, h.statusDone.value);
  }

  /** What a caller relies on stays true whatever others do. */
  lemma KeptCaller(h: Hub, a: Action, c: Caller)
    requires Inv(h) && Enabled(h, a) && CallerInv(h, c)
    ensures CallerInv(Step(h, a), c)
  {
    if h.running {
      assert PollerInv(h, h.statusStop.value);
    }
  }

  /** A goroutine that finds no running poller under the lock waits for one that has been told to stop. */
  lemma WaitingCaller(h: Hub, n: nat)
    requires Inv(h) && !h.running && h.statusDone == Some(n)
    ensures n < |h.pollers| && n < |h.stopCloses| && h.stopCloses[n] == 1
  {
    assert PollerInv(h, n);
  }

  lemma StartCaller(h: Hub, t: nat)
    requires Inv(h)
    ensures CallerInv(AfterStart(h, t), AfterStart(h, t).callers[t])
  {
    if !h.running && h.statusDone.Some? {
      WaitingCaller(h, h.statusDone.value);
    }
  }

  lemma StopCaller(h: Hub, t: nat)
    requires Inv(h)
    ensures CallerInv(AfterStop(h, t), AfterStop(h, t).callers[t])
  {
    if h.running {
      assert PollerInv(h, h.statusStop.value);
    } else if h.statusDone.Some? {
      WaitingCaller(h, h.statusDone.value);
    }
  }

  lemma StepCaller(h: Hub, a: Action, t: nat)
    requires Inv(h) && Enabled(h, a) && t in Step(h, a).callers
    ensures CallerInv(Step(h, a), Step(h, a).callers[t])
  {
    match a
    case StartLocked(u) =>
      if u == t { StartCaller(h, t); } else { KeptCaller(h, a, h.callers[t]); }
    case StopLocked(u) =>
      if u == t { StopCaller(h, t); } else { KeptCaller(h, a, h.callers[t]); }
    case StopWakes(u) =>
      assert CallerInv(h, h.callers[u]) && PollerInv(h, h.callers[u].awaited);
      if u != t { KeptCaller(h, a, h.callers[t]); }
    case _ =>
      if t in h.callers && Step(h, a).callers[t] == h.callers[t] { KeptCaller(h, a, h.callers[t]); }
  }

  /** Every step of every goroutine keeps the invariant. */
  lemma StepInv(h: Hub, a: Action)
    requires Inv(h) && Enabled(h, a)
    ensures Inv(Step(h, a))
  {
    var h' := Step(h, a);
    assert a.ClearDone? ==> PollerInv(h, a.n);
    forall n | 0 <= n < |h'.pollers|
      ensures |h'.pollers| == |h'.stopCloses| == |h'.doneCloses| && PollerInv(h', n)
    {
      StepPoller(h, a, n);
    }
    forall t | t in h'.callers
      ensures CallerInv(h', h'.callers[t])
    {
      StepCaller(h, a, t);
    }
  }

  lemma {:induction false} ReachableInv(run: seq<Action>)
    requires After(run).Some?
    ensures Inv(After(run).value)
  {
    if run != [] {
      ReachableInv(run[..|run| - 1]);
      StepInv(After(run[..|run| - 1]).value, run[|run| - 1]);
    }
  }

  predicate InLoop(p: Poller) {
    p.Selecting? || p.Polling?
  }

  /** In every reachable state at most one poller has not finished, no channel was closed twice,
      and the lock-protected stop never meets a missing channel. */
  lemma OnePoller(run: seq<Action>)
    requires After(run).Some?
    ensures var h := After(run).value;
            && (forall m, n | 0 <= m < |h.pollers| && 0 <= n < |h.pollers| ::
                  !h.pollers[m].Gone? && !h.pollers[n].Gone? ==> m == n)
            && (forall n :: 0 <= n < |h.stopCloses| ==> h.stopCloses[n] <= 1)
            && (forall n :: 0 <= n < |h.doneCloses| ==> h.doneCloses[n] <= 1)
            && (h.running ==> h.statusStop.Some? && h.statusStop.value < |h.stopCloses|)
  {
    ReachableInv(run);
    var h := After(run).value;
    forall n | 0 <= n < |h.pollers|
      ensures h.stopCloses[n] <= 1 && h.doneCloses[n] <= 1
      ensures !h.pollers[n].Gone? ==> h.statusDone == Some(n)
    {
      assert PollerInv(h, n);
    }
  }

  /** When stopStatusPoller takes the lock it records the live poller, whether or not it is the one to stop it. */
  lemma StopWaitsForCurrent(run: seq<Action>, t: nat)
    requires After(run).Some? && Enabled(After(run).value, StopLocked(t))
    ensures var h := After(run).value;
            var c := Step(h, StopLocked(t)).callers[t];
            if c.StopWaits? then c.awaited < |h.pollers| && !h.pollers[c.awaited].Gone?
            else c == Stopped(None) && forall n :: 0 <= n < |h.pollers| ==> h.pollers[n].Gone?
  {
    ReachableInv(run);
    var h := After(run).value;
    forall n | 0 <= n < |h.pollers|
      ensures h.pollers[n].Gone? <==> h.statusDone != Some(n)
    {
      assert PollerInv(h, n);
    }
  }

  lemma StepPast(h: Hub, a: Action, n: nat)
    requires Enabled(h, a) && n < |h.pollers| && !InLoop(h.pollers[n])
    ensures n < |Step(h, a).pollers| && !InLoop(Step(h, a).pollers[n])
  {
  }

  /** A poller past its loop never polls again. */
  lemma {:induction false} PastTheLoop(run: seq<Action>, more: seq<Action>, n: nat)
    requires After(run).Some? && After(run + more).Some?
    requires n < |After(run).value.pollers| && !InLoop(After(run).value.pollers[n])
    ensures n < |After(run + more).value.pollers| && !InLoop(After(run + more).value.pollers[n])
    decreases |more|
  {
    if more == [] {
      assert run + more == run;
    } else {
      var front := more[..|more| - 1];
      assert (run + more)[..|run + more| - 1] == run + front;
      PastTheLoop(run, front, n);
      StepPast(After(run + front).value, more[|more| - 1], n);
    }
  }

  lemma StepWaiter(h: Hub, a: Action, t: nat, n: nat)
    requires Enabled(h, a) && t in h.callers && h.callers[t] in {StopWaits(n), Stopped(Some(n))}
    ensures t in Step(h, a).callers && Step(h, a).callers[t] in {StopWaits(n), Stopped(Some(n))}
  {
  }

  /** A stopper that waits for poller n goes on waiting for it, and returns having waited for it. */
  lemma {:induction false} WaiterKeepsWaiting(run: seq<Action>, more: seq<Action>, t: nat, n: nat)
    requires After(run).Some? && After(run + more).Some?
    requires t in After(run).value.callers && After(run).value.callers[t] == StopWaits(n)
    ensures t in After(run + more).value.callers
    ensures After(run + more).value.callers[t] in {StopWaits(n), Stopped(Some(n))}
    decreases |more|
  {
    if more == [] {
      assert run + more == run;
    } else {
      var front := more[..|more| - 1];
      assert (run + more)[..|run + more| - 1] == run + front;
      WaiterKeepsWaiting(run, front, t, n);
      StepWaiter(After(run + front).value, more[|more| - 1], t, n);
    }
  }

  /** A stop takes the lock after run. Whenever it has returned, the poller that was unfinished at the lock
      has finished its last poll for good; there was no other. */
  lemma StopReturnsAfterLastPoll(run: seq<Action>, t: nat, more: seq<Action>, n: nat)
    requires After(run).Some? && Enabled(After(run).value, StopLocked(t)) && After(run + [StopLocked(t)] + more).Some?
    requires n < |After(run).value.pollers| && !After(run).value.pollers[n].Gone?
    requires t in After(run + [StopLocked(t)] + more).value.callers
    requires After(run + [StopLocked(t)] + more).value.callers[t].Stopped?
    ensures var h := After(run + [StopLocked(t)] + more).value;
            n < |h.pollers| && !InLoop(h.pollers[n]) && h.callers[t] == Stopped(Some(n))
    ensures forall m :: 0 <= m < |After(run).value.pollers| && m != n ==> After(run).value.pollers[m].Gone?
  {
    var locked := run + [StopLocked(t)];
    assert locked[..|run|] == run && locked[|run|] == StopLocked(t);
    OnePoller(run);
    StopWaitsForCurrent(run, t);
    WaiterKeepsWaiting(locked, more, t, n);
    ReachableInv(locked + more);
    var h := After(locked + more).value;
    assert CallerInv(h, h.callers[t]);
  }

  /** And it stays finished whatever happens next. */
  lemma StoppedPollerStaysStopped(run: seq<Action>, t: nat, more: seq<Action>)
    requires After(run).Some? && After(run + more).Some?
    requires t in After(run).value.callers && After(run).value.callers[t].Stopped?
    ensures var current := After(run).value.callers[t].current;
            var h := After(run + more).value;
            current.Some? ==> current.value < |h.pollers| && !InLoop(h.pollers[current.value])
  {
    ReachableInv(run);
    var h := After(run).value;
    assert CallerInv(h, h.callers[t]);
    if h.callers[t].current.Some? {
      PastTheLoop(run, more, h.callers[t].current.value);
    }
  }

  // ---------- What a start achieves ----------

  /** Poller n is the current one: in its loop, with its stop channel current and open. */
  ghost predicate Current(h: Hub, n: nat) {
    && h.running && n < |h.pollers| == |h.stopCloses| && InLoop(h.pollers[n])
    && h.statusStop == Some(n) && h.stopCloses[n] == 0
  }

  lemma StartStep(h: Hub, a: Action, t: nat)
    requires Inv(h) && Enabled(h, a) && t in Step(h, a).callers && Step(h, a).callers[t].Started?
    requires t in h.callers ==> !h.callers[t].Started?
    ensures a == StartLocked(t) && (h.running || h.statusDone.None?)
    ensures var h' := Step(h, a);
            && h'.running && h'.statusStop.Some? && Current(h', h'.statusStop.value)
            && (h.running ==> h'.pollers == h.pollers)
            && (!h.running ==> h'.pollers == h.pollers + [Selecting] && h'.statusStop == Some(|h.pollers|))
  {
    if h.running {
      assert PollerInv(h, h.statusStop.value);
    }
  }

  /** Whenever a call of startStatusPoller returns, exactly one poller is in its loop, and it is the current one with
      an open stop channel: the one that was running, or else a new one. */
  lemma StartMeaning(run: seq<Action>, a: Action, t: nat)
    requires After(run).Some? && Enabled(After(run).value, a)
    requires t in Step(After(run).value, a).callers && Step(After(run).value, a).callers[t].Started?
    requires t in After(run).value.callers ==> !After(run).value.callers[t].Started?
    ensures var h, h' := After(run).value, Step(After(run).value, a);
            && h'.statusStop.Some? && Current(h', h'.statusStop.value)
            && (forall n :: 0 <= n < |h'.pollers| && InLoop(h'.pollers[n]) ==> n == h'.statusStop.value)
            && (h.running ==> h'.pollers == h.pollers)
            && (!h.running ==> h'.pollers == h.pollers + [Selecting] && h'.statusStop == Some(|h.pollers|))
  {
    var h := After(run).value;
    ReachableInv(run);
    StartStep(h, a, t);
    assert (run + [a])[..|run|] == run;
    OnePoller(run + [a]);
  }

  // ---------- Nobody waits for good ----------

  lemma Extend(run: seq<Action>, h: Hub, a: Action) returns (run': seq<Action>, h': Hub)
    requires After(run) == Some(h) && Enabled(h, a)
    ensures run' == run + [a] && h' == Step(h, a) && After(run') == Some(h')
  {
    run', h' := run + [a], Step(h, a);
    assert run'[..|run|] == run;
  }

  /** The done channel of poller n got closed by its own steps; no caller moved. */
  ghost predicate Finished(h: Hub, h': Hub, n: nat) {
    IsDone(h', n) && h'.callers == h.callers && n < |h'.pollers| && !InLoop(h'.pollers[n])
  }

  lemma FinishLeaving(run: seq<Action>, h: Hub, n: nat) returns (run': seq<Action>, h': Hub)
    requires After(run) == Some(h) && n < |h.pollers| && n < |h.doneCloses| && h.pollers[n].Leaving?
    ensures After(run') == Some(h') && Finished(h, h', n) && run' == run + [CloseDone(n)]
  {
    run', h' := Extend(run, h, CloseDone(n));
  }

  lemma FinishSelecting(run: seq<Action>, h: Hub, n: nat) returns (run': seq<Action>, h': Hub)
    requires After(run) == Some(h) && n < |h.pollers| && n < |h.doneCloses| && h.pollers[n].Selecting?
    requires n < |h.stopCloses| && h.stopCloses[n] > 0
    ensures After(run') == Some(h') && Finished(h, h', n) && run' == run + [SeeStop(n), CloseDone(n)]
  {
    run', h' := Extend(run, h, SeeStop(n));
    run', h' := FinishLeaving(run', h', n);
    assert run + [SeeStop(n)] + [CloseDone(n)] == run + [SeeStop(n), CloseDone(n)];
  }

  lemma FinishPolling(run: seq<Action>, h: Hub, n: nat) returns (run': seq<Action>, h': Hub)
    requires After(run) == Some(h) && n < |h.pollers| && n < |h.doneCloses| && h.pollers[n].Polling?
    requires n < |h.stopCloses| && h.stopCloses[n] > 0
    ensures After(run') == Some(h') && Finished(h, h', n) && run' == run + [PollDone(n), SeeStop(n), CloseDone(n)]
  {
    run', h' := Extend(run, h, PollDone(n));
    run', h' := FinishSelecting(run', h', n);
    assert run + [PollDone(n)] + [SeeStop(n), CloseDone(n)] == run + [PollDone(n), SeeStop(n), CloseDone(n)];
  }

  /** A poller whose stop channel is closed can finish, by at most three steps of its own. */
  lemma CanFinish(run: seq<Action>, h: Hub, n: nat) returns (run': seq<Action>, h': Hub)
    requires After(run) == Some(h) && n < |h.pollers| && n < |h.stopCloses| && h.stopCloses[n] > 0
    ensures After(run') == Some(h') && Finished(h, h', n)
    ensures exists k: nat :: k <= 3 && run' == run + [PollDone(n), SeeStop(n), CloseDone(n)][k..]
  {
    ReachableInv(run);
    assert PollerInv(h, n);
    var own := [PollDone(n), SeeStop(n), CloseDone(n)];
    assert own[0..] == own && own[1..] == [SeeStop(n), CloseDone(n)] && own[2..] == [CloseDone(n)] && own[3..] == [];
    match h.pollers[n]
    case Polling => run', h' := FinishPolling(run, h, n);
    case Selecting => run', h' := FinishSelecting(run, h, n);
    case Leaving => run', h' := FinishLeaving(run, h, n);
    case _ =>
      run', h' := run, h;
      assert run' == run + own[3..];
  }

  /** From every reachable state a waiting stop can return, after at most three steps of the poller it waits for. */
  lemma StopCanReturn(run: seq<Action>, h: Hub, t: nat) returns (run': seq<Action>, h': Hub)
    requires After(run) == Some(h) && t in h.callers && h.callers[t].StopWaits?
    ensures After(run') == Some(h') && t in h'.callers && h'.callers[t] == Stopped(Some(h.callers[t].awaited))
    ensures |run| <= |run'| <= |run| + 4 && run'[..|run|] == run
  {
    ReachableInv(run);
    assert CallerInv(h, h.callers[t]);
    run', h' := CanFinish(run, h, h.callers[t].awaited);
    run', h' := Extend(run', h', StopWakes(t));
  }

  /** A whole life: start, tick, poll, stop, leave, and the stop returns with nothing left behind. */
  lemma WholeLife() returns (run: seq<Action>, h: Hub)
    ensures After(run) == Some(h)
    ensures run == [CallStart(0), StartLocked(0), Tick(0), PollDone(0), CallStop(1), StopLocked(1),
                    SeeStop(0), CloseDone(0), ClearDone(0), StopWakes(1)]
    ensures h == Hub(false, None, None, [Gone], [1], [1], map[0 := Started, 1 := Stopped(Some(0))])
  {
    run, h := LifeStarts();
    run, h := LifePolls(run, h);
    run, h := LifeStops(run, h);
    run, h := LifeLeaves(run, h);
    run, h := LifeEnds(run, h);
  }

  lemma LifeStarts() returns (run: seq<Action>, h: Hub)
    ensures After(run) == Some(h) && run == [CallStart(0), StartLocked(0)]
    ensures h == Hub(true, Some(0), Some(0), [Selecting], [0], [0], map[0 := Started])
  {
    run, h := Extend([], Initial(), CallStart(0));
    run, h := Extend(run, h, StartLocked(0));
  }

  lemma LifePolls(run: seq<Action>, h: Hub) returns (run': seq<Action>, h': Hub)
    requires After(run) == Some(h) && h == Hub(true, Some(0), Some(0), [Selecting], [0], [0], map[0 := Started])
    ensures After(run') == Some(h') && run' == run + [Tick(0), PollDone(0)] && h' == h
  {
    run', h' := Extend(run, h, Tick(0));
    run', h' := Extend(run', h', PollDone(0));
    assert run + [Tick(0)] + [PollDone(0)] == run + [Tick(0), PollDone(0)];
  }

  lemma LifeStops(run: seq<Action>, h: Hub) returns (run': seq<Action>, h': Hub)
    requires After(run) == Some(h) && h == Hub(true, Some(0), Some(0), [Selecting], [0], [0], map[0 := Started])
    ensures After(run') == Some(h') && run' == run + [CallStop(1), StopLocked(1)]
    ensures h' == Hub(false, None, Some(0), [Selecting], [1], [0], map[0 := Started, 1 := StopWaits(0)])
  {
    run', h' := Extend(run, h, CallStop(1));
    run', h' := Extend(run', h', StopLocked(1));
    assert run + [CallStop(1)] + [StopLocked(1)] == run + [CallStop(1), StopLocked(1)];
  }

  lemma LifeLeaves(run: seq<Action>, h: Hub) returns (run': seq<Action>, h': Hub)
    requires After(run) == Some(h)
    requires h == Hub(false, None, Some(0), [Selecting], [1], [0], map[0 := Started, 1 := StopWaits(0)])
    ensures After(run') == Some(h') && run' == run + [SeeStop(0), CloseDone(0)]
    ensures h' == Hub(false, None, Some(0), [Closed], [1], [1], map[0 := Started, 1 := StopWaits(0)])
  {
    run', h' := Extend(run, h, SeeStop(0));
    run', h' := Extend(run', h', CloseDone(0));
    assert run' == run + [SeeStop(0), CloseDone(0)];
  }

  lemma LifeEnds(run: seq<Action>, h: Hub) returns (run': seq<Action>, h': Hub)
    requires After(run) == Some(h)
    requires h == Hub(false, None, Some(0), [Closed], [1], [1], map[0 := Started, 1 := StopWaits(0)])
    ensures After(run') == Some(h') && run' == run + [ClearDone(0), StopWakes(1)]
    ensures h' == Hub(false, None, None, [Gone], [1], [1], map[0 := Started, 1 := Stopped(Some(0))])
  {
    run', h' := Extend(run, h, ClearDone(0));
    run', h' := Extend(run', h', StopWakes(1));
    assert run' == run + [ClearDone(0), StopWakes(1)];
  }
}
