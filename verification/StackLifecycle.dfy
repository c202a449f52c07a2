/** Start and Stop of the VPN stack under every interleaving: generations, the stopping flag,
    and serialized callbacks (internal/vpn/runtime/stack.go). */
module StackLifecycle {
  import opened Bytes

  /** A callback, with the tunnel instance it concerns. */
  datatype Callback = OnStarted(instance: nat) | OnStopped(instance: nat)

  /** Where a call of Start or Stop stands between its critical sections. */
  datatype Pc =
    | Launched(instance: nat, gen: nat)    // Start released mu, before lifecycleMu
    | StartHolds(instance: nat, gen: nat)  // Start holds lifecycleMu, before the recheck
    | InStarted(instance: nat)             // inside the OnStarted callback
    | StartLeaves(instance: nat)           // about to release lifecycleMu
    | StopLaunched(instance: nat)          // Stop raised the flag, before lifecycleMu
    | StopHolds(instance: nat)
    | InStopped(instance: nat)             // inside the OnStopped callback
    | StopLeaves(instance: nat)
    | TearingDown(instance: nat)           // before the final critical section
    | Returned

  datatype Stack = Stack(
    tunnel: Option<nat>,
    generation: nat,
    stopping: bool,
    lifecycle: Option<nat>,
    instances: nat,        // tunnels created so far
    delivered: seq<Callback>,
    calls: map<nat, Pc>)

  /** How a Start fares: it may fail before the tunnel is kept, or be rolled back after. */
  datatype Fate = FailsEarly | RolledBack | Succeeds

  datatype Action =
    | Start(t: nat, fate: Fate)
    | StartLocks(t: nat)
    | Recheck(t: nat)
    | StartedReturns(t: nat)
    | StartReleases(t: nat)
    | Stop(t: nat)
    | StopLocks(t: nat)
    | StopNotifies(t: nat)
    | StoppedReturns(t: nat)
    | StopReleases(t: nat)
    | TearDown(t: nat)

  function Initial(): Stack {
    Stack(None, 0, false, None, 0, [], map[])
  }

  predicate Enabled(s: Stack, a: Action) {
    match a
    case Start(t, _) => t !in s.calls
    case StartLocks(t) => t in s.calls && s.calls[t].Launched? && s.lifecycle.None?
    case Recheck(t) => t in s.calls && s.calls[t].StartHolds?
    case StartedReturns(t) => t in s.calls && s.calls[t].InStarted?
    case StartReleases(t) => t in s.calls && s.calls[t].StartLeaves?
    case Stop(t) => t !in s.calls
    case StopLocks(t) => t in s.calls && s.calls[t].StopLaunched? && s.lifecycle.None?
    case StopNotifies(t) => t in s.calls && s.calls[t].StopHolds?
    case StoppedReturns(t) => t in s.calls && s.calls[t].InStopped?
    case StopReleases(t) => t in s.calls && s.calls[t].StopLeaves?
    case TearDown(t) => t in s.calls && s.calls[t].TearingDown?
  }

  function Go(s: Stack, t: nat, pc: Pc): Stack {
    s.(calls := s.calls[t := pc])
  }

  function Step(s: Stack, a: Action): Stack
    requires Enabled(s, a)
  {
    match a
    case Start(t, fate) => AfterStart(s, t, fate)
    case StartLocks(t) => Go(s, t, StartHolds(s.calls[t].instance, s.calls[t].gen)).(lifecycle := Some(t))
    case Recheck(t) => AfterRecheck(s, t, s.calls[t].instance, s.calls[t].gen)
    case StartedReturns(t) => Go(s, t, StartLeaves(s.calls[t].instance))
    case StartReleases(t) => Go(s, t, Returned).(lifecycle := None)
    case Stop(t) => AfterStop(s, t)
    case StopLocks(t) => Go(s, t, StopHolds(s.calls[t].instance)).(lifecycle := Some(t))
    case StopNotifies(t) =>
      Go(s, t, InStopped(s.calls[t].instance)).(delivered := s.delivered + [OnStopped(s.calls[t].instance)])
    case StoppedReturns(t) => Go(s, t, StopLeaves(s.calls[t].instance))
    case StopReleases(t) => Go(s, t, TearingDown(s.calls[t].instance)).(lifecycle := None)
    case TearDown(t) => Go(s, t, Returned).(tunnel := None, stopping := false)
  }

  /** The first critical section of Start. */
  function AfterStart(s: Stack, t: nat, fate: Fate): Stack {
    if s.tunnel.Some? || fate.FailsEarly? then Go(s, t, Returned)
    else if fate.RolledBack? then Go(s, t, Returned).(generation := s.generation + 1, instances := s.instances + 1)
    else
      Go(s, t, Launched(s.instances, s.generation + 1)).(
        tunnel := Some(s.instances), generation := s.generation + 1, instances := s.instances + 1)
  }

  /** Publish OnStarted only if this very start is still the current one. */
  function AfterRecheck(s: Stack, t: nat, instance: nat, gen: nat): Stack {
    if s.tunnel == Some(instance) && s.generation == gen && !s.stopping
    then Go(s, t, InStarted(instance)).(delivered := s.delivered + [OnStarted(instance)])
    else Go(s, t, StartLeaves(instance))
  }

  /** The first critical section of Stop: nothing to do when down or already being stopped. */
  function AfterStop(s: Stack, t: nat): Stack {
    if s.tunnel.None? || s.stopping then Go(s, t, Returned)
    else Go(s, t, StopLaunched(s.tunnel.value)).(stopping := true, generation := s.generation + 1)
  }

  function After(run: seq<Action>): Option<Stack> {
    if run == [] then Some(Initial())
    else
      var before := After(run[..|run| - 1]);
      if before.Some? && Enabled(before.value, run[|run| - 1]) then Some(Step(before.value, run[|run| - 1])) else None
  }

  // ---------- The invariant ----------

  predicate Holds(pc: Pc) {
    pc.StartHolds? || pc.InStarted? || pc.StartLeaves? || pc.StopHolds? || pc.InStopped? || pc.StopLeaves?
  }

  predicate InStop(pc: Pc) {
    pc.StopLaunched? || pc.StopHolds? || pc.InStopped? || pc.StopLeaves? || pc.TearingDown?
  }

  /** A Stop that has not delivered its callback yet. */
  predicate BeforeNotice(pc: Pc) {
    pc.StopLaunched? || pc.StopHolds?
  }

  /** A Start that may still publish. */
  predicate MayPublish(pc: Pc) {
    pc.Launched? || pc.StartHolds?
  }

  function Last(s: Stack): Option<Callback> {
    if s.delivered == [] then None else Some(s.delivered[|s.delivered| - 1])
  }

  /** What one call knows about the shared state. */
  ghost predicate CallInv(s: Stack, t: nat, pc: Pc) {
    && (Holds(pc) <==> s.lifecycle == Some(t))
    && (InStop(pc) ==> s.stopping && s.tunnel == Some(pc.instance))
    && (InStop(pc) && BeforeNotice(pc) ==> OnStopped(pc.instance) !in s.delivered)
    && (InStop(pc) && !BeforeNotice(pc) ==> Last(s) == Some(OnStopped(pc.instance)))
    && (MayPublish(pc) ==>
          && pc.instance < s.instances && pc.gen <= s.generation && OnStarted(pc.instance) !in s.delivered
          && (s.tunnel == Some(pc.instance) && s.generation == pc.gen ==> !s.stopping)
          && (s.tunnel == Some(pc.instance) && !s.stopping ==> s.generation == pc.gen))
  }

  /** Only one Stop is ever in progress, and a Start owns the instance it may publish. */
  ghost predicate Exclusive(s: Stack) {
    && (forall t, u | t in s.calls && u in s.calls :: InStop(s.calls[t]) && InStop(s.calls[u]) ==> t == u)
    && (forall t, u | t in s.calls && u in s.calls ::
          MayPublish(s.calls[t]) && MayPublish(s.calls[u]) && s.calls[t].instance == s.calls[u].instance ==> t == u)
  }

  /** The shared state, with the calls in flight that account for it. */
  ghost predicate SharedInv(s: Stack) {
    && (s.stopping ==> Stopper(s))
    && (s.lifecycle.Some? ==> s.lifecycle.value in s.calls)
    && (s.tunnel.Some? ==> s.tunnel.value < s.instances)
    && (forall c :: c in s.delivered ==> c.instance < s.instances)
    && (s.tunnel.None? ==> Last(s).None? || Last(s).value.OnStopped?)
    && (s.tunnel.Some? && !s.stopping ==>
          && OnStopped(s.tunnel.value) !in s.delivered
          && (Last(s) == Some(OnStarted(s.tunnel.value)) || Publisher(s, s.tunnel.value)))
  }

  ghost predicate Stopper(s: Stack) {
    exists t :: t in s.calls && InStop(s.calls[t])
  }

  ghost predicate Publisher(s: Stack, instance: nat) {
    exists t :: t in s.calls && MayPublish(s.calls[t]) && s.calls[t].instance == instance
  }

  /** The callbacks so far: each at most once, and never a start notice after the stop notice of the same instance. */
  ghost predicate Orderly(delivered: seq<Callback>) {
    forall i, j | 0 <= i < j < |delivered| ::
      delivered[i] != delivered[j] && (delivered[i].OnStopped? ==> delivered[j] != OnStarted(delivered[i].instance))
  }

  ghost predicate Inv(s: Stack) {
    && SharedInv(s) && Exclusive(s) && Orderly(s.delivered)
    && (forall t :: t in s.calls ==> CallInv(s, t, s.calls[t]))
  }

  lemma StepOrderly(s: Stack, a: Action)
    requires Inv(s) && Enabled(s, a)
    ensures Orderly(Step(s, a).delivered)
  {
  }

  lemma OneStopper(s: Stack, a: Action, t: nat, u: nat)
    requires Inv(s) && Enabled(s, a) && t in Step(s, a).calls && u in Step(s, a).calls
    requires InStop(Step(s, a).calls[t]) && InStop(Step(s, a).calls[u])
    ensures t == u
  {
    if t != u {
      StopperWas(s, a, t);
      StopperWas(s, a, u);
    }
  }

  /** Who is in Stop after a step was so before, or has just raised the flag on a stack nobody was stopping. */
  lemma StopperWas(s: Stack, a: Action, t: nat)
    requires Inv(s) && Enabled(s, a) && t in Step(s, a).calls && InStop(Step(s, a).calls[t])
    ensures (t in s.calls && InStop(s.calls[t])) || (a == Stop(t) && !s.stopping)
    ensures t in s.calls && InStop(s.calls[t]) ==> s.stopping
  {
    assert t in s.calls ==> CallInv(s, t, s.calls[t]);
  }

  lemma OnePublisher(s: Stack, a: Action, t: nat, u: nat)
    requires Inv(s) && Enabled(s, a) && t in Step(s, a).calls && u in Step(s, a).calls
    requires MayPublish(Step(s, a).calls[t]) && MayPublish(Step(s, a).calls[u])
    requires Step(s, a).calls[t].instance == Step(s, a).calls[u].instance
    ensures t == u
  {
    assert t in s.calls ==> CallInv(s, t, s.calls[t]);
    assert u in s.calls ==> CallInv(s, u, s.calls[u]);
  }

  lemma StepExclusive(s: Stack, a: Action)
    requires Inv(s) && Enabled(s, a)
    ensures Exclusive(Step(s, a))
  {
    var c := Step(s, a).calls;
    forall t, u | t in c && u in c
      ensures InStop(c[t]) && InStop(c[u]) ==> t == u
      ensures MayPublish(c[t]) && MayPublish(c[u]) && c[t].instance == c[u].instance ==> t == u
    {
      if InStop(c[t]) && InStop(c[u]) {
        OneStopper(s, a, t, u);
      }
      if MayPublish(c[t]) && MayPublish(c[u]) && c[t].instance == c[u].instance {
        OnePublisher(s, a, t, u);
      }
    }
  }

  lemma StepMover(s: Stack, a: Action)
    requires Inv(s) && Enabled(s, a)
    ensures a.t in Step(s, a).calls && CallInv(Step(s, a), a.t, Step(s, a).calls[a.t])
  {
    assert a.t in s.calls ==> CallInv(s, a.t, s.calls[a.t]);
  }

  lemma StepBystander(s: Stack, a: Action, u: nat)
    requires Inv(s) && Enabled(s, a) && u in s.calls && u != a.t
    ensures u in Step(s, a).calls && CallInv(Step(s, a), u, Step(s, a).calls[u])
  {
  }

  lemma StepStopper(s: Stack, a: Action)
    requires Inv(s) && Enabled(s, a) && Step(s, a).stopping
    ensures Stopper(Step(s, a))
  {
    var s' := Step(s, a);
    if s.stopping {
      var w :| w in s.calls && InStop(s.calls[w]);
      assert w in s'.calls && InStop(s'.calls[w]);
    } else {
      assert a.t in s'.calls && InStop(s'.calls[a.t]);
    }
  }

  lemma StepPublisher(s: Stack, a: Action)
    requires Inv(s) && Enabled(s, a) && Step(s, a).tunnel.Some? && !Step(s, a).stopping
    ensures var s' := Step(s, a);
            Last(s') == Some(OnStarted(s'.tunnel.value)) || Publisher(s', s'.tunnel.value)
  {
    var s' := Step(s, a);
    assert a.t in s.calls ==> CallInv(s, a.t, s.calls[a.t]);
    if s.tunnel.None? {
      assert a.t in s'.calls && MayPublish(s'.calls[a.t]);
    } else if Publisher(s, s.tunnel.value) {
      var w :| w in s.calls && MayPublish(s.calls[w]) && s.calls[w].instance == s.tunnel.value;
      assert CallInv(s, w, s.calls[w]);
      if !(a.Recheck? && a.t == w) {
        assert w in s'.calls && MayPublish(s'.calls[w]);
      }
    }
  }

  lemma StepShared(s: Stack, a: Action)
    requires Inv(s) && Enabled(s, a)
    ensures SharedInv(Step(s, a))
  {
    assert a.t in s.calls ==> CallInv(s, a.t, s.calls[a.t]);
    var s' := Step(s, a);
    if s'.stopping {
      StepStopper(s, a);
    }
    if s'.tunnel.Some? && !s'.stopping {
      StepPublisher(s, a);
    }
  }

  /** Every step of every call keeps the invariant. */
  lemma StepInv(s: Stack, a: Action)
    requires Inv(s) && Enabled(s, a)
    ensures Inv(Step(s, a))
  {
    StepOrderly(s, a);
    StepExclusive(s, a);
    StepShared(s, a);
    forall u | u in Step(s, a).calls
      ensures CallInv(Step(s, a), u, Step(s, a).calls[u])
    {
      if u == a.t {
        StepMover(s, a);
      } else {
        StepBystander(s, a, u);
      }
    }
  }

  lemma {:induction false} ReachableInv(run: seq<Action>)
    requires After(run).Some?
    ensures Inv(After(run).value)
  {
    if run != [] {
      ReachableInv(run[..|run| - 1]);
      StepInv(After(run[..|run| - 1]).value, run[|run| - 1]);
    }
  }

  /** No two callbacks are ever running at the same time. */
  lemma CallbacksNeverOverlap(run: seq<Action>, t: nat, u: nat)
    requires After(run).Some? && t in After(run).value.calls && u in After(run).value.calls
    requires After(run).value.calls[t].InStarted? || After(run).value.calls[t].InStopped?
    requires After(run).value.calls[u].InStarted? || After(run).value.calls[u].InStopped?
    ensures t == u
  {
    ReachableInv(run);
    var s := After(run).value;
    assert CallInv(s, t, s.calls[t]) && CallInv(s, u, s.calls[u]);
  }

  /** Over any run an instance is announced at most once, never after its own stop notice,
      and stopped at most once. */
  lemma NoticesAreOrderly(run: seq<Action>)
    requires After(run).Some?
    ensures Orderly(After(run).value.delivered)
  {
    ReachableInv(run);
  }

  /** With no call in flight, the stack is up exactly when the last callback was OnStarted,
      and then it is the running instance that was announced. */
  lemma QuietStateMatchesNotices(run: seq<Action>)
    requires After(run).Some? && forall t :: t in After(run).value.calls ==> After(run).value.calls[t].Returned?
    ensures var s := After(run).value;
            && (s.tunnel.Some? <==> Last(s).Some? && Last(s).value.OnStarted?)
            && (s.tunnel.Some? ==> Last(s) == Some(OnStarted(s.tunnel.value)) && !s.stopping)
  {
    ReachableInv(run);
    var s := After(run).value;
    assert !Stopper(s);
    assert s.tunnel.Some? ==> !Publisher(s, s.tunnel.value);
  }

  // ---------- Whole calls, undisturbed ----------

  lemma Extend(run: seq<Action>, s: Stack, a: Action) returns (run': seq<Action>, s': Stack)
    requires After(run) == Some(s) && Enabled(s, a)
    ensures run' == run + [a] && s' == Step(s, a) && After(run') == Some(s')
  {
    run', s' := run + [a], Step(s, a);
    assert run'[..|run|] == run;
  }

  /** Whatever a call of Start or Stop did to its own place in the code, it has returned. */
  lemma Settled(s: Stack, t: nat, pc: Pc, pc': Pc)
    ensures Go(Go(s, t, pc), t, pc') == Go(s, t, pc')
  {
    assert s.calls[t := pc][t := pc'] == s.calls[t := pc'];
  }

  lemma Launches(run: seq<Action>, s: Stack, t: nat) returns (run': seq<Action>, s': Stack)
    requires After(run) == Some(s) && t !in s.calls && s.tunnel.None? && s.lifecycle.None?
    ensures After(run') == Some(s')
    ensures s' == Go(s, t, StartHolds(s.instances, s.generation + 1)).(
              tunnel := Some(s.instances), generation := s.generation + 1, instances := s.instances + 1,
              lifecycle := Some(t))
  {
    run', s' := Extend(run, s, Start(t, Succeeds));
    assert s' == Go(s, t, Launched(s.instances, s.generation + 1)).(
                   tunnel := Some(s.instances), generation := s.generation + 1, instances := s.instances + 1);
    run', s' := Extend(run', s', StartLocks(t));
    Settled(s, t, Launched(s.instances, s.generation + 1), StartHolds(s.instances, s.generation + 1));
  }

  /** A Start that succeeds on a stopped stack, undisturbed, leaves a new tunnel running and announces it. */
  lemma StartMeaning(run: seq<Action>, s: Stack, t: nat) returns (run': seq<Action>, s': Stack)
    requires After(run) == Some(s) && t !in s.calls && s.tunnel.None? && s.lifecycle.None?
    ensures After(run') == Some(s')
    ensures s' == Stack(Some(s.instances), s.generation + 1, false, None, s.instances + 1,
                        s.delivered + [OnStarted(s.instances)], s.calls[t := Returned])
  {
    ReachableInv(run);
    NotStopping(s);
    var i := s.instances;
    run', s' := Launches(run, s, t);
    var up := s'.(calls := s.calls, lifecycle := None);
    assert s' == Go(up, t, StartHolds(i, s.generation + 1)).(lifecycle := Some(t));
    run', s' := Extend(run', s', Recheck(t));
    Settled(up, t, StartHolds(i, s.generation + 1), InStarted(i));
    run', s' := Extend(run', s', StartedReturns(t));
    Settled(up, t, InStarted(i), StartLeaves(i));
    run', s' := Extend(run', s', StartReleases(t));
    Settled(up, t, StartLeaves(i), Returned);
  }

  /** A stack that is down is not being stopped. */
  lemma NotStopping(s: Stack)
    requires Inv(s) && s.tunnel.None?
    ensures !s.stopping
  {
  }

  /** A Start on a running stack, or one that fails, leaves no tunnel of its own and announces nothing. */
  lemma StartNoop(s: Stack, t: nat, fate: Fate)
    requires t !in s.calls && (s.tunnel.Some? || !fate.Succeeds?)
    ensures var s' := Step(s, Start(t, fate));
            && s'.tunnel == s.tunnel && s'.stopping == s.stopping && s'.delivered == s.delivered
            && s'.lifecycle == s.lifecycle && s'.calls == s.calls[t := Returned]
            && s'.generation == s.generation + (if s.tunnel.None? && fate.RolledBack? then 1 else 0)
  {
  }

  lemma StopsHalf(run: seq<Action>, s: Stack, t: nat) returns (run': seq<Action>, s': Stack)
    requires After(run) == Some(s) && t !in s.calls && s.tunnel.Some? && !s.stopping && s.lifecycle.None?
    ensures After(run') == Some(s')
    ensures s' == Go(s, t, InStopped(s.tunnel.value)).(
              stopping := true, generation := s.generation + 1, lifecycle := Some(t),
              delivered := s.delivered + [OnStopped(s.tunnel.value)])
  {
    var i := s.tunnel.value;
    run', s' := Extend(run, s, Stop(t));
    assert s' == Go(s, t, StopLaunched(i)).(stopping := true, generation := s.generation + 1);
    run', s' := Extend(run', s', StopLocks(t));
    Settled(s, t, StopLaunched(i), StopHolds(i));
    assert s' == Go(s, t, StopHolds(i)).(stopping := true, generation := s.generation + 1, lifecycle := Some(t));
    run', s' := Extend(run', s', StopNotifies(t));
    Settled(s, t, StopHolds(i), InStopped(i));
  }

  /** A Stop of a running stack, undisturbed, takes the tunnel down and announces that. */
  lemma StopMeaning(run: seq<Action>, s: Stack, t: nat) returns (run': seq<Action>, s': Stack)
    requires After(run) == Some(s) && t !in s.calls && s.tunnel.Some? && !s.stopping && s.lifecycle.None?
    ensures After(run') == Some(s')
    ensures s' == Stack(None, s.generation + 1, false, None, s.instances,
                        s.delivered + [OnStopped(s.tunnel.value)], s.calls[t := Returned])
  {
    var i := s.tunnel.value;
    run', s' := StopsHalf(run, s, t);
    var down := s'.(calls := s.calls, lifecycle := None);
    assert s' == Go(down, t, InStopped(i)).(lifecycle := Some(t));
    run', s' := Extend(run', s', StoppedReturns(t));
    Settled(down, t, InStopped(i), StopLeaves(i));
    run', s' := Extend(run', s', StopReleases(t));
    Settled(down, t, StopLeaves(i), TearingDown(i));
    run', s' := Extend(run', s', TearDown(t));
    Settled(down, t, TearingDown(i), Returned);
  }

  /** A Stop of a stack that is down or already being stopped does nothing. */
  lemma StopNoop(s: Stack, t: nat)
    requires t !in s.calls && (s.tunnel.None? || s.stopping)
    ensures Step(s, Stop(t)) == Go(s, t, Returned)
  {
  }

  // ---------- No deadlock ----------

  function Next(t: nat, pc: Pc): Action
    requires !pc.Returned?
  {
    match pc
    case Launched(_, _) => StartLocks(t)
    case StartHolds(_, _) => Recheck(t)
    case InStarted(_) => StartedReturns(t)
    case StartLeaves(_) => StartReleases(t)
    case StopLaunched(_) => StopLocks(t)
    case StopHolds(_) => StopNotifies(t)
    case InStopped(_) => StoppedReturns(t)
    case StopLeaves(_) => StopReleases(t)
    case TearingDown(_) => TearDown(t)
  }

  /** As long as a call is in flight, some call in flight can go on. */
  lemma NoDeadlock(run: seq<Action>, s: Stack, t: nat) returns (u: nat)
    requires After(run) == Some(s) && t in s.calls && !s.calls[t].Returned?
    ensures u in s.calls && !s.calls[u].Returned? && Enabled(s, Next(u, s.calls[u]))
  {
    ReachableInv(run);
    u := if s.lifecycle.Some? then s.lifecycle.value else t;
    assert CallInv(s, u, s.calls[u]);
  }
}
