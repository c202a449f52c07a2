/** The per-packet decision of the TUN filter: block lists plus a garbage-collected flow cache
    (internal/vpn/tun/access.go, conntrack.go and shouldDrop in tun.go). */
module Filter {
  import opened Bytes

  /** Blocked destinations per source. */
  type Rules = map<Addr, set<Addr>>

  function Elements(s: seq<Addr>): set<Addr> {
    set a | a in s
  }

  predicate CanAccess(rules: Rules, from: Addr, to: Addr) {
    from !in rules || |rules[from]| == 0 || to !in rules[from]
  }

  datatype Flow = Flow(src: Addr, dst: Addr)

  // ---------- The cache ----------

  function Unexpired(flows: map<Flow, int>, now: int, ttl: int): map<Flow, int> {
    map k | k in flows && now - flows[k] <= ttl :: flows[k]
  }

  /** remember: stamp the flow, then drop every expired one. */
  function Remembered(flows: map<Flow, int>, f: Flow, now: int, ttl: int): map<Flow, int> {
    Unexpired(flows[f := now], now, ttl)
  }

  /** allowsReturn: an unexpired entry for the opposite direction. */
  predicate AllowsReturn(flows: map<Flow, int>, src: Addr, dst: Addr, now: int, ttl: int) {
    Flow(dst, src) in flows && now - flows[Flow(dst, src)] <= ttl
  }

  /** The entry allowsReturn deletes when it finds it expired. */
  function AfterReturn(flows: map<Flow, int>, src: Addr, dst: Addr, now: int, ttl: int): map<Flow, int> {
    if Flow(dst, src) in flows && now - flows[Flow(dst, src)] > ttl then flows - {Flow(dst, src)} else flows
  }

  // ---------- The filter as a state machine ----------

  datatype Config = Config(hub: Addr, rules: Rules, vips: set<Addr>, ttl: int)
  datatype State = State(config: Config, flows: map<Flow, int>)

  /** Hub and map traffic is never filtered here. */
  predicate Bypasses(c: Config, src: Addr, dst: Addr) {
    src == c.hub || dst == c.hub || src in c.vips || dst in c.vips
  }

  /** The packet passes because the rules allow it, and is therefore remembered. */
  predicate Admits(c: Config, src: Addr, dst: Addr) {
    !Bypasses(c, src, dst) && CanAccess(c.rules, src, dst)
  }

  predicate Passes(s: State, src: Addr, dst: Addr, now: int) {
    || Bypasses(s.config, src, dst)
    || CanAccess(s.config.rules, src, dst)
    || AllowsReturn(s.flows, src, dst, now, s.config.ttl)
  }

  datatype Event =
    | Packet(src: Addr, dst: Addr, now: int)
    | SetPolicy(rules: Rules, now: int)
    | SetVIPs(vips: set<Addr>, now: int)

  function Configured(c: Config, e: Event): Config {
    match e
    case Packet(_, _, _) => c
    case SetPolicy(rules, _) => c.(rules := rules)
    case SetVIPs(vips, _) => c.(vips := vips)
  }

  function Step(s: State, e: Event): State {
    var c := Configured(s.config, e);
    match e
    case Packet(src, dst, now) =>
      if Bypasses(c, src, dst) then s
      else if CanAccess(c.rules, src, dst) then State(c, Remembered(s.flows, Flow(src, dst), now, c.ttl))
      else State(c, AfterReturn(s.flows, src, dst, now, c.ttl))
    case SetPolicy(_, _) => State(c, map[])
    case SetVIPs(_, _) => State(c, s.flows)
  }

  function Run(s: State, events: seq<Event>): State {
    if events == [] then s else Step(Run(s, events[..|events| - 1]), events[|events| - 1])
  }

  // ---------- The unbounded history ----------

  /** The configuration after the events, without any cache. */
  function ConfigAfter(c: Config, events: seq<Event>): Config {
    if events == [] then c else Configured(ConfigAfter(c, events[..|events| - 1]), events[|events| - 1])
  }

  /** Event i is a packet src -> dst that the rules in force then let through,
      and no policy change came after it. */
  ghost predicate PassedByRule(c: Config, events: seq<Event>, i: int, f: Flow) {
    && 0 <= i < |events|
    && events[i].Packet? && events[i].src == f.src && events[i].dst == f.dst
    && Admits(ConfigAfter(c, events[..i]), f.src, f.dst)
    && forall j :: i < j < |events| ==> !events[j].SetPolicy?
  }

  ghost predicate Ordered(events: seq<Event>) {
    forall i, j :: 0 <= i < j < |events| ==> events[i].now <= events[j].now
  }

  /** The cache holds the latest qualifying time of every flow, except that it may have
      forgotten flows whose qualifying packets are all expired. */
  ghost predicate Remembers(c: Config, events: seq<Event>, flows: map<Flow, int>) {
    && (forall f, i :: PassedByRule(c, events, i, f) ==>
          if f in flows then events[i].now <= flows[f]
          else events[|events| - 1].now - events[i].now > c.ttl)
    && (forall f :: f in flows ==> exists i :: PassedByRule(c, events, i, f) && events[i].now == flows[f])
  }

  lemma {:induction false} ConfigRun(s: State, events: seq<Event>)
    ensures Run(s, events).config == ConfigAfter(s.config, events)
    ensures ConfigAfter(s.config, events).ttl == s.config.ttl
    ensures ConfigAfter(s.config, events).hub == s.config.hub
  {
    if events != [] {
      ConfigRun(s, events[..|events| - 1]);
    }
  }

  lemma PassedBefore(c: Config, events: seq<Event>, i: int, f: Flow)
    requires events != [] && 0 <= i < |events| - 1
    ensures PassedByRule(c, events, i, f) <==>
            PassedByRule(c, events[..|events| - 1], i, f) && !events[|events| - 1].SetPolicy?
  {
    var before := events[..|events| - 1];
    assert before[..i] == events[..i];
  }

  lemma PassedNow(c: Config, events: seq<Event>, f: Flow)
    requires events != []
    ensures var n := |events| - 1;
            PassedByRule(c, events, n, f) <==>
            && events[n].Packet? && Flow(events[n].src, events[n].dst) == f
            && Admits(ConfigAfter(c, events[..n]), f.src, f.dst)
  {
  }

  lemma {:induction false} RunRemembers(s: State, events: seq<Event>)
    requires s.flows == map[] && Ordered(events)
    ensures Remembers(s.config, events, Run(s, events).flows)
  {
    if events == [] {
      assert Run(s, events).flows == map[];
    } else {
      var n := |events| - 1;
      var before := events[..n];
      RunRemembers(s, before);
      ConfigRun(s, before);
      StepRemembers(s.config, events, Run(s, before));
    }
  }

  lemma StepRemembers(c: Config, events: seq<Event>, s: State)
    requires events != [] && Ordered(events)
    requires s.config == ConfigAfter(c, events[..|events| - 1]) && s.config.ttl == c.ttl
    requires Remembers(c, events[..|events| - 1], s.flows)
    ensures Remembers(c, events, Step(s, events[|events| - 1]).flows)
  {
    var flows := Step(s, events[|events| - 1]).flows;
    forall f, i | PassedByRule(c, events, i, f)
      ensures if f in flows then events[i].now <= flows[f] else events[|events| - 1].now - events[i].now > c.ttl
    {
      if i < |events| - 1 {
        PassedBefore(c, events, i, f);
        OlderBound(c, events, s.flows, f, i);
      }
      StepBounds(c, events, s, f, i);
    }
    forall f | f in flows
      ensures exists i :: PassedByRule(c, events, i, f) && events[i].now == flows[f]
    {
      StepWitness(c, events, s, f);
    }
  }

  /** What one event does to one flow's entry. */
  lemma StepFlow(s: State, e: Event, f: Flow)
    ensures var flows := Step(s, e).flows;
            var stamped := e.Packet? && Flow(e.src, e.dst) == f && Admits(s.config, e.src, e.dst);
            && (f in flows ==> if stamped then flows[f] == e.now
                               else !e.SetPolicy? && f in s.flows && flows[f] == s.flows[f])
            && (f !in flows ==> e.SetPolicy? || (stamped && s.config.ttl < 0) ||
                                (!stamped && (f !in s.flows || e.now - s.flows[f] > s.config.ttl)))
  {
  }

  lemma StepBounds(c: Config, events: seq<Event>, s: State, f: Flow, i: int)
    requires events != [] && s.config == ConfigAfter(c, events[..|events| - 1]) && s.config.ttl == c.ttl
    requires PassedByRule(c, events, i, f)
    requires var at, last := events[i].now, events[|events| - 1].now;
             i < |events| - 1 ==> at <= last && (if f in s.flows then at <= s.flows[f] else last - at > c.ttl)
    ensures var flows := Step(s, events[|events| - 1]).flows;
            if f in flows then events[i].now <= flows[f] else events[|events| - 1].now - events[i].now > c.ttl
  {
    var n := |events| - 1;
    if i < n {
      BoundAfter(s, events[n], f, events[i].now);
    } else {
      PassedNow(c, events, f);
      BoundNow(s, events[n], f);
    }
  }

  /** A bound on a flow's entry survives an event, or the entry is stale. */
  lemma BoundAfter(s: State, e: Event, f: Flow, at: int)
    requires !e.SetPolicy? && at <= e.now
    requires if f in s.flows then at <= s.flows[f] else e.now - at > s.config.ttl
    ensures var flows := Step(s, e).flows; if f in flows then at <= flows[f] else e.now - at > s.config.ttl
  {
    StepFlow(s, e, f);
  }

  lemma BoundNow(s: State, e: Event, f: Flow)
    requires e.Packet? && Flow(e.src, e.dst) == f && Admits(s.config, e.src, e.dst)
    ensures var flows := Step(s, e).flows; if f in flows then e.now <= flows[f] else 0 > s.config.ttl
  {
    StepFlow(s, e, f);
  }

  /** What the cache said about an older qualifying packet still holds one event later. */
  lemma OlderBound(c: Config, events: seq<Event>, flows: map<Flow, int>, f: Flow, i: int)
    requires Ordered(events) && 0 <= i < |events| - 1
    requires Remembers(c, events[..|events| - 1], flows) && PassedByRule(c, events[..|events| - 1], i, f)
    ensures var last := events[|events| - 1].now;
            events[i].now <= last && (if f in flows then events[i].now <= flows[f] else last - events[i].now > c.ttl)
  {
    var before := events[..|events| - 1];
    assert before[i] == events[i] && before[|before| - 1] == events[|before| - 1];
    assert events[|before| - 1].now <= events[|before|].now;
  }

  lemma StepWitness(c: Config, events: seq<Event>, s: State, f: Flow)
    requires events != []
    requires s.config == ConfigAfter(c, events[..|events| - 1]) && s.config.ttl == c.ttl
    requires Remembers(c, events[..|events| - 1], s.flows)
    requires f in Step(s, events[|events| - 1]).flows
    ensures exists i :: PassedByRule(c, events, i, f) && events[i].now == Step(s, events[|events| - 1]).flows[f]
  {
    var n := |events| - 1;
    var e := events[n];
    StepFlow(s, e, f);
    if e.Packet? && f == Flow(e.src, e.dst) && Admits(s.config, e.src, e.dst) {
      PassedNow(c, events, f);
      assert PassedByRule(c, events, n, f);
    } else {
      var i :| PassedByRule(c, events[..n], i, f) && events[..n][i].now == s.flows[f];
      PassedBefore(c, events, i, f);
      assert PassedByRule(c, events, i, f);
    }
  }

  /** Over every run, a packet passes exactly when it bypasses the filter, or the rules allow it,
      or an opposite packet passed by rule since the last policy change and at most ttl ago.
      Collection, lazy deletion and replies leave no trace in the answer. */
  lemma CacheRefinesHistory(s: State, events: seq<Event>, src: Addr, dst: Addr, now: int)
    requires s.flows == map[]
    requires Ordered(events) && forall i :: 0 <= i < |events| ==> events[i].now <= now
    ensures var c := ConfigAfter(s.config, events);
            Passes(Run(s, events), src, dst, now) <==>
            || Bypasses(c, src, dst)
            || CanAccess(c.rules, src, dst)
            || exists i :: PassedByRule(s.config, events, i, Flow(dst, src)) && now - events[i].now <= s.config.ttl
  {
    ConfigRun(s, events);
    RunRemembers(s, events);
    var flows := Run(s, events).flows;
    var back := Flow(dst, src);
    if AllowsReturn(flows, src, dst, now, s.config.ttl) {
      var i :| PassedByRule(s.config, events, i, back) && events[i].now == flows[back];
    }
    if i :| PassedByRule(s.config, events, i, back) && now - events[i].now <= s.config.ttl {
      assert events[|events| - 1].now <= now;
    }
  }

  // ---------- The mutable objects ----------

  class RuleSet {
    var rules: Rules

    constructor ()
      ensures rules == map[]
    {
      rules := map[];
    }

    /** An empty list leaves the entry alone; otherwise it replaces it. */
    method SetBlocked(peer: Addr, blocked: seq<Addr>)
      modifies this
      ensures rules == if blocked == [] then old(rules) else old(rules)[peer := Elements(blocked)]
    {
      if |blocked| == 0 {
        return;
      }
      var rule: set<Addr> := {};
      for i := 0 to |blocked|
        invariant rule == Elements(blocked[..i])
      {
        assert blocked[..i + 1] == blocked[..i] + [blocked[i]];
        rule := rule + {blocked[i]};
      }
      assert blocked[..|blocked|] == blocked;
      rules := rules[peer := rule];
    }
  }

  class ConnTrack {
    var flows: map<Flow, int>
    const ttl: int

    constructor (ttl: int)
      ensures flows == map[] && this.ttl == ttl
    {
      flows := map[];
      this.ttl := ttl;
    }

    method Remember(src: Addr, dst: Addr, now: int)
      modifies this
      ensures flows == Remembered(old(flows), Flow(src, dst), now, ttl)
    {
      flows := flows[Flow(src, dst) := now];
      Collect(now);
    }

    method Return(src: Addr, dst: Addr, now: int) returns (ok: bool)
      modifies this
      ensures ok == AllowsReturn(old(flows), src, dst, now, ttl)
      ensures flows == AfterReturn(old(flows), src, dst, now, ttl)
    {
      var f := Flow(dst, src);
      if f !in flows {
        return false;
      }
      if now - flows[f] > ttl {
        flows := flows - {f};
        return false;
      }
      return true;
    }

    /** gcLocked: visit every entry once, dropping the expired ones. */
    method Collect(now: int)
      modifies this
      ensures flows == Unexpired(old(flows), now, ttl)
    {
      var todo := flows.Keys;
      while todo != {}
        invariant todo <= flows.Keys <= old(flows).Keys
        invariant forall k :: k in flows ==> flows[k] == old(flows)[k]
        invariant forall k :: k in old(flows) && k !in todo ==> (k in flows <==> now - old(flows)[k] <= ttl)
        decreases todo
      {
        var k :| k in todo;
        if now - flows[k] > ttl {
          flows := flows - {k};
        }
        todo := todo - {k};
      }
    }

    method Reset()
      modifies this
      ensures flows == map[]
    {
      flows := map[];
    }
  }
}
