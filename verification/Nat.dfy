/** What the transparent SNAT table computes: its state, its steps and its runs
    (internal/vpn/snat/transparent.go and ports.go). */
module Nat {
  import opened Bytes
  import opened Checksum
  import opened Packet
  import opened Wire

  const PORT_MIN: nat := 20000
  const PORT_MAX: nat := 65000
  const PORT_SPAN: nat := PORT_MAX - PORT_MIN + 1
  const PICK_ATTEMPTS: nat := 256
  /** Two minutes, in nanoseconds. */
  const SESSION_IDLE: int := 120_000_000_000

  type Offset = n: int | 0 <= n < PORT_SPAN
  /** The random source: draw i, or None where reading randomness fails. */
  type Draws = nat -> Option<Offset>

  datatype FlowKey = FlowKey(client: Addr, server: Addr, clientPort: u16, serverPort: u16, proto: byte)

  /** What a session object holds besides its key. */
  datatype Entry = Entry(hubPort: u16, lastSeen: int)

  datatype Nat = Nat(
    hub: Option<Addr>,
    peerGroup: map<Addr, nat>,
    uniLinks: map<nat, set<nat>>,
    byFlow: map<FlowKey, Entry>,
    byPort: map<u16, FlowKey>,
    inUse: set<u16>,
    reserved: set<u16>)

  predicate NeedsSNAT(s: Nat, src: Addr, dst: Addr) {
    && src in s.peerGroup && dst in s.peerGroup
    && s.peerGroup[src] != s.peerGroup[dst]
    && s.peerGroup[src] in s.uniLinks
    && s.peerGroup[dst] in s.uniLinks[s.peerGroup[src]]
  }

  function KeyOf(t: Transport): FlowKey {
    FlowKey(t.src, t.dst, t.sport, t.dport, t.proto)
  }

  // ---------- The port pool ----------

  /** The first of draws i..255 that is not taken; None once a draw fails or all are spent. */
  function PickFrom(draws: Draws, i: nat, taken: set<u16>): (port: Option<u16>)
    requires i <= PICK_ATTEMPTS
    ensures port.Some? ==> 20000 <= port.value <= 65000 && port.value !in taken
    decreases PICK_ATTEMPTS - i
  {
    if i == PICK_ATTEMPTS || draws(i).None? then None
    else if PORT_MIN + draws(i).value in taken then PickFrom(draws, i + 1, taken)
    else Some(PORT_MIN + draws(i).value)
  }

  /** Draws i..n-1 all hit taken ports, and the next one fails or is beyond the last. */
  ghost predicate Exhausted(draws: Draws, i: nat, n: nat, taken: set<u16>) {
    && i <= n <= 256 && (n == 256 || draws(n).None?)
    && forall j: nat :: i <= j < n ==> draws(j).Some? && 20000 + draws(j).value in taken
  }

  /** Picking fails exactly when every draw up to the first failed one, or all 256, is taken. */
  lemma {:induction false} PickFailsIff(draws: Draws, i: nat, taken: set<u16>)
    requires i <= PICK_ATTEMPTS
    ensures PickFrom(draws, i, taken).None? <==> exists n: nat :: Exhausted(draws, i, n, taken)
    decreases PICK_ATTEMPTS - i
  {
    if i == PICK_ATTEMPTS || draws(i).None? {
      assert Exhausted(draws, i, i, taken);
    } else {
      var next := i + 1;
      PickFailsIff(draws, next, taken);
      if n: nat :| Exhausted(draws, next, n, taken) {
        assert PORT_MIN + draws(i).value in taken ==> Exhausted(draws, i, n, taken);
      }
      if n: nat :| Exhausted(draws, i, n, taken) {
        assert Exhausted(draws, next, n, taken);
      }
    }
  }

  // ---------- Steps ----------

  function Expired(s: Nat, now: int): set<FlowKey> {
    set k | k in s.byFlow && now - s.byFlow[k].lastSeen > SESSION_IDLE
  }

  function PortsOf(s: Nat, keys: set<FlowKey>): set<u16>
    requires keys <= s.byFlow.Keys
  {
    set k | k in keys :: s.byFlow[k].hubPort
  }

  /** Sessions deleted from both indexes and from the pool. */
  function Without(s: Nat, keys: set<FlowKey>): Nat
    requires keys <= s.byFlow.Keys
  {
    var gone := PortsOf(s, keys);
    s.(byFlow := s.byFlow - keys, byPort := s.byPort - gone, inUse := s.inUse - gone)
  }

  /** gcLocked. */
  function Collect(s: Nat, now: int): Nat {
    Without(s, Expired(s, now))
  }

  lemma WithoutNone(s: Nat)
    ensures Without(s, {}) == s
  {
  }

  lemma WithoutOneMore(s: Nat, keys: set<FlowKey>, k: FlowKey)
    requires keys <= s.byFlow.Keys && k in s.byFlow && k !in keys
    ensures k in Without(s, keys).byFlow
    ensures Without(Without(s, keys), {k}) == Without(s, keys + {k})
  {
  }

  /** Find or create the session of a flow and mark it seen. */
  function Open(s: Nat, key: FlowKey, now: int, draws: Draws): Option<Nat> {
    if key in s.byFlow then
      Some(s.(byFlow := s.byFlow[key := Entry(s.byFlow[key].hubPort, now)]))
    else
      match PickFrom(draws, 0, s.reserved + s.inUse)
      case None => None
      case Some(port) =>
        Some(s.(byFlow := s.byFlow[key := Entry(port, now)],
                byPort := s.byPort[port := key],
                inUse := s.inUse + {port}))
  }

  datatype Outcome = Outcome(next: Nat, out: Option<Transport>)

  /** ProcessEgressToWG on the parsed packet; out is None when the packet leaves unmodified. */
  function Egress(s: Nat, t: Transport, now: int, draws: Draws): Outcome {
    if s.hub.None? || !NeedsSNAT(s, t.src, t.dst) then Outcome(s, None)
    else
      match Open(s, KeyOf(t), now, draws)
      case None => Outcome(s, None)
      case Some(o) =>
        Outcome(Collect(o, now), Some(Transport(s.hub.value, t.dst, t.proto, o.byFlow[KeyOf(t)].hubPort, t.dport)))
  }

  /** ProcessIngressFromWG on the parsed packet: the hub port alone selects the session. */
  function Ingress(s: Nat, t: Transport, now: int): Outcome {
    if s.hub != Some(t.dst) || t.dport !in s.byPort then Outcome(s, None)
    else
      var key := s.byPort[t.dport];
      if key !in s.byFlow then Outcome(s, None)
      else
        Outcome(s.(byFlow := s.byFlow[key := s.byFlow[key].(lastSeen := now)]),
                Some(Transport(t.src, key.client, t.proto, t.sport, key.clientPort)))
  }

  function InRange(ports: seq<int>): (r: set<u16>)
    ensures forall p :: p in r <==> p in ports && 0 <= p <= 0xFFFF
  {
    set p: u16 | p in ports
  }

  function Reserve(s: Nat, ports: seq<int>): Nat {
    s.(reserved := s.reserved + InRange(ports))
  }

  function Cleared(s: Nat): Nat {
    s.(byFlow := map[], byPort := map[], inUse := {})
  }

  datatype Event =
    | EgressEvent(t: Transport, now: int, draws: Draws)
    | IngressEvent(t: Transport, now: int)
    | ReserveEvent(ports: seq<int>)
    | ResetEvent

  function Step(s: Nat, e: Event): Nat {
    match e
    case EgressEvent(t, now, draws) => Egress(s, t, now, draws).next
    case IngressEvent(t, now) => Ingress(s, t, now).next
    case ReserveEvent(ports) => Reserve(s, ports)
    case ResetEvent => Cleared(s)
  }

  function Run(s: Nat, events: seq<Event>): Nat
    decreases |events|
  {
    if events == [] then s else Run(Step(s, events[0]), events[1..])
  }

  // ---------- Index agreement ----------

  /** Both indexes describe the same sessions, and the pool holds exactly their ports. */
  ghost predicate Agree(s: Nat) {
    && (forall k :: k in s.byFlow ==> s.byFlow[k].hubPort in s.byPort && s.byPort[s.byFlow[k].hubPort] == k)
    && (forall p :: p in s.byPort ==> s.byPort[p] in s.byFlow && s.byFlow[s.byPort[p]].hubPort == p)
    && s.inUse == s.byPort.Keys
    && (forall p :: p in s.byPort ==> PORT_MIN <= p <= PORT_MAX)
  }

  lemma CollectAgrees(s: Nat, now: int)
    requires Agree(s)
    ensures Agree(Collect(s, now))
    ensures Collect(s, now).byFlow.Keys == set k | k in s.byFlow && now - s.byFlow[k].lastSeen <= SESSION_IDLE
  {
  }

  lemma OpenAgrees(s: Nat, key: FlowKey, now: int, draws: Draws)
    requires Agree(s)
    ensures Open(s, key, now, draws).Some? ==> Agree(Open(s, key, now, draws).value)
  {
  }

  lemma StepAgrees(s: Nat, e: Event)
    requires Agree(s)
    ensures Agree(Step(s, e))
  {
    match e
    case EgressEvent(t, now, draws) =>
      OpenAgrees(s, KeyOf(t), now, draws);
      var o := Open(s, KeyOf(t), now, draws);
      if o.Some? {
        CollectAgrees(o.value, now);
      }
    case _ =>
  }

  /** Every reachable table has agreeing indexes and at most 45001 live sessions. */
  lemma {:induction false} RunAgrees(s: Nat, events: seq<Event>)
    requires Agree(s)
    ensures Agree(Run(s, events)) && forall p :: p in Run(s, events).byPort ==> 20000 <= p <= 65000
    ensures |Run(s, events).byFlow| <= 45001
    decreases |events|
  {
    if events == [] {
      SessionsBounded(s);
    } else {
      StepAgrees(s, events[0]);
      RunAgrees(Step(s, events[0]), events[1..]);
    }
  }

  lemma SessionsBounded(s: Nat)
    requires Agree(s)
    ensures |s.byFlow| <= PORT_SPAN
  {
    SameSize(s.byFlow, s.byPort);
    PortsFit(s.byPort.Keys);
  }

  lemma PortsFit(ports: set<int>)
    requires forall p :: p in ports ==> PORT_MIN <= p <= PORT_MAX
    ensures |ports| <= PORT_SPAN
  {
    var all := Between(PORT_MIN, PORT_MAX + 1);
    assert all == ports + (all - ports);
  }

  /** Two maps that are inverse views have as many entries. */
  lemma {:induction false} SameSize(byFlow: map<FlowKey, Entry>, byPort: map<u16, FlowKey>)
    requires forall k :: k in byFlow ==> byFlow[k].hubPort in byPort && byPort[byFlow[k].hubPort] == k
    requires forall p :: p in byPort ==> byPort[p] in byFlow && byFlow[byPort[p]].hubPort == p
    ensures |byFlow| == |byPort|
  {
    if byFlow == map[] {
      assert byPort == map[];
    } else {
      var k :| k in byFlow;
      var p := byFlow[k].hubPort;
      var f, q := byFlow - {k}, byPort - {p};
      assert f.Keys == byFlow.Keys - {k} && q.Keys == byPort.Keys - {p};
      SameSize(f, q);
      assert |byFlow| == |byFlow.Keys| && |byPort| == |byPort.Keys| && |f| == |f.Keys| && |q| == |q.Keys|;
    }
  }

  function Between(lo: int, hi: int): (r: set<int>)
    requires lo <= hi
    ensures forall p :: p in r <==> lo <= p < hi
    ensures |r| == hi - lo
    decreases hi - lo
  {
    if lo == hi then {} else Between(lo, hi - 1) + {hi - 1}
  }

  /** Live flows never share a hub port, whatever their protocols. */
  lemma DistinctPorts(s: Nat, k: FlowKey, k': FlowKey)
    requires Agree(s) && k in s.byFlow && k' in s.byFlow && k != k'
    ensures s.byFlow[k].hubPort != s.byFlow[k'].hubPort
  {
  }

  /** Packets belong to one flow exactly if all their endpoints and protocols are the same. */
  lemma KeyOfInjective(t: Transport, u: Transport)
    ensures KeyOf(t) == KeyOf(u) <==> t == u
  {
  }

  // ---------- Which packets are translated ----------

  /** A packet leaves translated exactly if the hub is known, a one-way link leads from the sender's group to the
      receiver's, and its flow is open or a port can be picked; otherwise nothing changes. */
  lemma EgressIff(s: Nat, t: Transport, now: int, draws: Draws)
    requires Agree(s)
    ensures var e := Egress(s, t, now, draws);
            && (e.out.Some? <==>
                && s.hub.Some? && t.src in s.peerGroup && t.dst in s.peerGroup
                && s.peerGroup[t.src] != s.peerGroup[t.dst]
                && s.peerGroup[t.src] in s.uniLinks && s.peerGroup[t.dst] in s.uniLinks[s.peerGroup[t.src]]
                && (KeyOf(t) in s.byFlow || PickFrom(draws, 0, s.reserved + s.inUse).Some?))
            && (e.out.None? ==> e.next == s)
            && (e.out.Some? ==>
                  e.out.value == Transport(s.hub.value, t.dst, t.proto, e.out.value.sport, t.dport)
                  && 20000 <= e.out.value.sport <= 65000)
  {
    if Egress(s, t, now, draws).out.Some? {
      EgressOpens(s, t, now, draws);
    }
  }

  /** A packet arrives translated exactly if it is addressed to the hub, at the port of some session; its source
      and protocol do not matter. Otherwise nothing changes. */
  lemma IngressIff(s: Nat, t: Transport, now: int)
    requires Agree(s)
    ensures var i := Ingress(s, t, now);
            && (i.out.Some? <==> s.hub == Some(t.dst) && exists k :: k in s.byFlow && s.byFlow[k].hubPort == t.dport)
            && (i.out.None? ==> i.next == s)
            && (forall k :: i.out.Some? && k in s.byFlow && s.byFlow[k].hubPort == t.dport ==>
                  i.out.value == Transport(t.src, k.client, t.proto, t.sport, k.clientPort)
                  && i.next == s.(byFlow := s.byFlow[k := Entry(t.dport, now)]))
  {
    if t.dport in s.byPort {
      assert s.byPort[t.dport] in s.byFlow;
    }
  }

  // ---------- Reserved ports ----------

  ghost predicate AvoidsReserved(s: Nat) {
    s.byPort.Keys !! s.reserved
  }

  predicate Traffic(e: Event) {
    e.EgressEvent? || e.IngressEvent? || e.ResetEvent?
  }

  /** Traffic never puts a session on a reserved port. */
  lemma {:induction false} TrafficAvoidsReserved(s: Nat, events: seq<Event>)
    requires Agree(s) && AvoidsReserved(s)
    requires forall i :: 0 <= i < |events| ==> Traffic(events[i])
    ensures AvoidsReserved(Run(s, events)) && Run(s, events).reserved == s.reserved
    decreases |events|
  {
    if events != [] {
      StepAgrees(s, events[0]);
      assert Traffic(events[0]);
      TrafficAvoidsReserved(Step(s, events[0]), events[1..]);
    }
  }

  /** Reserving later does not evict: the promise survives exactly when no listed port is live. */
  lemma ReserveKeepsIff(s: Nat, ports: seq<int>)
    requires Agree(s) && AvoidsReserved(s)
    ensures AvoidsReserved(Reserve(s, ports)) <==> forall i :: 0 <= i < |ports| ==> ports[i] !in s.byPort
  {
  }

  /** It can happen: reserving the port a relayed packet has just been given breaks the promise. */
  lemma ReservingLivePort(s: Nat, t: Transport, now: int, draws: Draws)
    requires Agree(s) && Egress(s, t, now, draws).out.Some?
    ensures var e := Egress(s, t, now, draws);
            var s' := Run(s, [EgressEvent(t, now, draws), ReserveEvent([e.out.value.sport])]);
            s' == Reserve(e.next, [e.out.value.sport]) && Agree(s') && !AvoidsReserved(s')
  {
    var e := Egress(s, t, now, draws);
    var run := [EgressEvent(t, now, draws), ReserveEvent([e.out.value.sport])];
    EgressOpens(s, t, now, draws);
    assert Run(s, run) == Run(e.next, run[1..]) == Step(e.next, run[1]);
    assert e.out.value.sport in [e.out.value.sport] && e.out.value.sport in e.next.byPort;
  }

  /** From a table without sessions: two peers, one link, one packet. */
  lemma ReservingLivePortHappens() returns (s: Nat, run: seq<Event>)
    ensures s.byFlow == map[] && Agree(s) && AvoidsReserved(s) && !AvoidsReserved(Run(s, run))
  {
    var t := Transport(2, 3, PROTO_UDP, 5000, 53);
    var draws: Draws := _ => Some(0);
    s := Nat(Some(1), map[2 := 7, 3 := 8], map[7 := {8}], map[], map[], {}, {});
    FirstPacketRelayed(s, t, draws);
    ReservingLivePort(s, t, 0, draws);
    run := [EgressEvent(t, 0, draws), ReserveEvent([Egress(s, t, 0, draws).out.value.sport])];
  }

  lemma FirstPacketRelayed(s: Nat, t: Transport, draws: Draws)
    requires s.hub.Some? && NeedsSNAT(s, t.src, t.dst) && s.byFlow == map[] && s.reserved == s.inUse == {}
    requires draws(0) == Some(0)
    ensures Egress(s, t, 0, draws).out.Some?
  {
    assert PickFrom(draws, 0, s.reserved + s.inUse) == Some(PORT_MIN);
  }

  // ---------- The round trip over whole runs ----------

  /** The event counts as traffic of the session: its own flow leaving, or anything addressed to its hub port. */
  predicate Touches(s: Nat, e: Event, key: FlowKey, port: u16) {
    match e
    case EgressEvent(t, _, _) => KeyOf(t) == key
    case IngressEvent(t, _) => s.hub == Some(t.dst) && t.dport == port
    case _ => false
  }

  /** The event garbage-collects: it is an egress packet that gets translated. */
  predicate Collects(s: Nat, e: Event) {
    e.EgressEvent? && Egress(s, e.t, e.now, e.draws).out.Some?
  }

  /** No reset, and no collection later than the idle limit after the last touch. */
  predicate Uninterrupted(s: Nat, events: seq<Event>, key: FlowKey, port: u16, last: int)
    decreases |events|
  {
    events == [] ||
    var e := events[0];
    && !e.ResetEvent?
    && (Touches(s, e, key, port) || (Collects(s, e) ==> e.now - last <= SESSION_IDLE))
    && Uninterrupted(Step(s, e), events[1..], key, port, if Touches(s, e, key, port) then e.now else last)
  }

  /** The session of key is live on port and was last seen at last. */
  ghost predicate Live(s: Nat, key: FlowKey, port: u16, last: int) {
    key in s.byFlow && s.byFlow[key] == Entry(port, last)
  }

  /** Whether traffic of the flow would be relayed at all. */
  predicate Relayed(s: Nat, key: FlowKey) {
    s.hub.Some? && NeedsSNAT(s, key.client, key.server)
  }

  lemma StepLive(s: Nat, e: Event, key: FlowKey, port: u16, last: int)
    requires Agree(s) && Relayed(s, key) && Live(s, key, port, last)
    ensures Step(s, e).hub == s.hub && Relayed(Step(s, e), key)
    ensures var touched := Touches(s, e, key, port);
            key in Step(s, e).byFlow <==>
              !e.ResetEvent? && (touched || (Collects(s, e) ==> e.now - last <= SESSION_IDLE))
    ensures key in Step(s, e).byFlow ==>
              Live(Step(s, e), key, port, if Touches(s, e, key, port) then e.now else last)
  {
  }

  /** A session stays in the table, on the same port, after every prefix of a run
      exactly when the run leaves it uninterrupted. */
  lemma {:induction false} SessionKeptIff(s: Nat, events: seq<Event>, key: FlowKey, port: u16, last: int)
    requires Agree(s) && Relayed(s, key) && Live(s, key, port, last)
    ensures Uninterrupted(s, events, key, port, last) <==>
            forall i :: 0 <= i <= |events| ==> key in Run(s, events[..i]).byFlow
    ensures Uninterrupted(s, events, key, port, last) ==>
            && key in Run(s, events).byFlow && Run(s, events).byFlow[key].hubPort == port
            && Run(s, events).hub == s.hub && Relayed(Run(s, events), key)
    decreases |events|
  {
    if events == [] {
      assert events[..0] == [];
    } else {
      var e, rest := events[0], events[1..];
      var s' := Step(s, e);
      StepLive(s, e, key, port, last);
      StepAgrees(s, e);
      assert events[..1][1..] == [] && Run(s, events[..1]) == s';
      if key in s'.byFlow {
        var last' := if Touches(s, e, key, port) then e.now else last;
        SessionKeptIff(s', rest, key, port, last');
        PrefixShift(s, events, key);
      }
    }
  }

  lemma PrefixShift(s: Nat, events: seq<Event>, key: FlowKey)
    requires |events| > 0 && key in s.byFlow
    ensures (forall i :: 0 <= i <= |events| ==> key in Run(s, events[..i]).byFlow) <==>
            (forall i :: 0 <= i <= |events| - 1 ==> key in Run(Step(s, events[0]), events[1..][..i]).byFlow)
  {
    var rest := events[1..];
    forall i | 0 <= i <= |rest|
      ensures Run(s, events[..i + 1]) == Run(Step(s, events[0]), rest[..i])
    {
      assert events[..i + 1][1..] == rest[..i] && events[..i + 1][0] == events[0];
    }
    assert events[..0] == [];
    if forall i :: 0 <= i <= |rest| ==> key in Run(Step(s, events[0]), rest[..i]).byFlow {
      forall i | 0 <= i <= |events|
        ensures key in Run(s, events[..i]).byFlow
      {
        if i > 0 {
          assert key in Run(Step(s, events[0]), rest[..i - 1]).byFlow;
        }
      }
    } else {
      var i :| 0 <= i <= |rest| && key !in Run(Step(s, events[0]), rest[..i]).byFlow;
      assert key !in Run(s, events[..i + 1]).byFlow;
    }
  }

  /** The reply to a translated packet: its endpoints swapped. */
  function Reply(t: Transport): Transport {
    Transport(t.dst, t.src, t.proto, t.dport, t.sport)
  }

  /** After a packet left translated, and after any run that leaves its session uninterrupted,
      the reply to what the server saw becomes the reply to what the client sent,
      and further packets of the flow leave exactly as the first one did. */
  lemma RoundTrip(s: Nat, t: Transport, now: int, draws: Draws, events: seq<Event>, later: int, draws': Draws)
    requires Agree(s) && Egress(s, t, now, draws).out.Some?
    requires var first := Egress(s, t, now, draws);
             Uninterrupted(first.next, events, KeyOf(t), first.out.value.sport, now)
    ensures var first := Egress(s, t, now, draws);
            var s' := Run(first.next, events);
            && Ingress(s', Reply(first.out.value), later).out == Some(Reply(t))
            && Egress(s', t, later, draws').out == first.out
  {
    var first := Egress(s, t, now, draws);
    var port := first.out.value.sport;
    EgressOpens(s, t, now, draws);
    SessionKeptIff(first.next, events, KeyOf(t), port, now);
    RunAgrees(first.next, events);
    LiveAnswers(Run(first.next, events), t, port, later, draws');
  }

  /** Packets that differ in any endpoint or in the protocol never leave from the same hub port
      while the first one's session lasts. */
  lemma FlowsKeepApart(s: Nat, t: Transport, now: int, draws: Draws, events: seq<Event>,
                       u: Transport, later: int, draws': Draws)
    requires Agree(s) && Egress(s, t, now, draws).out.Some? && u != t
    requires var first := Egress(s, t, now, draws);
             && Uninterrupted(first.next, events, KeyOf(t), first.out.value.sport, now)
             && Egress(Run(first.next, events), u, later, draws').out.Some?
    ensures var first := Egress(s, t, now, draws);
            Egress(Run(first.next, events), u, later, draws').out.value.sport != first.out.value.sport
  {
    var first := Egress(s, t, now, draws);
    var s' := Run(first.next, events);
    EgressOpens(s, t, now, draws);
    SessionKeptIff(first.next, events, KeyOf(t), first.out.value.sport, now);
    RunAgrees(first.next, events);
    LiveApart(s', t, first.out.value.sport, u, later, draws');
  }

  lemma LiveApart(s: Nat, t: Transport, port: u16, u: Transport, now: int, draws: Draws)
    requires Agree(s) && KeyOf(t) in s.byFlow && s.byFlow[KeyOf(t)].hubPort == port && u != t
    requires Egress(s, u, now, draws).out.Some?
    ensures Egress(s, u, now, draws).out.value.sport != port
  {
    OpenAgrees(s, KeyOf(u), now, draws);
    KeyOfInjective(t, u);
    DistinctPorts(Open(s, KeyOf(u), now, draws).value, KeyOf(t), KeyOf(u));
  }

  lemma EgressOpens(s: Nat, t: Transport, now: int, draws: Draws)
    requires Agree(s) && Egress(s, t, now, draws).out.Some?
    ensures var first := Egress(s, t, now, draws);
            && Agree(first.next) && first.next.hub == s.hub && Relayed(first.next, KeyOf(t))
            && first.out.value == Transport(s.hub.value, t.dst, t.proto, first.out.value.sport, t.dport)
            && Live(first.next, KeyOf(t), first.out.value.sport, now)
  {
    OpenAgrees(s, KeyOf(t), now, draws);
    CollectAgrees(Open(s, KeyOf(t), now, draws).value, now);
  }

  lemma LiveAnswers(s: Nat, t: Transport, port: u16, now: int, draws: Draws)
    requires Agree(s) && Relayed(s, KeyOf(t)) && KeyOf(t) in s.byFlow && s.byFlow[KeyOf(t)].hubPort == port
    ensures var seen := Transport(s.hub.value, t.dst, t.proto, port, t.dport);
            && Ingress(s, Reply(seen), now).out == Some(Reply(t))
            && Egress(s, t, now, draws).out == Some(seen)
  {
  }

  /** The plain reading of the idle rule: every event comes no later than the idle limit after the last touch. */
  predicate Prompt(s: Nat, events: seq<Event>, key: FlowKey, port: u16, last: int) {
    events == [] ||
    var e := events[0];
    && (e.EgressEvent? || e.IngressEvent?)
    && e.now - last <= 120_000_000_000
    && Prompt(s, events[1..], key, port, if Touches(s, e, key, port) then e.now else last)
  }

  lemma {:induction false} PromptIsUninterrupted(s: Nat, s0: Nat, events: seq<Event>,
                                                 key: FlowKey, port: u16, last: int)
    requires s.hub == s0.hub && Prompt(s0, events, key, port, last)
    ensures Uninterrupted(s, events, key, port, last)
    decreases |events|
  {
    if events != [] {
      var e := events[0];
      PromptIsUninterrupted(Step(s, e), s0, events[1..], key, port, if Touches(s, e, key, port) then e.now else last);
    }
  }

  /** The reply packet the server sends back to what it saw. */
  predicate Answers(reply: seq<byte>, p: seq<byte>, hub: Addr, port: u16)
    requires Translatable(reply) && Translatable(p)
  {
    && Quad(reply, 12) == Quad(p, 16) && Quad(reply, 16) == hub && reply[9] == p[9]
    && Word(reply, HeaderLength(reply)) == Word(p, HeaderLength(p) + 2)
    && Word(reply, HeaderLength(reply) + 2) == port
  }

  lemma AnswersParse(reply: seq<byte>, p: seq<byte>, hub: Addr, port: u16)
    requires Translatable(reply) && Translatable(p) && Answers(reply, p, hub, port)
    ensures WellFormed(reply) && WellFormed(p)
    ensures Parse(reply) == Some(Transport(Parse(p).value.dst, hub, Parse(p).value.proto, Parse(p).value.dport, port))
  {
    TranslatableIsWellFormed(reply);
    TranslatableIsWellFormed(p);
    ParsedOnWire(reply);
    ParsedOnWire(p);
  }

  /** The same round trip on bytes: after any uninterrupted run the reply is delivered as from server to client, from
      the server's port to the client's, its checksums verify and its other bytes are what the server sent. */
  lemma PacketRoundTrip(s: Nat, p: seq<byte>, now: int, draws: Draws, events: seq<Event>, reply: seq<byte>, later: int)
    requires Agree(s) && Translatable(p) && Translatable(reply)
    requires Parse(p).Some? && Egress(s, Parse(p).value, now, draws).out.Some?
    requires var first := Egress(s, Parse(p).value, now, draws);
             && Uninterrupted(first.next, events, KeyOf(Parse(p).value), first.out.value.sport, now)
             && Answers(reply, p, first.out.value.src, first.out.value.sport)
    ensures Parse(reply).Some? && WellFormed(reply)
    ensures var first := Egress(s, Parse(p).value, now, draws);
            var back := Ingress(Run(first.next, events), Parse(reply).value, later).out;
            && back.Some?
            && var r := Translated(reply, back.value);
            && |r| == |reply| && Translatable(r)
            && Quad(r, 12) == Quad(p, 16) && Quad(r, 16) == Quad(p, 12)
            && Word(r, HeaderLength(reply)) == Word(p, HeaderLength(p) + 2)
            && Word(r, HeaderLength(reply) + 2) == Word(p, HeaderLength(p))
            && OnesSum(r[..HeaderLength(reply)]) == 0xFFFF && OnesSum(Summands(r)) == 0xFFFF
            && (forall k :: 0 <= k < |reply| && !Field(reply, k) ==> r[k] == reply[k])
  {
    var t := Parse(p).value;
    var first := Egress(s, t, now, draws);
    EgressOpens(s, t, now, draws);
    AnswersParse(reply, p, first.out.value.src, first.out.value.sport);
    RoundTrip(s, t, now, draws, events, later, draws);
    ParsedOnWire(p);
    EndpointsOnWire(reply, Reply(t));
    RestOnWire(reply, Reply(t));
    ChecksumsOnWire(reply, Reply(t));
  }
}
