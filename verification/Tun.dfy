/** The TUN wrapper: policy installation, the read and write paths, and isolation end to end
    (internal/vpn/tun/tun.go). */
module Tun {
  import opened Bytes
  import opened Packet
  import opened Wire
  import N = Nat
  import opened TransparentTables
  import F = Filter
  import P = Policy

  // ---------- As a state machine ----------

  datatype State = State(filter: F.State, table: N.Nat, listen: seq<int>)

  /** The header fields shouldDrop looks at; None means the packet is not filtered. */
  function Header(p: seq<byte>): Option<F.Flow> {
    if |p| < 20 || p[0] / 0x10 != 4 || |p| < Ihl(p) then None
    else Some(F.Flow(GetAddr(p, 12), GetAddr(p, 16)))
  }

  function Filtered(s: F.State, p: seq<byte>, now: int): F.State {
    if Header(p).None? then s
    else F.Step(s, F.Packet(Header(p).value.src, Header(p).value.dst, now))
  }

  predicate Drops(s: F.State, p: seq<byte>, now: int) {
    Header(p).Some? && !F.Passes(s, Header(p).value.src, Header(p).value.dst, now)
  }

  /** A packet the rewriting code may be given; only contracts about its bytes need this. */
  predicate Readable(p: seq<byte>) {
    Parse(p).Some? ==> Framed(p)
  }

  /** Return translation of one buffer, on the parsed packet. */
  function Returned(s: State, p: seq<byte>, now: int): N.Outcome {
    if Parse(p).None? then N.Outcome(s.table, None) else N.Ingress(s.table, Parse(p).value, now)
  }

  /** One buffer through Write: return translation first, the filter otherwise. */
  function Written(s: State, p: seq<byte>, now: int): State {
    if Returned(s, p, now).out.Some? then s.(table := Returned(s, p, now).next)
    else s.(filter := Filtered(s.filter, p, now))
  }

  /** Whether Write hands the buffer to the inner device. */
  predicate Delivers(s: State, p: seq<byte>, now: int) {
    Returned(s, p, now).out.Some? || !Drops(s.filter, p, now)
  }

  /** What it hands on. */
  function Delivered(s: State, p: seq<byte>, now: int): seq<byte>
    requires Readable(p)
  {
    var back := Returned(s, p, now).out;
    if back.Some? then Translated(p, back.value) else p
  }

  function Read(s: State, p: seq<byte>, now: int, draws: N.Draws): State {
    if Parse(p).None? then s else s.(table := N.Egress(s.table, Parse(p).value, now, draws).next)
  }

  /** SetAccessPolicy: replace both rule sets, forget all flows and sessions, reserve the listen ports. */
  function Install(s: State, rules: F.Rules, built: N.Nat, now: int): State {
    State(F.Step(s.filter, F.SetPolicy(rules, now)), N.Reserve(N.Cleared(built), s.listen), s.listen)
  }

  datatype Event =
    | WriteEvent(p: seq<byte>, now: int)
    | ReadEvent(p: seq<byte>, now: int, draws: N.Draws)
    | MapVIPs(vips: set<Addr>, now: int)
    | Listen(ports: seq<int>)

  function Step(s: State, e: Event): State {
    match e
    case WriteEvent(p, now) => Written(s, p, now)
    case ReadEvent(p, now, draws) => Read(s, p, now, draws)
    case MapVIPs(vips, now) => s.(filter := F.Step(s.filter, F.SetVIPs(vips, now)))
    case Listen(ports) => State(s.filter, N.Reserve(s.table, ports), ports)
  }

  function Run(s: State, events: seq<Event>): State
    decreases |events|
  {
    if events == [] then s else Run(Step(s, events[0]), events[1..])
  }

  // ---------- Reserved ports across the wrapper ----------

  /** From an installation on, no session sits on a listen port until Listen is called again. */
  lemma {:induction false} InstalledAvoidsListen(s: State, events: seq<Event>)
    requires N.Agree(s.table) && N.AvoidsReserved(s.table) && N.InRange(s.listen) <= s.table.reserved
    requires forall i :: 0 <= i < |events| ==> !events[i].Listen?
    ensures var s' := Run(s, events);
            N.Agree(s'.table) && s'.listen == s.listen && s'.table.byPort.Keys !! N.InRange(s.listen)
    decreases |events|
  {
    if events != [] {
      var e := events[0];
      StepAvoidsListen(s, e);
      InstalledAvoidsListen(Step(s, e), events[1..]);
    }
  }

  lemma StepAvoidsListen(s: State, e: Event)
    requires N.Agree(s.table) && N.AvoidsReserved(s.table) && !e.Listen?
    ensures var s' := Step(s, e);
            && N.Agree(s'.table) && N.AvoidsReserved(s'.table)
            && s'.listen == s.listen && s'.table.reserved == s.table.reserved
  {
    if e.WriteEvent? && Parse(e.p).Some? {
      NatStep(s.table, N.IngressEvent(Parse(e.p).value, e.now));
    } else if e.ReadEvent? && Parse(e.p).Some? {
      NatStep(s.table, N.EgressEvent(Parse(e.p).value, e.now, e.draws));
    }
  }

  lemma NatStep(s: N.Nat, e: N.Event)
    requires N.Agree(s) && N.AvoidsReserved(s) && N.Traffic(e)
    ensures N.Agree(N.Step(s, e)) && N.AvoidsReserved(N.Step(s, e)) && N.Step(s, e).reserved == s.reserved
  {
    N.StepAgrees(s, e);
    N.TrafficAvoidsReserved(s, [e]);
    assert N.Run(s, [e]) == N.Step(s, e);
  }

  lemma InstallStarts(s: State, rules: F.Rules, built: N.Nat, now: int)
    ensures var s' := Install(s, rules, built, now);
            N.Agree(s'.table) && N.AvoidsReserved(s'.table) && N.InRange(s'.listen) <= s'.table.reserved
  {
  }

  // ---------- Isolation ----------

  /** Neither address is the hub's or a map's, now or after any later map update. */
  predicate Ordinary(s: State, events: seq<Event>, a: Addr) {
    && a != s.filter.config.hub && a !in s.filter.config.vips
    && (forall i :: 0 <= i < |events| && events[i].MapVIPs? ==> a !in events[i].vips)
  }

  ghost predicate Isolating(s: State, a: Addr, b: Addr) {
    && s.table.hub in {None, Some(s.filter.config.hub)}
    && !F.CanAccess(s.filter.config.rules, a, b) && !F.CanAccess(s.filter.config.rules, b, a)
    && F.Flow(a, b) !in s.filter.flows && F.Flow(b, a) !in s.filter.flows
  }

  /** The filter looks at every IPv4 packet, whatever its protocol, and at its two addresses. */
  lemma HeaderOnWire(p: seq<byte>)
    ensures Header(p).Some? <==> IsIPv4(p)
    ensures forall a, b :: Header(p) == Some(F.Flow(a, b)) <==> ReadsAs(p, a, b)
  {
  }

  lemma StepIsolates(s: State, e: Event, a: Addr, b: Addr)
    requires Isolating(s, a, b) && Ordinary(s, [e], a) && Ordinary(s, [e], b)
    ensures Isolating(Step(s, e), a, b)
    ensures Step(s, e).filter.config.hub == s.filter.config.hub
    ensures Step(s, e).filter.config.vips == if e.MapVIPs? then e.vips else s.filter.config.vips
    ensures e.WriteEvent? && ReadsAs(e.p, a, b) ==> !Delivers(s, e.p, e.now)
  {
    if e.WriteEvent? {
      HeaderOnWire(e.p);
    }
  }

  /** While an installed policy lets neither address reach the other, no run of reads, writes,
      map updates and port reservations ever delivers an IPv4 packet that arrives reading a -> b. */
  lemma {:induction false} RunIsolates(s: State, events: seq<Event>, a: Addr, b: Addr, p: seq<byte>, now: int)
    requires Isolating(s, a, b) && Ordinary(s, events, a) && Ordinary(s, events, b)
    requires |p| >= 20 && p[0] / 0x10 == 4 && |p| >= p[0] as int % 0x10 * 4 && Quad(p, 12) == a && Quad(p, 16) == b
    ensures !Delivers(Run(s, events), p, now)
    decreases |events|
  {
    if events == [] {
      StepIsolates(s, WriteEvent(p, now), a, b);
    } else {
      var e := events[0];
      StepIsolates(s, e, a, b);
      RunIsolates(Step(s, e), events[1..], a, b, p, now);
    }
  }

  /** Isolation end to end: if neither group may initiate to the other, then after the compiled
      policy is installed nothing that arrives reading p -> q is handed on. */
  lemma PeersIsolated(s: State, built: N.Nat, installed: int,
                      peers: seq<P.Peer>, links: seq<P.Link>, groups: P.Groups, maps: P.Maps, p: P.Peer, q: P.Peer,
                      events: seq<Event>, packet: seq<byte>, now: int)
    requires P.DistinctPeers(peers) && P.VIPsApart(peers, maps) && p in peers && q in peers && p != q
    requires p.enabled && p.group != 0 && p.ip.Some? && q.enabled && q.group != 0 && q.ip.Some?
    requires !P.MayInitiate(links, groups, p.group, q.group) && !P.MayInitiate(links, groups, q.group, p.group)
    requires built.hub in {None, Some(s.filter.config.hub)}
    requires Ordinary(s, events, p.ip.value) && Ordinary(s, events, q.ip.value)
    requires |packet| >= 20 && packet[0] / 0x10 == 4 && |packet| >= packet[0] as int % 0x10 * 4
    requires Quad(packet, 12) == p.ip.value && Quad(packet, 16) == q.ip.value
    ensures var rules := P.BlockSets(peers, peers, links, groups, maps);
            !Delivers(Run(Install(s, rules, built, installed), events), packet, now)
  {
    P.CompiledMeaning(peers, links, groups, maps, p, q);
    P.CompiledMeaning(peers, links, groups, maps, q, p);
    var rules := P.BlockSets(peers, peers, links, groups, maps);
    RunIsolates(Install(s, rules, built, installed), events, p.ip.value, q.ip.value, packet, now);
  }

  // ---------- Exactly which traffic between peers passes ----------

  /** Nobody rewrites or exempts traffic between the two addresses. */
  predicate Plain(s: State, events: seq<Event>, a: Addr, b: Addr) {
    && s.table.hub in {None, Some(s.filter.config.hub)}
    && Ordinary(s, events, a) && Ordinary(s, events, b)
  }

  /** The event is an IPv4 packet reading from -> to. */
  predicate Arrives(e: Event, from: Addr, to: Addr) {
    e.WriteEvent? && ReadsAs(e.p, from, to)
  }

  /** Writes come in order, none before clock or after now. */
  predicate InOrder(events: seq<Event>, clock: int, now: int)
    decreases |events|
  {
    if events == [] then clock <= now
    else if events[0].WriteEvent? then clock <= events[0].now && InOrder(events[1..], events[0].now, now)
    else InOrder(events[1..], clock, now)
  }

  /** The flow's entry, if any, is fresh enough at now. */
  predicate Remembers(s: State, from: Addr, to: Addr, now: int) {
    F.Flow(from, to) in s.filter.flows && now - s.filter.flows[F.Flow(from, to)] <= s.filter.config.ttl
  }

  lemma InOrderBounds(events: seq<Event>, clock: int, now: int)
    requires InOrder(events, clock, now)
    ensures clock <= now
    decreases |events|
  {
    if events != [] {
      InOrderBounds(events[1..], if events[0].WriteEvent? then events[0].now else clock, now);
    }
  }

  /** What one event does to the memory of a -> b, as seen at now. */
  lemma StepRemembers(s: State, e: Event, a: Addr, b: Addr, clock: int, now: int)
    requires Plain(s, [e], a, b) && (e.WriteEvent? ==> clock <= e.now <= now)
    requires F.Flow(a, b) in s.filter.flows ==> s.filter.flows[F.Flow(a, b)] <= clock
    ensures var s', later := Step(s, e), if e.WriteEvent? then e.now else clock;
            && s'.filter.config.rules == s.filter.config.rules && s'.filter.config.ttl == s.filter.config.ttl
            && s'.filter.config.hub == s.filter.config.hub && s'.table.hub == s.table.hub
            && s'.filter.config.vips == (if e.MapVIPs? then e.vips else s.filter.config.vips)
            && (F.Flow(a, b) in s'.filter.flows ==> s'.filter.flows[F.Flow(a, b)] <= later)
            && (Remembers(s', a, b, now) <==>
                || Remembers(s, a, b, now)
                || (Arrives(e, a, b) && F.CanAccess(s.filter.config.rules, a, b) && now - e.now <= s.filter.config.ttl))
  {
    if e.WriteEvent? {
      HeaderOnWire(e.p);
      if Header(e.p).Some? && Returned(s, e.p, e.now).out.None? {
        F.StepFlow(s.filter, F.Packet(Header(e.p).value.src, Header(e.p).value.dst, e.now), F.Flow(a, b));
      }
    }
  }

  /** Over any run the filter remembers a -> b exactly if it did before, or a packet a -> b has arrived
      that the rules allow, at most ttl ago. */
  lemma {:induction false} RunRemembers(s: State, events: seq<Event>, a: Addr, b: Addr, clock: int, now: int)
    requires Plain(s, events, a, b) && InOrder(events, clock, now)
    requires F.Flow(a, b) in s.filter.flows ==> s.filter.flows[F.Flow(a, b)] <= clock
    ensures var s' := Run(s, events);
            && s'.filter.config.rules == s.filter.config.rules && s'.filter.config.ttl == s.filter.config.ttl
            && Plain(s', [], a, b)
            && (Remembers(s', a, b, now) <==>
                || Remembers(s, a, b, now)
                || (F.CanAccess(s.filter.config.rules, a, b) && Recently(events, a, b, now, s.filter.config.ttl)))
    decreases |events|
  {
    if events != [] {
      var e, rest := events[0], events[1..];
      InOrderBounds(events, clock, now);
      InOrderBounds(rest, if e.WriteEvent? then e.now else clock, now);
      StepRemembers(s, e, a, b, clock, now);
      RunRemembers(Step(s, e), rest, a, b, if e.WriteEvent? then e.now else clock, now);
      RecentlySplit(events, a, b, now, s.filter.config.ttl);
    }
  }

  /** A packet from -> to has arrived at most ttl before now. */
  ghost predicate Recently(events: seq<Event>, from: Addr, to: Addr, now: int, ttl: int) {
    exists i :: 0 <= i < |events| && Arrives(events[i], from, to) && now - events[i].now <= ttl
  }

  lemma RecentlySplit(events: seq<Event>, from: Addr, to: Addr, now: int, ttl: int)
    requires events != []
    ensures Recently(events, from, to, now, ttl) <==>
            (Arrives(events[0], from, to) && now - events[0].now <= ttl) || Recently(events[1..], from, to, now, ttl)
  {
    var rest := events[1..];
    if i :| 0 <= i < |events| && Arrives(events[i], from, to) && now - events[i].now <= ttl {
      assert i > 0 ==> rest[i - 1] == events[i];
    }
    if i :| 0 <= i < |rest| && Arrives(rest[i], from, to) && now - rest[i].now <= ttl {
      assert events[i + 1] == rest[i];
    }
  }

  lemma PlainDelivery(s: State, p: seq<byte>, now: int, a: Addr, b: Addr)
    requires Plain(s, [], a, b) && ReadsAs(p, a, b)
    ensures Delivers(s, p, now) <==> F.CanAccess(s.filter.config.rules, a, b) || Remembers(s, b, a, now)
  {
    HeaderOnWire(p);
  }

  /** End to end: after the compiled policy is installed, an IPv4 packet p -> q is handed on exactly if p's group may
      initiate to q's, or q's group may initiate to p's and a packet q -> p has arrived at most ttl ago. */
  lemma PeerTrafficIff(s: State, built: N.Nat, installed: int,
                       peers: seq<P.Peer>, links: seq<P.Link>, groups: P.Groups, maps: P.Maps, p: P.Peer, q: P.Peer,
                       events: seq<Event>, packet: seq<byte>, now: int)
    requires P.DistinctPeers(peers) && P.VIPsApart(peers, maps) && p in peers && q in peers && p != q
    requires p.enabled && p.group != 0 && p.ip.Some? && q.enabled && q.group != 0 && q.ip.Some?
    requires built.hub in {None, Some(s.filter.config.hub)}
    requires Ordinary(s, events, p.ip.value) && Ordinary(s, events, q.ip.value) && InOrder(events, installed, now)
    requires ReadsAs(packet, p.ip.value, q.ip.value)
    ensures var rules := P.BlockSets(peers, peers, links, groups, maps);
            Delivers(Run(Install(s, rules, built, installed), events), packet, now) <==>
            || P.MayInitiate(links, groups, p.group, q.group)
            || (P.MayInitiate(links, groups, q.group, p.group)
                && Recently(events, q.ip.value, p.ip.value, now, s.filter.config.ttl))
  {
    P.CompiledMeaning(peers, links, groups, maps, p, q);
    P.CompiledMeaning(peers, links, groups, maps, q, p);
    var start := Install(s, P.BlockSets(peers, peers, links, groups, maps), built, installed);
    RunRemembers(start, events, q.ip.value, p.ip.value, installed, now);
    PlainDelivery(Run(start, events), packet, now, p.ip.value, q.ip.value);
  }

  // ---------- Relayed traffic through the wrapper ----------

  /** What an event of the wrapper is to the NAT table. */
  function NatEvent(e: Event): seq<N.Event> {
    match e
    case WriteEvent(p, now) => if Parse(p).Some? then [N.IngressEvent(Parse(p).value, now)] else []
    case ReadEvent(p, now, draws) => if Parse(p).Some? then [N.EgressEvent(Parse(p).value, now, draws)] else []
    case MapVIPs(_, _) => []
    case Listen(ports) => [N.ReserveEvent(ports)]
  }

  function NatEvents(events: seq<Event>): seq<N.Event> {
    if events == [] then [] else NatEvent(events[0]) + NatEvents(events[1..])
  }

  /** Whatever passes through the wrapper, its table runs as the NAT does on the packets that parse. */
  lemma {:induction false} TableFollows(s: State, events: seq<Event>)
    ensures Run(s, events).table == N.Run(s.table, NatEvents(events))
    decreases |events|
  {
    if events != [] {
      var head, rest := NatEvent(events[0]), NatEvents(events[1..]);
      TableFollows(Step(s, events[0]), events[1..]);
      if head == [] {
        assert head + rest == rest;
      } else {
        assert (head + rest)[1..] == rest;
      }
    }
  }

  /** End to end for relayed flows: a packet read from the inner device and sent on translated; after any run that
      leaves its session uninterrupted, the server's reply to the hub is handed on as from the server to the client. */
  lemma RelayedReply(s: State, p: seq<byte>, now: int, draws: N.Draws, events: seq<Event>, reply: seq<byte>, later: int)
    requires N.Agree(s.table) && Translatable(p) && Translatable(reply) && Parse(p).Some?
    requires N.Egress(s.table, Parse(p).value, now, draws).out.Some?
    requires var sent := N.Egress(s.table, Parse(p).value, now, draws).out.value;
             && N.Uninterrupted(Step(s, ReadEvent(p, now, draws)).table, NatEvents(events), N.KeyOf(Parse(p).value),
                                sent.sport, now)
             && N.Answers(reply, p, sent.src, sent.sport)
    ensures Readable(reply)
    ensures var s' := Run(Step(s, ReadEvent(p, now, draws)), events);
            var r := Delivered(s', reply, later);
            && Delivers(s', reply, later) && |r| == |reply| && Translatable(r)
            && ReadsAs(r, Quad(p, 16), Quad(p, 12))
            && Word(r, HeaderLength(reply)) == Word(p, HeaderLength(p) + 2)
            && Word(r, HeaderLength(reply) + 2) == Word(p, HeaderLength(p))
  {
    var first := N.Egress(s.table, Parse(p).value, now, draws);
    var mid := Step(s, ReadEvent(p, now, draws));
    assert mid.table == first.next;
    TableFollows(mid, events);
    N.PacketRoundTrip(s.table, p, now, draws, NatEvents(events), reply, later);
  }

  // ---------- What Write hands on ----------

  /** A translated packet's header reads the endpoints it was translated to. */
  lemma TranslatedHeader(p: seq<byte>, t: Transport)
    requires Parse(p).Some? && Framed(p)
    ensures ReadsAs(Translated(p, t), t.src, t.dst)
  {
    var a := Rewritten(p, t);
    var b := HeaderFixed(a);
    var r := SegmentFixed(b);
    FramePreserved(p, a);
    FramePreserved(a, b);
    FramePreserved(b, r);
    assert GetAddr(b, 12) == GetAddr(a, 12) && GetAddr(b, 16) == GetAddr(a, 16);
    assert GetAddr(r, 12) == GetAddr(b, 12) && GetAddr(r, 16) == GetAddr(b, 16);
    HeaderOnWire(r);
  }

  /** The packet comes from a and is addressed to the hub port of a live session whose client is b. */
  predicate AimsAtSession(s: State, p: seq<byte>, a: Addr, b: Addr) {
    var t := Parse(p);
    && t.Some? && t.value.src == a && s.table.hub == Some(t.value.dst)
    && t.value.dport in s.table.byPort && s.table.byPort[t.value.dport].client == b
  }

  /** Isolation speaks of packets as they arrive: what Write hands on reads a -> b exactly when a sent the
      packet to the hub port of a live session of b, because return translation looks at the port alone. */
  lemma HandedOnIff(s: State, p: seq<byte>, now: int, a: Addr, b: Addr)
    requires N.Agree(s.table) && Isolating(s, a, b) && Ordinary(s, [], a) && Ordinary(s, [], b) && Readable(p)
    ensures Delivers(s, p, now) && ReadsAs(Delivered(s, p, now), a, b) <==> AimsAtSession(s, p, a, b)
  {
    var back := Returned(s, p, now).out;
    HeaderOnWire(p);
    if back.Some? {
      TranslatedHeader(p, back.value);
    }
  }

  /** And so it stays over every run under the policy. */
  lemma {:induction false} RunHandsOnIff(s: State, events: seq<Event>, a: Addr, b: Addr, p: seq<byte>, now: int)
    requires N.Agree(s.table) && Isolating(s, a, b) && Ordinary(s, events, a) && Ordinary(s, events, b) && Readable(p)
    ensures var s' := Run(s, events);
            Delivers(s', p, now) && ReadsAs(Delivered(s', p, now), a, b) <==> AimsAtSession(s', p, a, b)
    decreases |events|
  {
    if events == [] {
      HandedOnIff(s, p, now, a, b);
    } else {
      StepIsolates(s, events[0], a, b);
      StepAgrees(s, events[0]);
      RunHandsOnIff(Step(s, events[0]), events[1..], a, b, p, now);
    }
  }

  lemma StepAgrees(s: State, e: Event)
    requires N.Agree(s.table)
    ensures N.Agree(Step(s, e).table)
  {
    if e.WriteEvent? && Parse(e.p).Some? {
      N.StepAgrees(s.table, N.IngressEvent(Parse(e.p).value, e.now));
    } else if e.ReadEvent? && Parse(e.p).Some? {
      N.StepAgrees(s.table, N.EgressEvent(Parse(e.p).value, e.now, e.draws));
    }
  }

  // ---------- The mutable wrapper ----------

  /** Write on a batch: the buffers handed to the inner device, in order. */
  function WriteAll(s: State, packets: seq<seq<byte>>, now: int): (r: (State, seq<seq<byte>>))
    requires forall i :: 0 <= i < |packets| ==> Readable(packets[i])
  {
    if packets == [] then (s, [])
    else
      var (mid, out) := WriteAll(s, packets[..|packets| - 1], now);
      var p := packets[|packets| - 1];
      (Written(mid, p, now), if Delivers(mid, p, now) then out + [Delivered(mid, p, now)] else out)
  }

  lemma WriteOneMore(s: State, packets: seq<seq<byte>>, i: nat, now: int)
    requires i < |packets| && forall k :: 0 <= k < |packets| ==> Readable(packets[k])
    ensures var (mid, out) := WriteAll(s, packets[..i], now);
            WriteAll(s, packets[..i + 1], now) ==
            (Written(mid, packets[i], now),
             if Delivers(mid, packets[i], now) then out + [Delivered(mid, packets[i], now)] else out)
  {
    assert packets[..i + 1][..i] == packets[..i];
  }

  ghost function Contents(bufs: seq<array<byte>>): (r: seq<seq<byte>>)
    reads bufs
    ensures |r| == |bufs| && forall i :: 0 <= i < |bufs| ==> r[i] == bufs[i][..]
  {
    seq(|bufs|, i requires 0 <= i < |bufs| reads bufs => bufs[i][..])
  }

  /** filtered holds the buffers at the indices kept, whose contents are out. */
  ghost predicate Selected(bufs: seq<array<byte>>, filtered: seq<array<byte>>, kept: seq<int>,
                           cur: seq<seq<byte>>, out: seq<seq<byte>>, n: int) {
    && n <= |bufs| == |cur| && |kept| == |filtered| == |out|
    && (forall k :: 0 <= k < |kept| ==> 0 <= kept[k] < n && filtered[k] == bufs[kept[k]] && cur[kept[k]] == out[k])
  }

  lemma SelectMore(bufs: seq<array<byte>>, filtered: seq<array<byte>>, kept: seq<int>,
                   before: seq<seq<byte>>, cur: seq<seq<byte>>, out: seq<seq<byte>>, n: int, forward: bool)
    requires Selected(bufs, filtered, kept, before, out, n) && 0 <= n < |bufs| == |cur|
    requires forall j :: 0 <= j < |bufs| && j != n ==> cur[j] == before[j]
    ensures if forward then Selected(bufs, filtered + [bufs[n]], kept + [n], cur, out + [cur[n]], n + 1)
            else Selected(bufs, filtered, kept, cur, out, n + 1)
  {
  }

  lemma SelectedContents(bufs: seq<array<byte>>, filtered: seq<array<byte>>, kept: seq<int>, out: seq<seq<byte>>)
    requires Selected(bufs, filtered, kept, Contents(bufs), out, |bufs|)
    ensures Contents(filtered) == out && forall b :: b in filtered ==> b in bufs
  {
  }

  datatype AccessPolicy = AccessPolicy(rules: Option<F.RuleSet>, transparent: Option<TransparentTable>)

  class TUN {
    const hubIP: Addr
    var access: F.RuleSet
    var transparent: TransparentTable
    var reservedHubPorts: seq<int>
    var mapVIPs: set<Addr>
    const ct: F.ConnTrack

    ghost predicate Valid()
      reads this, transparent, transparent.ports
    {
      transparent.Valid()
    }

    ghost function FilterView(): F.State
      reads this, access, ct
    {
      F.State(F.Config(hubIP, access.rules, mapVIPs, ct.ttl), ct.flows)
    }

    ghost function View(): State
      reads this, access, ct, transparent, transparent.ports, transparent.byFlow.Values
    {
      State(FilterView(), transparent.View(), reservedHubPorts)
    }

    constructor (hubIP: Addr)
      ensures Valid() && transparent.byFlow == map[]
      ensures View().filter == F.State(F.Config(hubIP, map[], {}, 120_000_000_000), map[])
      ensures View().table == N.Nat(None, map[], map[], map[], map[], {}, {}) && View().listen == []
    {
      this.hubIP, reservedHubPorts, mapVIPs := hubIP, [], {};
      access := new F.RuleSet();
      transparent := new TransparentTable();
      ct := new F.ConnTrack(N.SESSION_IDLE);
    }

    /** Install a policy; without a table, or without a policy at all, a new empty table takes its place. */
    method SetAccessPolicy(p: Option<AccessPolicy>, ghost now: int)
      requires Valid()
      requires p.Some? && p.value.transparent.Some? ==> p.value.transparent.value.Valid()
      modifies this`access, this`transparent, ct
      modifies if p.Some? && p.value.transparent.Some?
               then {p.value.transparent.value as object, p.value.transparent.value.ports} else {}
      ensures Valid() && transparent.byFlow == map[]
      ensures var rules := if p.Some? && p.value.rules.Some? then old(p.value.rules.value.rules) else map[];
              var empty := N.Nat(if p.Some? then Some(hubIP) else None, map[], map[], map[], map[], {}, {});
              var built := if p.Some? && p.value.transparent.Some?
                           then old(p.value.transparent.value.View()).(hub := Some(hubIP)) else empty;
              View() == Install(old(View()), rules, built, now)
    {
      var rules;
      if p.Some? && p.value.rules.Some? {
        rules := p.value.rules.value;
      } else {
        rules := new F.RuleSet();
      }
      var table;
      if p.Some? && p.value.transparent.Some? {
        table := p.value.transparent.value;
        table.SetHubIP(hubIP);
      } else {
        table := new TransparentTable();
        if p.Some? {
          table.SetHubIP(hubIP);
        }
      }
      Adopt(rules, table, now);
    }

    /** Put rules and table in force: tracked flows and sessions are forgotten, the listen ports reserved. */
    method Adopt(rules: F.RuleSet, table: TransparentTable, ghost now: int)
      requires table.Valid()
      modifies this`access, this`transparent, ct, table`byFlow, table`byPort, table.ports
      ensures Valid() && transparent == table && transparent.byFlow == map[]
      ensures FilterView() == F.Step(old(FilterView()), F.SetPolicy(rules.rules, now))
      ensures transparent.View() == N.Reserve(N.Cleared(old(table.View())), reservedHubPorts)
    {
      ct.Reset();
      access, transparent := rules, table;
      transparent.Reset();
      transparent.ReserveHubPorts(reservedHubPorts);
    }

    method ReserveHubPorts(ports: seq<int>)
      requires Valid()
      modifies this`reservedHubPorts, transparent.ports`reserved
      ensures Valid() && View() == Step(old(View()), Listen(ports))
    {
      reservedHubPorts := ports;
      transparent.ReserveHubPorts(reservedHubPorts);
    }

    method SetMapVIPs(vips: seq<Addr>, ghost now: int)
      requires Valid()
      modifies this`mapVIPs
      ensures Valid() && View() == Step(old(View()), MapVIPs(F.Elements(vips), now))
    {
      var m: set<Addr> := {};
      for i := 0 to |vips|
        invariant m == F.Elements(vips[..i])
      {
        assert vips[..i + 1] == vips[..i] + [vips[i]];
        m := m + {vips[i]};
      }
      assert vips[..|vips|] == vips;
      mapVIPs := m;
    }

    method ShouldDrop(packet: array<byte>, now: int) returns (drop: bool)
      modifies ct
      ensures if IsIPv4(packet[..]) then
                var src, dst := Quad(packet[..], 12), Quad(packet[..], 16);
                && drop == !F.Passes(old(FilterView()), src, dst, now)
                && FilterView() == F.Step(old(FilterView()), F.Packet(src, dst, now))
              else !drop && FilterView() == old(FilterView())
    {
      HeaderOnWire(packet[..]);
      var h := Header(packet[..]);
      if h.None? {
        return false;
      }
      var src, dst := h.value.src, h.value.dst;
      if src == hubIP || dst == hubIP || src in mapVIPs || dst in mapVIPs {
        return false;
      }
      if F.CanAccess(access.rules, src, dst) {
        ct.Remember(src, dst, now);
        return false;
      }
      var back := ct.Return(src, dst, now);
      return !back;
    }

    /** The body of the Write loop. */
    method WriteOne(packet: array<byte>, now: int) returns (forward: bool)
      requires Valid() && Readable(packet[..])
      modifies ct, transparent.byFlow.Values, packet
      ensures Valid() && transparent.byFlow == old(transparent.byFlow)
      ensures View() == Written(old(View()), old(packet[..]), now)
      ensures forward == Delivers(old(View()), old(packet[..]), now)
      ensures packet[..] == Delivered(old(View()), old(packet[..]), now)
    {
      ghost var table := transparent.View();
      var translated := transparent.ProcessIngressFromWG(packet, now);
      assert FilterView() == old(FilterView());
      if translated {
        return true;
      }
      assert packet[..] == old(packet[..]) && transparent.View() == table;
      HeaderOnWire(packet[..]);
      var drop := ShouldDrop(packet, now);
      assert transparent.View() == table;
      return !drop;
    }

    /** The same step on buffer i of a batch: the other buffers keep their contents. */
    method WriteNext(bufs: seq<array<byte>>, i: nat, now: int) returns (forward: bool)
      requires Valid() && i < |bufs| && Readable(Contents(bufs)[i])
      requires forall j :: 0 <= j < |bufs| && j != i ==> bufs[j] != bufs[i]
      modifies ct, transparent.byFlow.Values, bufs[i]
      ensures Valid() && transparent.byFlow == old(transparent.byFlow)
      ensures forall j :: 0 <= j < |bufs| && j != i ==> Contents(bufs)[j] == old(Contents(bufs))[j]
      ensures View() == Written(old(View()), old(Contents(bufs))[i], now)
      ensures forward == Delivers(old(View()), old(Contents(bufs))[i], now)
      ensures Contents(bufs)[i] == Delivered(old(View()), old(Contents(bufs))[i], now)
    {
      forward := WriteOne(bufs[i], now);
    }

    /** The buffers that pass, in order; each is rewritten in place where the NAT applies. */
    method WriteBatch(bufs: seq<array<byte>>, now: int) returns (filtered: seq<array<byte>>)
      requires Valid()
      requires forall i, j :: 0 <= i < j < |bufs| ==> bufs[i] != bufs[j]
      requires forall i :: 0 <= i < |bufs| ==> Readable(bufs[i][..])
      modifies ct, transparent.byFlow.Values, bufs
      ensures Valid()
      ensures forall b :: b in filtered ==> b in bufs
      ensures (View(), Contents(filtered)) == WriteAll(old(View()), old(Contents(bufs)), now)
    {
      filtered := [];
      ghost var was, kept := Contents(bufs), [];
      ghost var mid, out := View(), [];
      for i := 0 to |bufs|
        invariant Valid() && transparent.byFlow == old(transparent.byFlow)
        invariant forall j :: i <= j < |bufs| ==> Contents(bufs)[j] == was[j]
        invariant Selected(bufs, filtered, kept, Contents(bufs), out, i)
        invariant View() == mid && (mid, out) == WriteAll(old(View()), was[..i], now)
      {
        WriteOneMore(old(View()), was, i, now);
        ghost var delivered := Delivered(mid, was[i], now);
        ghost var before := Contents(bufs);
        var forward := WriteNext(bufs, i, now);
        mid := Written(mid, was[i], now);
        SelectMore(bufs, filtered, kept, before, Contents(bufs), out, i, forward);
        if forward {
          filtered, kept, out := filtered + [bufs[i]], kept + [i], out + [delivered];
        }
      }
      assert was[..|bufs|] == was;
      SelectedContents(bufs, filtered, kept, out);
    }

    /** One packet read from the inner device; a zero size is skipped by the caller. */
    method ReadOne(packet: array<byte>, now: int, draws: N.Draws)
      requires Valid() && Readable(packet[..])
      modifies transparent`byFlow, transparent`byPort, transparent.ports`inUse, transparent.byFlow.Values, packet
      ensures Valid() && View() == Read(old(View()), old(packet[..]), now, draws)
      ensures var t := Parse(old(packet[..]));
              packet[..] ==
              if t.Some? && N.Egress(old(View().table), t.value, now, draws).out.Some?
              then Translated(old(packet[..]), N.Egress(old(View().table), t.value, now, draws).out.value)
              else old(packet[..])
    {
      var _ := transparent.ProcessEgressToWG(packet, now, draws);
    }
  }
}
