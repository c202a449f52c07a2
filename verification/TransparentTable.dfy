/** The mutable NAT table: shared session objects under two indexes, and the port pool
    (internal/vpn/snat/transparent.go and ports.go). Every method is proved against module Nat. */
module TransparentTables {
  import opened Bytes
  import opened Packet
  import opened Nat

  class EphemeralPortPool {
    var reserved: set<u16>
    var inUse: set<u16>

    constructor ()
      ensures reserved == {} && inUse == {}
    {
      reserved, inUse := {}, {};
    }

    method ResetInUse()
      modifies this`inUse
      ensures inUse == {}
    {
      inUse := {};
    }

    method ReserveHubPorts(ports: seq<int>)
      modifies this`reserved
      ensures reserved == old(reserved) + InRange(ports)
    {
      for i := 0 to |ports|
        invariant reserved == old(reserved) + InRange(ports[..i])
      {
        assert ports[..i + 1] == ports[..i] + [ports[i]];
        if 0 <= ports[i] <= 0xFFFF {
          reserved := reserved + {ports[i]};
        }
      }
      assert ports[..|ports|] == ports;
    }

    /** The bounded retry loop over the random source. */
    method Pick(draws: Draws) returns (port: Option<u16>)
      modifies this`inUse
      ensures port == PickFrom(draws, 0, reserved + old(inUse))
      ensures inUse == old(inUse) + (if port.Some? then {port.value} else {})
    {
      for i := 0 to PICK_ATTEMPTS
        invariant inUse == old(inUse)
        invariant PickFrom(draws, i, reserved + inUse) == PickFrom(draws, 0, reserved + inUse)
      {
        var n := draws(i);
        if n.None? {
          return None;
        }
        var candidate := PORT_MIN + n.value;
        if candidate in reserved || candidate in inUse {
          continue;
        }
        inUse := inUse + {candidate};
        return Some(candidate);
      }
      return None;
    }
  }

  /** One session object, reachable from both indexes. */
  class Session {
    const key: FlowKey
    const hubPort: u16
    var lastSeen: int

    constructor (key: FlowKey, hubPort: u16, now: int)
      ensures this.key == key && this.hubPort == hubPort && lastSeen == now
    {
      this.key, this.hubPort, lastSeen := key, hubPort, now;
    }
  }

  ghost function Entries(byFlow: map<FlowKey, Session>): map<FlowKey, Entry>
    reads byFlow.Values
  {
    map k | k in byFlow :: Entry(byFlow[k].hubPort, byFlow[k].lastSeen)
  }

  ghost function Owners(byPort: map<u16, Session>): map<u16, FlowKey> {
    map p | p in byPort :: byPort[p].key
  }

  /** Both indexes hold the same session objects, each under its own key and port. */
  ghost predicate Indexes(byFlow: map<FlowKey, Session>, byPort: map<u16, Session>) {
    && (forall k :: k in byFlow ==>
          && byFlow[k].key == k
          && byFlow[k].hubPort in byPort && byPort[byFlow[k].hubPort] == byFlow[k])
    && (forall p :: p in byPort ==>
          && byPort[p].hubPort == p
          && byPort[p].key in byFlow && byFlow[byPort[p].key] == byPort[p])
    && (forall p :: p in byPort ==> PORT_MIN <= p <= PORT_MAX)
  }

  lemma IndexesWith(byFlow: map<FlowKey, Session>, byPort: map<u16, Session>, session: Session)
    requires Indexes(byFlow, byPort) && session.key !in byFlow && session.hubPort !in byPort
    requires PORT_MIN <= session.hubPort <= PORT_MAX
    ensures Indexes(byFlow[session.key := session], byPort[session.hubPort := session])
  {
  }

  lemma IndexesWithout(byFlow: map<FlowKey, Session>, byPort: map<u16, Session>, k: FlowKey)
    requires Indexes(byFlow, byPort) && k in byFlow
    ensures Indexes(byFlow - {k}, byPort - {byFlow[k].hubPort})
  {
  }

  lemma EntriesWith(byFlow: map<FlowKey, Session>, session: Session)
    ensures Entries(byFlow[session.key := session])
            == Entries(byFlow)[session.key := Entry(session.hubPort, session.lastSeen)]
  {
  }

  lemma OwnersWith(byPort: map<u16, Session>, session: Session)
    ensures Owners(byPort[session.hubPort := session]) == Owners(byPort)[session.hubPort := session.key]
  {
  }

  class TransparentTable {
    var hubIP: Option<Addr>
    var peerGroup: map<Addr, nat>
    var uniLinks: map<nat, set<nat>>
    var byFlow: map<FlowKey, Session>
    var byPort: map<u16, Session>
    const ports: EphemeralPortPool

    /** The two indexes hold the same objects, and the pool holds exactly their ports. */
    ghost predicate Valid()
      reads this, ports
    {
      Indexes(byFlow, byPort) && ports.inUse == byPort.Keys
    }

    /** The table as a value. */
    ghost function View(): Nat
      reads this, ports, byFlow.Values
    {
      Nat(hubIP, peerGroup, uniLinks, Entries(byFlow), Owners(byPort), ports.inUse, ports.reserved)
    }

    lemma ValidAgrees()
      requires Valid()
      ensures Agree(View())
    {
    }

    constructor ()
      ensures Valid() && fresh(ports)
      ensures View() == Nat(None, map[], map[], map[], map[], {}, {})
    {
      hubIP, peerGroup, uniLinks, byFlow, byPort := None, map[], map[], map[], map[];
      ports := new EphemeralPortPool();
    }

    method SetHubIP(addr: Addr)
      requires Valid()
      modifies this`hubIP
      ensures Valid() && View() == old(View()).(hub := Some(addr))
    {
      hubIP := Some(addr);
    }

    method RegisterPeer(ip: Addr, group: nat)
      requires Valid()
      modifies this`peerGroup
      ensures Valid() && View() == old(View()).(peerGroup := old(peerGroup)[ip := group])
    {
      peerGroup := peerGroup[ip := group];
    }

    method RegisterUniLink(from: nat, to: nat)
      requires Valid()
      modifies this`uniLinks
      ensures Valid()
      ensures View() == old(View()).(uniLinks := old(WithLink(uniLinks, from, to)))
    {
      if from !in uniLinks {
        uniLinks := uniLinks[from := {}];
      }
      uniLinks := uniLinks[from := uniLinks[from] + {to}];
      assert uniLinks == old(WithLink(uniLinks, from, to));
    }

    method ReserveHubPorts(list: seq<int>)
      requires Valid()
      modifies ports`reserved
      ensures Valid() && View() == Reserve(old(View()), list)
    {
      ports.ReserveHubPorts(list);
    }

    method Reset()
      requires Valid()
      modifies this`byFlow, this`byPort, ports`inUse
      ensures Valid() && View() == Cleared(old(View())) && byFlow == map[]
    {
      byFlow, byPort := map[], map[];
      ports.ResetInUse();
    }

    method ProcessIngressFromWG(packet: array<byte>, now: int) returns (ok: bool)
      requires Valid()
      requires Parse(packet[..]).Some? ==> Framed(packet[..])
      modifies byFlow.Values, packet
      ensures Valid() && byFlow == old(byFlow)
      ensures match Parse(old(packet[..]))
              case None => !ok && View() == old(View()) && packet[..] == old(packet[..])
              case Some(t) =>
                var r := Ingress(old(View()), t, now);
                && View() == r.next && ok == r.out.Some?
                && packet[..] == if ok then Translated(old(packet[..]), r.out.value) else old(packet[..])
    {
      var parsed := Parse(packet[..]);
      if parsed.None? {
        return false;
      }
      var out := Return(parsed.value, now);
      if out.None? {
        return false;
      }
      ghost var next := View();
      Translate(packet, out.value);
      assert View() == next;
      return true;
    }

    /** The locked part of ProcessIngressFromWG: which session, and the endpoints to write. */
    method Return(t: Transport, now: int) returns (out: Option<Transport>)
      requires Valid()
      modifies byFlow.Values
      ensures Valid() && byFlow == old(byFlow)
      ensures Outcome(View(), out) == Ingress(old(View()), t, now)
    {
      if hubIP != Some(t.dst) || t.dport !in byPort {
        return None;
      }
      var session := byPort[t.dport];
      Touch(session, now);
      return Some(Transport(t.src, session.key.client, t.proto, t.sport, session.key.clientPort));
    }

    /** sess.lastSeen = now, seen through both indexes. */
    method Touch(session: Session, now: int)
      requires Valid() && session.key in byFlow && byFlow[session.key] == session
      modifies session
      ensures Valid()
      ensures View() == old(View()).(byFlow := old(View()).byFlow[session.key := Entry(session.hubPort, now)])
    {
      ghost var entries := Entries(byFlow);
      session.lastSeen := now;
      assert Entries(byFlow) == entries[session.key := Entry(session.hubPort, now)];
    }

    /** Put a new session object under both indexes. */
    method Insert(key: FlowKey, port: u16, now: int) returns (session: Session)
      requires Indexes(byFlow, byPort) && key !in byFlow && port !in byPort
      requires ports.inUse == byPort.Keys + {port} && PORT_MIN <= port <= PORT_MAX
      modifies this`byFlow, this`byPort
      ensures Valid() && fresh(session) && byFlow == old(byFlow)[key := session]
      ensures View() == old(View()).(byFlow := old(View()).byFlow[key := Entry(port, now)],
                                     byPort := old(View()).byPort[port := key])
    {
      session := new Session(key, port, now);
      IndexesWith(byFlow, byPort, session);
      EntriesWith(byFlow, session);
      OwnersWith(byPort, session);
      byFlow, byPort := byFlow[key := session], byPort[port := session];
    }

    /** Find the flow's session or create it; None when no port can be picked. */
    method OpenSession(key: FlowKey, now: int, draws: Draws) returns (session: Option<Session>)
      requires Valid()
      modifies this`byFlow, this`byPort, ports`inUse, byFlow.Values
      ensures Valid() && fresh(byFlow.Values - old(byFlow.Values))
      ensures match Open(old(View()), key, now, draws)
              case None => session.None? && View() == old(View()) && byFlow == old(byFlow)
              case Some(o) => View() == o && session.Some? && key in byFlow && byFlow[key] == session.value
    {
      if key in byFlow {
        Touch(byFlow[key], now);
        return Some(byFlow[key]);
      }
      session := CreateSession(key, now, draws);
    }

    method CreateSession(key: FlowKey, now: int, draws: Draws) returns (session: Option<Session>)
      requires Valid() && key !in byFlow
      modifies this`byFlow, this`byPort, ports`inUse
      ensures Valid() && fresh(byFlow.Values - old(byFlow.Values))
      ensures match Open(old(View()), key, now, draws)
              case None => session.None? && View() == old(View()) && byFlow == old(byFlow)
              case Some(o) => View() == o && session.Some? && key in byFlow && byFlow[key] == session.value
    {
      ghost var was := View();
      var port := ports.Pick(draws);
      ghost var mid := View();
      assert mid == was.(inUse := mid.inUse);
      if port.None? {
        return None;
      }
      var made := Insert(key, port.value, now);
      return Some(made);
    }

    method ProcessEgressToWG(packet: array<byte>, now: int, draws: Draws) returns (ok: bool)
      requires Valid()
      requires Parse(packet[..]).Some? ==> Framed(packet[..])
      modifies this`byFlow, this`byPort, ports`inUse, byFlow.Values, packet
      ensures Valid() && fresh(byFlow.Values - old(byFlow.Values))
      ensures match Parse(old(packet[..]))
              case None => !ok && View() == old(View()) && packet[..] == old(packet[..])
              case Some(t) =>
                var r := Egress(old(View()), t, now, draws);
                && View() == r.next && ok == r.out.Some?
                && packet[..] == if ok then Translated(old(packet[..]), r.out.value) else old(packet[..])
    {
      var p := packet[..];
      var parsed := Parse(p);
      if parsed.None? {
        return false;
      }
      var out := Relay(parsed.value, now, draws);
      if out.None? {
        return false;
      }
      assert packet[..] == p;
      Translate(packet, out.value);
      return true;
    }

    /** The locked part of ProcessEgressToWG: open the session, collect idle ones. */
    method Relay(t: Transport, now: int, draws: Draws) returns (out: Option<Transport>)
      requires Valid()
      modifies this`byFlow, this`byPort, ports`inUse, byFlow.Values
      ensures Valid() && fresh(byFlow.Values - old(byFlow.Values))
      ensures Outcome(View(), out) == Egress(old(View()), t, now, draws)
    {
      var relayed := NeedsRelay(t.src, t.dst);
      if hubIP.None? || !relayed {
        return None;
      }
      var session := OpenSession(KeyOf(t), now, draws);
      if session.None? {
        return None;
      }
      CollectIdle(now);
      return Some(Transport(hubIP.value, t.dst, t.proto, session.value.hubPort, t.dport));
    }

    method NeedsRelay(src: Addr, dst: Addr) returns (r: bool)
      ensures r == NeedsSNAT(View(), src, dst)
    {
      if src !in peerGroup || dst !in peerGroup || peerGroup[src] == peerGroup[dst] {
        return false;
      }
      if peerGroup[src] !in uniLinks {
        return false;
      }
      return peerGroup[dst] in uniLinks[peerGroup[src]];
    }

    /** Delete one session from both indexes and from the pool. */
    method Drop(k: FlowKey)
      requires Valid() && k in byFlow
      modifies this`byFlow, this`byPort, ports`inUse
      ensures Valid() && byFlow == old(byFlow) - {k}
      ensures View() == Without(old(View()), {k})
    {
      ghost var was := View();
      var session := byFlow[k];
      IndexesWithout(byFlow, byPort, k);
      byPort := byPort - {session.hubPort};
      byFlow := byFlow - {k};
      ports.inUse := ports.inUse - {session.hubPort};
      assert PortsOf(was, {k}) == {session.hubPort};
      assert Entries(byFlow) == was.byFlow - {k} && Owners(byPort) == was.byPort - {session.hubPort};
    }

    /** One turn of the gcLocked loop; gone are the keys dropped so far. */
    method Visit(k: FlowKey, now: int, ghost was: Nat, ghost gone: set<FlowKey>) returns (ghost gone': set<FlowKey>)
      requires Valid() && k in byFlow
      requires Swept(was, gone)
      modifies this`byFlow, this`byPort, ports`inUse
      ensures Valid() && old(byFlow).Keys - {k} <= byFlow.Keys
      ensures forall j :: j in byFlow ==> j in old(byFlow) && byFlow[j] == old(byFlow)[j]
      ensures gone' == gone + (if k in Expired(was, now) then {k} else {})
      ensures Swept(was, gone')
    {
      gone' := gone;
      assert View().byFlow[k] == was.byFlow[k];
      if now - byFlow[k].lastSeen > SESSION_IDLE {
        WithoutOneMore(was, gone, k);
        Drop(k);
        gone' := gone + {k};
      }
    }

    /** gcLocked: visit every session once and drop the idle ones. */
    method CollectIdle(now: int)
      requires Valid()
      modifies this`byFlow, this`byPort, ports`inUse
      ensures Valid() && forall k :: k in byFlow ==> k in old(byFlow) && byFlow[k] == old(byFlow)[k]
      ensures View() == Collect(old(View()), now)
    {
      ghost var was, gone := View(), {};
      WithoutNone(was);
      var todo := byFlow.Keys;
      while todo != {}
        invariant Valid() && todo <= byFlow.Keys
        invariant forall k :: k in byFlow ==> k in old(byFlow) && byFlow[k] == old(byFlow)[k]
        invariant Swept(was, gone)
        invariant forall k :: k in gone ==> k in Expired(was, now)
        invariant forall k :: k in Expired(was, now) && k !in todo ==> k in gone
        decreases todo
      {
        var k :| k in todo;
        gone := Visit(k, now, was, gone);
        todo := todo - {k};
      }
      assert gone == Expired(was, now);
    }

    /** The table is what it was, less the sessions gone so far. */
    ghost predicate Swept(was: Nat, gone: set<FlowKey>)
      reads this, ports, byFlow.Values
    {
      gone <= was.byFlow.Keys && View() == Without(was, gone)
    }
  }

  /** The uniLinks update of RegisterUniLink. */
  function WithLink(links: map<nat, set<nat>>, from: nat, to: nat): map<nat, set<nat>> {
    links[from := (if from in links then links[from] else {}) + {to}]
  }

  /** rewriteEndpoints followed by both checksum fixes. */
  method Translate(packet: array<byte>, t: Transport)
    requires Parse(packet[..]).Some? && Framed(packet[..])
    modifies packet
    ensures packet[..] == Translated(old(packet[..]), t)
  {
    ghost var p := packet[..];
    RewriteEndpoints(packet, t);
    FramePreserved(p, packet[..]);
    ghost var q := packet[..];
    FixIPv4Checksum(packet);
    FramePreserved(q, packet[..]);
    FixTransportChecksum(packet);
  }
}
