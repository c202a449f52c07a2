/** The policy compiler: group links and map allow lists become block lists and relay inputs
    (internal/domain/policy/access.go, snat_policy.go and map_access.go). */
module Policy {
  import opened Bytes
  import opened Filter

  /** A peer; ip is the parsed WGIP, None when it does not parse. */
  datatype Peer = Peer(id: nat, ip: Option<Addr>, group: nat, enabled: bool)
  /** A group link; both directions when both is set, otherwise from -> to only. */
  datatype Link = Link(from: nat, to: nat, both: bool)
  /** AllowIntraGroup per known group. */
  type Groups = map<nat, bool>
  /** Allowed groups per map VIP. */
  type Maps = map<Addr, set<nat>>

  predicate AllowsIntraGroup(groups: Groups, g: nat) {
    g != 0 && (g in groups ==> groups[g])
  }

  predicate Joins(l: Link, a: nat, b: nat) {
    (l.from == a && l.to == b) || (l.from == b && l.to == a)
  }

  /** findLinkBetween: the first link joining the two groups, in either direction. */
  function FindLinkBetween(a: nat, b: nat, links: seq<Link>): Option<Link> {
    if links == [] then None
    else if Joins(links[0], a, b) then Some(links[0])
    else FindLinkBetween(a, b, links[1..])
  }

  /** A single link lets `from` initiate to `to`. */
  predicate Opens(l: Link, from: nat, to: nat) {
    if l.both then Joins(l, from, to) else l.from == from && l.to == to
  }

  predicate AnyOpens(links: seq<Link>, from: nat, to: nat) {
    links != [] && (Opens(links[0], from, to) || AnyOpens(links[1..], from, to))
  }

  predicate LinkAllowsInit(from: nat, to: nat, links: seq<Link>, groups: Groups) {
    if from == 0 || to == 0 then false
    else if from == to then AllowsIntraGroup(groups, from)
    else AnyOpens(links, from, to)
  }

  predicate AllowDirect(p: Peer, q: Peer, links: seq<Link>, groups: Groups) {
    if p.group == 0 || q.group == 0 then false
    else if p.group == q.group then AllowsIntraGroup(groups, p.group)
    else
      var l := FindLinkBetween(p.group, q.group, links);
      l.Some? && l.value.both
  }

  predicate NeedsRelay(p: Peer, q: Peer, links: seq<Link>, groups: Groups) {
    && p.group != 0 && q.group != 0 && p.group != q.group
    && LinkAllowsInit(p.group, q.group, links, groups)
    && !AllowDirect(p, q, links, groups)
  }

  predicate PeerMayAccessMap(maps: Maps, group: nat, vip: Addr) {
    group != 0 && vip in maps && |maps[vip]| != 0 && group in maps[vip]
  }

  // ---------- The links, read as a set ----------

  lemma {:induction false} AnyOpensIff(links: seq<Link>, from: nat, to: nat)
    ensures AnyOpens(links, from, to) <==> exists l :: l in links && Opens(l, from, to)
  {
    if links != [] {
      AnyOpensIff(links[1..], from, to);
      if l :| l in links && Opens(l, from, to) {
        assert l == links[0] || l in links[1..];
      }
    }
  }

  lemma {:induction false} FindLinkSound(a: nat, b: nat, links: seq<Link>)
    ensures var l := FindLinkBetween(a, b, links);
            if l.Some? then l.value in links && Joins(l.value, a, b)
            else forall l :: l in links ==> !Joins(l, a, b)
    ensures FindLinkBetween(a, b, links) == FindLinkBetween(b, a, links)
  {
    if links != [] {
      FindLinkSound(a, b, links[1..]);
    }
  }

  /** The rule the groups and links declare: inside a group its setting, which is open unless stored otherwise;
      between groups a one-way link in this direction, or a two-way link. */
  ghost predicate MayInitiate(links: seq<Link>, groups: Groups, from: nat, to: nat) {
    if from == to then from in groups ==> groups[from]
    else exists l :: l in links && ((l.from == from && l.to == to) || (l.both && l.from == to && l.to == from))
  }

  lemma LinkAllowsInitIff(from: nat, to: nat, links: seq<Link>, groups: Groups)
    ensures LinkAllowsInit(from, to, links, groups) <==> from != 0 && to != 0 && MayInitiate(links, groups, from, to)
  {
    AnyOpensIff(links, from, to);
    if from != to {
      if l :| l in links && ((l.from == from && l.to == to) || (l.both && l.from == to && l.to == from)) {
        assert Opens(l, from, to);
      }
      if l :| l in links && Opens(l, from, to) {
        assert (l.from == from && l.to == to) || (l.both && l.from == to && l.to == from);
      }
    }
  }

  /** Direct access never depends on which peer asks. */
  lemma DirectIsSymmetric(p: Peer, q: Peer, links: seq<Link>, groups: Groups)
    ensures AllowDirect(p, q, links, groups) == AllowDirect(q, p, links, groups)
  {
    FindLinkSound(p.group, q.group, links);
  }

  /** The three-way direct / relay / init test is the init test alone. */
  lemma ThreeWayTestCollapses(p: Peer, q: Peer, links: seq<Link>, groups: Groups)
    ensures AllowDirect(p, q, links, groups) || NeedsRelay(p, q, links, groups)
            || LinkAllowsInit(p.group, q.group, links, groups)
            <==> LinkAllowsInit(p.group, q.group, links, groups)
  {
    if AllowDirect(p, q, links, groups) && p.group != q.group {
      FindLinkSound(p.group, q.group, links);
      AnyOpensIff(links, p.group, q.group);
      var l := FindLinkBetween(p.group, q.group, links).value;
      assert l in links && Opens(l, p.group, q.group);
    }
  }

  // ---------- The compiler ----------

  datatype TransparentSpec = TransparentSpec(peers: seq<(Addr, nat)>, uniLinks: seq<Link>)
  datatype AccessSpec = AccessSpec(blocked: map<Addr, seq<Addr>>, transparent: TransparentSpec)

  /** Peers the compiler looks at. */
  predicate Active(p: Peer) {
    p.enabled && p.group != 0 && p.ip.Some?
  }

  /** q's address goes on p's block list. */
  predicate Blocks(p: Peer, q: Peer, links: seq<Link>, groups: Groups) {
    && Active(q) && q.id != p.id
    && !AllowDirect(p, q, links, groups)
    && !NeedsRelay(p, q, links, groups)
    && !LinkAllowsInit(p.group, q.group, links, groups)
  }

  function BlockedPeers(p: Peer, peers: seq<Peer>, links: seq<Link>, groups: Groups): set<Addr> {
    set q | q in peers && Blocks(p, q, links, groups) :: q.ip.value
  }

  function BlockedMaps(p: Peer, maps: Maps): set<Addr> {
    set vip | vip in maps && !PeerMayAccessMap(maps, p.group, vip)
  }

  function BlockedFor(p: Peer, peers: seq<Peer>, links: seq<Link>, groups: Groups, maps: Maps): set<Addr> {
    BlockedPeers(p, peers, links, groups) + BlockedMaps(p, maps)
  }

  /** The block sets after the peers in done; a later peer with the same address replaces an earlier one. */
  function BlockSets(done: seq<Peer>, peers: seq<Peer>, links: seq<Link>, groups: Groups, maps: Maps): Rules {
    if done == [] then map[]
    else
      var p := done[|done| - 1];
      var before := BlockSets(done[..|done| - 1], peers, links, groups, maps);
      if !Active(p) || BlockedFor(p, peers, links, groups, maps) == {} then before
      else before[p.ip.value := BlockedFor(p, peers, links, groups, maps)]
  }

  /** The lists of a spec, read as sets. */
  function AsSets(blocked: map<Addr, seq<Addr>>): Rules {
    map a | a in blocked :: Elements(blocked[a])
  }

  method BlockList(p: Peer, peers: seq<Peer>, links: seq<Link>, groups: Groups, maps: Maps)
    returns (blocked: seq<Addr>)
    ensures Elements(blocked) == BlockedFor(p, peers, links, groups, maps)
  {
    blocked := [];
    for i := 0 to |peers|
      invariant Elements(blocked) == BlockedPeers(p, peers[..i], links, groups)
    {
      ghost var before := blocked;
      var q := peers[i];
      assert peers[..i + 1] == peers[..i] + [q];
      if Active(q) && q.id != p.id {
        if !AllowDirect(p, q, links, groups) && !NeedsRelay(p, q, links, groups)
           && !LinkAllowsInit(p.group, q.group, links, groups) {
          blocked := blocked + [q.ip.value];
        }
      }
      BlockedPeersSnoc(p, peers[..i], q, links, groups);
      assert Elements(blocked) == Elements(before) + (if Blocks(p, q, links, groups) then {q.ip.value} else {});
    }
    assert peers[..|peers|] == peers;
    var todo := maps.Keys;
    while todo != {}
      invariant todo <= maps.Keys
      invariant forall a :: a in Elements(blocked) <==>
                  a in BlockedPeers(p, peers, links, groups) || (a in BlockedMaps(p, maps) && a !in todo)
      decreases todo
    {
      var vip :| vip in todo;
      ghost var before := blocked;
      if !PeerMayAccessMap(maps, p.group, vip) {
        blocked := blocked + [vip];
        assert Elements(blocked) == Elements(before) + {vip};
      }
      todo := todo - {vip};
    }
  }

  lemma BlockedPeersSnoc(p: Peer, peers: seq<Peer>, q: Peer, links: seq<Link>, groups: Groups)
    ensures BlockedPeers(p, peers + [q], links, groups) ==
            BlockedPeers(p, peers, links, groups) + (if Blocks(p, q, links, groups) then {q.ip.value} else {})
  {
  }

  method BuildTransparentSpec(peers: seq<Peer>, links: seq<Link>) returns (spec: TransparentSpec)
    ensures spec.peers == ActivePairs(peers) && spec.uniLinks == OneWay(links)
  {
    var pairs: seq<(Addr, nat)> := [];
    for i := 0 to |peers|
      invariant pairs == ActivePairs(peers[..i])
    {
      assert peers[..i + 1][..i] == peers[..i];
      if Active(peers[i]) {
        pairs := pairs + [(peers[i].ip.value, peers[i].group)];
      }
    }
    var uni: seq<Link> := [];
    for i := 0 to |links|
      invariant uni == OneWay(links[..i])
    {
      assert links[..i + 1][..i] == links[..i];
      if !links[i].both {
        uni := uni + [links[i]];
      }
    }
    assert peers[..|peers|] == peers && links[..|links|] == links;
    spec := TransparentSpec(pairs, uni);
  }

  function ActivePairs(peers: seq<Peer>): seq<(Addr, nat)> {
    if peers == [] then []
    else
      var p := peers[|peers| - 1];
      ActivePairs(peers[..|peers| - 1]) + (if Active(p) then [(p.ip.value, p.group)] else [])
  }

  function OneWay(links: seq<Link>): seq<Link> {
    if links == [] then []
    else OneWay(links[..|links| - 1]) + (if links[|links| - 1].both then [] else [links[|links| - 1]])
  }

  method BuildAccessPolicySpec(peers: seq<Peer>, links: seq<Link>, groups: Groups, maps: Maps)
    returns (spec: AccessSpec)
    ensures AsSets(spec.blocked) == BlockSets(peers, peers, links, groups, maps)
    ensures forall a :: a in spec.blocked ==> spec.blocked[a] != []
    ensures spec.transparent == TransparentSpec(ActivePairs(peers), OneWay(links))
  {
    var transparent := BuildTransparentSpec(peers, links);
    var lists: map<Addr, seq<Addr>> := map[];
    for i := 0 to |peers|
      invariant AsSets(lists) == BlockSets(peers[..i], peers, links, groups, maps)
      invariant forall a :: a in lists ==> lists[a] != []
    {
      ghost var before := AsSets(lists);
      var p := peers[i];
      assert peers[..i + 1][..i] == peers[..i];
      if Active(p) {
        var blocked := BlockList(p, peers, links, groups, maps);
        if |blocked| > 0 {
          assert blocked[0] in Elements(blocked);
          lists := lists[p.ip.value := blocked];
          assert AsSets(lists) == before[p.ip.value := Elements(blocked)];
        }
      }
    }
    assert peers[..|peers|] == peers;
    spec := AccessSpec(lists, transparent);
  }

  // ---------- What the compiled block sets mean ----------

  ghost predicate DistinctPeers(peers: seq<Peer>) {
    forall i, j :: 0 <= i < j < |peers| ==>
      peers[i].id != peers[j].id && (Active(peers[i]) && Active(peers[j]) ==> peers[i].ip != peers[j].ip)
  }

  ghost predicate VIPsApart(peers: seq<Peer>, maps: Maps) {
    forall p :: p in peers && p.ip.Some? ==> p.ip.value !in maps
  }

  lemma {:induction false} ForeignAddress(done: seq<Peer>, a: Addr,
                                          peers: seq<Peer>, links: seq<Link>, groups: Groups, maps: Maps)
    requires forall q :: q in done && Active(q) ==> q.ip.value != a
    ensures a !in BlockSets(done, peers, links, groups, maps)
  {
    if done != [] {
      ForeignAddress(done[..|done| - 1], a, peers, links, groups, maps);
      assert done[|done| - 1] in done;
    }
  }

  /** The block set of the last peer is its own, if no earlier peer has its address. */
  lemma LastBlockSet(done: seq<Peer>, peers: seq<Peer>, links: seq<Link>, groups: Groups, maps: Maps)
    requires done != [] && Active(done[|done| - 1])
    requires forall q :: q in done[..|done| - 1] && Active(q) ==> q.ip.value != done[|done| - 1].ip.value
    ensures Keeps(BlockSets(done, peers, links, groups, maps), done[|done| - 1].ip.value,
                  BlockedFor(done[|done| - 1], peers, links, groups, maps))
  {
    ForeignAddress(done[..|done| - 1], done[|done| - 1].ip.value, peers, links, groups, maps);
  }

  /** A rule set holds exactly this block set for an address; an empty one is not stored. */
  predicate Keeps(rules: Rules, a: Addr, blocked: set<Addr>) {
    if blocked == {} then a !in rules else a in rules && rules[a] == blocked
  }

  /** With distinct addresses each peer keeps its own block set. */
  lemma {:induction false} OwnBlockSet(done: seq<Peer>, i: nat,
                                       peers: seq<Peer>, links: seq<Link>, groups: Groups, maps: Maps)
    requires DistinctPeers(done) && i < |done| && Active(done[i])
    ensures Keeps(BlockSets(done, peers, links, groups, maps), done[i].ip.value,
                  BlockedFor(done[i], peers, links, groups, maps))
  {
    var before := done[..|done| - 1];
    if i == |done| - 1 {
      LastBlockSet(done, peers, links, groups, maps);
    } else {
      assert before[i] == done[i];
      OwnBlockSet(before, i, peers, links, groups, maps);
      assert Active(done[|done| - 1]) ==> done[i].ip != done[|done| - 1].ip;
    }
  }

  /** Compilation preserves meaning: between enabled, grouped peers the block sets let p reach q exactly when
      the declared rule lets p's group initiate to q's group. */
  lemma CompiledMeaning(peers: seq<Peer>, links: seq<Link>, groups: Groups, maps: Maps, p: Peer, q: Peer)
    requires DistinctPeers(peers) && VIPsApart(peers, maps) && p in peers && q in peers && p != q
    requires p.enabled && p.group != 0 && p.ip.Some? && q.enabled && q.group != 0 && q.ip.Some?
    ensures CanAccess(BlockSets(peers, peers, links, groups, maps), p.ip.value, q.ip.value)
            <==> MayInitiate(links, groups, p.group, q.group)
  {
    var blocked := BlockedFor(p, peers, links, groups, maps);
    var i :| 0 <= i < |peers| && peers[i] == p;
    OwnBlockSet(peers, i, peers, links, groups, maps);
    ThreeWayTestCollapses(p, q, links, groups);
    LinkAllowsInitIff(p.group, q.group, links, groups);
    if q.ip.value in blocked {
      assert q.ip.value in BlockedPeers(p, peers, links, groups);
      var r :| r in peers && Blocks(p, r, links, groups) && r.ip.value == q.ip.value;
      assert r == q;
    }
  }

  /** A map VIP is reachable for a peer exactly when the peer's group is on the allow list. */
  lemma CompiledMapMeaning(peers: seq<Peer>, links: seq<Link>, groups: Groups, maps: Maps, p: Peer, vip: Addr)
    requires DistinctPeers(peers) && VIPsApart(peers, maps) && p in peers && vip in maps
    requires p.enabled && p.group != 0 && p.ip.Some?
    ensures CanAccess(BlockSets(peers, peers, links, groups, maps), p.ip.value, vip) <==> p.group in maps[vip]
  {
    var i :| 0 <= i < |peers| && peers[i] == p;
    OwnBlockSet(peers, i, peers, links, groups, maps);
    assert vip !in BlockedPeers(p, peers, links, groups);
  }

  /** Addresses of enabled, grouped peers. */
  ghost predicate Governed(peers: seq<Peer>, a: Addr) {
    exists p :: p in peers && p.enabled && p.group != 0 && p.ip == Some(a)
  }

  /** The rules bind nobody else: other sources are never blocked, and of the destinations only
      enabled, grouped peers and VIPs are. */
  lemma OthersUnblocked(peers: seq<Peer>, links: seq<Link>, groups: Groups, maps: Maps, from: Addr, to: Addr)
    requires !Governed(peers, from) || (!Governed(peers, to) && to !in maps)
    ensures CanAccess(BlockSets(peers, peers, links, groups, maps), from, to)
  {
    BlocksGoverned(peers, from, peers, links, groups, maps);
  }

  /** Every stored block set is that of an active peer. */
  lemma {:induction false} BlocksGoverned(done: seq<Peer>, a: Addr,
                                          peers: seq<Peer>, links: seq<Link>, groups: Groups, maps: Maps)
    ensures var sets := BlockSets(done, peers, links, groups, maps);
            a in sets ==>
              exists p :: p in done && Active(p) && p.ip == Some(a)
                          && sets[a] == BlockedFor(p, peers, links, groups, maps)
  {
    if done != [] {
      var front, last := done[..|done| - 1], done[|done| - 1];
      BlocksGoverned(front, a, peers, links, groups, maps);
      assert done == front + [last] && last in done;
    }
  }
}
