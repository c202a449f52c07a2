/** The link table and what the two planes make of it: at most one link per group pair,
    and agreement on which traffic is relayed (internal/repo/groups.go,
    internal/vpn/policy/apply.go). */
module GroupLinks {
  import opened Bytes
  import opened Filter
  import opened Nat
  import opened Policy
  import opened TransparentTables

  // ---------- The link table ----------

  /** normalizeLinkPair. */
  function Normalized(from: nat, to: nat, both: bool): Link {
    if both && from > to then Link(to, from, both) else Link(from, to, both)
  }

  /** Delete where the pair matches, in either direction. */
  function Unjoined(links: seq<Link>, a: nat, b: nat): seq<Link> {
    if links == [] then []
    else (if Joins(links[0], a, b) then [] else [links[0]]) + Unjoined(links[1..], a, b)
  }

  /** Delete where either end is the group. */
  function Untouched(links: seq<Link>, g: nat): seq<Link> {
    if links == [] then []
    else (if links[0].from == g || links[0].to == g then [] else [links[0]]) + Untouched(links[1..], g)
  }

  /** Groups, the links between them in insertion order, and map allow rows (map id, group id). */
  class LinkStore {
    var groups: set<nat>
    var links: seq<Link>
    var allows: set<(nat, nat)>

    constructor ()
      ensures groups == {} && links == [] && allows == {}
    {
      groups, links, allows := {}, [], {};
    }

    /** Delete whatever joins the pair, then insert; a self-link is refused. */
    method UpsertGroupLink(from: nat, to: nat, both: bool) returns (ok: bool)
      modifies this`links
      ensures ok == (from != to)
      ensures links == Applied(old(links), Upsert(from, to, both))
    {
      if from == to {
        return false;
      }
      var l := Normalized(from, to, both);
      DeleteLinksBetween(l.from, l.to);
      links := links + [l];
      return true;
    }

    method DeleteLinksBetween(a: nat, b: nat)
      modifies this`links
      ensures links == Unjoined(old(links), a, b)
    {
      links := Unjoined(links, a, b);
    }

    method DeleteGroupLink(from: nat, to: nat)
      modifies this`links
      ensures links == Applied(old(links), DeleteLink(from, to))
    {
      DeleteLinksBetween(from, to);
    }

    /** Refused while the group still has peers; otherwise nothing refers to the group afterwards. */
    method DeleteGroup(g: nat, peerCount: nat) returns (ok: bool)
      modifies this
      ensures ok == (peerCount == 0)
      ensures links == Applied(old(links), DropGroup(g, peerCount))
      ensures groups == if ok then old(groups) - {g} else old(groups)
      ensures forall r :: r in allows <==> r in old(allows) && (ok ==> r.1 != g)
    {
      if peerCount > 0 {
        return false;
      }
      links := Untouched(links, g);
      allows := set r | r in allows && r.1 != g;
      groups := groups - {g};
      return true;
    }
  }

  datatype LinkOp =
    | Upsert(from: nat, to: nat, both: bool)
    | DeleteLink(from: nat, to: nat)
    | DropGroup(group: nat, peerCount: nat)

  function Applied(links: seq<Link>, op: LinkOp): seq<Link> {
    match op
    case Upsert(from, to, both) =>
      if from == to then links
      else
        var l := Normalized(from, to, both);
        Unjoined(links, l.from, l.to) + [l]
    case DeleteLink(from, to) => Unjoined(links, from, to)
    case DropGroup(g, peerCount) => if peerCount > 0 then links else Untouched(links, g)
  }

  function AppliedAll(links: seq<Link>, ops: seq<LinkOp>): seq<Link>
    decreases |ops|
  {
    if ops == [] then links else AppliedAll(Applied(links, ops[0]), ops[1..])
  }

  /** No self-link, one link per unordered pair, and two-way links stored low -> high. */
  ghost predicate OnePerPair(links: seq<Link>) {
    && (forall i :: 0 <= i < |links| ==> Proper(links[i]))
    && (forall i, j :: 0 <= i < j < |links| ==> !Joins(links[i], links[j].from, links[j].to))
  }

  lemma {:induction false} UnjoinedMembers(links: seq<Link>, a: nat, b: nat)
    ensures forall l :: l in Unjoined(links, a, b) <==> l in links && !Joins(l, a, b)
  {
    if links != [] {
      UnjoinedMembers(links[1..], a, b);
      assert links == [links[0]] + links[1..];
    }
  }

  lemma {:induction false} UntouchedMembers(links: seq<Link>, g: nat)
    ensures forall l :: l in Untouched(links, g) <==> l in links && l.from != g && l.to != g
  {
    if links != [] {
      UntouchedMembers(links[1..], g);
      assert links == [links[0]] + links[1..];
    }
  }

  ghost predicate Proper(l: Link) {
    l.from != l.to && (l.both ==> l.from < l.to)
  }

  /** OnePerPair taken apart at the front. */
  lemma OnePerPairSplit(l: Link, rest: seq<Link>)
    requires OnePerPair([l] + rest)
    ensures Proper(l) && OnePerPair(rest) && forall m :: m in rest ==> !Joins(m, l.from, l.to)
  {
    var all := [l] + rest;
    assert all[0] == l && all[1..] == rest;
    forall m | m in rest
      ensures !Joins(m, l.from, l.to)
    {
      var i :| 0 <= i < |rest| && rest[i] == m;
      assert !Joins(all[0], all[i + 1].from, all[i + 1].to);
    }
    forall i | 0 <= i < |rest|
      ensures Proper(rest[i])
    {
      assert all[i + 1] == rest[i];
    }
    forall i, j | 0 <= i < j < |rest|
      ensures !Joins(rest[i], rest[j].from, rest[j].to)
    {
      assert !Joins(all[i + 1], all[j + 1].from, all[j + 1].to);
    }
  }

  lemma OnePerPairJoin(l: Link, rest: seq<Link>)
    requires Proper(l) && OnePerPair(rest) && forall m :: m in rest ==> !Joins(m, l.from, l.to)
    ensures OnePerPair([l] + rest)
  {
    var all := [l] + rest;
    forall i, j | 0 <= i < j < |all|
      ensures !Joins(all[i], all[j].from, all[j].to)
    {
      if i == 0 {
        assert all[j] == rest[j - 1] && rest[j - 1] in rest;
      } else {
        assert !Joins(rest[i - 1], rest[j - 1].from, rest[j - 1].to);
      }
    }
  }

  lemma {:induction false} UnjoinedKeeps(links: seq<Link>, a: nat, b: nat)
    requires OnePerPair(links)
    ensures OnePerPair(Unjoined(links, a, b))
  {
    if links != [] {
      var l, rest := links[0], links[1..];
      assert links == [l] + rest;
      OnePerPairSplit(l, rest);
      UnjoinedKeeps(rest, a, b);
      UnjoinedMembers(rest, a, b);
      if !Joins(l, a, b) {
        OnePerPairJoin(l, Unjoined(rest, a, b));
      }
    }
  }

  lemma {:induction false} UntouchedKeeps(links: seq<Link>, g: nat)
    requires OnePerPair(links)
    ensures OnePerPair(Untouched(links, g))
  {
    if links != [] {
      var l, rest := links[0], links[1..];
      assert links == [l] + rest;
      OnePerPairSplit(l, rest);
      UntouchedKeeps(rest, g);
      UntouchedMembers(rest, g);
      if l.from != g && l.to != g {
        OnePerPairJoin(l, Untouched(rest, g));
      }
    }
  }

  lemma AppendKeeps(links: seq<Link>, l: Link)
    requires OnePerPair(links) && Proper(l)
    requires forall m :: m in links ==> !Joins(m, l.from, l.to)
    ensures OnePerPair(links + [l])
  {
  }

  lemma AppliedKeeps(links: seq<Link>, op: LinkOp)
    requires OnePerPair(links)
    ensures OnePerPair(Applied(links, op))
  {
    match op
    case Upsert(from, to, both) =>
      if from != to {
        var l := Normalized(from, to, both);
        UnjoinedKeeps(links, l.from, l.to);
        UnjoinedMembers(links, l.from, l.to);
        AppendKeeps(Unjoined(links, l.from, l.to), l);
      }
    case DeleteLink(from, to) =>
      UnjoinedKeeps(links, from, to);
    case DropGroup(g, n) =>
      UntouchedKeeps(links, g);
  }

  /** Every run of the three operations from the empty table keeps one link per pair. */
  lemma {:induction false} ReachableLinks(links: seq<Link>, ops: seq<LinkOp>)
    requires OnePerPair(links)
    ensures OnePerPair(AppliedAll(links, ops))
    decreases |ops|
  {
    if ops != [] {
      AppliedKeeps(links, ops[0]);
      ReachableLinks(Applied(links, ops[0]), ops[1..]);
    }
  }

  // ---------- What the operations do to the rule ----------

  lemma {:induction false} UnjoinedRule(links: seq<Link>, a: nat, b: nat, groups: Groups, g: nat, h: nat)
    requires g != h
    ensures MayInitiate(Unjoined(links, a, b), groups, g, h) <==>
            !((g == a && h == b) || (g == b && h == a)) && MayInitiate(links, groups, g, h)
  {
    UnjoinedMembers(links, a, b);
  }

  /** After a link is set, its groups may initiate in its direction, in the other one exactly if it is two-way,
      and for every other pair of groups nothing changes. */
  lemma UpsertRule(links: seq<Link>, from: nat, to: nat, both: bool, groups: Groups, g: nat, h: nat)
    requires from != to && g != h
    ensures MayInitiate(Applied(links, Upsert(from, to, both)), groups, g, h) <==>
            if g == from && h == to then true
            else if g == to && h == from then both
            else MayInitiate(links, groups, g, h)
  {
    var l := Normalized(from, to, both);
    var rest := Unjoined(links, l.from, l.to);
    UnjoinedRule(links, l.from, l.to, groups, g, h);
    assert forall m :: m in rest + [l] <==> m in rest || m == l;
  }

  /** After the links of a pair are deleted neither group may initiate to the other; other pairs keep their rule. */
  lemma DeleteRule(links: seq<Link>, from: nat, to: nat, groups: Groups, g: nat, h: nat)
    requires g != h
    ensures MayInitiate(Applied(links, DeleteLink(from, to)), groups, g, h) <==>
            !((g == from && h == to) || (g == to && h == from)) && MayInitiate(links, groups, g, h)
  {
    UnjoinedRule(links, from, to, groups, g, h);
  }

  /** Deleting a group without peers ends its rules and no others; with peers nothing changes. */
  lemma DropRule(links: seq<Link>, group: nat, peerCount: nat, groups: Groups, g: nat, h: nat)
    requires g != h
    ensures MayInitiate(Applied(links, DropGroup(group, peerCount)), groups, g, h) <==>
            (peerCount > 0 || (g != group && h != group)) && MayInitiate(links, groups, g, h)
  {
    UntouchedMembers(links, group);
  }

  // ---------- Applying a compiled policy ----------

  function Registered(pairs: seq<(Addr, nat)>): map<Addr, nat> {
    if pairs == [] then map[]
    else
      var (ip, g) := pairs[|pairs| - 1];
      var before := Registered(pairs[..|pairs| - 1]);
      if g == 0 then before else before[ip := g]
  }

  function Linked(links: seq<Link>): map<nat, set<nat>> {
    if links == [] then map[]
    else
      var l := links[|links| - 1];
      var before := Linked(links[..|links| - 1]);
      if l.both then before else WithLink(before, l.from, l.to)
  }

  function NonEmpty(blocked: map<Addr, seq<Addr>>): Rules {
    map a | a in blocked && blocked[a] != [] :: Elements(blocked[a])
  }

  /** The value of a table freshly built from a transparent spec. */
  function TableFor(spec: TransparentSpec): Nat {
    Nat(None, Registered(spec.peers), Linked(spec.uniLinks), map[], map[], {}, {})
  }

  method ApplyTransparent(spec: TransparentSpec) returns (table: TransparentTable)
    ensures table.Valid() && fresh(table) && fresh(table.ports) && table.byFlow == map[]
    ensures table.View() == TableFor(spec)
  {
    table := new TransparentTable();
    for i := 0 to |spec.peers|
      invariant table.Valid() && fresh(table.ports) && table.byFlow == map[]
      invariant table.View() == TableFor(TransparentSpec(spec.peers[..i], []))
    {
      assert spec.peers[..i + 1][..i] == spec.peers[..i];
      if spec.peers[i].1 != 0 {
        table.RegisterPeer(spec.peers[i].0, spec.peers[i].1);
      }
    }
    assert spec.peers[..|spec.peers|] == spec.peers;
    for i := 0 to |spec.uniLinks|
      invariant table.Valid() && fresh(table.ports) && table.byFlow == map[]
      invariant table.View() == TableFor(TransparentSpec(spec.peers, spec.uniLinks[..i]))
    {
      assert spec.uniLinks[..i + 1][..i] == spec.uniLinks[..i];
      if !spec.uniLinks[i].both {
        table.RegisterUniLink(spec.uniLinks[i].from, spec.uniLinks[i].to);
      }
    }
    assert spec.uniLinks[..|spec.uniLinks|] == spec.uniLinks;
  }

  /** Apply: install every non-empty block list, in whatever order the map yields them. */
  method Apply(spec: AccessSpec) returns (rules: RuleSet, table: TransparentTable)
    ensures fresh(rules) && rules.rules == NonEmpty(spec.blocked)
    ensures table.Valid() && fresh(table) && fresh(table.ports) && table.byFlow == map[]
    ensures table.View() == TableFor(spec.transparent)
  {
    rules := new RuleSet();
    var todo := spec.blocked.Keys;
    while todo != {}
      invariant fresh(rules) && todo <= spec.blocked.Keys
      invariant forall a :: a in rules.rules ==> a in NonEmpty(spec.blocked)
      invariant forall a :: a in NonEmpty(spec.blocked) && a !in todo ==>
                  a in rules.rules && rules.rules[a] == NonEmpty(spec.blocked)[a]
      invariant forall a :: a in rules.rules ==> a !in todo
      decreases todo
    {
      var a :| a in todo;
      rules.SetBlocked(a, spec.blocked[a]);
      todo := todo - {a};
    }
    table := ApplyTransparent(spec.transparent);
  }

  /** Compile and install: the rules in force are exactly the declarative block sets. */
  method Install(peers: seq<Peer>, links: seq<Link>, groups: Groups, maps: Maps)
    returns (rules: RuleSet, table: TransparentTable)
    ensures rules.rules == BlockSets(peers, peers, links, groups, maps)
    ensures table.Valid() && table.View() == TableFor(TransparentSpec(ActivePairs(peers), OneWay(links)))
  {
    var spec := BuildAccessPolicySpec(peers, links, groups, maps);
    rules, table := Apply(spec);
    assert NonEmpty(spec.blocked) == AsSets(spec.blocked);
  }

  // ---------- The two planes agree on relaying ----------

  lemma {:induction false} RegisteredForeign(peers: seq<Peer>, a: Addr)
    requires forall q :: q in peers && Active(q) ==> q.ip.value != a
    ensures a !in Registered(ActivePairs(peers))
  {
    if peers != [] {
      RegisteredForeign(peers[..|peers| - 1], a);
      assert peers[|peers| - 1] in peers;
      PairsSnoc(peers);
    }
  }

  lemma RegisteredSnoc(pairs: seq<(Addr, nat)>, pair: (Addr, nat))
    requires pair.1 != 0
    ensures Registered(pairs + [pair]) == Registered(pairs)[pair.0 := pair.1]
  {
  }

  lemma PairsSnoc(peers: seq<Peer>)
    requires peers != []
    ensures var p := peers[|peers| - 1];
            var before := ActivePairs(peers[..|peers| - 1]);
            Registered(ActivePairs(peers)) ==
            if Active(p) then Registered(before)[p.ip.value := p.group] else Registered(before)
  {
    var p := peers[|peers| - 1];
    var before := ActivePairs(peers[..|peers| - 1]);
    if Active(p) {
      var pair := (p.ip.value, p.group);
      assert ActivePairs(peers) == before + [pair];
      RegisteredSnoc(before, pair);
    } else {
      assert ActivePairs(peers) == before + [] == before;
    }
  }

  lemma {:induction false} RegisteredOwn(peers: seq<Peer>, i: nat)
    requires DistinctPeers(peers) && i < |peers| && Active(peers[i])
    ensures var m := Registered(ActivePairs(peers));
            peers[i].ip.value in m && m[peers[i].ip.value] == peers[i].group
  {
    var before := peers[..|peers| - 1];
    PairsSnoc(peers);
    if i < |peers| - 1 {
      assert before[i] == peers[i];
      RegisteredOwn(before, i);
    }
  }

  lemma {:induction false} LinkedMeaning(links: seq<Link>, from: nat, to: nat)
    ensures (from in Linked(links) && to in Linked(links)[from]) <==>
            exists l :: l in links && !l.both && l.from == from && l.to == to
  {
    if links != [] {
      var before, l := links[..|links| - 1], links[|links| - 1];
      LinkedMeaning(before, from, to);
      assert links == before + [l];
    }
  }

  lemma {:induction false} OneWayMembers(links: seq<Link>)
    ensures forall l :: l in OneWay(links) <==> l in links && !l.both
  {
    if links != [] {
      OneWayMembers(links[..|links| - 1]);
      assert links == links[..|links| - 1] + [links[|links| - 1]];
    }
  }

  ghost predicate OneWayTo(links: seq<Link>, from: nat, to: nat) {
    exists l :: l in links && !l.both && l.from == from && l.to == to
  }

  ghost predicate TwoWay(links: seq<Link>, a: nat, b: nat) {
    exists l :: l in links && l.both && Joins(l, a, b)
  }

  /** The links between two groups are consistent seen from `from`: if the first one found is two-way, no
      one-way link leads to `to`; if it is one-way, a two-way link beside it is matched by a one-way link. */
  ghost predicate Consistent(links: seq<Link>, from: nat, to: nat) {
    match FindLinkBetween(from, to, links)
    case None => true
    case Some(first) =>
      if first.both then !OneWayTo(links, from, to) else TwoWay(links, from, to) ==> OneWayTo(links, from, to)
  }

  /** For any link list at all, relaying means "a one-way link leads there" exactly on consistent links. */
  lemma RelayIsOneWayLinkIff(links: seq<Link>, groups: Groups, p: Peer, q: Peer)
    requires p.group != q.group && p.group != 0 && q.group != 0
    ensures (NeedsRelay(p, q, links, groups) <==> OneWayTo(links, p.group, q.group))
            <==> Consistent(links, p.group, q.group)
  {
    AnyOpensIff(links, p.group, q.group);
    FindLinkSound(p.group, q.group, links);
    forall l | l in links && Joins(l, p.group, q.group) && (l.both || l.from == p.group)
      ensures AnyOpens(links, p.group, q.group)
    {
      assert Opens(l, p.group, q.group);
    }
  }

  /** One link per pair is always consistent. */
  lemma OnePerPairConsistent(links: seq<Link>, from: nat, to: nat)
    requires OnePerPair(links)
    ensures Consistent(links, from, to)
  {
    FindLinkSound(from, to, links);
    var found := FindLinkBetween(from, to, links);
    forall l | l in links && Joins(l, from, to)
      ensures found == Some(l)
    {
      var i :| 0 <= i < |links| && links[i] == l;
      var j :| 0 <= j < |links| && links[j] == found.value;
    }
  }

  /** With one link per pair, direct access is open inside a group by its setting, and between groups exactly if a
      two-way link joins them. */
  lemma DirectIff(links: seq<Link>, groups: Groups, p: Peer, q: Peer)
    requires OnePerPair(links) && p.group != 0 && q.group != 0
    ensures AllowDirect(p, q, links, groups) <==>
            if p.group == q.group then p.group in groups ==> groups[p.group]
            else exists l :: l in links && l.both
                             && ((l.from == p.group && l.to == q.group) || (l.from == q.group && l.to == p.group))
  {
    FindLinkSound(p.group, q.group, links);
    var found := FindLinkBetween(p.group, q.group, links);
    forall l | l in links && Joins(l, p.group, q.group)
      ensures found == Some(l)
    {
      var i :| 0 <= i < |links| && links[i] == l;
      var j :| 0 <= j < |links| && links[j] == found.value;
    }
  }

  lemma TableRelays(peers: seq<Peer>, links: seq<Link>, p: Peer, q: Peer)
    requires DistinctPeers(peers) && p in peers && q in peers && Active(p) && Active(q)
    ensures NeedsSNAT(TableFor(TransparentSpec(ActivePairs(peers), OneWay(links))), p.ip.value, q.ip.value)
            <==> p.group != q.group && OneWayTo(links, p.group, q.group)
  {
    var i :| 0 <= i < |peers| && peers[i] == p;
    var j :| 0 <= j < |peers| && peers[j] == q;
    RegisteredOwn(peers, i);
    RegisteredOwn(peers, j);
    LinkedMeaning(OneWay(links), p.group, q.group);
    OneWayMembers(links);
  }

  /** For any link list, the compiler's relay predicate and the built table's translation predicate agree on
      two active peers exactly when they share a group or the links between their groups are consistent. */
  lemma PlanesAgreeIff(peers: seq<Peer>, links: seq<Link>, groups: Groups, p: Peer, q: Peer)
    requires DistinctPeers(peers) && p in peers && q in peers && Active(p) && Active(q)
    ensures (NeedsRelay(p, q, links, groups) <==>
             NeedsSNAT(TableFor(TransparentSpec(ActivePairs(peers), OneWay(links))), p.ip.value, q.ip.value))
            <==> p.group == q.group || Consistent(links, p.group, q.group)
  {
    TableRelays(peers, links, p, q);
    if p.group != q.group {
      RelayIsOneWayLinkIff(links, groups, p, q);
    }
  }

  /** So on every link table the store can reach they select the same pairs. */
  lemma PlanesAgreeOnRelay(peers: seq<Peer>, ops: seq<LinkOp>, groups: Groups, p: Peer, q: Peer)
    requires DistinctPeers(peers) && p in peers && q in peers && Active(p) && Active(q)
    ensures var links := AppliedAll([], ops);
            NeedsRelay(p, q, links, groups) <==>
            NeedsSNAT(TableFor(TransparentSpec(ActivePairs(peers), OneWay(links))), p.ip.value, q.ip.value)
  {
    var links := AppliedAll([], ops);
    ReachableLinks([], ops);
    OnePerPairConsistent(links, p.group, q.group);
    PlanesAgreeIff(peers, links, groups, p, q);
  }

  /** An inconsistent list, which no stored table is: a two-way link found before a one-way link. */
  lemma DuplicateLinksDisagree()
    ensures var p, q := Peer(1, Some(1), 1, true), Peer(2, Some(2), 2, true);
            var links := [Link(1, 2, true), Link(1, 2, false)];
            && !Consistent(links, 1, 2) && !NeedsRelay(p, q, links, map[])
            && NeedsSNAT(TableFor(TransparentSpec(ActivePairs([p, q]), OneWay(links))), 1, 2)
  {
    var p, q := Peer(1, Some(1), 1, true), Peer(2, Some(2), 2, true);
    var links := [Link(1, 2, true), Link(1, 2, false)];
    assert FindLinkBetween(1, 2, links) == Some(links[0]);
    assert links[1] in links && OneWayTo(links, 1, 2);
    assert DistinctPeers([p, q]) && p in [p, q] && q in [p, q];
    PlanesAgreeIff([p, q], links, map[], p, q);
  }
}
