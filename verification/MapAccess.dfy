/** The three places that enforce map access: DNS, the map proxy and the block lists
    (internal/vpn/dns/lookup.go and catalog.go, internal/domain/runtime/netstate.go,
    internal/vpn/ingress/servicemap.go:81-139, internal/domain/policy/map_access.go).
    Parsing an address is a parameter: any partial function from text to addresses. */
module MapAccess {
  import opened Bytes
  import opened Filter
  import opened Policy

  type Parser = string -> Option<Addr>

  datatype WGPeer = WGPeer(id: nat, wgip: string, dnsName: string, group: nat, enabled: bool)
  /** A stored map with its allow list. */
  datatype MapDetail = MapDetail(slug: string, vip: string, allowed: seq<nat>)
  /** The runtime rule; a nil and an empty allow set are treated alike everywhere. */
  datatype MapRule = MapRule(slug: string, vip: string, allowed: set<nat>)
  datatype MapDNSEntry = MapDNSEntry(vip: string, allowed: set<nat>)
  datatype DNSCatalog = DNSCatalog(hubIP: string, peers: map<string, string>, maps: map<string, MapDNSEntry>)

  // ---------- Names ----------

  predicate IsSpace(c: char) {
    c == ' ' || '\t' <= c <= '\r'
  }

  function LowerChar(c: char): char {
    if 'A' <= c <= 'Z' then (c as int + 32) as char else c
  }

  function Lower(s: string): string {
    seq(|s|, i requires 0 <= i < |s| => LowerChar(s[i]))
  }

  function TrimLeft(s: string): string {
    if s != "" && IsSpace(s[0]) then TrimLeft(s[1..]) else s
  }

  function TrimRight(s: string): string {
    if s != "" && IsSpace(s[|s| - 1]) then TrimRight(s[..|s| - 1]) else s
  }

  /** strings.ToLower(strings.TrimSpace(s)) on ASCII text. */
  function Canonical(s: string): string {
    Lower(TrimRight(TrimLeft(s)))
  }

  predicate HasWWW(s: string) {
    |s| >= 4 && s[..4] == "www."
  }

  function DnsSlug(s: string): string {
    var c := Canonical(s);
    if HasWWW(c) then c[4..] else c
  }

  /** The name a query for raw is looked up under. */
  function QueryName(raw: string): string {
    DnsSlug(Canonical(raw))
  }

  predicate Trimmed(s: string) {
    s != "" ==> !IsSpace(s[0]) && !IsSpace(s[|s| - 1])
  }

  predicate LowerCase(s: string) {
    forall i :: 0 <= i < |s| ==> LowerChar(s[i]) == s[i]
  }

  lemma {:induction false} TrimLeftDone(s: string)
    ensures var t := TrimLeft(s);
            && (t != "" ==> !IsSpace(t[0]))
            && (t == s <==> (s != "" ==> !IsSpace(s[0])))
            && |t| <= |s|
  {
    if s != "" && IsSpace(s[0]) {
      TrimLeftDone(s[1..]);
    }
  }

  lemma {:induction false} TrimRightDone(s: string)
    ensures var t := TrimRight(s);
            && (t != "" ==> !IsSpace(t[|t| - 1]))
            && (t == s <==> (s != "" ==> !IsSpace(s[|s| - 1])))
            && |t| <= |s| && t == s[..|t|]
  {
    if s != "" && IsSpace(s[|s| - 1]) {
      TrimRightDone(s[..|s| - 1]);
    }
  }

  /** A canonical name is one without outer blanks or capitals. */
  lemma CanonicalIff(s: string)
    ensures Trimmed(Canonical(s)) && LowerCase(Canonical(s))
    ensures Canonical(s) == s <==> Trimmed(s) && LowerCase(s)
  {
    var l := TrimLeft(s);
    TrimLeftDone(s);
    TrimRightDone(l);
    var c := Canonical(s);
    assert |c| == |TrimRight(l)| <= |l| <= |s|;
    if c == s {
      assert |l| == |s| && TrimRight(l) == l;
      TrimLeftLength(s);
      forall i | 0 <= i < |s|
        ensures LowerChar(s[i]) == s[i]
      {
        assert c[i] == LowerChar(s[i]);
      }
    }
    if Trimmed(s) && LowerCase(s) {
      assert l == s && TrimRight(l) == s;
    }
  }

  predicate Blank(s: string) {
    forall i :: 0 <= i < |s| ==> s[i] == ' ' || 9 <= s[i] as int <= 13
  }

  lemma {:induction false} TrimLeftBlank(pre: string, s: string)
    requires Blank(pre) && s != "" && !IsSpace(s[0])
    ensures TrimLeft(pre + s) == s
  {
    if pre == "" {
      assert pre + s == s;
    } else {
      assert (pre + s)[1..] == pre[1..] + s;
      TrimLeftBlank(pre[1..], s);
    }
  }

  lemma {:induction false} TrimRightBlank(s: string, post: string)
    requires Blank(post) && s != "" && !IsSpace(s[|s| - 1])
    ensures TrimRight(s + post) == s
  {
    if post == "" {
      assert s + post == s;
    } else {
      var front := post[..|post| - 1];
      assert (s + post)[..|s + post| - 1] == s + front && (s + post)[|s + post| - 1] == post[|post| - 1];
      TrimRightBlank(s, front);
    }
  }

  /** Blanks around a name do not count, and capitals count as small letters, one by one. */
  lemma CanonicalMeaning(pre: string, s: string, post: string)
    requires Blank(pre) && Blank(post) && s != "" && Trimmed(s)
    ensures var c := Canonical(pre + s + post);
            && |c| == |s|
            && forall i :: 0 <= i < |s| ==> c[i] == if 'A' <= s[i] <= 'Z' then (s[i] as int + 32) as char else s[i]
  {
    assert pre + s + post == pre + (s + post);
    TrimLeftBlank(pre, s + post);
    TrimRightBlank(s, post);
  }

  lemma TrimLeftLength(s: string)
    ensures |TrimLeft(s)| == |s| ==> TrimLeft(s) == s
  {
    if s != "" && IsSpace(s[0]) {
      TrimLeftDone(s[1..]);
    }
  }

  /** A query reaches a slug exactly by the slug or its www. alias, up to case and outer blanks. */
  lemma QueryReaches(raw: string, slug: string)
    requires Trimmed(slug) && LowerCase(slug) && slug != ""
    ensures QueryName(raw) == slug
            <==> (Canonical(raw) == slug && !HasWWW(slug)) || Canonical(raw) == "www." + slug
  {
    var c := Canonical(raw);
    CanonicalIff(raw);
    CanonicalIff(c);
    assert HasWWW(c) ==> c == "www." + c[4..];
    assert HasWWW("www." + slug) && ("www." + slug)[4..] == slug;
  }

  /** Both spellings of a slug reach it; a slug that itself starts with www. hides its own name. */
  lemma OwnNames(slug: string)
    requires Trimmed(slug) && LowerCase(slug) && slug != ""
    ensures QueryName("www." + slug) == slug
    ensures QueryName(slug) == slug <==> !HasWWW(slug)
  {
    var alias := "www." + slug;
    assert Trimmed(alias) && LowerCase(alias);
    CanonicalIff(alias);
    CanonicalIff(slug);
    QueryReaches(alias, slug);
    QueryReaches(slug, slug);
    assert alias != slug;
  }

  // ---------- Stored slugs ----------

  predicate IsLabelChar(c: char) {
    'a' <= c <= 'z' || '0' <= c <= '9' || c == '-'
  }

  predicate IsLabel(s: string) {
    s != "" && forall i :: 0 <= i < |s| ==> IsLabelChar(s[i])
  }

  /** Every stored slug is reached by its own name and by its www. alias. */
  lemma LabelNames(slug: string)
    requires IsLabel(slug)
    ensures QueryName(slug) == slug && QueryName("www." + slug) == slug
  {
    OwnNames(slug);
    assert |slug| >= 4 ==> IsLabelChar(slug[3]) && slug[..4][3] == slug[3];
  }

  function Dashed(s: string): string {
    seq(|s|, i requires 0 <= i < |s| => if s[i] == ' ' then '-' else s[i])
  }

  function Kept(s: string): string {
    if s == "" then "" else Kept(s[..|s| - 1]) + (if IsLabelChar(s[|s| - 1]) then [s[|s| - 1]] else "")
  }

  /** HostnameSlug, which names every stored map and peer: the result is a label, and labels are kept. */
  method HostnameSlug(name: string) returns (slug: string)
    ensures IsLabel(slug)
    ensures slug == if Kept(Dashed(Canonical(name))) == "" then "host" else Kept(Dashed(Canonical(name)))
    ensures IsLabel(name) ==> slug == name
  {
    var text := Dashed(Canonical(name));
    slug := "";
    for i := 0 to |text|
      invariant slug == Kept(text[..i])
      invariant forall k :: 0 <= k < |slug| ==> IsLabelChar(slug[k])
    {
      assert text[..i + 1][..i] == text[..i];
      if IsLabelChar(text[i]) {
        slug := slug + [text[i]];
      }
    }
    assert text[..|text|] == text;
    if IsLabel(name) {
      CanonicalIff(name);
      assert text == name;
      KeptLabel(name);
    }
    if slug == "" {
      slug := "host";
    }
  }

  lemma {:induction false} KeptLabel(s: string)
    requires forall i :: 0 <= i < |s| ==> IsLabelChar(s[i])
    ensures Kept(s) == s
  {
    if s != "" {
      KeptLabel(s[..|s| - 1]);
      assert s == s[..|s| - 1] + [s[|s| - 1]];
    }
  }

  // ---------- Tables in which a later row replaces an earlier one ----------

  function Tabulate<R, K(!new), V(!new)>(rows: seq<R>, f: R -> Option<(K, V)>): map<K, V> {
    if rows == [] then map[]
    else
      var before := Tabulate(rows[..|rows| - 1], f);
      match f(rows[|rows| - 1])
      case None => before
      case Some(entry) => before[entry.0 := entry.1]
  }

  lemma {:induction false} TabulateHas<R, K(!new), V(!new)>(rows: seq<R>, f: R -> Option<(K, V)>, i: nat)
    requires i < |rows| && f(rows[i]).Some?
    requires forall j :: i < j < |rows| && f(rows[j]).Some? ==> f(rows[j]).value.0 != f(rows[i]).value.0
    ensures var (k, v) := f(rows[i]).value; k in Tabulate(rows, f) && Tabulate(rows, f)[k] == v
  {
    var before := rows[..|rows| - 1];
    if i < |rows| - 1 {
      assert before[i] == rows[i];
      TabulateHas(before, f, i);
    }
  }

  /** Whatever is found comes from a row. */
  lemma {:induction false} TabulateFrom<R, K(!new), V(!new)>(rows: seq<R>, f: R -> Option<(K, V)>, k: K)
    ensures k in Tabulate(rows, f) ==>
              exists i :: 0 <= i < |rows| && f(rows[i]) == Some((k, Tabulate(rows, f)[k]))
  {
    if rows != [] {
      var before := rows[..|rows| - 1];
      TabulateFrom(before, f, k);
      if i :| 0 <= i < |before| && k in Tabulate(before, f) && f(before[i]) == Some((k, Tabulate(before, f)[k])) {
        assert rows[i] == before[i];
      }
    }
  }

  // ---------- Building the tables ----------

  function Nonzero(ids: seq<nat>): set<nat> {
    set id | id in ids && id != 0
  }

  method AllowedGroupIDSet(ids: seq<nat>) returns (out: set<nat>)
    ensures out == Nonzero(ids)
  {
    out := {};
    for i := 0 to |ids|
      invariant out == Nonzero(ids[..i])
    {
      assert ids[..i + 1] == ids[..i] + [ids[i]];
      if ids[i] != 0 {
        out := out + {ids[i]};
      }
    }
    assert ids[..|ids|] == ids;
  }

  predicate GroupInAllowedSet(allowed: set<nat>, group: nat) {
    group != 0 && |allowed| != 0 && group in allowed
  }

  function PeerGroupRow(parse: Parser): WGPeer -> Option<(Addr, nat)> {
    (p: WGPeer) =>
      if p.enabled && p.group != 0 && parse(p.wgip).Some? then Some((parse(p.wgip).value, p.group)) else None
  }

  /** Address to group, as DNS and the map proxy both keep it. */
  function PeerGroups(parse: Parser, peers: seq<WGPeer>): map<Addr, nat> {
    Tabulate(peers, PeerGroupRow(parse))
  }

  method BuildPeerGroups(parse: Parser, peers: seq<WGPeer>) returns (pg: map<Addr, nat>)
    ensures pg == PeerGroups(parse, peers)
  {
    pg := map[];
    for i := 0 to |peers|
      invariant pg == PeerGroups(parse, peers[..i])
    {
      assert peers[..i + 1][..i] == peers[..i];
      var p := peers[i];
      if p.enabled && p.group != 0 {
        var ip := parse(p.wgip);
        if ip.Some? {
          pg := pg[ip.value := p.group];
        }
      }
    }
    assert peers[..|peers|] == peers;
  }

  function DetailRule(d: MapDetail): MapRule {
    MapRule(d.slug, d.vip, Nonzero(d.allowed))
  }

  function DnsPeerRow(p: WGPeer): Option<(string, string)> {
    var slug := if p.dnsName == "" then p.wgip else p.dnsName;
    if p.enabled && slug != "" && p.wgip != "" then Some((slug, p.wgip)) else None
  }

  function DnsMapRow(m: MapRule): Option<(string, MapDNSEntry)> {
    if m.slug == "" || m.vip == "" then None else Some((m.slug, MapDNSEntry(m.vip, m.allowed)))
  }

  function Catalog(hubIP: string, peers: seq<WGPeer>, maps: seq<MapRule>): DNSCatalog {
    DNSCatalog(hubIP, Tabulate(peers, DnsPeerRow), Tabulate(maps, DnsMapRow))
  }

  method BuildDNSCatalog(hubIP: string, peers: seq<WGPeer>, maps: seq<MapRule>) returns (c: DNSCatalog)
    ensures c == Catalog(hubIP, peers, maps)
  {
    var names: map<string, string> := map[];
    for i := 0 to |peers|
      invariant names == Tabulate(peers[..i], DnsPeerRow)
    {
      assert peers[..i + 1][..i] == peers[..i];
      var p := peers[i];
      if p.enabled {
        var slug := p.dnsName;
        if slug == "" {
          slug := p.wgip;
        }
        if slug != "" && p.wgip != "" {
          names := names[slug := p.wgip];
        }
      }
    }
    var entries: map<string, MapDNSEntry> := map[];
    for i := 0 to |maps|
      invariant entries == Tabulate(maps[..i], DnsMapRow)
    {
      assert maps[..i + 1][..i] == maps[..i];
      var m := maps[i];
      if !(m.slug == "" || m.vip == "") {
        entries := entries[m.slug := MapDNSEntry(m.vip, m.allowed)];
      }
    }
    assert peers[..|peers|] == peers && maps[..|maps|] == maps;
    c := DNSCatalog(hubIP, names, entries);
  }

  function ProxyRow(parse: Parser): MapRule -> Option<(Addr, MapRule)> {
    (r: MapRule) => if parse(r.vip).Some? then Some((parse(r.vip).value, r)) else None
  }

  /** The rules of the map proxy by VIP. */
  function ProxyRules(parse: Parser, rules: seq<MapRule>): map<Addr, MapRule> {
    Tabulate(rules, ProxyRow(parse))
  }

  method BuildProxyRules(parse: Parser, rules: seq<MapRule>) returns (byVIP: map<Addr, MapRule>)
    ensures byVIP == ProxyRules(parse, rules)
  {
    byVIP := map[];
    for i := 0 to |rules|
      invariant byVIP == ProxyRules(parse, rules[..i])
    {
      assert rules[..i + 1][..i] == rules[..i];
      var vip := parse(rules[i].vip);
      if vip.Some? {
        byVIP := byVIP[vip.value := rules[i]];
      }
    }
    assert rules[..|rules|] == rules;
  }

  function AccessRow(parse: Parser): MapDetail -> Option<(Addr, set<nat>)> {
    (d: MapDetail) => if parse(d.vip).Some? then Some((parse(d.vip).value, Nonzero(d.allowed))) else None
  }

  function AccessMaps(parse: Parser, details: seq<MapDetail>): Maps {
    Tabulate(details, AccessRow(parse))
  }

  method NewMapAccessPolicy(parse: Parser, details: seq<MapDetail>) returns (byVIP: Maps)
    ensures byVIP == AccessMaps(parse, details)
  {
    byVIP := map[];
    for i := 0 to |details|
      invariant byVIP == AccessMaps(parse, details[..i])
    {
      assert details[..i + 1][..i] == details[..i];
      var vip := parse(details[i].vip);
      var allowed := AllowedGroupIDSet(details[i].allowed);
      if vip.Some? {
        byVIP := byVIP[vip.value := allowed];
      }
    }
    assert details[..|details|] == details;
  }

  // ---------- The three checks ----------

  class CatalogStore {
    var catalog: DNSCatalog
    var peerGroup: map<Addr, nat>

    constructor ()
      ensures catalog == DNSCatalog("", map[], map[]) && peerGroup == map[]
    {
      catalog := DNSCatalog("", map[], map[]);
      peerGroup := map[];
    }

    method Update(parse: Parser, next: DNSCatalog, peers: seq<WGPeer>)
      modifies this
      ensures catalog == next && peerGroup == PeerGroups(parse, peers)
    {
      var pg := BuildPeerGroups(parse, peers);
      catalog := next;
      peerGroup := pg;
    }
  }

  /** lookupIPForClient on a snapshot; client is None for a query without a usable source address. */
  function LookupIPForClient(catalog: DNSCatalog, peerGroup: map<Addr, nat>, raw: string, ok: bool,
                             client: Option<Addr>): Option<string>
  {
    if !ok then None
    else
      var slug := QueryName(raw);
      if slug == "hub" then (if catalog.hubIP != "" then Some(catalog.hubIP) else None)
      else if slug in catalog.maps then
        var ent := catalog.maps[slug];
        if client.Some? && !(client.value in peerGroup && GroupInAllowedSet(ent.allowed, peerGroup[client.value]))
        then None
        else Some(ent.vip)
      else if slug in catalog.peers then Some(catalog.peers[slug])
      else None
  }

  /** peerAllowed for the rule the proxy holds for vip. */
  predicate PeerAllowed(rules: map<Addr, MapRule>, peerGroup: map<Addr, nat>, vip: Addr, client: Addr) {
    && vip in rules && |rules[vip].allowed| != 0
    && client in peerGroup && GroupInAllowedSet(rules[vip].allowed, peerGroup[client])
  }

  // ---------- They agree ----------

  /** The peers as the policy compiler sees them. */
  function Endpoint(parse: Parser, p: WGPeer): Peer {
    Peer(p.id, parse(p.wgip), p.group, p.enabled)
  }

  function Endpoints(parse: Parser, peers: seq<WGPeer>): seq<Peer> {
    seq(|peers|, i requires 0 <= i < |peers| => Endpoint(parse, peers[i]))
  }

  function RulesOf(details: seq<MapDetail>): seq<MapRule> {
    seq(|details|, i requires 0 <= i < |details| => DetailRule(details[i]))
  }

  /** Slugs and VIPs identify their maps. */
  ghost predicate DistinctMaps(parse: Parser, details: seq<MapDetail>) {
    forall i, j :: 0 <= i < j < |details| ==>
      details[i].slug != details[j].slug
      && (parse(details[i].vip).Some? && parse(details[j].vip).Some? ==> parse(details[i].vip) != parse(details[j].vip))
  }

  lemma GroupFound(parse: Parser, peers: seq<WGPeer>, i: nat)
    requires DistinctPeers(Endpoints(parse, peers)) && i < |peers| && Active(Endpoint(parse, peers[i]))
    ensures var ip := parse(peers[i].wgip).value;
            ip in PeerGroups(parse, peers) && PeerGroups(parse, peers)[ip] == peers[i].group
  {
    var es, row := Endpoints(parse, peers), PeerGroupRow(parse);
    forall j | i < j < |peers| && row(peers[j]).Some?
      ensures row(peers[j]).value.0 != row(peers[i]).value.0
    {
      assert es[i].id != es[j].id;
    }
    TabulateHas(peers, row, i);
  }

  lemma DnsEntryFound(parse: Parser, details: seq<MapDetail>, i: nat)
    requires DistinctMaps(parse, details) && i < |details| && details[i].slug != "" && details[i].vip != ""
    ensures var maps := Tabulate(RulesOf(details), DnsMapRow);
            details[i].slug in maps
            && maps[details[i].slug] == MapDNSEntry(details[i].vip, Nonzero(details[i].allowed))
  {
    TabulateHas(RulesOf(details), DnsMapRow, i);
  }

  lemma ProxyRuleFound(parse: Parser, details: seq<MapDetail>, i: nat)
    requires DistinctMaps(parse, details) && i < |details| && parse(details[i].vip).Some?
    ensures var rules, vip := ProxyRules(parse, RulesOf(details)), parse(details[i].vip).value;
            vip in rules && rules[vip] == DetailRule(details[i])
  {
    TabulateHas(RulesOf(details), ProxyRow(parse), i);
  }

  lemma AccessFound(parse: Parser, details: seq<MapDetail>, i: nat)
    requires DistinctMaps(parse, details) && i < |details| && parse(details[i].vip).Some?
    ensures var maps, vip := AccessMaps(parse, details), parse(details[i].vip).value;
            vip in maps && maps[vip] == Nonzero(details[i].allowed)
  {
    TabulateHas(details, AccessRow(parse), i);
  }

  lemma AllowListDecides(allowed: seq<nat>, group: nat)
    requires group != 0
    ensures GroupInAllowedSet(Nonzero(allowed), group) <==> group in allowed
    ensures group in allowed ==> |Nonzero(allowed)| != 0
  {
    assert group in allowed <==> group in Nonzero(allowed);
  }

  /** DNS answers a map's name with its VIP exactly for clients whose group is on the allow list,
      and with nothing else for the others. */
  lemma DnsDecides(parse: Parser, hubIP: string, peers: seq<WGPeer>, details: seq<MapDetail>,
                   i: nat, d: nat, raw: string)
    requires DistinctPeers(Endpoints(parse, peers)) && DistinctMaps(parse, details)
    requires i < |peers| && Active(Endpoint(parse, peers[i]))
    requires d < |details| && details[d].slug !in {"", "hub"} && details[d].vip != ""
    requires QueryName(raw) == details[d].slug
    ensures LookupIPForClient(Catalog(hubIP, peers, RulesOf(details)), PeerGroups(parse, peers),
                              raw, true, parse(peers[i].wgip))
            == if peers[i].group in details[d].allowed then Some(details[d].vip) else None
  {
    GroupFound(parse, peers, i);
    DnsEntryFound(parse, details, d);
    AllowListDecides(details[d].allowed, peers[i].group);
  }

  /** The name a peer is looked up under. */
  function PeerName(p: WGPeer): string {
    if p.dnsName == "" then p.wgip else p.dnsName
  }

  /** The hub's name is the hub's, whatever maps and peers are called. */
  lemma HubAnswers(hubIP: string, peers: seq<WGPeer>, rules: seq<MapRule>, pg: map<Addr, nat>,
                   raw: string, client: Option<Addr>)
    requires QueryName(raw) == "hub"
    ensures LookupIPForClient(Catalog(hubIP, peers, rules), pg, raw, true, client)
            == if hubIP == "" then None else Some(hubIP)
  {
  }

  /** A query whose source is unknown gets a map's VIP without a check. */
  lemma UnknownClientAnswers(parse: Parser, hubIP: string, peers: seq<WGPeer>, details: seq<MapDetail>,
                             pg: map<Addr, nat>, d: nat, raw: string)
    requires DistinctMaps(parse, details) && d < |details| && details[d].slug !in {"", "hub"} && details[d].vip != ""
    requires QueryName(raw) == details[d].slug
    ensures LookupIPForClient(Catalog(hubIP, peers, RulesOf(details)), pg, raw, true, None) == Some(details[d].vip)
  {
    DnsEntryFound(parse, details, d);
  }

  /** A name that is no map's is answered, to anyone, with the address of the enabled peer that has it. */
  lemma PeerAnswers(hubIP: string, peers: seq<WGPeer>, rules: seq<MapRule>, pg: map<Addr, nat>,
                    i: nat, raw: string, client: Option<Addr>)
    requires i < |peers| && peers[i].enabled && peers[i].wgip != "" && QueryName(raw) == PeerName(peers[i])
    requires QueryName(raw) !in {"", "hub"} && forall m :: m in rules ==> m.slug != QueryName(raw)
    requires forall j :: i < j < |peers| && peers[j].enabled ==> PeerName(peers[j]) != QueryName(raw)
    ensures LookupIPForClient(Catalog(hubIP, peers, rules), pg, raw, true, client) == Some(peers[i].wgip)
  {
    TabulateFrom(rules, DnsMapRow, QueryName(raw));
    TabulateHas(peers, DnsPeerRow, i);
  }

  /** A name nobody has gets no answer. */
  lemma NobodyAnswers(hubIP: string, peers: seq<WGPeer>, rules: seq<MapRule>, pg: map<Addr, nat>,
                      raw: string, client: Option<Addr>)
    requires QueryName(raw) != "hub" && forall m :: m in rules ==> m.slug != QueryName(raw)
    requires forall p :: p in peers && p.enabled ==> PeerName(p) != QueryName(raw)
    ensures LookupIPForClient(Catalog(hubIP, peers, rules), pg, raw, true, client) == None
  {
    TabulateFrom(rules, DnsMapRow, QueryName(raw));
    TabulateFrom(peers, DnsPeerRow, QueryName(raw));
  }

  lemma ProxyDecides(parse: Parser, peers: seq<WGPeer>, details: seq<MapDetail>, i: nat, d: nat)
    requires DistinctPeers(Endpoints(parse, peers)) && DistinctMaps(parse, details)
    requires i < |peers| && Active(Endpoint(parse, peers[i]))
    requires d < |details| && parse(details[d].vip).Some?
    ensures PeerAllowed(ProxyRules(parse, RulesOf(details)), PeerGroups(parse, peers),
                        parse(details[d].vip).value, parse(peers[i].wgip).value)
            <==> peers[i].group in details[d].allowed
  {
    GroupFound(parse, peers, i);
    ProxyRuleFound(parse, details, d);
    AllowListDecides(details[d].allowed, peers[i].group);
  }

  /** The block sets compiled for the peers and maps of a bundle. */
  function Compiled(parse: Parser, peers: seq<WGPeer>, details: seq<MapDetail>,
                    links: seq<Link>, groups: Groups): Rules
  {
    BlockSets(Endpoints(parse, peers), Endpoints(parse, peers), links, groups, AccessMaps(parse, details))
  }

  lemma BlocksDecide(parse: Parser, peers: seq<WGPeer>, details: seq<MapDetail>,
                     links: seq<Link>, groups: Groups, i: nat, d: nat)
    requires DistinctPeers(Endpoints(parse, peers)) && VIPsApart(Endpoints(parse, peers), AccessMaps(parse, details))
    requires DistinctMaps(parse, details)
    requires i < |peers| && Active(Endpoint(parse, peers[i]))
    requires d < |details| && parse(details[d].vip).Some?
    ensures CanAccess(Compiled(parse, peers, details, links, groups),
                      parse(peers[i].wgip).value, parse(details[d].vip).value)
            <==> peers[i].group in details[d].allowed
  {
    var es := Endpoints(parse, peers);
    assert es[i] in es;
    AccessFound(parse, details, d);
    CompiledMapMeaning(es, links, groups, AccessMaps(parse, details), es[i], parse(details[d].vip).value);
    AllowListDecides(details[d].allowed, peers[i].group);
  }

  /** DNS, the map proxy and the block lists decide map access alike: by the allow list. */
  lemma EnforcementAgrees(parse: Parser, hubIP: string, peers: seq<WGPeer>, details: seq<MapDetail>,
                          links: seq<Link>, groups: Groups, i: nat, d: nat, raw: string)
    requires DistinctPeers(Endpoints(parse, peers)) && VIPsApart(Endpoints(parse, peers), AccessMaps(parse, details))
    requires DistinctMaps(parse, details)
    requires i < |peers| && Active(Endpoint(parse, peers[i]))
    requires d < |details| && details[d].slug !in {"", "hub"} && details[d].vip != "" && parse(details[d].vip).Some?
    requires QueryName(raw) == details[d].slug
    ensures var client, vip := parse(peers[i].wgip), parse(details[d].vip);
            var pg, rules := PeerGroups(parse, peers), RulesOf(details);
            var answer := LookupIPForClient(Catalog(hubIP, peers, rules), pg, raw, true, client);
            && (answer == Some(details[d].vip) <==> PeerAllowed(ProxyRules(parse, rules), pg, vip.value, client.value))
            && (answer == Some(details[d].vip)
                <==> CanAccess(Compiled(parse, peers, details, links, groups), client.value, vip.value))
            && (answer == Some(details[d].vip) <==> peers[i].group in details[d].allowed)
  {
    DnsDecides(parse, hubIP, peers, details, i, d, raw);
    ProxyDecides(parse, peers, details, i, d);
    BlocksDecide(parse, peers, details, links, groups, i, d);
  }
}
