# WireHub data plane and control plane, modelled in Dafny

WireHub is a WireGuard hub. Its data plane is a small stateful router: a filter with connection
tracking, a port-translating NAT, a proxy for service maps. Its control plane stores groups, links,
peers and maps, hands out addresses, and compiles group policy into block lists and relay links.
This project models that core and proves what it is for: statements about every run, every
interleaving, every packet or every stored state.

Layout, from the bytes up:

| file | what it models |
|---|---|
| `Bytes.dfy`, `Checksum.dfy`, `Packet.dfy`, `Wire.dfy` | big-endian fields, the Internet checksum, parsing and in-place rewriting, and what they mean in bytes on the wire |
| `Nat.dfy`, `TransparentTable.dfy` | the SNAT table as a value with its runs, and as mutable objects refining it |
| `Filter.dfy`, `Tun.dfy` | rule sets, connection tracking, the TUN wrapper and end-to-end isolation |
| `Policy.dfy`, `GroupLinks.dfy`, `MapAccess.dfy` | the policy compiler, the link store, and the three places that enforce map access |
| `MapProxy.dfy`, `StatusPoller.dfy`, `StackLifecycle.dfy` | concurrent protocols as state machines, one atomic step per locked region |
| `Allocator.dfy`, `AddressStore.dfy`, `Migration.dfy` | address arithmetic, address uniqueness over runs, allow-list order |
| `Limiter.dfy`, `LimiterCleanup.dfy`, `LoginRateLimiter.dfy` | the login token bucket, its runs, and what its cleanup leaves visible |

Conventions. Addresses are 32-bit numbers; an address text that does not parse is `None`, or parsing is
a parameter. Time is an argument. Random draws are a function argument of the step that uses them. Map
iteration picks keys in any order. Token amounts are exact reals. A theorem about runs quantifies over
every sequence of steps the guards allow.

Results where a natural expectation is false of the code, each with the exact condition under which it holds
and, where the failing case is reachable, a run that reaches it:

- The 32-bit checksum accumulator is exact for every input of a length if and only if that length is at most 131074 bytes (`Checksum.AccumulatorFits`).
- Reserving ports does not evict: sessions keep clear of reserved ports if and only if none of the newly listed ports is live (`Nat.ReserveKeepsIff`, `Nat.ReservingLivePortHappens`).
- Isolation of two peers is about packets as they arrive. What Write hands on reads a to b if and only if a sent the packet to the hub port of a live session of b, since return translation looks at the port alone (`Tun.HandedOnIff`, `Tun.RunHandsOnIff`).
- The two planes agree on relaying between two groups if and only if the links between them are consistent (`GroupLinks.PlanesAgreeIff`). Stored link tables always are; a list with parallel links need not be (`GroupLinks.DuplicateLinksDisagree`).
- A completion of an old generation is inert except in the window between the generation step of Apply or Stop and the closing of the sessions, where it still installs; the closing then removes it (`MapProxy.CompletionIff`, `MapProxy.WindowInstalls`, `MapProxy.WindowInstallIsRemoved`).
- `SetPeerGroups`, which has no caller outside tests, closes nothing: afterwards every entry is allowed if and only if the new lookup keeps every client that has an entry in an allowed group (`MapProxy.RegroupingIff`, `MapProxy.RegroupingLeavesSession`).
- The store alone does not keep peer addresses and VIPs apart: a write collides if and only if its row is gone and the other table has been given its address (`AddressStore.StepUniqueIff`, `AddressStore.SaveAfterDeleteCollides`). With every call under `controlMu` it never does (`AddressStore.ServiceKeepsUnique`).
- Limiter cleanup is unobservable if and only if the capacity is below one token, or StaleTTL + 1ns is at least the refill period plus the time by which clock readings may be out of order (`LimiterCleanup.CleanupInvisibleIff`).
- Counted from the refused call, Retry-After is right if and only if the call's clock reading is not behind the entry's last refill (`Limiter.RetryAfterIff`). With a capacity below one token nobody is ever admitted (`Limiter.TooSmallNeverAdmits`).
- A name that starts with `www.` would hide itself (`MapAccess.OwnNames`); stored names are labels without dots, and those are always reached by both names (`MapAccess.LabelNames`).

## Model

| member | source | states |
|---|---|---|
| `Checksum.FoldedMod` | internal/vpn/snat/packet.go:102-104 | folding keeps the value modulo 65535 and yields 0 only for 0 |
| `Checksum.FoldStep` | internal/vpn/snat/packet.go:102-104 | one round of the fold loop keeps the folded value of every positive sum |
| `Checksum.FoldedIsOnesSum` | internal/vpn/snat/packet.go:94-106 | summing first and folding once equals word-by-word ones'-complement addition, odd lengths included (section 1 of RFC 1071) |
| `Checksum.AccumulatorFits` | internal/vpn/snat/packet.go:94-101 | no input of length n overflows the uint32 sum if and only if n is at most 131074 |
| `Checksum.WordSumPut` | internal/vpn/snat/packet.go:60-65 | replacing an aligned word moves the word sum by exactly the difference |
| `Checksum.StoredChecksumVerifies` | internal/vpn/snat/packet.go:60-92 | storing the checksum in the zeroed field makes the ones'-complement sum 0xFFFF |
| `Checksum.Accumulate` | internal/vpn/snat/packet.go:94-101 | the wrapping loop yields the word sum modulo 2^32, for every length |
| `Checksum.IpChecksum` | internal/vpn/snat/packet.go:94-106 | the fold loop terminates with the complement of the folded, wrapped sum |
| `Checksum.PseudoChecksum` | internal/vpn/snat/packet.go:108-116 | the checksum of pseudo-header plus segment, with the 16-bit length truncation |
| `Checksum.PseudoHeaderFields` | internal/vpn/snat/packet.go:108-116 | source, destination, zero, protocol and length stand where the receiver expects them |
| `Packet.Rewritten` | internal/vpn/snat/packet.go:47-58 | the rewritten packet parses to the new endpoints and differs only in address and port bytes |
| `Packet.RewriteEndpoints` | internal/vpn/snat/packet.go:47-58 | the in-place writes leave exactly the rewritten packet |
| `Packet.HeaderFixedValid` | internal/vpn/snat/packet.go:60-65 | after the header fix the header sums to 0xFFFF |
| `Packet.FixIPv4Checksum` | internal/vpn/snat/packet.go:60-65 | the in-place header fix leaves exactly the fixed packet |
| `Packet.SegmentFixedValid` | internal/vpn/snat/packet.go:67-92 | after the segment fix the packet's addresses, protocol and segment length followed by the segment sum to 0xFFFF |
| `Packet.SummedIsReceived` | internal/vpn/snat/packet.go:108-116 | the bytes the code sums are the bytes the receiver sums |
| `Packet.FixTransportChecksum` | internal/vpn/snat/packet.go:67-92 | the in-place segment fix, with its early returns for short segments |
| `Packet.TranslationParses` | internal/vpn/snat/packet.go:13-92 | a translated well-formed packet stays well-formed, parses to the new endpoints and keeps every other byte |
| `Packet.TranslationVerifies` | internal/vpn/snat/packet.go:47-116 | both checksums of every translated well-formed packet verify over the bytes the receiver sums |
| `Packet.TranslationComposes` | internal/vpn/snat/packet.go:47-92 | a second translation erases the first: there and back equals one translation to the final endpoints |
| `Wire.ParsedOnWire` | internal/vpn/snat/packet.go:13-45 | which byte strings parse, and to which big-endian fields |
| `Wire.EndpointsOnWire` | internal/vpn/snat/packet.go:47-58 | the translated bytes spell the new addresses and ports |
| `Wire.RestOnWire` | internal/vpn/snat/packet.go:47-92 | no byte outside checksums, addresses and ports differs |
| `Wire.ChecksumsOnWire` | internal/vpn/snat/packet.go:60-116 | header bytes, and address, protocol, length and segment bytes, sum to all ones, odd lengths included |
| `Wire.AllOnesIff` | internal/vpn/snat/packet.go:94-106 | a sum is all ones if and only if the words add up to a positive multiple of 65535 |
| `Nat.PickFrom` | internal/vpn/snat/ports.go:42-60 | a picked port lies in 20000..65000 and was free |
| `Nat.PickFailsIff` | internal/vpn/snat/ports.go:42-60 | picking fails if and only if all draws before the first failed one, or all 256, hit taken ports |
| `Nat.CollectAgrees` | internal/vpn/snat/transparent.go:150-158 | collection keeps both indexes and the pool in agreement and keeps exactly the sessions within the idle limit |
| `Nat.StepAgrees` | internal/vpn/snat/transparent.go:73-158 | every operation keeps the two indexes inverse views, the pool equal to the port index, and ports in range |
| `Nat.RunAgrees` | internal/vpn/snat/transparent.go:73-158 | so does every run, and live sessions never exceed 45001 |
| `Nat.DistinctPorts` | internal/vpn/snat/transparent.go:128-141 | distinct live flows, even of different protocols, hold distinct hub ports |
| `Nat.EgressIff` | internal/vpn/snat/transparent.go:119-148 | a packet leaves translated if and only if the hub is known, a one-way link leads to the receiver's group and its flow is open or a port can be picked; else nothing changes |
| `Nat.IngressIff` | internal/vpn/snat/transparent.go:96-116 | a packet arrives translated if and only if it is addressed to the hub at some session's port, whatever its source and protocol; else nothing changes |
| `Nat.FlowsKeepApart` | internal/vpn/snat/transparent.go:128-141 | packets that differ in an endpoint or the protocol never leave from the same hub port while the first one's session lasts |
| `Nat.TrafficAvoidsReserved` | internal/vpn/snat/ports.go:42-60 | no run of traffic and resets puts a session on a reserved port |
| `Nat.ReserveKeepsIff` | internal/vpn/snat/ports.go:34-40 | a later reservation keeps sessions clear of reserved ports if and only if no listed port is live |
| `Nat.ReservingLivePort` | internal/vpn/snat/ports.go:34-40 | reserving the port a relayed packet has just been given always breaks that |
| `Nat.ReservingLivePortHappens` | internal/vpn/snat/transparent.go:67-71 | a run from a table without sessions in which it happens |
| `Nat.SessionKeptIff` | internal/vpn/snat/transparent.go:96-158 | a session is in the table after every prefix of a run, on the same port, if and only if no reset and no late collection interrupts it |
| `Nat.RoundTrip` | internal/vpn/snat/transparent.go:96-158 | after any uninterrupted run the reply to what the server saw becomes the reply to what the client sent, and the flow keeps its hub port |
| `Nat.PromptIsUninterrupted` | internal/vpn/snat/transparent.go:150-158 | a run of traffic within SessionIdle of the last touch is uninterrupted |
| `Nat.PacketRoundTrip` | internal/vpn/snat/transparent.go:96-148 | the round trip on bytes: the reply is delivered from server to client and port to port, with valid checksums and all other bytes as sent |
| `TransparentTables.EphemeralPortPool.ReserveHubPorts` | internal/vpn/snat/ports.go:34-40 | adds exactly the listed ports between 0 and 65535 |
| `TransparentTables.EphemeralPortPool.Pick` | internal/vpn/snat/ports.go:42-60 | the retry loop returns the first free draw and marks it in use |
| `TransparentTables.TransparentTable.ValidAgrees` | internal/vpn/snat/transparent.go:17-33 | objects shared by both indexes give agreeing abstract indexes, so every run theorem applies to the mutable table |
| `TransparentTables.TransparentTable.RegisterUniLink` | internal/vpn/snat/transparent.go:57-64 | adds one one-way link and keeps everything else |
| `TransparentTables.TransparentTable.Reset` | internal/vpn/snat/transparent.go:73-79 | forgets sessions and used ports, keeps peers, links and reservations |
| `TransparentTables.TransparentTable.ProcessIngressFromWG` | internal/vpn/snat/transparent.go:96-116 | table and packet bytes end as the pure ingress step and translation say; otherwise both are untouched |
| `TransparentTables.TransparentTable.ProcessEgressToWG` | internal/vpn/snat/transparent.go:119-148 | table and packet bytes end as the pure egress step and translation say; otherwise both are untouched |
| `TransparentTables.TransparentTable.NeedsRelay` | internal/vpn/snat/transparent.go:81-93 | the lookups decide the relay predicate of the abstract table |
| `TransparentTables.TransparentTable.CollectIdle` | internal/vpn/snat/transparent.go:150-158 | the deletion loop, in any order, removes exactly the expired sessions from both indexes and the pool |
| `Filter.StepFlow` | internal/vpn/tun/tun.go:99-135 | what one event can do to one flow's cache entry |
| `Filter.RunRemembers` | internal/vpn/tun/conntrack.go:27-62 | over every run the cache holds the latest qualifying time of each flow, or that time has expired |
| `Filter.CacheRefinesHistory` | internal/vpn/tun/conntrack.go:27-62 | a packet passes if and only if it bypasses, the rules allow it, or the opposite packet passed by rule since the last policy change and at most ttl ago |
| `Filter.RuleSet.SetBlocked` | internal/vpn/tun/access.go:18-27 | replaces the peer's block set, an empty list changes nothing |
| `Filter.ConnTrack.Remember` | internal/vpn/tun/conntrack.go:27-33 | stamps the flow and drops every expired one |
| `Filter.ConnTrack.Return` | internal/vpn/tun/conntrack.go:36-48 | answers from an unexpired opposite entry and deletes an expired one |
| `Filter.ConnTrack.Collect` | internal/vpn/tun/conntrack.go:50-56 | the deletion loop keeps exactly the unexpired flows |
| `Tun.InstallStarts` | internal/vpn/tun/tun.go:35-62 | installing a policy leaves an agreeing table free of listen ports |
| `Tun.InstalledAvoidsListen` | internal/vpn/tun/tun.go:35-76 | from an installation until the next ReserveHubPorts no session sits on a listen port |
| `Tun.StepIsolates` | internal/vpn/tun/tun.go:99-184 | no single event undermines isolation of two addresses or delivers an IPv4 packet, of whatever protocol, between them |
| `Tun.RunIsolates` | internal/vpn/tun/tun.go:99-184 | nor does any run under the installed policy |
| `Tun.PeersIsolated` | internal/domain/policy/access.go:173-217 | if neither group may initiate to the other, no IPv4 packet whose bytes read p to q is ever handed on after the compiled policy is installed |
| `Tun.HeaderOnWire` | internal/vpn/tun/tun.go:99-115 | the filter sees every IPv4 packet whose header is there, whatever its protocol, and nothing else |
| `Tun.RunRemembers` | internal/vpn/tun/tun.go:99-135 | through the wrapper, a flow is remembered if and only if a packet of it that the rules allow arrived at most ttl ago |
| `Tun.PeerTrafficIff` | internal/vpn/tun/tun.go:99-184 | after the compiled policy is installed, an IPv4 packet p to q is handed on if and only if p's group may initiate to q's, or q's may to p's and a packet q to p arrived at most ttl ago |
| `Tun.TableFollows` | internal/vpn/tun/tun.go:143-184 | the wrapper's table runs as the NAT does on the packets that parse |
| `Tun.RelayedReply` | internal/vpn/tun/tun.go:143-184 | after any uninterrupted run the server's reply to a relayed packet is handed on as from the server to the client |
| `Tun.HandedOnIff` | internal/vpn/snat/transparent.go:96-116 | under isolation, what Write hands on reads a to b if and only if a aimed at the hub port of a live session of b |
| `Tun.RunHandsOnIff` | internal/vpn/tun/tun.go:163-184 | the same after every run under the policy |
| `Tun.TUN.constructor` | internal/vpn/tun/tun.go:25-33 | a new wrapper has no rules, no sessions, no VIPs and an empty cache |
| `Tun.TUN.SetAccessPolicy` | internal/vpn/tun/tun.go:35-62 | rules and table replaced, cache and sessions forgotten, listen ports reserved, for all missing parts of a policy |
| `Tun.TUN.ReserveHubPorts` | internal/vpn/tun/tun.go:69-76 | remembers the ports and reserves them in the current table |
| `Tun.TUN.SetMapVIPs` | internal/vpn/tun/tun.go:80-90 | replaces the VIP set and nothing else |
| `Tun.TUN.ShouldDrop` | internal/vpn/tun/tun.go:99-135 | every IPv4 packet is decided by its two addresses, with the cache updated; any other packet passes and changes nothing |
| `Tun.TUN.WriteOne` | internal/vpn/tun/tun.go:168-178 | return translation first, the filter only otherwise |
| `Tun.TUN.WriteBatch` | internal/vpn/tun/tun.go:163-184 | the filtered list holds, in order, the contents the pure write path delivers |
| `Tun.TUN.ReadOne` | internal/vpn/tun/tun.go:143-161 | egress translation of one packet; what cannot be translated leaves unmodified |
| `Policy.AnyOpensIff` | internal/domain/policy/access.go:76-96 | the search loop finds an opening link if and only if one exists |
| `Policy.FindLinkSound` | internal/domain/policy/access.go:56-73 | the found link joins the two groups, none found means none does, and the order of the groups is irrelevant |
| `Policy.LinkAllowsInitIff` | internal/domain/policy/access.go:76-96 | initiating is allowed if and only if the stored group setting, or a one-way link in this direction, or a two-way link says so |
| `Policy.DirectIsSymmetric` | internal/domain/policy/access.go:104-116 | direct access does not depend on who asks |
| `Policy.ThreeWayTestCollapses` | internal/domain/policy/access.go:196-205 | direct, relayed or initiating access together are just initiating access |
| `Policy.BlockList` | internal/domain/policy/access.go:187-211 | the list built for one peer holds exactly the refused peers and VIPs |
| `Policy.BuildTransparentSpec` | internal/domain/policy/snat_policy.go:6-25 | the spec lists exactly the active peers and the one-way links, in order |
| `Policy.BuildAccessPolicySpec` | internal/domain/policy/access.go:173-217 | the lists, read as sets, are the declarative block sets, and no empty list is stored |
| `Policy.OwnBlockSet` | internal/domain/policy/access.go:179-215 | with distinct addresses no peer's list is overwritten by another's |
| `Policy.CompiledMeaning` | internal/domain/policy/access.go:56-127 | between enabled, grouped peers the compiled rules let p reach q if and only if the group's stored setting, or a link between the groups, lets p's group initiate |
| `Policy.CompiledMapMeaning` | internal/domain/policy/access.go:154-170 | a VIP is reachable under the compiled rules if and only if the peer's group is on its allow list |
| `Policy.OthersUnblocked` | internal/domain/policy/access.go:178-195 | nobody else is bound: other sources are never blocked, and only enabled, grouped peers and VIPs are blocked destinations |
| `GroupLinks.LinkStore.UpsertGroupLink` | internal/repo/groups.go:124-142 | self-links are refused; otherwise whatever joined the pair is replaced by the normalized link |
| `GroupLinks.LinkStore.DeleteGroupLink` | internal/repo/groups.go:176-183 | removes the links of the pair in both directions |
| `GroupLinks.LinkStore.DeleteGroup` | internal/repo/groups.go:81-100 | refused while peers remain; otherwise links, allow rows and the group row are gone and nothing else is |
| `GroupLinks.UnjoinedMembers` | internal/repo/groups.go:117-122 | exactly the links not joining the pair remain |
| `GroupLinks.UntouchedMembers` | internal/repo/groups.go:81-100 | exactly the links not touching the group remain |
| `GroupLinks.AppliedKeeps` | internal/repo/groups.go:81-142 | each operation keeps at most one link per unordered pair, no self-link, two-way links low to high |
| `GroupLinks.ReachableLinks` | internal/repo/groups.go:81-142 | so does every run of operations |
| `GroupLinks.UpsertRule` | internal/repo/groups.go:110-142 | after a link is set its groups may initiate in its direction, in the other one if and only if it is two-way, and no other pair changes |
| `GroupLinks.DeleteRule` | internal/repo/groups.go:176-183 | afterwards neither group may initiate to the other, and no other pair changes |
| `GroupLinks.DropRule` | internal/repo/groups.go:81-100 | deleting a group ends its rules and no others, and nothing while it has peers |
| `GroupLinks.ApplyTransparent` | internal/vpn/policy/apply.go:27-42 | the built table holds exactly the spec's grouped peers and one-way links and no session |
| `GroupLinks.Apply` | internal/vpn/policy/apply.go:11-20 | the rule set holds exactly the non-empty lists, whatever the map order |
| `GroupLinks.Install` | internal/vpn/policy/apply.go:11-42 | compiling and applying leaves exactly the declarative block sets in force |
| `GroupLinks.LinkedMeaning` | internal/vpn/snat/transparent.go:57-64 | the registered links are exactly the one-way links of the list |
| `GroupLinks.RelayIsOneWayLinkIff` | internal/domain/policy/access.go:119-127 | for any link list, relaying means that a one-way link leads from p's group to q's if and only if the links between the groups are consistent |
| `GroupLinks.OnePerPairConsistent` | internal/repo/groups.go:117-142 | one link per pair is always consistent |
| `GroupLinks.DirectIff` | internal/domain/policy/access.go:104-116 | with one link per pair, access is direct by the group's setting inside a group and if and only if a two-way link joins two groups |
| `GroupLinks.PlanesAgreeIff` | internal/vpn/snat/transparent.go:81-93 | for any link list, the relay predicate and the built table's translation predicate agree on two active peers if and only if they share a group or their links are consistent |
| `GroupLinks.PlanesAgreeOnRelay` | internal/domain/policy/snat_policy.go:6-25 | after every run of link operations the two predicates select the same pairs |
| `GroupLinks.DuplicateLinksDisagree` | internal/domain/policy/access.go:56-73 | a two-way link found before a one-way link: inconsistent, and the predicates differ |
| `MapAccess.CanonicalIff` | internal/vpn/dns/lookup.go:24-28 | the lookup name is trimmed and lower-case, and unchanged if and only if the query already was |
| `MapAccess.CanonicalMeaning` | internal/vpn/dns/lookup.go:28-29 | blanks around a name are dropped and each capital becomes its small letter |
| `MapAccess.QueryReaches` | internal/vpn/dns/lookup.go:12-18 | a query reaches a slug if and only if it is the slug or its www. alias up to case and outer blanks |
| `MapAccess.OwnNames` | internal/vpn/dns/lookup.go:12-18 | the alias always reaches the slug; the slug reaches itself if and only if it does not start with www. |
| `MapAccess.LabelNames` | internal/vpn/dns/lookup.go:12-18 | every nonempty slug over a-z, 0-9 and hyphen is reached by its own name and by its alias |
| `MapAccess.HostnameSlug` | internal/domain/peer/hostname.go:19-33 | the stored slug is such a label, and a label is stored unchanged |
| `MapAccess.TabulateHas` | internal/domain/runtime/netstate.go:100-108 | a row whose key no later row repeats is found in the built table |
| `MapAccess.TabulateFrom` | internal/domain/runtime/netstate.go:100-108 | whatever is found in the built table comes from a row |
| `MapAccess.AllowedGroupIDSet` | internal/domain/policy/map_access.go:4-16 | the set holds exactly the nonzero ids |
| `MapAccess.NewMapAccessPolicy` | internal/domain/policy/access.go:141-151 | allow sets by parsed VIP, unparsable ones skipped, later rows winning |
| `MapAccess.BuildPeerGroups` | internal/vpn/dns/catalog.go:20-31 | groups of enabled, grouped peers by parsed address |
| `MapAccess.BuildProxyRules` | internal/vpn/ingress/servicemap.go:117-127 | rules by parsed VIP, later rows winning |
| `MapAccess.BuildDNSCatalog` | internal/domain/runtime/netstate.go:82-110 | peer names and map entries exactly as the row rules say |
| `MapAccess.CatalogStore.Update` | internal/vpn/dns/catalog.go:20-35 | catalog and group lookup are replaced together |
| `MapAccess.DnsDecides` | internal/vpn/dns/lookup.go:23-51 | DNS answers a map's names with its VIP if the client's group is allowed and with nothing otherwise, whatever peers are called |
| `MapAccess.HubAnswers` | internal/vpn/dns/lookup.go:32-37 | the hub's name gets the hub's address, whatever maps and peers are called |
| `MapAccess.UnknownClientAnswers` | internal/vpn/dns/lookup.go:38-45 | a query without a source address gets a map's VIP without a check |
| `MapAccess.PeerAnswers` | internal/vpn/dns/lookup.go:47-49 | a name that is no map's gets the address of the enabled peer that has it |
| `MapAccess.NobodyAnswers` | internal/vpn/dns/lookup.go:50-51 | a name nobody has gets no answer |
| `MapAccess.ProxyDecides` | internal/vpn/ingress/servicemap.go:99-110 | the proxy accepts a peer if and only if its group is on the allow list |
| `MapAccess.BlocksDecide` | internal/domain/policy/access.go:207-211 | the block list admits the VIP if and only if the group is on the allow list |
| `MapAccess.EnforcementAgrees` | internal/service/sync.go:72-101 | the three enforcement points give the same answer for every active peer and every map of a bundle |
| `MapProxy.StepInv` | internal/vpn/ingress/servicemap.go:112-205 | every step of every goroutine keeps the protocol invariant, lock ownership included |
| `MapProxy.ReachableInv` | internal/vpn/ingress/servicemap.go:270-386 | so does every interleaving from the start |
| `MapProxy.UdpSafety` | internal/vpn/ingress/servicemap.go:270-386 | outside Apply and Stop every entry carries the current generation, no key is pending and active, and the admitted group is on the applied allow list |
| `MapProxy.CompletionIff` | internal/vpn/ingress/servicemap.go:331-386 | a completion or failure acts on its own reservation, and on nothing else, if and only if its generation is current, or the previous one while an Apply or Stop has not yet closed the sessions; otherwise it removes and installs nothing |
| `MapProxy.WindowInstalls` | internal/vpn/ingress/servicemap.go:141-146 | a reachable state in which a completion of the old generation installs a session |
| `MapProxy.WindowInstallIsRemoved` | internal/vpn/ingress/servicemap.go:196-205 | the closing of the sessions that follows removes it |
| `MapProxy.OldEntriesNeverSurvive` | internal/vpn/ingress/servicemap.go:141-149 | outside critical sections no entry is older than the generation of any earlier moment |
| `MapProxy.ReservationsAreOwned` | internal/vpn/ingress/servicemap.go:308-319 | two goroutines never hold counting reservations of one flow |
| `MapProxy.CloseIff` | internal/vpn/ingress/servicemap.go:434-440 | a close removes its flow's session if and only if that is the very session it installed, and touches nothing else |
| `MapProxy.SessionsAreKept` | internal/vpn/ingress/servicemap.go:331-440 | no other goroutine's close, completion or failure ever takes away a serving goroutine's session of the counting generation |
| `MapProxy.LateCloseInert` | internal/vpn/ingress/servicemap.go:434-440 | a close from an old generation removes no session |
| `MapProxy.LateCloseSpares` | internal/vpn/ingress/servicemap.go:434-440 | a reachable state in which such a close meets another goroutine's session of the same flow, which stays |
| `MapProxy.HandlerMeaning` | internal/vpn/ingress/servicemap.go:270-329 | a packet handled without interference reserves its flow if and only if the client may use the map and the flow is new |
| `MapProxy.ApplyMeaning` | internal/vpn/ingress/servicemap.go:112-149 | an Apply without interference closes everything and puts exactly the given allow lists and groups in force |
| `MapProxy.StopMeaning` | internal/vpn/ingress/servicemap.go:173-185 | a Stop without interference closes everything, and no map is served afterwards |
| `MapProxy.NoDeadlock` | internal/vpn/ingress/servicemap.go:300-319 | whenever a lock is held, in every reachable state, some goroutine in a critical section can go on |
| `MapProxy.EntriesAllowed` | internal/vpn/ingress/servicemap.go:99-110 | outside Apply and Stop, until SetPeerGroups is called, peerAllowed accepts the client of every pending and active entry |
| `MapProxy.RegroupingIff` | internal/vpn/ingress/servicemap.go:82-97 | SetPeerGroups keeps all entries; all are allowed afterwards if and only if the lookup keeps each client that has one in an allowed group |
| `MapProxy.RegroupingLeavesSession` | internal/vpn/ingress/servicemap.go:82-97 | a reachable state with an active session of a client that is no longer allowed |
| `StatusPoller.StepInv` | internal/service/hub.go:79-150 | every step of every starter, stopper and poller keeps the protocol invariant |
| `StatusPoller.OnePoller` | internal/service/hub.go:79-126 | at most one poller is unfinished, and no channel is ever closed twice |
| `StatusPoller.StartMeaning` | internal/service/hub.go:79-126 | whenever a start returns, exactly one poller is in its loop, the current one with an open stop channel: the running one, or else a new one |
| `StatusPoller.StopCanReturn` | internal/service/hub.go:130-150 | from every reachable state a waiting stop can return after at most three steps of its poller |
| `StatusPoller.WholeLife` | internal/service/hub.go:79-150 | a run with start, tick, poll, stop and return, and the state it ends in |
| `StatusPoller.StopWaitsForCurrent` | internal/service/hub.go:130-150 | a stopper waits for the live poller, or there is none |
| `StatusPoller.PastTheLoop` | internal/service/hub.go:106-125 | a poller past its loop never polls again |
| `StatusPoller.WaiterKeepsWaiting` | internal/service/hub.go:130-150 | a stopper waits for one and the same poller until it returns |
| `StatusPoller.StopReturnsAfterLastPoll` | internal/service/hub.go:130-150 | when a stop that took the lock after a run has returned, the poller unfinished at the lock is out of its loop, and it was the only one |
| `StatusPoller.StoppedPollerStaysStopped` | internal/service/hub.go:106-125 | and it stays out whatever follows |
| `StackLifecycle.StepInv` | internal/vpn/runtime/stack.go:47-133 | every step of every Start and Stop keeps the lifecycle invariant |
| `StackLifecycle.CallbacksNeverOverlap` | internal/vpn/runtime/stack.go:101-133 | two callbacks are never running together |
| `StackLifecycle.NoticesAreOrderly` | internal/vpn/runtime/stack.go:293-345 | an instance is announced and stopped at most once each, never announced after its stop |
| `StackLifecycle.QuietStateMatchesNotices` | internal/vpn/runtime/stack.go:293-345 | with no call in flight the stack is up if and only if the last callback was OnStarted, for that very instance |
| `StackLifecycle.StartMeaning` | internal/vpn/runtime/stack.go:47-133 | a successful Start on a stopped stack leaves a new tunnel running and announces it |
| `StackLifecycle.StartNoop` | internal/vpn/runtime/stack.go:49-52 | a Start on a running stack, or one that fails, leaves no tunnel of its own and announces nothing |
| `StackLifecycle.StopMeaning` | internal/vpn/runtime/stack.go:293-345 | a Stop of a running stack takes the tunnel down and announces it |
| `StackLifecycle.StopNoop` | internal/vpn/runtime/stack.go:297-300 | a Stop of a stack that is down or being stopped does nothing |
| `StackLifecycle.NoDeadlock` | internal/vpn/runtime/stack.go:101-133 | as long as a call is in flight, some call in flight can go on |
| `Allocator.AddCarry` | internal/repo/ip_alloc.go:66-71 | the byte-carry loop adds modulo 2^32 |
| `Allocator.Increment` | internal/config/subnet.go:25-30 | one pass of byte increments is the 32-bit successor |
| `Allocator.NthHostIP` | internal/config/subnet.go:9-36 | the address as written plus n, if it lies in the subnet, with every error case |
| `Allocator.SizeIs` | internal/repo/ip_alloc.go:57-62 | a subnet has 2^(32 - bits) addresses |
| `Allocator.SubnetIsBlock` | internal/repo/ip_alloc.go:50-57 | they form the aligned block around the written address |
| `Allocator.ContainsIff` | internal/repo/ip_alloc.go:72-74 | an address is in the subnet if and only if it lies in that block |
| `Allocator.OffsetsStayInside` | internal/repo/ip_alloc.go:72-74 | base plus any offset below the size lies inside the subnet, so the Contains break is never taken |
| `Allocator.FreeFromIsLeast` | internal/repo/ip_alloc.go:63-79 | the search returns the least free offset, or all are used |
| `Allocator.NextFreeMeaning` | internal/repo/ip_alloc.go:49-81 | allocation gives the least free address at offset two or more, and fails if and only if the prefix exceeds 30 bits or all are used |
| `Allocator.NextFreeHostInSubnet` | internal/repo/ip_alloc.go:49-81 | the nested byte loops compute that allocation |
| `AddressStore.CollectUsed` | internal/repo/ip_alloc.go:13-47 | the used set holds exactly the hub, DNS, peer, map and record addresses |
| `AddressStore.RunHomed` | internal/repo/maps.go:275-323 | at store level, through stale copies and late saves, rows and copies carry the address their row was created with, a host address of the subnet |
| `AddressStore.OwnTablesUnique` | internal/repo/models.go:27-32 | no two peers and no two maps ever share an address |
| `AddressStore.StepUniqueIff` | internal/repo/maps.go:303-309 | a step keeps hub, peers and VIPs distinct if and only if it does not write a missing row whose address the other table holds |
| `AddressStore.AlwaysUniqueIff` | internal/repo/maps.go:227-334 | over any run from setup addresses were always distinct if and only if no write collided |
| `AddressStore.SaveAfterDeleteCollides` | internal/repo/maps.go:278-309 | a store-level run in which a late save takes the address of a new peer |
| `AddressStore.TimelyStep` | internal/repo/peers.go:37-63 | each step, deletions between the queries included, keeps addresses distinct and collected, if a save finds its row |
| `AddressStore.AddressesStayUnique` | internal/repo/maps.go:227-273 | from setup on, hub, peers and VIPs stay pairwise distinct over every run whose saves find their rows |
| `AddressStore.ServiceKeepsUnique` | internal/service/maps.go:50-109 | with every call under controlMu they stay distinct over every interleaving |
| `AddressStore.InsertMeaning` | internal/repo/peers.go:53-62 | an insert adds exactly its row unless the index refuses, and records a new peer's address for DNS |
| `AddressStore.RecordsAvoided` | internal/repo/ip_alloc.go:38-44 | no address that a DNS record holds when the records are read is handed out |
| `AddressStore.RecordedIsAvoided` | internal/repo/peers.go:88-92 | an address recorded while no allocation is open is not handed out as long as the record stays |
| `AddressStore.ForgottenIsFree` | internal/repo/peers.go:94-98 | deleting the only record of an address frees it of records and keeps the others |
| `AddressStore.ServiceCreates` | internal/service/maps.go:50-72 | from setup a creation under controlMu goes through and leaves its row |
| `AddressStore.ServiceUpdates` | internal/service/maps.go:74-96 | an update under controlMu keeps every address |
| `AddressStore.ServiceDeletes` | internal/service/maps.go:98-109 | a deletion under controlMu removes exactly its row |
| `AddressStore.ServiceGivesUp` | internal/repo/peers.go:42-52 | a creation that fails changes nothing and releases both locks |
| `AddressStore.ServiceAbandons` | internal/repo/maps.go:275-300 | an update that fails after reading its row changes nothing |
| `AddressStore.AddressesAreStable` | internal/repo/maps.go:275-323 | wherever a row is seen again it has the address it had, even re-inserted by a late save, and it stays until deleted |
| `Migration.Flush` | internal/repo/maps.go:128-149 | the collected rows are renumbered 0, 1, 2... if all zero and at least two, else nothing changes |
| `Migration.RankIsIndex` | internal/repo/maps.go:119-121 | in the ordered rows, the index within a map is the number of earlier inserts |
| `Migration.Migrate` | internal/repo/maps.go:122-164 | the grouped flush loop numbers exactly the legacy lists by insert order and touches no other row |
| `Migration.CanBeListed` | internal/repo/maps.go:119-121 | every table has the ordered listing the loop runs on |
| `Migration.MigrationIdempotent` | internal/repo/maps.go:107-164 | running it twice equals running it once |
| `Migration.NumberedFromZero` | internal/repo/maps.go:140-146 | a legacy list of n rows gets n distinct numbers below n |
| `Migration.ListingIsInsertOrder` | internal/repo/maps.go:92-102 | a legacy list is then listed in insert order, any other list as before |
| `Limiter.RunInv` | internal/api/http/httputil/limiter.go:165-201 | over every run tokens stay in 0..Capacity and entries within MaxEntries |
| `Limiter.AccruedIs` | internal/api/http/httputil/limiter.go:199-209 | what accrues is elapsed time times capacity over period |
| `Limiter.RefillComposes` | internal/api/http/httputil/limiter.go:189-201 | refilling in two steps equals refilling once |
| `Limiter.FullAfterPeriod` | internal/api/http/httputil/limiter.go:189-201 | an entry idle for a whole period is full |
| `Limiter.AdmissionBound` | internal/api/http/httputil/limiter.go:78-102 | attempts admitted in a window of length T number at most Capacity + T*Capacity/RefillPeriod while the entry is not removed, even with unordered clock readings |
| `Limiter.AdmissionBoundWithCleanup` | internal/api/http/httputil/limiter.go:78-124 | the same bound when cleanups may remove the entry and readings are out of order by up to StaleTTL + 1ns - RefillPeriod |
| `LimiterCleanup.CleanupUnobservable` | internal/api/http/httputil/limiter.go:115-124 | with StaleTTL + 1ns at least the period plus the lag of readings, every run answers the same with cleanups as without, evictions included |
| `LimiterCleanup.CleanupAddsNothing` | internal/api/http/httputil/limiter.go:115-124 | and every run with cleanups answers as some run without |
| `LimiterCleanup.LowScript` | internal/api/http/httputil/limiter.go:87-90 | from any capacity of at least one token some attempts leave less than half a nanosecond's accrual |
| `LimiterCleanup.CleanupInvisibleIff` | internal/api/http/httputil/limiter.go:115-124 | for every capacity and lag cleanup is invisible if and only if the capacity is below one token or StaleTTL + 1ns reaches the period plus the lag |
| `Limiter.RetryAfterSuffices` | internal/api/http/httputil/limiter.go:91-102 | after a refusal, any run without an admission leaves a Take successful once the delay has passed since the last refill; asked earlier with nothing between, it fails |
| `Limiter.RetryAfterIff` | internal/api/http/httputil/limiter.go:82-102 | counted from the call, the delay is right if and only if the call's reading is not behind the entry |
| `Limiter.TooSmallNeverAdmits` | internal/api/http/httputil/limiter.go:87-90 | below one token of capacity no run admits anything |
| `Limiter.SuccessForgives` | internal/api/http/httputil/limiter.go:105-112 | after a recorded success the address has a full bucket again and every other entry is untouched |
| `Limiter.Normalized` | internal/api/http/httputil/limiter.go:26-44 | normalized settings are positive, and positive settings are kept |
| `LimiterCleanup.DefaultsAreSafe` | internal/api/http/httputil/limiter.go:9-15 | the default settings, and that their cleanup is invisible if and only if readings lag by at most ten minutes and a nanosecond |
| `LoginRateLimiters.LoginRateLimiter.OldestKey` | internal/api/http/httputil/limiter.go:170-178 | the eviction scan finds a longest-idle entry, in any map order |
| `LoginRateLimiters.LoginRateLimiter.EntryLocked` | internal/api/http/httputil/limiter.go:165-187 | finds or creates the entry, evicting one only when full |
| `LoginRateLimiters.LoginRateLimiter.RefillLocked` | internal/api/http/httputil/limiter.go:189-201 | adds what accrued, capped at the capacity |
| `LoginRateLimiters.LoginRateLimiter.Take` | internal/api/http/httputil/limiter.go:78-102 | state and answer are those of a Take the run model allows |
| `LoginRateLimiters.LoginRateLimiter.RecordLoginSuccess` | internal/api/http/httputil/limiter.go:105-112 | forgets exactly that entry |
| `LoginRateLimiters.LoginRateLimiter.Cleanup` | internal/api/http/httputil/limiter.go:115-124 | the deletion loop keeps exactly the entries not older than StaleTTL |

## Left out

- WireGuard device, gVisor netstack, sockets, dialing and byte copying: foreign calls; the netstack is taken to forward addresses and ports unchanged.
- HTTP handlers, JSON, JWT, bcrypt, WebSockets, configuration loading and everything under web/: delivery code.
- SQLite and GORM mechanics: tables are maps or sequences and transactions are atomic; Save updates the row or inserts it, unique indexes refuse, row ids are never reissued. Failing queries, and peers created with an address of the caller's choice, are not modelled.
- TCP map sessions: they are not tracked in a table.
- IP fragments, IPv6 and ICMP: the NAT ignores them and the filter lets non-IPv4 traffic through.
- Packet.FixTransportChecksum: requires a header of at least 20 bytes and a total length within the buffer (section 3.1 of RFC 791); the parser accepts other packets, on which the code writes over the header or slices past the buffer.
- TransparentTables.TransparentTable.ProcessIngressFromWG: requires the same of packets that parse.
- TransparentTables.TransparentTable.ProcessEgressToWG: requires the same of packets that parse.
- Tun.TUN.WriteOne: requires the same of packets that parse; the run theorems of Tun cover every packet.
- Tun.TUN.WriteBatch: requires the same, and a batch of distinct arrays.
- Tun.TUN.ReadOne: requires the same of packets that parse; a zero-sized read is skipped by the caller.
- The substitution of 0xFFFF for a computed UDP checksum of 0 (RFC 768): the code does not do it.
- Buffer offsets and sizes in Read and Write: a packet is a whole array.
- Several clock readings within one call are taken as one.
- Concurrency inside the NAT table, the filter and the limiter: each mutex region is one call of the model. The protocols and the address store are state machines with one step per locked region or query, so aliasing of their Go objects is modelled by identities instead of heap objects.
- GroupLinks.LinkStore.DeleteGroup: the peer count and the transaction are one step; controlMu keeps peers from being created in between.
- Wrap-around of the uint64 generation counters.
- Floating-point rounding in the limiter, and its branch for Go's zero time, which no entry can hold.
- The background cleanup loop of the limiter and its stop channel.
- MapAccess.CanonicalIff: ASCII letters and blanks only; other case folding and blanks of Go's strings package are not modelled.
- MapAccess.QueryReaches: ASCII queries only, for the same reason.
- Upstream DNS and message assembly: network client code.
- MapProxy.Apply failing before its critical section because an address cannot be added to the stack: it then changes nothing.
- Hostname, port and slug validators beyond the shape of a slug: single-branch checks that would add only easy members.
- Removing peers from the WireGuard device: SyncAll only adds, and no claim is made about the device.
- Limiter.AdmissionBoundWithCleanup: readings that lag further than StaleTTL + 1ns - RefillPeriod are excluded, because such a reading can spend the same accrual twice after a cleanup.
- LimiterCleanup.CleanupUnobservable: excludes the same readings; LimiterCleanup.CleanupInvisibleIff shows that they make cleanups visible.
- LimiterCleanup.CleanupAddsNothing: excludes the same readings.
