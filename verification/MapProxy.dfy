/** The MapProxy UDP session protocol: two locks, a generation counter, a pending and an active
    table, under every interleaving of its goroutines (internal/vpn/ingress/servicemap.go). */
module MapProxy {
  import opened Bytes

  /** A UDP flow towards a map VIP; flow stands for its port pair. */
  datatype Key = Key(client: Addr, vip: Addr, flow: nat)

  /** A rule object; installed is the generation that created it, so equality is object identity. */
  datatype Rule = Rule(installed: nat, allowed: set<nat>)

  /** A table entry. group is a history variable: the group that passed the allow check. */
  datatype Entry = Entry(gen: nat, group: nat)
  /** An active session; owner is the goroutine that created the session object. */
  datatype Session = Session(entry: Entry, owner: nat)

  /** Where a goroutine stands. */
  datatype Pc =
    | Arrived(key: Key)
    | RuleRead(key: Key, rule: Rule, gen: nat)
    | PeerChecked(key: Key, rule: Rule, entry: Entry)
    | HoldsMu(key: Key, rule: Rule, entry: Entry)
    | HoldsUdpMu(key: Key, rule: Rule, entry: Entry)
    | Creating(key: Key, entry: Entry)
    | Serving(key: Key, entry: Entry)
    | Advanced(rules: map<Addr, set<nat>>, groups: Option<map<Addr, nat>>)
    | Cleared(rules: map<Addr, set<nat>>, groups: Option<map<Addr, nat>>)
    | Finished

  /** The holder of the lifecycle lock; an Apply or Stop also shows whether it has closed the sessions. */
  datatype Mu = Free | Handler(t: nat) | Applier(t: nat, closed: bool)

  datatype Proxy = Proxy(
    threads: map<nat, Pc>,
    mu: Mu,
    udpMu: Option<nat>,
    gen: nat,
    rules: map<Addr, Rule>,
    peerGroup: map<Addr, nat>,
    pending: map<Key, Entry>,
    sessions: map<Key, Session>,
    regrouped: bool)  // history: SetPeerGroups was called since the last Apply

  datatype Action =
    | Arrive(t: nat, key: Key)
    | ReadRule(t: nat)
    | CheckPeer(t: nat)
    | LockAndRecheck(t: nat)
    | CrossLocks(t: nat)
    | Publish(t: nat)
    | Abandon(t: nat)
    | Complete(t: nat, cancelled: bool)
    | Close(t: nat)
    | Advance(t: nat, rules: map<Addr, set<nat>>, groups: Option<map<Addr, nat>>)
    | CloseSessions(t: nat)
    | Commit(t: nat)
    | SetPeerGroups(lookup: map<Addr, nat>)

  function Initial(): Proxy {
    Proxy(map[], Free, None, 0, map[], map[], map[], map[], false)
  }

  function Go(s: Proxy, t: nat, pc: Pc): Proxy {
    s.(threads := s.threads[t := pc])
  }

  /** A Go map read of udpPending: an absent key reads as generation 0. */
  function PendingGen(s: Proxy, k: Key): nat {
    if k in s.pending then s.pending[k].gen else 0
  }

  /** GroupInAllowedSet for the group registered for a client. */
  predicate ClientAllowed(s: Proxy, rule: Rule, client: Addr) {
    |rule.allowed| != 0 && client in s.peerGroup && s.peerGroup[client] != 0 && s.peerGroup[client] in rule.allowed
  }

  /** The action can happen in this state. */
  predicate Enabled(s: Proxy, a: Action) {
    match a
    case Arrive(t, _) => t !in s.threads
    case ReadRule(t) => t in s.threads && s.threads[t].Arrived? && s.mu.Free?
    case CheckPeer(t) => t in s.threads && s.threads[t].RuleRead? && s.mu.Free?
    case LockAndRecheck(t) => t in s.threads && s.threads[t].PeerChecked? && s.mu.Free?
    case CrossLocks(t) => t in s.threads && s.threads[t].HoldsMu? && s.udpMu.None?
    case Publish(t) => t in s.threads && s.threads[t].HoldsUdpMu?
    case Abandon(t) => t in s.threads && s.threads[t].Creating? && s.udpMu.None?
    case Complete(t, _) => t in s.threads && s.threads[t].Creating? && s.udpMu.None?
    case Close(t) => t in s.threads && s.threads[t].Serving? && s.udpMu.None?
    case Advance(t, _, _) => t !in s.threads && s.mu.Free?
    case CloseSessions(t) => t in s.threads && s.threads[t].Advanced? && s.udpMu.None?
    case Commit(t) => t in s.threads && s.threads[t].Cleared?
    case SetPeerGroups(_) => s.mu.Free?
  }

  function Step(s: Proxy, a: Action): (s': Proxy)
    requires Enabled(s, a)
    ensures s.gen <= s'.gen
  {
    match a
    case Arrive(t, key) => Go(s, t, Arrived(key))
    case ReadRule(t) => AfterReadRule(s, t, s.threads[t].key)
    case CheckPeer(t) => AfterCheckPeer(s, t, s.threads[t].key, s.threads[t].rule, s.threads[t].gen)
    case LockAndRecheck(t) => AfterRecheck(s, t, s.threads[t].key, s.threads[t].rule, s.threads[t].entry)
    case CrossLocks(t) => AfterCross(s, t, s.threads[t].key, s.threads[t].rule, s.threads[t].entry)
    case Publish(t) => AfterPublish(s, t, s.threads[t].key, s.threads[t].entry)
    case Abandon(t) => AfterAbandon(s, t, s.threads[t].key, s.threads[t].entry)
    case Complete(t, cancelled) => AfterComplete(s, t, s.threads[t].key, s.threads[t].entry, cancelled)
    case Close(t) => AfterClose(s, t, s.threads[t].key, s.threads[t].entry)
    case Advance(t, rules, groups) => AfterAdvance(s, t, rules, groups)
    case CloseSessions(t) => AfterCloseSessions(s, t, s.threads[t].rules, s.threads[t].groups)
    case Commit(t) => AfterCommit(s, t, s.threads[t].rules, s.threads[t].groups)
    case SetPeerGroups(lookup) => s.(peerGroup := lookup, regrouped := true)
  }

  /** First critical section of handleUDPForwarderRequest: look up rule and generation. */
  function AfterReadRule(s: Proxy, t: nat, key: Key): Proxy {
    if key.vip !in s.rules then Go(s, t, Finished) else Go(s, t, RuleRead(key, s.rules[key.vip], s.gen))
  }

  /** peerAllowed. */
  function AfterCheckPeer(s: Proxy, t: nat, key: Key, rule: Rule, gen: nat): Proxy {
    if !ClientAllowed(s, rule, key.client) then Go(s, t, Finished)
    else Go(s, t, PeerChecked(key, rule, Entry(gen, s.peerGroup[key.client])))
  }

  /** Take mu again; give up if the generation or the rule object changed. */
  function AfterRecheck(s: Proxy, t: nat, key: Key, rule: Rule, entry: Entry): Proxy {
    if s.gen != entry.gen || key.vip !in s.rules || s.rules[key.vip] != rule then Go(s, t, Finished)
    else Go(s, t, HoldsMu(key, rule, entry)).(mu := Handler(t))
  }

  /** Take udpMu while holding mu, then release mu. */
  function AfterCross(s: Proxy, t: nat, key: Key, rule: Rule, entry: Entry): Proxy {
    Go(s, t, HoldsUdpMu(key, rule, entry)).(mu := Free, udpMu := Some(t))
  }

  /** Reserve the flow unless it is already active or pending. */
  function AfterPublish(s: Proxy, t: nat, key: Key, entry: Entry): Proxy {
    if key in s.sessions || key in s.pending then Go(s, t, Finished).(udpMu := None)
    else Go(s, t, Creating(key, entry)).(udpMu := None, pending := s.pending[key := entry])
  }

  /** deleteUDPPending after a failed endpoint, lookup or dial. */
  function AfterAbandon(s: Proxy, t: nat, key: Key, entry: Entry): Proxy {
    if PendingGen(s, key) == entry.gen then Go(s, t, Finished).(pending := s.pending - {key}) else Go(s, t, Finished)
  }

  /** The locked tail of createMapUDPSession. */
  function AfterComplete(s: Proxy, t: nat, key: Key, entry: Entry, cancelled: bool): Proxy {
    if PendingGen(s, key) != entry.gen then Go(s, t, Finished)
    else if cancelled || key in s.sessions then Go(s, t, Finished).(pending := s.pending - {key})
    else Go(s, t, Serving(key, entry)).(pending := s.pending - {key}, sessions := s.sessions[key := Session(entry, t)])
  }

  /** deleteUDPSession: only the very same session object is removed. */
  function AfterClose(s: Proxy, t: nat, key: Key, entry: Entry): Proxy {
    if key in s.sessions && s.sessions[key] == Session(entry, t)
    then Go(s, t, Finished).(sessions := s.sessions - {key})
    else Go(s, t, Finished)
  }

  /** Apply (groups given) or Stop (no rules, groups kept): take mu and advance the generation. */
  function AfterAdvance(s: Proxy, t: nat, rules: map<Addr, set<nat>>, groups: Option<map<Addr, nat>>): Proxy {
    Go(s, t, Advanced(rules, groups)).(mu := Applier(t, false), gen := s.gen + 1)
  }

  /** closeUDPSessions, called with mu held. */
  function AfterCloseSessions(s: Proxy, t: nat, rules: map<Addr, set<nat>>, groups: Option<map<Addr, nat>>): Proxy {
    Go(s, t, Cleared(rules, groups)).(mu := Applier(t, true), pending := map[], sessions := map[])
  }

  /** Publish the new rules and groups and release mu. */
  function AfterCommit(s: Proxy, t: nat, rules: map<Addr, set<nat>>, groups: Option<map<Addr, nat>>): Proxy {
    Go(s, t, Finished).(
      mu := Free,
      rules := map vip | vip in rules :: Rule(s.gen, rules[vip]),
      peerGroup := if groups.Some? then groups.value else s.peerGroup,
      regrouped := if groups.Some? then false else s.regrouped)
  }

  /** The state after a run from the start; None when some action of it was not enabled. */
  function After(run: seq<Action>): Option<Proxy> {
    if run == [] then Some(Initial())
    else
      var before := After(run[..|run| - 1]);
      if before.Some? && Enabled(before.value, run[|run| - 1]) then Some(Step(before.value, run[|run| - 1])) else None
  }

  // ---------- The invariant ----------

  /** An Apply or Stop is inside its critical section. */
  predicate Applying(s: Proxy) {
    s.mu.Applier?
  }

  /** The generation the table entries belong to: the previous one until the sessions are closed. */
  function Era(s: Proxy): int {
    if s.mu.Applier? && !s.mu.closed then s.gen - 1 else s.gen
  }

  /** Locks are held exactly where the code says. */
  ghost predicate HoldsRight(s: Proxy, t: nat, pc: Pc) {
    && (pc.HoldsMu? <==> s.mu == Handler(t))
    && (pc.Advanced? <==> s.mu == Applier(t, false))
    && (pc.Cleared? <==> s.mu == Applier(t, true))
    && (pc.HoldsUdpMu? <==> s.udpMu == Some(t))
  }

  ghost predicate Locking(s: Proxy) {
    && (s.mu.Free? || s.mu.t in s.threads)
    && (s.udpMu.Some? ==> s.udpMu.value in s.threads)
    && (Applying(s) ==> s.gen >= 1)
    && (s.mu.Applier? && s.mu.closed ==> s.udpMu.None? && s.pending == map[] && s.sessions == map[])
  }

  /** The entry was admitted by the rule now applied to its VIP. */
  ghost predicate Admitted(s: Proxy, k: Key, e: Entry) {
    && k.vip in s.rules && e.group != 0 && e.group in s.rules[k.vip].allowed
    && (!s.regrouped ==> k.client in s.peerGroup && s.peerGroup[k.client] == e.group)
  }

  /** What a goroutine that read the current generation still knows. */
  ghost predicate Informed(s: Proxy, pc: Pc) {
    match pc
    case RuleRead(key, rule, gen) =>
      1 <= gen <= s.gen && (gen == s.gen ==> !Applying(s) && key.vip in s.rules && s.rules[key.vip] == rule)
    case PeerChecked(key, rule, e) =>
      1 <= e.gen <= s.gen &&
      (e.gen == s.gen ==> !Applying(s) && key.vip in s.rules && s.rules[key.vip] == rule && Admitted(s, key, e))
    case HoldsMu(key, rule, e) => 1 <= e.gen == s.gen && Admitted(s, key, e)
    case HoldsUdpMu(key, rule, e) => 1 <= e.gen == Era(s) && Admitted(s, key, e)
    case Creating(key, e) => 1 <= e.gen <= Era(s) && (e.gen == Era(s) ==> key in s.pending && s.pending[key] == e)
    case _ => true
  }

  ghost predicate Tables(s: Proxy) {
    && (s.rules != map[] ==> s.gen >= 1)
    && (forall k :: k in s.pending ==> s.pending[k].gen == Era(s) && Admitted(s, k, s.pending[k]) && k !in s.sessions)
    && (forall k :: k in s.sessions ==> s.sessions[k].entry.gen == Era(s) && Admitted(s, k, s.sessions[k].entry))
  }

  /** A pending entry belongs to one creating goroutine at most. */
  ghost predicate Owned(s: Proxy) {
    forall t, u | t in s.threads && u in s.threads && s.threads[t].Creating? && s.threads[u].Creating? ::
      s.threads[t].key == s.threads[u].key && s.threads[t].entry.gen == s.threads[u].entry.gen == Era(s) ==> t == u
  }

  ghost predicate Inv(s: Proxy) {
    && Locking(s) && Tables(s) && Owned(s)
    && (forall t :: t in s.threads ==> HoldsRight(s, t, s.threads[t]))
    && (forall t :: t in s.threads ==> Informed(s, s.threads[t]))
  }

  /** The step moved only goroutine t (and possibly released or took a lock for it). */
  ghost predicate Local(s: Proxy, s': Proxy, t: nat, pc: Pc) {
    && s'.threads == s.threads[t := pc]
    && s'.gen == s.gen && s'.rules == s.rules && s'.peerGroup == s.peerGroup && s'.regrouped == s.regrouped
    && (s'.mu == s.mu || (s.mu in {Free, Handler(t)} && s'.mu in {Free, Handler(t)}))
    && (s'.udpMu == s.udpMu || (s.udpMu in {None, Some(t)} && s'.udpMu in {None, Some(t)}))
  }

  /** Other goroutines keep the reservations they rely on. */
  ghost predicate KeepsReservations(s: Proxy, s': Proxy, t: nat) {
    forall u | u in s.threads && u != t && s.threads[u].Creating? ::
      var Creating(key, entry) := s.threads[u];
      entry.gen == Era(s) ==> key in s'.pending && s'.pending[key] == entry
  }

  lemma LocalInformed(s: Proxy, s': Proxy, t: nat, pc: Pc, u: nat)
    requires Inv(s) && Local(s, s', t, pc) && KeepsReservations(s, s', t)
    requires u in s.threads && u != t
    ensures Informed(s', s.threads[u]) && HoldsRight(s', u, s.threads[u])
  {
  }

  lemma LocalStep(s: Proxy, s': Proxy, t: nat, pc: Pc)
    requires Inv(s) && Local(s, s', t, pc) && KeepsReservations(s, s', t)
    requires Locking(s') && Tables(s') && HoldsRight(s', t, pc) && Informed(s', pc)
    requires pc.Creating? ==> (forall u | u in s.threads && u != t && s.threads[u].Creating? ::
                                 s.threads[u].entry.gen == Era(s) ==> s.threads[u].key != pc.key)
    ensures Inv(s')
  {
    forall u | u in s'.threads
      ensures Informed(s', s'.threads[u]) && HoldsRight(s', u, s'.threads[u])
    {
      if u != t {
        LocalInformed(s, s', t, pc, u);
      }
    }
  }

  /** Losing entries breaks nothing the tables promise. */
  lemma ShrinkTables(s: Proxy, s': Proxy, t: nat, pc: Pc)
    requires Inv(s) && Local(s, s', t, pc)
    requires forall k :: k in s'.pending ==> k in s.pending && s'.pending[k] == s.pending[k]
    requires forall k :: k in s'.sessions ==> k in s.sessions && s'.sessions[k] == s.sessions[k]
    ensures Tables(s')
  {
  }

  /** A local step that leaves the reservations alone and installs nothing. */
  lemma QuietStep(s: Proxy, s': Proxy, t: nat, pc: Pc)
    requires Inv(s) && Local(s, s', t, pc) && !pc.Creating?
    requires s'.pending == s.pending
    requires forall k :: k in s'.sessions ==> k in s.sessions && s'.sessions[k] == s.sessions[k]
    requires Locking(s') && HoldsRight(s', t, pc) && Informed(s', pc)
    ensures Inv(s')
  {
    ShrinkTables(s, s', t, pc);
    SameReservations(s, s', t);
    LocalStep(s, s', t, pc);
  }

  lemma SameReservations(s: Proxy, s': Proxy, t: nat)
    requires Inv(s)
    requires forall k :: k in s.pending ==> k in s'.pending && s'.pending[k] == s.pending[k]
    ensures KeepsReservations(s, s', t)
  {
  }

  /** Removing a goroutine's own reservation leaves the others theirs. */
  lemma OwnReservation(s: Proxy, s': Proxy, t: nat)
    requires Inv(s) && t in s.threads && s.threads[t].Creating? && s.threads[t].entry.gen == Era(s)
    requires s'.pending == s.pending - {s.threads[t].key}
    ensures KeepsReservations(s, s', t)
  {
  }

  /** A reservation is found exactly when the goroutine belongs to the era of the tables. */
  lemma PendingIffCurrent(s: Proxy, t: nat)
    requires Inv(s) && t in s.threads && s.threads[t].Creating?
    ensures PendingGen(s, s.threads[t].key) == s.threads[t].entry.gen <==> s.threads[t].entry.gen == Era(s)
  {
  }

  lemma ReadRuleInv(s: Proxy, t: nat, key: Key)
    requires Inv(s) && t in s.threads && s.threads[t] == Arrived(key) && s.mu.Free?
    ensures Inv(AfterReadRule(s, t, key))
  {
    assert HoldsRight(s, t, s.threads[t]);
    var s' := AfterReadRule(s, t, key);
    if key.vip !in s.rules {
      QuietStep(s, s', t, Finished);
    } else {
      QuietStep(s, s', t, RuleRead(key, s.rules[key.vip], s.gen));
    }
  }

  lemma CheckPeerInv(s: Proxy, t: nat, key: Key, rule: Rule, gen: nat)
    requires Inv(s) && t in s.threads && s.threads[t] == RuleRead(key, rule, gen) && s.mu.Free?
    ensures Inv(AfterCheckPeer(s, t, key, rule, gen))
  {
    assert Informed(s, s.threads[t]) && HoldsRight(s, t, s.threads[t]);
    var s' := AfterCheckPeer(s, t, key, rule, gen);
    QuietStep(s, s', t, s'.threads[t]);
  }

  lemma RecheckInv(s: Proxy, t: nat, key: Key, rule: Rule, entry: Entry)
    requires Inv(s) && t in s.threads && s.threads[t] == PeerChecked(key, rule, entry) && s.mu.Free?
    ensures Inv(AfterRecheck(s, t, key, rule, entry))
  {
    assert Informed(s, s.threads[t]) && HoldsRight(s, t, s.threads[t]);
    var s' := AfterRecheck(s, t, key, rule, entry);
    QuietStep(s, s', t, s'.threads[t]);
  }

  lemma CrossInv(s: Proxy, t: nat, key: Key, rule: Rule, entry: Entry)
    requires Inv(s) && t in s.threads && s.threads[t] == HoldsMu(key, rule, entry) && s.udpMu.None?
    ensures Inv(AfterCross(s, t, key, rule, entry))
  {
    assert Informed(s, s.threads[t]) && HoldsRight(s, t, s.threads[t]);
    var s' := AfterCross(s, t, key, rule, entry);
    QuietStep(s, s', t, s'.threads[t]);
  }

  lemma PublishInv(s: Proxy, t: nat, key: Key, rule: Rule, entry: Entry)
    requires Inv(s) && t in s.threads && s.threads[t] == HoldsUdpMu(key, rule, entry)
    ensures Inv(AfterPublish(s, t, key, entry))
  {
    assert Informed(s, s.threads[t]) && HoldsRight(s, t, s.threads[t]);
    var s' := AfterPublish(s, t, key, entry);
    if key in s.sessions || key in s.pending {
      QuietStep(s, s', t, Finished);
    } else {
      ReserveTables(s, s', key, entry);
      SameReservations(s, s', t);
      LocalStep(s, s', t, Creating(key, entry));
    }
  }

  lemma ReserveTables(s: Proxy, s': Proxy, key: Key, entry: Entry)
    requires Inv(s) && key !in s.sessions && entry.gen == Era(s) && Admitted(s, key, entry)
    requires s' == s.(threads := s'.threads, udpMu := None, pending := s.pending[key := entry])
    ensures Tables(s')
  {
  }

  lemma AbandonInv(s: Proxy, t: nat, key: Key, entry: Entry)
    requires Inv(s) && t in s.threads && s.threads[t] == Creating(key, entry)
    ensures Inv(AfterAbandon(s, t, key, entry))
  {
    assert HoldsRight(s, t, s.threads[t]);
    DropInv(s, t, key, entry, AfterAbandon(s, t, key, entry));
  }

  /** Giving up a reservation, if it is still there. */
  lemma DropInv(s: Proxy, t: nat, key: Key, entry: Entry, s': Proxy)
    requires Inv(s) && t in s.threads && s.threads[t] == Creating(key, entry)
    requires var pending := if PendingGen(s, key) == entry.gen then s.pending - {key} else s.pending;
             s' == Go(s, t, Finished).(pending := pending)
    ensures Inv(s')
  {
    assert HoldsRight(s, t, s.threads[t]);
    PendingIffCurrent(s, t);
    if entry.gen == Era(s) {
      OwnReservation(s, s', t);
    } else {
      SameReservations(s, s', t);
    }
    ShrinkTables(s, s', t, Finished);
    LocalStep(s, s', t, Finished);
  }

  lemma CompleteInv(s: Proxy, t: nat, key: Key, entry: Entry, cancelled: bool)
    requires Inv(s) && t in s.threads && s.threads[t] == Creating(key, entry)
    ensures Inv(AfterComplete(s, t, key, entry, cancelled))
  {
    var s' := AfterComplete(s, t, key, entry, cancelled);
    PendingIffCurrent(s, t);
    if entry.gen == Era(s) && !cancelled && key !in s.sessions {
      assert Informed(s, s.threads[t]) && HoldsRight(s, t, s.threads[t]);
      OwnReservation(s, s', t);
      InstallTables(s, s', key, entry, t);
      LocalStep(s, s', t, Serving(key, entry));
    } else {
      DropInv(s, t, key, entry, s');
    }
  }

  lemma InstallTables(s: Proxy, s': Proxy, key: Key, entry: Entry, t: nat)
    requires Inv(s) && key in s.pending && s.pending[key] == entry
    requires s' == s.(threads := s'.threads, pending := s.pending - {key},
                      sessions := s.sessions[key := Session(entry, t)])
    ensures Tables(s')
  {
  }

  lemma CloseInv(s: Proxy, t: nat, key: Key, entry: Entry)
    requires Inv(s) && t in s.threads && s.threads[t] == Serving(key, entry)
    ensures Inv(AfterClose(s, t, key, entry))
  {
    assert HoldsRight(s, t, s.threads[t]);
    QuietStep(s, AfterClose(s, t, key, entry), t, Finished);
  }

  lemma AdvanceInv(s: Proxy, t: nat, rules: map<Addr, set<nat>>, groups: Option<map<Addr, nat>>)
    requires Inv(s) && t !in s.threads && s.mu.Free?
    ensures Inv(AfterAdvance(s, t, rules, groups))
  {
    var s' := AfterAdvance(s, t, rules, groups);
    forall u | u in s'.threads
      ensures Informed(s', s'.threads[u]) && HoldsRight(s', u, s'.threads[u])
    {
      assert u != t ==> Informed(s, s.threads[u]) && HoldsRight(s, u, s.threads[u]);
    }
  }

  lemma CloseSessionsInv(s: Proxy, t: nat, rules: map<Addr, set<nat>>, groups: Option<map<Addr, nat>>)
    requires Inv(s) && t in s.threads && s.threads[t] == Advanced(rules, groups) && s.udpMu.None?
    ensures Inv(AfterCloseSessions(s, t, rules, groups))
  {
    var s' := AfterCloseSessions(s, t, rules, groups);
    assert HoldsRight(s, t, s.threads[t]);
    forall u | u in s'.threads
      ensures Informed(s', s'.threads[u]) && HoldsRight(s', u, s'.threads[u])
    {
      assert u != t ==> Informed(s, s.threads[u]) && HoldsRight(s, u, s.threads[u]);
    }
  }

  lemma CommitInv(s: Proxy, t: nat, rules: map<Addr, set<nat>>, groups: Option<map<Addr, nat>>)
    requires Inv(s) && t in s.threads && s.threads[t] == Cleared(rules, groups)
    ensures Inv(AfterCommit(s, t, rules, groups))
  {
    var s' := AfterCommit(s, t, rules, groups);
    assert HoldsRight(s, t, s.threads[t]);
    forall u | u in s'.threads
      ensures Informed(s', s'.threads[u]) && HoldsRight(s', u, s'.threads[u])
    {
      assert u != t ==> Informed(s, s.threads[u]) && HoldsRight(s, u, s.threads[u]);
    }
  }

  lemma RegroupInv(s: Proxy, lookup: map<Addr, nat>)
    requires Inv(s) && s.mu.Free?
    ensures Inv(s.(peerGroup := lookup, regrouped := true))
  {
    var s' := s.(peerGroup := lookup, regrouped := true);
    forall u | u in s'.threads
      ensures Informed(s', s'.threads[u]) && HoldsRight(s', u, s'.threads[u])
    {
      assert Informed(s, s.threads[u]) && HoldsRight(s, u, s.threads[u]);
    }
  }

  /** Every step of every goroutine keeps the invariant. */
  lemma StepInv(s: Proxy, a: Action)
    requires Inv(s) && Enabled(s, a)
    ensures Inv(Step(s, a))
  {
    match a
    case Arrive(t, key) => QuietStep(s, Step(s, a), t, Arrived(key));
    case ReadRule(t) => ReadRuleInv(s, t, s.threads[t].key);
    case CheckPeer(t) => CheckPeerInv(s, t, s.threads[t].key, s.threads[t].rule, s.threads[t].gen);
    case LockAndRecheck(t) => RecheckInv(s, t, s.threads[t].key, s.threads[t].rule, s.threads[t].entry);
    case CrossLocks(t) => CrossInv(s, t, s.threads[t].key, s.threads[t].rule, s.threads[t].entry);
    case Publish(t) => PublishInv(s, t, s.threads[t].key, s.threads[t].rule, s.threads[t].entry);
    case Abandon(t) => AbandonInv(s, t, s.threads[t].key, s.threads[t].entry);
    case Complete(t, cancelled) => CompleteInv(s, t, s.threads[t].key, s.threads[t].entry, cancelled);
    case Close(t) => CloseInv(s, t, s.threads[t].key, s.threads[t].entry);
    case Advance(t, rules, groups) => AdvanceInv(s, t, rules, groups);
    case CloseSessions(t) => CloseSessionsInv(s, t, s.threads[t].rules, s.threads[t].groups);
    case Commit(t) => CommitInv(s, t, s.threads[t].rules, s.threads[t].groups);
    case SetPeerGroups(lookup) => RegroupInv(s, lookup);
  }

  lemma {:induction false} ReachableInv(s: Proxy, run: seq<Action>)
    requires After(run) == Some(s)
    ensures Inv(s)
    decreases |run|
  {
    if run != [] {
      var before := After(run[..|run| - 1]).value;
      ReachableInv(before, run[..|run| - 1]);
      StepInv(before, run[|run| - 1]);
    }
  }

  /** Whenever no Apply or Stop is inside its critical section, every entry carries the current
      generation, no key is both pending and active, and the group admitted for each entry is on the
      allow list of the rule now applied; unless SetPeerGroups intervened it is also the client's group now. */
  lemma UdpSafety(s: Proxy, run: seq<Action>, k: Key)
    requires After(run) == Some(s) && !Applying(s)
    ensures k in s.pending ==> s.pending[k].gen == s.gen && k !in s.sessions && Admitted(s, k, s.pending[k])
    ensures k in s.sessions ==> s.sessions[k].entry.gen == s.gen && Admitted(s, k, s.sessions[k].entry)
  {
    ReachableInv(s, run);
  }

  /** An Apply or Stop has advanced the generation and not yet closed the sessions. */
  predicate InWindow(s: Proxy) {
    s.mu.Applier? && !s.mu.closed
  }

  /** Completions of this generation still count: the current one, or the previous one inside the window. */
  predicate StillCounts(s: Proxy, gen: nat) {
    if InWindow(s) then gen + 1 == s.gen else gen == s.gen
  }

  /** A completion or failure acts on its own reservation, and on nothing else, exactly when its generation
      still counts; otherwise it removes and installs nothing. */
  lemma CompletionIff(s: Proxy, run: seq<Action>, t: nat)
    requires After(run) == Some(s) && t in s.threads && s.threads[t].Creating? && s.udpMu.None?
    ensures var Creating(key, entry) := s.threads[t];
            var done, cancelled, failed := Step(s, Complete(t, false)), Step(s, Complete(t, true)), Step(s, Abandon(t));
            if StillCounts(s, entry.gen) then
              && key in s.pending && s.pending[key] == entry && key !in s.sessions
              && done.sessions == s.sessions[key := Session(entry, t)] && done.pending == s.pending - {key}
              && cancelled.sessions == failed.sessions == s.sessions
              && cancelled.pending == failed.pending == s.pending - {key}
            else
              && done.sessions == cancelled.sessions == failed.sessions == s.sessions
              && done.pending == cancelled.pending == failed.pending == s.pending
  {
    ReachableInv(s, run);
    PendingIffCurrent(s, t);
    assert Informed(s, s.threads[t]);
  }

  /** No two goroutines hold reservations of the same key that still count. */
  lemma ReservationsAreOwned(s: Proxy, run: seq<Action>, t: nat, u: nat)
    requires After(run) == Some(s) && t in s.threads && u in s.threads
    requires s.threads[t].Creating? && s.threads[u].Creating? && s.threads[t].key == s.threads[u].key
    requires StillCounts(s, s.threads[t].entry.gen) && StillCounts(s, s.threads[u].entry.gen)
    ensures t == u
  {
    ReachableInv(s, run);
  }

  lemma {:induction false} GenerationGrows(run: seq<Action>, more: seq<Action>)
    requires After(run).Some? && After(run + more).Some?
    ensures After(run).value.gen <= After(run + more).value.gen
    decreases |more|
  {
    if more == [] {
      assert run + more == run;
    } else {
      var front := more[..|more| - 1];
      assert (run + more)[..|run + more| - 1] == run + front;
      GenerationGrows(run, front);
    }
  }

  /** What a completion installs inside the window is removed by the Apply or Stop it raced with. */
  lemma WindowInstallIsRemoved(s: Proxy, run: seq<Action>, t: nat)
    requires After(run) == Some(s) && t in s.threads && s.threads[t].Creating? && s.udpMu.None?
    requires InWindow(s) && StillCounts(s, s.threads[t].entry.gen)
    ensures var mid := Step(s, Complete(t, false));
            && s.threads[t].key in mid.sessions && Enabled(mid, CloseSessions(s.mu.t))
            && Step(mid, CloseSessions(s.mu.t)).sessions == map[] && Step(mid, CloseSessions(s.mu.t)).pending == map[]
  {
    CompletionIff(s, run, t);
    ReachableInv(s, run);
    assert HoldsRight(s, s.mu.t, s.threads[s.mu.t]);
  }

  /** No run leaves the critical section with an entry of a generation that was already old before. */
  lemma OldEntriesNeverSurvive(run: seq<Action>, more: seq<Action>, k: Key)
    requires After(run).Some? && After(run + more).Some? && !Applying(After(run + more).value)
    ensures var s, s' := After(run).value, After(run + more).value;
            && (k in s'.sessions ==> s'.sessions[k].entry.gen >= s.gen)
            && (k in s'.pending ==> s'.pending[k].gen >= s.gen)
  {
    GenerationGrows(run, more);
    UdpSafety(After(run + more).value, run + more, k);
  }

  /** The window is reachable: an old generation's completion installs a session there. */
  lemma WindowInstalls()
    ensures exists run, s, t :: After(run) == Some(s) && t in s.threads && s.threads[t].Creating?
              && s.threads[t].entry.gen < s.gen && Enabled(s, Complete(t, false))
              && Step(s, Complete(t, false)).sessions != s.sessions
  {
    var k := Key(1, 2, 0);
    var run, s := ReservedRun(k);
    run, s := Extend(run, s, Advance(2, map[], None));
    CompletionIff(s, run, 1);
    assert k in Step(s, Complete(1, false)).sessions;
  }

  // ---------- Closing a session ----------

  /** When a serving goroutine closes, its flow loses its session exactly if that is the very session the goroutine
      installed; no other flow, no reservation and no rule is touched. */
  lemma CloseIff(s: Proxy, run: seq<Action>, t: nat, key: Key, entry: Entry)
    requires After(run) == Some(s) && t in s.threads && s.threads[t] == Serving(key, entry) && s.udpMu.None?
    ensures var s' := Step(s, Close(t));
            && (key in s.sessions && key !in s'.sessions <==> key in s.sessions && s.sessions[key] == Session(entry, t))
            && (forall k :: k in s'.sessions ==> k in s.sessions && s'.sessions[k] == s.sessions[k])
            && (forall k :: k in s.sessions && k != key ==> k in s'.sessions)
            && s'.pending == s.pending && s'.rules == s.rules && s'.gen == s.gen && s'.peerGroup == s.peerGroup
            && s'.threads[t] == Finished
  {
  }

  /** A goroutine that serves a flow still has the session it installed, until the sessions of its generation
      are closed. */
  ghost predicate Serves(s: Proxy, t: nat, pc: Pc) {
    pc.Serving? ==>
      && pc.entry.gen <= Era(s)
      && (pc.entry.gen == Era(s) ==> pc.key in s.sessions && s.sessions[pc.key] == Session(pc.entry, t))
  }

  /** Removing one's own session takes nobody else's away. */
  lemma RemoveServes(s: Proxy, s': Proxy, t: nat, key: Key, u: nat)
    requires s'.threads == s.threads[t := Finished] && Era(s') == Era(s)
    requires key in s.sessions && s.sessions[key].owner == t && s'.sessions == s.sessions - {key}
    requires u in s'.threads && (u in s.threads ==> Serves(s, u, s.threads[u]))
    ensures Serves(s', u, s'.threads[u])
  {
  }

  lemma CloseServes(s: Proxy, t: nat, key: Key, entry: Entry, s': Proxy, u: nat)
    requires s' == AfterClose(s, t, key, entry)
    requires u in s'.threads && (u in s.threads ==> Serves(s, u, s.threads[u]))
    ensures Serves(s', u, s'.threads[u])
  {
    if key in s.sessions && s.sessions[key] == Session(entry, t) {
      RemoveServes(s, s', t, key, u);
    } else {
      MoveServes(s, s', t, Finished, u);
    }
  }

  /** A session installed on a free flow takes nobody's away. */
  lemma InstallServes(s: Proxy, s': Proxy, t: nat, key: Key, entry: Entry, u: nat)
    requires s'.threads == s.threads[t := Serving(key, entry)] && Era(s') == Era(s) && entry.gen == Era(s)
    requires key !in s.sessions && s'.sessions == s.sessions[key := Session(entry, t)]
    requires u in s'.threads && (u in s.threads ==> Serves(s, u, s.threads[u]))
    ensures Serves(s', u, s'.threads[u])
  {
  }

  lemma CompleteServes(s: Proxy, t: nat, key: Key, entry: Entry, cancelled: bool, s': Proxy, u: nat)
    requires Inv(s) && t in s.threads && s.threads[t] == Creating(key, entry)
    requires s' == AfterComplete(s, t, key, entry, cancelled)
    requires u in s'.threads && (u in s.threads ==> Serves(s, u, s.threads[u]))
    ensures Serves(s', u, s'.threads[u])
  {
    PendingIffCurrent(s, t);
    if entry.gen == Era(s) && !cancelled && key !in s.sessions {
      InstallServes(s, s', t, key, entry, u);
    } else {
      MoveServes(s, s', t, Finished, u);
    }
  }

  /** A step that moves goroutine t, not to serving, and either leaves sessions and era alone or starts a new era. */
  lemma MoveServes(s: Proxy, s': Proxy, t: nat, pc: Pc, u: nat)
    requires s'.threads == s.threads[t := pc] && !pc.Serving? && u in s'.threads
    requires u in s.threads ==> Serves(s, u, s.threads[u])
    requires (Era(s') == Era(s) && s'.sessions == s.sessions) || Era(s') > Era(s)
    ensures Serves(s', u, s'.threads[u])
  {
  }

  lemma ReadServes(s: Proxy, t: nat, key: Key, s': Proxy, u: nat)
    requires s' == AfterReadRule(s, t, key)
    requires u in s'.threads && (u in s.threads ==> Serves(s, u, s.threads[u]))
    ensures Serves(s', u, s'.threads[u])
  {
    if key.vip !in s.rules {
      MoveServes(s, s', t, Finished, u);
    } else {
      MoveServes(s, s', t, RuleRead(key, s.rules[key.vip], s.gen), u);
    }
  }

  lemma CheckServes(s: Proxy, t: nat, key: Key, rule: Rule, gen: nat, s': Proxy, u: nat)
    requires s' == AfterCheckPeer(s, t, key, rule, gen)
    requires u in s'.threads && (u in s.threads ==> Serves(s, u, s.threads[u]))
    ensures Serves(s', u, s'.threads[u])
  {
    if !ClientAllowed(s, rule, key.client) {
      MoveServes(s, s', t, Finished, u);
    } else {
      MoveServes(s, s', t, PeerChecked(key, rule, Entry(gen, s.peerGroup[key.client])), u);
    }
  }

  lemma RecheckServes(s: Proxy, t: nat, key: Key, rule: Rule, entry: Entry, s': Proxy, u: nat)
    requires s' == AfterRecheck(s, t, key, rule, entry)
    requires u in s'.threads && (u in s.threads ==> Serves(s, u, s.threads[u]))
    requires s.mu.Free?
    ensures Serves(s', u, s'.threads[u])
  {
    if s.gen != entry.gen || key.vip !in s.rules || s.rules[key.vip] != rule {
      MoveServes(s, s', t, Finished, u);
    } else {
      MoveServes(s, s', t, HoldsMu(key, rule, entry), u);
    }
  }

  lemma CrossServes(s: Proxy, t: nat, key: Key, rule: Rule, entry: Entry, s': Proxy, u: nat)
    requires s' == AfterCross(s, t, key, rule, entry)
    requires u in s'.threads && (u in s.threads ==> Serves(s, u, s.threads[u]))
    requires s.mu == Handler(t)
    ensures Serves(s', u, s'.threads[u])
  {
    MoveServes(s, s', t, HoldsUdpMu(key, rule, entry), u);
  }

  lemma PublishServes(s: Proxy, t: nat, key: Key, entry: Entry, s': Proxy, u: nat)
    requires s' == AfterPublish(s, t, key, entry)
    requires u in s'.threads && (u in s.threads ==> Serves(s, u, s.threads[u]))
    ensures Serves(s', u, s'.threads[u])
  {
    if key in s.sessions || key in s.pending {
      MoveServes(s, s', t, Finished, u);
    } else {
      MoveServes(s, s', t, Creating(key, entry), u);
    }
  }

  lemma AbandonServes(s: Proxy, t: nat, key: Key, entry: Entry, s': Proxy, u: nat)
    requires s' == AfterAbandon(s, t, key, entry)
    requires u in s'.threads && (u in s.threads ==> Serves(s, u, s.threads[u]))
    ensures Serves(s', u, s'.threads[u])
  {
    assert s'.sessions == s.sessions && s'.mu == s.mu && s'.gen == s.gen;
    MoveServes(s, s', t, Finished, u);
  }

  lemma AdvanceServes(s: Proxy, t: nat, rules: map<Addr, set<nat>>, groups: Option<map<Addr, nat>>, s': Proxy, u: nat)
    requires s' == AfterAdvance(s, t, rules, groups)
    requires u in s'.threads && (u in s.threads ==> Serves(s, u, s.threads[u]))
    requires s.mu.Free?
    ensures Serves(s', u, s'.threads[u])
  {
    MoveServes(s, s', t, Advanced(rules, groups), u);
  }

  lemma ClearServes(s: Proxy, t: nat, rules: map<Addr, set<nat>>, groups: Option<map<Addr, nat>>, s': Proxy, u: nat)
    requires s' == AfterCloseSessions(s, t, rules, groups)
    requires u in s'.threads && (u in s.threads ==> Serves(s, u, s.threads[u]))
    requires s.mu == Applier(t, false)
    ensures Serves(s', u, s'.threads[u])
  {
    MoveServes(s, s', t, Cleared(rules, groups), u);
  }

  lemma CommitServes(s: Proxy, t: nat, rules: map<Addr, set<nat>>, groups: Option<map<Addr, nat>>, s': Proxy, u: nat)
    requires s' == AfterCommit(s, t, rules, groups)
    requires u in s'.threads && (u in s.threads ==> Serves(s, u, s.threads[u]))
    requires s.mu == Applier(t, true)
    ensures Serves(s', u, s'.threads[u])
  {
    MoveServes(s, s', t, Finished, u);
  }

  lemma StepServes(s: Proxy, a: Action, s': Proxy, u: nat)
    requires Inv(s) && Enabled(s, a) && s' == Step(s, a) && u in s'.threads
    requires u in s.threads ==> Serves(s, u, s.threads[u])
    ensures Serves(s', u, s'.threads[u])
  {
    if !a.SetPeerGroups? && a.t in s.threads {
      assert HoldsRight(s, a.t, s.threads[a.t]);
    }
    match a
    case Arrive(t, key) => MoveServes(s, s', t, Arrived(key), u);
    case ReadRule(t) => ReadServes(s, t, s.threads[t].key, s', u);
    case CheckPeer(t) => CheckServes(s, t, s.threads[t].key, s.threads[t].rule, s.threads[t].gen, s', u);
    case LockAndRecheck(t) => RecheckServes(s, t, s.threads[t].key, s.threads[t].rule, s.threads[t].entry, s', u);
    case CrossLocks(t) => CrossServes(s, t, s.threads[t].key, s.threads[t].rule, s.threads[t].entry, s', u);
    case Publish(t) => PublishServes(s, t, s.threads[t].key, s.threads[t].entry, s', u);
    case Abandon(t) => AbandonServes(s, t, s.threads[t].key, s.threads[t].entry, s', u);
    case Complete(t, cancelled) => CompleteServes(s, t, s.threads[t].key, s.threads[t].entry, cancelled, s', u);
    case Close(t) => CloseServes(s, t, s.threads[t].key, s.threads[t].entry, s', u);
    case Advance(t, rules, groups) => AdvanceServes(s, t, rules, groups, s', u);
    case CloseSessions(t) => ClearServes(s, t, s.threads[t].rules, s.threads[t].groups, s', u);
    case Commit(t) => CommitServes(s, t, s.threads[t].rules, s.threads[t].groups, s', u);
    case SetPeerGroups(lookup) =>
  }

  /** In every reachable state no other goroutine's close, completion or failure has taken a serving
      goroutine's session away. */
  lemma {:induction false} SessionsAreKept(s: Proxy, run: seq<Action>, t: nat)
    requires After(run) == Some(s) && t in s.threads
    ensures Serves(s, t, s.threads[t])
    decreases |run|
  {
    if run != [] {
      var front, a := run[..|run| - 1], run[|run| - 1];
      var before := After(front).value;
      ReachableInv(before, front);
      if t in before.threads {
        SessionsAreKept(before, front, t);
      }
      StepServes(before, a, s, t);
    }
  }

  /** A close that comes after its generation has passed removes no session. */
  lemma LateCloseInert(s: Proxy, run: seq<Action>, t: nat, key: Key, entry: Entry)
    requires After(run) == Some(s) && t in s.threads && s.threads[t] == Serving(key, entry) && s.udpMu.None?
    requires !StillCounts(s, entry.gen)
    ensures Step(s, Close(t)).sessions == s.sessions
  {
    ReachableInv(s, run);
    CloseIff(s, run, t, key, entry);
  }

  /** Goroutine 1 serves a flow; after an Apply goroutine 3 serves it. */
  lemma ReplacedRun(k: Key) returns (run: seq<Action>, s: Proxy)
    requires k.client == 1 && k.vip == 2
    ensures After(run) == Some(s) && s.mu.Free? && s.udpMu.None? && s.gen == 2 && k in s.sessions
    ensures 1 in s.threads && s.threads[1] == Serving(k, Entry(1, 5))
  {
    run, s := ServedRun(k);
    run, s := ApplyMeaning(run, s, 2, map[2 := {5}], map[1 := 5]);
    run, s := HandlerMeaning(run, s, 3, k);
    run, s := Completes(run, s, 3, k, Entry(2, 5));
  }

  /** It is reachable that another goroutine's session of the same flow must survive such a close. */
  lemma LateCloseSpares() returns (run: seq<Action>, s: Proxy, k: Key)
    ensures After(run) == Some(s) && Enabled(s, Close(1)) && s.threads[1] == Serving(k, Entry(1, 5))
    ensures k in s.sessions && Step(s, Close(1)).sessions == s.sessions
  {
    k := Key(1, 2, 0);
    run, s := ReplacedRun(k);
    LateCloseInert(s, run, 1, k, Entry(1, 5));
  }

  /** A completion that counts installs its session. */
  lemma Completes(run: seq<Action>, s: Proxy, t: nat, k: Key, entry: Entry) returns (run': seq<Action>, s': Proxy)
    requires After(run) == Some(s) && s.mu.Free? && s.udpMu.None?
    requires t in s.threads && s.threads[t] == Creating(k, entry)
    requires k in s.pending && s.pending[k].gen == entry.gen && k !in s.sessions
    ensures After(run') == Some(s')
    ensures s' == Go(s, t, Serving(k, entry)).(pending := s.pending - {k},
                                               sessions := s.sessions[k := Session(entry, t)])
  {
    run', s' := Extend(run, s, Complete(t, false));
  }

  /** A goroutine that serves a flow, from the start. */
  lemma ServedRun(k: Key) returns (run: seq<Action>, s: Proxy)
    requires k.client == 1 && k.vip == 2
    ensures After(run) == Some(s) && s.mu.Free? && s.udpMu.None? && s.gen == 1 && s.rules == map[2 := Rule(1, {5})]
    ensures s.threads.Keys == {0, 1} && s.threads[1] == Serving(k, Entry(1, 5))
    ensures s.peerGroup == map[1 := 5] && s.pending == map[] && s.sessions == map[k := Session(Entry(1, 5), 1)]
  {
    run, s := ReservedRun(k);
    run, s := Completes(run, s, 1, k, Entry(1, 5));
  }

  // ---------- Whole calls, undisturbed ----------

  /** peerAllowed in the inputs' own terms: the VIP has a rule, and the client a group that it lists. */
  ghost predicate MayUse(s: Proxy, k: Key) {
    && k.vip in s.rules && k.client in s.peerGroup
    && s.peerGroup[k.client] != 0 && s.peerGroup[k.client] in s.rules[k.vip].allowed
  }

  lemma GoTwice(s: Proxy, t: nat, pc: Pc, pc': Pc)
    ensures Go(Go(s, t, pc), t, pc') == Go(s, t, pc')
  {
    assert s.threads[t := pc][t := pc'] == s.threads[t := pc'];
  }

  lemma Reads(run: seq<Action>, s: Proxy, t: nat, k: Key) returns (run': seq<Action>, s': Proxy)
    requires After(run) == Some(s) && s.mu.Free? && t !in s.threads
    ensures After(run') == Some(s')
    ensures s' == if k.vip in s.rules then Go(s, t, RuleRead(k, s.rules[k.vip], s.gen)) else Go(s, t, Finished)
  {
    run', s' := Extend(run, s, Arrive(t, k));
    var arrived := s';
    assert arrived == Go(s, t, Arrived(k));
    run', s' := Extend(run', arrived, ReadRule(t));
    assert s' == AfterReadRule(arrived, t, k);
    GoTwice(s, t, Arrived(k), s'.threads[t]);
  }

  lemma Checks(run: seq<Action>, s: Proxy, s0: Proxy, t: nat, k: Key) returns (run': seq<Action>, s': Proxy)
    requires After(run) == Some(s) && s0.mu.Free? && k.vip in s0.rules
    requires s == Go(s0, t, RuleRead(k, s0.rules[k.vip], s0.gen))
    ensures After(run') == Some(s')
    ensures s' == Go(s0, t, if MayUse(s0, k) then PeerChecked(k, s0.rules[k.vip], Entry(s0.gen, s0.peerGroup[k.client]))
                            else Finished)
  {
    run', s' := Extend(run, s, CheckPeer(t));
    assert s' == AfterCheckPeer(s, t, k, s0.rules[k.vip], s0.gen);
    GoTwice(s0, t, s.threads[t], s'.threads[t]);
  }

  lemma Rechecks(run: seq<Action>, s: Proxy, s0: Proxy, t: nat, k: Key, entry: Entry)
    returns (run': seq<Action>, s': Proxy)
    requires After(run) == Some(s) && s0.mu.Free? && s0.udpMu.None? && k.vip in s0.rules && entry.gen == s0.gen
    requires s == Go(s0, t, PeerChecked(k, s0.rules[k.vip], entry))
    ensures After(run') == Some(s')
    ensures s' == Go(s0, t, HoldsUdpMu(k, s0.rules[k.vip], entry)).(udpMu := Some(t))
  {
    var rule := s0.rules[k.vip];
    run', s' := Extend(run, s, LockAndRecheck(t));
    assert s' == Go(s, t, HoldsMu(k, rule, entry)).(mu := Handler(t));
    GoTwice(s0, t, s.threads[t], HoldsMu(k, rule, entry));
    var held := s';
    assert held == Go(s0, t, HoldsMu(k, rule, entry)).(mu := Handler(t));
    run', s' := Extend(run', held, CrossLocks(t));
    assert s' == AfterCross(held, t, k, rule, entry);
    GoTwice(s0, t, HoldsMu(k, rule, entry), HoldsUdpMu(k, rule, entry));
  }

  lemma Publishes(run: seq<Action>, s: Proxy, s0: Proxy, t: nat, k: Key, rule: Rule, entry: Entry)
    returns (run': seq<Action>, s': Proxy)
    requires After(run) == Some(s) && s0.udpMu.None? && s == Go(s0, t, HoldsUdpMu(k, rule, entry)).(udpMu := Some(t))
    ensures After(run') == Some(s')
    ensures s' == if k in s0.sessions || k in s0.pending then Go(s0, t, Finished)
                  else Go(s0, t, Creating(k, entry)).(pending := s0.pending[k := entry])
  {
    run', s' := Extend(run, s, Publish(t));
    assert s' == AfterPublish(s, t, k, entry);
    GoTwice(s0, t, HoldsUdpMu(k, rule, entry), s'.threads[t]);
  }

  /** A packet handled without interference reserves its flow, for its client's group and the current generation,
      exactly if the client may use the map and the flow is neither active nor pending. Nothing else changes. */
  lemma HandlerMeaning(run: seq<Action>, s: Proxy, t: nat, k: Key) returns (run': seq<Action>, s': Proxy)
    requires After(run) == Some(s) && s.mu.Free? && s.udpMu.None? && t !in s.threads
    ensures After(run') == Some(s')
    ensures if MayUse(s, k) && k !in s.sessions && k !in s.pending then
              var entry := Entry(s.gen, s.peerGroup[k.client]);
              s' == Go(s, t, Creating(k, entry)).(pending := s.pending[k := entry])
            else s' == Go(s, t, Finished)
  {
    run', s' := Reads(run, s, t, k);
    if k.vip in s.rules {
      run', s' := Checks(run', s', s, t, k);
      if MayUse(s, k) {
        var entry := Entry(s.gen, s.peerGroup[k.client]);
        run', s' := Rechecks(run', s', s, t, k, entry);
        run', s' := Publishes(run', s', s, t, k, s.rules[k.vip], entry);
      }
    }
  }

  /** An Apply without interference closes everything and puts exactly the given allow lists and groups in force. */
  lemma ApplyMeaning(run: seq<Action>, s: Proxy, t: nat, rules: map<Addr, set<nat>>, groups: map<Addr, nat>)
    returns (run': seq<Action>, s': Proxy)
    requires After(run) == Some(s) && s.mu.Free? && s.udpMu.None? && t !in s.threads
    ensures After(run') == Some(s') && s'.mu.Free? && s'.gen == s.gen + 1
    ensures s'.pending == map[] && s'.sessions == map[] && s'.peerGroup == groups && !s'.regrouped
    ensures s'.rules.Keys == rules.Keys && forall vip :: vip in rules ==> s'.rules[vip].allowed == rules[vip]
    ensures s'.threads == s.threads[t := Finished] && s'.udpMu.None?
  {
    run', s' := Extend(run, s, Advance(t, rules, Some(groups)));
    run', s' := Extend(run', s', CloseSessions(t));
    run', s' := Extend(run', s', Commit(t));
  }

  /** A Stop without interference closes everything, and no map is served afterwards. */
  lemma StopMeaning(run: seq<Action>, s: Proxy, t: nat) returns (run': seq<Action>, s': Proxy)
    requires After(run) == Some(s) && s.mu.Free? && s.udpMu.None? && t !in s.threads
    ensures After(run') == Some(s') && s'.mu.Free? && s'.gen == s.gen + 1
    ensures s'.pending == map[] && s'.sessions == map[] && s'.rules == map[] && s'.peerGroup == s.peerGroup
    ensures forall k :: !MayUse(s', k)
  {
    run', s' := Extend(run, s, Advance(t, map[], None));
    run', s' := Extend(run', s', CloseSessions(t));
    run', s' := Extend(run', s', Commit(t));
  }

  // ---------- No deadlock ----------

  /** Holding a lock or waiting for one, not creating or serving. */
  predicate InCriticalSection(pc: Pc) {
    pc.HoldsMu? || pc.HoldsUdpMu? || pc.Advanced? || pc.Cleared?
  }

  /** Taking the locks in this order never blocks for good: whenever a lock is held, some goroutine inside its
      critical section can go on. */
  lemma NoDeadlock(s: Proxy, run: seq<Action>) returns (a: Action)
    requires After(run) == Some(s) && (!s.mu.Free? || s.udpMu.Some?)
    ensures Enabled(s, a) && (a.CrossLocks? || a.Publish? || a.CloseSessions? || a.Commit?)
    ensures a.t in s.threads && InCriticalSection(s.threads[a.t])
  {
    ReachableInv(s, run);
    if s.udpMu.Some? {
      var t := s.udpMu.value;
      assert HoldsRight(s, t, s.threads[t]);
      a := Publish(t);
    } else {
      var t := s.mu.t;
      assert HoldsRight(s, t, s.threads[t]);
      a := match s.mu
           case Handler(_) => CrossLocks(t)
           case Applier(_, closed) => if closed then Commit(t) else CloseSessions(t);
    }
  }

  // ---------- SetPeerGroups ----------

  /** The flow has a reservation or a session. */
  predicate HasEntry(s: Proxy, k: Key) {
    k in s.pending || k in s.sessions
  }

  /** peerAllowed would let every flow that has an entry through now. */
  ghost predicate AllAllowed(s: Proxy) {
    forall k :: HasEntry(s, k) ==> k.vip in s.rules && ClientAllowed(s, s.rules[k.vip], k.client)
  }

  /** Outside Apply and Stop, and until SetPeerGroups is called, every entry's client is allowed. */
  lemma EntriesAllowed(s: Proxy, run: seq<Action>)
    requires After(run) == Some(s) && !Applying(s) && !s.regrouped
    ensures AllAllowed(s)
  {
    ReachableInv(s, run);
  }

  /** SetPeerGroups closes nothing: afterwards every entry, pending or active, is allowed exactly when
      the new lookup puts each of their clients in some group the applied rule allows. */
  lemma RegroupingIff(s: Proxy, run: seq<Action>, lookup: map<Addr, nat>)
    requires After(run) == Some(s) && s.mu.Free?
    ensures var s' := Step(s, SetPeerGroups(lookup));
            && After(run + [SetPeerGroups(lookup)]) == Some(s')
            && (forall k :: HasEntry(s', k) <==> HasEntry(s, k))
            && (AllAllowed(s') <==>
                forall k :: HasEntry(s, k) ==>
                  && k.client in lookup && lookup[k.client] != 0
                  && k.vip in s.rules && lookup[k.client] in s.rules[k.vip].allowed)
  {
    ReachableInv(s, run);
    AfterSnoc(run, s, SetPeerGroups(lookup));
    var s' := Step(s, SetPeerGroups(lookup));
    forall k | HasEntry(s, k)
      ensures k.vip in s.rules && |s.rules[k.vip].allowed| != 0
    {
      assert k in s.pending ==> Admitted(s, k, s.pending[k]);
      assert k in s.sessions ==> Admitted(s, k, s.sessions[k].entry);
    }
  }

  /** A reachable active session; regrouping its client then leaves a disallowed session running. */
  lemma RegroupingLeavesSession()
    ensures exists run, s, k :: After(run) == Some(s) && !Applying(s) && k in s.sessions
              && k.vip in s.rules && !ClientAllowed(s, s.rules[k.vip], k.client)
  {
    var k := Key(1, 2, 0);
    var run, s := ReservedRun(k);
    CompletionIff(s, run, 1);
    run, s := Extend(run, s, Complete(1, false));
    run, s := Extend(run, s, SetPeerGroups(map[1 := 6]));
    assert k in s.sessions;
  }

  lemma AppliedRun() returns (run: seq<Action>, s: Proxy)
    ensures After(run) == Some(s)
    ensures s == Proxy(map[0 := Finished], Free, None, 1, map[2 := Rule(1, {5})], map[1 := 5], map[], map[], false)
  {
    run, s := [], Initial();
    run, s := Extend(run, s, Advance(0, map[2 := {5}], Some(map[1 := 5])));
    run, s := Extend(run, s, CloseSessions(0));
    run, s := Extend(run, s, Commit(0));
  }

  lemma ReservedRun(k: Key) returns (run: seq<Action>, s: Proxy)
    requires k.client == 1 && k.vip == 2
    ensures After(run) == Some(s) && s.mu.Free? && s.udpMu.None? && s.gen == 1 && s.rules == map[2 := Rule(1, {5})]
    ensures s.threads.Keys == {0, 1} && s.threads[1] == Creating(k, Entry(1, 5))
    ensures s.pending == map[k := Entry(1, 5)] && s.sessions == map[] && s.peerGroup == map[1 := 5]
  {
    run, s := AppliedRun();
    run, s := HandlerMeaning(run, s, 1, k);
  }

  lemma Extend(run: seq<Action>, s: Proxy, a: Action) returns (run': seq<Action>, s': Proxy)
    requires After(run) == Some(s) && Enabled(s, a)
    ensures run' == run + [a] && s' == Step(s, a) && After(run') == Some(s')
  {
    run', s' := run + [a], Step(s, a);
    AfterSnoc(run, s, a);
  }

  lemma AfterSnoc(run: seq<Action>, s: Proxy, a: Action)
    requires After(run) == Some(s) && Enabled(s, a)
    ensures After(run + [a]) == Some(Step(s, a))
  {
  }
}
