/** Addresses over all runs of the store. Allocate-then-insert is serialized by ipAllocationMu; deletes,
    and updates that read a row and save a copy of it later, interleave with it at store level. The service
    layer serializes whole calls with controlMu (internal/repo/peers.go, maps.go, ip_alloc.go and models.go,
    internal/service/peers.go and maps.go). */
module AddressStore {
  import opened Bytes
  import opened Allocator

  /** A row of the peer table or of the map table. Row ids are never reissued. */
  datatype Key = Key(isMap: bool, id: nat)

  /** An allocation in progress: the three tables are read one after the other. */
  datatype Stage = ReadNothing | ReadPeers | ReadMaps | ReadAll
  datatype Pending = Pending(owner: nat, isMap: bool, used: set<Addr>, stage: Stage)

  /** An update between reading its row and saving it. */
  datatype Copy = Copy(key: Key, addr: Addr)

  /** A service call, as the holder of controlMu. */
  datatype Call = Creating(isMap: bool) | Updating(key: Key) | Deleting(key: Key)
  datatype Holder = Holder(t: nat, call: Call)

  datatype Store = Store(
    subnet: Subnet,
    hub: Addr,
    dns: Addr,
    rows: map<Key, Addr>,
    records: map<nat, Addr>,
    issued: map<Key, Addr>,       // history: the address each row was created with
    copies: map<nat, Copy>,
    allocating: Option<Pending>,  // Some while ipAllocationMu is held
    control: Option<Holder>)

  /** collectUsedSubnetIPs on the rows the three queries returned; an unset address is None. */
  method CollectUsed(hub: Option<Addr>, dns: Option<Addr>, peers: seq<Addr>, maps: seq<Addr>, records: seq<Addr>)
    returns (used: set<Addr>)
    ensures forall a :: a in used <==> Some(a) in {hub, dns} || a in peers || a in maps || a in records
  {
    used := {};
    if hub.Some? {
      used := used + {hub.value};
    }
    if dns.Some? {
      used := used + {dns.value};
    }
    for i := 0 to |peers|
      invariant forall a :: a in used <==> Some(a) in {hub, dns} || a in peers[..i]
    {
      used := used + {peers[i]};
    }
    for i := 0 to |maps|
      invariant forall a :: a in used <==> Some(a) in {hub, dns} || a in peers || a in maps[..i]
    {
      used := used + {maps[i]};
    }
    for i := 0 to |records|
      invariant forall a :: a in used <==> Some(a) in {hub, dns} || a in peers || a in maps || a in records[..i]
    {
      used := used + {records[i]};
    }
  }

  /** A freshly set up store; setup takes the hub address for DNS too. */
  function Setup(subnet: Subnet, hub: Addr): Store {
    Store(subnet, hub, hub, map[], map[], map[], map[], None, None)
  }

  datatype Action =
    | Lock(t: nat, call: Call)
    | Unlock(t: nat)
    | Begin(t: nat, isMap: bool)
    | CollectPeers(t: nat)
    | CollectMaps(t: nat)
    | CollectRecords(t: nat)
    | Insert(t: nat, id: nat, record: nat)
    | GiveUp(t: nat)
    | Delete(t: nat, key: Key)
    | DeleteRecord(t: nat, id: nat)
    | AddRecord(t: nat, id: nat, ip: Addr)
    | Read(t: nat, key: Key)
    | Save(t: nat)
    | Abandon(t: nat)

  predicate AllocatesAt(s: Store, t: nat, stage: Stage) {
    s.allocating.Some? && s.allocating.value.owner == t && s.allocating.value.stage == stage
  }

  /** What the store itself allows: only ipAllocationMu and the data stand in the way. */
  predicate Enabled(s: Store, a: Action) {
    match a
    case Lock(_, _) => s.control.None?
    case Unlock(t) =>
      && s.control.Some? && s.control.value.t == t && t !in s.copies
      && (s.allocating.Some? ==> s.allocating.value.owner != t)
    case Begin(_, _) => s.allocating.None?
    case CollectPeers(t) => AllocatesAt(s, t, ReadNothing)
    case CollectMaps(t) => AllocatesAt(s, t, ReadPeers)
    case CollectRecords(t) => AllocatesAt(s, t, ReadMaps)
    case Insert(t, id, record) =>
      && AllocatesAt(s, t, ReadAll) && Proper(s.subnet) && NextFree(s.subnet, s.allocating.value.used).Allocated?
      && Key(s.allocating.value.isMap, id) !in s.issued && record !in s.records
    case GiveUp(t) => s.allocating.Some? && s.allocating.value.owner == t
    case AddRecord(_, id, _) => id !in s.records
    case Read(t, key) => t !in s.copies && key in s.rows
    case Save(t) => t in s.copies
    case Abandon(t) => t in s.copies
    case _ => true
  }

  /** The unique index on WGIP or VirtualIP: another row of the same table holds the address. */
  predicate Refused(s: Store, key: Key, ip: Addr) {
    exists k :: k in s.rows && k != key && k.isMap == key.isMap && s.rows[k] == ip
  }

  /** Writing a row, inserting it if it is not there; the index may refuse. */
  function Written(s: Store, key: Key, ip: Addr): map<Key, Addr> {
    if Refused(s, key, ip) then s.rows else s.rows[key := ip]
  }

  function Step(s: Store, a: Action): Store
    requires Enabled(s, a)
  {
    match a
    case Lock(t, call) => s.(control := Some(Holder(t, call)))
    case Unlock(_) => s.(control := None)
    case Begin(t, isMap) => s.(allocating := Some(Pending(t, isMap, {s.hub, s.dns}, ReadNothing)))
    case CollectPeers(_) => Collected(s, TableOf(s, false), ReadPeers)
    case CollectMaps(_) => Collected(s, TableOf(s, true), ReadMaps)
    case CollectRecords(_) => Collected(s, s.records.Values, ReadAll)
    case Insert(_, id, record) =>
      AfterInsert(s, Key(s.allocating.value.isMap, id), NextFree(s.subnet, s.allocating.value.used).addr, record)
    case GiveUp(_) => s.(allocating := None)
    case Delete(_, key) => s.(rows := s.rows - {key})
    case DeleteRecord(_, id) => s.(records := s.records - {id})
    case AddRecord(_, id, ip) => s.(records := s.records[id := ip])
    case Read(t, key) => s.(copies := s.copies[t := Copy(key, s.rows[key])])
    case Save(t) => s.(rows := Written(s, s.copies[t].key, s.copies[t].addr), copies := s.copies - {t})
    case Abandon(t) => s.(copies := s.copies - {t})
  }

  function TableOf(s: Store, isMap: bool): set<Addr> {
    set k | k in s.rows && k.isMap == isMap :: s.rows[k]
  }

  function Collected(s: Store, addrs: set<Addr>, stage: Stage): Store
    requires s.allocating.Some?
  {
    var p := s.allocating.value;
    s.(allocating := Some(p.(used := p.used + addrs, stage := stage)))
  }

  /** The insert transaction; a new peer gets its DNS record in the same transaction. */
  function AfterInsert(s: Store, key: Key, ip: Addr, record: nat): Store {
    if Refused(s, key, ip) then s.(allocating := None)
    else
      s.(rows := s.rows[key := ip], issued := s.issued[key := ip], allocating := None,
         records := if key.isMap then s.records else s.records[record := ip])
  }

  function After(s: Store, run: seq<Action>): Option<Store> {
    if run == [] then Some(s)
    else
      var before := After(s, run[..|run| - 1]);
      if before.Some? && Enabled(before.value, run[|run| - 1]) then Some(Step(before.value, run[|run| - 1])) else None
  }

  // ---------- What holds at store level, whatever interleaves ----------

  /** The row a step writes, if it writes one. */
  function Target(s: Store, a: Action): Option<Copy>
    requires Enabled(s, a)
  {
    match a
    case Save(t) => Some(s.copies[t])
    case Insert(_, id, _) =>
      Some(Copy(Key(s.allocating.value.isMap, id), NextFree(s.subnet, s.allocating.value.used).addr))
    case _ => None
  }

  /** Rows and copies carry the address their row was created with, which is a host address of the subnet. */
  ghost predicate Homed(s: Store) {
    && Proper(s.subnet)
    && (forall k :: k in s.rows ==> k in s.issued && s.rows[k] == s.issued[k])
    && (forall t :: t in s.copies ==> s.copies[t].key in s.issued && s.copies[t].addr == s.issued[s.copies[t].key])
    && (forall k :: k in s.issued ==> Placed(s, s.issued[k]))
    && (s.allocating.Some? ==> s.hub in s.allocating.value.used && s.dns in s.allocating.value.used)
  }

  ghost predicate Placed(s: Store, a: Addr)
    requires Proper(s.subnet)
  {
    a != s.hub && a != s.dns && Contains(s.subnet, a) && a >= Network(s.subnet) + 2
  }

  /** What a step does to the rows: it writes its target, deletes a row, or leaves them alone. */
  ghost predicate RowsFollow(s: Store, s': Store, a: Action)
    requires Enabled(s, a)
  {
    && s'.hub == s.hub
    && (if Target(s, a).Some? then s'.rows == Written(s, Target(s, a).value.key, Target(s, a).value.addr)
        else if a.Delete? then s'.rows == s.rows - {a.key}
        else s'.rows == s.rows)
  }

  lemma RowsAfter(s: Store, a: Action)
    requires Enabled(s, a)
    ensures RowsFollow(s, Step(s, a), a)
  {
  }

  lemma InsertHomed(s: Store, a: Action)
    requires Homed(s) && Enabled(s, a) && a.Insert?
    ensures Homed(Step(s, a))
    ensures forall k :: k in s.issued ==> k in Step(s, a).issued && Step(s, a).issued[k] == s.issued[k]
    ensures Placed(s, Target(s, a).value.addr)
  {
    NextFreeMeaning(s.subnet, s.allocating.value.used);
  }

  lemma StepHomed(s: Store, a: Action)
    requires Homed(s) && Enabled(s, a)
    ensures Homed(Step(s, a))
    ensures forall k :: k in s.issued ==> k in Step(s, a).issued && Step(s, a).issued[k] == s.issued[k]
  {
    if a.Insert? {
      InsertHomed(s, a);
    }
  }

  lemma {:induction false} RunHomed(s: Store, run: seq<Action>)
    requires Homed(s) && After(s, run).Some?
    ensures Homed(After(s, run).value)
    ensures var s' := After(s, run).value;
            forall k :: k in s.issued ==> k in s'.issued && s'.issued[k] == s.issued[k]
  {
    if run != [] {
      RunHomed(s, run[..|run| - 1]);
      StepHomed(After(s, run[..|run| - 1]).value, run[|run| - 1]);
    }
  }

  /** A row keeps its address for good: wherever it is seen again, be it after a delete undone by a late save
      of a stale copy, it has the address it had; and it stays as long as nobody deletes it. */
  lemma AddressesAreStable(s: Store, run: seq<Action>, key: Key)
    requires Homed(s) && After(s, run).Some? && key in s.rows
    ensures key in After(s, run).value.rows ==> After(s, run).value.rows[key] == s.rows[key]
    ensures (forall t :: Delete(t, key) !in run) ==> key in After(s, run).value.rows
  {
    RunHomed(s, run);
    if forall t :: Delete(t, key) !in run {
      StaysPresent(s, run, key);
    }
  }

  lemma {:induction false} StaysPresent(s: Store, run: seq<Action>, key: Key)
    requires After(s, run).Some? && key in s.rows && forall t :: Delete(t, key) !in run
    ensures key in After(s, run).value.rows
  {
    if run != [] {
      var front, last := run[..|run| - 1], run[|run| - 1];
      assert run == front + [last];
      StaysPresent(s, front, key);
      assert last in run;
      StepKeepsRow(After(s, front).value, last, key);
    }
  }

  lemma StepKeepsRow(s: Store, a: Action, key: Key)
    requires Enabled(s, a) && key in s.rows && (a.Delete? ==> a.key != key)
    ensures key in Step(s, a).rows
  {
    RowsAfter(s, a);
  }

  /** The unique index: no two rows of one table ever hold the same address. */
  ghost predicate TablesUnique(s: Store) {
    forall j, k :: j in s.rows && k in s.rows && j.isMap == k.isMap && s.rows[j] == s.rows[k] ==> j == k
  }

  lemma FollowTablesUnique(s: Store, s': Store, a: Action)
    requires Enabled(s, a) && RowsFollow(s, s', a) && TablesUnique(s)
    ensures TablesUnique(s')
  {
  }

  /** Over every run the index keeps the addresses within each table distinct. */
  lemma {:induction false} OwnTablesUnique(subnet: Subnet, hub: Addr, run: seq<Action>)
    requires After(Setup(subnet, hub), run).Some?
    ensures TablesUnique(After(Setup(subnet, hub), run).value)
  {
    if run != [] {
      var before, a := After(Setup(subnet, hub), run[..|run| - 1]).value, run[|run| - 1];
      OwnTablesUnique(subnet, hub, run[..|run| - 1]);
      RowsAfter(before, a);
      FollowTablesUnique(before, Step(before, a), a);
    }
  }

  // ---------- Exactly when an address is handed out twice ----------

  /** The hub, every peer and every map hold different addresses. */
  ghost predicate Unique(s: Store) {
    && (forall k :: k in s.rows ==> s.rows[k] != s.hub)
    && (forall j, k :: j in s.rows && k in s.rows && s.rows[j] == s.rows[k] ==> j == k)
  }

  /** The written row is not there, and a row of the other table has its address. */
  predicate Collides(s: Store, a: Action)
    requires Enabled(s, a)
  {
    var c := Target(s, a);
    c.Some? && c.value.key !in s.rows && HeldElsewhere(s, c.value.key, c.value.addr)
  }

  /** A step keeps all addresses distinct exactly when it does not collide. */
  lemma StepUniqueIff(s: Store, a: Action)
    requires Homed(s) && Unique(s) && Enabled(s, a)
    ensures Unique(Step(s, a)) <==> !Collides(s, a)
  {
    RowsAfter(s, a);
    if Target(s, a).Some? {
      TargetPlaced(s, a);
    }
    FollowUniqueIff(s, Step(s, a), a);
  }

  lemma TargetPlaced(s: Store, a: Action)
    requires Homed(s) && Enabled(s, a) && Target(s, a).Some?
    ensures Target(s, a).value.addr != s.hub
    ensures Target(s, a).value.key in s.rows ==> s.rows[Target(s, a).value.key] == Target(s, a).value.addr
  {
    if a.Insert? {
      InsertHomed(s, a);
    }
  }

  lemma FollowUniqueIff(s: Store, s': Store, a: Action)
    requires Unique(s) && Enabled(s, a) && RowsFollow(s, s', a)
    requires var c := Target(s, a);
             c.Some? ==> c.value.addr != s.hub && (c.value.key in s.rows ==> s.rows[c.value.key] == c.value.addr)
    ensures Unique(s') <==> !Collides(s, a)
  {
    var c := Target(s, a);
    if c.Some? {
      if c.value.key in s.rows {
        assert !Refused(s, c.value.key, c.value.addr) && s'.rows == s.rows;
      } else {
        WriteUniqueIff(s, s', c.value.key, c.value.addr);
      }
    }
  }

  predicate HeldElsewhere(s: Store, key: Key, ip: Addr) {
    exists k :: k in s.rows && k.isMap != key.isMap && s.rows[k] == ip
  }

  lemma WriteUniqueIff(s: Store, s': Store, key: Key, ip: Addr)
    requires Unique(s) && key !in s.rows && ip != s.hub && s'.hub == s.hub && s'.rows == Written(s, key, ip)
    ensures Unique(s') <==> !HeldElsewhere(s, key, ip)
  {
    if k :| k in s.rows && k.isMap != key.isMap && s.rows[k] == ip {
      assert !Refused(s, key, ip);
      assert s'.rows[k] == s'.rows[key];
    }
  }

  predicate NoCollision(s: Store, run: seq<Action>)
    requires After(s, run).Some?
  {
    run == [] ||
    (NoCollision(s, run[..|run| - 1]) && !Collides(After(s, run[..|run| - 1]).value, run[|run| - 1]))
  }

  /** All addresses were distinct after every prefix of the run. */
  ghost predicate AlwaysUnique(s: Store, run: seq<Action>)
    requires After(s, run).Some?
  {
    Unique(After(s, run).value) && (run == [] || AlwaysUnique(s, run[..|run| - 1]))
  }

  /** Over any run from setup, all addresses were distinct at every moment exactly when no write collided. */
  lemma {:induction false} AlwaysUniqueIff(subnet: Subnet, hub: Addr, run: seq<Action>)
    requires Proper(subnet) && After(Setup(subnet, hub), run).Some?
    ensures AlwaysUnique(Setup(subnet, hub), run) <==> NoCollision(Setup(subnet, hub), run)
  {
    if run != [] {
      var s0, front := Setup(subnet, hub), run[..|run| - 1];
      AlwaysUniqueIff(subnet, hub, front);
      RunHomed(s0, front);
      if Unique(After(s0, front).value) {
        StepUniqueIff(After(s0, front).value, run[|run| - 1]);
      }
    }
  }

  // ---------- When no write can collide ----------

  /** While an allocation is open, whatever is in a table already read has its address collected. */
  ghost predicate Covered(s: Store) {
    s.allocating.Some? ==>
      var Pending(_, _, used, stage) := s.allocating.value;
      forall k :: k in s.rows && WasRead(k.isMap, stage) ==> s.rows[k] in used
  }

  predicate WasRead(isMap: bool, stage: Stage) {
    if isMap then stage.ReadMaps? || stage.ReadAll? else !stage.ReadNothing?
  }

  /** A save finds its row still there; that much a caller can check. */
  predicate Timely(s: Store, a: Action)
    requires Enabled(s, a)
  {
    a.Save? ==> s.copies[a.t].key in s.rows
  }

  ghost predicate Inv(s: Store) {
    Homed(s) && Unique(s) && Covered(s)
  }

  lemma TimelyCovered(s: Store, a: Action)
    requires Inv(s) && Enabled(s, a) && Timely(s, a)
    ensures Covered(Step(s, a))
  {
  }

  lemma TimelyNeverCollides(s: Store, a: Action)
    requires Inv(s) && Enabled(s, a) && Timely(s, a)
    ensures !Collides(s, a)
  {
    if a.Insert? {
      NextFreeMeaning(s.subnet, s.allocating.value.used);
    }
  }

  lemma TimelyStep(s: Store, a: Action)
    requires Inv(s) && Enabled(s, a) && Timely(s, a)
    ensures Inv(Step(s, a))
  {
    StepHomed(s, a);
    StepUniqueIff(s, a);
    TimelyNeverCollides(s, a);
    TimelyCovered(s, a);
  }

  predicate TimelyRun(s: Store, run: seq<Action>)
    requires After(s, run).Some?
  {
    run == [] || (TimelyRun(s, run[..|run| - 1]) && Timely(After(s, run[..|run| - 1]).value, run[|run| - 1]))
  }

  /** From setup on, whatever is deleted between the queries and the insert, the hub address, all peer
      addresses and all map VIPs stay pairwise distinct and inside the subnet, if every save finds its row. */
  lemma {:induction false} AddressesStayUnique(subnet: Subnet, hub: Addr, run: seq<Action>)
    requires Proper(subnet) && After(Setup(subnet, hub), run).Some? && TimelyRun(Setup(subnet, hub), run)
    ensures Inv(After(Setup(subnet, hub), run).value)
  {
    if run != [] {
      AddressesStayUnique(subnet, hub, run[..|run| - 1]);
      TimelyStep(After(Setup(subnet, hub), run[..|run| - 1]).value, run[|run| - 1]);
    }
  }

  // ---------- The service layer ----------

  /** The steps a call takes while it holds controlMu. */
  predicate Belongs(a: Action, call: Call) {
    match a
    case Lock(_, _) => false
    case Unlock(_) => true
    case Begin(_, isMap) => call == Creating(isMap)
    case CollectPeers(_) => call.Creating?
    case CollectMaps(_) => call.Creating?
    case CollectRecords(_) => call.Creating?
    case Insert(_, _, _) => call.Creating?
    case GiveUp(_) => call.Creating?
    case Delete(_, key) => call == Deleting(key)
    case DeleteRecord(_, _) => true
    case AddRecord(_, _, _) => true
    case Read(_, key) => call == Updating(key)
    case Save(_) => call.Updating?
    case Abandon(_) => call.Updating?
  }

  /** Every step but taking the lock is taken by the holder of controlMu, for its own call. */
  predicate Controlled(s: Store, a: Action) {
    a.Lock? || (s.control.Some? && s.control.value.t == a.t && Belongs(a, s.control.value.call))
  }

  predicate ControlledRun(s: Store, run: seq<Action>)
    requires After(s, run).Some?
  {
    run == [] || (ControlledRun(s, run[..|run| - 1]) && Controlled(After(s, run[..|run| - 1]).value, run[|run| - 1]))
  }

  /** Only the holder has anything under way, and an update's row is still there. */
  ghost predicate Serial(s: Store) {
    && (s.control.None? ==> s.copies == map[] && s.allocating.None?)
    && (s.allocating.Some? ==> s.allocating.value.owner == s.control.value.t && s.control.value.call.Creating?)
    && (forall t :: t in s.copies ==>
          t == s.control.value.t && s.control.value.call == Updating(s.copies[t].key) && s.copies[t].key in s.rows)
  }

  lemma ControlledStep(s: Store, a: Action)
    requires Serial(s) && Enabled(s, a) && Controlled(s, a)
    ensures Timely(s, a) && Serial(Step(s, a))
  {
  }

  lemma {:induction false} ControlledIsTimely(s: Store, run: seq<Action>)
    requires Serial(s) && After(s, run).Some? && ControlledRun(s, run)
    ensures Serial(After(s, run).value) && TimelyRun(s, run)
  {
    if run != [] {
      ControlledIsTimely(s, run[..|run| - 1]);
      ControlledStep(After(s, run[..|run| - 1]).value, run[|run| - 1]);
    }
  }

  /** With every call under controlMu no interleaving hands an address out twice. */
  lemma ServiceKeepsUnique(subnet: Subnet, hub: Addr, run: seq<Action>)
    requires Proper(subnet) && After(Setup(subnet, hub), run).Some? && ControlledRun(Setup(subnet, hub), run)
    ensures Unique(After(Setup(subnet, hub), run).value)
  {
    ControlledIsTimely(Setup(subnet, hub), run);
    AddressesStayUnique(subnet, hub, run);
  }

  // ---------- DNS records ----------

  /** An insert that is not refused adds exactly its row; a new peer's address is recorded for DNS in the same step. */
  lemma InsertMeaning(s: Store, t: nat, id: nat, record: nat)
    requires Enabled(s, Insert(t, id, record))
    ensures var s', key := Step(s, Insert(t, id, record)), Key(s.allocating.value.isMap, id);
            var ip := NextFree(s.subnet, s.allocating.value.used).addr;
            if exists k :: k in s.rows && k != key && k.isMap == key.isMap && s.rows[k] == ip
            then s'.rows == s.rows && s'.records == s.records
            else
              && s'.rows == s.rows[key := ip]
              && s'.records == if key.isMap then s.records else s.records[record := ip]
  {
  }

  /** Once the records have been read, those that are there have their addresses collected. */
  ghost predicate RecordsCovered(s: Store) {
    s.allocating.Some? && s.allocating.value.stage.ReadAll? ==>
      forall r :: r in s.records ==> s.records[r] in s.allocating.value.used
  }

  lemma StepRecords(s: Store, a: Action)
    requires Enabled(s, a) && !a.AddRecord? && RecordsCovered(s)
    ensures RecordsCovered(Step(s, a))
  {
  }

  /** Over any run that adds no record, the address of every inserted row is free of recorded addresses. */
  lemma {:induction false} RecordsAvoided(s: Store, run: seq<Action>, t: nat, id: nat, record: nat)
    requires RecordsCovered(s) && After(s, run).Some? && forall i :: 0 <= i < |run| ==> !run[i].AddRecord?
    requires Enabled(After(s, run).value, Insert(t, id, record))
    ensures var s' := After(s, run).value;
            var ip := NextFree(s'.subnet, s'.allocating.value.used).addr;
            ip !in s'.records.Values
  {
    RunRecords(s, run);
    var s' := After(s, run).value;
    NextFreeMeaning(s'.subnet, s'.allocating.value.used);
  }

  lemma {:induction false} RunRecords(s: Store, run: seq<Action>)
    requires RecordsCovered(s) && After(s, run).Some? && forall i :: 0 <= i < |run| ==> !run[i].AddRecord?
    ensures RecordsCovered(After(s, run).value)
  {
    if run != [] {
      RunRecords(s, run[..|run| - 1]);
      StepRecords(After(s, run[..|run| - 1]).value, run[|run| - 1]);
    }
  }

  /** Once the only record of an address is deleted the address is free of records again; the others stay. */
  lemma ForgottenIsFree(s: Store, t: nat, id: nat)
    requires id in s.records && forall r :: r in s.records && r != id ==> s.records[r] != s.records[id]
    ensures var s' := Step(s, DeleteRecord(t, id));
            && s.records[id] !in s'.records.Values && s'.rows == s.rows
            && forall r :: r in s.records && r != id ==> r in s'.records && s'.records[r] == s.records[r]
  {
  }

  lemma {:induction false} RecordStays(s: Store, run: seq<Action>, id: nat)
    requires After(s, run).Some? && id in s.records
    requires forall i :: 0 <= i < |run| ==> !run[i].AddRecord? && !(run[i].DeleteRecord? && run[i].id == id)
    requires forall i :: 0 <= i < |run| && run[i].Insert? ==> run[i].record != id
    ensures id in After(s, run).value.records && After(s, run).value.records[id] == s.records[id]
  {
    if run != [] {
      RecordStays(s, run[..|run| - 1], id);
      StepRecordStays(After(s, run[..|run| - 1]).value, run[|run| - 1], id);
    }
  }

  lemma StepRecordStays(s: Store, a: Action, id: nat)
    requires Enabled(s, a) && id in s.records && !a.AddRecord? && !(a.DeleteRecord? && a.id == id)
    requires a.Insert? ==> a.record != id
    ensures id in Step(s, a).records && Step(s, a).records[id] == s.records[id]
  {
  }

  /** An address recorded while no allocation is open is not handed out as long as the record stays. */
  lemma RecordedIsAvoided(s: Store, u: nat, id: nat, ip: Addr, run: seq<Action>, t: nat, row: nat, record: nat)
    requires s.allocating.None? && Enabled(s, AddRecord(u, id, ip)) && After(Step(s, AddRecord(u, id, ip)), run).Some?
    requires forall i :: 0 <= i < |run| ==> !run[i].AddRecord? && !(run[i].DeleteRecord? && run[i].id == id)
    requires forall i :: 0 <= i < |run| && run[i].Insert? ==> run[i].record != id
    requires Enabled(After(Step(s, AddRecord(u, id, ip)), run).value, Insert(t, row, record))
    ensures var s' := After(Step(s, AddRecord(u, id, ip)), run).value;
            NextFree(s'.subnet, s'.allocating.value.used).addr != ip
  {
    var recorded := Step(s, AddRecord(u, id, ip));
    RecordsAvoided(recorded, run, t, row, record);
    RecordStays(recorded, run, id);
  }

  // ---------- Without controlMu it does happen ----------

  lemma Extend(s0: Store, run: seq<Action>, s: Store, a: Action) returns (run': seq<Action>, s': Store)
    requires After(s0, run) == Some(s) && Enabled(s, a)
    ensures run' == run + [a] && s' == Step(s, a) && After(s0, run') == Some(s')
  {
    run', s' := run + [a], Step(s, a);
    assert run'[..|run|] == run;
  }

  lemma Collects(s0: Store, run: seq<Action>, s: Store, t: nat, isMap: bool) returns (run': seq<Action>, s': Store)
    requires After(s0, run) == Some(s) && s.rows == map[] && s.records == map[] && s.allocating.None? && s.dns == s.hub
    ensures After(s0, run') == Some(s') && s' == s.(allocating := Some(Pending(t, isMap, {s.hub}, ReadAll)))
  {
    run', s' := Extend(s0, run, s, Begin(t, isMap));
    run', s' := Extend(s0, run', s', CollectPeers(t));
    run', s' := Extend(s0, run', s', CollectMaps(t));
    run', s' := Extend(s0, run', s', CollectRecords(t));
    assert s'.allocating.value.used == {s.hub};
  }

  /** A whole allocation by goroutine t, on a store without rows and records. */
  lemma Allocates(s0: Store, run: seq<Action>, s: Store, t: nat, isMap: bool, ip: Addr)
    returns (run': seq<Action>, s': Store)
    requires After(s0, run) == Some(s) && s.rows == map[] && s.records == map[] && s.allocating.None? && s.dns == s.hub
    requires Key(isMap, 0) !in s.issued && Proper(s.subnet) && NextFree(s.subnet, {s.hub}) == Allocated(ip)
    ensures After(s0, run') == Some(s')
    ensures s' == s.(rows := map[Key(isMap, 0) := ip], issued := s.issued[Key(isMap, 0) := ip], records := s'.records)
    ensures isMap ==> s'.records == map[]
  {
    run', s' := Collects(s0, run, s, t, isMap);
    assert !Refused(s', Key(isMap, 0), ip);
    run', s' := Extend(s0, run', s', Insert(t, 0, 0));
  }

  /** A map is created, read for an update, and deleted before the save. */
  lemma StaleCopy(subnet: Subnet, hub: Addr, ip: Addr) returns (run: seq<Action>, s: Store)
    requires Proper(subnet) && NextFree(subnet, {hub}) == Allocated(ip)
    ensures After(Setup(subnet, hub), run) == Some(s)
    ensures s == Setup(subnet, hub).(issued := map[Key(true, 0) := ip], copies := map[1 := Copy(Key(true, 0), ip)])
  {
    var s0 := Setup(subnet, hub);
    run, s := Allocates(s0, [], s0, 0, true, ip);
    run, s := Extend(s0, run, s, Read(1, Key(true, 0)));
    run, s := Extend(s0, run, s, Delete(0, Key(true, 0)));
    assert s.rows == map[];
  }

  lemma LateSave(s: Store, ip: Addr)
    requires s.rows == map[Key(false, 0) := ip] && s.copies == map[1 := Copy(Key(true, 0), ip)]
    ensures var s' := Step(s, Save(1));
            !Unique(s') && Key(true, 0) in s'.rows && Key(false, 0) in s'.rows
            && s'.rows[Key(true, 0)] == s'.rows[Key(false, 0)]
  {
    assert !Refused(s, Key(true, 0), ip);
    var s' := Step(s, Save(1));
    var j, k := Key(true, 0), Key(false, 0);
    assert s'.rows == map[k := ip, j := ip];
    assert j in s'.rows && k in s'.rows && s'.rows[j] == s'.rows[k] && j != k;
  }

  /** At store level the late save of a deleted map can take an address a new peer has been given. */
  lemma SaveAfterDeleteCollides(subnet: Subnet, hub: Addr) returns (run: seq<Action>, s: Store)
    requires Proper(subnet) && NextFree(subnet, {hub}).Allocated?
    ensures After(Setup(subnet, hub), run) == Some(s) && TablesUnique(s) && !Unique(s)
    ensures Key(true, 0) in s.rows && Key(false, 0) in s.rows && s.rows[Key(true, 0)] == s.rows[Key(false, 0)]
  {
    var s0, ip := Setup(subnet, hub), NextFree(subnet, {hub}).addr;
    run, s := StaleCopy(subnet, hub, ip);
    run, s := Allocates(s0, run, s, 0, false, ip);
    LateSave(s, ip);
    run, s := Extend(s0, run, s, Save(1));
    OwnTablesUnique(subnet, hub, run);
  }

  // ---------- A day under controlMu ----------

  /** The lock is taken for a call, and released after it. */
  lemma Locked(s0: Store, run: seq<Action>, s: Store, t: nat, call: Call) returns (run': seq<Action>, s': Store)
    requires After(s0, run) == Some(s) && ControlledRun(s0, run) && s.control.None?
    ensures After(s0, run') == Some(s') && ControlledRun(s0, run') && s' == s.(control := Some(Holder(t, call)))
  {
    run', s' := ExtendControlled(s0, run, s, Lock(t, call));
  }

  lemma ExtendControlled(s0: Store, run: seq<Action>, s: Store, a: Action) returns (run': seq<Action>, s': Store)
    requires After(s0, run) == Some(s) && ControlledRun(s0, run) && Enabled(s, a) && Controlled(s, a)
    ensures run' == run + [a] && s' == Step(s, a) && After(s0, run') == Some(s') && ControlledRun(s0, run')
  {
    run', s' := Extend(s0, run, s, a);
    assert run'[..|run|] == run;
  }

  /** A store without rows and records, its lock held to create a map. */
  ghost predicate Idle(s: Store, t: nat) {
    && s.control == Some(Holder(t, Creating(true))) && s.allocating.None? && s.dns == s.hub
    && s.rows == map[] && s.records == map[]
  }

  lemma CollectingPeers(s0: Store, run: seq<Action>, s: Store, t: nat) returns (run': seq<Action>, s': Store)
    requires After(s0, run) == Some(s) && ControlledRun(s0, run) && Idle(s, t)
    ensures After(s0, run') == Some(s') && ControlledRun(s0, run')
    ensures s' == s.(allocating := Some(Pending(t, true, {s.hub}, ReadPeers)))
  {
    var begun := s.(allocating := Some(Pending(t, true, {s.hub, s.dns}, ReadNothing)));
    run', s' := ExtendControlled(s0, run, s, Begin(t, true));
    assert s' == begun;
    CollectsNothing(begun, t);
    run', s' := ExtendControlled(s0, run', begun, CollectPeers(t));
  }

  lemma CollectsNothing(s: Store, t: nat)
    requires s.rows == map[] && s.dns == s.hub && s.allocating == Some(Pending(t, true, {s.hub, s.dns}, ReadNothing))
    ensures Step(s, CollectPeers(t)) == s.(allocating := Some(Pending(t, true, {s.hub}, ReadPeers)))
  {
    assert TableOf(s, false) == {} && {s.hub, s.dns} + {} == {s.hub};
  }

  lemma CollectingRest(s0: Store, run: seq<Action>, s: Store, s1: Store, t: nat) returns (run': seq<Action>, s': Store)
    requires Idle(s, t) && s1 == s.(allocating := Some(Pending(t, true, {s.hub}, ReadPeers)))
    requires After(s0, run) == Some(s1) && ControlledRun(s0, run)
    ensures After(s0, run') == Some(s') && ControlledRun(s0, run')
    ensures s' == s.(allocating := Some(Pending(t, true, {s.hub}, ReadAll)))
  {
    run', s' := ExtendControlled(s0, run, s1, CollectMaps(t));
    run', s' := ExtendControlled(s0, run', s', CollectRecords(t));
    assert s'.allocating.value.used == {s.hub};
  }

  /** Calls under controlMu do get through: a map is created from setup, its lock released. */
  lemma ServiceCreates(subnet: Subnet, hub: Addr, ip: Addr) returns (run: seq<Action>, s: Store)
    requires Proper(subnet) && NextFree(subnet, {hub}) == Allocated(ip)
    ensures var s0 := Setup(subnet, hub);
            After(s0, run) == Some(s) && ControlledRun(s0, run)
            && s == s0.(rows := map[Key(true, 0) := ip], issued := map[Key(true, 0) := ip])
  {
    var s0 := Setup(subnet, hub);
    run, s := Locked(s0, [], s0, 0, Creating(true));
    var locked := s;
    run, s := CollectingPeers(s0, run, locked, 0);
    run, s := CollectingRest(s0, run, locked, s, 0);
    assert !Refused(s, Key(true, 0), ip);
    run, s := ExtendControlled(s0, run, s, Insert(0, 0, 0));
    run, s := ExtendControlled(s0, run, s, Unlock(0));
  }

  /** Saving a row that is still there with its own address changes nothing but ends the copy. */
  lemma SaveKeeps(s: Store, t: nat, key: Key)
    requires Homed(s) && TablesUnique(s) && t in s.copies && s.copies[t].key == key && key in s.rows
    ensures Step(s, Save(t)) == s.(copies := s.copies - {t})
  {
    var ip := s.copies[t].addr;
    assert ip == s.rows[key] && !Refused(s, key, ip);
    assert s.rows[key := ip] == s.rows;
  }

  lemma ReadKeeps(s: Store, t: nat, key: Key)
    requires t !in s.copies && key in s.rows
    ensures Step(s, Read(t, key)).copies - {t} == s.copies
  {
  }

  /** A call that updates the map keeps every row as it is. */
  lemma ServiceUpdates(s0: Store, run: seq<Action>, s: Store, t: nat, key: Key) returns (run': seq<Action>, s': Store)
    requires After(s0, run) == Some(s) && ControlledRun(s0, run) && s.control.None? && Homed(s) && TablesUnique(s)
    requires t !in s.copies && key in s.rows && (s.allocating.Some? ==> s.allocating.value.owner != t)
    ensures After(s0, run') == Some(s') && ControlledRun(s0, run') && s' == s
  {
    run', s' := Locked(s0, run, s, t, Updating(key));
    var locked := s';
    ReadKeeps(locked, t, key);
    run', s' := ExtendControlled(s0, run', locked, Read(t, key));
    StepHomed(locked, Read(t, key));
    SaveKeeps(s', t, key);
    run', s' := ExtendControlled(s0, run', s', Save(t));
    assert s' == locked;
    run', s' := ExtendControlled(s0, run', s', Unlock(t));
  }

  /** A call that deletes a row deletes that row. */
  lemma ServiceDeletes(s0: Store, run: seq<Action>, s: Store, t: nat, key: Key) returns (run': seq<Action>, s': Store)
    requires After(s0, run) == Some(s) && ControlledRun(s0, run) && s.control.None? && t !in s.copies
    requires s.allocating.Some? ==> s.allocating.value.owner != t
    ensures After(s0, run') == Some(s') && ControlledRun(s0, run') && s' == s.(rows := s.rows - {key})
  {
    run', s' := Locked(s0, run, s, t, Deleting(key));
    run', s' := ExtendControlled(s0, run', s', Delete(t, key));
    run', s' := ExtendControlled(s0, run', s', Unlock(t));
  }

  /** A creation that fails, at whatever stage, changes nothing and releases both locks. */
  lemma ServiceGivesUp(s0: Store, run: seq<Action>, s: Store, t: nat, isMap: bool)
    returns (run': seq<Action>, s': Store)
    requires After(s0, run) == Some(s) && ControlledRun(s0, run)
    requires s.control.None? && s.allocating.None? && t !in s.copies
    ensures After(s0, run') == Some(s') && ControlledRun(s0, run') && s' == s
  {
    run', s' := Locked(s0, run, s, t, Creating(isMap));
    run', s' := ExtendControlled(s0, run', s', Begin(t, isMap));
    run', s' := ExtendControlled(s0, run', s', GiveUp(t));
    run', s' := ExtendControlled(s0, run', s', Unlock(t));
  }

  /** An update that fails after reading its row changes nothing. */
  lemma ServiceAbandons(s0: Store, run: seq<Action>, s: Store, t: nat, key: Key) returns (run': seq<Action>, s': Store)
    requires After(s0, run) == Some(s) && ControlledRun(s0, run) && s.control.None?
    requires t !in s.copies && key in s.rows && (s.allocating.Some? ==> s.allocating.value.owner != t)
    ensures After(s0, run') == Some(s') && ControlledRun(s0, run') && s' == s
  {
    run', s' := Locked(s0, run, s, t, Updating(key));
    var locked := s';
    ReadKeeps(locked, t, key);
    run', s' := ExtendControlled(s0, run', locked, Read(t, key));
    run', s' := ExtendControlled(s0, run', s', Abandon(t));
    assert s' == locked;
    run', s' := ExtendControlled(s0, run', s', Unlock(t));
  }
}
