/** get_migrations of src/main.c: recording a poll in the flow table and rebalancing it. */
module Polls {
  import opened Env
  import opened Rings
  import opened Slots
  import opened FlowTable
  import opened Rebalance
  import opened Balancer
  import opened Wire
  import opened FlowReader

  /** What the loop reads from one polled flow. */
  datatype Polled = Polled(key: FiveTuple, packets: uint64)

  /** The flow table as a value: its keys in slot order, and its rings. */
  datatype Table = Table(keys: seq<FiveTuple>, rings: map<FiveTuple, RingState>)

  ghost predicate TableOk(t: Table) {
    && NoDup(t.keys)
    && (forall k :: k in t.keys <==> k in t.rings)
    && (forall k :: k in t.rings ==> t.rings[k].WellFormed())
  }

  /** The table is full and the flow is new: the program exits. */
  ghost predicate Overflows(t: Table, key: FiveTuple) {
    key !in t.rings && |t.keys| == HASHMAP_SIZE
  }

  ghost function FindOrAdd(t: Table, key: FiveTuple): Table {
    if key in t.rings then t else Table(t.keys + [key], t.rings[key := EmptyRing()])
  }

  ghost function AddCount(t: Table, key: FiveTuple, packets: uint64): Table
    requires key in t.rings && t.rings[key].WellFormed()
  {
    t.(rings := t.rings[key := AddTo(t.rings[key], packets)])
  }

  ghost function PollOne(t: Table, p: Polled): (t': Table)
    requires TableOk(t)
    ensures TableOk(t')
  {
    AddCount(FindOrAdd(t, p.key), p.key, p.packets)
  }

  /** A whole poll; None once the table overflows. */
  ghost function PollAll(t: Table, ps: seq<Polled>): (r: Option<Table>)
    requires TableOk(t)
    ensures r.Some? ==> TableOk(r.value)
  {
    if ps == [] then Some(t)
    else
      var p := ps[|ps| - 1];
      match PollAll(t, ps[..|ps| - 1])
      case None => None
      case Some(t') => if Overflows(t', p.key) then None else Some(PollOne(t', p))
  }

  ghost function Assigned(t: Table): Assignment { map k | k in t.rings :: t.rings[k].core }

  ghost function LoadsOf(t: Table): Loads
    requires TableOk(t)
  {
    map k | k in t.rings :: t.rings[k].Last()
  }

  ghost function ListsOf(t: Table): (cs: Cores)
    ensures cs != []
  {
    Group(t.keys, Assigned(t), NB_CORES)
  }

  /** The migrations a balancing of this table records. */
  ghost function RunOf(t: Table): seq<Migration>
    requires TableOk(t)
  {
    Run(LoadsOf(t), ListsOf(t), MAX_REBALANCE_ITERATIONS, Bits64).migrations
  }

  /** The rings of the table with the cores of an assignment. */
  ghost function WithCores(t: Table, a: Assignment): Table
    requires a.Keys == t.rings.Keys
  {
    t.(rings := map k | k in t.rings :: t.rings[k].(core := a[k]))
  }

  // ---- the same on the heap ----

  /** The slots list `keys` in order and point to the rings `m`. */
  ghost predicate SlotsAre(table: HashMap, m: RingMap, keys: seq<FiveTuple>)
    reads table, table.slots
  {
    && table.Valid() && HoleFree(table.slots[..]) && m == table.Contents()
    && keys == SlotKeys(table.slots[..], 0, table.size)
  }

  /** The rings `m` are separate and have the values `rings`. */
  ghost predicate RingsAre(m: RingMap, rings: map<FiveTuple, RingState>)
    reads m.Values, Buffers(m)
  {
    Separate(m) && RingsValid(m) && rings == View(m)
  }

  /** The table object, with the rings `m`, holds the value `t`. */
  ghost predicate TableIs(table: HashMap, m: RingMap, t: Table)
    reads table, table.slots, m.Values, Buffers(m)
  {
    SlotsAre(table, m, t.keys) && RingsAre(m, t.rings)
  }

  /** A new key goes to the end of the slot order. */
  lemma PutAppendsKey(s: seq<RingSlot>, key: FiveTuple, value: RingBuffer)
    requires SlotsOk(s) && HoleFree(s) && key !in RingsOf(s) && PutSlots(s, key, value).Some?
    ensures
      var s' := PutSlots(s, key, value).value;
      && HoleFree(s') && Size(s') == Size(s) + 1 <= |s'|
      && SlotKeys(s', 0, Size(s')) == SlotKeys(s, 0, Size(s)) + [key]
  {
    hide RingsOf, Distinct, Count, Keys, FreeFrom;
    KeyFound(s, key);
    PutRefines(s, key, value);
    PutRings(s, key, value);
    PutKeepsHoleFree(s, key, value);
    FirstHoleIsSize(s);
  }

  lemma KeysCount(s: seq<RingSlot>)
    requires SlotsOk(s) && HoleFree(s)
    ensures |RingsOf(s)| == Size(s) <= |s| && |SlotKeys(s, 0, Size(s))| == Size(s)
  {
    hide RingsOf, Distinct, Keys, Abs;
    SizeIsCardinality(s);
    RingsCount(s);
  }

  lemma RingsCount(s: seq<RingSlot>)
    requires SlotsOk(s)
    ensures |RingsOf(s)| == |Keys(s)|
  {
    hide Distinct, Keys, Abs;
    assert |RingsOf(s)| == |RingsOf(s).Keys|;
  }

  /** Changing slots changes no ring. */
  method NewKeepingRings(table: HashMap, key: FiveTuple, ghost m: RingMap, ghost rings: map<FiveTuple, RingState>)
    returns (ok: bool, value: RingBuffer)
    requires table.Valid() && m == table.Contents() && RingsAre(m, rings)
    modifies table, table.slots
    ensures table.Valid() && fresh(value) && fresh(value.buffer) && value.Valid() && value.State() == EmptyRing()
    ensures value !in m.Values && value.buffer !in Buffers(m)
    ensures ok <==> key in m || |m| < HASHMAP_SIZE
    ensures table.Contents() == if ok then m[key := value] else m
    ensures ok <==> PutSlots(old(table.slots[..]), key, value).Some?
    ensures table.slots[..] == if ok then PutSlots(old(table.slots[..]), key, value).value else old(table.slots[..])
    ensures RingsAre(m, rings)
  {
    hide RingsOf, SlotsOk, PutSlots, Size, EmptyRing, Separate;
    ok, value := table.New(key);
  }

  method AddNew(table: HashMap, key: FiveTuple, ghost m: RingMap, ghost keys: seq<FiveTuple>,
                ghost rings: map<FiveTuple, RingState>)
    returns (ok: bool, value: RingBuffer)
    requires SlotsAre(table, m, keys) && key !in m && RingsAre(m, rings)
    modifies table, table.slots
    ensures ok <==> |keys| < HASHMAP_SIZE
    ensures fresh(value) && fresh(value.buffer) && value.Valid() && value.State() == EmptyRing()
    ensures value !in m.Values && value.buffer !in Buffers(m)
    ensures ok ==> SlotsAre(table, m[key := value], keys + [key])
    ensures !ok ==> SlotsAre(table, m, keys)
    ensures RingsAre(m, rings)
  {
    hide HoleFree, SlotKeys, RingsOf, SlotsOk, PutSlots, Size, EmptyRing, RingsAre;
    KeysCount(table.slots[..]);
    ghost var s := table.slots[..];
    ok, value := NewKeepingRings(table, key, m, rings);
    if ok {
      PutAppendsKey(s, key, value);
    }
  }

  /** A ring that nothing else refers to joins the others. */
  lemma RingsWithNew(m: RingMap, rings: map<FiveTuple, RingState>, key: FiveTuple, value: RingBuffer)
    requires RingsAre(m, rings) && key !in m && value !in m.Values && value.buffer !in Buffers(m) && value.Valid()
    ensures RingsAre(m[key := value], rings[key := value.State()])
  {
    var m' := m[key := value];
    forall k1, k2 | k1 in m' && k2 in m' && k1 != k2
      ensures m'[k1] != m'[k2] && m'[k1].buffer != m'[k2].buffer
    {
      assert k1 in m ==> m[k1] in m.Values && m[k1].buffer in Buffers(m);
      assert k2 in m ==> m[k2] in m.Values && m[k2].buffer in Buffers(m);
    }
    assert View(m') == rings[key := value.State()];
  }

  method Find(table: HashMap, key: FiveTuple, ghost m: RingMap, ghost t: Table) returns (value: RingBuffer?)
    requires TableIs(table, m, t)
    ensures TableIs(table, m, t)
    ensures key in m <==> key in t.rings
    ensures value == if key in m then m[key] else null
  {
    hide SlotsOk, RingsOf, HoleFree, SlotKeys, Size, Separate, RingState.WellFormed;
    value := table.Get(key);
  }

  method FindOrCreate(table: HashMap, key: FiveTuple, ghost m: RingMap, ghost t: Table)
    returns (ok: bool, value: RingBuffer, ghost m': RingMap)
    requires TableIs(table, m, t)
    modifies table, table.slots
    ensures ok <==> !Overflows(t, key)
    ensures TableIs(table, m', if ok then FindOrAdd(t, key) else t)
    ensures ok ==> key in m' && m'[key] == value
    ensures fresh(m'.Values - m.Values) && fresh(Buffers(m') - Buffers(m))
  {
    hide SlotsAre, RingsAre, EmptyRing;
    var found := Find(table, key, m, t);
    m' := m;
    if found != null {
      return true, found, m;
    }
    KeysFit(table, m, t);
    ok, value := AddNew(table, key, m, t.keys, t.rings);
    if ok {
      RingsWithNew(m, t.rings, key, value);
      m' := m[key := value];
    }
  }

  lemma KeysFit(table: HashMap, m: RingMap, t: Table)
    requires TableIs(table, m, t)
    ensures |t.keys| <= HASHMAP_SIZE
  {
    KeysCount(table.slots[..]);
  }

  /** Adding to one ring leaves the others alone. */
  method AddToRing(key: FiveTuple, ring: RingBuffer, packets: uint64,
                   ghost m: RingMap, ghost rings: map<FiveTuple, RingState>)
    requires RingsAre(m, rings) && key in m && m[key] == ring
    modifies ring, ring.buffer
    ensures key in rings && rings[key].WellFormed()
    ensures RingsAre(m, rings[key := AddTo(rings[key], packets)])
  {
    hide AddTo, RingState.WellFormed;
    ring.Add(packets);
  }

  method AddCounter(table: HashMap, key: FiveTuple, ring: RingBuffer, packets: uint64, ghost m: RingMap, ghost t: Table)
    requires TableIs(table, m, t) && key in m && m[key] == ring
    modifies ring, ring.buffer
    ensures key in t.rings && t.rings[key].WellFormed() && TableIs(table, m, AddCount(t, key, packets))
  {
    hide RingsAre, AddTo, HoleFree, SlotKeys, RingsOf, SlotsOk, Size;
    AddToRing(key, ring, packets, m, t.rings);
  }

  /** One turn of the polling loop. */
  method RecordFlow(table: HashMap, key: FiveTuple, packets: uint64, ghost m: RingMap, ghost t: Table)
    returns (ok: bool, ghost m': RingMap)
    requires TableIs(table, m, t) && TableOk(t)
    modifies table, table.slots, m.Values, Buffers(m)
    ensures ok <==> !Overflows(t, key)
    ensures TableIs(table, m', if ok then PollOne(t, Polled(key, packets)) else t)
    ensures fresh(m'.Values - m.Values) && fresh(Buffers(m') - Buffers(m))
  {
    hide TableIs, AddCount, FindOrAdd, Overflows, TableOk;
    var ring;
    ok, ring, m' := FindOrCreate(table, key, m, t);
    if ok {
      assert ring in m'.Values && ring.buffer in Buffers(m');
      AddCounter(table, key, ring, packets, m', FindOrAdd(t, key));
    }
  }

  // ---- the polling loop ----

  function PolledOf(f: FlowStats): Polled {
    Polled(KeyOf(f.fields), ToUint64(f.packetCount))
  }

  function PolledFlows(stats: seq<FlowStats>): (ps: seq<Polled>)
    ensures |ps| == |stats|
  {
    seq(|stats|, i requires 0 <= i < |stats| => PolledOf(stats[i]))
  }

  ghost function PollUpTo(t: Table, ps: seq<Polled>, i: nat): Option<Table>
    requires TableOk(t) && i <= |ps|
  {
    PollAll(t, ps[..i])
  }

  lemma PollNext(t: Table, ps: seq<Polled>, i: nat)
    requires TableOk(t) && i < |ps| && PollUpTo(t, ps, i).Some?
    ensures TableOk(PollUpTo(t, ps, i).value)
    ensures
      var t' := PollUpTo(t, ps, i).value;
      PollUpTo(t, ps, i + 1) == if Overflows(t', ps[i].key) then None else Some(PollOne(t', ps[i]))
  {
    hide TableOk, PollOne, Overflows;
    assert ps[..i + 1][..i] == ps[..i];
  }

  lemma {:induction false} PollFailed(t: Table, ps: seq<Polled>, i: nat)
    requires TableOk(t) && i <= |ps| && PollUpTo(t, ps, i).None?
    ensures PollAll(t, ps).None?
    decreases |ps| - i
  {
    hide TableOk, PollOne, Overflows;
    if i == |ps| {
      assert ps[..i] == ps;
    } else {
      assert ps[..i + 1][..i] == ps[..i];
      PollFailed(t, ps, i + 1);
    }
  }

  lemma PollEnds(t: Table, ps: seq<Polled>)
    requires TableOk(t)
    ensures PollUpTo(t, ps, 0) == Some(t) && PollUpTo(t, ps, |ps|) == PollAll(t, ps)
  {
    assert ps[..|ps|] == ps;
  }

  /** False where the program exits because the table is full. */
  method PollFlows(flows: Flows, table: HashMap, ghost m: RingMap, ghost t: Table, ghost ps: seq<Polled>)
    returns (ok: bool, ghost m': RingMap)
    requires TableIs(table, m, t) && TableOk(t)
    requires flows.Valid() && ps == PolledFlows(flows.flowStats[..flows.nbFlows])
    modifies table, table.slots, m.Values, Buffers(m)
    ensures ok <==> PollAll(t, ps).Some?
    ensures ok ==> TableIs(table, m', PollAll(t, ps).value)
    ensures fresh(m'.Values - m.Values) && fresh(Buffers(m') - Buffers(m))
  {
    hide TableIs, TableOk, PollOne, PollAll, PollUpTo, Overflows;
    m' := m;
    ghost var t' := t;
    PollEnds(t, ps);
    for i := 0 to flows.nbFlows
      invariant TableIs(table, m', t') && PollUpTo(t, ps, i) == Some(t')
      invariant fresh(m'.Values - m.Values) && fresh(Buffers(m') - Buffers(m))
    {
      var fields := flows.flowStats[i].fields;
      var key := FiveTuple(fields.nwSrc, fields.nwDst, fields.tpSrc, fields.tpDst, fields.nwProto);
      var packets := ToUint64(flows.flowStats[i].packetCount);
      assert ps[i] == Polled(key, packets);
      PollNext(t, ps, i);
      ok, m' := RecordFlow(table, key, packets, m', t');
      if !ok {
        PollFailed(t, ps, i + 1);
        return;
      }
      t' := PollOne(t', ps[i]);
    }
    ok := true;
  }

  // ---- rebalancing the polled table ----

  ghost predicate CoresInRange(t: Table) {
    forall k :: k in t.rings ==> t.rings[k].core < NB_CORES
  }

  lemma TableRings(table: HashMap, m: RingMap, t: Table)
    requires TableIs(table, m, t) && TableOk(t)
    ensures Separate(m) && RingLoads(m, LoadsOf(t)) && AssignedTo(m, Assigned(t)) && m.Keys == t.rings.Keys
    ensures table.Valid() && HoleFree(table.slots[..]) && m == table.Contents()
    ensures t.keys == SlotKeys(table.slots[..], 0, table.size) && |t.keys| == table.size
  {
    hide RingsAre, SlotKeys, HoleFree, Size, Count, RingsOf, SlotsOk, RingLoads, AssignedTo;
    KeysCount(table.slots[..]);
    RingsLoad(m, t);
  }

  lemma RingsLoad(m: RingMap, t: Table)
    requires RingsAre(m, t.rings) && TableOk(t)
    ensures Separate(m) && RingLoads(m, LoadsOf(t)) && AssignedTo(m, Assigned(t)) && m.Keys == t.rings.Keys
  {
    hide Separate;
    assert forall k :: k in m ==> t.rings[k] == m[k].State();
  }

  /** Rings that changed only their cores since they had the values `before`. */
  ghost predicate SameButCores(m: RingMap, before: map<FiveTuple, RingState>)
    reads m.Values, Buffers(m)
  {
    && Separate(m) && RingsValid(m) && m.Keys == before.Keys
    && forall k :: k in m ==> m[k].State().(core := 0) == before[k].(core := 0)
  }

  lemma TableMoved(table: HashMap, m: RingMap, t: Table, a: Assignment)
    requires SlotsAre(table, m, t.keys) && SameButCores(m, t.rings) && AssignedTo(m, a) && a.Keys == t.rings.Keys
    ensures TableIs(table, m, WithCores(t, a))
  {
    hide SlotsAre, Separate;
    assert forall k :: k in m ==> View(m)[k] == m[k].State();
  }

  /** Without a migration the rings keep their cores. */
  lemma SameCores(t: Table)
    ensures Assigned(t).Keys == t.rings.Keys && WithCores(t, Assigned(t)) == t
  {
    assert WithCores(t, Assigned(t)).rings == t.rings;
  }

  /** Replaying a run over the table's own assignment keeps its flows and its core range. */
  lemma RunKeepsRange(t: Table)
    requires TableOk(t) && CoresInRange(t)
    ensures Represents(ListsOf(t), Assigned(t)) && |ListsOf(t)| == NB_CORES
    ensures Addressed(RunOf(t), t.rings.Keys, NB_CORES)
    ensures Replay(Assigned(t), RunOf(t)).Keys == t.rings.Keys
    ensures forall k :: k in t.rings ==> Replay(Assigned(t), RunOf(t))[k] < NB_CORES
  {
    hide Represents, Run, Replay, Addressed, Unbalanced, RingState.WellFormed;
    var a := Assigned(t);
    assert a.Keys == t.rings.Keys;
    GroupRepresents(t.keys, a, NB_CORES);
    RunIsAddressed(LoadsOf(t), ListsOf(t), a, a.Keys, MAX_REBALANCE_ITERATIONS, Bits64);
    ReplayKeepsKeys(a, RunOf(t), NB_CORES);
  }

  /** The cores after replaying the run of the table. */
  ghost function FinalCores(t: Table): (a: Assignment)
    requires TableOk(t) && CoresInRange(t)
    ensures a.Keys == t.rings.Keys
  {
    RunKeepsRange(t);
    Replay(Assigned(t), RunOf(t))
  }

  /** What a completed rebalancing leaves. */
  ghost function Rebalanced(t: Table): Table
    requires TableOk(t) && CoresInRange(t)
  {
    WithCores(t, FinalCores(t))
  }

  /** While the total load fits in 64 bits, the run of the table is the exact one, of which the
      load theorems of module Rebalance speak. */
  lemma RunIsExact(t: Table)
    requires TableOk(t) && CoresInRange(t) && SumOf(LoadsOf(t), t.keys) < TWO_64
    ensures RunOf(t) == Run(LoadsOf(t), ListsOf(t), MAX_REBALANCE_ITERATIONS, Exact).migrations
  {
    hide SumOf, Run, Group, Total;
    GroupTotal(LoadsOf(t), t.keys, Assigned(t), NB_CORES);
    RunsAgree(LoadsOf(t), ListsOf(t), MAX_REBALANCE_ITERATIONS);
  }

  method BalanceRings(table: HashMap, migrations: Migrations, seed: FiveTuple, ghost m: RingMap, ghost t: Table)
    returns (returned: bool)
    requires TableIs(table, m, t) && TableOk(t) && CoresInRange(t) && seed !in t.rings
    requires migrations.Valid() && migrations.Left() == MAX_REBALANCE_ITERATIONS && migrations.migrations !in Buffers(m)
    modifies m.Values`assignedCore, migrations, migrations.migrations
    ensures returned <==> |t.keys| < HASHMAP_SIZE
    ensures migrations.Valid() && RingLoads(m, LoadsOf(t))
    ensures AssignedTo(m, if returned then Replay(Assigned(t), RunOf(t)) else Assigned(t))
    ensures Appended(old(migrations.Recorded()), if returned then RunOf(t) else [], migrations.Recorded())
    ensures SlotsAre(table, m, t.keys)
  {
    hide SlotKeys, HoleFree, RingsOf, Separate, RingLoads, AssignedTo, Run, Replay, Group, SumOf, Size, SlotsOk,
      Migrations.Recorded, View, RingsAre;
    TableRings(table, m, t);
    returned := Balance(table, NB_CORES, migrations, seed, m, LoadsOf(t), Assigned(t), ListsOf(t));
  }

  lemma RingsStillValid(m: RingMap, L: Loads)
    requires RingLoads(m, L)
    ensures RingsValid(m)
  {
  }

  method BalanceKeeping(table: HashMap, migrations: Migrations, seed: FiveTuple, ghost m: RingMap, ghost t: Table)
    returns (returned: bool)
    requires TableIs(table, m, t) && TableOk(t) && CoresInRange(t) && seed !in t.rings
    requires migrations.Valid() && migrations.Left() == MAX_REBALANCE_ITERATIONS && migrations.migrations !in Buffers(m)
    modifies m.Values`assignedCore, migrations, migrations.migrations
    ensures returned <==> |t.keys| < HASHMAP_SIZE
    ensures migrations.Valid() && SameButCores(m, t.rings)
    ensures AssignedTo(m, if returned then Replay(Assigned(t), RunOf(t)) else Assigned(t))
    ensures Appended(old(migrations.Recorded()), if returned then RunOf(t) else [], migrations.Recorded())
    ensures SlotsAre(table, m, t.keys)
  {
    hide SlotsAre, AssignedTo, Run, Replay, RunOf, Assigned, Separate, RingLoads, Appended, TableOk,
      CoresInRange, Migrations.Recorded, LoadsOf;
    returned := BalanceRings(table, migrations, seed, m, t);
    RingsStillValid(m, LoadsOf(t));
  }

  /** Balancing on the heap: the table ends as the specified rebalancing of its value. */
  method BalanceTable(table: HashMap, migrations: Migrations, seed: FiveTuple, ghost m: RingMap, ghost t: Table)
    returns (returned: bool)
    requires TableIs(table, m, t) && TableOk(t) && CoresInRange(t) && seed !in t.rings
    requires migrations.Valid() && migrations.Left() == MAX_REBALANCE_ITERATIONS && migrations.migrations !in Buffers(m)
    modifies m.Values`assignedCore, migrations, migrations.migrations
    ensures returned <==> |t.keys| < HASHMAP_SIZE
    ensures TableIs(table, m, if returned then Rebalanced(t) else t)
    ensures migrations.Valid()
    ensures Appended(old(migrations.Recorded()), if returned then RunOf(t) else [], migrations.Recorded())
  {
    hide TableIs, SlotsAre, AssignedTo, Run, Replay, RunOf, Assigned, SameButCores, Appended, TableOk,
      CoresInRange, Migrations.Recorded, WithCores, Represents, ListsOf;
    RunKeepsRange(t);
    SameCores(t);
    returned := BalanceKeeping(table, migrations, seed, m, t);
    TableMoved(table, m, t, if returned then Replay(Assigned(t), RunOf(t)) else Assigned(t));
  }

  // ---- what a poll keeps ----

  ghost predicate AllActive(t: Table) {
    forall k :: k in t.rings ==> t.rings[k].active
  }

  ghost function KeysOf(ps: seq<Polled>): set<FiveTuple> {
    set p | p in ps :: p.key
  }

  ghost function CoreOf(t: Table, key: FiveTuple): nat {
    if key in t.rings then t.rings[key].core else 0
  }

  lemma PollOneKeeps(t: Table, p: Polled)
    requires TableOk(t) && CoresInRange(t) && AllActive(t)
    ensures var t' := PollOne(t, p);
      && CoresInRange(t') && AllActive(t') && t'.rings.Keys == t.rings.Keys + {p.key}
      && forall k :: CoreOf(t', k) == CoreOf(t, k)
  {
    hide RingState.WellFormed, TableOk;
  }

  /** Polling keeps every core, puts new flows on core 0, adds exactly the polled flows, and
      leaves no ring inactive. */
  lemma {:induction false} PollKeeps(t: Table, ps: seq<Polled>)
    requires TableOk(t) && CoresInRange(t) && AllActive(t) && PollAll(t, ps).Some?
    ensures var t' := PollAll(t, ps).value;
      && CoresInRange(t') && AllActive(t') && t'.rings.Keys == t.rings.Keys + KeysOf(ps)
      && forall k :: CoreOf(t', k) == CoreOf(t, k)
  {
    hide TableOk, CoresInRange, AllActive, PollOne, CoreOf, Overflows;
    if ps == [] {
      assert KeysOf([]) == {};
    } else {
      var n := |ps| - 1;
      PollKeeps(t, ps[..n]);
      PollOneKeeps(PollAll(t, ps[..n]).value, ps[n]);
      assert ps == ps[..n] + [ps[n]];
      assert KeysOf(ps) == KeysOf(ps[..n]) + {ps[n].key};
    }
  }

  lemma RebalancedKeeps(t: Table)
    requires TableOk(t) && CoresInRange(t) && AllActive(t)
    ensures var t' := Rebalanced(t);
      && TableOk(t') && CoresInRange(t') && AllActive(t') && t'.keys == t.keys && t'.rings.Keys == t.rings.Keys
      && forall k :: k in t.rings ==> t'.rings[k].core == FinalCores(t)[k]
  {
    hide Run, Replay, RunOf, NoDup, Represents, Addressed, Assigned, ListsOf;
    RunKeepsRange(t);
    assert forall k :: k in t.rings ==> FinalCores(t)[k] < NB_CORES;
  }

  /** The load the flows of a table put on a core. */
  ghost function LoadOn(t: Table, L: Loads, core: nat): nat {
    SumOf(L, OnCore(t.keys, Assigned(t), core))
  }

  /** While the total load fits, no core of a rebalanced table carries more than the larger of
      its load before and the average plus the heaviest flow. */
  lemma RebalancedIsBounded(t: Table, w: nat, core: nat)
    requires TableOk(t) && CoresInRange(t) && SumOf(LoadsOf(t), t.keys) < TWO_64 && core < NB_CORES
    requires forall k :: Weight(LoadsOf(t), k) <= w
    ensures
      var L := LoadsOf(t);
      LoadOn(Rebalanced(t), L, core) <= Max(LoadOn(t, L, core), MeanLoad(CoreLoads(L, ListsOf(t), Exact), Exact) + w)
  {
    hide SumOf, MeanLoad, Run, OnCore, FinalCores, Represents, CoreLoads, LoadsOf, TableOk, CoresInRange;
    RebalancedLoadOn(t, LoadsOf(t), core);
    SchedulingBound(LoadsOf(t), ListsOf(t), MAX_REBALANCE_ITERATIONS, w, core);
  }

  /** The load a rebalanced table puts on a core is what the run left there. */
  lemma RebalancedLoadOn(t: Table, L: Loads, core: nat)
    requires TableOk(t) && CoresInRange(t) && SumOf(LoadsOf(t), t.keys) < TWO_64 && core < NB_CORES
    ensures
      var cs := Run(LoadsOf(t), ListsOf(t), MAX_REBALANCE_ITERATIONS, Exact).cores;
      LoadOn(Rebalanced(t), L, core) == SumOf(L, cs[core])
  {
    hide SumOf, Run, OnCore, Represents, Replay, Addressed, LoadsOf, RingState.WellFormed;
    RunKeepsRange(t);
    RunIsExact(t);
    RunReplays(LoadsOf(t), ListsOf(t), Assigned(t), MAX_REBALANCE_ITERATIONS, Exact);
    var a := FinalCores(t);
    GroupRepresents(t.keys, a, NB_CORES);
    assert Assigned(Rebalanced(t)) == a;
    SameAssignmentSum(L, Run(LoadsOf(t), ListsOf(t), MAX_REBALANCE_ITERATIONS, Exact).cores,
      Group(t.keys, a, NB_CORES), a, core);
  }

  // ---- which migrations a balancing records ----

  /** The 64-bit load an assignment of the table's flows puts on a core. */
  ghost function LoadUnder(t: Table, a: Assignment, core: nat): uint64
    requires TableOk(t)
  {
    SumOf(LoadsOf(t), OnCore(t.keys, a, core)) % TWO_64
  }

  /** The 64-bit load of all flows of the table, divided by the number of cores. */
  ghost function Average(t: Table): nat
    requires TableOk(t)
  {
    SumOf(LoadsOf(t), t.keys) % TWO_64 / NB_CORES
  }

  lemma {:induction false} SameTotalLoad(L: Loads, cs: Cores, cs': Cores)
    requires |cs| == |cs'| && forall c :: 0 <= c < |cs| ==> SumOf(L, cs[c]) == SumOf(L, cs'[c])
    ensures TotalLoad(L, cs) == TotalLoad(L, cs')
  {
    hide SumOf;
    if cs != [] {
      SameTotalLoad(L, cs[..|cs| - 1], cs'[..|cs| - 1]);
    }
  }

  /** The lists after `n` migrations are those of the assignment with these migrations replayed. */
  lemma ListsAfter(t: Table, n: nat)
    requires TableOk(t) && CoresInRange(t) && n <= |RunOf(t)|
    ensures
      var cs := Run(LoadsOf(t), ListsOf(t), n, Bits64).cores;
      var a := Replay(Assigned(t), RunOf(t)[..n]);
      && |cs| == NB_CORES && Represents(cs, a) && a.Keys == t.rings.Keys
      && (forall c :: 0 <= c < NB_CORES ==> Reduced(SumOf(LoadsOf(t), cs[c]), Bits64) == LoadUnder(t, a, c))
      && Reduced(TotalLoad(LoadsOf(t), cs), Bits64) / NB_CORES == Average(t)
  {
    hide SumOf, Run, OnCore, Represents, Replay, Addressed, LoadsOf, RingState.WellFormed, TotalLoad, Total, NoDup;
    var L, lists := LoadsOf(t), ListsOf(t);
    RunKeepsRange(t);
    RunPrefix(L, lists, n, MAX_REBALANCE_ITERATIONS);
    var cs, a := Run(L, lists, n, Bits64).cores, Replay(Assigned(t), RunOf(t)[..n]);
    RunReplays(L, lists, Assigned(t), n, Bits64);
    AddressedPrefix(RunOf(t), n, t.rings.Keys, NB_CORES);
    ReplayKeepsKeys(Assigned(t), RunOf(t)[..n], NB_CORES);
    GroupRepresents(t.keys, a, NB_CORES);
    forall c | 0 <= c < NB_CORES
      ensures SumOf(L, cs[c]) == SumOf(L, Group(t.keys, a, NB_CORES)[c])
    {
      SameAssignmentSum(L, cs, Group(t.keys, a, NB_CORES), a, c);
    }
    SameTotalLoad(L, cs, Group(t.keys, a, NB_CORES));
    GroupTotal(L, t.keys, a, NB_CORES);
    TotalIs(L, Group(t.keys, a, NB_CORES), Exact);
  }

  lemma RunPrefix(L: Loads, cs: Cores, n: nat, budget: nat)
    requires cs != [] && n <= |Run(L, cs, budget, Bits64).migrations|
    ensures Run(L, cs, n, Bits64).migrations == Run(L, cs, budget, Bits64).migrations[..n]
  {
    hide Run;
    RunStops(L, cs, budget, Bits64);
    if n < |Run(L, cs, budget, Bits64).migrations| {
      NthIsFirst(L, cs, budget, Bits64, n);
    } else {
      RunStops(L, cs, n, Bits64);
      RunSplits(L, cs, n, budget, Bits64);
      var rest := Run(L, Run(L, cs, n, Bits64).cores, budget - n, Bits64).migrations;
      if |Run(L, cs, n, Bits64).migrations| < n {
        StoppedRun(L, Run(L, cs, n, Bits64).cores, budget - n, Bits64);
      }
      assert rest == [];
    }
  }

  lemma AddressedPrefix(ms: seq<Migration>, n: nat, keys: set<FiveTuple>, cores: nat)
    requires n <= |ms| && Addressed(ms, keys, cores)
    ensures Addressed(ms[..n], keys, cores)
  {
  }

  /** Migration `n` of a balancing, with the ones before it replayed: some core is more than 10
      percent above the average, or below it; the migration takes a flow of greatest load from
      the first most loaded core `d` to the first least loaded one. */
  lemma RunIsGreedy(t: Table, n: nat) returns (d: nat)
    requires TableOk(t) && CoresInRange(t) && n < |RunOf(t)|
    ensures
      var a, m := Replay(Assigned(t), RunOf(t)[..n]), RunOf(t)[n];
      && m.key in t.rings && m.key in a && a[m.key] == d && d < NB_CORES && m.core < NB_CORES
      && (forall c :: 0 <= c < NB_CORES ==> LoadUnder(t, a, c) <= LoadUnder(t, a, d))
      && (forall c :: 0 <= c < d ==> LoadUnder(t, a, c) < LoadUnder(t, a, d))
      && (forall c :: 0 <= c < NB_CORES ==> LoadUnder(t, a, m.core) <= LoadUnder(t, a, c))
      && (forall c :: 0 <= c < m.core ==> LoadUnder(t, a, m.core) < LoadUnder(t, a, c))
      && 0 < t.rings[m.key].Last()
      && (forall k :: k in t.rings && k in a && a[k] == d ==> t.rings[k].Last() <= t.rings[m.key].Last())
    ensures
      var a := Replay(Assigned(t), RunOf(t)[..n]);
      exists c :: 0 <= c < NB_CORES
        && var load := LoadUnder(t, a, c);
           10 * load > 11 * Average(t) || (Average(t) > 0 && 10 * load < 9 * Average(t))
  {
    hide Run, Replay, SumOf, OnCore, TotalLoad, Reduced, LoadUnder, Average, TableOk, CoresInRange, ListsOf, LoadsOf,
      Represents;
    var L := LoadsOf(t);
    var i;
    d, i := EachMigrationIs(L, ListsOf(t), MAX_REBALANCE_ITERATIONS, Bits64, n);
    ListsAfter(t, n);
    var cs, a := Run(L, ListsOf(t), n, Bits64).cores, Replay(Assigned(t), RunOf(t)[..n]);
    HeaviestOnCore(t, cs, a, d, i);
  }

  lemma HeaviestOnCore(t: Table, cs: Cores, a: Assignment, d: nat, i: nat)
    requires TableOk(t) && Represents(cs, a) && a.Keys == t.rings.Keys && d < |cs| && i < |cs[d]|
    requires forall j :: 0 <= j < |cs[d]| ==> Weight(LoadsOf(t), cs[d][j]) <= Weight(LoadsOf(t), cs[d][i])
    ensures cs[d][i] in a && a[cs[d][i]] == d && t.rings[cs[d][i]].Last() == Weight(LoadsOf(t), cs[d][i])
    ensures forall k :: k in t.rings && k in a && a[k] == d ==> t.rings[k].Last() <= t.rings[cs[d][i]].Last()
  {
    hide RingState.WellFormed, NoDup;
    assert cs[d][i] in cs[d];
    forall k | k in t.rings && k in a && a[k] == d
      ensures t.rings[k].Last() <= t.rings[cs[d][i]].Last()
    {
      var j :| 0 <= j < |cs[d]| && cs[d][j] == k;
      assert Weight(LoadsOf(t), cs[d][j]) <= Weight(LoadsOf(t), cs[d][i]);
    }
  }

  /** A balancing ends with its budget used up, or with every core within 10 percent of the
      average. */
  lemma RunEnds(t: Table)
    requires TableOk(t) && CoresInRange(t)
    ensures |RunOf(t)| <= MAX_REBALANCE_ITERATIONS
    ensures |RunOf(t)| < MAX_REBALANCE_ITERATIONS ==> forall c :: 0 <= c < NB_CORES ==>
      var load := LoadUnder(t, Replay(Assigned(t), RunOf(t)), c);
      10 * load <= 11 * Average(t) && 10 * load >= 9 * Average(t)
  {
    hide Run, Replay, SumOf, OnCore, TotalLoad, Reduced, LoadUnder, Average, TableOk, CoresInRange, ListsOf, LoadsOf,
      Unbalanced, CoreLoads, Represents;
    var L, lists, n := LoadsOf(t), ListsOf(t), |RunOf(t)|;
    RunStops(L, lists, MAX_REBALANCE_ITERATIONS, Bits64);
    if n < MAX_REBALANCE_ITERATIONS {
      assert RunOf(t)[..n] == RunOf(t);
      ListsAfter(t, n);
      var cs := Run(L, lists, n, Bits64).cores;
      ShortRunEnds(L, lists, n, MAX_REBALANCE_ITERATIONS);
      LoadsAre(L, cs, Bits64);
      MeanIs(L, cs, Bits64);
      UnbalancedIff(CoreLoads(L, cs, Bits64), Bits64);
      forall c | 0 <= c < NB_CORES
        ensures CoreLoads(L, cs, Bits64)[c] == LoadUnder(t, Replay(Assigned(t), RunOf(t)), c)
      {
      }
    }
  }

  /** A run that stopped early is the run with the budget it used. */
  lemma ShortRunEnds(L: Loads, cs: Cores, n: nat, budget: nat)
    requires cs != [] && n == |Run(L, cs, budget, Bits64).migrations| < budget
    ensures !Unbalanced(CoreLoads(L, Run(L, cs, n, Bits64).cores, Bits64), Bits64)
  {
    hide Run, Unbalanced;
    RunStops(L, cs, budget, Bits64);
    RunStops(L, cs, n, Bits64);
    RunSplits(L, cs, n, budget, Bits64);
    RunPrefix(L, cs, n, budget);
    var now := Run(L, cs, n, Bits64).cores;
    if Unbalanced(CoreLoads(L, now, Bits64), Bits64) {
      GoesOn(L, now, budget - n);
    }
  }

  lemma GoesOn(L: Loads, cs: Cores, budget: nat)
    requires cs != [] && budget > 0 && Unbalanced(CoreLoads(L, cs, Bits64), Bits64)
    ensures Run(L, cs, budget, Bits64).migrations != []
  {
  }

  /** Every core is within 10 percent of the average. */
  ghost predicate Quiet(t: Table)
    requires TableOk(t)
  {
    forall c :: 0 <= c < NB_CORES ==>
      var load := LoadUnder(t, Assigned(t), c);
      10 * load <= 11 * Average(t) && 10 * load >= 9 * Average(t)
  }

  /** A table within the thresholds records nothing, and no other table does. */
  lemma RecordsNothingIff(t: Table)
    requires TableOk(t) && CoresInRange(t)
    ensures RunOf(t) == [] <==> Quiet(t)
  {
    hide SumOf, OnCore, Run, LoadUnder, Average, TableOk, CoresInRange;
    assert RunOf(t)[..0] == [];
    assert Replay(Assigned(t), []) == Assigned(t);
    if RunOf(t) == [] {
      RunEnds(t);
    } else {
      var d := RunIsGreedy(t, 0);
    }
  }

  // ---- tables of the running program ----

  /** The table at the head of the loop. */
  ghost predicate TableGood(t: Table) {
    TableOk(t) && CoresInRange(t) && AllActive(t) && |t.keys| <= HASHMAP_SIZE
  }

  type GoodTable = t: Table | TableGood(t) ghost witness Table([], map[])

  /** The flows a poll leaves in the table, if they fit. */
  ghost function KnownAfter(t: Table, ps: seq<Polled>): set<FiveTuple> {
    t.rings.Keys + KeysOf(ps)
  }

  lemma KeysAreRings(t: Table)
    requires TableOk(t)
    ensures |t.keys| == |t.rings.Keys|
  {
    hide RingState.WellFormed;
    DistinctCount(t.keys);
    assert (set k | k in t.keys) == t.rings.Keys;
  }

  /** A poll overflows the table if and only if there are more flows than slots, counting those
      already known and those polled; otherwise the table holds exactly these flows. */
  lemma {:induction false} PollOverflowsIff(t: Table, ps: seq<Polled>)
    requires TableOk(t) && |t.keys| <= HASHMAP_SIZE
    ensures PollAll(t, ps).None? <==> |KnownAfter(t, ps)| > HASHMAP_SIZE
    ensures PollAll(t, ps).Some? ==> PollAll(t, ps).value.rings.Keys == KnownAfter(t, ps)
  {
    hide TableOk, PollOne, KeysOf, KnownAfter, Overflows;
    if ps == [] {
      KeysAreRings(t);
      KnownAtFirst(t);
    } else {
      var n := |ps| - 1;
      PollOverflowsIff(t, ps[..n]);
      KnownNext(t, ps);
      OneMore(KnownAfter(t, ps[..n]), ps[n].key);
      if PollAll(t, ps[..n]).Some? {
        OverflowsIff(PollAll(t, ps[..n]).value, ps[n]);
      }
    }
  }

  lemma KnownAtFirst(t: Table)
    ensures KnownAfter(t, []) == t.rings.Keys
  {
  }

  lemma KnownNext(t: Table, ps: seq<Polled>)
    requires ps != []
    ensures KnownAfter(t, ps) == KnownAfter(t, ps[..|ps| - 1]) + {ps[|ps| - 1].key}
  {
    var n := |ps| - 1;
    assert ps == ps[..n] + [ps[n]];
  }

  lemma OneMore(keys: set<FiveTuple>, key: FiveTuple)
    ensures |keys + {key}| == if key in keys then |keys| else |keys| + 1
  {
    if key in keys {
      assert keys + {key} == keys;
    }
  }

  /** The same for one flow. */
  lemma OverflowsIff(t: Table, p: Polled)
    requires TableOk(t) && |t.rings.Keys| <= HASHMAP_SIZE
    ensures Overflows(t, p.key) <==> |t.rings.Keys + {p.key}| > HASHMAP_SIZE
    ensures PollOne(t, p).rings.Keys == t.rings.Keys + {p.key}
  {
    hide TableOk, RingState.WellFormed;
    KeysAreRings(t);
    OneMore(t.rings.Keys, p.key);
  }

  /** How a call of get_migrations ends: normally, with exit(1) when a new flow finds the table
      full, or lost when the iteration over a full table leaves hashmap_get_next without a
      return value. */
  datatype Ending = Completed | Exited | Lost

  ghost function EndingOf(t: Table, ps: seq<Polled>): Ending {
    if |KnownAfter(t, ps)| < HASHMAP_SIZE then Completed
    else if |KnownAfter(t, ps)| == HASHMAP_SIZE then Lost
    else Exited
  }

  ghost function AfterPoll(t: GoodTable, ps: seq<Polled>): (t': GoodTable)
    requires !EndingOf(t, ps).Exited?
    ensures t'.rings.Keys == KnownAfter(t, ps) && |t'.keys| == |KnownAfter(t, ps)|
    ensures PollAll(t, ps) == Some(t')
  {
    hide TableOk, CoresInRange, AllActive, PollAll;
    PollOverflowsIff(t, ps);
    PollKeeps(t, ps);
    KeysAreRings(PollAll(t, ps).value);
    PollAll(t, ps).value
  }

  /** The endings as the code meets them. */
  lemma Endings(t: GoodTable, ps: seq<Polled>)
    ensures TableOk(t) && (EndingOf(t, ps).Exited? <==> PollAll(t, ps).None?)
    ensures !EndingOf(t, ps).Exited? ==>
      && AfterPoll(t, ps) == PollAll(t, ps).value && AfterPoll(t, ps).rings.Keys == KnownAfter(t, ps)
      && TableOk(AfterPoll(t, ps)) && CoresInRange(AfterPoll(t, ps))
      && (EndingOf(t, ps).Completed? <==> |AfterPoll(t, ps).keys| < HASHMAP_SIZE)
  {
    hide TableOk, CoresInRange, AllActive, PollAll, KnownAfter;
    PollOverflowsIff(t, ps);
  }

  /** What a call records; nothing unless it completes. */
  ghost function RunAfter(t: GoodTable, ps: seq<Polled>): seq<Migration> {
    if EndingOf(t, ps).Completed? then RunOf(AfterPoll(t, ps)) else []
  }

  /** The table at the next head of the loop, or at the last one if there is no next. */
  ghost function Settled(t: GoodTable, ps: seq<Polled>): (t': GoodTable)
    ensures EndingOf(t, ps).Completed? ==> t'.rings.Keys == KnownAfter(t, ps)
  {
    if EndingOf(t, ps).Completed? then
      hide TableOk, CoresInRange, AllActive, Rebalanced;
      RebalancedKeeps(AfterPoll(t, ps));
      Rebalanced(AfterPoll(t, ps))
    else t
  }

  /** get_migrations as a whole. */
  method GetMigrations(flows: Flows, table: HashMap, migrations: Migrations, seed: FiveTuple,
                       ghost m: RingMap, ghost t: GoodTable, ghost ps: seq<Polled>)
    returns (ending: Ending, ghost m': RingMap)
    requires TableIs(table, m, t) && seed !in KnownAfter(t, ps)
    requires flows.Valid() && ps == PolledFlows(flows.flowStats[..flows.nbFlows])
    requires migrations.Valid() && migrations.Left() == MAX_REBALANCE_ITERATIONS
    requires migrations.migrations !in Buffers(m)
    modifies table, table.slots, m.Values, Buffers(m), migrations, migrations.migrations
    ensures ending == EndingOf(t, ps)
    ensures migrations.Valid()
    ensures ending.Completed? ==> TableIs(table, m', Settled(t, ps))
    ensures ending.Completed? ==> Appended(old(migrations.Recorded()), RunAfter(t, ps), migrations.Recorded())
    ensures ending.Completed? ==> TableOk(AfterPoll(t, ps)) && (RunAfter(t, ps) == [] <==> Quiet(AfterPoll(t, ps)))
    ensures fresh(m'.Values - m.Values) && fresh(Buffers(m') - Buffers(m))
  {
    hide Quiet, TableIs, TableOk, CoresInRange, AllActive, PollAll, Appended, RunOf, Rebalanced, Migrations.Recorded,
      KnownAfter, EndingOf, AfterPoll, TableGood;
    Endings(t, ps);
    var ok;
    ok, m' := PollFlows(flows, table, m, t, ps);
    if !ok {
      return Exited, m';
    }
    ghost var t' := AfterPoll(t, ps);
    RecordsNothingIff(t');
    var returned := BalanceTable(table, migrations, seed, m', t');
    ending := if returned then Completed else Lost;
  }
}
