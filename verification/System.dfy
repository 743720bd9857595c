/** The whole system as a state machine: the switch, flow-mods on their way to it, and the
    control loop of src/main.c, interleaved with flows being installed and packets counted. */
module Systems {
  import opened Env
  import opened Rings
  import opened Slots
  import opened Rebalance
  import opened Polls
  import opened Switches
  import opened Wire

  /** `history` lists the counter values polled so far for each flow of the table; `ending` says
      whether the program still runs. */
  datatype System = System(
    sw: Switch, inFlight: seq<Migration>, table: GoodTable, history: map<FiveTuple, seq<uint64>>, ending: Ending)

  datatype Event =
    | Install(key: FiveTuple, maxLen: uint16)
    | CountPackets(key: FiveTuple, n: uint64)
    | Deliver
    | Iterate(polled: seq<Polled>)

  /** The poll reports rules of the switch with their present counters, in any order. */
  ghost predicate Reports(sw: Switch, ps: seq<Polled>) {
    forall i :: 0 <= i < |ps| ==> ps[i].key in sw && ps[i].packets == sw[ps[i].key].packets
  }

  /** A flow is installed once; the switch counts fewer than 2^64 packets in all; it applies
      flow-mods in order and answers polls truthfully. */
  ghost predicate Enabled(s: System, e: Event) {
    match e
    case Install(key, _) => key !in s.sw
    case CountPackets(key, n) => key in s.sw && TotalPackets(s.sw) + n < TWO_64
    case Deliver => s.inFlight != []
    case Iterate(polled) => s.ending.Completed? && Reports(s.sw, polled)
  }

  /** The destination core becomes a 16-bit VLAN. */
  ghost function Apply(sw: Switch, m: Migration): Switch {
    Modify(sw, m.key, ModVlan(m.key, m.core % TWO_16))
  }

  ghost function Step(s: System, e: Event): System
    requires Enabled(s, e)
  {
    match e
    case Install(key, maxLen) => s.(sw := WithRule(s.sw, key, maxLen))
    case CountPackets(key, n) => s.(sw := WithPackets(s.sw, key, n))
    case Deliver => s.(sw := Apply(s.sw, s.inFlight[0]), inFlight := s.inFlight[1..])
    case Iterate(polled) =>
      System(s.sw, s.inFlight + RunAfter(s.table, polled), Settled(s.table, polled),
        HistoryAfter(s.history, s.table, polled), EndingOf(s.table, polled))
  }

  ghost function HistoryOf(h: map<FiveTuple, seq<uint64>>, key: FiveTuple): seq<uint64> {
    if key in h then h[key] else []
  }

  ghost function AddHistory(h: map<FiveTuple, seq<uint64>>, ps: seq<Polled>): map<FiveTuple, seq<uint64>> {
    if ps == [] then h
    else
      var before, p := AddHistory(h, ps[..|ps| - 1]), ps[|ps| - 1];
      before[p.key := HistoryOf(before, p.key) + [p.packets]]
  }

  /** A poll the program does not survive leaves no trace. */
  ghost function HistoryAfter(h: map<FiveTuple, seq<uint64>>, t: GoodTable, ps: seq<Polled>)
    : map<FiveTuple, seq<uint64>>
  {
    if EndingOf(t, ps).Completed? then AddHistory(h, ps) else h
  }

  // ---- the packets of a switch ----

  ghost function TotalPackets(sw: Switch): nat
    decreases |sw|
  {
    if sw == map[] then 0
    else
      var k :| k in sw;
      WithoutKey(sw, k);
      sw[k].packets + TotalPackets(sw - {k})
  }

  lemma WithoutKey(sw: Switch, k: FiveTuple)
    requires k in sw
    ensures |sw - {k}| == |sw| - 1
  {
    var rest := sw - {k};
    assert sw == rest[k := sw[k]];
    assert sw.Keys == rest.Keys + {k};
    assert |sw| == |sw.Keys| && |rest| == |rest.Keys|;
  }

  /** The total does not depend on the order of the rules. */
  lemma {:induction false} TotalWithout(sw: Switch, k: FiveTuple)
    requires k in sw
    ensures TotalPackets(sw) == sw[k].packets + TotalPackets(sw - {k})
    decreases |sw|
  {
    var k' :| k' in sw && TotalPackets(sw) == sw[k'].packets + TotalPackets(sw - {k'});
    if k' != k {
      WithoutKey(sw, k);
      WithoutKey(sw, k');
      TotalWithout(sw - {k'}, k);
      TotalWithout(sw - {k}, k');
      assert sw - {k'} - {k} == sw - {k} - {k'};
    }
  }

  /** The total after a change of one rule. */
  lemma TotalWith(sw: Switch, k: FiveTuple, rule: Rule)
    ensures TotalPackets(sw[k := rule]) == rule.packets + TotalPackets(sw - {k})
    ensures k in sw ==> TotalPackets(sw) == sw[k].packets + TotalPackets(sw - {k})
    ensures k !in sw ==> sw - {k} == sw
  {
    TotalWithout(sw[k := rule], k);
    assert sw[k := rule] - {k} == sw - {k};
    if k in sw {
      TotalWithout(sw, k);
    } else {
      assert sw - {k} == sw;
    }
  }

  lemma PacketsFit(sw: Switch, k: FiveTuple)
    requires k in sw
    ensures sw[k].packets <= TotalPackets(sw)
  {
    TotalWithout(sw, k);
  }

  // ---- the invariant ----

  ghost function Tags(sw: Switch): Assignment { map k | k in sw :: TagOf(sw[k].actions) }

  /** Once the flow-mods on their way have arrived, every flow of the table is tagged with its
      assigned core, and every other flow with the default VLAN. */
  ghost predicate TagsFollowCores(s: System) {
    forall k :: k in s.sw ==>
      k in Replay(Tags(s.sw), s.inFlight) && Replay(Tags(s.sw), s.inFlight)[k] == CoreOf(s.table, k)
  }

  /** Every ring is what adding the polled counter values of its flow gives. */
  ghost predicate RingsFollow(h: map<FiveTuple, seq<uint64>>, t: Table) {
    h.Keys == t.rings.Keys
    && forall k :: k in t.rings ==> h[k] != [] && t.rings[k] == AddAll(h[k]).(core := t.rings[k].core)
  }

  /** Polled counters never go down and never exceed the counter of the switch. */
  ghost predicate Counting(values: seq<uint64>, packets: uint64) {
    NonDecreasing(values) && (values != [] ==> values[|values| - 1] <= packets)
  }

  ghost predicate CountersFollow(h: map<FiveTuple, seq<uint64>>, sw: Switch) {
    forall k :: k in h ==> k in sw && Counting(h[k], sw[k].packets)
  }

  /** Every rule sends each packet to the host once, with its tag. */
  ghost predicate Steering(sw: Switch) {
    forall k :: k in sw ==> Steers(sw[k].actions, TagOf(sw[k].actions))
  }

  ghost predicate Inv(s: System) {
    && Steering(s.sw) && s.table.rings.Keys <= s.sw.Keys
    && Addressed(s.inFlight, s.sw.Keys, NB_CORES)
    && TagsFollowCores(s)
    && RingsFollow(s.history, s.table)
    && CountersFollow(s.history, s.sw) && TotalPackets(s.sw) < TWO_64
    && (|s.sw| < HASHMAP_SIZE ==> s.ending.Completed?)
  }

  /** The program starts with an empty table and with flows the installing controller tagged
      with the default VLAN. */
  ghost predicate Initial(s: System) {
    && s.table == Table([], map[]) && s.inFlight == [] && s.history == map[] && s.ending.Completed?
    && TotalPackets(s.sw) < TWO_64
    && forall k :: k in s.sw ==> Steers(s.sw[k].actions, 0)
  }

  lemma SteersTag(actions: seq<Action>, vlan: uint16)
    requires Steers(actions, vlan)
    ensures TagOf(actions) == vlan
  {
    assert Forward(actions, DEFAULT_VLAN) == [Outgoing(2, vlan)];
  }

  lemma InitialInv(s: System)
    requires Initial(s)
    ensures Inv(s)
  {
    hide TotalPackets, Steers, TagOf;
    forall k | k in s.sw
      ensures TagOf(s.sw[k].actions) == 0
    {
      SteersTag(s.sw[k].actions, 0);
    }
  }

  // ---- tags ----

  /** Two assignments that agree on a flow agree on it after the same migrations. */
  lemma ReplayAgrees(a: Assignment, b: Assignment, migrations: seq<Migration>, key: FiveTuple)
    requires key in a && key in b && a[key] == b[key]
    ensures key in Replay(a, migrations) && key in Replay(b, migrations)
    ensures Replay(a, migrations)[key] == Replay(b, migrations)[key]
  {
    hide Replay, LastMove;
    ReplayLastWins(a, migrations, key);
    ReplayLastWins(b, migrations, key);
  }

  /** A flow no migration speaks of stays where it is. */
  lemma ReplayUnmoved(a: Assignment, migrations: seq<Migration>, key: FiveTuple, keys: set<FiveTuple>, n: nat)
    requires key in a && Addressed(migrations, keys, n) && key !in keys
    ensures key in Replay(a, migrations) && Replay(a, migrations)[key] == a[key]
  {
    hide Replay, LastMove;
    ReplayLastWins(a, migrations, key);
  }

  lemma InstallKeepsTags(s: System, key: FiveTuple, maxLen: uint16)
    requires Inv(s) && key !in s.sw
    ensures TagsFollowCores(Step(s, Install(key, maxLen))) && Steering(Step(s, Install(key, maxLen)).sw)
  {
    hide Replay, TableGood, RingsFollow, CountersFollow, TagOf, Steers, WithRule, TotalPackets;
    var s' := Step(s, Install(key, maxLen));
    NewRuleSteers(s.sw, key, maxLen);
    forall k | k in s'.sw
      ensures k in Replay(Tags(s'.sw), s.inFlight)
      ensures Replay(Tags(s'.sw), s.inFlight)[k] == CoreOf(s.table, k)
    {
      if k == key {
        ReplayUnmoved(Tags(s'.sw), s.inFlight, key, s.sw.Keys, NB_CORES);
      } else {
        ReplayAgrees(Tags(s.sw), Tags(s'.sw), s.inFlight, k);
      }
    }
  }

  lemma CountKeepsTags(s: System, key: FiveTuple, n: uint64)
    requires Inv(s) && Enabled(s, CountPackets(key, n))
    ensures TagsFollowCores(Step(s, CountPackets(key, n))) && Steering(Step(s, CountPackets(key, n)).sw)
  {
    hide Replay, TableGood, RingsFollow, CountersFollow, TagOf, Steers, TotalPackets;
    assert Tags(Step(s, CountPackets(key, n)).sw) == Tags(s.sw);
  }

  lemma DeliverKeepsTags(s: System)
    requires Inv(s) && s.inFlight != []
    ensures TagsFollowCores(Step(s, Deliver)) && Step(s, Deliver).sw.Keys == s.sw.Keys
    ensures Steering(Step(s, Deliver).sw)
    ensures forall k :: k in s.sw ==> Step(s, Deliver).sw[k].packets == s.sw[k].packets
  {
    hide TableGood, RingsFollow, CountersFollow, TagOf, Steers, Modify, ModVlan, Covers, TotalPackets;
    var m := s.inFlight[0];
    assert m.key in s.sw && m.core < NB_CORES && m.core % TWO_16 == m.core;
    ModVlanRetags(s.sw, m.key, m.core);
    assert Tags(Step(s, Deliver).sw) == Tags(s.sw)[m.key := m.core];
  }

  lemma ReportedKeys(sw: Switch, ps: seq<Polled>)
    requires Reports(sw, ps)
    ensures KeysOf(ps) <= sw.Keys
  {
    forall k | k in KeysOf(ps)
      ensures k in sw
    {
      var p :| p in ps && p.key == k;
    }
  }

  /** The cores of a settled table are those of the last one, with the new migrations replayed. */
  lemma SettledCores(t: GoodTable, polled: seq<Polled>, settled: Assignment, k: FiveTuple)
    requires k in settled && settled[k] == CoreOf(t, k)
    ensures k in Replay(settled, RunAfter(t, polled))
    ensures Replay(settled, RunAfter(t, polled))[k] == CoreOf(Settled(t, polled), k)
  {
    hide Replay, RunOf, Rebalanced, AfterPoll, EndingOf, PollAll, CoreOf;
    if EndingOf(t, polled).Completed? {
      PolledCores(t, polled, k);
      RebalancedCores(AfterPoll(t, polled), settled, k);
    } else {
      assert Replay(settled, []) == settled by { ReplayNothing(settled); }
    }
  }

  lemma ReplayNothing(a: Assignment)
    ensures Replay(a, []) == a
  {
  }

  /** A poll changes no core, and puts new flows on core 0. */
  lemma PolledCores(t: GoodTable, polled: seq<Polled>, k: FiveTuple)
    requires EndingOf(t, polled).Completed?
    ensures CoreOf(AfterPoll(t, polled), k) == CoreOf(t, k)
  {
    hide TableOk, CoresInRange, AllActive, PollAll, CoreOf, KnownAfter;
    Endings(t, polled);
    PollKeeps(t, polled);
  }

  lemma RebalancedCores(t: GoodTable, settled: Assignment, k: FiveTuple)
    requires k in settled && settled[k] == CoreOf(t, k)
    ensures k in Replay(settled, RunOf(t)) && Replay(settled, RunOf(t))[k] == CoreOf(Rebalanced(t), k)
  {
    hide Replay, TableOk, CoresInRange, AllActive, Run, RunOf, ListsOf, Represents, Rebalanced;
    RebalancedKeeps(t);
    RunKeepsRange(t);
    if k in t.rings {
      ReplayAgrees(Assigned(t), settled, RunOf(t), k);
    } else {
      ReplayUnmoved(settled, RunOf(t), k, t.rings.Keys, NB_CORES);
    }
  }

  lemma RunAfterAddressed(t: GoodTable, polled: seq<Polled>, keys: set<FiveTuple>)
    requires KnownAfter(t, polled) <= keys
    ensures Addressed(RunAfter(t, polled), keys, NB_CORES)
  {
    hide TableOk, CoresInRange, AllActive, PollAll, RunOf, Represents, Replay, KnownAfter;
    if EndingOf(t, polled).Completed? {
      RunKeepsRange(AfterPoll(t, polled));
    }
  }

  lemma AddressedConcat(a: seq<Migration>, b: seq<Migration>, keys: set<FiveTuple>, n: nat)
    requires Addressed(a, keys, n) && Addressed(b, keys, n)
    ensures Addressed(a + b, keys, n)
  {
  }

  lemma IterateKeepsTags(s: System, polled: seq<Polled>)
    requires Inv(s) && Enabled(s, Iterate(polled))
    ensures TagsFollowCores(Step(s, Iterate(polled)))
  {
    hide Replay, RingsFollow, CountersFollow, TagOf, RunAfter, Settled, EndingOf, HistoryAfter, CoreOf, TotalPackets,
      TableGood, Addressed, Reports;
    var settled := Replay(Tags(s.sw), s.inFlight);
    ReplayAppend(Tags(s.sw), s.inFlight, RunAfter(s.table, polled));
    forall k | k in s.sw
      ensures k in Replay(settled, RunAfter(s.table, polled))
      ensures Replay(settled, RunAfter(s.table, polled))[k] == CoreOf(Settled(s.table, polled), k)
    {
      SettledCores(s.table, polled, settled, k);
    }
  }

  lemma IterateKeepsKeys(s: System, polled: seq<Polled>)
    requires Inv(s) && Enabled(s, Iterate(polled))
    ensures
      var s' := Step(s, Iterate(polled));
      && s'.table.rings.Keys <= s.sw.Keys && Addressed(s'.inFlight, s.sw.Keys, NB_CORES)
      && (|s.sw| < HASHMAP_SIZE ==> s'.ending.Completed?)
  {
    hide TagsFollowCores, Steering, RingsFollow, CountersFollow, RunAfter, HistoryAfter, TotalPackets, TableGood,
      Addressed, Reports;
    ReportedKeys(s.sw, polled);
    RunAfterAddressed(s.table, polled, s.sw.Keys);
    AddressedConcat(s.inFlight, RunAfter(s.table, polled), s.sw.Keys, NB_CORES);
    CardinalityBelow(KnownAfter(s.table, polled), s.sw);
  }

  lemma CardinalityBelow(keys: set<FiveTuple>, sw: Switch)
    requires keys <= sw.Keys
    ensures |keys| <= |sw|
  {
    assert sw.Keys == keys + (sw.Keys - keys);
    assert |sw| == |sw.Keys|;
  }

  // ---- rings and polled counters ----

  lemma {:induction false} PollKeepsHistory(h: map<FiveTuple, seq<uint64>>, t: Table, ps: seq<Polled>)
    requires TableOk(t) && RingsFollow(h, t) && PollAll(t, ps).Some?
    ensures RingsFollow(AddHistory(h, ps), PollAll(t, ps).value)
  {
    hide TableOk, RingsFollow, PollOne, Overflows, HistoryOf;
    if ps != [] {
      var n := |ps| - 1;
      PollKeepsHistory(h, t, ps[..n]);
      PollOneHistory(AddHistory(h, ps[..n]), PollAll(t, ps[..n]).value, ps[n]);
    }
  }

  lemma PollOneHistory(h: map<FiveTuple, seq<uint64>>, t: Table, p: Polled)
    requires TableOk(t) && RingsFollow(h, t)
    ensures RingsFollow(h[p.key := HistoryOf(h, p.key) + [p.packets]], PollOne(t, p))
  {
    hide AddTo, RingState.WellFormed, NoDup, AddAll;
    AddAllAppend(HistoryOf(h, p.key), p.packets);
    if p.key in t.rings {
      CoreDoesNotMatter(AddAll(h[p.key]), t.rings[p.key].core, p.packets);
    } else {
      CoreDoesNotMatter(EmptyRing(), 0, p.packets);
    }
  }

  lemma AddAllAppend(values: seq<uint64>, v: uint64)
    ensures AddAll(values + [v]) == AddTo(AddAll(values), v)
    ensures AddAll([]) == EmptyRing()
  {
    hide AddTo, EmptyRing;
    assert (values + [v])[..|values|] == values;
  }

  lemma CoreDoesNotMatter(r: RingState, core: nat, v: uint64)
    requires r.WellFormed()
    ensures r.(core := core).WellFormed() && AddTo(r.(core := core), v) == AddTo(r, v).(core := core)
    ensures AddTo(r, v).core == r.core
  {
  }

  /** Rebalancing changes nothing but cores. */
  lemma RebalancedFollows(h: map<FiveTuple, seq<uint64>>, t: Table)
    requires TableOk(t) && CoresInRange(t) && RingsFollow(h, t)
    ensures RingsFollow(h, Rebalanced(t))
  {
    hide TableOk, CoresInRange, AddAll, FinalCores;
  }

  lemma IterateKeepsHistory(s: System, polled: seq<Polled>)
    requires Inv(s) && Enabled(s, Iterate(polled))
    ensures var s' := Step(s, Iterate(polled)); RingsFollow(s'.history, s'.table)
  {
    hide TableOk, CoresInRange, AllActive, TagsFollowCores, PollAll, AddHistory, RunAfter, Addressed, Rebalanced,
      RingsFollow, CountersFollow, TotalPackets, KnownAfter, Reports;
    if EndingOf(s.table, polled).Completed? {
      Endings(s.table, polled);
      PollKeepsHistory(s.history, s.table, polled);
      RebalancedFollows(AddHistory(s.history, polled), AfterPoll(s.table, polled));
    }
  }

  /** Polling the present counters extends every history by a value no smaller than its last. */
  lemma {:induction false} PollKeepsCounters(h: map<FiveTuple, seq<uint64>>, sw: Switch, ps: seq<Polled>)
    requires CountersFollow(h, sw) && Reports(sw, ps)
    ensures CountersFollow(AddHistory(h, ps), sw)
  {
    hide Counting;
    if ps != [] {
      var n := |ps| - 1;
      PollKeepsCounters(h, sw, ps[..n]);
      CountingMore(HistoryOf(AddHistory(h, ps[..n]), ps[n].key), sw[ps[n].key].packets);
    }
  }

  /** What a poll adds to the history of a flow: when it reports each flow once, the present
      counter of the switch if it reports the flow, and nothing otherwise. */
  lemma {:induction false} PollAddsCounters(h: map<FiveTuple, seq<uint64>>, sw: Switch, ps: seq<Polled>, k: FiveTuple)
    requires Reports(sw, ps) && forall i, j :: 0 <= i < j < |ps| ==> ps[i].key != ps[j].key
    ensures
      if exists i :: 0 <= i < |ps| && ps[i].key == k then
        k in sw && HistoryOf(AddHistory(h, ps), k) == HistoryOf(h, k) + [sw[k].packets]
      else
        HistoryOf(AddHistory(h, ps), k) == HistoryOf(h, k)
  {
    if ps != [] {
      var n := |ps| - 1;
      PollAddsCounters(h, sw, ps[..n], k);
      if i :| 0 <= i < n && ps[i].key == k {
        assert ps[..n][i].key == k;
      }
    }
  }

  /** What a turn the program survives adds to the histories. */
  lemma TurnAddsCounters(s: System, polled: seq<Polled>, k: FiveTuple)
    requires Enabled(s, Iterate(polled)) && EndingOf(s.table, polled).Completed?
    requires forall i, j :: 0 <= i < j < |polled| ==> polled[i].key != polled[j].key
    ensures
      var h, h' := s.history, Step(s, Iterate(polled)).history;
      if exists i :: 0 <= i < |polled| && polled[i].key == k then
        k in s.sw && HistoryOf(h', k) == HistoryOf(h, k) + [s.sw[k].packets]
      else
        HistoryOf(h', k) == HistoryOf(h, k)
  {
    hide AddHistory, RunAfter, Settled, EndingOf, HistoryOf, TableGood;
    PollAddsCounters(s.history, s.sw, polled, k);
  }

  lemma CountingMore(values: seq<uint64>, packets: uint64)
    requires values == [] || Counting(values, packets)
    ensures Counting(values + [packets], packets)
  {
  }

  /** Counters only grow, so what was polled stays below them. */
  lemma CountersStay(h: map<FiveTuple, seq<uint64>>, sw: Switch, sw': Switch)
    requires CountersFollow(h, sw)
    requires forall k :: k in sw ==> k in sw' && sw[k].packets <= sw'[k].packets
    ensures CountersFollow(h, sw')
  {
  }

  lemma {:induction false} SameTotal(sw: Switch, sw': Switch)
    requires sw.Keys == sw'.Keys && forall k :: k in sw ==> sw[k].packets == sw'[k].packets
    ensures TotalPackets(sw) == TotalPackets(sw')
    decreases |sw|
  {
    if sw == map[] {
      assert sw' == map[];
    } else {
      var k :| k in sw;
      WithoutKey(sw, k);
      TotalWithout(sw, k);
      TotalWithout(sw', k);
      SameTotal(sw - {k}, sw' - {k});
    }
  }

  /** The total load of flows whose loads stay below their counters stays below the total count. */
  lemma {:induction false} LoadBelowTotal(L: Loads, keys: seq<FiveTuple>, sw: Switch)
    requires NoDup(keys) && forall k :: k in keys ==> k in sw && Weight(L, k) <= sw[k].packets
    ensures SumOf(L, keys) <= TotalPackets(sw)
  {
    hide TotalPackets;
    if keys != [] {
      var init, k := keys[..|keys| - 1], keys[|keys| - 1];
      assert k in keys && k !in init;
      assert forall k' :: k' in init ==> k' in keys;
      TotalWithout(sw, k);
      LoadBelowTotal(L, init, sw - {k});
    }
  }

  // ---- all runs ----

  lemma InstallKeepsInv(s: System, key: FiveTuple, maxLen: uint16)
    requires Inv(s) && key !in s.sw
    ensures Inv(Step(s, Install(key, maxLen)))
  {
    hide TagsFollowCores, Steering, RingsFollow, CountersFollow, TotalPackets, TableGood;
    var s' := Step(s, Install(key, maxLen));
    InstallKeepsTags(s, key, maxLen);
    TotalWith(s.sw, key, s'.sw[key]);
    CountersStay(s.history, s.sw, s'.sw);
    CardinalityBelow(s.sw.Keys, s'.sw);
  }

  lemma CountKeepsInv(s: System, key: FiveTuple, n: uint64)
    requires Inv(s) && Enabled(s, CountPackets(key, n))
    ensures Inv(Step(s, CountPackets(key, n)))
  {
    hide TagsFollowCores, Steering, RingsFollow, CountersFollow, TotalPackets, TableGood;
    var s' := Step(s, CountPackets(key, n));
    CountKeepsTags(s, key, n);
    PacketsFit(s.sw, key);
    TotalWith(s.sw, key, s'.sw[key]);
    CountersStay(s.history, s.sw, s'.sw);
    assert s'.sw.Keys == s.sw.Keys;
    SameSize(s.sw, s'.sw);
  }

  lemma SameSize(sw: Switch, sw': Switch)
    requires sw.Keys == sw'.Keys
    ensures |sw| == |sw'|
  {
    CardinalityBelow(sw.Keys, sw');
    CardinalityBelow(sw'.Keys, sw);
    assert |sw| == |sw.Keys| && |sw'| == |sw'.Keys|;
  }

  lemma DeliverKeepsInv(s: System)
    requires Inv(s) && s.inFlight != []
    ensures Inv(Step(s, Deliver))
  {
    hide TagsFollowCores, Steering, RingsFollow, CountersFollow, TotalPackets, TableGood, Apply;
    var s' := Step(s, Deliver);
    DeliverKeepsTags(s);
    SameTotal(s.sw, s'.sw);
    CountersStay(s.history, s.sw, s'.sw);
    SameSize(s.sw, s'.sw);
  }

  lemma IterateKeepsInv(s: System, polled: seq<Polled>)
    requires Inv(s) && Enabled(s, Iterate(polled))
    ensures Inv(Step(s, Iterate(polled)))
  {
    hide TagsFollowCores, Steering, RingsFollow, CountersFollow, TotalPackets, TableGood, RunAfter, Settled, EndingOf,
      AddHistory, Addressed, Reports;
    IterateKeepsTags(s, polled);
    IterateKeepsKeys(s, polled);
    IterateKeepsHistory(s, polled);
    PollKeepsCounters(s.history, s.sw, polled);
  }

  lemma StepKeepsInv(s: System, e: Event)
    requires Inv(s) && Enabled(s, e)
    ensures Inv(Step(s, e))
  {
    hide Inv, TotalPackets, TableGood, Reports;
    match e
    case Install(key, maxLen) => InstallKeepsInv(s, key, maxLen);
    case CountPackets(key, n) => CountKeepsInv(s, key, n);
    case Deliver => DeliverKeepsInv(s);
    case Iterate(polled) => IterateKeepsInv(s, polled);
  }

  ghost predicate AllEnabled(s: System, es: seq<Event>)
    decreases |es|
  {
    es == [] || (Enabled(s, es[0]) && AllEnabled(Step(s, es[0]), es[1..]))
  }

  ghost function Steps(s: System, es: seq<Event>): System
    requires AllEnabled(s, es)
    decreases |es|
  {
    if es == [] then s else Steps(Step(s, es[0]), es[1..])
  }

  lemma {:induction false} StepsKeepInv(s: System, es: seq<Event>)
    requires Inv(s) && AllEnabled(s, es)
    ensures Inv(Steps(s, es))
    decreases |es|
  {
    hide Inv, Enabled, Step;
    if es != [] {
      StepKeepsInv(s, es[0]);
      StepsKeepInv(Step(s, es[0]), es[1..]);
    }
  }

  /** In every run, whenever all flow-mods sent have been applied, every packet of a flow of the
      table leaves the switch once, to the host, with its assigned core as VLAN, and every packet
      of another flow with VLAN 0. */
  lemma TagsAreCores(s: System, es: seq<Event>, k: FiveTuple)
    requires Initial(s) && AllEnabled(s, es)
    requires Steps(s, es).inFlight == [] && k in Steps(s, es).sw
    ensures CoreOf(Steps(s, es).table, k) < NB_CORES
    ensures forall arrival: uint16 ::
      Forward(Steps(s, es).sw[k].actions, arrival) == [Outgoing(2, CoreOf(Steps(s, es).table, k))]
    ensures k !in Steps(s, es).table.rings ==>
      forall arrival: uint16 :: Forward(Steps(s, es).sw[k].actions, arrival) == [Outgoing(2, 0)]
  {
    hide Step, Enabled, TableOk, AllActive, RingsFollow, Addressed, TagOf, Initial, Steps, AllEnabled, CountersFollow,
      TotalPackets;
    InitialInv(s);
    StepsKeepInv(s, es);
  }

  /** In every run, as long as fewer flows are installed than the table has slots, the program
      neither exits nor gets lost. */
  lemma NeverEnds(s: System, es: seq<Event>)
    requires Initial(s) && AllEnabled(s, es)
    ensures |Steps(s, es).sw| < HASHMAP_SIZE ==> Steps(s, es).ending.Completed?
  {
    hide Step, Enabled, TableGood, RingsFollow, Addressed, Initial, Steps, AllEnabled, CountersFollow, TotalPackets;
    InitialInv(s);
    StepsKeepInv(s, es);
  }

  lemma LastIsStored(values: seq<uint64>, core: nat)
    requires values != []
    ensures AddAll(values).(core := core).Last() == Stored(values)[|values| - 1]
  {
    hide AddAll, Stored;
    RingRefinesStream(values);
    var r, ds := AddAll(values), Stored(values);
    assert r.buffer[Back(r.pos, 0)] == ds[|ds| - 1 - 0];
  }

  /** The load of a flow is the last value stored from its polled counters, which never wrapped
      around; so it is at most the present counter of the switch. */
  lemma LoadIsStored(s: System, k: FiveTuple)
    requires Inv(s) && k in s.table.rings
    ensures
      && TableOk(s.table) && k in s.history && s.history[k] != [] && k in s.sw
      && LoadsOf(s.table)[k] == Stored(s.history[k])[|s.history[k]| - 1] <= s.sw[k].packets
  {
    hide AllActive, CoresInRange, TagsFollowCores, Addressed, AddAll, Stored, RingState.WellFormed, TotalPackets,
      NonDecreasing;
    LastIsStored(s.history[k], s.table.rings[k].core);
    StoredNeverUnderflows(s.history[k], |s.history[k]| - 1);
  }

  lemma LoadsAreStored(s: System, es: seq<Event>, k: FiveTuple)
    requires Initial(s) && AllEnabled(s, es) && k in Steps(s, es).table.rings
    ensures
      var s' := Steps(s, es);
      && TableOk(s'.table) && k in s'.history && s'.history[k] != [] && k in s'.sw
      && LoadsOf(s'.table)[k] == Stored(s'.history[k])[|s'.history[k]| - 1] <= s'.sw[k].packets
  {
    hide Step, Enabled, Inv, TableGood, Initial, Steps, AllEnabled, Stored, LoadsOf;
    InitialInv(s);
    StepsKeepInv(s, es);
    LoadIsStored(Steps(s, es), k);
  }

  /** So the total load always fits in 64 bits. */
  lemma LoadsFit(s: System)
    requires Inv(s)
    ensures TableOk(s.table) && SumOf(LoadsOf(s.table), s.table.keys) <= TotalPackets(s.sw) < TWO_64
  {
    hide TotalPackets, SumOf, Stored, TagsFollowCores, RingsFollow, Addressed, CountersFollow;
    forall k | k in s.table.keys
      ensures k in s.sw && Weight(LoadsOf(s.table), k) <= s.sw[k].packets
    {
      LoadIsStored(s, k);
    }
    LoadBelowTotal(LoadsOf(s.table), s.table.keys, s.sw);
  }

  /** Rebalancing changes no load. */
  lemma RebalancedLoads(t: Table)
    requires TableOk(t) && CoresInRange(t)
    ensures TableOk(Rebalanced(t)) && Rebalanced(t).keys == t.keys && LoadsOf(Rebalanced(t)) == LoadsOf(t)
  {
    hide FinalCores, CoresInRange, NoDup;
  }

  /** In every run, a poll the program survives leaves loads whose sum fits in 64 bits. */
  lemma PolledLoadsFit(s: System, es: seq<Event>, polled: seq<Polled>)
    requires Initial(s) && AllEnabled(s, es) && Enabled(Steps(s, es), Iterate(polled))
    requires EndingOf(Steps(s, es).table, polled).Completed?
    ensures var t := AfterPoll(Steps(s, es).table, polled);
      TableOk(t) && CoresInRange(t) && SumOf(LoadsOf(t), t.keys) < TWO_64
  {
    hide Inv, TableOk, CoresInRange, AllActive, Initial, AllEnabled, Enabled, Steps, EndingOf, SumOf, LoadsOf,
      Rebalanced, KnownAfter, TotalPackets, RunAfter, HistoryAfter;
    var now := Steps(s, es);
    InitialInv(s);
    StepsKeepInv(s, es);
    StepKeepsInv(now, Iterate(polled));
    LoadsFit(Step(now, Iterate(polled)));
    RebalancedLoads(AfterPoll(now.table, polled));
  }

  /** So each turn makes exactly the migrations of the run with exact loads, and everything
      module Rebalance proves of exact runs holds of what the program does. */
  lemma TurnsAreExact(s: System, es: seq<Event>, polled: seq<Polled>)
    requires Initial(s) && AllEnabled(s, es) && Enabled(Steps(s, es), Iterate(polled))
    requires EndingOf(Steps(s, es).table, polled).Completed?
    ensures
      var t := AfterPoll(Steps(s, es).table, polled);
      && TableOk(t)
      && RunAfter(Steps(s, es).table, polled) == Run(LoadsOf(t), ListsOf(t), MAX_REBALANCE_ITERATIONS, Exact).migrations
  {
    hide TableOk, CoresInRange, Initial, AllEnabled, Enabled, Steps, EndingOf, SumOf, LoadsOf, Run, ListsOf, RunOf;
    PolledLoadsFit(s, es, polled);
    RunIsExact(AfterPoll(Steps(s, es).table, polled));
  }

  lemma SettledIsRebalanced(t: GoodTable, polled: seq<Polled>)
    requires EndingOf(t, polled).Completed?
    ensures TableOk(AfterPoll(t, polled)) && CoresInRange(AfterPoll(t, polled))
    ensures Settled(t, polled) == Rebalanced(AfterPoll(t, polled))
  {
    hide TableOk, CoresInRange, AllActive, Rebalanced;
  }

  /** In every run and every turn, no core ends above the larger of its load before and the
      average plus the heaviest flow. */
  lemma TurnsAreBounded(s: System, es: seq<Event>, polled: seq<Polled>, w: nat, core: nat)
    requires Initial(s) && AllEnabled(s, es) && Enabled(Steps(s, es), Iterate(polled)) && core < NB_CORES
    requires EndingOf(Steps(s, es).table, polled).Completed?
    ensures
      var t, t' := AfterPoll(Steps(s, es).table, polled), Settled(Steps(s, es).table, polled);
      && TableOk(t)
      && var L := LoadsOf(t);
         (forall k :: Weight(L, k) <= w) ==>
         LoadOn(t', L, core) <= Max(LoadOn(t, L, core), MeanLoad(CoreLoads(L, ListsOf(t), Exact), Exact) + w)
  {
    hide TableOk, CoresInRange, Initial, AllEnabled, Enabled, Steps, EndingOf, SumOf, LoadsOf, ListsOf, LoadOn,
      MeanLoad, CoreLoads, Rebalanced, Weight, Max, Settled, AfterPoll, TableGood, Inv;
    PolledLoadsFit(s, es, polled);
    SettledIsRebalanced(Steps(s, es).table, polled);
    var t := AfterPoll(Steps(s, es).table, polled);
    if forall k :: Weight(LoadsOf(t), k) <= w {
      RebalancedIsBounded(t, w, core);
    }
  }
}
