/** src/balancer.c on the heap: per-core arrays of pointers into the flow table, the cached
    sums and maxima, and the loop that moves flows. Each method is proved against the
    functions of module Rebalance. */
module Balancer {
  import opened Env
  import opened Rings
  import opened Slots
  import opened FlowTable
  import opened Rebalance

  /** `L` gives the last stored counter value of every ring. */
  ghost predicate RingLoads(m: RingMap, L: Loads)
    reads m.Values`pos, m.Values`size, Buffers(m)
  {
    forall k :: k in m ==> m[k].Valid() && k in L && m[k].GetLast() == L[k]
  }

  ghost predicate AssignedTo(m: RingMap, a: Assignment)
    reads m.Values`assignedCore
  {
    a.Keys == m.Keys && forall k :: k in m ==> m[k].assignedCore == a[k]
  }

  /** The first `j` flows, and one more. */
  lemma InfoStep(L: Loads, keys: seq<FiveTuple>, j: nat)
    requires j < |keys|
    ensures Load64(L, keys[..j + 1]) == Add64(Load64(L, keys[..j]), Weight(L, keys[j]))
    ensures
      var i := ArgMax(L, keys[..j]);
      ArgMax(L, keys[..j + 1]) ==
        if j > 0 && Weight(L, keys[j]) <= Weight(L, keys[i]) then i else j
  {
    assert keys[..j + 1][..j] == keys[..j];
  }

  class CoreLoad {
    var coreIdx: nat
    var load: uint64
    var biggestLoadIdx: nat
    var nbFlows: nat
    const flows: array<RingBuffer?>
    const flowKeys: array<FiveTuple>

    constructor ()
      ensures coreIdx == nbFlows == 0 && fresh(flows) && fresh(flowKeys)
      ensures forall m :: Holds(m, [])
    {
      coreIdx, load, biggestLoadIdx, nbFlows := 0, 0, 0, 0;
      flows := new RingBuffer?[HASHMAP_SIZE](_ => null);
      flowKeys := new FiveTuple[HASHMAP_SIZE](_ => FiveTuple(0, 0, 0, 0, 0));
    }

    /** The arrays list exactly `keys`, each paired with its own ring of the table. */
    ghost predicate Holds(m: RingMap, keys: seq<FiveTuple>)
      reads `nbFlows, flows, flowKeys
    {
      && flows.Length == flowKeys.Length == HASHMAP_SIZE
      && nbFlows == |keys| <= HASHMAP_SIZE
      && flowKeys[..nbFlows] == keys
      && forall j :: 0 <= j < nbFlows ==> keys[j] in m && flows[j] == m[keys[j]]
    }

    /** The arrays are not the counter array of any ring. */
    ghost predicate Outside(m: RingMap) {
      flows !in Buffers(m) && flowKeys !in Buffers(m)
    }

    /** The cached fields agree with the flow list. */
    ghost predicate Measured(L: Loads, keys: seq<FiveTuple>)
      reads `load, `biggestLoadIdx
    {
      load == Load64(L, keys) && biggestLoadIdx == ArgMax(L, keys)
    }

    /** Adds a flow at the end of the arrays. */
    method Append(key: FiveTuple, flow: RingBuffer, ghost m: RingMap, ghost keys: seq<FiveTuple>)
      requires Holds(m, keys) && |keys| < HASHMAP_SIZE && key in m && m[key] == flow
      modifies `nbFlows, flows, flowKeys
      ensures Holds(m, keys + [key])
    {
      flows[nbFlows] := flow;
      flowKeys[nbFlows] := key;
      nbFlows := nbFlows + 1;
      assert flowKeys[..nbFlows] == keys + [key];
    }

    /** Fills the gap at `i` with the last flow. */
    method RemoveAt(i: nat, ghost m: RingMap, ghost keys: seq<FiveTuple>)
      requires Holds(m, keys) && i < |keys|
      modifies `nbFlows, flows, flowKeys
      ensures Holds(m, SwapRemove(keys, i))
    {
      nbFlows := nbFlows - 1;
      flows[i] := flows[nbFlows];
      flowKeys[i] := flowKeys[nbFlows];
      assert flowKeys[..nbFlows] == SwapRemove(keys, i);
    }

    /** One pass over the flows: their sum, and the first heaviest one. */
    method MeasureFlows(ghost m: RingMap, ghost L: Loads, ghost keys: seq<FiveTuple>)
      returns (sum: uint64, idx: nat)
      requires Holds(m, keys) && RingLoads(m, L)
      ensures sum == Load64(L, keys) && idx == ArgMax(L, keys)
    {
      sum, idx := 0, 0;
      var biggestLoad: uint64 := 0;
      hide Add64;
      for j := 0 to nbFlows
        invariant sum == Load64(L, keys[..j])
        invariant idx == ArgMax(L, keys[..j])
        invariant biggestLoad == if j == 0 then 0 else Weight(L, keys[idx])
      {
        InfoStep(L, keys, j);
        hide Load64, ArgMax;
        assert keys[j] in m && flows[j] == m[keys[j]];
        var currentLoad := flows[j].GetLast();
        if currentLoad > biggestLoad {
          biggestLoad := currentLoad;
          idx := j;
        }
        sum := Add64(sum, currentLoad);
      }
      assert keys[..nbFlows] == keys;
    }

    method UpdateCoreInfo(ghost m: RingMap, ghost L: Loads, ghost keys: seq<FiveTuple>)
      requires Holds(m, keys) && RingLoads(m, L)
      modifies `load, `biggestLoadIdx
      ensures Measured(L, keys) && RingLoads(m, L)
    {
      var sum, idx := MeasureFlows(m, L, keys);
      load, biggestLoadIdx := sum, idx;
    }
  }

  lemma HeldAt(core: CoreLoad, m: RingMap, keys: seq<FiveTuple>, i: nat)
    requires core.Holds(m, keys) && i < |keys|
    ensures i < core.flows.Length && i < core.flowKeys.Length
    ensures core.flowKeys[i] == keys[i] && keys[i] in m && core.flows[i] == m[keys[i]]
  {
    assert core.flowKeys[i] == core.flowKeys[..core.nbFlows][i];
  }

  /** Two cores, or the same one twice: donor and receiver coincide when all loads are equal
      and their sum wraps around. */
  ghost predicate Paired(big: CoreLoad, small: CoreLoad, from: seq<FiveTuple>, to: seq<FiveTuple>) {
    if big == small then from == to else big.flows != small.flows && big.flowKeys != small.flowKeys
  }

  /** The receiver's list once the donor has lost flow `i`. */
  ghost function Receiving(big: CoreLoad, small: CoreLoad, from: seq<FiveTuple>, i: nat, to: seq<FiveTuple>)
    : seq<FiveTuple>
    requires i < |from|
  {
    if big == small then SwapRemove(from, i) else to
  }

  /** The part of a migration that moves the entry, before the cached fields are renewed. */
  method Transfer(big: CoreLoad, small: CoreLoad, ghost m: RingMap, ghost L: Loads,
                  ghost from: seq<FiveTuple>, ghost to: seq<FiveTuple>, ghost ring: RingBuffer)
    returns (key: FiveTuple)
    requires Paired(big, small, from, to)
    requires big.Holds(m, from) && small.Holds(m, to) && RingLoads(m, L)
    requires big.Outside(m) && small.Outside(m)
    requires big.biggestLoadIdx < |from| && |to| < HASHMAP_SIZE && small.coreIdx < 256
    requires from[big.biggestLoadIdx] in m && m[from[big.biggestLoadIdx]] == ring
    modifies big`nbFlows, big.flows, big.flowKeys, small`nbFlows, small.flows, small.flowKeys
    modifies ring`assignedCore
    ensures key == from[big.biggestLoadIdx]
    ensures big != small ==> big.Holds(m, SwapRemove(from, big.biggestLoadIdx))
    ensures small.Holds(m, Receiving(big, small, from, big.biggestLoadIdx, to) + [key])
    ensures RingLoads(m, L) && ring.assignedCore == small.coreIdx
  {
    hide CoreLoad.Holds, RingLoads, SwapRemove;
    HeldAt(big, m, from, big.biggestLoadIdx);
    var biggestLoadIdx := big.biggestLoadIdx;
    var flow := big.flows[biggestLoadIdx];
    key := big.flowKeys[biggestLoadIdx];
    ShorterList(from, biggestLoadIdx);
    big.RemoveAt(biggestLoadIdx, m, from);
    small.Append(key, flow, m, Receiving(big, small, from, biggestLoadIdx, to));
    flow.assignedCore := small.coreIdx;
  }

  lemma ShorterList(keys: seq<FiveTuple>, i: nat)
    requires i < |keys|
    ensures |SwapRemove(keys, i)| == |keys| - 1
  {
  }

  /** Moves the biggest flow of `big` to the end of `small`. */
  method Migrate(big: CoreLoad, small: CoreLoad, ghost m: RingMap, ghost L: Loads,
                 ghost from: seq<FiveTuple>, ghost to: seq<FiveTuple>, ghost ring: RingBuffer)
    returns (migration: Migration)
    requires Paired(big, small, from, to)
    requires big.Holds(m, from) && small.Holds(m, to) && RingLoads(m, L)
    requires big.Outside(m) && small.Outside(m)
    requires big.biggestLoadIdx < |from| && |to| < HASHMAP_SIZE && small.coreIdx < 256
    requires from[big.biggestLoadIdx] in m && m[from[big.biggestLoadIdx]] == ring
    modifies big`nbFlows, big`load, big`biggestLoadIdx, big.flows, big.flowKeys
    modifies small`nbFlows, small`load, small`biggestLoadIdx, small.flows, small.flowKeys
    modifies ring`assignedCore
    ensures
      var i := old(big.biggestLoadIdx);
      var from', to' := SwapRemove(from, i), Receiving(big, small, from, i, to) + [from[i]];
      && (big != small ==> big.Holds(m, from') && big.Measured(L, from'))
      && small.Holds(m, to') && small.Measured(L, to')
      && migration == Migration(from[i], small.coreIdx)
    ensures RingLoads(m, L) && ring.assignedCore == small.coreIdx
  {
    hide CoreLoad.Holds, CoreLoad.Measured, RingLoads, SwapRemove, CoreLoad.Outside;
    ghost var i := big.biggestLoadIdx;
    var key := Transfer(big, small, m, L, from, to, ring);
    ghost var to' := Receiving(big, small, from, i, to) + [key];
    big.UpdateCoreInfo(m, L, if big == small then to' else SwapRemove(from, i));
    small.UpdateCoreInfo(m, L, to');
    migration := Migration(key, small.coreIdx);
  }

  // ---- the array of cores ----

  /** No two cores share an object, and none shares one with a ring. */
  ghost predicate Apart(cores: seq<CoreLoad>, m: RingMap) {
    && (forall i :: 0 <= i < |cores| ==> cores[i].Outside(m))
    && (forall i, j :: 0 <= i < |cores| && 0 <= j < |cores| && i != j ==>
      cores[i] != cores[j] && cores[i].flows != cores[j].flows && cores[i].flowKeys != cores[j].flowKeys)
  }

  ghost function Arrays(cores: seq<CoreLoad>): set<object> {
    (set c | c in cores :: c.flows) + (set c | c in cores :: c.flowKeys)
  }

  ghost predicate AllHold(cores: seq<CoreLoad>, m: RingMap, cs: Cores)
    reads cores, Arrays(cores)
  {
    |cores| == |cs| && forall i :: 0 <= i < |cores| ==> cores[i].Holds(m, cs[i])
  }

  ghost predicate AllMeasured(cores: seq<CoreLoad>, L: Loads, cs: Cores)
    reads cores
  {
    |cores| == |cs| && forall i :: 0 <= i < |cores| ==> cores[i].coreIdx == i && cores[i].Measured(L, cs[i])
  }

  method AddFlow(cores: seq<CoreLoad>, core: nat, key: FiveTuple, flow: RingBuffer,
                 ghost m: RingMap, ghost cs: Cores)
    requires Apart(cores, m) && AllHold(cores, m, cs) && core < |cores|
    requires |cs[core]| < HASHMAP_SIZE && key in m && m[key] == flow
    modifies cores, Arrays(cores)
    ensures AllHold(cores, m, cs[core := cs[core] + [key]])
  {
    if cores[core].nbFlows > HASHMAP_SIZE {
      assert false;   // "core is full": never reached
    }
    cores[core].Append(key, flow, m, cs[core]);
    forall i | 0 <= i < |cores|
      ensures cores[i].Holds(m, cs[core := cs[core] + [key]][i])
    {
    }
  }

  method MigrateBetween(cores: seq<CoreLoad>, b: nat, t: nat, ghost m: RingMap, ghost L: Loads, ghost cs: Cores,
                        ghost ring: RingBuffer)
    returns (migration: Migration)
    requires Apart(cores, m) && AllHold(cores, m, cs) && AllMeasured(cores, L, cs) && RingLoads(m, L)
    requires b < |cores| <= 256 && t < |cores|
    requires ArgMax(L, cs[b]) < |cs[b]| && |cs[t]| < HASHMAP_SIZE
    requires cs[b][ArgMax(L, cs[b])] in m && m[cs[b][ArgMax(L, cs[b])]] == ring
    modifies cores, Arrays(cores), ring`assignedCore
    ensures
      var i := ArgMax(L, cs[b]);
      && AllHold(cores, m, Shift(cs, b, i, t)) && AllMeasured(cores, L, Shift(cs, b, i, t))
      && migration == Migration(cs[b][i], t)
    ensures RingLoads(m, L) && ring.assignedCore == t
  {
    hide ArgMax, SwapRemove, RingLoads;
    ghost var i := ArgMax(L, cs[b]);
    migration := Migrate(cores[b], cores[t], m, L, cs[b], cs[t], ring);
    ghost var cs' := Shift(cs, b, i, t);
    forall j | 0 <= j < |cores|
      ensures cores[j].Holds(m, cs'[j]) && cores[j].coreIdx == j && cores[j].Measured(L, cs'[j])
    {
    }
  }

  method MeasureAll(cores: seq<CoreLoad>, ghost m: RingMap, ghost L: Loads, ghost cs: Cores)
    requires Apart(cores, m) && AllHold(cores, m, cs) && RingLoads(m, L)
    modifies cores
    ensures AllHold(cores, m, cs) && AllMeasured(cores, L, cs)
  {
    for i := 0 to |cores|
      invariant AllHold(cores, m, cs) && RingLoads(m, L)
      invariant forall j :: 0 <= j < i ==> cores[j].coreIdx == j && cores[j].Measured(L, cs[j])
    {
      cores[i].coreIdx := i;
      cores[i].UpdateCoreInfo(m, L, cs[i]);
    }
  }

  lemma ArraysAppend(cores: seq<CoreLoad>, core: CoreLoad)
    ensures Arrays(cores + [core]) == Arrays(cores) + {core.flows, core.flowKeys}
  {
  }

  method AllocateCores(n: nat, ghost m: RingMap) returns (cores: seq<CoreLoad>)
    ensures |cores| == n && Apart(cores, m) && fresh(cores) && fresh(Arrays(cores))
    ensures AllHold(cores, m, seq(n, _ => []))
  {
    cores := [];
    for i := 0 to n
      invariant |cores| == i && fresh(cores) && fresh(Arrays(cores))
      invariant Apart(cores, m) && AllHold(cores, m, seq(i, _ => []))
    {
      var core := new CoreLoad();
      assert core.Holds(m, []);
      ArraysAppend(cores, core);
      cores := cores + [core];
    }
  }

  /** Reads the table entry after the first `n` ones. */
  method NextEntry(table: HashMap, previous: FiveTuple, ghost seed: FiveTuple, ghost s: seq<RingSlot>, ghost n: nat)
    returns (next: Advance<RingBuffer?>)
    requires table.Valid() && s == table.slots[..] && HoleFree(s) && seed !in Keys(s)
    requires n <= Size(s) <= |s| && previous == Visited(s, seed, n)
    ensures next == if n < Size(s) then Next(s[n].key, s[n].value) else if n < |s| then End else FellOff
  {
    AdvanceAt(s, seed, n);
    next := table.GetNext(previous);
  }

  /** Files the flow of slot `n`. */
  method FileFlow(cores: seq<CoreLoad>, key: FiveTuple, value: RingBuffer?,
                  ghost s: seq<RingSlot>, ghost m: RingMap, ghost a: Assignment, ghost n: nat)
    requires SlotsOk(s) && HoleFree(s) && n < Size(s) <= |s| == HASHMAP_SIZE && m == RingsOf(s)
    requires key == s[n].key && value == s[n].value
    requires AssignedTo(m, a) && forall k :: k in a ==> a[k] < |cores|
    requires Apart(cores, m) && AllHold(cores, m, Group(SlotKeys(s, 0, n), a, |cores|))
    modifies cores, Arrays(cores)
    ensures AllHold(cores, m, Group(SlotKeys(s, 0, n + 1), a, |cores|)) && AssignedTo(m, a)
  {
    hide Group, SlotKeys, HoleFree, SlotsOk, Size, RingsOf;
    GroupNext(s, m, a, |cores|, n);
    assert value.assignedCore == a[key];
    AddFlow(cores, value.assignedCore, key, value, m, Group(SlotKeys(s, 0, n), a, |cores|));
  }

  /** One turn of the iteration over the table: the next flow, if any, is appended to the
      list of its core. */
  method Visit(cores: seq<CoreLoad>, table: HashMap, previous: FiveTuple, ghost seed: FiveTuple,
               ghost s: seq<RingSlot>, ghost m: RingMap, ghost a: Assignment, ghost n: nat)
    returns (next: Advance<RingBuffer?>)
    requires table.Valid() && s == table.slots[..] && HoleFree(s) && m == table.Contents() && seed !in m
    requires AssignedTo(m, a) && forall k :: k in a ==> a[k] < |cores|
    requires n <= Size(s) <= |s| && previous == Visited(s, seed, n)
    requires Apart(cores, m) && AllHold(cores, m, Group(SlotKeys(s, 0, n), a, |cores|))
    requires table.slots !in Arrays(cores)
    modifies cores, Arrays(cores)
    ensures table.Valid() && table.slots[..] == s && AssignedTo(m, a)
    ensures next.End? <==> n == Size(s) < |s|
    ensures next.FellOff? <==> n == Size(s) == |s|
    ensures next.Next? ==> n < Size(s) && next.key == s[n].key
    ensures AllHold(cores, m, Group(SlotKeys(s, 0, if next.Next? then n + 1 else n), a, |cores|))
  {
    hide Group, SlotKeys, HoleFree, Apart, Size, Keys, Visited;
    next := NextEntry(table, previous, seed, s, n);
    if next.Next? {
      FileFlow(cores, next.key, next.value, s, m, a, n);
    }
  }

  /** The iteration over the table. */
  method FillCores(cores: seq<CoreLoad>, table: HashMap, seed: FiveTuple,
                   ghost s: seq<RingSlot>, ghost m: RingMap, ghost a: Assignment)
    returns (returned: bool)
    requires table.Valid() && s == table.slots[..] && HoleFree(s) && m == table.Contents() && seed !in m
    requires AssignedTo(m, a) && forall k :: k in a ==> a[k] < |cores|
    requires Apart(cores, m) && AllHold(cores, m, seq(|cores|, _ => []))
    requires table.slots !in Arrays(cores)
    modifies cores, Arrays(cores)
    ensures returned <==> table.size < HASHMAP_SIZE
    ensures returned ==> AllHold(cores, m, Group(SlotKeys(s, 0, table.size), a, |cores|))
  {
    var previous := seed;
    ghost var n := 0;
    EmptyGroup(s, a, |cores|);
    assert table.size == Size(s) <= |s| == HASHMAP_SIZE && previous == Visited(s, seed, 0);
    hide Group, SlotKeys, HoleFree, Size, Apart, AllHold, Visited, AssignedTo;
    while true
      invariant table.Valid() && table.slots[..] == s && AssignedTo(m, a)
      invariant n <= Size(s) && previous == Visited(s, seed, n)
      invariant AllHold(cores, m, Group(SlotKeys(s, 0, n), a, |cores|))
      decreases Size(s) - n
    {
      var next := Visit(cores, table, previous, seed, s, m, a, n);
      match next {
        case Next(key, _) =>
          VisitedNext(s, seed, n);
          previous := key;
          n := n + 1;
        case End =>
          return true;
        case FellOff =>
          return false;
      }
    }
  }

  method BuildLists(table: HashMap, nbCores: Byte, seed: FiveTuple, ghost m: RingMap, ghost a: Assignment)
    returns (cores: seq<CoreLoad>, returned: bool)
    requires table.Valid() && HoleFree(table.slots[..]) && m == table.Contents() && seed !in m
    requires AssignedTo(m, a) && forall k :: k in a ==> a[k] < nbCores
    ensures returned <==> table.size < HASHMAP_SIZE
    ensures |cores| == nbCores && fresh(cores) && fresh(Arrays(cores)) && Apart(cores, m)
    ensures returned ==> AllHold(cores, m, Group(SlotKeys(table.slots[..], 0, table.size), a, nbCores))
  {
    hide Group, SlotKeys, HoleFree, Apart, AllHold;
    cores := AllocateCores(nbCores, m);
    returned := FillCores(cores, table, seed, table.slots[..], m, a);
  }

  /** Groups the flows of the table by core, in table order. The result is not returned when
      the iteration leaves hashmap_get_next without a return value. */
  method ComputeRepartition(table: HashMap, nbCores: Byte, seed: FiveTuple,
                            ghost m: RingMap, ghost L: Loads, ghost a: Assignment)
    returns (cores: seq<CoreLoad>, returned: bool)
    requires table.Valid() && HoleFree(table.slots[..]) && m == table.Contents() && seed !in m
    requires RingLoads(m, L) && AssignedTo(m, a) && forall k :: k in a ==> a[k] < nbCores
    ensures returned <==> table.size < HASHMAP_SIZE
    ensures |cores| == nbCores && fresh(cores) && fresh(Arrays(cores))
    ensures returned ==>
      var cs := Group(SlotKeys(table.slots[..], 0, table.size), a, nbCores);
      && Apart(cores, m) && AllHold(cores, m, cs) && AllMeasured(cores, L, cs)
  {
    hide Group, SlotKeys, HoleFree, Apart, AllHold, AllMeasured;
    cores, returned := BuildLists(table, nbCores, seed, m, a);
    if returned {
      MeasureAll(cores, m, L, Group(SlotKeys(table.slots[..], 0, table.size), a, nbCores));
    }
  }

  lemma EmptyGroup(s: seq<RingSlot>, a: Assignment, nbCores: nat)
    ensures Group(SlotKeys(s, 0, 0), a, nbCores) == seq(nbCores, _ => [])
  {
  }

  /** Visiting one more slot appends its key to the list of its core. */
  lemma GroupNext(s: seq<RingSlot>, m: RingMap, a: Assignment, nbCores: nat, n: nat)
    requires SlotsOk(s) && HoleFree(s) && n < Size(s) <= |s| && m == RingsOf(s)
    requires a.Keys == m.Keys && forall k :: k in a ==> a[k] < nbCores
    ensures
      var key, cs := s[n].key, Group(SlotKeys(s, 0, n), a, nbCores);
      && key in m && m[key] == s[n].value && |cs[a[key]]| <= n
      && Group(SlotKeys(s, 0, n + 1), a, nbCores) == cs[a[key] := cs[a[key]] + [key]]
  {
    var keys := SlotKeys(s, 0, n);
    IndexUnique(s, n);
    GroupAppend(keys, a, nbCores, s[n].key);
    assert SlotKeys(s, 0, n + 1) == keys + [s[n].key];
    OnCoreShort(keys, a, a[s[n].key]);
  }

  /** The list of a core never outgrows the part of the table already visited. */
  lemma {:induction false} OnCoreShort(keys: seq<FiveTuple>, a: Assignment, core: nat)
    ensures |OnCore(keys, a, core)| <= |keys|
  {
    if keys != [] {
      OnCoreShort(keys[..|keys| - 1], a, core);
    }
  }

  // ---- one turn of the balancing loop ----

  /** What the survey of the cores knows after the first `i` ones; the sum wraps around. */
  datatype Survey = Survey(sum: uint64, biggest: uint64, biggestIdx: nat, smallest: uint64, smallestIdx: nat)

  const NO_SURVEY := Survey(0, 0, 0, TWO_64 - 1, 0)

  ghost predicate Surveyed(xs: seq<uint64>, i: nat, s: Survey) {
    && i <= |xs| && s.sum == Total(xs[..i]) % TWO_64
    && (i == 0 ==> s == NO_SURVEY)
    && (i > 0 ==>
      s.biggestIdx == MaxIdx(xs[..i]) && s.biggest == xs[s.biggestIdx]
      && s.smallestIdx == MinIdx(xs[..i]) && s.smallest == xs[s.smallestIdx])
  }

  function Surveying(s: Survey, i: nat, load: uint64): Survey {
    Survey(Add64(s.sum, load),
      if load > s.biggest then load else s.biggest,
      if load > s.biggest then i else s.biggestIdx,
      if load < s.smallest then load else s.smallest,
      if load < s.smallest then i else s.smallestIdx)
  }

  lemma AddWraps(t: nat, x: uint64)
    ensures (t + x) % TWO_64 == Add64(t % TWO_64, x)
  {
  }

  lemma SurveyStep(xs: seq<uint64>, i: nat, s: Survey)
    requires i < |xs| && Surveyed(xs, i, s)
    ensures Surveyed(xs, i + 1, Surveying(s, i, xs[i]))
  {
    PartialTotal(xs, i);
    AddWraps(Total(xs[..i]), xs[i]);
    hide Add64, Total;
    assert xs[..i + 1][..i] == xs[..i];
  }

  lemma SurveyEnd(xs: seq<uint64>, s: Survey)
    requires xs != [] && Surveyed(xs, |xs|, s)
    ensures s.sum == Total(xs) % TWO_64
    ensures s.biggestIdx == MaxIdx(xs) && s.biggest == xs[MaxIdx(xs)]
    ensures s.smallestIdx == MinIdx(xs) && s.smallest == xs[MinIdx(xs)]
  {
    assert xs[..|xs|] == xs;
  }

  method SurveyCores(cores: seq<CoreLoad>, ghost xs: seq<uint64>)
    returns (sum: uint64, biggest: uint64, biggestIdx: nat, smallest: uint64, smallestIdx: nat)
    requires |xs| == |cores| && forall i :: 0 <= i < |cores| ==> cores[i].load == xs[i]
    ensures Surveyed(xs, |xs|, Survey(sum, biggest, biggestIdx, smallest, smallestIdx))
  {
    assert Surveyed(xs, 0, NO_SURVEY);
    hide Surveyed, Total;
    sum, biggest, biggestIdx, smallest, smallestIdx := 0, 0, 0, TWO_64 - 1, 0;
    for i := 0 to |cores|
      invariant Surveyed(xs, i, Survey(sum, biggest, biggestIdx, smallest, smallestIdx))
    {
      var load := cores[i].load;
      SurveyStep(xs, i, Survey(sum, biggest, biggestIdx, smallest, smallestIdx));
      sum := Add64(sum, load);
      if load > biggest {
        biggest, biggestIdx := load, i;
      }
      if load < smallest {
        smallest, smallestIdx := load, i;
      }
    }
  }

  /** The first maximum, the first minimum and the average of any loads, in 64 bits. */
  method MeasureImbalance(cores: seq<CoreLoad>, ghost xs: seq<uint64>)
    returns (average: uint64, biggest: uint64, biggestIdx: nat, smallest: uint64, smallestIdx: nat)
    requires cores != [] && |xs| == |cores| && forall i :: 0 <= i < |cores| ==> cores[i].load == xs[i]
    ensures average == MeanLoad(xs, Bits64)
    ensures biggestIdx == MaxIdx(xs) && biggest == xs[MaxIdx(xs)]
    ensures smallestIdx == MinIdx(xs) && smallest == xs[MinIdx(xs)]
  {
    hide Total, MaxIdx, MinIdx, Quotient, Surveyed;
    var sum;
    sum, biggest, biggestIdx, smallest, smallestIdx := SurveyCores(cores, xs);
    SurveyEnd(xs, Survey(sum, biggest, biggestIdx, smallest, smallestIdx));
    average := Quotient(sum, |cores|);
  }

  lemma MeasuredLoads(cores: seq<CoreLoad>, L: Loads, cs: Cores)
    requires AllMeasured(cores, L, cs)
    ensures
      var xs := CoreLoads(L, cs, Bits64);
      |xs| == |cores| && (forall i :: 0 <= i < |cores| ==> cores[i].load == xs[i])
      && forall i :: 0 <= i < |xs| ==> xs[i] < TWO_64
  {
  }

  // ---- the balancing loop ----

  class Migrations {
    var nbMigrations: nat
    const migrations: array<Migration>

    ghost predicate Valid()
      reads this
    {
      migrations.Length == MAX_REBALANCE_ITERATIONS && nbMigrations <= MAX_REBALANCE_ITERATIONS
    }

    ghost function Recorded(): seq<Migration>
      requires Valid()
      reads this, migrations
    {
      migrations[..nbMigrations]
    }

    /** How many more migrations fit. */
    ghost function Left(): nat
      requires Valid()
      reads this
    {
      MAX_REBALANCE_ITERATIONS - nbMigrations
    }

    constructor ()
      ensures Valid() && Recorded() == [] && Left() == MAX_REBALANCE_ITERATIONS && fresh(migrations)
    {
      nbMigrations := 0;
      migrations := new Migration[MAX_REBALANCE_ITERATIONS](_ => Migration(FiveTuple(0, 0, 0, 0, 0), 0));
    }

    method Record(migration: Migration)
      requires Valid() && nbMigrations < MAX_REBALANCE_ITERATIONS
      modifies this, migrations
      ensures Valid() && nbMigrations == old(nbMigrations) + 1
      ensures Recorded() == old(Recorded()) + [migration]
    {
      migrations[nbMigrations] := migration;
      nbMigrations := nbMigrations + 1;
    }
  }

  /** A list without repetition fits in the table that holds its flows. */
  lemma ListFits(flows: seq<FiveTuple>, keys: set<FiveTuple>)
    requires NoDup(flows) && forall k :: k in flows ==> k in keys
    ensures |flows| <= |keys|
  {
    var members := set k | k in flows;
    DistinctCount(flows);
    assert members <= keys;
    SubsetCount(members, keys);
  }

  lemma {:induction false} DistinctCount(flows: seq<FiveTuple>)
    requires NoDup(flows)
    ensures |set k | k in flows| == |flows|
  {
    if flows != [] {
      var init, last := flows[..|flows| - 1], flows[|flows| - 1];
      DistinctCount(init);
      assert flows == init + [last];
      assert last !in init;
      assert (set k | k in flows) == (set k | k in init) + {last};
    }
  }

  lemma SubsetCount<T>(a: set<T>, b: set<T>)
    requires a <= b
    ensures |a| <= |b|
  {
    assert b == a + (b - a);
  }

  /** The state between two turns of the loop: lists, cached fields, ring pointers and the
      current assignment all describe the same partition `cs` of the table. */
  ghost predicate Consistent(cores: seq<CoreLoad>, m: RingMap, L: Loads, cs: Cores, a: Assignment)
    reads cores, Arrays(cores), m.Values, Buffers(m)
  {
    && AllHold(cores, m, cs) && AllMeasured(cores, L, cs) && RingLoads(m, L)
    && AssignedTo(m, a) && Represents(cs, a)
  }

  /** A migration also brings the ring's own record of its core up to date. */
  method MigrateAssigned(cores: seq<CoreLoad>, b: nat, t: nat, ghost m: RingMap, ghost L: Loads, ghost cs: Cores,
                         ghost a: Assignment, ghost key: FiveTuple)
    returns (migration: Migration)
    requires Apart(cores, m) && AllHold(cores, m, cs) && AllMeasured(cores, L, cs) && RingLoads(m, L)
    requires b < |cores| <= 256 && t < |cores|
    requires ArgMax(L, cs[b]) < |cs[b]| && |cs[t]| < HASHMAP_SIZE
    requires cs[b][ArgMax(L, cs[b])] in m && key == cs[b][ArgMax(L, cs[b])]
    requires Separate(m) && AssignedTo(m, a)
    modifies cores, Arrays(cores), m.Values`assignedCore
    ensures
      var cs' := Shift(cs, b, ArgMax(L, cs[b]), t);
      AllHold(cores, m, cs') && AllMeasured(cores, L, cs') && RingLoads(m, L)
    ensures migration == Migration(key, t) && AssignedTo(m, a[key := t])
  {
    hide Apart, AllHold, AllMeasured, RingLoads, ArgMax, Shift;
    migration := MigrateBetween(cores, b, t, m, L, cs, m[key]);
    assert forall k :: k in m && k != key ==> m[k] != m[key];
    assert forall k :: k in m && k != key ==> m[k].assignedCore == old(m[k].assignedCore);
  }

  method MigrateOnce(cores: seq<CoreLoad>, b: nat, t: nat,
                     ghost m: RingMap, ghost L: Loads, ghost cs: Cores, ghost a: Assignment)
    returns (migration: Migration)
    requires cores != [] && |cores| <= 256 && Apart(cores, m) && Separate(m) && |m| < HASHMAP_SIZE
    requires Consistent(cores, m, L, cs, a) && Unbalanced(CoreLoads(L, cs, Bits64), Bits64)
    requires b == Donor(L, cs, Bits64) && t == Receiver(L, cs, Bits64)
    modifies cores, Arrays(cores), m.Values`assignedCore
    ensures migration == Migration(Picked(L, cs, Bits64), Receiver(L, cs, Bits64))
    ensures Consistent(cores, m, L, Move(L, cs, Bits64), a[migration.key := migration.core])
  {
    PickExists(L, cs, Bits64);
    MoveKeepsPartition(L, cs, a, Bits64);
    ListFits(cs[t], m.Keys);
    assert Move(L, cs, Bits64) == Shift(cs, b, ArgMax(L, cs[b]), t);
    ghost var key := Picked(L, cs, Bits64);
    assert key == cs[b][ArgMax(L, cs[b])] && |m| == |m.Keys| && |cs| == |cores|;
    hide Apart, AllHold, AllMeasured, RingLoads, ArgMax, Shift, AssignedTo, Represents, Move, Picked,
      Donor, Receiver, Unbalanced, CoreLoads;
    migration := MigrateAssigned(cores, b, t, m, L, cs, a, key);
  }

  ghost predicate Appended(before: seq<Migration>, added: seq<Migration>, after: seq<Migration>) {
    after == before + added
  }

  /** Where a run stands: `trace` is recorded so far, `before` of it when the run began, and
      the rest of the run starts from `cs` with `budget` migrations left. */
  ghost predicate Progress(L: Loads, cs0: Cores, a0: Assignment, budget0: nat, before: seq<Migration>,
                           cs: Cores, a: Assignment, trace: seq<Migration>, budget: nat)
    requires cs0 != [] && cs != []
  {
    && |before| <= |trace|
    && before + Run(L, cs0, budget0, Bits64).migrations == trace + Run(L, cs, budget, Bits64).migrations
    && a == Replay(a0, trace[|before|..])
  }

  lemma ProgressStart(L: Loads, cs: Cores, a: Assignment, budget: nat, before: seq<Migration>)
    requires cs != []
    ensures Progress(L, cs, a, budget, before, cs, a, before, budget)
  {
  }

  lemma ProgressStep(L: Loads, cs0: Cores, a0: Assignment, budget0: nat, before: seq<Migration>,
                     cs: Cores, a: Assignment, trace: seq<Migration>, budget: nat)
    requires cs0 != [] && cs != [] && Progress(L, cs0, a0, budget0, before, cs, a, trace, budget)
    requires budget > 0 && Unbalanced(CoreLoads(L, cs, Bits64), Bits64)
    ensures
      var m := Migration(Picked(L, cs, Bits64), Receiver(L, cs, Bits64));
      Progress(L, cs0, a0, budget0, before, Move(L, cs, Bits64), a[m.key := m.core], trace + [m], budget - 1)
  {
    hide Move, Picked, Receiver, Unbalanced, Total, CoreLoads, Replay;
    var m := Migration(Picked(L, cs, Bits64), Receiver(L, cs, Bits64));
    var rest := Run(L, Move(L, cs, Bits64), budget - 1, Bits64).migrations;
    assert trace + ([m] + rest) == (trace + [m]) + rest;
    assert (trace + [m])[|before|..] == trace[|before|..] + [m];
    ReplayAppend(a0, trace[|before|..], [m]);
    ReplayOne(a, m);
  }

  lemma ProgressEnd(L: Loads, cs0: Cores, a0: Assignment, budget0: nat, before: seq<Migration>,
                    cs: Cores, a: Assignment, trace: seq<Migration>, budget: nat)
    requires cs0 != [] && cs != [] && Progress(L, cs0, a0, budget0, before, cs, a, trace, budget)
    requires budget == 0 || !Unbalanced(CoreLoads(L, cs, Bits64), Bits64)
    ensures
      var run := Run(L, cs0, budget0, Bits64).migrations;
      trace == before + run && a == Replay(a0, run)
  {
    var run := Run(L, cs0, budget0, Bits64).migrations;
    assert trace + [] == trace;
    assert (before + run)[|before|..] == run;
  }

  lemma ReplayOne(a: Assignment, m: Migration)
    ensures Replay(a, [m]) == a[m.key := m.core]
  {
  }

  /** One turn of the loop: a migration if the thresholds are exceeded. */
  method Turn(cores: seq<CoreLoad>, ghost m: RingMap, ghost L: Loads, ghost cs: Cores, ghost a: Assignment)
    returns (moved: bool, migration: Migration)
    requires cores != [] && |cores| <= 256 && Apart(cores, m) && Separate(m) && |m| < HASHMAP_SIZE
    requires cs != [] && Consistent(cores, m, L, cs, a)
    modifies cores, Arrays(cores), m.Values`assignedCore
    ensures moved <==> Unbalanced(CoreLoads(L, cs, Bits64), Bits64)
    ensures !moved ==> Consistent(cores, m, L, cs, a)
    ensures moved ==>
      migration == Migration(Picked(L, cs, Bits64), Receiver(L, cs, Bits64))
      && Consistent(cores, m, L, Move(L, cs, Bits64), a[migration.key := migration.core])
  {
    hide Apart, CoreLoads, Move, Picked, Total, MaxIdx, MinIdx, Represents;
    ConsistentRings(cores, m, L, cs, a);
    MeasuredLoads(cores, L, cs);
    var average, biggest, biggestIdx, smallest, smallestIdx := MeasureImbalance(cores, CoreLoads(L, cs, Bits64));
    moved := Fires(biggest, smallest, average);
    if moved {
      migration := MigrateOnce(cores, biggestIdx, smallestIdx, m, L, cs, a);
    } else {
      migration := Migration(FiveTuple(0, 0, 0, 0, 0), 0);
    }
  }

  lemma ConsistentRings(cores: seq<CoreLoad>, m: RingMap, L: Loads, cs: Cores, a: Assignment)
    requires Consistent(cores, m, L, cs, a)
    ensures AssignedTo(m, a) && RingLoads(m, L) && AllMeasured(cores, L, cs)
  {
  }

  /** Recording a migration touches neither the cores nor the rings. */
  method RecordMigration(migrations: Migrations, migration: Migration, cores: seq<CoreLoad>,
                         ghost m: RingMap, ghost L: Loads, ghost cs: Cores, ghost a: Assignment)
    requires Consistent(cores, m, L, cs, a)
    requires migrations.Valid() && migrations.nbMigrations < MAX_REBALANCE_ITERATIONS
    requires migrations.migrations !in Arrays(cores) + Buffers(m)
    modifies migrations, migrations.migrations
    ensures migrations.Valid() && migrations.nbMigrations == old(migrations.nbMigrations) + 1
    ensures migrations.Recorded() == old(migrations.Recorded()) + [migration]
    ensures Consistent(cores, m, L, cs, a)
  {
    hide Represents;
    migrations.Record(migration);
  }

  /** A turn with its record: the loop body. Ghost results say where the run then stands. */
  method RecordedTurn(cores: seq<CoreLoad>, migrations: Migrations, ghost m: RingMap, ghost L: Loads,
                      ghost cs0: Cores, ghost a0: Assignment, ghost budget0: nat, ghost before: seq<Migration>,
                      ghost cs: Cores, ghost a: Assignment)
    returns (balanced: bool, ghost cs': Cores, ghost a': Assignment)
    requires cores != [] && |cores| <= 256 && Apart(cores, m) && Separate(m) && |m| < HASHMAP_SIZE
    requires cs0 != [] && cs != [] && Consistent(cores, m, L, cs, a)
    requires migrations.Valid() && migrations.nbMigrations < MAX_REBALANCE_ITERATIONS
    requires migrations.migrations !in Arrays(cores) + Buffers(m)
    requires Progress(L, cs0, a0, budget0, before, cs, a, migrations.Recorded(), migrations.Left())
    modifies cores, Arrays(cores), m.Values`assignedCore, migrations, migrations.migrations
    ensures migrations.Valid() && cs' != [] && Consistent(cores, m, L, cs', a')
    ensures Progress(L, cs0, a0, budget0, before, cs', a', migrations.Recorded(), migrations.Left())
    ensures balanced ==> migrations.Left() == old(migrations.Left()) && !Unbalanced(CoreLoads(L, cs', Bits64), Bits64)
    ensures !balanced ==> migrations.Left() == old(migrations.Left()) - 1
  {
    hide Apart, CoreLoads, Total, Move, Picked, Receiver, Consistent, Unbalanced, Separate, Migrations.Recorded,
      Progress;
    ghost var trace := migrations.Recorded();
    var moved, migration := Turn(cores, m, L, cs, a);
    balanced := !moved;
    cs', a' := cs, a;
    if moved {
      ProgressStep(L, cs0, a0, budget0, before, cs, a, trace, migrations.Left());
      cs', a' := Move(L, cs, Bits64), a[migration.key := migration.core];
      RecordMigration(migrations, migration, cores, m, L, cs', a');
    }
  }

  /** The balancing loop itself: exactly the migrations of the specified run, in order, and
      every ring ends on the core that replaying them gives. */
  method BalanceCores(cores: seq<CoreLoad>, migrations: Migrations,
                      ghost m: RingMap, ghost L: Loads, ghost cs0: Cores, ghost a0: Assignment)
    requires cores != [] && |cores| <= 256 && Apart(cores, m) && Separate(m) && |m| < HASHMAP_SIZE
    requires cs0 != [] && Consistent(cores, m, L, cs0, a0)
    requires migrations.Valid() && migrations.migrations !in Arrays(cores) + Buffers(m)
    modifies cores, Arrays(cores), m.Values`assignedCore, migrations, migrations.migrations
    ensures migrations.Valid()
    ensures
      var run := Run(L, cs0, old(migrations.Left()), Bits64).migrations;
      && Appended(old(migrations.Recorded()), run, migrations.Recorded())
      && AssignedTo(m, Replay(a0, run)) && RingLoads(m, L)
  {
    ghost var budget0, before := migrations.Left(), migrations.Recorded();
    ghost var cs, a: Assignment := cs0, a0;
    ProgressStart(L, cs0, a0, budget0, before);
    hide Apart, CoreLoads, Total, Run, Replay, Progress, Consistent, AssignedTo, RingLoads, Unbalanced, Separate,
      Migrations.Recorded;
    var balanced := false;
    while migrations.nbMigrations < MAX_REBALANCE_ITERATIONS && !balanced
      invariant migrations.Valid() && cs != [] && Consistent(cores, m, L, cs, a)
      invariant Progress(L, cs0, a0, budget0, before, cs, a, migrations.Recorded(), migrations.Left())
      invariant balanced ==> !Unbalanced(CoreLoads(L, cs, Bits64), Bits64)
      decreases migrations.Left(), !balanced
    {
      balanced, cs, a := RecordedTurn(cores, migrations, m, L, cs0, a0, budget0, before, cs, a);
    }
    ProgressEnd(L, cs0, a0, budget0, before, cs, a, migrations.Recorded(), migrations.Left());
    ConsistentRings(cores, m, L, cs, a);
  }

  /** The lists built from a table without holes partition it and carry all of its load. */
  lemma InitialLists(s: seq<RingSlot>, m: RingMap, L: Loads, a: Assignment, nbCores: nat)
    requires SlotsOk(s) && HoleFree(s) && m == RingsOf(s) && a.Keys == m.Keys && forall k :: k in a ==> a[k] < nbCores
    ensures |m| == Size(s) <= |s|
    ensures
      var keys := SlotKeys(s, 0, Size(s));
      var cs := Group(keys, a, nbCores);
      Represents(cs, a) && Total(CoreLoads(L, cs, Exact)) == SumOf(L, keys)
  {
    SizeIsCardinality(s);
    assert |m| == |m.Keys|;
    KeysInOrder(s);
    var keys := SlotKeys(s, 0, Size(s));
    hide SlotKeys, HoleFree, SlotsOk, RingsOf, Size, Keys;
    GroupRepresents(keys, a, nbCores);
    GroupTotal(L, keys, a, nbCores);
  }

  lemma KeysInOrder(s: seq<RingSlot>)
    requires Distinct(s) && HoleFree(s) && Size(s) <= |s|
    ensures var keys := SlotKeys(s, 0, Size(s)); NoDup(keys) && forall k :: k in keys <==> k in Keys(s)
  {
    var keys := SlotKeys(s, 0, Size(s));
    forall k
      ensures k in keys <==> k in Keys(s)
    {
      KeyFound(s, k);
      if k in Keys(s) { assert keys[IndexOf(s, k)] == k; }
      if k in keys { var i :| 0 <= i < |keys| && keys[i] == k; assert At(s, i, k); }
    }
  }

  /** The lists at the start of a run, as seen by the table. */
  lemma InitialTable(table: HashMap, m: RingMap, L: Loads, a: Assignment, nbCores: nat)
    requires table.Valid() && HoleFree(table.slots[..]) && m == table.Contents()
    requires a.Keys == m.Keys && forall k :: k in a ==> a[k] < nbCores
    ensures |m| == table.size <= HASHMAP_SIZE
    ensures
      var keys := SlotKeys(table.slots[..], 0, table.size);
      var cs := Group(keys, a, nbCores);
      Represents(cs, a) && Total(CoreLoads(L, cs, Exact)) == SumOf(L, keys)
  {
    InitialLists(table.slots[..], m, L, a, nbCores);
  }

  method Prepare(table: HashMap, nbCores: Byte, seed: FiveTuple,
                 ghost m: RingMap, ghost L: Loads, ghost a: Assignment, ghost cs: Cores)
    returns (cores: seq<CoreLoad>, returned: bool)
    requires table.Valid() && HoleFree(table.slots[..]) && m == table.Contents() && seed !in m
    requires RingLoads(m, L) && AssignedTo(m, a) && forall k :: k in a ==> a[k] < nbCores
    requires cs == Group(SlotKeys(table.slots[..], 0, table.size), a, nbCores)
    requires Represents(cs, a)
    ensures returned <==> table.size < HASHMAP_SIZE
    ensures |cores| == nbCores && fresh(cores) && fresh(Arrays(cores))
    ensures RingLoads(m, L) && AssignedTo(m, a)
    ensures returned ==> Apart(cores, m) && Consistent(cores, m, L, cs, a)
  {
    hide Group, SlotKeys, HoleFree, Apart, AllHold, AllMeasured, Represents, SlotsOk, RingsOf;
    cores, returned := ComputeRepartition(table, nbCores, seed, m, L, a);
  }

  /** A whole balancing run over the flow table: the migrations recorded are those of the
      specified run over the table's own lists, and every ring is left on the core that
      replaying them over the initial assignment gives. The run is only defined when the table
      is not full; on a full table nothing is recorded or changed before the iteration leaves
      hashmap_get_next without a return value. */
  method Balance(table: HashMap, nbCores: Byte, migrations: Migrations, seed: FiveTuple,
                 ghost m: RingMap, ghost L: Loads, ghost a: Assignment, ghost cs: Cores)
    returns (returned: bool)
    requires table.Valid() && HoleFree(table.slots[..]) && m == table.Contents() && Separate(m) && seed !in m
    requires RingLoads(m, L) && AssignedTo(m, a) && a.Keys == m.Keys && forall k :: k in a ==> a[k] < nbCores
    requires cs == Group(SlotKeys(table.slots[..], 0, table.size), a, nbCores)
    requires migrations.Valid() && migrations.migrations !in Buffers(m)
    modifies m.Values`assignedCore, migrations, migrations.migrations
    ensures returned <==> old(table.size) < HASHMAP_SIZE
    ensures migrations.Valid() && RingLoads(m, L)
    ensures !returned ==> migrations.Recorded() == old(migrations.Recorded()) && AssignedTo(m, a)
    ensures returned ==>
      var run := Run(L, cs, old(migrations.Left()), Bits64).migrations;
      Appended(old(migrations.Recorded()), run, migrations.Recorded()) && AssignedTo(m, Replay(a, run))
  {
    InitialTable(table, m, L, a, nbCores);
    hide Group, SlotKeys, HoleFree, Apart, Represents, Run, Replay, Total, SumOf, CoreLoads,
      SlotsOk, RingsOf, Size, Separate, Migrations.Recorded, Appended, Consistent, RingLoads, AssignedTo;
    var cores;
    cores, returned := Prepare(table, nbCores, seed, m, L, a, cs);
    if returned {
      BalanceCores(cores, migrations, m, L, cs, a);
    }
  }
}
