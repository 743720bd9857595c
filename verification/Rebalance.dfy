/** The greedy rebalancing of src/balancer.c on values: which flows sit on which core, in
    which order, and what a whole run of migrations does to them. */
module Rebalance {
  import opened Env

  /** The load of every flow of the table; it does not change during a run. */
  type Loads = map<FiveTuple, uint64>

  /** The flow list of every core, in array order. */
  type Cores = seq<seq<FiveTuple>>

  /** Which core each flow of the table is assigned to. */
  type Assignment = map<FiveTuple, nat>

  datatype Migration = Migration(key: FiveTuple, core: nat)

  ghost function Weight(L: Loads, key: FiveTuple): uint64 { if key in L then L[key] else 0 }

  // ---- one core ----

  ghost function SumOf(L: Loads, flows: seq<FiveTuple>): nat {
    if flows == [] then 0 else SumOf(L, flows[..|flows| - 1]) + Weight(L, flows[|flows| - 1])
  }

  /** `i` is the first flow of maximal load, or 0 on a core without load. */
  ghost predicate FirstMax(L: Loads, flows: seq<FiveTuple>, i: nat) {
    && (i < |flows| || i == |flows| == 0)
    && (forall j :: 0 <= j < |flows| ==> Weight(L, flows[j]) <= Weight(L, flows[i]))
    && (forall j :: 0 <= j < i ==> Weight(L, flows[j]) < Weight(L, flows[i]))
  }

  ghost function ArgMax(L: Loads, flows: seq<FiveTuple>): (i: nat)
    ensures i < |flows| || i == |flows| == 0
  {
    if |flows| <= 1 then 0
    else
      var n := |flows| - 1;
      var i := ArgMax(L, flows[..n]);
      if Weight(L, flows[n]) > Weight(L, flows[i]) then n else i
  }

  lemma {:induction false} ArgMaxIsFirstMax(L: Loads, flows: seq<FiveTuple>)
    ensures FirstMax(L, flows, ArgMax(L, flows))
  {
    if |flows| > 1 {
      var n := |flows| - 1;
      ArgMaxIsFirstMax(L, flows[..n]);
      assert forall j :: 0 <= j < n ==> flows[j] == flows[..n][j];
    }
  }

  lemma {:induction false} SumAtLeast(L: Loads, flows: seq<FiveTuple>, i: nat)
    requires i < |flows|
    ensures Weight(L, flows[i]) <= SumOf(L, flows)
  {
    if i < |flows| - 1 {
      SumAtLeast(L, flows[..|flows| - 1], i);
    }
  }

  lemma {:induction false} PositiveSum(L: Loads, flows: seq<FiveTuple>) returns (i: nat)
    requires SumOf(L, flows) > 0
    ensures i < |flows| && Weight(L, flows[i]) > 0
  {
    if Weight(L, flows[|flows| - 1]) > 0 {
      i := |flows| - 1;
    } else {
      i := PositiveSum(L, flows[..|flows| - 1]);
    }
  }

  /** Removal by moving the last element into the gap. */
  function SwapRemove<T>(s: seq<T>, i: nat): seq<T>
    requires i < |s|
  {
    s[i := s[|s| - 1]][..|s| - 1]
  }

  lemma {:induction false} SumUpdate(L: Loads, flows: seq<FiveTuple>, i: nat, key: FiveTuple)
    requires i < |flows|
    ensures SumOf(L, flows[i := key]) == SumOf(L, flows) - Weight(L, flows[i]) + Weight(L, key)
  {
    var n := |flows| - 1;
    if i < n {
      SumUpdate(L, flows[..n], i, key);
      assert flows[i := key][..n] == flows[..n][i := key];
    } else {
      assert flows[i := key][..n] == flows[..n];
    }
  }

  lemma SwapRemoveSum(L: Loads, flows: seq<FiveTuple>, i: nat)
    requires i < |flows|
    ensures SumOf(L, SwapRemove(flows, i)) == SumOf(L, flows) - Weight(L, flows[i])
  {
    SumUpdate(L, flows, i, flows[|flows| - 1]);
  }

  lemma SwapRemoveMembers(flows: seq<FiveTuple>, i: nat)
    requires i < |flows| && NoDup(flows)
    ensures NoDup(SwapRemove(flows, i))
    ensures forall k :: k in SwapRemove(flows, i) <==> k in flows && k != flows[i]
  {
    var s, n := SwapRemove(flows, i), |flows| - 1;
    forall k
      ensures k in s <==> k in flows && k != flows[i]
    {
      if k in flows && k != flows[i] {
        var j :| 0 <= j <= n && flows[j] == k;
        assert s[if j == n then i else j] == k;
      }
    }
  }

  // ---- all cores ----

  /** The program adds loads in 64 bits; the load theorems speak of exact sums. The two agree
      as long as the total load fits (RunsAgree). */
  datatype Width = Bits64 | Exact

  /** The load of a core in 64 bits, wrapping around. */
  ghost function Load64(L: Loads, keys: seq<FiveTuple>): uint64 {
    if keys == [] then 0 else Add64(Load64(L, keys[..|keys| - 1]), Weight(L, keys[|keys| - 1]))
  }

  lemma {:induction false} Load64IsSum(L: Loads, keys: seq<FiveTuple>)
    ensures Load64(L, keys) == SumOf(L, keys) % TWO_64
  {
    if keys != [] {
      Load64IsSum(L, keys[..|keys| - 1]);
    }
  }

  ghost function LoadOf(L: Loads, flows: seq<FiveTuple>, width: Width): nat {
    if width.Exact? then SumOf(L, flows) else Load64(L, flows)
  }

  ghost function CoreLoads(L: Loads, cs: Cores, width: Width): (xs: seq<nat>)
    ensures |xs| == |cs|
  {
    seq(|cs|, i requires 0 <= i < |cs| => LoadOf(L, cs[i], width))
  }

  ghost function Total(xs: seq<nat>): nat {
    if xs == [] then 0 else Total(xs[..|xs| - 1]) + xs[|xs| - 1]
  }

  /** The first core of maximal, and the first of minimal load. */
  ghost function MaxIdx(xs: seq<nat>): (i: nat)
    requires xs != []
    ensures i < |xs|
  {
    var n := |xs| - 1;
    if n == 0 then 0
    else
      var i := MaxIdx(xs[..n]);
      if xs[n] > xs[i] then n else i
  }

  ghost function MinIdx(xs: seq<nat>): (i: nat)
    requires xs != []
    ensures i < |xs|
  {
    var n := |xs| - 1;
    if n == 0 then 0
    else
      var i := MinIdx(xs[..n]);
      if xs[n] < xs[i] then n else i
  }

  lemma {:induction false} MaxIdxIsFirst(xs: seq<nat>)
    requires xs != []
    ensures forall j :: 0 <= j < |xs| ==> xs[j] <= xs[MaxIdx(xs)]
    ensures forall j :: 0 <= j < MaxIdx(xs) ==> xs[j] < xs[MaxIdx(xs)]
  {
    var n := |xs| - 1;
    if n > 0 {
      MaxIdxIsFirst(xs[..n]);
      assert forall j :: 0 <= j < n ==> xs[j] == xs[..n][j];
    }
  }

  lemma {:induction false} MinIdxIsFirst(xs: seq<nat>)
    requires xs != []
    ensures forall j :: 0 <= j < |xs| ==> xs[MinIdx(xs)] <= xs[j]
    ensures forall j :: 0 <= j < MinIdx(xs) ==> xs[MinIdx(xs)] < xs[j]
  {
    var n := |xs| - 1;
    if n > 0 {
      MinIdxIsFirst(xs[..n]);
      assert forall j :: 0 <= j < n ==> xs[j] == xs[..n][j];
    }
  }

  /** The threshold test, with exact fractions: the largest load exceeds 1.1 averages, or the
      smallest is below 0.9 averages and the average is not zero. */
  predicate Fires(big: nat, small: nat, average: nat) {
    10 * big > 11 * average || (10 * small < 9 * average && average > 0)
  }

  ghost function MeanLoad(xs: seq<nat>, width: Width): nat
    requires xs != []
  {
    Quotient(if width.Exact? then Total(xs) else Total(xs) % TWO_64, |xs|)
  }

  ghost predicate Unbalanced(xs: seq<nat>, width: Width)
    requires xs != []
  {
    Fires(xs[MaxIdx(xs)], xs[MinIdx(xs)], MeanLoad(xs, width))
  }

  lemma {:induction false} TotalBetween(xs: seq<nat>, lo: nat, hi: nat)
    requires forall i :: 0 <= i < |xs| ==> lo <= xs[i] <= hi
    ensures |xs| * lo <= Total(xs) <= |xs| * hi
  {
    if xs != [] {
      var n := |xs| - 1;
      assert forall i :: 0 <= i < n ==> xs[i] == xs[..n][i];
      TotalBetween(xs[..n], lo, hi);
      MulSuccessor(lo, n);
      MulSuccessor(hi, n);
    }
  }

  lemma QuotientBetween(a: nat, n: Positive, lo: nat, hi: nat)
    requires n * lo <= a <= n * hi
    ensures lo <= Quotient(a, n) <= hi
  {
    QuotientBounds(a, n);
    var q := Quotient(a, n);
    MulSuccessor(n, q);
    MulSuccessor(n, hi);
    if q < lo {
      MulMonotone(n, q + 1, lo);
    }
    if q > hi {
      MulMonotone(n, hi + 1, q);
    }
  }

  /** The average lies between the smallest and the largest load. */
  lemma AverageBetween(xs: seq<nat>)
    requires xs != []
    ensures xs[MinIdx(xs)] <= MeanLoad(xs, Exact) <= xs[MaxIdx(xs)]
  {
    MaxIdxIsFirst(xs);
    MinIdxIsFirst(xs);
    TotalBetween(xs, xs[MinIdx(xs)], xs[MaxIdx(xs)]);
    QuotientBetween(Total(xs), |xs|, xs[MinIdx(xs)], xs[MaxIdx(xs)]);
  }

  /** When the threshold test fires, the most loaded core is strictly more loaded than the
      least loaded one, so they are different cores. */
  lemma FiringCoresDiffer(xs: seq<nat>)
    requires xs != [] && Unbalanced(xs, Exact)
    ensures xs[MinIdx(xs)] < xs[MaxIdx(xs)] && MinIdx(xs) != MaxIdx(xs)
  {
    AverageBetween(xs);
  }

  lemma {:induction false} TotalUpdate(xs: seq<nat>, i: nat, x: nat)
    requires i < |xs|
    ensures Total(xs[i := x]) == Total(xs) - xs[i] + x
  {
    var n := |xs| - 1;
    if i < n {
      TotalUpdate(xs[..n], i, x);
      assert xs[i := x][..n] == xs[..n][i := x];
    } else {
      assert xs[i := x][..n] == xs[..n];
    }
  }

  // ---- the loads in 64 bits ----

  /** Whatever the width, the threshold test never fires on idle cores. */
  lemma FiringMeansLoad(xs: seq<nat>, width: Width)
    requires xs != [] && Unbalanced(xs, width)
    ensures xs[MaxIdx(xs)] > 0
  {
    if xs[MaxIdx(xs)] == 0 {
      MaxIdxIsFirst(xs);
      TotalBetween(xs, 0, 0);
    }
  }

  /** The program ever migrates a flow from a core to that same core if and only if all cores
      carry the same load and their sum does not fit in 64 bits. */
  lemma SelfMigrationIff(xs: seq<uint64>)
    requires xs != []
    ensures
      Unbalanced(xs, Bits64) && MaxIdx(xs) == MinIdx(xs)
      <==> (forall i, j :: 0 <= i < |xs| && 0 <= j < |xs| ==> xs[i] == xs[j]) && Total(xs) >= TWO_64
  {
    MaxIdxIsFirst(xs);
    MinIdxIsFirst(xs);
    if forall i, j :: 0 <= i < |xs| && 0 <= j < |xs| ==> xs[i] == xs[j] {
      var x := xs[0];
      assert xs[MaxIdx(xs)] == xs[0] && xs[MinIdx(xs)] == xs[0];
      TotalBetween(xs, x, x);
      EqualLoadsFire(|xs|, x, Total(xs));
    } else {
      var i, j :| 0 <= i < |xs| && 0 <= j < |xs| && xs[i] != xs[j];
      assert xs[MinIdx(xs)] < xs[MaxIdx(xs)];
    }
  }

  /** Two cores of load 2^63 are perfectly balanced, and yet a flow is "migrated". */
  lemma SelfMigrationHappens()
    ensures
      var xs: seq<uint64> := [TWO_64 / 2, TWO_64 / 2];
      Unbalanced(xs, Bits64) && MaxIdx(xs) == MinIdx(xs) && !Unbalanced(xs, Exact)
  {
    var xs: seq<uint64> := [TWO_64 / 2, TWO_64 / 2];
    assert xs[..1] == [TWO_64 / 2] && xs[..1][..0] == [];
    assert Total(xs[..1]) == TWO_64 / 2;
    SelfMigrationIff(xs);
    if Unbalanced(xs, Exact) {
      FiringCoresDiffer(xs);
    }
  }

  /** While the total fits in 64 bits, the program sees the exact loads and average. */
  lemma ExactLoads(L: Loads, cs: Cores)
    requires cs != [] && Total(CoreLoads(L, cs, Exact)) < TWO_64
    ensures CoreLoads(L, cs, Bits64) == CoreLoads(L, cs, Exact)
    ensures
      var xs := CoreLoads(L, cs, Exact);
      MeanLoad(xs, Bits64) == MeanLoad(xs, Exact) && (Unbalanced(xs, Bits64) <==> Unbalanced(xs, Exact))
  {
    hide Load64, SumOf, Total, MaxIdx, MinIdx, MeanLoad;
    var xs := CoreLoads(L, cs, Exact);
    ExactMean(xs);
    forall i | 0 <= i < |cs|
      ensures Load64(L, cs[i]) == xs[i]
    {
      PartialTotal(xs, i);
      PartialTotal(xs, i + 1);
      Load64IsSum(L, cs[i]);
      SmallRemainder(xs[i], TWO_64);
    }
  }

  lemma ExactMean(xs: seq<nat>)
    requires xs != [] && Total(xs) < TWO_64
    ensures MeanLoad(xs, Bits64) == MeanLoad(xs, Exact)
  {
    hide Total;
    SmallRemainder(Total(xs), TWO_64);
  }

  lemma {:induction false} PartialTotal(xs: seq<nat>, n: nat)
    requires n <= |xs|
    ensures Total(xs[..n]) <= Total(xs)
    ensures n < |xs| ==> Total(xs[..n + 1]) == Total(xs[..n]) + xs[n]
  {
    if n < |xs| {
      var init := xs[..|xs| - 1];
      PartialTotal(init, n);
      assert init[..n] == xs[..n];
      if n == |xs| - 1 {
        assert xs[..n + 1] == xs;
      } else {
        assert init[..n + 1] == xs[..n + 1];
      }
    } else {
      assert xs[..n] == xs;
    }
  }

  lemma EqualLoadsFire(n: Positive, x: nat, t: nat)
    requires t == n * x
    ensures Fires(x, x, Quotient(t % TWO_64, n)) <==> t >= TWO_64
  {
    var q := Quotient(t % TWO_64, n);
    if t < TWO_64 {
      QuotientBetween(t, n, x, x);
    } else if 10 * x <= 11 * q {
      QuotientBounds(t % TWO_64, n);
      ScaledProducts(n, x, q);
    }
  }

  lemma ScaledProducts(n: Positive, x: nat, q: nat)
    requires 10 * x <= 11 * q
    ensures 10 * (n * x) <= 11 * (n * q)
  {
    MulMonotone(n, 10 * x, 11 * q);
    assert n * (10 * x) == 10 * (n * x) && n * (11 * q) == 11 * (n * q);
  }

  // ---- one migration ----

  /** Donor, receiver and flow of the next migration. */
  ghost function Donor(L: Loads, cs: Cores, width: Width): (b: nat)
    requires cs != []
    ensures b < |cs|
  {
    MaxIdx(CoreLoads(L, cs, width))
  }

  ghost function Receiver(L: Loads, cs: Cores, width: Width): (t: nat)
    requires cs != []
    ensures t < |cs|
  {
    MinIdx(CoreLoads(L, cs, width))
  }

  /** Whatever the width, the flow picked exists and has a positive load. */
  lemma PickExists(L: Loads, cs: Cores, width: Width)
    requires cs != [] && Unbalanced(CoreLoads(L, cs, width), width)
    ensures
      var flows := cs[Donor(L, cs, width)];
      var i := ArgMax(L, flows);
      i < |flows| && 0 < Weight(L, flows[i]) <= SumOf(L, flows)
  {
    FiringMeansLoad(CoreLoads(L, cs, width), width);
    var flows := cs[Donor(L, cs, width)];
    Load64IsSum(L, flows);
    var j := PositiveSum(L, flows);
    ArgMaxIsFirstMax(L, flows);
    SumAtLeast(L, flows, ArgMax(L, flows));
  }

  /** While the total fits, every migration is well formed: donor and receiver differ, the donor
      carries strictly more, and the flow picked exists and has a positive load. */
  lemma MigrationWellFormed(L: Loads, cs: Cores)
    requires cs != [] && Unbalanced(CoreLoads(L, cs, Exact), Exact)
    ensures
      var b, t := Donor(L, cs, Exact), Receiver(L, cs, Exact);
      var i := ArgMax(L, cs[b]);
      b != t && SumOf(L, cs[t]) < SumOf(L, cs[b])
      && i < |cs[b]| && 0 < Weight(L, cs[b][i]) <= SumOf(L, cs[b])
  {
    FiringCoresDiffer(CoreLoads(L, cs, Exact));
    PickExists(L, cs, Exact);
  }

  ghost function Picked(L: Loads, cs: Cores, width: Width): FiveTuple
    requires cs != [] && Unbalanced(CoreLoads(L, cs, width), width)
  {
    PickExists(L, cs, width);
    var flows := cs[Donor(L, cs, width)];
    flows[ArgMax(L, flows)]
  }

  /** Flow `i` of core `b` leaves the gap to the last flow of `b` and goes to the end of `t`. */
  ghost function Shift(cs: Cores, b: nat, i: nat, t: nat): (cs': Cores)
    requires b < |cs| && t < |cs| && i < |cs[b]|
    ensures |cs'| == |cs|
  {
    var shrunk := cs[b := SwapRemove(cs[b], i)];
    shrunk[t := shrunk[t] + [cs[b][i]]]
  }

  ghost function Move(L: Loads, cs: Cores, width: Width): (cs': Cores)
    requires cs != [] && Unbalanced(CoreLoads(L, cs, width), width)
    ensures |cs'| == |cs|
  {
    PickExists(L, cs, width);
    var b := Donor(L, cs, width);
    Shift(cs, b, ArgMax(L, cs[b]), Receiver(L, cs, width))
  }

  lemma ShiftLoads(L: Loads, cs: Cores, b: nat, i: nat, t: nat)
    requires b < |cs| && t < |cs| && b != t && i < |cs[b]|
    ensures
      var xs, w := CoreLoads(L, cs, Exact), Weight(L, cs[b][i]);
      w <= xs[b] && CoreLoads(L, Shift(cs, b, i, t), Exact) == xs[b := xs[b] - w][t := xs[t] + w]
  {
    var shrunk, grown := SwapRemove(cs[b], i), cs[t] + [cs[b][i]];
    SumAtLeast(L, cs[b], i);
    SwapRemoveSum(L, cs[b], i);
    assert grown[..|grown| - 1] == cs[t];
    LoadsUpdate(L, cs, b, shrunk);
    LoadsUpdate(L, cs[b := shrunk], t, grown);
  }

  lemma TransferKeepsTotal(xs: seq<nat>, b: nat, t: nat, w: nat)
    requires b < |xs| && t < |xs| && b != t && w <= xs[b]
    ensures Total(xs[b := xs[b] - w][t := xs[t] + w]) == Total(xs)
  {
    TotalUpdate(xs, b, xs[b] - w);
    TotalUpdate(xs[b := xs[b] - w], t, xs[t] + w);
  }

  /** A migration moves the load of the picked flow and nothing else. */
  lemma MoveLoads(L: Loads, cs: Cores)
    requires cs != [] && Unbalanced(CoreLoads(L, cs, Exact), Exact)
    ensures
      var xs, w := CoreLoads(L, cs, Exact), Weight(L, Picked(L, cs, Exact));
      var b, t := Donor(L, cs, Exact), Receiver(L, cs, Exact);
      b != t && xs[t] < xs[b] && 0 < w <= xs[b]
      && (forall c :: 0 <= c < |xs| ==> xs[t] <= xs[c] <= xs[b])
      && CoreLoads(L, Move(L, cs, Exact), Exact) == xs[b := xs[b] - w][t := xs[t] + w]
      && Total(CoreLoads(L, Move(L, cs, Exact), Exact)) == Total(xs)
  {
    hide SumOf, ArgMax, Shift, SwapRemove, Total, CoreLoads, Unbalanced, MaxIdx, MinIdx;
    MigrationWellFormed(L, cs);
    var xs, w := CoreLoads(L, cs, Exact), Weight(L, Picked(L, cs, Exact));
    var b, t := Donor(L, cs, Exact), Receiver(L, cs, Exact);
    LoadsAreSums(L, cs);
    MaxIdxIsFirst(xs);
    MinIdxIsFirst(xs);
    ShiftLoads(L, cs, b, ArgMax(L, cs[b]), t);
    TransferKeepsTotal(xs, b, t, w);
  }

  lemma LoadsAreSums(L: Loads, cs: Cores)
    ensures forall c :: 0 <= c < |cs| ==> CoreLoads(L, cs, Exact)[c] == SumOf(L, cs[c])
  {
  }

  lemma LoadsUpdate(L: Loads, cs: Cores, i: nat, flows: seq<FiveTuple>)
    requires i < |cs|
    ensures CoreLoads(L, cs[i := flows], Exact) == CoreLoads(L, cs, Exact)[i := SumOf(L, flows)]
  {
  }

  // ---- the partition of the table over the cores ----

  /** Every flow of the table is on exactly one list, once, namely the list of the core it
      is assigned to. */
  ghost predicate Represents(cs: Cores, a: Assignment) {
    && (forall i :: 0 <= i < |cs| ==> NoDup(cs[i]))
    && (forall k :: k in a ==> a[k] < |cs| && k in cs[a[k]])
    && (forall i, k :: 0 <= i < |cs| && k in cs[i] ==> k in a && a[k] == i)
  }

  lemma ShiftKeepsPartition(cs: Cores, a: Assignment, b: nat, i: nat, t: nat)
    requires b < |cs| && t < |cs| && i < |cs[b]| && Represents(cs, a)
    ensures cs[b][i] in a && a[cs[b][i]] == b
    ensures Represents(Shift(cs, b, i, t), a[cs[b][i] := t])
  {
    var key := cs[b][i];
    assert key in cs[b];
    assert a[key] == b;
    assert b != t ==> key !in cs[t];
    SwapRemoveMembers(cs[b], i);
  }

  lemma MoveKeepsPartition(L: Loads, cs: Cores, a: Assignment, width: Width)
    requires cs != [] && Unbalanced(CoreLoads(L, cs, width), width) && Represents(cs, a)
    ensures Picked(L, cs, width) in a && a[Picked(L, cs, width)] == Donor(L, cs, width)
    ensures Represents(Move(L, cs, width), a[Picked(L, cs, width) := Receiver(L, cs, width)])
  {
    PickExists(L, cs, width);
    var b := Donor(L, cs, width);
    ShiftKeepsPartition(cs, a, b, ArgMax(L, cs[b]), Receiver(L, cs, width));
  }

  /** The lists `balancer_compute_repartition` starts from: the flows in table order, each
      appended to the list of its core. */
  ghost function OnCore(keys: seq<FiveTuple>, a: Assignment, core: nat): seq<FiveTuple> {
    if keys == [] then []
    else
      var k := keys[|keys| - 1];
      OnCore(keys[..|keys| - 1], a, core) + if k in a && a[k] == core then [k] else []
  }

  ghost function Group(keys: seq<FiveTuple>, a: Assignment, n: nat): (cs: Cores)
    ensures |cs| == n
  {
    seq(n, i requires 0 <= i < n => OnCore(keys, a, i))
  }

  lemma {:induction false} OnCoreMembers(keys: seq<FiveTuple>, a: Assignment, core: nat)
    requires NoDup(keys)
    ensures NoDup(OnCore(keys, a, core))
    ensures forall k :: k in OnCore(keys, a, core) <==> k in keys && k in a && a[k] == core
    ensures |OnCore(keys, a, core)| <= |keys|
  {
    if keys != [] {
      var init, last := keys[..|keys| - 1], keys[|keys| - 1];
      OnCoreMembers(init, a, core);
      assert keys == init + [last];
      assert last !in init;
    }
  }

  /** One more flow, in table order, grows exactly the list of its core. */
  lemma GroupAppend(keys: seq<FiveTuple>, a: Assignment, n: nat, key: FiveTuple)
    requires key in a && a[key] < n
    ensures Group(keys + [key], a, n) == Group(keys, a, n)[a[key] := Group(keys, a, n)[a[key]] + [key]]
  {
    assert (keys + [key])[..|keys|] == keys;
    forall i | 0 <= i < n
      ensures OnCore(keys + [key], a, i) == if a[key] == i then OnCore(keys, a, i) + [key] else OnCore(keys, a, i)
    {
      assert OnCore(keys, a, i) + [] == OnCore(keys, a, i);
    }
  }

  /** Grouping neither creates nor loses load. */
  lemma {:induction false} GroupTotal(L: Loads, keys: seq<FiveTuple>, a: Assignment, n: nat)
    requires forall k :: k in keys ==> k in a && a[k] < n
    ensures Total(CoreLoads(L, Group(keys, a, n), Exact)) == SumOf(L, keys)
  {
    if keys == [] {
      TotalBetween(CoreLoads(L, Group(keys, a, n), Exact), 0, 0);
    } else {
      var init, key := keys[..|keys| - 1], keys[|keys| - 1];
      assert forall k :: k in init ==> k in keys;
      GroupTotal(L, init, a, n);
      GroupAppend(init, a, n, key);
      assert init + [key] == keys;
      var cs := Group(init, a, n);
      var grown := cs[a[key]] + [key];
      assert grown[..|grown| - 1] == cs[a[key]];
      LoadsUpdate(L, cs, a[key], grown);
      TotalUpdate(CoreLoads(L, cs, Exact), a[key], SumOf(L, grown));
    }
  }

  lemma GroupRepresents(keys: seq<FiveTuple>, a: Assignment, n: nat)
    requires NoDup(keys) && (forall k :: k in keys <==> k in a) && forall k :: k in a ==> a[k] < n
    ensures Represents(Group(keys, a, n), a)
  {
    forall i | 0 <= i < n
      ensures NoDup(Group(keys, a, n)[i]) && forall k :: k in Group(keys, a, n)[i] <==> k in a && a[k] == i
    {
      OnCoreMembers(keys, a, i);
    }
  }

  /** Lists of the same flows carry the same load, whatever their order. */
  lemma {:induction false} SameMembersSum(L: Loads, xs: seq<FiveTuple>, ys: seq<FiveTuple>)
    requires NoDup(xs) && NoDup(ys) && forall k :: k in xs <==> k in ys
    ensures SumOf(L, xs) == SumOf(L, ys)
  {
    hide SwapRemove;
    assert ys != [] ==> ys[0] in xs;
    if xs != [] {
      var init, k := xs[..|xs| - 1], xs[|xs| - 1];
      assert k in xs;
      var j :| 0 <= j < |ys| && ys[j] == k;
      SwapRemoveSum(L, ys, j);
      SwapRemoveMembers(ys, j);
      assert forall k' :: k' in init ==> k' in xs && k' != k;
      SameMembersSum(L, init, SwapRemove(ys, j));
    }
  }

  /** So the load of a core depends on the assignment alone. */
  lemma SameAssignmentSum(L: Loads, cs: Cores, cs': Cores, a: Assignment, core: nat)
    requires Represents(cs, a) && Represents(cs', a) && core < |cs| == |cs'|
    ensures SumOf(L, cs[core]) == SumOf(L, cs'[core])
  {
    hide SumOf;
    forall k
      ensures k in cs[core] <==> k in cs'[core]
    {
      assert k in cs[core] <==> k in a && a[k] == core;
      assert k in cs'[core] <==> k in a && a[k] == core;
    }
    SameMembersSum(L, cs[core], cs'[core]);
  }

  // ---- whole runs ----

  datatype Outcome = Outcome(cores: Cores, migrations: seq<Migration>)

  /** At most `budget` migrations, stopping early once the threshold test no longer fires. */
  ghost function Run(L: Loads, cs: Cores, budget: nat, width: Width): (r: Outcome)
    requires cs != []
    ensures |r.cores| == |cs|
    decreases budget
  {
    if budget == 0 || !Unbalanced(CoreLoads(L, cs, width), width) then Outcome(cs, [])
    else
      var rest := Run(L, Move(L, cs, width), budget - 1, width);
      Outcome(rest.cores, [Migration(Picked(L, cs, width), Receiver(L, cs, width))] + rest.migrations)
  }

  /** Applying recorded migrations to an assignment, in order. */
  function Replay(a: Assignment, migrations: seq<Migration>): Assignment
    decreases |migrations|
  {
    if migrations == [] then a else Replay(a[migrations[0].key := migrations[0].core], migrations[1..])
  }

  /** The partition survives a whole run, and replaying the recorded migrations over the
      initial assignment gives exactly the final one, for flows moved any number of times. */
  lemma {:induction false} RunReplays(L: Loads, cs: Cores, a: Assignment, budget: nat, width: Width)
    requires cs != [] && Represents(cs, a)
    ensures Represents(Run(L, cs, budget, width).cores, Replay(a, Run(L, cs, budget, width).migrations))
    decreases budget
  {
    hide Move, Picked, Donor, Receiver, CoreLoads, Unbalanced, Represents;
    if budget > 0 && Unbalanced(CoreLoads(L, cs, width), width) {
      var m := Migration(Picked(L, cs, width), Receiver(L, cs, width));
      MoveKeepsPartition(L, cs, a, width);
      RunReplays(L, Move(L, cs, width), a[m.key := m.core], budget - 1, width);
      ReplayFirst(a, m, Run(L, Move(L, cs, width), budget - 1, width).migrations);
    }
  }

  /** Migrations of known flows to existing cores. */
  ghost predicate Addressed(migrations: seq<Migration>, keys: set<FiveTuple>, n: nat) {
    forall i :: 0 <= i < |migrations| ==> migrations[i].key in keys && migrations[i].core < n
  }

  /** A run records at most `budget` migrations, each of a flow of the table to a core. */
  lemma {:induction false} RunIsAddressed(L: Loads, cs: Cores, a: Assignment, keys: set<FiveTuple>, budget: nat,
                                          width: Width)
    requires cs != [] && Represents(cs, a) && a.Keys == keys
    ensures Addressed(Run(L, cs, budget, width).migrations, keys, |cs|)
    ensures |Run(L, cs, budget, width).migrations| <= budget
    decreases budget
  {
    hide Move, Picked, Donor, Receiver, CoreLoads, Unbalanced, Represents;
    if budget > 0 && Unbalanced(CoreLoads(L, cs, width), width) {
      MoveKeepsPartition(L, cs, a, width);
      var m := Migration(Picked(L, cs, width), Receiver(L, cs, width));
      KeysKept(a, m);
      RunIsAddressed(L, Move(L, cs, width), a[m.key := m.core], keys, budget - 1, width);
      AddressedFirst(m, Run(L, Move(L, cs, width), budget - 1, width).migrations, keys, |cs|);
    }
  }

  lemma KeysKept(a: Assignment, m: Migration)
    requires m.key in a
    ensures a[m.key := m.core].Keys == a.Keys
  {
  }

  lemma AddressedFirst(m: Migration, rest: seq<Migration>, keys: set<FiveTuple>, n: nat)
    requires m.key in keys && m.core < n && Addressed(rest, keys, n)
    ensures Addressed([m] + rest, keys, n)
  {
  }

  lemma {:induction false} ReplayKeepsKeys(a: Assignment, migrations: seq<Migration>, n: nat)
    requires Addressed(migrations, a.Keys, n) && forall k :: k in a ==> a[k] < n
    ensures Replay(a, migrations).Keys == a.Keys
    ensures forall k :: k in a ==> Replay(a, migrations)[k] < n
    decreases |migrations|
  {
    if migrations != [] {
      var a' := a[migrations[0].key := migrations[0].core];
      assert a'.Keys == a.Keys;
      ReplayKeepsKeys(a', migrations[1..], n);
    }
  }

  lemma ReplayFirst(a: Assignment, m: Migration, rest: seq<Migration>)
    ensures Replay(a, [m] + rest) == Replay(a[m.key := m.core], rest)
  {
    assert ([m] + rest)[1..] == rest;
  }

  ghost function LastMove(migrations: seq<Migration>, key: FiveTuple): int {
    if migrations == [] then -1
    else if migrations[|migrations| - 1].key == key then |migrations| - 1
    else LastMove(migrations[..|migrations| - 1], key)
  }

  /** In a replay the last migration of a key wins. */
  lemma {:induction false} ReplayLastWins(a: Assignment, migrations: seq<Migration>, key: FiveTuple)
    requires key in a
    ensures key in Replay(a, migrations)
    ensures
      var i := LastMove(migrations, key);
      && -1 <= i < |migrations| && (i >= 0 ==> migrations[i].key == key)
      && Replay(a, migrations)[key] == if i < 0 then a[key] else migrations[i].core
    decreases |migrations|
  {
    if migrations != [] {
      var n := |migrations| - 1;
      assert migrations == migrations[..n] + [migrations[n]];
      ReplayAppend(a, migrations[..n], [migrations[n]]);
      ReplayLastWins(a, migrations[..n], key);
    }
  }

  lemma {:induction false} ReplayAppend(a: Assignment, m1: seq<Migration>, m2: seq<Migration>)
    ensures Replay(a, m1 + m2) == Replay(Replay(a, m1), m2)
    decreases |m1|
  {
    if m1 == [] {
      assert m1 + m2 == m2;
    } else {
      assert (m1 + m2)[1..] == m1[1..] + m2;
      ReplayAppend(a[m1[0].key := m1[0].core], m1[1..], m2);
    }
  }

  /** No run creates or loses load, so every iteration sees the same average. */
  lemma {:induction false} RunConservesLoad(L: Loads, cs: Cores, budget: nat)
    requires cs != []
    ensures Total(CoreLoads(L, Run(L, cs, budget, Exact).cores, Exact)) == Total(CoreLoads(L, cs, Exact))
    decreases budget
  {
    hide Move, Donor, Receiver, Unbalanced, Total;
    if budget > 0 && Unbalanced(CoreLoads(L, cs, Exact), Exact) {
      MoveLoads(L, cs);
      RunConservesLoad(L, Move(L, cs, Exact), budget - 1);
    }
  }

  /** While the total load fits in 64 bits, the program's run is the exact one. */
  lemma {:induction false} RunsAgree(L: Loads, cs: Cores, budget: nat)
    requires cs != [] && Total(CoreLoads(L, cs, Exact)) < TWO_64
    ensures Run(L, cs, budget, Bits64) == Run(L, cs, budget, Exact)
    decreases budget
  {
    hide Unbalanced, Total, MaxIdx, MinIdx, SumOf, Load64, MeanLoad, ArgMax, Shift;
    ExactLoads(L, cs);
    if budget > 0 && Unbalanced(CoreLoads(L, cs, Exact), Exact) {
      MoveLoads(L, cs);
      RunsAgree(L, Move(L, cs, Exact), budget - 1);
    }
  }

  /** However many migrations a run makes, no core ends above the larger of its initial load
      and the average plus the load of one flow. */
  lemma {:induction false} SchedulingBound(L: Loads, cs: Cores, budget: nat, w: nat, core: nat)
    requires cs != [] && core < |cs|
    requires forall k :: Weight(L, k) <= w
    ensures
      SumOf(L, Run(L, cs, budget, Exact).cores[core])
      <= Max(SumOf(L, cs[core]), MeanLoad(CoreLoads(L, cs, Exact), Exact) + w)
    decreases budget
  {
    hide Move, Donor, Picked, Unbalanced, Total, MaxIdx, MinIdx, SumOf;
    var xs := CoreLoads(L, cs, Exact);
    if budget > 0 && Unbalanced(xs, Exact) {
      MoveLoads(L, cs);
      AverageBetween(xs);
      var cs' := Move(L, cs, Exact);
      assert SumOf(L, cs'[core]) == CoreLoads(L, cs', Exact)[core];
      SchedulingBound(L, cs', budget - 1, w, core);
    }
  }

  ghost function Squares(xs: seq<nat>): nat {
    if xs == [] then 0 else Squares(xs[..|xs| - 1]) + xs[|xs| - 1] * xs[|xs| - 1]
  }

  lemma {:induction false} SquaresUpdate(xs: seq<nat>, i: nat, x: nat)
    requires i < |xs|
    ensures Squares(xs[i := x]) == Squares(xs) - xs[i] * xs[i] + x * x
  {
    var n := |xs| - 1;
    if i < n {
      SquaresUpdate(xs[..n], i, x);
      assert xs[i := x][..n] == xs[..n][i := x];
    } else {
      assert xs[i := x][..n] == xs[..n];
    }
  }

  lemma MoveAlgebra(big: int, small: int, w: int)
    ensures (big - w) * (big - w) + (small + w) * (small + w) - big * big - small * small
      == 2 * (w * (w - (big - small)))
  {
  }

  lemma PotentialArithmetic(before: int, after: int, big: int, small: int, w: int)
    requires 0 < w <= big
    requires after == before - big * big + (big - w) * (big - w) - small * small + (small + w) * (small + w)
    ensures after - before == 2 * (w * (w - (big - small)))
    ensures after < before <==> w < big - small
    ensures small == 0 ==> after <= before
  {
    MoveAlgebra(big, small, w);
    SignOfProduct(w, w - (big - small));
  }

  lemma SignOfProduct(w: int, d: int)
    requires w > 0
    ensures w * d < 0 <==> d < 0
    ensures w * d <= 0 <==> d <= 0
  {
  }

  /** A migration of a flow of load w changes the sum of squared loads by exactly
      2w(w - (big - small)); so it improves the balance if and only if the flow is lighter
      than the gap between the two cores, and never worsens it when the receiver is idle. */
  lemma MoveChangesPotential(L: Loads, cs: Cores)
    requires cs != [] && Unbalanced(CoreLoads(L, cs, Exact), Exact)
    ensures
      var xs, w := CoreLoads(L, cs, Exact), Weight(L, Picked(L, cs, Exact));
      var gap := xs[Donor(L, cs, Exact)] - xs[Receiver(L, cs, Exact)];
      var before, after := Squares(xs), Squares(CoreLoads(L, Move(L, cs, Exact), Exact));
      && after - before == 2 * (w * (w - gap))
      && (after < before <==> w < gap)
      && (xs[Receiver(L, cs, Exact)] == 0 ==> after <= before)
  {
    hide Move, Donor, Picked, Receiver, CoreLoads;
    MoveLoads(L, cs);
    var xs, w := CoreLoads(L, cs, Exact), Weight(L, Picked(L, cs, Exact));
    var b, t := Donor(L, cs, Exact), Receiver(L, cs, Exact);
    SquaresUpdate(xs, b, xs[b] - w);
    SquaresUpdate(xs[b := xs[b] - w], t, xs[t] + w);
    PotentialArithmetic(Squares(xs), Squares(CoreLoads(L, Move(L, cs, Exact), Exact)), xs[b], xs[t], w);
  }

  ghost predicate WithinThresholds(xs: seq<nat>, average: nat) {
    forall i :: 0 <= i < |xs| ==> 10 * xs[i] <= 11 * average && 10 * xs[i] >= 9 * average
  }

  lemma WithinIff(xs: seq<nat>)
    requires xs != []
    ensures Unbalanced(xs, Exact) <==> !WithinThresholds(xs, MeanLoad(xs, Exact))
  {
    hide Total, MaxIdx, MinIdx, MeanLoad;
    MaxIdxIsFirst(xs);
    MinIdxIsFirst(xs);
  }

  lemma HeavyFlowUnbalances(L: Loads, cs: Cores, a: Assignment, key: FiveTuple)
    requires cs != [] && Represents(cs, a)
    requires key in a && 10 * Weight(L, key) > 11 * MeanLoad(CoreLoads(L, cs, Exact), Exact)
    ensures Unbalanced(CoreLoads(L, cs, Exact), Exact)
  {
    hide SumOf, Total, MaxIdx, MinIdx, MeanLoad;
    var xs := CoreLoads(L, cs, Exact);
    assert key in cs[a[key]];
    var i :| 0 <= i < |cs[a[key]]| && cs[a[key]][i] == key;
    SumAtLeast(L, cs[a[key]], i);
    MaxIdxIsFirst(xs);
    assert xs[a[key]] <= xs[MaxIdx(xs)];
  }

  /** One flow heavier than 1.1 averages can never be balanced away: such a run spends its whole
      budget of migrations, and the thresholds are exceeded at its end as they were before. */
  lemma {:induction false} HeavyFlowExhaustsBudget(L: Loads, cs: Cores, a: Assignment, budget: nat, key: FiveTuple)
    requires cs != [] && Represents(cs, a)
    requires key in a && 10 * Weight(L, key) > 11 * MeanLoad(CoreLoads(L, cs, Exact), Exact)
    ensures |Run(L, cs, budget, Exact).migrations| == budget
    ensures Unbalanced(CoreLoads(L, Run(L, cs, budget, Exact).cores, Exact), Exact)
    decreases budget
  {
    hide Move, Picked, Donor, Receiver, Unbalanced, Total, Represents;
    HeavyFlowUnbalances(L, cs, a, key);
    if budget > 0 {
      MoveLoads(L, cs);
      MoveKeepsPartition(L, cs, a, Exact);
      var cs', a' := Move(L, cs, Exact), a[Picked(L, cs, Exact) := Receiver(L, cs, Exact)];
      HeavyFlowExhaustsBudget(L, cs', a', budget - 1, key);
    }
  }

  // ---- what a run does, in terms of sums and weights alone ----

  /** A number as the width has it. */
  ghost function Reduced(x: nat, width: Width): nat {
    if width.Exact? then x else x % TWO_64
  }

  /** The load of all flows of all lists. */
  ghost function TotalLoad(L: Loads, cs: Cores): nat {
    if cs == [] then 0 else TotalLoad(L, cs[..|cs| - 1]) + SumOf(L, cs[|cs| - 1])
  }

  lemma LoadIs(L: Loads, flows: seq<FiveTuple>, width: Width)
    ensures LoadOf(L, flows, width) == Reduced(SumOf(L, flows), width)
  {
    Load64IsSum(L, flows);
  }

  lemma SumOfRemainders(a: nat, b: nat)
    ensures (a % TWO_64 + b % TWO_64) % TWO_64 == (a + b) % TWO_64
  {
  }

  lemma {:induction false} TotalIs(L: Loads, cs: Cores, width: Width)
    ensures Reduced(Total(CoreLoads(L, cs, width)), width) == Reduced(TotalLoad(L, cs), width)
  {
    hide SumOf, Load64, LoadOf;
    if cs != [] {
      var n := |cs| - 1;
      TotalIs(L, cs[..n], width);
      assert CoreLoads(L, cs, width)[..n] == CoreLoads(L, cs[..n], width);
      LoadIs(L, cs[n], width);
      var t, u, x := Total(CoreLoads(L, cs[..n], width)), TotalLoad(L, cs[..n]), SumOf(L, cs[n]);
      if width.Bits64? {
        SumOfRemainders(t, x % TWO_64);
        SumOfRemainders(u, x);
        SmallRemainder(x % TWO_64, TWO_64);
      }
    }
  }

  /** The average is the total load divided by the number of cores. */
  lemma MeanIs(L: Loads, cs: Cores, width: Width)
    requires cs != []
    ensures MeanLoad(CoreLoads(L, cs, width), width) == Reduced(TotalLoad(L, cs), width) / |cs|
  {
    hide Total, TotalLoad, Quotient, CoreLoads;
    TotalIs(L, cs, width);
    QuotientIsDivision(Reduced(TotalLoad(L, cs), width), |cs|);
  }

  lemma UnbalancedIff(xs: seq<nat>, width: Width)
    requires xs != []
    ensures
      var average := MeanLoad(xs, width);
      Unbalanced(xs, width) <==>
      exists c :: 0 <= c < |xs| && (10 * xs[c] > 11 * average || (average > 0 && 10 * xs[c] < 9 * average))
  {
    hide Total, MeanLoad, MaxIdx, MinIdx;
    MaxIdxIsFirst(xs);
    MinIdxIsFirst(xs);
  }

  lemma LoadsAre(L: Loads, cs: Cores, width: Width)
    ensures forall c :: 0 <= c < |cs| ==> CoreLoads(L, cs, width)[c] == Reduced(SumOf(L, cs[c]), width)
  {
    hide SumOf, LoadOf;
    forall c | 0 <= c < |cs|
      ensures CoreLoads(L, cs, width)[c] == Reduced(SumOf(L, cs[c]), width)
    {
      LoadIs(L, cs[c], width);
    }
  }

  /** A run with a budget migrates something if and only if some core is more than 10 percent
      above the average or, unless the average is zero, more than 10 percent below it. */
  lemma RunStartsIff(L: Loads, cs: Cores, budget: nat, width: Width)
    requires cs != [] && budget > 0
    ensures
      var average := Reduced(TotalLoad(L, cs), width) / |cs|;
      Run(L, cs, budget, width).migrations != [] <==>
      exists c :: 0 <= c < |cs|
        && var load := Reduced(SumOf(L, cs[c]), width);
           10 * load > 11 * average || (average > 0 && 10 * load < 9 * average)
  {
    hide Unbalanced, MeanLoad, CoreLoads, Reduced, TotalLoad, SumOf, Move, Picked, Receiver;
    MeanIs(L, cs, width);
    LoadsAre(L, cs, width);
    UnbalancedIff(CoreLoads(L, cs, width), width);
  }

  /** The first migration of a run takes from the first most loaded core `d` the first heaviest
      flow, at `i`, closes the gap with the last flow of `d`, and appends the flow to the list of
      the first least loaded core. */
  lemma FirstMigrationIs(L: Loads, cs: Cores, budget: nat, width: Width) returns (d: nat, i: nat)
    requires cs != [] && Run(L, cs, budget, width).migrations != []
    ensures d < |cs| && i < |cs[d]|
    ensures forall c :: 0 <= c < |cs| ==> Reduced(SumOf(L, cs[c]), width) <= Reduced(SumOf(L, cs[d]), width)
    ensures forall c :: 0 <= c < d ==> Reduced(SumOf(L, cs[c]), width) < Reduced(SumOf(L, cs[d]), width)
    ensures 0 < Weight(L, cs[d][i])
    ensures forall j :: 0 <= j < |cs[d]| ==> Weight(L, cs[d][j]) <= Weight(L, cs[d][i])
    ensures forall j :: 0 <= j < i ==> Weight(L, cs[d][j]) < Weight(L, cs[d][i])
    ensures
      var m := Run(L, cs, budget, width).migrations[0];
      && m.key == cs[d][i] && m.core < |cs|
      && (forall c :: 0 <= c < |cs| ==> Reduced(SumOf(L, cs[m.core]), width) <= Reduced(SumOf(L, cs[c]), width))
      && (forall c :: 0 <= c < m.core ==> Reduced(SumOf(L, cs[m.core]), width) < Reduced(SumOf(L, cs[c]), width))
    ensures
      var m, cs' := Run(L, cs, budget, width).migrations[0], Run(L, cs, 1, width).cores;
      && |cs'| == |cs|
      && (forall c :: 0 <= c < |cs| && c != d && c != m.core ==> cs'[c] == cs[c])
      && |cs[d]| - 1 <= |cs'[d]|
      && (forall j :: 0 <= j < |cs[d]| - 1 ==> cs'[d][j] == if j == i then cs[d][|cs[d]| - 1] else cs[d][j])
      && (m.core != d ==> |cs'[d]| == |cs[d]| - 1 && cs'[m.core] == cs[m.core] + [m.key])
      && (m.core == d ==> |cs'[d]| == |cs[d]| && cs'[d][|cs[d]| - 1] == m.key)
  {
    hide Unbalanced, MeanLoad, CoreLoads, Reduced, SumOf, MaxIdx, MinIdx;
    d, i := Donor(L, cs, width), ArgMax(L, cs[Donor(L, cs, width)]);
    LoadsAre(L, cs, width);
    MaxIdxIsFirst(CoreLoads(L, cs, width));
    MinIdxIsFirst(CoreLoads(L, cs, width));
    PickExists(L, cs, width);
    ArgMaxIsFirstMax(L, cs[d]);
    assert Run(L, cs, 1, width).cores == Move(L, cs, width) by { OneMove(L, cs, width); }
  }

  lemma OneMove(L: Loads, cs: Cores, width: Width)
    requires cs != [] && Unbalanced(CoreLoads(L, cs, width), width)
    ensures Run(L, cs, 1, width).cores == Move(L, cs, width)
  {
    hide Unbalanced, CoreLoads, Move, Picked, Receiver;
    assert Run(L, Move(L, cs, width), 0, width).cores == Move(L, cs, width);
  }

  /** A run of `budget` is a run of any smaller budget, continued. */
  lemma {:induction false} RunSplits(L: Loads, cs: Cores, n: nat, budget: nat, width: Width)
    requires cs != [] && n <= budget
    ensures
      var first := Run(L, cs, n, width);
      var rest := Run(L, first.cores, budget - n, width);
      Run(L, cs, budget, width) == Outcome(rest.cores, first.migrations + rest.migrations)
    decreases n
  {
    hide Unbalanced, CoreLoads, Move, Picked, Receiver;
    if n > 0 && Unbalanced(CoreLoads(L, cs, width), width) {
      RunSplits(L, Move(L, cs, width), n - 1, budget - 1, width);
    }
  }

  /** A run stops before its budget is used up only when no core is beyond the thresholds. */
  lemma {:induction false} RunStops(L: Loads, cs: Cores, budget: nat, width: Width)
    requires cs != []
    ensures
      var r := Run(L, cs, budget, width);
      |r.migrations| <= budget && (|r.migrations| < budget ==> !Unbalanced(CoreLoads(L, r.cores, width), width))
    decreases budget
  {
    hide Unbalanced, CoreLoads, Move, Picked, Receiver;
    if budget > 0 && Unbalanced(CoreLoads(L, cs, width), width) {
      RunStops(L, Move(L, cs, width), budget - 1, width);
    }
  }

  /** Migration `n` of a run is the first one of a run from the lists after `n` migrations. */
  lemma NthIsFirst(L: Loads, cs: Cores, budget: nat, width: Width, n: nat)
    requires cs != [] && n < |Run(L, cs, budget, width).migrations|
    ensures
      var now := Run(L, cs, n, width);
      && n < budget && now.migrations == Run(L, cs, budget, width).migrations[..n]
      && Run(L, now.cores, budget - n, width).migrations == Run(L, cs, budget, width).migrations[n..]
      && Run(L, cs, n + 1, width).cores == Run(L, now.cores, 1, width).cores
  {
    hide Run, Unbalanced;
    RunStops(L, cs, budget, width);
    RunStops(L, cs, n, width);
    RunSplits(L, cs, n, budget, width);
    RunSplits(L, cs, n, n + 1, width);
    var now := Run(L, cs, n, width);
    if |now.migrations| < n {
      StoppedRun(L, now.cores, budget - n, width);
    }
  }

  lemma StoppedRun(L: Loads, cs: Cores, budget: nat, width: Width)
    requires cs != [] && !Unbalanced(CoreLoads(L, cs, width), width)
    ensures Run(L, cs, budget, width).migrations == []
  {
  }

  /** Each migration of a run is the one FirstMigrationIs describes, for the lists as they are by
      then. */
  lemma EachMigrationIs(L: Loads, cs: Cores, budget: nat, width: Width, n: nat) returns (d: nat, i: nat)
    requires cs != [] && n < |Run(L, cs, budget, width).migrations|
    ensures
      var now, m := Run(L, cs, n, width).cores, Run(L, cs, budget, width).migrations[n];
      && d < |now| == |cs| && i < |now[d]| && m.key == now[d][i] && m.core < |now|
      && (forall c :: 0 <= c < |now| ==> Reduced(SumOf(L, now[c]), width) <= Reduced(SumOf(L, now[d]), width))
      && (forall c :: 0 <= c < d ==> Reduced(SumOf(L, now[c]), width) < Reduced(SumOf(L, now[d]), width))
      && (forall c :: 0 <= c < |now| ==> Reduced(SumOf(L, now[m.core]), width) <= Reduced(SumOf(L, now[c]), width))
      && (forall c :: 0 <= c < m.core ==> Reduced(SumOf(L, now[m.core]), width) < Reduced(SumOf(L, now[c]), width))
      && 0 < Weight(L, m.key)
      && (forall j :: 0 <= j < |now[d]| ==> Weight(L, now[d][j]) <= Weight(L, m.key))
      && (forall j :: 0 <= j < i ==> Weight(L, now[d][j]) < Weight(L, m.key))
    ensures
      var now, next, m :=
        Run(L, cs, n, width).cores, Run(L, cs, n + 1, width).cores, Run(L, cs, budget, width).migrations[n];
      && |next| == |now|
      && (forall c :: 0 <= c < |now| && c != d && c != m.core ==> next[c] == now[c])
      && |now[d]| - 1 <= |next[d]|
      && (forall j :: 0 <= j < |now[d]| - 1 ==> next[d][j] == if j == i then now[d][|now[d]| - 1] else now[d][j])
      && (m.core != d ==> |next[d]| == |now[d]| - 1 && next[m.core] == now[m.core] + [m.key])
      && (m.core == d ==> |next[d]| == |now[d]| && next[d][|now[d]| - 1] == m.key)
    ensures
      var now := Run(L, cs, n, width).cores;
      var average := Reduced(TotalLoad(L, now), width) / |now|;
      exists c :: 0 <= c < |now|
        && var load := Reduced(SumOf(L, now[c]), width);
           10 * load > 11 * average || (average > 0 && 10 * load < 9 * average)
  {
    hide Run, Reduced, SumOf, TotalLoad;
    NthIsFirst(L, cs, budget, width, n);
    var now := Run(L, cs, n, width).cores;
    RunStartsIff(L, now, budget - n, width);
    d, i := FirstMigrationIs(L, now, budget - n, width);
  }

  /** The lists of a core keep the order of the table. */
  lemma {:induction false} OnCoreInOrder(keys: seq<FiveTuple>, a: Assignment, core: nat, p: nat, q: nat)
    returns (i: nat, j: nat)
    requires p < q < |OnCore(keys, a, core)|
    ensures i < j < |keys| && OnCore(keys, a, core)[p] == keys[i] && OnCore(keys, a, core)[q] == keys[j]
  {
    var init := keys[..|keys| - 1];
    if q < |OnCore(init, a, core)| {
      i, j := OnCoreInOrder(init, a, core, p, q);
    } else {
      i := OnCoreIsListed(init, a, core, p);
      j := |keys| - 1;
    }
  }

  lemma {:induction false} OnCoreIsListed(keys: seq<FiveTuple>, a: Assignment, core: nat, p: nat) returns (i: nat)
    requires p < |OnCore(keys, a, core)|
    ensures i < |keys| && OnCore(keys, a, core)[p] == keys[i]
  {
    var init := keys[..|keys| - 1];
    if p < |OnCore(init, a, core)| {
      i := OnCoreIsListed(init, a, core, p);
    } else {
      i := |keys| - 1;
    }
  }

  /** A run goes on as long as some core is beyond the thresholds and its budget lasts, and no
      longer: it ends with its budget used up, or with no core above 1.1 averages and none below
      0.9 averages (so no load anywhere if the average is zero); and before each migration some
      core is beyond these bounds. */
  lemma RunEndsBalancedOrExhausted(L: Loads, cs: Cores, budget: nat)
    requires cs != []
    ensures
      var r, average := Run(L, cs, budget, Exact), TotalLoad(L, cs) / |cs|;
      && |r.migrations| <= budget
      && (|r.migrations| == budget || WithinThresholds(CoreLoads(L, r.cores, Exact), average))
      && forall n :: 0 <= n < |r.migrations| ==>
           !WithinThresholds(CoreLoads(L, Run(L, cs, n, Exact).cores, Exact), average)
  {
    hide Run, Unbalanced, CoreLoads, WithinThresholds, TotalLoad;
    var r := Run(L, cs, budget, Exact);
    MeanIs(L, cs, Exact);
    RunStops(L, cs, budget, Exact);
    RunKeepsMean(L, cs, budget);
    WithinIff(CoreLoads(L, r.cores, Exact));
    forall n | 0 <= n < |r.migrations|
      ensures !WithinThresholds(CoreLoads(L, Run(L, cs, n, Exact).cores, Exact), TotalLoad(L, cs) / |cs|)
    {
      var now := Run(L, cs, n, Exact).cores;
      NthIsFirst(L, cs, budget, Exact, n);
      RunKeepsMean(L, cs, n);
      WithinIff(CoreLoads(L, now, Exact));
      if !Unbalanced(CoreLoads(L, now, Exact), Exact) {
        StoppedRun(L, now, budget - n, Exact);
      }
    }
  }

  lemma RunKeepsMean(L: Loads, cs: Cores, budget: nat)
    requires cs != []
    ensures
      MeanLoad(CoreLoads(L, Run(L, cs, budget, Exact).cores, Exact), Exact) == MeanLoad(CoreLoads(L, cs, Exact), Exact)
  {
    hide Run, Total;
    RunConservesLoad(L, cs, budget);
  }
}
