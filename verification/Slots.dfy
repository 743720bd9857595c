/** The slot array of src/hashmap.c as a value, and the finite map it stands for. */
module Slots {
  import opened Env

  datatype Option<+T> = None | Some(value: T)

  /** struct key_value_pair. An invalid slot keeps whatever key and value it last had. */
  datatype Slot<V> = Slot(valid: bool, key: FiveTuple, value: V)

  ghost predicate At<V>(s: seq<Slot<V>>, i: int, key: FiveTuple) {
    0 <= i < |s| && s[i].valid && s[i].key == key
  }

  ghost predicate Distinct<V>(s: seq<Slot<V>>) {
    forall i, j :: 0 <= i < j < |s| && s[i].valid && s[j].valid ==> s[i].key != s[j].key
  }

  /** The first valid slot holding `key`, from `i` on, or -1. */
  ghost function Find<V>(s: seq<Slot<V>>, key: FiveTuple, i: nat): (r: int)
    requires i <= |s|
    ensures r == -1 || (i <= r && At(s, r, key))
    ensures r == -1 ==> forall j :: i <= j < |s| ==> !At(s, j, key)
    decreases |s| - i
  {
    if i == |s| then -1 else if At(s, i, key) then i else Find(s, key, i + 1)
  }

  ghost function IndexOf<V>(s: seq<Slot<V>>, key: FiveTuple): (r: int)
    ensures -1 <= r < |s|
    ensures r >= 0 ==> At(s, r, key)
    ensures r == -1 ==> forall j :: 0 <= j < |s| ==> !At(s, j, key)
  {
    Find(s, key, 0)
  }

  /** The first invalid slot from `i` on, or the length of the array. */
  ghost function FreeFrom<V>(s: seq<Slot<V>>, i: nat): (r: nat)
    requires i <= |s|
    ensures i <= r <= |s|
    ensures forall j :: i <= j < r ==> s[j].valid
    ensures r < |s| ==> !s[r].valid
    decreases |s| - i
  {
    if i == |s| || !s[i].valid then i else FreeFrom(s, i + 1)
  }

  /** The number of valid slots among the first `n`. */
  ghost function Count<V>(s: seq<Slot<V>>, n: nat): (c: nat)
    requires n <= |s|
    ensures c <= n
  {
    if n == 0 then 0 else Count(s, n - 1) + if s[n - 1].valid then 1 else 0
  }

  ghost function Size<V>(s: seq<Slot<V>>): nat { Count(s, |s|) }

  ghost function Keys<V>(s: seq<Slot<V>>): set<FiveTuple> {
    set i | 0 <= i < |s| && s[i].valid :: s[i].key
  }

  /** The abstract map. */
  ghost function Abs<V>(s: seq<Slot<V>>): map<FiveTuple, V> {
    map key | key in Keys(s) :: var i := IndexOf(s, key); assert KeyHasIndex(s, key) by { KeyFound(s, key); } s[i].value
  }

  ghost predicate KeyHasIndex<V>(s: seq<Slot<V>>, key: FiveTuple) { IndexOf(s, key) >= 0 }

  lemma KeyFound<V>(s: seq<Slot<V>>, key: FiveTuple)
    ensures key in Keys(s) <==> IndexOf(s, key) >= 0
  {
    if key in Keys(s) {
      var i :| 0 <= i < |s| && s[i].valid && s[i].key == key;
      assert At(s, i, key);
    }
  }

  lemma IndexUnique<V>(s: seq<Slot<V>>, i: nat)
    requires Distinct(s) && i < |s| && s[i].valid
    ensures IndexOf(s, s[i].key) == i
    ensures s[i].key in Abs(s) && Abs(s)[s[i].key] == s[i].value
  {
    assert At(s, i, s[i].key);
    KeyFound(s, s[i].key);
  }

  // ---- counting ----

  lemma {:induction false} CountSplit<V>(s: seq<Slot<V>>, i: nat, n: nat)
    requires i <= n <= |s|
    ensures Count(s, i) <= Count(s, n)
    ensures Count(s, i) == Count(s, n) ==> forall j :: i <= j < n ==> !s[j].valid
    ensures Count(s, n) - Count(s, i) == n - i ==> forall j :: i <= j < n ==> s[j].valid
    ensures Count(s, n) - Count(s, i) <= n - i
  {
    if i < n {
      CountSplit(s, i, n - 1);
    }
  }

  lemma {:induction false} CountUpdate<V>(s: seq<Slot<V>>, i: nat, slot: Slot<V>, n: nat)
    requires i < |s| && n <= |s|
    ensures Count(s[i := slot], n) ==
      if i < n then Count(s, n) + (if slot.valid then 1 else 0) - (if s[i].valid then 1 else 0) else Count(s, n)
  {
    if n > 0 {
      CountUpdate(s, i, slot, n - 1);
    }
  }

  /** `size` is the size of the abstract map. */
  lemma SizeIsCardinality<V>(s: seq<Slot<V>>)
    requires Distinct(s)
    ensures |Abs(s)| == |Keys(s)| == Size(s) <= |s|
  {
    KeysUpTo(s, |s|);
    assert Keys(s) == KeyPrefix(s, |s|);
    assert Abs(s).Keys == Keys(s);
  }

  ghost function KeyPrefix<V>(s: seq<Slot<V>>, n: nat): set<FiveTuple>
    requires n <= |s|
  {
    set i | 0 <= i < n && s[i].valid :: s[i].key
  }

  lemma {:induction false} KeysUpTo<V>(s: seq<Slot<V>>, n: nat)
    requires Distinct(s) && n <= |s|
    ensures |KeyPrefix(s, n)| == Count(s, n)
  {
    if n > 0 {
      KeysUpTo(s, n - 1);
      if s[n - 1].valid {
        assert KeyPrefix(s, n) == KeyPrefix(s, n - 1) + {s[n - 1].key};
      } else {
        assert KeyPrefix(s, n) == KeyPrefix(s, n - 1);
      }
    } else {
      assert KeyPrefix(s, 0) == {};
    }
  }

  // ---- the operations, on the slot array and on the abstract map ----

  datatype Op<V(==)> = Put(key: FiveTuple, value: V) | Remove(key: FiveTuple) | Cleanup(idle: set<V>)

  /** None is the exit(1) of a full table. */
  ghost function PutSlots<V>(s: seq<Slot<V>>, key: FiveTuple, value: V): Option<seq<Slot<V>>> {
    var i := IndexOf(s, key);
    var free := FreeFrom(s, 0);
    if i >= 0 then Some(s[i := Slot(true, key, value)])
    else if free < |s| then Some(s[free := Slot(true, key, value)])
    else None
  }

  ghost function RemoveSlots<V>(s: seq<Slot<V>>, key: FiveTuple): seq<Slot<V>> {
    var i := IndexOf(s, key);
    if i >= 0 then s[i := s[i].(valid := false)] else s
  }

  ghost function CleanSlots<V>(s: seq<Slot<V>>, idle: set<V>): seq<Slot<V>> {
    seq(|s|, i requires 0 <= i < |s| => if s[i].valid && s[i].value in idle then s[i].(valid := false) else s[i])
  }

  ghost function ApplySlots<V>(s: seq<Slot<V>>, op: Op<V>): Option<seq<Slot<V>>> {
    match op
    case Put(key, value) => PutSlots(s, key, value)
    case Remove(key) => Some(RemoveSlots(s, key))
    case Cleanup(idle) => Some(CleanSlots(s, idle))
  }

  ghost function ApplyMap<V>(m: map<FiveTuple, V>, op: Op<V>, capacity: nat): Option<map<FiveTuple, V>> {
    match op
    case Put(key, value) => if key in m || |m| < capacity then Some(m[key := value]) else None
    case Remove(key) => Some(m - {key})
    case Cleanup(idle) => Some(map key | key in m && m[key] !in idle :: m[key])
  }

  ghost function RunSlots<V>(s: seq<Slot<V>>, ops: seq<Op<V>>): Option<seq<Slot<V>>>
    decreases |ops|
  {
    if ops == [] then Some(s)
    else match ApplySlots(s, ops[0])
      case None => None
      case Some(s') => RunSlots(s', ops[1..])
  }

  ghost function RunMap<V>(m: map<FiveTuple, V>, ops: seq<Op<V>>, capacity: nat): Option<map<FiveTuple, V>>
    decreases |ops|
  {
    if ops == [] then Some(m)
    else match ApplyMap(m, ops[0], capacity)
      case None => None
      case Some(m') => RunMap(m', ops[1..], capacity)
  }

  lemma WriteRefines<V>(s: seq<Slot<V>>, i: nat, key: FiveTuple, value: V)
    requires Distinct(s) && i < |s|
    requires IndexOf(s, key) == i || (IndexOf(s, key) == -1 && !s[i].valid)
    ensures var s' := s[i := Slot(true, key, value)]; Distinct(s') && Abs(s') == Abs(s)[key := value]
  {
    var s' := s[i := Slot(true, key, value)];
    assert Distinct(s') by {
      forall a, b | 0 <= a < b < |s| && s'[a].valid && s'[b].valid
        ensures s'[a].key != s'[b].key
      {
        assert a != i && s[a].key == key ==> At(s, a, key);
        assert b != i && s[b].key == key ==> At(s, b, key);
        if IndexOf(s, key) == i { assert At(s, i, key); }
      }
    }
    forall k
      ensures k in Abs(s') <==> k in Abs(s)[key := value]
      ensures k in Abs(s') ==> Abs(s')[k] == Abs(s)[key := value][k]
    {
      KeyFound(s, k);
      KeyFound(s', k);
      if k == key {
        assert At(s', i, key);
        IndexUnique(s', i);
      } else {
        var j, j' := IndexOf(s, k), IndexOf(s', k);
        if j >= 0 { assert At(s', j, k); IndexUnique(s', j); }
        if j' >= 0 { assert At(s, j', k); }
      }
    }
  }

  lemma RemoveRefines<V>(s: seq<Slot<V>>, key: FiveTuple)
    requires Distinct(s)
    ensures |RemoveSlots(s, key)| == |s| && Distinct(RemoveSlots(s, key))
    ensures Abs(RemoveSlots(s, key)) == Abs(s) - {key}
  {
    var s' := RemoveSlots(s, key);
    forall k
      ensures k in Abs(s') <==> k in Abs(s) - {key}
      ensures k in Abs(s') ==> Abs(s')[k] == Abs(s)[k]
    {
      KeyFound(s, k);
      KeyFound(s', k);
      var j, j' := IndexOf(s, k), IndexOf(s', k);
      if j >= 0 && k != key { assert At(s', j, k); }
      if j' >= 0 { assert At(s, j', k); IndexUnique(s, j'); }
    }
  }

  lemma CleanRefines<V>(s: seq<Slot<V>>, idle: set<V>)
    requires Distinct(s)
    ensures |CleanSlots(s, idle)| == |s| && Distinct(CleanSlots(s, idle))
    ensures Abs(CleanSlots(s, idle)) == map key | key in Abs(s) && Abs(s)[key] !in idle :: Abs(s)[key]
  {
    var s' := CleanSlots(s, idle);
    forall k
      ensures k in Abs(s') <==> k in Abs(s) && Abs(s)[k] !in idle
      ensures k in Abs(s') ==> Abs(s')[k] == Abs(s)[k]
    {
      KeyFound(s, k);
      KeyFound(s', k);
      var j, j' := IndexOf(s, k), IndexOf(s', k);
      if j >= 0 && Abs(s)[k] !in idle { assert At(s', j, k); }
      if j' >= 0 { assert At(s, j', k); IndexUnique(s, j'); IndexUnique(s', j'); }
    }
  }

  lemma PutRefines<V>(s: seq<Slot<V>>, key: FiveTuple, value: V)
    requires Distinct(s)
    ensures PutSlots(s, key, value).None? <==> key !in Abs(s) && |Abs(s)| == |s|
    ensures PutSlots(s, key, value).Some? ==>
      var s' := PutSlots(s, key, value).value;
      Distinct(s') && |s'| == |s| && Abs(s') == Abs(s)[key := value]
      && Size(s') == Size(s) + if key in Abs(s) then 0 else 1
  {
    KeyFound(s, key);
    SizeIsCardinality(s);
    var i, free := IndexOf(s, key), FreeFrom(s, 0);
    CountSplit(s, 0, |s|);
    if i >= 0 {
      WriteRefines(s, i, key, value);
      CountUpdate(s, i, Slot(true, key, value), |s|);
    } else if free < |s| {
      WriteRefines(s, free, key, value);
      CountUpdate(s, free, Slot(true, key, value), |s|);
    } else {
      AllValid(s, |s|);
    }
  }

  lemma {:induction false} AllValid<V>(s: seq<Slot<V>>, n: nat)
    requires n <= |s| && forall i :: 0 <= i < n ==> s[i].valid
    ensures Count(s, n) == n
  {
    if n > 0 {
      AllValid(s, n - 1);
    }
  }

  /** Any sequence of operations, with or without holes left by removals, does to the slots
      what it does to the abstract map, and hits the capacity limit at the same operation. */
  lemma {:induction false} TableRefinesMap<V>(s: seq<Slot<V>>, ops: seq<Op<V>>)
    requires Distinct(s)
    ensures RunSlots(s, ops).None? <==> RunMap(Abs(s), ops, |s|).None?
    ensures RunSlots(s, ops).Some? ==>
      var s' := RunSlots(s, ops).value;
      Distinct(s') && |s'| == |s| && Abs(s') == RunMap(Abs(s), ops, |s|).value && Size(s') == |Abs(s')|
    decreases |ops|
  {
    hide Distinct, Abs, Size, PutSlots, RemoveSlots, CleanSlots;
    if ops == [] {
      SizeIsCardinality(s);
    } else {
      match ops[0]
      case Put(key, value) =>
        PutRefines(s, key, value);
        SizeIsCardinality(s);
        if PutSlots(s, key, value).Some? {
          TableRefinesMap(PutSlots(s, key, value).value, ops[1..]);
        }
      case Remove(key) =>
        RemoveRefines(s, key);
        TableRefinesMap(RemoveSlots(s, key), ops[1..]);
      case Cleanup(idle) =>
        CleanRefines(s, idle);
        TableRefinesMap(CleanSlots(s, idle), ops[1..]);
    }
  }

  // ---- holes ----

  /** The valid slots are exactly the first `size` ones. */
  ghost predicate HoleFree<V>(s: seq<Slot<V>>) {
    forall i :: 0 <= i < |s| ==> (s[i].valid <==> i < Size(s))
  }

  lemma {:induction false} CountOfPrefix<V>(s: seq<Slot<V>>, n: nat, m: nat)
    requires n <= |s| && m <= |s| && forall i :: 0 <= i < |s| ==> (s[i].valid <==> i < n)
    ensures Count(s, m) == Min(m, n)
  {
    if m > 0 {
      CountOfPrefix(s, n, m - 1);
    }
  }

  lemma FirstHoleIsSize<V>(s: seq<Slot<V>>)
    requires HoleFree(s)
    ensures FreeFrom(s, 0) == Size(s)
  {
    var free := FreeFrom(s, 0);
    if Size(s) < |s| {
      assert !s[Size(s)].valid;
    }
    if free < |s| {
      assert !s[free].valid;
    }
  }

  lemma PutKeepsHoleFree<V>(s: seq<Slot<V>>, key: FiveTuple, value: V)
    requires Distinct(s) && HoleFree(s) && PutSlots(s, key, value).Some?
    ensures HoleFree(PutSlots(s, key, value).value)
  {
    FirstHoleIsSize(s);
    var s' := PutSlots(s, key, value).value;
    if IndexOf(s, key) >= 0 {
      CountOfPrefix(s', Size(s), |s|);
    } else {
      CountOfPrefix(s', Size(s) + 1, |s|);
    }
  }

  // ---- iteration ----

  /** What hashmap_get_next does: the entry after `current`, a normal "no more" return, or
      leaving the function without a return value because `current` sits in the last slot. */
  datatype Advance<V> = Next(key: FiveTuple, value: V) | End | FellOff

  ghost function NextOf<V>(s: seq<Slot<V>>, current: FiveTuple): Advance<V> {
    var i := IndexOf(s, current) + 1;
    if i == |s| then FellOff else if s[i].valid then Next(s[i].key, s[i].value) else End
  }

  /** The key the iteration holds after meeting the first `n` entries. */
  ghost function Visited<V>(s: seq<Slot<V>>, seed: FiveTuple, n: nat): FiveTuple
    requires n <= |s|
  {
    if n == 0 then seed else s[n - 1].key
  }

  lemma VisitedNext<V>(s: seq<Slot<V>>, seed: FiveTuple, n: nat)
    requires n < |s|
    ensures Visited(s, seed, n + 1) == s[n].key
  {
  }

  /** In a table without holes, the call made after the first `n` entries have been met. */
  lemma AdvanceAt<V>(s: seq<Slot<V>>, seed: FiveTuple, n: nat)
    requires Distinct(s) && HoleFree(s) && n <= Size(s) <= |s| && seed !in Keys(s)
    ensures NextOf(s, Visited(s, seed, n)) ==
      if n < Size(s) then Next(s[n].key, s[n].value) else if n < |s| then End else FellOff
  {
    if n == 0 {
      KeyFound(s, seed);
    } else {
      IndexUnique(s, n - 1);
    }
  }

  datatype Visit = Visit(keys: seq<FiveTuple>, returned: bool)

  /** The keys met by calling hashmap_get_next over and over, and whether the last call returned. */
  ghost function Walk<V>(s: seq<Slot<V>>, seed: FiveTuple): Visit
    requires Distinct(s)
    decreases |s| - IndexOf(s, seed)
  {
    match NextOf(s, seed)
    case Next(key, _) =>
      IndexUnique(s, IndexOf(s, seed) + 1);
      var rest := Walk(s, key);
      Visit([key] + rest.keys, rest.returned)
    case End => Visit([], true)
    case FellOff => Visit([], false)
  }

  ghost function SlotKeys<V>(s: seq<Slot<V>>, from: nat, to: nat): seq<FiveTuple>
    requires from <= to <= |s|
  {
    seq(to - from, i requires 0 <= i < to - from => s[from + i].key)
  }

  /** A walk lists the keys of the slots after the seed's, up to the first hole. */
  lemma {:induction false} WalkStopsAtHole<V>(s: seq<Slot<V>>, seed: FiveTuple)
    requires Distinct(s)
    ensures
      var from := IndexOf(s, seed) + 1;
      var to := FreeFrom(s, from);
      Walk(s, seed) == Visit(SlotKeys(s, from, to), to < |s|)
    decreases |s| - IndexOf(s, seed)
  {
    hide Distinct, Abs, Keys;
    var from := IndexOf(s, seed) + 1;
    match NextOf(s, seed)
    case Next(key, _) =>
      IndexUnique(s, from);
      WalkStopsAtHole(s, key);
      var to := FreeFrom(s, from);
      assert SlotKeys(s, from, to) == [key] + SlotKeys(s, from + 1, to);
    case End =>
    case FellOff =>
  }

  ghost predicate Complete<V>(s: seq<Slot<V>>, visit: Visit) {
    visit.returned && NoDup(visit.keys) && forall k :: k in visit.keys <==> k in Keys(s)
  }

  /** Iterating from `seed` returns normally having met every entry exactly once if and only
      if the table has no hole, is not full, and does not store the seed. */
  lemma IterationCompleteIff<V>(s: seq<Slot<V>>, seed: FiveTuple)
    requires Distinct(s)
    ensures Complete(s, Walk(s, seed)) <==> HoleFree(s) && Size(s) < |s| && seed !in Keys(s)
    ensures Complete(s, Walk(s, seed)) ==> Walk(s, seed).keys == SlotKeys(s, 0, Size(s))
  {
    WalkStopsAtHole(s, seed);
    KeyFound(s, seed);
    var from := IndexOf(s, seed) + 1;
    var to := FreeFrom(s, from);
    if Complete(s, Walk(s, seed)) {
      CompleteWalkHasNoHole(s, from, to);
      CountOfPrefix(s, to, |s|);
    }
    if HoleFree(s) && Size(s) < |s| && seed !in Keys(s) {
      FirstHoleIsSize(s);
      var keys := SlotKeys(s, 0, to);
      forall k
        ensures k in keys <==> k in Keys(s)
      {
        KeyFound(s, k);
        if k in keys { var i :| 0 <= i < to && keys[i] == k; assert At(s, i, k); }
        if k in Keys(s) { assert keys[IndexOf(s, k)] == k; }
      }
    }
  }

  lemma CompleteWalkHasNoHole<V>(s: seq<Slot<V>>, from: nat, to: nat)
    requires Distinct(s) && from <= to <= |s| && to == FreeFrom(s, from)
    requires from > 0 ==> s[from - 1].valid
    requires forall k :: k in SlotKeys(s, from, to) <==> k in Keys(s)
    ensures from == 0
    ensures forall i :: 0 <= i < |s| ==> (s[i].valid <==> i < to)
  {
    forall i | 0 <= i < |s| && s[i].valid
      ensures from <= i < to
    {
      var keys := SlotKeys(s, from, to);
      assert s[i].key in Keys(s);
      var j :| 0 <= j < |keys| && keys[j] == s[i].key;
      assert s[from + j].valid && s[from + j].key == s[i].key;
    }
  }

  /** The pointers hashmap_destroy frees: those of the first `size` slots, valid or not. */
  ghost function Freed<V>(s: seq<Slot<V>>): seq<V> {
    seq(Size(s), i requires 0 <= i < Size(s) => s[i].value)
  }

  /** hashmap_destroy frees each stored value exactly once, and nothing else, if and only if
      the table has no hole. */
  lemma DestroyFreesOnceIff<V>(s: seq<Slot<V>>)
    requires forall i, j :: 0 <= i < |s| && 0 <= j < |s| && i != j && s[i].valid ==> s[i].value != s[j].value
    ensures
      NoDup(Freed(s)) && (forall v :: v in Freed(s) <==> exists i :: 0 <= i < |s| && s[i].valid && s[i].value == v)
      <==> HoleFree(s)
  {
    var freed := Freed(s);
    if forall v :: v in freed <==> exists i :: 0 <= i < |s| && s[i].valid && s[i].value == v {
      forall i | 0 <= i < |s|
        ensures s[i].valid <==> i < Size(s)
      {
        if s[i].valid {
          assert s[i].value in freed;
        }
        if i < Size(s) {
          assert freed[i] in freed;
        }
      }
    }
    if HoleFree(s) {
      forall i | 0 <= i < |s| && s[i].valid
        ensures s[i].value in freed
      {
        assert freed[i] == s[i].value;
      }
    }
  }
}
