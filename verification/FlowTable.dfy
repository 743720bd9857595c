/** The flow table of src/hashmap.c: an array of slots holding pointers to ring buffers. */
module FlowTable {
  import opened Env
  import opened Rings
  import opened Slots

  /** The rings of a table, by key. */
  type RingMap = map<FiveTuple, RingBuffer>

  /** No ring, and no counter array, is shared between two flows. */
  ghost predicate Separate(m: RingMap) {
    forall k1, k2 :: k1 in m && k2 in m && k1 != k2 ==> m[k1] != m[k2] && m[k1].buffer != m[k2].buffer
  }

  ghost predicate RingsValid(m: RingMap)
    reads m.Values
  {
    forall k :: k in m ==> m[k].Valid()
  }

  ghost function Buffers(m: RingMap): set<object> {
    set k | k in m :: m[k].buffer
  }

  /** The values of all rings. */
  ghost function View(m: RingMap): map<FiveTuple, RingState>
    requires RingsValid(m)
    reads m.Values, Buffers(m)
  {
    map k | k in m :: m[k].State()
  }

  type RingSlot = Slot<RingBuffer?>

  ghost predicate SlotsOk(s: seq<RingSlot>) {
    Distinct(s) && forall i :: 0 <= i < |s| && s[i].valid ==> s[i].value != null
  }

  /** The finite map a slot array stands for. */
  ghost function RingsOf(s: seq<RingSlot>): (m: RingMap)
    requires SlotsOk(s)
    ensures m.Keys == Keys(s)
  {
    map k | k in Abs(s) :: (assert At(s, IndexOf(s, k), k) by { KeyFound(s, k); } var r: RingBuffer := Abs(s)[k]; r)
  }

  lemma PutRings(s: seq<RingSlot>, key: FiveTuple, value: RingBuffer)
    requires SlotsOk(s)
    ensures |RingsOf(s)| <= |s|
    ensures PutSlots(s, key, value).None? <==> key !in RingsOf(s) && |RingsOf(s)| == |s|
    ensures PutSlots(s, key, value).Some? ==>
      var s' := PutSlots(s, key, value).value;
      SlotsOk(s') && |s'| == |s| && RingsOf(s') == RingsOf(s)[key := value]
      && Size(s') == Size(s) + if key in RingsOf(s) then 0 else 1
  {
    hide Abs, Distinct, Size, Keys, IndexOf, FreeFrom;
    PutRefines(s, key, value);
    SizeIsCardinality(s);
    assert |RingsOf(s)| == |RingsOf(s).Keys|;
    assert RingsOf(s).Keys == Abs(s).Keys;
  }

  lemma RemoveRings(s: seq<RingSlot>, key: FiveTuple)
    requires SlotsOk(s)
    ensures var s' := RemoveSlots(s, key); SlotsOk(s') && RingsOf(s') == RingsOf(s) - {key}
  {
    hide Abs, Distinct, Keys;
    RemoveRefines(s, key);
  }

  lemma CleanRings(s: seq<RingSlot>, idle: set<RingBuffer?>)
    requires SlotsOk(s)
    ensures
      var s' := CleanSlots(s, idle);
      SlotsOk(s') && RingsOf(s') == map k | k in RingsOf(s) && RingsOf(s)[k] !in idle :: RingsOf(s)[k]
  {
    hide Abs, Distinct, Keys;
    CleanRefines(s, idle);
  }

  lemma Looked(s: seq<RingSlot>, key: FiveTuple)
    requires SlotsOk(s)
    ensures -1 <= IndexOf(s, key) < |s|
    ensures IndexOf(s, key) >= 0 <==> key in RingsOf(s)
  {
    KeyFound(s, key);
  }

  lemma Absent(s: seq<RingSlot>, key: FiveTuple)
    requires forall j :: 0 <= j < |s| ==> !At(s, j, key)
    ensures IndexOf(s, key) == -1
  {
  }

  class HashMap {
    const slots: array<Slot<RingBuffer?>>
    var size: nat

    ghost predicate Valid()
      reads this, slots
    {
      slots.Length == HASHMAP_SIZE && SlotsOk(slots[..]) && size == Size(slots[..])
    }

    ghost function Contents(): (m: RingMap)
      requires Valid()
      reads this, slots
    {
      RingsOf(slots[..])
    }

    constructor ()
      ensures Valid() && fresh(slots) && Contents() == map[] && HoleFree(slots[..])
    {
      slots := new Slot<RingBuffer?>[HASHMAP_SIZE](_ => Slot(false, FiveTuple(0, 0, 0, 0, 0), null));
      size := 0;
      new;
      CountOfPrefix(slots[..], 0, HASHMAP_SIZE);
    }

    /** The frees made when the program ends, in order. */
    method Destroy() returns (freed: seq<RingBuffer?>)
      requires Valid()
      ensures freed == Freed(slots[..])
    {
      freed := [];
      var i := 0;
      while i < size
        invariant i <= size
        invariant |freed| == i && forall j :: 0 <= j < i ==> freed[j] == slots[..][j].value
      {
        freed := freed + [slots[i].value];
        i := i + 1;
      }
    }

    /** The loop test only counts the valid slots met; the search stays inside the array all
        the same, because `size` is the number of valid slots. */
    method Contains(key: FiveTuple) returns (index: int)
      requires Valid()
      ensures index == IndexOf(slots[..], key)
    {
      ghost var s := slots[..];
      var position, itemCount := 0, 0;
      while itemCount < size
        invariant position <= |s|
        invariant itemCount == Count(s, position)
        invariant forall j :: 0 <= j < position ==> !At(s, j, key)
        decreases size - itemCount, |s| - position
      {
        if slots[position].valid {
          if slots[position].key == key {
            IndexUnique(s, position);
            return position;
          }
          itemCount := itemCount + 1;
        }
        position := position + 1;
      }
      CountSplit(s, position, |s|);
      Absent(s, key);
      return -1;
    }

    method FirstFreeSlot() returns (index: int)
      requires Valid()
      ensures index == if FreeFrom(slots[..], 0) < HASHMAP_SIZE then FreeFrom(slots[..], 0) else -1
    {
      for i := 0 to HASHMAP_SIZE
        invariant FreeFrom(slots[..], 0) == FreeFrom(slots[..], i)
      {
        if !slots[i].valid {
          return i;
        }
      }
      return -1;
    }

    /** Returns false where the program prints "Hashmap is full!" and exits. */
    method Insert(key: FiveTuple, value: RingBuffer) returns (ok: bool)
      requires Valid()
      modifies this, slots
      ensures Valid()
      ensures ok <==> PutSlots(old(slots[..]), key, value).Some?
      ensures slots[..] == if ok then PutSlots(old(slots[..]), key, value).value else old(slots[..])
      ensures ok <==> key in old(Contents()) || |old(Contents())| < HASHMAP_SIZE
      ensures Contents() == if ok then old(Contents())[key := value] else old(Contents())
    {
      hide SlotsOk, RingsOf, Size, Keys, Count, At;
      ghost var s := slots[..];
      PutRings(s, key, value);
      Looked(s, key);
      var index := Contains(key);
      if index >= 0 {
        slots[index] := Slot(true, key, value);
        assert slots[..] == s[index := Slot(true, key, value)];
        return true;
      }
      index := FirstFreeSlot();
      if index >= 0 {
        slots[index] := Slot(true, key, value);
        assert slots[..] == s[index := Slot(true, key, value)];
        size := size + 1;
        return true;
      }
      return false;
    }

    method Get(key: FiveTuple) returns (value: RingBuffer?)
      requires Valid()
      ensures value == if key in Contents() then Contents()[key] else null
    {
      KeyFound(slots[..], key);
      hide Keys, Distinct;
      var index := Contains(key);
      if index >= 0 {
        return slots[index].value;
      }
      return null;
    }

    method Remove(key: FiveTuple)
      requires Valid()
      modifies this, slots
      ensures Valid()
      ensures slots[..] == RemoveSlots(old(slots[..]), key)
      ensures Contents() == old(Contents()) - {key}
    {
      ghost var s := slots[..];
      RemoveRings(s, key);
      hide SlotsOk, RingsOf;
      var index := Contains(key);
      if index >= 0 {
        CountUpdate(s, index, s[index].(valid := false), |s|);
        CountSplit(s, 0, |s|);
        slots[index] := slots[index].(valid := false);
        assert slots[..] == RemoveSlots(s, key);
        size := size - 1;
      }
    }

    method New(key: FiveTuple) returns (ok: bool, value: RingBuffer)
      requires Valid()
      modifies this, slots
      ensures Valid() && fresh(value) && fresh(value.buffer) && value.Valid() && value.State() == EmptyRing()
      ensures ok <==> key in old(Contents()) || |old(Contents())| < HASHMAP_SIZE
      ensures Contents() == if ok then old(Contents())[key := value] else old(Contents())
      ensures ok <==> PutSlots(old(slots[..]), key, value).Some?
      ensures slots[..] == if ok then PutSlots(old(slots[..]), key, value).value else old(slots[..])
    {
      value := new RingBuffer();
      ok := Insert(key, value);
    }

    /** The outcomes of one call: the next entry, "no more entries", or running off the end of
        the function without a return value. */
    method GetNext(current: FiveTuple) returns (next: Advance<RingBuffer?>)
      requires Valid()
      ensures next == NextOf(slots[..], current)
    {
      var index := Contains(current);
      var i := index + 1;
      if i < HASHMAP_SIZE {   // a `for` in the source, whose body always returns
        if slots[i].valid {
          return Next(slots[i].key, slots[i].value);
        }
        return End;
      }
      return FellOff;
    }

    ghost function IdleRings(): set<RingBuffer?>
      requires Valid()
      reads this, slots, set i | 0 <= i < slots.Length :: slots[i].value
    {
      set i | 0 <= i < slots.Length && slots[i].valid && !slots[i].value.isActive :: slots[i].value
    }

    lemma IdleMeans()
      requires Valid()
      ensures forall i :: 0 <= i < slots.Length && slots[i].valid ==>
        slots[i].value != null && (slots[i].value in IdleRings() <==> !slots[i].value.isActive)
    {
      hide Distinct, Size;
    }

    method CleanupInactiveFlows()
      requires Valid()
      modifies this, slots
      ensures Valid()
      ensures slots[..] == CleanSlots(old(slots[..]), old(IdleRings()))
      ensures Contents() ==
        map k | k in old(Contents()) && old(Contents())[k] !in old(IdleRings()) :: old(Contents())[k]
      ensures forall i :: 0 <= i < slots.Length && old(slots[i].valid) ==>
        old(slots[i].value) != null && (slots[i].valid <==> old(slots[i].value.isActive))
    {
      hide SlotsOk, RingsOf, IdleRings, Count;
      ghost var s, idle := slots[..], IdleRings();
      CleanRings(s, idle);
      IdleMeans();
      for i := 0 to HASHMAP_SIZE
        invariant forall j :: 0 <= j < i ==> slots[j] == CleanSlots(s, idle)[j]
        invariant forall j :: i <= j < HASHMAP_SIZE ==> slots[j] == s[j]
        invariant size == Size(slots[..])
      {
        assert slots[i] == s[i];
        if slots[i].valid && !slots[i].value.isActive {
          CountUpdate(slots[..], i, slots[i].(valid := false), HASHMAP_SIZE);
          CountSplit(slots[..], i, HASHMAP_SIZE);
          ghost var t := slots[..];
          slots[i] := slots[i].(valid := false);
          assert slots[..] == t[i := t[i].(valid := false)];
          size := size - 1;
        }
      }
      assert slots[..] == CleanSlots(s, idle);
    }
  }
}
