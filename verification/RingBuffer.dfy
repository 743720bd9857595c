/** The circular buffer of one flow's counter (src/ringbuffer.c). */
module Rings {
  import opened Env

  /** The contents of one RingBuffer struct, as a value. */
  datatype RingState = RingState(core: nat, pos: nat, size: nat, buffer: seq<uint64>, active: bool) {
    ghost predicate WellFormed() {
      |buffer| == RING_SIZE && pos < RING_SIZE && size <= RING_SIZE
    }

    function Last(): uint64
      requires WellFormed()
    {
      if size == 0 then 0 else buffer[pos]
    }
  }

  ghost function EmptyRing(): (r: RingState)
    ensures r.WellFormed()
  {
    RingState(0, 0, 0, seq(RING_SIZE, _ => 0), false)
  }

  /** What one ringbuffer_add does to the struct. */
  ghost function AddTo(r: RingState, value: uint64): (r': RingState)
    requires r.WellFormed()
    ensures r'.WellFormed()
  {
    var next := Next(r.pos);
    var stored := if r.size == 0 then value else Sub64(value, r.buffer[r.pos]);
    RingState(r.core, next, Min(r.size + 1, RING_SIZE), r.buffer[next := stored], true)
  }

  ghost function AddAll(values: seq<uint64>): (r: RingState)
    ensures r.WellFormed()
  {
    if values == [] then EmptyRing() else AddTo(AddAll(values[..|values| - 1]), values[|values| - 1])
  }

  // ---- circular positions, without remainders ----

  function Next(pos: nat): (p: nat)
    requires pos < RING_SIZE
    ensures p < RING_SIZE
  {
    if pos + 1 == RING_SIZE then 0 else pos + 1
  }

  /** The position `steps` writes before `pos`. */
  function Back(pos: nat, steps: nat): (p: nat)
    requires pos < RING_SIZE && steps < RING_SIZE
    ensures p < RING_SIZE
  {
    if steps <= pos then pos - steps else pos - steps + RING_SIZE
  }

  /** C's remainder, which truncates toward zero. */
  function Rem(a: int, b: int): int
    requires b > 0
  {
    if a >= 0 then a % b else -((-a) % b)
  }

  lemma NextIsRemainder(pos: nat)
    requires pos < RING_SIZE
    ensures Rem(pos + 1, RING_SIZE) == Next(pos)
  {
    if pos + 1 < RING_SIZE {
      SmallRemainder(pos + 1, RING_SIZE);
    }
  }

  // ---- the stream a ring buffer stands for ----

  /** The values `ringbuffer_add` stores for a stream of raw counters: each one is the raw
      counter minus the value stored before it. */
  ghost function Stored(values: seq<uint64>): (ds: seq<uint64>)
    ensures |ds| == |values|
  {
    if values == [] then []
    else
      var before := Stored(values[..|values| - 1]);
      var v := values[|values| - 1];
      before + [if before == [] then v else Sub64(v, before[|before| - 1])]
  }

  /** The ring holds the most recent values of `ds`, newest at `pos`, going backwards. */
  ghost predicate Holds(r: RingState, ds: seq<uint64>) {
    && r.WellFormed()
    && r.size == Min(|ds|, RING_SIZE)
    && forall j :: 0 <= j < r.size ==> r.buffer[Back(r.pos, j)] == ds[|ds| - 1 - j]
  }

  lemma {:induction false} RingRefinesStream(values: seq<uint64>)
    ensures Holds(AddAll(values), Stored(values))
    ensures AddAll(values).active <==> values != []
    ensures AddAll(values).core == 0
  {
    if values != [] {
      var init := values[..|values| - 1];
      RingRefinesStream(init);
      var r, ds := AddAll(init), Stored(init);
      assert r.size > 0 ==> r.buffer[Back(r.pos, 0)] == ds[|ds| - 1];
      var r', ds' := AddAll(values), Stored(values);
      forall j | 0 <= j < r'.size
        ensures r'.buffer[Back(r'.pos, j)] == ds'[|ds'| - 1 - j]
      {
        if j > 0 {
          assert Back(r'.pos, j) == Back(r.pos, j - 1);
        }
      }
    }
  }

  /** Prefixes of the raw stream store prefixes of the stored stream. */
  lemma {:induction false} StoredPrefix(values: seq<uint64>, n: nat)
    requires n <= |values|
    ensures Stored(values[..n]) == Stored(values)[..n]
  {
    if n < |values| {
      var init := values[..|values| - 1];
      StoredPrefix(init, n);
      assert init[..n] == values[..n];
    } else {
      assert values[..n] == values;
    }
  }

  lemma StoredStep(values: seq<uint64>, k: nat)
    requires k < |values|
    ensures Stored(values)[k] == if k == 0 then values[0] else Sub64(values[k], Stored(values)[k - 1])
  {
    var upTo := values[..k + 1];
    StoredPrefix(values, k + 1);
    StoredPrefix(values, k);
    assert upTo[..k] == values[..k];
    assert Stored(values)[k] == Stored(upTo)[k];
  }

  /** Sum with alternating signs, the newest counter positive. */
  ghost function Alternating(values: seq<uint64>): int {
    if values == [] then 0
    else values[|values| - 1] - Alternating(values[..|values| - 1])
  }

  /** Wrap-around included, each stored value is the alternating sum of all raw counters so far. */
  lemma {:induction false} StoredIsAlternatingSum(values: seq<uint64>)
    requires values != []
    ensures Stored(values)[|values| - 1] == Alternating(values) % TWO_64
  {
    var init := values[..|values| - 1];
    if init != [] {
      StoredIsAlternatingSum(init);
    }
  }

  ghost predicate NonDecreasing(values: seq<uint64>) {
    forall i, j :: 0 <= i <= j < |values| ==> values[i] <= values[j]
  }

  /** For a counter that never goes down no subtraction wraps, and what is stored never
      exceeds the counter. */
  lemma {:induction false} StoredNeverUnderflows(values: seq<uint64>, k: nat)
    requires NonDecreasing(values) && k < |values|
    ensures Stored(values)[k] <= values[k]
    ensures k > 0 ==> Stored(values)[k - 1] <= values[k] && Stored(values)[k] == values[k] - Stored(values)[k - 1]
  {
    StoredStep(values, k);
    if k > 0 {
      StoredNeverUnderflows(values, k - 1);
      assert values[k - 1] <= values[k];
    }
  }

  /** The value the balancer takes for a flow's load is the increment of its counter since the
      previous poll exactly when it is the second value ever stored or the value stored two
      polls before is zero. */
  lemma StoredIsIncrementIff(values: seq<uint64>, k: nat)
    requires 0 < k < |values|
    ensures Stored(values)[k] == Sub64(values[k], values[k - 1]) <==> (k == 1 || Stored(values)[k - 2] == 0)
  {
    StoredStep(values, k);
    StoredStep(values, k - 1);
  }

  /** A flow that carries nothing after its first poll shows its whole counter as its load at
      every other poll, for ever. */
  lemma {:induction false} IdleFlowShowsLoad(c: uint64, n: nat, k: nat)
    requires k < n
    ensures Stored(seq(n, _ => c))[k] == if k % 2 == 0 then c else 0
  {
    StoredStep(seq(n, _ => c), k);
    if k > 0 {
      IdleFlowShowsLoad(c, n, k - 1);
    }
  }

  /** So the stored value is not the increment, which is zero from the second poll on. */
  lemma IdleFlowMisread(c: uint64)
    requires c > 0
    ensures Stored([c, c, c])[2] == c != Sub64(c, c)
  {
    assert [c, c, c] == seq(3, _ => c);
    IdleFlowShowsLoad(c, 3, 2);
  }

  // ---- averages ----

  /** The `n` newest values of a ring, summed. */
  ghost function SumBack(r: RingState, n: nat): int
    requires r.WellFormed() && n <= r.size
  {
    if n == 0 then 0 else SumBack(r, n - 1) + r.buffer[Back(r.pos, n - 1)]
  }

  ghost function Sum(ds: seq<uint64>): int {
    if ds == [] then 0 else ds[0] + Sum(ds[1..])
  }

  /** Walking backwards through the wrap-around sums the newest values of the stream. */
  lemma {:induction false} SumBackIsStreamSum(r: RingState, ds: seq<uint64>, n: nat)
    requires Holds(r, ds) && n <= r.size
    ensures SumBack(r, n) == Sum(ds[|ds| - n..])
  {
    if n == 0 {
      assert ds[|ds| - n..] == [];
    } else {
      SumBackIsStreamSum(r, ds, n - 1);
      assert ds[|ds| - n..][1..] == ds[|ds| - (n - 1)..];
    }
  }

  /** What ringbuffer_get_average returns, on the struct. A negative `count` is converted to
      a huge unsigned divisor of the empty sum. */
  ghost function Average(r: RingState, count: int): uint64
    requires r.WellFormed() && (count == 0 ==> r.size == 0)
  {
    if r.size == 0 || count < 0 then 0
    else Quotient(SumBack(r, Min(count, r.size)) % TWO_64, count)
  }

  /** After any raw stream, the average over `count` is the 64-bit sum of the most recent
      min(count, size) stored values, divided by `count`. */
  lemma AverageOfStream(values: seq<uint64>, count: int)
    requires values != [] && count > 0
    ensures
      var ds := Stored(values);
      var n := Min(count, Min(|values|, RING_SIZE));
      Average(AddAll(values), count) == Quotient(Sum(ds[|ds| - n..]) % TWO_64, count)
  {
    hide AddAll, Stored, Sum, Quotient;
    RingRefinesStream(values);
    SumBackIsStreamSum(AddAll(values), Stored(values), Min(count, Min(|values|, RING_SIZE)));
  }

  /** The 64-bit sum of the most recent min(count, size) stored values, and how many they are. */
  ghost function Newest(values: seq<uint64>, count: Positive): (n: nat)
    ensures n <= |values| && n <= count && (values != [] ==> n > 0)
  {
    Min(count, Min(|values|, RING_SIZE))
  }

  ghost function RecentSum(values: seq<uint64>, count: Positive): uint64 {
    Sum(Stored(values)[|values| - Newest(values, count)..]) % TWO_64
  }

  /** The result is the mean of the values it sums if and only if count times that mean does
      not exceed their sum: dividing by `count` must not lose more than the rounding does. */
  lemma AverageIsMeanIff(values: seq<uint64>, count: Positive)
    requires values != []
    ensures
      var n, s := Newest(values, count), RecentSum(values, count);
      Average(AddAll(values), count) == Quotient(s, n) <==> count * Quotient(s, n) <= s
  {
    hide AddAll, Stored, Sum, Quotient, Average;
    AverageOfStream(values, count);
    MeanIff(RecentSum(values, count), Newest(values, count), count);
  }

  /** Once `count` values are stored it always is. */
  lemma AverageIsMeanWhenFilled(values: seq<uint64>, count: Positive)
    requires values != [] && count <= |values| && count <= RING_SIZE
    ensures Average(AddAll(values), count) == Quotient(RecentSum(values, count), Newest(values, count))
    ensures Newest(values, count) == count
  {
    hide AddAll, Stored, Sum, Quotient, Average, RingState.WellFormed;
    AverageOfStream(values, count);
  }

  /** Before, any positive counter is a counterexample. */
  lemma AverageTooSmall(c: uint64)
    requires c > 0
    ensures Average(AddAll([c]), 2) < Average(AddAll([c]), 1) == c
  {
    hide AddAll, Average, Stored, Sum, Quotient;
    OneValue(c);
    AverageOfStream([c], 1);
    AverageOfStream([c], 2);
    QuotientBounds(c, 1);
    QuotientBounds(c, 2);
  }

  lemma OneValue(c: uint64)
    ensures Stored([c])[0..] == [c] && Sum([c]) % TWO_64 == c
  {
    StoredStep([c], 0);
    assert Sum([c]) == c + Sum([c][1..]);
    SmallRemainder(c, TWO_64);
  }

  lemma MeanIff(s: nat, n: Positive, count: Positive)
    requires n <= count
    ensures Quotient(s, count) == Quotient(s, n) <==> count * Quotient(s, n) <= s
  {
    hide Quotient;
    var a, m := Quotient(s, count), Quotient(s, n);
    QuotientBounds(s, count);
    LargerDivisor(s, n, count);
    if a < m {
      MulMonotone(count, a + 1, m);
      MulSuccessor(count, a);
    }
  }

  lemma LargerDivisor(s: nat, n: Positive, count: Positive)
    requires n <= count
    ensures Quotient(s, count) <= Quotient(s, n)
  {
    hide Quotient;
    var a, m := Quotient(s, count), Quotient(s, n);
    QuotientBounds(s, count);
    QuotientBounds(s, n);
    if a > m {
      LargerProduct(n, m, count, a);
    }
  }

  lemma LargerProduct(n: nat, m: nat, count: nat, a: nat)
    requires n <= count && m < a
    ensures n * m + n <= count * a
  {
    MulSuccessor(n, m);
    MulMonotone(n, m + 1, a);
    MulMonotone(a, n, count);
    assert a * n == n * a && a * count == count * a;
  }

  class RingBuffer {
    var assignedCore: uint8
    var pos: nat
    var size: nat
    const buffer: array<uint64>
    var isActive: bool

    ghost predicate Valid()
      reads `pos, `size
    {
      buffer.Length == RING_SIZE && pos < RING_SIZE && size <= RING_SIZE
    }

    ghost function State(): (r: RingState)
      requires Valid()
      reads this, buffer
      ensures r.WellFormed()
    {
      RingState(assignedCore, pos, size, buffer[..], isActive)
    }

    constructor ()
      ensures Valid() && fresh(buffer)
      ensures State() == EmptyRing()
    {
      assignedCore, pos, size, isActive := 0, 0, 0, false;
      buffer := new uint64[RING_SIZE](_ => 0);
      new;
      assert buffer[..] == EmptyRing().buffer;
    }

    method Add(value: uint64)
      requires Valid()
      modifies this, buffer
      ensures Valid() && State() == AddTo(old(State()), value)
    {
      NextIsRemainder(pos);
      var lastPos := pos;
      pos := Rem(pos + 1, RING_SIZE);
      var newPos := pos;
      if size == 0 {
        buffer[newPos] := value;
      } else {
        buffer[newPos] := Sub64(value, buffer[lastPos]);
      }
      if size < RING_SIZE {
        size := size + 1;
      }
      isActive := true;
    }

    function GetLast(): (v: uint64)
      requires Valid()
      reads `pos, `size, buffer
    {
      if size == 0 then 0 else buffer[pos]
    }

    method GetAverage(count: int) returns (average: uint64)
      requires Valid() && (count == 0 ==> size == 0)
      ensures average == Average(State(), count)
    {
      if size == 0 {
        return 0;
      }
      var i := 0;
      var sum: uint64 := 0;
      var p: int := pos;
      while i < count && i < size
        invariant 0 <= i <= size && (count > 0 ==> i <= count) && (count < 0 ==> i == 0)
        invariant 0 <= p < RING_SIZE
        invariant i < RING_SIZE ==> p == Back(pos, i)
        invariant sum == SumBack(State(), i) % TWO_64
      {
        sum := Add64(sum, buffer[p]);
        BackStep(p);
        p := Rem(p - 1, RING_SIZE);
        if p < 0 {
          p := RING_SIZE - 1;
        }
        i := i + 1;
      }
      if count < 0 {
        average := 0;   // 0 divided by the unsigned value of count
      } else {
        average := Quotient(sum, count);
      }
    }

    method PredictNext(count: int) returns (prediction: uint64)
      requires Valid() && (count == 0 ==> size == 0)
      ensures prediction == Average(State(), count)
    {
      if size == 0 {
        return 0;
      }
      var last := GetLast();
      var average := GetAverage(count);
      prediction := Add64(last, Sub64(average, last));
    }
  }

  lemma BackStep(p: nat)
    requires p < RING_SIZE
    ensures p > 0 ==> Rem(p - 1, RING_SIZE) == p - 1
    ensures p == 0 ==> Rem(p - 1, RING_SIZE) == if RING_SIZE == 1 then 0 else -1
  {
    if p > 0 {
      SmallRemainder(p - 1, RING_SIZE);
    } else if RING_SIZE > 1 {
      SmallRemainder(1, RING_SIZE);
    }
  }
}
