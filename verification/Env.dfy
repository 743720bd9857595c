/** Sizes, machine integers and the flow key shared by every component.

    The sizes of `src/env.h` are left symbolic: every theorem of this project holds for
    each value in the stated range, so in particular for the values `src/env.h` fixes. */
module Env {
  type Positive = x: int | 1 <= x witness 1
  type Short = x: int | 1 <= x < 0x1_0000 witness 1
  type Byte = x: int | 1 <= x <= 255 witness 1

  const RING_SIZE: Positive                  // 16
  const HASHMAP_SIZE: Positive               // 1024
  const NB_CORES: Byte                       // 8, travels through a uint8_t
  const MAX_REBALANCE_ITERATIONS: Positive   // 10
  const MAX_HANDLED_FLOWS: Short             // 1024, counted by a uint16_t
  const MAX_STATS_REPLY: Byte                // 32, indexed by a uint8_t
  const MAX_ACTIONS: Byte                    // 4, counted by a uint8_t
  const MSG_BUFFER_SIZE: Byte                // 16, counted by a uint8_t

  const OVS_NETWORK_IFINDEX := 1
  const OVS_HOST_IFINDEX := 2
  const OVS_OUTPUT_ACTION_MAX_LEN := 65535

  const TWO_16: int := 0x1_0000
  const TWO_32: int := 0x1_0000_0000
  const TWO_64: int := 0x1_0000_0000_0000_0000

  type uint8 = x: int | 0 <= x < 256
  type uint16 = x: int | 0 <= x < TWO_16
  type uint32 = x: int | 0 <= x < TWO_32
  type uint64 = x: int | 0 <= x < TWO_64

  datatype FiveTuple = FiveTuple(srcIp: uint32, dstIp: uint32, srcPort: uint16, dstPort: uint16, proto: uint8)

  /** Unsigned 64-bit addition and subtraction, with the wrap-around of C. */
  function Add64(a: uint64, b: uint64): uint64 {
    if a + b < TWO_64 then a + b else a + b - TWO_64
  }

  function Sub64(a: uint64, b: uint64): uint64 {
    if b <= a then a - b else a - b + TWO_64
  }

  lemma Modular64(a: uint64, b: uint64)
    ensures Add64(a, b) == (a + b) % TWO_64 && Sub64(a, b) == (a - b) % TWO_64
  {
  }

  /** Unsigned division by a positive number, spelled out so that proofs never meet `/`. */
  function Quotient(a: nat, b: Positive): (q: nat)
    ensures q <= a
    decreases a
  {
    if a < b then 0 else 1 + Quotient(a - b, b)
  }

  lemma {:induction false} QuotientBounds(a: nat, b: Positive)
    ensures b * Quotient(a, b) <= a < b * Quotient(a, b) + b
    decreases a
  {
    if a >= b {
      QuotientBounds(a - b, b);
      var q := Quotient(a - b, b);
      assert b * (1 + q) == b + b * q;
    }
  }

  lemma QuotientIsDivision(a: nat, b: Positive)
    ensures Quotient(a, b) == a / b
  {
    QuotientBounds(a, b);
    DivisionUnique(a, b, Quotient(a, b));
  }

  lemma DivisionUnique(a: nat, b: Positive, q: nat)
    requires b * q <= a < b * q + b
    ensures a / b == q
  {
    var p, r := a / b, a % b;
    assert a == b * p + r;
    if p < q {
      MulMonotone(b, p + 1, q);
    } else if p > q {
      MulMonotone(b, q + 1, p);
    }
  }

  lemma MulSuccessor(n: nat, q: nat)
    ensures n * (q + 1) == n * q + n
  {
  }

  lemma SmallRemainder(a: nat, b: nat)
    requires a < b
    ensures a % b == a
  {
  }

  lemma MulMonotone(b: nat, x: int, y: int)
    requires x <= y
    ensures b * x <= b * y
  {
  }

  function Min(a: int, b: int): int { if a <= b then a else b }

  function Max(a: int, b: int): int { if a >= b then a else b }

  /** No element occurs twice. */
  ghost predicate NoDup<T>(s: seq<T>) {
    forall i, j :: 0 <= i < j < |s| ==> s[i] != s[j]
  }
}
