/**
 The worker's sampled record and its four-bucket histogram: the pair
 {v1, v2} the main flow writes, the classification the SIGALRM handler
 applies to it, and the four counters it increments.
 */
module Histogram {

  /** NUM_REPETITIONS: the number of samples a worker takes. */
  const NUM_REPETITIONS: int := 10001

  /** `g_shared_pair`. */
  datatype Pair = Pair(v1: int, v2: int)

  /** The four histogram buckets, one per observed combination. */
  datatype Bucket = B00 | B01 | B10 | B11

  /** `g_count00`, `g_count01`, `g_count10`, `g_count11`. */
  datatype Counters = Counters(c00: nat, c01: nat, c10: nat, c11: nat) {
    function Total(): nat {
      c00 + c01 + c10 + c11
    }

    function Get(b: Bucket): nat {
      match b
      case B00 => c00
      case B01 => c01
      case B10 => c10
      case B11 => c11
    }
  }

  const ZeroCounters: Counters := Counters(0, 0, 0, 0)

  predicate IsBit(x: int) {
    x == 0 || x == 1
  }

  /** The pair a bucket stands for. */
  function PairOf(b: Bucket): Pair {
    match b
    case B00 => Pair(0, 0)
    case B01 => Pair(0, 1)
    case B10 => Pair(1, 0)
    case B11 => Pair(1, 1)
  }

  /**
   The handler's classification: three exact comparisons and a catch-all, so
   every pair lands in exactly one bucket, and a pair of bits lands in the
   bucket that names it.
   */
  function Classify(p: Pair): (b: Bucket)
    ensures IsBit(p.v1) && IsBit(p.v2) ==> PairOf(b) == p
    ensures !(IsBit(p.v1) && IsBit(p.v2)) ==> b == B11
  {
    if p.v1 == 0 && p.v2 == 0 then B00
    else if p.v1 == 0 && p.v2 == 1 then B01
    else if p.v1 == 1 && p.v2 == 0 then B10
    else B11
  }

  /** Increment the counter of bucket `b`. */
  function Record(c: Counters, b: Bucket): (r: Counters)
    ensures r.Get(b) == c.Get(b) + 1
    ensures forall other: Bucket :: other != b ==> r.Get(other) == c.Get(other)
    ensures r.Total() == c.Total() + 1
  {
    match b
    case B00 => c.(c00 := c.c00 + 1)
    case B01 => c.(c01 := c.c01 + 1)
    case B10 => c.(c10 := c.c10 + 1)
    case B11 => c.(c11 := c.c11 + 1)
  }
}
