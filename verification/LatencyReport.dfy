/** Latency percentiles from a fixed set of logarithmic buckets, as the load driver reports them.

    Every power of two is split into 16 buckets. Counters are natural numbers: 64-bit overflow of the counters is
    not modelled. */
module LatencyReport {
  import opened Basics
  import opened Counting

  const BUCKETS: nat := 64 * 16

  // ---------------------------------------------------------------- buckets

  function Power(exponent: nat): (power: nat)
    ensures power >= 1
  {
    if exponent == 0 then 1 else 2 * Power(exponent - 1)
  }

  /** The position of the highest set bit. */
  function Exponent(micros: nat): (exponent: nat)
    requires micros >= 1
    ensures Power(exponent) <= micros < 2 * Power(exponent)
  {
    if micros == 1 then 0 else 1 + Exponent(micros / 2)
  }

  /** The bucket of a latency, which the caller raised to at least one microsecond. */
  function Bucket(micros: nat): nat
    requires micros >= 1
  {
    var base := Power(Exponent(micros));
    Exponent(micros) * 16 + (micros - base) * 16 / base
  }

  function CeilDiv(x: nat, y: nat): nat
    requires y > 0
  {
    (x + y - 1) / y
  }

  /** The reported upper bound of a bucket. */
  function UpperBound(index: nat): nat {
    var base := Power(index / 16);
    Min(base + CeilDiv(base * (index % 16 + 1), 16), U64_MAX)
  }

  lemma DivisionBounds(x: nat, y: nat)
    requires y > 0
    ensures y * (x / y) <= x < y * (x / y + 1)
  {
    assert x == y * (x / y) + x % y;
  }

  lemma MulMonotone(x: nat, y: nat, factor: nat)
    ensures x <= y ==> factor * x <= factor * y
  {
  }

  lemma QuotientMonotone(x: nat, y: nat, divisor: nat)
    requires divisor > 0 && x <= y
    ensures x / divisor <= y / divisor
  {
    DivisionBounds(x, divisor);
    DivisionBounds(y, divisor);
    MulMonotone(y / divisor + 1, x / divisor, divisor);
  }

  /** Sixteenths of the distance from the power of two below. */
  lemma FractionParts(distance: nat, base: nat)
    requires distance < base
    ensures distance * 16 / base < 16
    ensures base * (distance * 16 / base) <= distance * 16 < base * (distance * 16 / base + 1)
  {
    DivisionBounds(distance * 16, base);
    MulMonotone(16, distance * 16 / base, base);
  }

  lemma IndexParts(exponent: nat, fraction: nat)
    requires fraction < 16
    ensures (exponent * 16 + fraction) / 16 == exponent && (exponent * 16 + fraction) % 16 == fraction
  {
  }

  /** Where a latency lies inside the power of two it belongs to. */
  lemma BucketParts(micros: nat)
    requires micros >= 1
    ensures var base := Power(Exponent(micros));
      var fraction := (micros - base) * 16 / base;
      && fraction < 16 && Bucket(micros) / 16 == Exponent(micros) && Bucket(micros) % 16 == fraction
      && base * fraction <= (micros - base) * 16 < base * (fraction + 1)
  {
    var base := Power(Exponent(micros));
    FractionParts(micros - base, base);
    IndexParts(Exponent(micros), (micros - base) * 16 / base);
  }

  /** The bound of a latency's bucket is no lower than the latency, and above it by less than a sixteenth plus one. */
  lemma BoundIsTight(micros: nat)
    requires 1 <= micros <= U64_MAX
    ensures micros <= UpperBound(Bucket(micros))
    ensures 16 * (UpperBound(Bucket(micros)) - micros) < micros + 16
  {
    BucketParts(micros);
    var base := Power(Exponent(micros));
    var fraction := (micros - base) * 16 / base;
    var product := base * (fraction + 1);
    assert product == base * fraction + base;
    assert product <= 16 * CeilDiv(product, 16) < product + 16;
  }

  lemma {:induction false} PowerMonotone(x: nat, y: nat)
    requires x <= y
    ensures Power(x) <= Power(y)
    decreases y
  {
    if x < y {
      PowerMonotone(x, y - 1);
    }
  }

  lemma ExponentMonotone(x: nat, y: nat)
    requires 1 <= x <= y
    ensures Exponent(x) <= Exponent(y)
  {
    if Exponent(x) > Exponent(y) {
      PowerMonotone(Exponent(y) + 1, Exponent(x));
    }
  }

  /** A longer latency never falls in an earlier bucket. */
  lemma BucketMonotone(x: nat, y: nat)
    requires 1 <= x <= y
    ensures Bucket(x) <= Bucket(y)
  {
    ExponentMonotone(x, y);
    BucketParts(x);
    BucketParts(y);
    if Exponent(x) == Exponent(y) {
      var base := Power(Exponent(x));
      QuotientMonotone((x - base) * 16, (y - base) * 16, base);
    }
  }

  lemma BucketInRange(micros: nat)
    requires 1 <= micros <= U64_MAX
    ensures Bucket(micros) < BUCKETS
  {
    BucketParts(micros);
    if Exponent(micros) >= 64 {
      PowerMonotone(64, Exponent(micros));
      PowersOfTwo();
    }
  }

  lemma PowersOfTwo()
    ensures Power(64) == U64_MAX + 1
  {
    assert Power(8) == 256;
    assert Power(16) == 65536;
    assert Power(24) == 0x100_0000;
    assert Power(32) == 0x1_0000_0000;
    assert Power(40) == 0x100_0000_0000;
    assert Power(48) == 0x1_0000_0000_0000;
    assert Power(56) == 0x100_0000_0000_0000;
  }

  // ---------------------------------------------------------------- counting

  lemma {:induction false} CountSplit(samples: seq<nat>, both: nat -> bool, one: nat -> bool, other: nat -> bool)
    requires forall s: nat :: both(s) <==> one(s) || other(s)
    requires forall s: nat :: !(one(s) && other(s))
    ensures Count(samples, both) == Count(samples, one) + Count(samples, other)
  {
    if samples != [] {
      CountSplit(samples[1..], both, one, other);
    }
  }

  function InBucket(index: nat): nat -> bool {
    s => s >= 1 && Bucket(s) == index
  }

  function Before(index: nat): nat -> bool {
    s => s >= 1 && Bucket(s) < index
  }

  function AtMost(value: nat): nat -> bool {
    s => s <= value
  }

  function Below(value: nat): nat -> bool {
    s => s < value
  }

  function Sum(counts: seq<nat>): nat {
    if counts == [] then 0 else Sum(counts[..|counts| - 1]) + counts[|counts| - 1]
  }

  predicate AllSamples(samples: seq<nat>) {
    forall i | 0 <= i < |samples| :: 1 <= samples[i] <= U64_MAX
  }

  /** The buckets count the samples that fall in them. */
  predicate Histogram(counts: seq<nat>, samples: seq<nat>) {
    |counts| == BUCKETS && forall i: nat | i < BUCKETS :: counts[i] == Count(samples, InBucket(i))
  }

  /** The sum of the first buckets counts the samples in them. */
  lemma {:induction false} PrefixCounts(counts: seq<nat>, samples: seq<nat>, index: nat)
    requires Histogram(counts, samples) && index <= BUCKETS
    ensures Sum(counts[..index]) == Count(samples, Before(index))
  {
    if index == 0 {
      CountNone(samples, Before(0));
    } else {
      PrefixCounts(counts, samples, index - 1);
      assert counts[..index][..index - 1] == counts[..index - 1];
      CountSplit(samples, Before(index), Before(index - 1), InBucket(index - 1));
    }
  }

  lemma {:induction false} CountAll(samples: seq<nat>, test: nat -> bool)
    requires forall i | 0 <= i < |samples| :: test(samples[i])
    ensures Count(samples, test) == |samples|
  {
    if samples != [] {
      CountAll(samples[1..], test);
    }
  }

  /** All buckets together count every success. */
  lemma BucketsCountEverySuccess(counts: seq<nat>, samples: seq<nat>)
    requires Histogram(counts, samples) && AllSamples(samples)
    ensures Sum(counts) == |samples|
  {
    PrefixCounts(counts, samples, BUCKETS);
    assert counts[..BUCKETS] == counts;
    forall s | s in samples
      ensures Before(BUCKETS)(s)
    {
      BucketInRange(s);
    }
    CountAll(samples, Before(BUCKETS));
  }

  // ---------------------------------------------------------------- ranks

  /** `value` is the `rank`-th smallest sample. */
  predicate IsRank(samples: seq<nat>, rank: nat, value: nat) {
    value in samples && Count(samples, Below(value)) < rank <= Count(samples, AtMost(value))
  }

  /** Every rank from one to the number of samples has its sample. */
  lemma RankExists(samples: seq<nat>, rank: nat) returns (value: nat)
    requires 1 <= rank <= |samples|
    ensures IsRank(samples, rank, value)
  {
    var top := Largest(samples);
    CountAll(samples, AtMost(top));
    CountNone(samples, Below(0));
    value := 0;
    while Count(samples, AtMost(value)) < rank
      invariant value <= top
      invariant Count(samples, Below(value)) < rank
      decreases top - value
    {
      CountImplies(samples, AtMost(value), Below(value + 1));
      CountImplies(samples, Below(value + 1), AtMost(value));
      value := value + 1;
    }
    if value !in samples {
      CountImplies(samples, AtMost(value), Below(value));
    }
  }

  lemma {:induction false} Largest(samples: seq<nat>) returns (top: nat)
    requires samples != []
    ensures forall i | 0 <= i < |samples| :: samples[i] <= top
  {
    top := samples[0];
    if |samples| > 1 {
      var rest := Largest(samples[1..]);
      assert samples == [samples[0]] + samples[1..];
      top := Max(samples[0], rest);
    }
  }

  /** The first bucket whose cumulative count reaches a rank is the bucket of the sample of that rank. */
  lemma RankIsInFirstBucket(counts: seq<nat>, samples: seq<nat>, rank: nat, value: nat, index: nat)
    requires Histogram(counts, samples) && AllSamples(samples) && IsRank(samples, rank, value)
    requires index < BUCKETS && Sum(counts[..index]) < rank <= Sum(counts[..index + 1])
    ensures Bucket(value) == index
  {
    PrefixCounts(counts, samples, index);
    PrefixCounts(counts, samples, index + 1);
    if Bucket(value) < index {
      forall s | s in samples && AtMost(value)(s)
        ensures Before(index)(s)
      {
        BucketMonotone(s, value);
      }
      CountImplies(samples, AtMost(value), Before(index));
    } else if Bucket(value) > index {
      forall s | s in samples && Before(index + 1)(s)
        ensures Below(value)(s)
      {
        if s >= value {
          BucketMonotone(value, s);
        }
      }
      CountImplies(samples, Before(index + 1), Below(value));
    }
  }

  // ---------------------------------------------------------------- the report

  datatype Observation = Observation(outcome: Result<nat, string>, latency: U64, bytes: nat)

  function Incremented<K(==)>(counters: map<K, nat>, key: K): map<K, nat> {
    counters[key := (if key in counters then counters[key] else 0) + 1]
  }

  class Counts {
    var completed: nat
    var succeeded: nat
    var failed: nat
    var responseBytes: nat
    var rcodes: map<nat, nat>
    var errors: map<string, nat>
    var latency: seq<nat>
    /** The latencies of all successes, each at least one microsecond. */
    ghost var samples: seq<nat>

    ghost predicate Valid()
      reads this
    {
      && AllSamples(samples) && succeeded == |samples| && completed == succeeded + failed
      && (if samples == [] then latency == [] else Histogram(latency, samples))
    }

    constructor ()
      ensures Valid() && samples == [] && failed == 0
    {
      completed, succeeded, failed, responseBytes := 0, 0, 0, 0;
      rcodes, errors, latency, samples := map[], map[], [], [];
    }

    method Observe(observation: Observation)
      requires Valid()
      modifies this
      ensures Valid()
      ensures samples == old(samples) + if observation.outcome.Ok? then [Max(observation.latency, 1)] else []
      ensures completed == old(completed) + 1 && failed == old(failed) + if observation.outcome.Ok? then 0 else 1
      ensures responseBytes == old(responseBytes) + observation.bytes
      ensures observation.outcome.Ok? ==>
        rcodes == Incremented(old(rcodes), observation.outcome.value) && errors == old(errors)
      ensures observation.outcome.Err? ==>
        errors == Incremented(old(errors), observation.outcome.error) && rcodes == old(rcodes)
    {
      completed := completed + 1;
      responseBytes := responseBytes + observation.bytes;
      match observation.outcome {
        case Ok(rcode) =>
          succeeded := succeeded + 1;
          rcodes := Incremented(rcodes, rcode);
          latency := CountLatency(latency, Max(observation.latency, 1), samples);
          samples := samples + [Max(observation.latency, 1)];
        case Err(error) =>
          failed := failed + 1;
          errors := Incremented(errors, error);
      }
    }

    /** The reported percentile bounds the exact one from above, by less than a sixteenth plus one microsecond. */
    method Percentile(numerator: nat) returns (result: Option<nat>)
      requires Valid()
      ensures succeeded == 0 || numerator > 100 ==> result == None
      ensures succeeded > 0 && 1 <= numerator <= 100 ==>
        var rank := CeilDiv(succeeded * numerator, 100);
        result.Some? && 1 <= rank <= succeeded && Bounds(samples, rank, result.value)
    {
      if succeeded == 0 {
        return None;
      }
      var rank := CeilDiv(succeeded * numerator, 100);
      RankInRange(succeeded, numerator);
      BucketsCountEverySuccess(latency, samples);
      var index := FirstReaching(latency, rank);
      if index == |latency| {
        return None;
      }
      if rank >= 1 {
        BucketBoundsRank(latency, samples, rank, index);
      }
      result := Some(UpperBound(index));
    }
  }

  /** `upper` bounds the sample of that rank, closely. */
  ghost predicate Bounds(samples: seq<nat>, rank: nat, upper: nat) {
    forall q: nat | IsRank(samples, rank, q) :: q <= upper && 16 * (upper - q) < q + 16
  }

  lemma BucketBoundsRank(counts: seq<nat>, samples: seq<nat>, rank: nat, index: nat)
    requires Histogram(counts, samples) && AllSamples(samples)
    requires index < BUCKETS && Sum(counts[..index]) < rank <= Sum(counts[..index + 1])
    ensures Bounds(samples, rank, UpperBound(index))
  {
    forall q: nat | IsRank(samples, rank, q)
      ensures q <= UpperBound(index) && 16 * (UpperBound(index) - q) < q + 16
    {
      RankIsInFirstBucket(counts, samples, rank, q, index);
      BoundIsTight(q);
    }
  }

  /** The loop over the buckets: the first one whose cumulative count reaches the rank, or none. */
  method FirstReaching(counts: seq<nat>, rank: nat) returns (index: nat)
    requires counts != []
    ensures index <= |counts|
    ensures index < |counts| ==> rank <= Sum(counts[..index + 1]) <= Sum(counts)
    ensures rank >= 1 && index < |counts| ==> Sum(counts[..index]) < rank
    ensures index == |counts| ==> Sum(counts) < rank
  {
    var cumulative := 0;
    index := 0;
    while index < |counts|
      invariant index <= |counts|
      invariant cumulative == Sum(counts[..index])
      invariant index > 0 || rank >= 1 ==> cumulative < rank
    {
      assert counts[..index + 1][..index] == counts[..index];
      cumulative := cumulative + counts[index];
      if cumulative >= rank {
        PrefixAtMostAll(counts, index + 1);
        return;
      }
      index := index + 1;
    }
    assert counts[..|counts|] == counts;
  }

  /** One more sample in the buckets, which come into being with the first one. */
  method CountLatency(latency: seq<nat>, micros: nat, ghost samples: seq<nat>) returns (counts: seq<nat>)
    requires if samples == [] then latency == [] else Histogram(latency, samples)
    requires 1 <= micros <= U64_MAX
    ensures Histogram(counts, samples + [micros])
  {
    counts := latency;
    if |counts| < BUCKETS {
      counts := seq(BUCKETS, i => 0);
    }
    BucketInRange(micros);
    HistogramNext(counts, samples, micros);
    counts := counts[Bucket(micros) := counts[Bucket(micros)] + 1];
  }

  lemma HistogramNext(counts: seq<nat>, samples: seq<nat>, sample: nat)
    requires Histogram(counts, samples) && sample >= 1 && Bucket(sample) < BUCKETS
    ensures Histogram(counts[Bucket(sample) := counts[Bucket(sample)] + 1], samples + [sample])
  {
    forall i: nat | i < BUCKETS
      ensures counts[Bucket(sample) := counts[Bucket(sample)] + 1][i] == Count(samples + [sample], InBucket(i))
    {
      CountAppend(samples, sample, InBucket(i));
    }
  }

  lemma RankInRange(succeeded: nat, numerator: nat)
    requires succeeded > 0
    ensures 1 <= numerator <= 100 ==> 1 <= CeilDiv(succeeded * numerator, 100) <= succeeded
    ensures numerator > 100 ==> CeilDiv(succeeded * numerator, 100) > succeeded
    ensures numerator == 0 ==> CeilDiv(succeeded * numerator, 100) == 0
  {
    MulMonotone(numerator, 100, succeeded);
    MulMonotone(101, numerator, succeeded);
    MulMonotone(1, numerator, succeeded);
  }

  lemma {:induction false} PrefixAtMostAll(counts: seq<nat>, index: nat)
    requires index <= |counts|
    ensures Sum(counts[..index]) <= Sum(counts)
    decreases |counts|
  {
    if index == |counts| {
      assert counts[..index] == counts;
    } else {
      var init := counts[..|counts| - 1];
      assert init[..index] == counts[..index];
      PrefixAtMostAll(init, index);
    }
  }
}
