/** The latency histogram of src/metrics.rs: logarithmic buckets with sixteen linear sub-buckets per
    octave, and percentiles read off the bucket counts. */
module Metrics {
  import opened Types

  const BUCKETS: nat := 544
  const RANGE: nat := 0x20_0000_0000  // 2^37 nanoseconds

  function Pow2(k: nat): (p: nat)
    ensures p > 0
  {
    if k == 0 then 1 else 2 * Pow2(k - 1)
  }

  // The position of the highest set bit.
  function Msb(n: nat): nat
    requires n > 0
  {
    if n == 1 then 0 else 1 + Msb(n / 2)
  }

  function ValueToBucket(nanos: nat): nat {
    if nanos < 16 then nanos
    else if Msb(nanos) < 4 then nanos
    else
      var octave := Msb(nanos) - 4;
      var sub := nanos / Pow2(octave) % 16;
      Min(16 + octave * 16 + sub, 543)
  }

  function BucketToValue(bucket: nat): nat {
    if bucket < 16 then bucket
    else
      var octave := (bucket - 16) / 16;
      var sub := (bucket - 16) % 16;
      Pow2(octave + 4) + sub * Pow2(octave) + Pow2(octave) / 2
  }

  // ----- Octaves ----------------------------------------------------------------------------------

  lemma {:induction false} MsbBounds(n: nat)
    requires n > 0
    ensures Pow2(Msb(n)) <= n < 2 * Pow2(Msb(n))
  {
    if n > 1 { MsbBounds(n / 2); }
  }

  lemma {:induction false} Pow2Mono(i: nat, j: nat)
    requires i <= j
    ensures Pow2(i) <= Pow2(j)
  {
    if i < j { Pow2Mono(i, j - 1); }
  }

  lemma Pow2Gap(i: nat, j: nat)
    ensures i < j ==> 2 * Pow2(i) <= Pow2(j)
  {
    if i < j { Pow2Mono(i + 1, j); }
  }

  lemma MsbUnique(n: nat, k: nat)
    requires n > 0 && Pow2(k) <= n < 2 * Pow2(k)
    ensures Msb(n) == k
  {
    hide Pow2, Msb;
    MsbBounds(n);
    Pow2Gap(Msb(n), k);
    Pow2Gap(k, Msb(n));
  }

  lemma Pow2Sixteen(octave: nat)
    ensures Pow2(octave + 4) == 16 * Pow2(octave)
  {
    assert Pow2(octave + 4) == 2 * Pow2(octave + 3) && Pow2(octave + 3) == 2 * Pow2(octave + 2);
    assert Pow2(octave + 2) == 2 * Pow2(octave + 1) && Pow2(octave + 1) == 2 * Pow2(octave);
  }

  lemma NextProduct(q: nat, p: nat)
    ensures (q + 1) * p == q * p + p
  {
  }

  lemma ProductMono(q: nat, r: nat, p: nat)
    requires q <= r
    ensures q * p <= r * p
  {
    ProductSum(q, r - q, p);
  }

  lemma ProductSum(q: nat, d: nat, p: nat)
    ensures (q + d) * p == q * p + d * p
  {
  }

  lemma NextMultiple(q: nat, r: nat, p: nat)
    ensures (q + 1) * p == q * p + p
    ensures q < r ==> (q + 1) * p <= r * p
  {
    NextProduct(q, p);
    if q < r { ProductMono(q + 1, r, p); }
  }

  lemma Quotient(v: nat, p: nat, lo: nat, hi: nat)
    requires p > 0 && lo * p <= v < hi * p
    ensures lo <= v / p < hi && v / p * p <= v < (v / p + 1) * p
  {
    var q := v / p;
    assert v == q * p + v % p;
    NextMultiple(q, lo, p);
    NextMultiple(hi, q + 1, p);
  }

  lemma SubBucket(v: nat, octave: nat, q: nat)
    requires v >= 16 && Msb(v) == octave + 4 && q == v / Pow2(octave) && 16 <= q < 32
    ensures ValueToBucket(v) == Min(16 * octave + q, 543)
  {
    hide Msb, Pow2;
    assert q % 16 == q - 16;
  }

  // The octave of a value from 16 on, and its sub-bucket counted from the octave's start.
  lemma {:induction false} OctaveOf(v: nat) returns (octave: nat, q: nat)
    requires v >= 16
    ensures Msb(v) == octave + 4 && q == v / Pow2(octave)
    ensures 16 <= q < 32 && q * Pow2(octave) <= v < (q + 1) * Pow2(octave)
    ensures ValueToBucket(v) == Min(16 * octave + q, 543)
  {
    hide ValueToBucket, Msb;
    MsbBounds(v);
    Pow2Gap(Msb(v), 4);
    assert Pow2(4) == 16;
    octave := Msb(v) - 4;
    Pow2Sixteen(octave);
    q := v / Pow2(octave);
    Quotient(v, Pow2(octave), 16, 32);
    SubBucket(v, octave, q);
  }

  // ----- The bucket map ---------------------------------------------------------------------------

  lemma BucketMonotone(v: nat, w: nat)
    requires v <= w
    ensures ValueToBucket(v) <= ValueToBucket(w)
  {
    hide Msb, Pow2, ValueToBucket;
    if w >= 16 {
      var ow, qw := OctaveOf(w);
      if v >= 16 {
        var ov, qv := OctaveOf(v);
        MsbMonotone(v, w);
        if ov == ow { DivMonotone(v, w, Pow2(ov)); }
      } else {
        SmallBucket(v);
      }
    } else {
      SmallBucket(v);
      SmallBucket(w);
    }
  }

  lemma SmallBucket(v: nat)
    requires v < 16
    ensures ValueToBucket(v) == v && BucketToValue(v) == v
  {
  }

  lemma MsbMonotone(v: nat, w: nat)
    requires 0 < v <= w
    ensures Msb(v) <= Msb(w)
  {
    MsbBounds(v);
    MsbBounds(w);
    Pow2Gap(Msb(w), Msb(v));
  }

  lemma {:induction false} DivMonotone(v: nat, w: nat, p: nat)
    requires v <= w && p > 0
    ensures v / p <= w / p
  {
    assert v == v / p * p + v % p && w == w / p * p + w % p;
    NextMultiple(w / p, v / p, p);
  }

  // The middle of a sub-bucket lies within it, and within its octave.
  lemma Midpoint(q: nat, step: nat)
    requires 16 <= q < 32 && step > 0
    ensures 16 * step <= q * step <= q * step + step / 2 < (q + 1) * step <= 32 * step
  {
    assert (q + 1) * step == q * step + step;
    assert 16 * step <= q * step && (q + 1) * step <= 32 * step;
  }

  lemma BucketParts(octave: nat, q: nat)
    requires 16 <= q < 32
    ensures var b := 16 * octave + q; b >= 16 && (b - 16) / 16 == octave && (b - 16) % 16 == q - 16
  {
  }

  lemma {:induction false} MiddleOf(octave: nat, q: nat)
    requires 16 <= q < 32
    ensures BucketToValue(16 * octave + q) == q * Pow2(octave) + Pow2(octave) / 2
  {
    hide Pow2;
    BucketParts(octave, q);
    Pow2Sixteen(octave);
    var step := Pow2(octave);
    assert BucketToValue(16 * octave + q) == Pow2(octave + 4) + (q - 16) * step + step / 2;
    assert 16 * step + (q - 16) * step == q * step;
  }

  // The value of a bucket lies in the bucket.
  lemma BucketRoundTrip(b: nat)
    requires b < BUCKETS
    ensures ValueToBucket(BucketToValue(b)) == b
  {
    hide Msb, ValueToBucket, BucketToValue, Pow2;
    if b < 16 {
      SmallBucket(b);
    } else {
      var octave, q := (b - 16) / 16, 16 + (b - 16) % 16;
      var step, v := Pow2(octave), BucketToValue(b);
      assert b == 16 * octave + q;
      MiddleOf(octave, q);
      Midpoint(q, step);
      Pow2Sixteen(octave);
      MsbUnique(v, octave + 4);
      var o, r := OctaveOf(v);
      QuotientIs(v, step, q);
    }
  }

  lemma {:induction false} QuotientIs(v: nat, p: nat, q: nat)
    requires p > 0 && q * p <= v < (q + 1) * p
    ensures v / p == q
  {
    Quotient(v, p, q, q + 1);
  }

  lemma MiddleIsClose(v: nat, q: nat, step: nat)
    requires 16 <= q && q * step <= v < (q + 1) * step && (step == 1 || step % 2 == 0)
    ensures var r := q * step + step / 2; 32 * (if r >= v then r - v else v - r) <= v
  {
    assert (q + 1) * step == q * step + step;
    assert 16 * step <= q * step;
  }

  lemma {:induction false} Pow2Even(k: nat)
    ensures Pow2(k) == 1 || Pow2(k) % 2 == 0
  {
    if k > 0 { assert Pow2(k) == 2 * Pow2(k - 1); }
  }

  // Off by at most one part in 32.
  predicate Close(r: nat, v: nat) { 32 * (if r >= v then r - v else v - r) <= v }

  // So is the value reported for a sample.
  lemma RelativeError(v: nat)
    requires v < RANGE
    ensures var r := BucketToValue(ValueToBucket(v));
            Close(r, v)
  {
    hide Msb, ValueToBucket, BucketToValue, Pow2;
    if v < 16 {
      SmallBucket(v);
    } else {
      var octave, q := OctaveOf(v);
      InRange(v, octave);
      Pow2Even(octave);
      MiddleOf(octave, q);
      MiddleIsClose(v, q, Pow2(octave));
    }
  }

  lemma InRange(v: nat, octave: nat)
    requires 16 <= v < RANGE && Msb(v) == octave + 4
    ensures octave <= 32
  {
    if octave > 32 {
      MsbBounds(v);
      Pow2Mono(37, octave + 4);
      TwoTo37();
    }
  }

  lemma TwoTo37()
    ensures Pow2(37) == RANGE
  {
    assert Pow2(8) == 256;
    assert Pow2(16) == 65536;
    assert Pow2(24) == 16777216;
    assert Pow2(32) == 4294967296;
  }

  // ----- Counting samples -------------------------------------------------------------------------

  // How many samples fall into bucket b, and how many into the buckets below b.
  function CountIn(samples: seq<nat>, b: nat): nat {
    if samples == [] then 0
    else CountIn(samples[..|samples| - 1], b) + if ValueToBucket(samples[|samples| - 1]) == b then 1 else 0
  }

  function CountBelow(samples: seq<nat>, b: nat): nat {
    if b == 0 then 0 else CountBelow(samples, b - 1) + CountIn(samples, b - 1)
  }

  lemma {:induction false} CountSnoc(samples: seq<nat>, v: nat, b: nat)
    ensures CountIn(samples + [v], b) == CountIn(samples, b) + if ValueToBucket(v) == b then 1 else 0
  {
    assert (samples + [v])[..|samples + [v]| - 1] == samples;
  }

  lemma {:induction false} CountBelowSnoc(samples: seq<nat>, v: nat, b: nat)
    ensures CountBelow(samples + [v], b) == CountBelow(samples, b) + if ValueToBucket(v) < b then 1 else 0
  {
    hide ValueToBucket;
    if b > 0 {
      CountBelowSnoc(samples, v, b - 1);
      CountSnoc(samples, v, b - 1);
    }
  }

  lemma {:induction false} CountNone(b: nat)
    ensures CountBelow([], b) == 0
  {
    if b > 0 { CountNone(b - 1); }
  }

  lemma {:induction false} CountAll(samples: seq<nat>)
    ensures CountBelow(samples, BUCKETS) == |samples|
  {
    hide ValueToBucket, CountBelow;
    if samples == [] {
      CountNone(BUCKETS);
    } else {
      var p, v := samples[..|samples| - 1], samples[|samples| - 1];
      assert samples == p + [v];
      CountAll(p);
      CountBelowSnoc(p, v, BUCKETS);
      BucketInRange(v);
    }
  }

  lemma BucketInRange(v: nat)
    ensures ValueToBucket(v) < BUCKETS
  {
    hide ValueToBucket;
    if v < 16 {
      SmallBucket(v);
    } else {
      var octave, q := OctaveOf(v);
    }
  }

  lemma {:induction false} CountConcat(s: seq<nat>, t: seq<nat>, b: nat)
    ensures CountBelow(s + t, b) == CountBelow(s, b) + CountBelow(t, b)
    decreases |t|
  {
    hide ValueToBucket, CountBelow;
    if t == [] {
      assert s + t == s;
      CountNone(b);
    } else {
      var p, v := t[..|t| - 1], t[|t| - 1];
      assert t == p + [v] && s + t == s + p + [v];
      CountConcat(s, p, b);
      CountBelowSnoc(s + p, v, b);
      CountBelowSnoc(p, v, b);
    }
  }

  lemma RemoveAt(t: seq<nat>, i: nat)
    requires i < |t|
    ensures multiset(t[..i] + t[i + 1..]) == multiset(t) - multiset{t[i]}
  {
    assert t == t[..i] + ([t[i]] + t[i + 1..]);
  }

  // Counting does not depend on the order of the samples.
  lemma {:induction false} CountPermuted(s: seq<nat>, t: seq<nat>, b: nat)
    requires multiset(s) == multiset(t)
    ensures CountBelow(s, b) == CountBelow(t, b)
    decreases |s|
  {
    hide ValueToBucket, CountBelow;
    assert |s| == |multiset(s)| == |multiset(t)| == |t|;
    if s != [] {
      var n := |s| - 1;
      assert s[n] in multiset(t);
      var i :| 0 <= i < |t| && t[i] == s[n];
      RemoveAt(s, n);
      RemoveAt(t, i);
      assert s[..n] + s[n + 1..] == s[..n];
      CountPermuted(s[..n], t[..i] + t[i + 1..], b);
      CountOne(s, n, b);
      CountOne(t, i, b);
    }
  }

  lemma CountOne(t: seq<nat>, i: nat, b: nat)
    requires i < |t|
    ensures CountBelow(t, b) == CountBelow(t[..i] + t[i + 1..], b) + if ValueToBucket(t[i]) < b then 1 else 0
  {
    hide ValueToBucket, CountBelow;
    assert t == t[..i] + ([t[i]] + t[i + 1..]) && [] + [t[i]] == [t[i]];
    CountConcat(t[..i], [t[i]] + t[i + 1..], b);
    CountConcat([t[i]], t[i + 1..], b);
    CountConcat(t[..i], t[i + 1..], b);
    CountNone(b);
    CountBelowSnoc([], t[i], b);
  }

  ghost predicate Sorted(s: seq<nat>) {
    forall i, j :: 0 <= i < j < |s| ==> s[i] <= s[j]
  }

  // In sorted samples those below a bucket come first.
  lemma {:induction false} SortedCount(t: seq<nat>, b: nat, r: nat)
    requires Sorted(t) && r < |t|
    ensures r < CountBelow(t, b) <==> ValueToBucket(t[r]) < b
    decreases |t|
  {
    hide ValueToBucket, CountBelow;
    var p, v := t[..|t| - 1], t[|t| - 1];
    assert t == p + [v];
    CountBelowSnoc(p, v, b);
    CountAtMost(p, b);
    if r == |p| {
      if ValueToBucket(v) < b { AllBelow(p, b, v); }
    } else {
      SortedCount(p, b, r);
      if ValueToBucket(v) < b {
        BucketMonotone(t[r], v);
        AllBelow(p, b, v);
      }
    }
  }

  lemma {:induction false} CountAtMost(s: seq<nat>, b: nat)
    ensures CountBelow(s, b) <= |s|
  {
    hide ValueToBucket, CountBelow;
    if s == [] {
      CountNone(b);
    } else {
      CountAtMost(s[..|s| - 1], b);
      CountBelowSnoc(s[..|s| - 1], s[|s| - 1], b);
      assert s == s[..|s| - 1] + [s[|s| - 1]];
    }
  }

  lemma {:induction false} AllBelow(s: seq<nat>, b: nat, v: nat)
    requires ValueToBucket(v) < b && forall i :: 0 <= i < |s| ==> s[i] <= v
    ensures CountBelow(s, b) == |s|
  {
    hide ValueToBucket, CountBelow;
    if s == [] {
      CountNone(b);
    } else {
      var w := s[|s| - 1];
      BucketMonotone(w, v);
      AllBelow(s[..|s| - 1], b, v);
      CountBelowSnoc(s[..|s| - 1], w, b);
      assert s == s[..|s| - 1] + [w];
    }
  }

  // The bucket that holds the sample of rank r in sorted order.
  lemma RankIn(samples: seq<nat>, t: seq<nat>, b: nat, target: nat)
    requires Sorted(t) && multiset(t) == multiset(samples) && 1 <= target <= |samples|
    requires CountBelow(samples, b) < target <= CountBelow(samples, b + 1)
    ensures |t| == |samples| && ValueToBucket(t[target - 1]) == b
  {
    hide ValueToBucket, CountBelow;
    assert |t| == |multiset(t)| == |multiset(samples)| == |samples|;
    CountPermuted(samples, t, b);
    CountPermuted(samples, t, b + 1);
    SortedCount(t, b, target - 1);
    SortedCount(t, b + 1, target - 1);
  }

  lemma RankIsClose(samples: seq<nat>, t: seq<nat>, i: nat)
    requires multiset(t) == multiset(samples) && i < |t|
    ensures (forall v :: v in samples ==> v < RANGE) ==> Close(BucketToValue(ValueToBucket(t[i])), t[i])
  {
    hide BucketToValue, ValueToBucket, Close;
    assert t[i] in multiset(t) && t[i] in multiset(samples) && t[i] in samples;
    if t[i] < RANGE { RelativeError(t[i]); }
  }

  // ----- The histogram ----------------------------------------------------------------------------

  function Total(samples: seq<nat>): nat {
    if samples == [] then 0 else Total(samples[..|samples| - 1]) + samples[|samples| - 1]
  }

  // The first n buckets together.
  function Accumulated(buckets: seq<nat>, n: nat): nat
    requires n <= |buckets|
  {
    if n == 0 then 0 else Accumulated(buckets, n - 1) + buckets[n - 1]
  }

  lemma {:induction false} AccumulatedCounts(buckets: seq<nat>, samples: seq<nat>, n: nat)
    requires n <= |buckets| && forall b :: 0 <= b < |buckets| ==> buckets[b] == CountIn(samples, b)
    ensures Accumulated(buckets, n) == CountBelow(samples, n)
  {
    if n > 0 { AccumulatedCounts(buckets, samples, n - 1); }
  }

  // What the scan for a rank answers: the first bucket that brings the accumulated count up to it.
  ghost predicate Scanned(buckets: seq<nat>, target: nat, maxNs: nat, r: nat)
    requires |buckets| == BUCKETS
  {
    if Accumulated(buckets, BUCKETS) < target then r == maxNs
    else exists b :: 0 <= b < BUCKETS && FirstAt(buckets, target, b) && r == BucketToValue(b)
  }

  ghost predicate FirstAt(buckets: seq<nat>, target: nat, b: nat)
    requires b < |buckets| == BUCKETS
  {
    target <= Accumulated(buckets, b + 1) && forall c :: 0 < c <= b ==> Accumulated(buckets, c) < target
  }

  // No bucket is saturated, so the counts are exact and every rank is found.
  lemma ScanIsRank(buckets: seq<nat>, samples: seq<nat>, target: nat, maxNs: nat, r: nat, t: seq<nat>)
    requires |buckets| == BUCKETS && forall b :: 0 <= b < BUCKETS ==> buckets[b] == CountIn(samples, b)
    requires 1 <= target <= |samples| && Scanned(buckets, target, maxNs, r)
    requires Sorted(t) && multiset(t) == multiset(samples)
    ensures |t| == |samples| && r == BucketToValue(ValueToBucket(t[target - 1]))
  {
    hide BucketToValue, ValueToBucket, CountIn;
    AccumulatedCounts(buckets, samples, BUCKETS);
    CountAll(samples);
    var b :| 0 <= b < BUCKETS && FirstAt(buckets, target, b) && r == BucketToValue(b);
    AccumulatedCounts(buckets, samples, b);
    AccumulatedCounts(buckets, samples, b + 1);
    RankIn(samples, t, b, target);
  }

  class LatencyHistogram {
    const buckets: array<nat>
    var count: nat
    var minNs: nat
    var maxNs: nat
    var sumNs: nat

    ghost var samples: seq<nat>

    // Bucket counts saturate at 32 bits.
    ghost predicate Valid()
      reads this, buckets
    {
      && buckets.Length == BUCKETS
      && (forall b :: 0 <= b < BUCKETS ==> buckets[b] == Min(CountIn(samples, b), U32_MAX))
      && count == |samples| && sumNs == Total(samples)
      && (forall v :: v in samples ==> minNs <= v <= maxNs && v <= U64_MAX)
      && (if samples == [] then minNs == U64_MAX && maxNs == 0 else minNs in samples && maxNs in samples)
    }

    constructor ()
      ensures Valid() && samples == [] && fresh(buckets)
    {
      buckets := new nat[BUCKETS](_ => 0);
      count, minNs, maxNs, sumNs := 0, U64_MAX, 0, 0;
      samples := [];
    }

    method Record(nanos: nat)
      requires Valid() && nanos <= U64_MAX
      modifies this, buckets
      ensures Valid() && samples == old(samples) + [nanos]
    {
      hide ValueToBucket;
      ghost var before := samples;
      count := count + 1;
      sumNs := sumNs + nanos;
      if nanos < minNs {
        minNs := nanos;
      }
      if nanos > maxNs {
        maxNs := nanos;
      }
      BucketInRange(nanos);
      var bucket := ValueToBucket(nanos);
      buckets[bucket] := Min(buckets[bucket] + 1, U32_MAX);
      samples := samples + [nanos];
      assert samples[..|samples| - 1] == before;
      forall b | 0 <= b < BUCKETS ensures buckets[b] == Min(CountIn(samples, b), U32_MAX) {
        CountSnoc(before, nanos, b);
      }
    }

    // The percentile whose rank is `target`.
    method ValueAtRank(target: nat) returns (r: nat)
      requires Valid()
      ensures count == 0 ==> r == 0
      ensures count > 0 ==> Scanned(buckets[..], target, maxNs, r)
      ensures 1 <= target <= count && (forall b :: 0 <= b < BUCKETS ==> CountIn(samples, b) <= U32_MAX) ==>
                forall t: seq<nat> :: Sorted(t) && multiset(t) == multiset(samples) ==>
                  && |t| == |samples| && r == BucketToValue(ValueToBucket(t[target - 1]))
                  && ((forall v :: v in samples ==> v < RANGE) ==> Close(r, t[target - 1]))
    {
      hide BucketToValue, ValueToBucket, CountIn, Sorted, Close;
      if count == 0 {
        return 0;
      }
      r := maxNs;
      var accumulated := 0;
      var bucket := 0;
      ghost var found := false;
      while bucket < BUCKETS
        invariant 0 <= bucket <= BUCKETS && accumulated == Accumulated(buckets[..], bucket)
        invariant r == maxNs && forall c :: 0 < c <= bucket ==> Accumulated(buckets[..], c) < target
      {
        accumulated := accumulated + buckets[bucket];
        if accumulated >= target {
          r := BucketToValue(bucket);
          found := true;
          break;
        }
        bucket := bucket + 1;
      }
      if found {
        assert FirstAt(buckets[..], target, bucket);
        AccumulatedMono(buckets[..], bucket + 1, BUCKETS);
      }
      if 1 <= target <= count && forall b :: 0 <= b < BUCKETS ==> CountIn(samples, b) <= U32_MAX {
        forall t: seq<nat> | Sorted(t) && multiset(t) == multiset(samples)
          ensures |t| == |samples| && r == BucketToValue(ValueToBucket(t[target - 1]))
          ensures (forall v :: v in samples ==> v < RANGE) ==> Close(r, t[target - 1])
        {
          ScanIsRank(buckets[..], samples, target, maxNs, r, t);
          RankIsClose(samples, t, target - 1);
        }
      }
    }
  }

  lemma {:induction false} AccumulatedMono(buckets: seq<nat>, m: nat, n: nat)
    requires m <= n <= |buckets|
    ensures Accumulated(buckets, m) <= Accumulated(buckets, n)
  {
    if m < n { AccumulatedMono(buckets, m, n - 1); }
  }
}
