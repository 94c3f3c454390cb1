/** Size-bucketed latency histograms.  A histogram is the bag of the values it recorded; a set of
    histograms is shared storage, as the reference-counted vector of the source is. */
module Histograms {
  import opened Text

  type Hist = multiset<nat>

  type OpHists = array<Hist>

  const NUM_BUCKETS: nat := 9

  const BOUNDARIES: seq<nat> :=
    [0, 8 * 1024, 64 * 1024, 512 * 1024, 4 * 1024 * 1024, 32 * 1024 * 1024, 256 * 1024 * 1024, 2 * 1024 * 1024 * 1024, USIZE_MAX]

  /** The highest value a histogram keeps; recording a larger one fails and the failure is ignored. */
  const HIGHEST: nat := 3_600_000_000

  function BucketIndex(n: nat): nat {
    if n == 0 then 0
    else if n <= 8 * 1024 then 1
    else if n <= 64 * 1024 then 2
    else if n <= 512 * 1024 then 3
    else if n <= 4 * 1024 * 1024 then 4
    else if n <= 32 * 1024 * 1024 then 5
    else if n <= 256 * 1024 * 1024 then 6
    else if n <= 2 * 1024 * 1024 * 1024 then 7
    else 8
  }

  /** The cascade of comparisons is a search in the boundary table: the least bucket that fits. */
  lemma BucketIsLeast(n: usize, i: nat)
    requires i < NUM_BUCKETS
    ensures BucketIndex(n) < NUM_BUCKETS == |BOUNDARIES|
    ensures n <= BOUNDARIES[i] <==> BucketIndex(n) <= i
  {
    assert BOUNDARIES[0] == 0 && BOUNDARIES[8] == USIZE_MAX;
  }

  // === Bucketwise sum ===

  function At(h: seq<Hist>, i: nat): Hist {
    if i < |h| then h[i] else multiset{}
  }

  function Plus(a: seq<Hist>, b: seq<Hist>): (r: seq<Hist>)
    ensures |r| == if |a| < |b| then |b| else |a|
    ensures forall i: nat :: At(r, i) == At(a, i) + At(b, i)
  {
    seq(if |a| < |b| then |b| else |a|, i requires 0 <= i => At(a, i) + At(b, i))
  }

  lemma SameHists(a: seq<Hist>, b: seq<Hist>)
    requires |a| == |b| && forall i: nat :: At(a, i) == At(b, i)
    ensures a == b
  {
    assert forall i :: 0 <= i < |a| ==> a[i] == At(a, i) && b[i] == At(b, i);
  }

  lemma PlusCommutes(a: seq<Hist>, b: seq<Hist>)
    ensures Plus(a, b) == Plus(b, a)
  {
    hide Plus, At;
    SameHists(Plus(a, b), Plus(b, a));
  }

  lemma PlusAssociates(a: seq<Hist>, b: seq<Hist>, c: seq<Hist>)
    ensures Plus(Plus(a, b), c) == Plus(a, Plus(b, c))
  {
    hide Plus, At;
    SameHists(Plus(Plus(a, b), c), Plus(a, Plus(b, c)));
  }

  lemma PlusZero(a: seq<Hist>)
    ensures Plus([], a) == a && Plus(a, []) == a
  {
    SameHists(Plus([], a), a);
    SameHists(Plus(a, []), a);
  }

  function Empty(n: nat): seq<Hist> {
    seq(n, i => multiset{})
  }

  lemma PlusEmpty(a: seq<Hist>, n: nat)
    requires n <= |a|
    ensures Plus(Empty(n), a) == a
  {
    SameHists(Plus(Empty(n), a), a);
  }

  /** All buckets in one bag. */
  function Flat(h: seq<Hist>): Hist {
    if h == [] then multiset{} else Flat(h[..|h| - 1]) + h[|h| - 1]
  }

  lemma {:induction false} FlatPlus(a: seq<Hist>, b: seq<Hist>)
    requires |a| == |b|
    ensures Flat(Plus(a, b)) == Flat(a) + Flat(b)
  {
    if a != [] {
      var n := |a| - 1;
      FlatPlus(a[..n], b[..n]);
      var sum := Plus(a, b);
      assert sum[n] == At(sum, n) == a[n] + b[n];
      forall i: nat
        ensures At(sum[..n], i) == At(Plus(a[..n], b[..n]), i)
      {
        assert At(sum, i) == At(a, i) + At(b, i);
      }
      SameHists(sum[..n], Plus(a[..n], b[..n]));
    }
  }

  // === Storage ===

  method NewHists(n: nat) returns (h: OpHists)
    ensures fresh(h) && h[..] == Empty(n)
  {
    h := new Hist[n](i => multiset{});
  }

  /** `record`: an out-of-range value is dropped. */
  method Record(h: OpHists, sample: Sample)
    requires h.Length == NUM_BUCKETS
    modifies h
    ensures h[..] == Recorded(old(h[..]), [sample])
  {
    var bucket := BucketIndex(sample.size);
    if sample.micros <= HIGHEST {
      h[bucket] := h[bucket] + multiset{sample.micros};
    }
    assert Recorded(old(h[..]), [sample][..0]) == old(h[..]);
  }

  /** `merge`, and the per-bucket loops of the summary mergers.  Merging a set of histograms into
      itself would lock each bucket twice. */
  method AddInto(target: OpHists, source: OpHists)
    requires target != source && source.Length <= target.Length
    modifies target
    ensures target[..] == Plus(old(target[..]), source[..])
  {
    ghost var was := target[..];
    for i := 0 to source.Length
      invariant forall k :: 0 <= k < target.Length ==> target[k] == if k < i then was[k] + source[k] else was[k]
    {
      target[i] := target[i] + source[i];
    }
    var sum := Plus(was, source[..]);
    forall k | 0 <= k < target.Length
      ensures target[k] == sum[k]
    {
      assert sum[k] == At(sum, k);
    }
  }

  /** The same with a source that is a list of deserialized histograms. */
  method AddList(target: OpHists, source: seq<Hist>) returns (ok: bool)
    modifies target
    ensures ok <==> |source| <= target.Length
    ensures ok ==> target[..] == Plus(old(target[..]), source)
  {
    ghost var was := target[..];
    for i := 0 to |source|
      invariant i <= target.Length
      invariant forall k :: 0 <= k < target.Length ==> target[k] == if k < i then was[k] + source[k] else was[k]
    {
      if i >= target.Length {
        return false;
      }
      target[i] := target[i] + source[i];
    }
    var sum := Plus(was, source);
    forall k | 0 <= k < target.Length
      ensures target[k] == sum[k]
    {
      assert sum[k] == At(sum, k);
    }
    ok := true;
  }

  method CombinedHistogram(h: OpHists) returns (combined: Hist)
    ensures combined == Flat(h[..])
    ensures forall samples: seq<Sample>, v: nat :: h[..] == Recorded(Empty(NUM_BUCKETS), samples) ==> combined[v] == CountLatency(samples, v)
  {
    combined := multiset{};
    for i := 0 to h.Length
      invariant combined == Flat(h[..i])
    {
      assert h[..i + 1][..i] == h[..i];
      combined := combined + h[i];
    }
    assert h[..h.Length] == h[..];
    forall samples: seq<Sample>, v: nat | h[..] == Recorded(Empty(NUM_BUCKETS), samples)
      ensures combined[v] == CountLatency(samples, v)
    {
      FlatIsExact(samples, v);
    }
  }

  /** How often a latency was recorded, whatever the size; out-of-range ones are not. */
  function CountLatency(samples: seq<Sample>, v: nat): nat {
    if samples == [] then 0
    else CountLatency(samples[..|samples| - 1], v) + if samples[|samples| - 1].micros == v && v <= 3_600_000_000 then 1 else 0
  }

  lemma {:induction false} FlatOfOne(h: seq<Hist>, i: nat, v: nat)
    requires i < |h|
    ensures Flat(h[i := h[i] + multiset{v}]) == Flat(h) + multiset{v}
    decreases |h|
  {
    var n := |h| - 1;
    var g := h[i := h[i] + multiset{v}];
    if i < n {
      FlatOfOne(h[..n], i, v);
      assert g[..n] == h[..n][i := h[..n][i] + multiset{v}];
    } else {
      assert g[..n] == h[..n];
    }
  }

  lemma {:induction false} FlatOfNone(n: nat)
    ensures Flat(Empty(n)) == multiset{}
  {
    if n > 0 {
      FlatOfNone(n - 1);
      assert Empty(n)[..n - 1] == Empty(n - 1);
    }
  }

  /** The combined histogram holds each latency as often as it was recorded. */
  lemma {:induction false} FlatIsExact(samples: seq<Sample>, v: nat)
    ensures Flat(Recorded(Empty(NUM_BUCKETS), samples))[v] == CountLatency(samples, v)
    decreases |samples|
  {
    if samples == [] {
      FlatOfNone(NUM_BUCKETS);
    } else {
      var front, s := samples[..|samples| - 1], samples[|samples| - 1];
      FlatIsExact(front, v);
      var before := Recorded(Empty(NUM_BUCKETS), front);
      if s.micros <= HIGHEST {
        FlatOfOne(before, BucketIndex(s.size), s.micros);
      }
      hide BucketIndex, Flat;
    }
  }

  // === Sharded recording ===

  datatype Sample = Sample(size: usize, micros: nat)

  function Recorded(h: seq<Hist>, samples: seq<Sample>): (r: seq<Hist>)
    requires |h| == NUM_BUCKETS
    ensures |r| == NUM_BUCKETS
  {
    if samples == [] then h
    else
      var before, s := Recorded(h, samples[..|samples| - 1]), samples[|samples| - 1];
      if s.micros <= HIGHEST then before[BucketIndex(s.size) := before[BucketIndex(s.size)] + multiset{s.micros}] else before
  }

  predicate Lands(s: Sample, bucket: nat, v: nat) {
    v <= HIGHEST && s.micros == v && bucket < NUM_BUCKETS && s.size <= BOUNDARIES[bucket] && (bucket == 0 || BOUNDARIES[bucket - 1] < s.size)
  }

  function CountLanding(samples: seq<Sample>, bucket: nat, v: nat): nat {
    if samples == [] then 0
    else CountLanding(samples[..|samples| - 1], bucket, v) + if Lands(samples[|samples| - 1], bucket, v) then 1 else 0
  }

  /** A bucket holds a value as often as a sample of that latency and of a size in the bucket's
      interval of the boundary table was recorded. */
  lemma {:induction false} RecordedIsExact(samples: seq<Sample>, bucket: nat, v: nat)
    requires bucket < NUM_BUCKETS
    ensures Recorded(Empty(NUM_BUCKETS), samples)[bucket][v] == CountLanding(samples, bucket, v)
    decreases |samples|
  {
    if samples != [] {
      var s := samples[|samples| - 1];
      RecordedIsExact(samples[..|samples| - 1], bucket, v);
      LandsIff(s, bucket, v);
      hide Lands, BucketIndex;
    }
  }

  lemma LandsIff(s: Sample, bucket: nat, v: nat)
    requires bucket < NUM_BUCKETS
    ensures Lands(s, bucket, v) <==> v <= HIGHEST && s.micros == v && BucketIndex(s.size) == bucket
  {
    BucketIsLeast(s.size, bucket);
    if bucket > 0 {
      BucketIsLeast(s.size, bucket - 1);
    }
    hide BucketIndex;
  }

  lemma {:induction false} RecordedConcat(a: seq<Sample>, b: seq<Sample>)
    ensures Recorded(Empty(NUM_BUCKETS), a + b) == Plus(Recorded(Empty(NUM_BUCKETS), a), Recorded(Empty(NUM_BUCKETS), b))
    decreases |b|
  {
    hide Plus, At;
    var zero := Empty(NUM_BUCKETS);
    if b == [] {
      assert a + b == a;
      PlusCommutes(Recorded(zero, a), zero);
      PlusEmpty(Recorded(zero, a), NUM_BUCKETS);
    } else {
      var front, s := b[..|b| - 1], b[|b| - 1];
      assert (a + b)[..|a + b| - 1] == a + front;
      RecordedConcat(a, front);
      if s.micros <= HIGHEST {
        PlusUpdate(Recorded(zero, a), Recorded(zero, front), BucketIndex(s.size), s.micros);
      }
    }
  }

  lemma PlusUpdate(a: seq<Hist>, b: seq<Hist>, i: nat, v: nat)
    requires |a| == |b| && i < |b|
    ensures Plus(a, b)[i := Plus(a, b)[i] + multiset{v}] == Plus(a, b[i := b[i] + multiset{v}])
  {
    var x, y := Plus(a, b)[i := Plus(a, b)[i] + multiset{v}], Plus(a, b[i := b[i] + multiset{v}]);
    forall k | 0 <= k < |a|
      ensures x[k] == y[k]
    {
      assert y[k] == At(y, k) && Plus(a, b)[k] == At(Plus(a, b), k);
    }
  }

  function Concat(shards: seq<seq<Sample>>): seq<Sample> {
    if shards == [] then [] else Concat(shards[..|shards| - 1]) + shards[|shards| - 1]
  }

  /** Each shard recorded on its own, then merged into one. */
  function Merged(shards: seq<seq<Sample>>): (r: seq<Hist>) {
    if shards == [] then Empty(NUM_BUCKETS)
    else Plus(Merged(shards[..|shards| - 1]), Recorded(Empty(NUM_BUCKETS), shards[|shards| - 1]))
  }

  /** Recording in shards and merging is recording everything in one. */
  lemma {:induction false} ShardingRefines(shards: seq<seq<Sample>>)
    ensures Merged(shards) == Recorded(Empty(NUM_BUCKETS), Concat(shards))
  {
    if shards != [] {
      var front, last := shards[..|shards| - 1], shards[|shards| - 1];
      ShardingRefines(front);
      RecordedConcat(Concat(front), last);
      hide Plus;
    }
  }

  /** Only the bag of samples matters: threads may interleave their recordings in any way. */
  lemma RecordingCommutes(a: seq<Sample>, b: seq<Sample>)
    requires multiset(a) == multiset(b)
    ensures Recorded(Empty(NUM_BUCKETS), a) == Recorded(Empty(NUM_BUCKETS), b)
  {
    var x, y := Recorded(Empty(NUM_BUCKETS), a), Recorded(Empty(NUM_BUCKETS), b);
    forall i | 0 <= i < NUM_BUCKETS
      ensures x[i] == y[i]
    {
      forall v: nat
        ensures x[i][v] == y[i][v]
      {
        RecordedIsExact(a, i, v);
        RecordedIsExact(b, i, v);
        CountIsOfBag(a, i, v);
        CountIsOfBag(b, i, v);
      }
    }
  }

  lemma {:induction false} CountIsOfBag(samples: seq<Sample>, bucket: nat, v: nat)
    ensures CountLanding(samples, bucket, v) == |LandingBag(multiset(samples), bucket, v)|
    decreases |samples|
  {
    hide Lands;
    if samples == [] {
      assert LandingBag(multiset(samples), bucket, v) == multiset{};
    } else {
      var front, s := samples[..|samples| - 1], samples[|samples| - 1];
      CountIsOfBag(front, bucket, v);
      assert samples == front + [s];
      LandingBagSnoc(multiset(front), s, bucket, v);
    }
  }

  lemma LandingBagSnoc(bag: multiset<Sample>, s: Sample, bucket: nat, v: nat)
    ensures LandingBag(bag + multiset{s}, bucket, v) == LandingBag(bag, bucket, v) + if Lands(s, bucket, v) then multiset{s} else multiset{}
  {
    hide LandingBag, Lands;
  }

  ghost function LandingBag(bag: multiset<Sample>, bucket: nat, v: nat): (r: multiset<Sample>)
    ensures forall s :: r[s] == if Lands(s, bucket, v) then bag[s] else 0
    decreases |bag|
  {
    if bag == multiset{} then multiset{}
    else
      var s :| s in bag;
      var rest := LandingBag(bag[s := 0], bucket, v);
      if Lands(s, bucket, v) then rest[s := bag[s]] else rest
  }
}
