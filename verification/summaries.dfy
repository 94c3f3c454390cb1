/** Splitting a run over workers and merging what they report, in one process and over several. */
module Summaries {
  import opened Text
  import opened Arithmetic
  import opened Histograms
  import opened Sequences

  // === Splitting the concurrency ===

  function Sum(parts: seq<nat>): nat {
    if parts == [] then 0 else Sum(parts[..|parts| - 1]) + parts[|parts| - 1]
  }

  /** The worker threads that are spawned, each with its concurrency; workers that would get 0 are
      skipped. */
  method SpawnWorkers(concurrency: nat, workers: nat) returns (handles: seq<nat>)
    requires workers >= 2
    ensures Sum(handles) == concurrency
    ensures |handles| == if concurrency < workers then concurrency else workers
    ensures forall i :: 0 <= i < |handles| ==> handles[i] > 0
    ensures forall i, j :: 0 <= i < j < |handles| ==> handles[j] <= handles[i] <= handles[j] + 1
  {
    hide Sum, Given;
    var base, remainder := concurrency / workers, concurrency % workers;
    GivenAll(concurrency, workers);
    handles := [];
    for id := 0 to workers
      invariant |handles| == if base > 0 || id < remainder then id else remainder
      invariant Sum(handles) == Given(id, base, remainder)
      invariant forall i :: 0 <= i < |handles| ==> handles[i] == if i < remainder then base + 1 else base
    {
      var share := if id < remainder then base + 1 else base;
      GivenStep(id, base, remainder);
      if share == 0 {
        continue;
      }
      SumSnoc(handles, share);
      handles := handles + [share];
    }
  }

  /** What the first `id` workers get. */
  function Given(id: nat, base: nat, remainder: nat): nat {
    id * base + if id < remainder then id else remainder
  }

  lemma GivenStep(id: nat, base: nat, remainder: nat)
    ensures Given(id + 1, base, remainder) == Given(id, base, remainder) + if id < remainder then base + 1 else base
  {
    Distribute(id + 1, id, base);
  }

  lemma GivenAll(concurrency: nat, workers: nat)
    requires workers >= 1
    ensures Given(workers, concurrency / workers, concurrency % workers) == concurrency
    ensures Given(0, concurrency / workers, concurrency % workers) == Sum([])
    ensures concurrency / workers == 0 <==> concurrency < workers
    ensures concurrency / workers == 0 ==> concurrency % workers == concurrency
    ensures concurrency % workers < workers
  {
    DivMod(concurrency, workers);
  }

  lemma SumSnoc(parts: seq<nat>, x: nat)
    ensures Sum(parts + [x]) == Sum(parts) + x
  {
    assert (parts + [x])[..|parts|] == parts;
  }

  /** Over processes every child gets the rounded-up share, so together they may exceed the
      configured total, by less than one per process, and by nothing exactly when it divides. */
  lemma ProcessSplit(concurrency: nat, processes: nat)
    requires processes >= 1
    ensures var share := (concurrency + processes - 1) / processes;
            && concurrency <= share * processes < concurrency + processes
            && (share * processes == concurrency <==> concurrency % processes == 0)
  {
    var share := (concurrency + processes - 1) / processes;
    var q, r := concurrency / processes, concurrency % processes;
    assert concurrency == q * processes + r;
    if r == 0 {
      DivUnique(concurrency + processes - 1, processes, q, processes - 1);
    } else {
      assert (q + 1) * processes == q * processes + processes;
      DivUnique(concurrency + processes - 1, processes, q + 1, r - 1);
    }
  }

  // === Size bins ===

  type Bins = map<nat, (nat, nat)>

  function BinAt(bins: Bins, k: nat): (nat, nat) {
    if k in bins then bins[k] else (0, 0)
  }

  function BinsPlus(a: Bins, b: Bins): (r: Bins)
    ensures r.Keys == a.Keys + b.Keys
    ensures forall k :: BinAt(r, k) == (BinAt(a, k).0 + BinAt(b, k).0, BinAt(a, k).1 + BinAt(b, k).1)
  {
    map k | k in a.Keys + b.Keys :: (BinAt(a, k).0 + BinAt(b, k).0, BinAt(a, k).1 + BinAt(b, k).1)
  }

  lemma SameBins(a: Bins, b: Bins)
    requires a.Keys == b.Keys && forall k :: BinAt(a, k) == BinAt(b, k)
    ensures a == b
  {
    assert forall k :: k in a ==> a[k] == BinAt(a, k) && b[k] == BinAt(b, k);
  }

  /** `merge_from`: the other bins' entries in whatever order the hash map yields them. */
  method MergeFrom(bins: Bins, other: Bins) returns (r: Bins)
    ensures r == BinsPlus(bins, other)
  {
    hide BinsPlus;
    r := bins;
    var rest := other.Keys;
    while rest != {}
      invariant rest <= other.Keys
      invariant r.Keys == bins.Keys + (other.Keys - rest)
      invariant forall k :: BinAt(r, k) == if k in rest then BinAt(bins, k) else BinAt(BinsPlus(bins, other), k)
      decreases rest
    {
      var k :| k in rest;
      var e := BinAt(r, k);
      r := r[k := (e.0 + other[k].0, e.1 + other[k].1)];
      rest := rest - {k};
    }
    SameBins(r, BinsPlus(bins, other));
  }

  // === What is merged ===

  type Seconds = x: real | x >= 0.0

  /** Counts, size bins and histograms of one kind of operation, as values. */
  datatype Part = Part(ops: nat, bins: Bins, hists: seq<Hist>)

  /** The part of a summary that merging accounts for, as a value. */
  datatype Totals = Totals(wall: Seconds, bytes: nat, ops: nat, getBytes: nat, putBytes: nat, get: Part, put: Part, meta: Part)

  const NOTHING := Part(0, map[], [])

  const ZERO := Totals(0.0, 0, 0, 0, 0, NOTHING, NOTHING, NOTHING)

  function PartPlus(a: Part, b: Part): Part {
    Part(a.ops + b.ops, BinsPlus(a.bins, b.bins), Plus(a.hists, b.hists))
  }

  function Longer(a: Seconds, b: Seconds): Seconds {
    if a < b then b else a
  }

  function Combine(a: Totals, b: Totals): Totals {
    Totals(Longer(a.wall, b.wall), a.bytes + b.bytes, a.ops + b.ops, a.getBytes + b.getBytes, a.putBytes + b.putBytes,
           PartPlus(a.get, b.get), PartPlus(a.put, b.put), PartPlus(a.meta, b.meta))
  }

  function MergeAll(ts: seq<Totals>): Totals {
    if ts == [] then ZERO else Combine(MergeAll(ts[..|ts| - 1]), ts[|ts| - 1])
  }

  lemma PartCommutes(a: Part, b: Part)
    ensures PartPlus(a, b) == PartPlus(b, a)
  {
    hide Plus, BinsPlus, BinAt;
    PlusCommutes(a.hists, b.hists);
    SameBins(BinsPlus(a.bins, b.bins), BinsPlus(b.bins, a.bins));
  }

  lemma PartAssociates(a: Part, b: Part, c: Part)
    ensures PartPlus(PartPlus(a, b), c) == PartPlus(a, PartPlus(b, c))
  {
    hide Plus, BinsPlus, BinAt;
    PlusAssociates(a.hists, b.hists, c.hists);
    SameBins(BinsPlus(BinsPlus(a.bins, b.bins), c.bins), BinsPlus(a.bins, BinsPlus(b.bins, c.bins)));
  }

  lemma PartZero(p: Part)
    ensures PartPlus(NOTHING, p) == p
  {
    PlusZero(p.hists);
    SameBins(BinsPlus(map[], p.bins), p.bins);
  }

  lemma CombineCommutes(a: Totals, b: Totals)
    ensures Combine(a, b) == Combine(b, a)
  {
    hide PartPlus;
    PartCommutes(a.get, b.get);
    PartCommutes(a.put, b.put);
    PartCommutes(a.meta, b.meta);
  }

  lemma CombineAssociates(a: Totals, b: Totals, c: Totals)
    ensures Combine(Combine(a, b), c) == Combine(a, Combine(b, c))
  {
    hide PartPlus;
    PartAssociates(a.get, b.get, c.get);
    PartAssociates(a.put, b.put, c.put);
    PartAssociates(a.meta, b.meta, c.meta);
  }

  lemma CombineZero(t: Totals)
    ensures Combine(ZERO, t) == t
  {
    hide PartPlus;
    PartZero(t.get);
    PartZero(t.put);
    PartZero(t.meta);
  }

  /** Any summary can be taken out of the sequence and merged last. */
  lemma {:induction false} MergeLast(ts: seq<Totals>, i: nat)
    requires i < |ts|
    ensures MergeAll(ts) == Combine(MergeAll(ts[..i] + ts[i + 1..]), ts[i])
    decreases |ts|
  {
    hide Combine;
    var n := |ts| - 1;
    if i == n {
      assert ts[..i] + ts[i + 1..] == ts[..n];
    } else {
      var without := ts[..i] + ts[i + 1..];
      MergeLast(ts[..n], i);
      assert ts[..n][..i] + ts[..n][i + 1..] == without[..|without| - 1];
      var rest := MergeAll(without[..|without| - 1]);
      CombineAssociates(rest, ts[i], ts[n]);
      CombineCommutes(ts[i], ts[n]);
      CombineAssociates(rest, ts[n], ts[i]);
    }
  }

  /** Results merge the same in every arrival order. */
  lemma {:induction false} ArrivalOrderIrrelevant(a: seq<Totals>, b: seq<Totals>)
    requires multiset(a) == multiset(b)
    ensures MergeAll(a) == MergeAll(b)
    decreases |a|
  {
    hide Combine;
    assert |a| == |multiset(a)| == |multiset(b)| == |b|;
    if a != [] {
      var i := FindLast(a, b);
      ArrivalOrderIrrelevant(a[..|a| - 1], b[..i] + b[i + 1..]);
      MergeLast(b, i);
    }
  }

  // === The reference: every counter on its own is a plain sum ===

  datatype Op = Get | Put | Meta

  datatype Field =
    | TotalBytes | TotalOps | GetBytes | PutBytes | Ops(op: Op)
    | BinOps(op: Op, bucket: nat) | BinBytes(op: Op, bucket: nat) | HistCount(op: Op, bucket: nat, micros: nat)

  function PartOf(t: Totals, op: Op): Part {
    match op case Get => t.get case Put => t.put case Meta => t.meta
  }

  function Read(t: Totals, f: Field): nat {
    match f
    case TotalBytes => t.bytes
    case TotalOps => t.ops
    case GetBytes => t.getBytes
    case PutBytes => t.putBytes
    case Ops(op) => PartOf(t, op).ops
    case BinOps(op, b) => BinAt(PartOf(t, op).bins, b).0
    case BinBytes(op, b) => BinAt(PartOf(t, op).bins, b).1
    case HistCount(op, b, v) => At(PartOf(t, op).hists, b)[v]
  }

  function SumOf(ts: seq<Totals>, f: Field): nat {
    if ts == [] then 0 else SumOf(ts[..|ts| - 1], f) + Read(ts[|ts| - 1], f)
  }

  lemma ReadCombine(a: Totals, b: Totals, f: Field)
    ensures Read(Combine(a, b), f) == Read(a, f) + Read(b, f)
  {
    hide Plus, At, BinsPlus, BinAt;
  }

  /** Nothing is counted twice or lost: each counter, bin and histogram cell is the sum over the
      workers, and the wall time is their maximum. */
  lemma {:induction false} MergeIsSum(ts: seq<Totals>, f: Field)
    ensures Read(MergeAll(ts), f) == SumOf(ts, f)
  {
    hide Combine;
    if ts != [] {
      MergeIsSum(ts[..|ts| - 1], f);
      ReadCombine(MergeAll(ts[..|ts| - 1]), ts[|ts| - 1], f);
    }
    hide Read;
  }

  lemma WallStep(ts: seq<Totals>)
    requires ts != []
    ensures MergeAll(ts).wall == Longer(MergeAll(ts[..|ts| - 1]).wall, ts[|ts| - 1].wall)
  {
    hide PartPlus;
  }

  lemma {:induction false} WallBounds(ts: seq<Totals>, i: nat)
    requires i < |ts|
    ensures ts[i].wall <= MergeAll(ts).wall
    decreases |ts|
  {
    hide MergeAll;
    var n := |ts| - 1;
    WallStep(ts);
    if i < n {
      WallBounds(ts[..n], i);
      assert ts[..n][i] == ts[i];
    }
  }

  /** The merged wall time is that of the longest worker. */
  lemma {:induction false} WallIsLongest(ts: seq<Totals>) returns (longest: nat)
    requires ts != []
    ensures longest < |ts| && MergeAll(ts).wall == ts[longest].wall
    ensures forall i :: 0 <= i < |ts| ==> ts[i].wall <= ts[longest].wall
  {
    longest := WallAttained(ts);
    forall i | 0 <= i < |ts|
      ensures ts[i].wall <= ts[longest].wall
    {
      WallBounds(ts, i);
    }
  }

  lemma {:induction false} WallAttained(ts: seq<Totals>) returns (longest: nat)
    requires ts != []
    ensures longest < |ts| && MergeAll(ts).wall == ts[longest].wall
    decreases |ts|
  {
    var n := |ts| - 1;
    WallStep(ts);
    assert n == 0 ==> MergeAll(ts[..n]).wall == 0.0;
    hide MergeAll;
    longest := n;
    if n > 0 && MergeAll(ts[..n]).wall > ts[n].wall {
      longest := WallAttained(ts[..n]);
    }
  }

  // === In one process: summaries share their histogram storage when cloned ===

  /** Counters, bins and histograms of one kind of operation; the histograms are shared storage. */
  datatype OpSummary = OpSummary(bytes: nat, ops: nat, bins: Bins, hists: OpHists)

  datatype Summary = Summary(
    wall: Seconds, totalBytes: nat, totalOps: nat, get: OpSummary, put: OpSummary, meta: OpSummary, totalErrors: nat)

  function Storage(s: Summary): set<OpHists> {
    {s.get.hists, s.put.hists, s.meta.hists}
  }

  function AllStorage(ss: seq<Summary>): set<OpHists> {
    if ss == [] then {} else AllStorage(ss[..|ss| - 1]) + Storage(ss[|ss| - 1])
  }

  function PartView(p: OpSummary): Part
    reads p.hists
  {
    Part(p.ops, p.bins, p.hists[..])
  }

  function View(s: Summary): Totals
    reads Storage(s)
  {
    Totals(s.wall, s.totalBytes, s.totalOps, s.get.bytes, s.put.bytes, PartView(s.get), PartView(s.put), PartView(s.meta))
  }

  function Views(ss: seq<Summary>): (r: seq<Totals>)
    reads AllStorage(ss)
    ensures |r| == |ss|
    ensures forall i :: 0 <= i < |ss| ==> Storage(ss[i]) <= AllStorage(ss) && r[i] == View(ss[i])
  {
    if ss == [] then [] else Views(ss[..|ss| - 1]) + [View(ss[|ss| - 1])]
  }

  /** A counter, bin or histogram cell of a summary, read off its own fields. */
  function FieldOf(s: Summary, f: Field): nat
    reads Storage(s)
  {
    match f
    case TotalBytes => s.totalBytes
    case TotalOps => s.totalOps
    case GetBytes => s.get.bytes
    case PutBytes => s.put.bytes
    case Ops(op) => OpOf(s, op).ops
    case BinOps(op, b) => BinAt(OpOf(s, op).bins, b).0
    case BinBytes(op, b) => BinAt(OpOf(s, op).bins, b).1
    case HistCount(op, b, v) => if b < OpOf(s, op).hists.Length then OpOf(s, op).hists[b][v] else 0
  }

  function OpOf(s: Summary, op: Op): (r: OpSummary)
    ensures r.hists in Storage(s)
  {
    match op case Get => s.get case Put => s.put case Meta => s.meta
  }

  /** The abstract value of a summary drops and mixes up nothing. */
  lemma ViewIsFaithful(s: Summary, f: Field)
    ensures Read(View(s), f) == FieldOf(s, f) && View(s).wall == s.wall
  {}

  predicate ThreeDistinct(s: Summary) {
    s.get.hists != s.put.hists && s.put.hists != s.meta.hists && s.get.hists != s.meta.hists
  }

  /** Each worker has its own nine-bucket histograms for each kind of operation. */
  ghost predicate OwnStorage(ss: seq<Summary>)
    reads AllStorage(ss)
  {
    && (forall i :: 0 <= i < |ss| ==> ThreeDistinct(ss[i]))
    && (forall i, j :: 0 <= i < j < |ss| ==> Storage(ss[i]) !! Storage(ss[j]))
    && (forall h :: h in AllStorage(ss) ==> h.Length == NUM_BUCKETS)
  }

  /** The storage of the first summary is not that of the others, and theirs keeps its values when
      only the first one's changes. */
  lemma OthersApart(ss: seq<Summary>, i: nat)
    requires OwnStorage(ss) && 0 < i < |ss|
    ensures Storage(ss[0]) !! Storage(ss[i])
    ensures ThreeDistinct(ss[0])
    ensures forall h :: h in Storage(ss[0]) + Storage(ss[i]) ==> h.Length == NUM_BUCKETS
  {
    var views := Views(ss);
  }

  // === The combined histograms, and the latencies they refuse ===

  /** The highest value the histograms behind the recalculated percentiles keep.  Adding a histogram
      that holds a larger one is refused, and the refusal is the result of the merge. */
  const COMBINED_HIGHEST: nat := 60_000_000

  predicate Exceeds(h: Hist) {
    exists v :: v in h && v > COMBINED_HIGHEST
  }

  function NonEmpty(hists: seq<Hist>): seq<Hist> {
    if hists == [] then []
    else
      var last := hists[|hists| - 1];
      NonEmpty(hists[..|hists| - 1]) + if last == multiset{} then [] else [last]
  }

  method CollectNonEmpty(all: seq<Hist>, hists: OpHists) returns (r: seq<Hist>)
    ensures r == all + NonEmpty(hists[..])
  {
    r := all;
    for i := 0 to hists.Length
      invariant r == all + NonEmpty(hists[..i])
    {
      assert hists[..i + 1][..i] == hists[..i];
      if hists[i] != multiset{} {
        r := r + [hists[i]];
      }
    }
    assert hists[..hists.Length] == hists[..];
  }

  /** Adds one histogram after the other; `None` when one is refused. */
  method AddAll(hists: seq<Hist>) returns (combined: Option<Hist>)
    ensures combined.None? <==> exists i :: 0 <= i < |hists| && Exceeds(hists[i])
    ensures combined.Some? ==> combined.value == Flat(hists)
  {
    var sum: Hist := multiset{};
    for i := 0 to |hists|
      invariant forall k :: 0 <= k < i ==> !Exceeds(hists[k])
      invariant sum == Flat(hists[..i])
    {
      assert hists[..i + 1][..i] == hists[..i];
      if Exceeds(hists[i]) {
        return None;
      }
      sum := sum + hists[i];
    }
    assert hists[..|hists|] == hists;
    combined := Some(sum);
  }

  predicate AnyExceeds(hists: seq<Hist>) {
    exists i :: 0 <= i < |hists| && Exceeds(hists[i])
  }

  lemma {:induction false} NonEmptyKeeps(hists: seq<Hist>)
    ensures AnyExceeds(NonEmpty(hists)) <==> AnyExceeds(hists)
    ensures Flat(NonEmpty(hists)) == Flat(hists)
  {
    if hists != [] {
      var n := |hists| - 1;
      var front, last := NonEmpty(hists[..n]), hists[n];
      NonEmptyKeeps(hists[..n]);
      AnyExceedsConcat(hists[..n], [last]);
      AnyExceedsConcat(front, [last]);
      assert hists == hists[..n] + [last];
      assert [last][0] == last;
      assert (front + [last])[..|front|] == front;
      assert front + [] == front;
    }
  }

  lemma AnyExceedsConcat(a: seq<Hist>, b: seq<Hist>)
    ensures AnyExceeds(a + b) <==> AnyExceeds(a) || AnyExceeds(b)
  {
    hide Exceeds;
    if i :| 0 <= i < |a| && Exceeds(a[i]) {
      assert Exceeds((a + b)[i]);
    }
    if i :| 0 <= i < |b| && Exceeds(b[i]) {
      assert Exceeds((a + b)[|a| + i]);
    }
  }

  lemma {:induction false} FlatConcat(a: seq<Hist>, b: seq<Hist>)
    ensures Flat(a + b) == Flat(a) + Flat(b)
    decreases |b|
  {
    if b == [] {
      assert a + b == a;
    } else {
      assert (a + b)[..|a + b| - 1] == a + b[..|b| - 1];
      FlatConcat(a, b[..|b| - 1]);
    }
  }

  /** Some GET, PUT or metadata bucket holds a latency above the combined bound. */
  predicate Slow(t: Totals) {
    AnyExceeds(t.get.hists) || AnyExceeds(t.put.hists) || AnyExceeds(t.meta.hists)
  }

  /** The histograms the recalculated percentiles are read from; absent ones are empty. */
  datatype Combined = Combined(overall: Hist, get: Hist, put: Hist, meta: Hist)

  function FlatIfAny(p: Part): Hist {
    if p.ops > 0 then Flat(p.hists) else multiset{}
  }

  /** `recalculate_percentiles` up to the histograms it reads. */
  method RecalculatePercentiles(s: Summary) returns (r: Option<Combined>)
    ensures r.None? <==> Slow(View(s))
    ensures r.Some? ==>
              var t := View(s);
              r.value == Combined(Flat(t.get.hists) + Flat(t.put.hists) + Flat(t.meta.hists), FlatIfAny(t.get), FlatIfAny(t.put), FlatIfAny(t.meta))
    ensures r.Some? ==> forall get: seq<Sample>, put: seq<Sample>, meta: seq<Sample> :: Holds(View(s), get, put, meta) ==> Exact(r.value, get, put, meta)
  {
    hide Exceeds, Flat, AnyExceeds, NonEmpty;
    var all := CollectNonEmpty([], s.get.hists);
    all := CollectNonEmpty(all, s.put.hists);
    all := CollectNonEmpty(all, s.meta.hists);
    CollectedIs(s.get.hists[..], s.put.hists[..], s.meta.hists[..]);
    var overall := AddNonEmpty(all);
    if overall.None? {
      return None;
    }
    var get := CombinedOf(s.get);
    var put := CombinedOf(s.put);
    var meta := CombinedOf(s.meta);
    r := Some(Combined(overall.value, get, put, meta));
    ghost var t := View(s);
    forall gs: seq<Sample>, ps: seq<Sample>, ms: seq<Sample> | Holds(t, gs, ps, ms)
      ensures Exact(r.value, gs, ps, ms)
    {
      HeldIsExact(t, gs, ps, ms);
    }
  }

  /** The histograms are those of these recordings, and every recorded operation was counted. */
  ghost predicate Holds(t: Totals, get: seq<Sample>, put: seq<Sample>, meta: seq<Sample>) {
    HoldsOne(t.get, get) && HoldsOne(t.put, put) && HoldsOne(t.meta, meta)
  }

  ghost predicate HoldsOne(p: Part, samples: seq<Sample>) {
    p.hists == Recorded(Empty(NUM_BUCKETS), samples) && |samples| <= p.ops
  }

  /** Every latency is there as often as it was recorded: in the overall histogram over all kinds, and
      in that of its own kind. */
  ghost predicate Exact(c: Combined, get: seq<Sample>, put: seq<Sample>, meta: seq<Sample>) {
    forall v: nat ::
      && c.overall[v] == CountLatency(get, v) + CountLatency(put, v) + CountLatency(meta, v)
      && c.get[v] == CountLatency(get, v) && c.put[v] == CountLatency(put, v) && c.meta[v] == CountLatency(meta, v)
  }

  lemma HeldIsExact(t: Totals, get: seq<Sample>, put: seq<Sample>, meta: seq<Sample>)
    requires Holds(t, get, put, meta)
    ensures Exact(Combined(Flat(t.get.hists) + Flat(t.put.hists) + Flat(t.meta.hists), FlatIfAny(t.get), FlatIfAny(t.put), FlatIfAny(t.meta)), get, put, meta)
  {
    forall v: nat
      ensures Flat(t.get.hists)[v] == FlatIfAny(t.get)[v] == CountLatency(get, v)
      ensures Flat(t.put.hists)[v] == FlatIfAny(t.put)[v] == CountLatency(put, v)
      ensures Flat(t.meta.hists)[v] == FlatIfAny(t.meta)[v] == CountLatency(meta, v)
    {
      FlatIfAnyIsExact(t.get, get, v);
      FlatIfAnyIsExact(t.put, put, v);
      FlatIfAnyIsExact(t.meta, meta, v);
    }
    hide Flat, FlatIfAny, CountLatency, Holds;
  }

  lemma FlatIfAnyIsExact(p: Part, samples: seq<Sample>, v: nat)
    requires HoldsOne(p, samples)
    ensures Flat(p.hists)[v] == FlatIfAny(p)[v] == CountLatency(samples, v)
  {
    FlatIsExact(samples, v);
    hide Flat, Recorded;
    if p.ops == 0 {
      assert samples == [];
    }
  }

  /** Merged, the workers' recordings are one recording of everything. */
  lemma {:induction false} WorkersHold(ts: seq<Totals>, get: seq<seq<Sample>>, put: seq<seq<Sample>>, meta: seq<seq<Sample>>)
    requires ts != [] && |get| == |put| == |meta| == |ts|
    requires forall i :: 0 <= i < |ts| ==> Holds(ts[i], get[i], put[i], meta[i])
    ensures Holds(MergeAll(ts), Concat(get), Concat(put), Concat(meta))
    decreases |ts|
  {
    hide Holds, Combine;
    var n := |ts| - 1;
    assert Holds(ts[n], get[n], put[n], meta[n]);
    ConcatSnoc(get);
    ConcatSnoc(put);
    ConcatSnoc(meta);
    if n == 0 {
      MergeOne(ts[0]);
      assert ts == [ts[0]];
    } else {
      WorkersHold(ts[..n], get[..n], put[..n], meta[..n]);
      MergeSnoc(ts, n);
      assert ts[..n + 1] == ts;
      CombineHolds(MergeAll(ts[..n]), Concat(get[..n]), Concat(put[..n]), Concat(meta[..n]), ts[n], get[n], put[n], meta[n]);
    }
  }

  lemma ConcatSnoc(shards: seq<seq<Sample>>)
    requires shards != []
    ensures Concat(shards) == Concat(shards[..|shards| - 1]) + shards[|shards| - 1]
    ensures |shards| == 1 ==> Concat(shards) == shards[0]
  {
    assert [] + shards[|shards| - 1] == shards[|shards| - 1];
  }

  lemma CombineHolds(a: Totals, get: seq<Sample>, put: seq<Sample>, meta: seq<Sample>,
                     b: Totals, get': seq<Sample>, put': seq<Sample>, meta': seq<Sample>)
    requires Holds(a, get, put, meta) && Holds(b, get', put', meta')
    ensures Holds(Combine(a, b), get + get', put + put', meta + meta')
  {
    hide PartPlus, HoldsOne;
    HoldsPlus(a.get, get, b.get, get');
    HoldsPlus(a.put, put, b.put, put');
    HoldsPlus(a.meta, meta, b.meta, meta');
  }

  lemma HoldsPlus(p: Part, a: seq<Sample>, q: Part, b: seq<Sample>)
    requires HoldsOne(p, a) && HoldsOne(q, b)
    ensures HoldsOne(PartPlus(p, q), a + b)
  {
    RecordedConcat(a, b);
    hide Recorded, Plus, BinsPlus;
  }

  /** The overall histogram is only built when there is something to add. */
  method AddNonEmpty(all: seq<Hist>) returns (r: Option<Hist>)
    ensures r.None? <==> AnyExceeds(all)
    ensures r.Some? ==> r.value == Flat(all)
  {
    if all == [] {
      return Some(multiset{});
    }
    r := AddAll(all);
  }

  /** After the overall histogram was built nothing is refused here. */
  method CombinedOf(p: OpSummary) returns (r: Hist)
    requires !AnyExceeds(p.hists[..])
    ensures r == FlatIfAny(PartView(p))
  {
    r := multiset{};
    if p.ops > 0 {
      var hists := CollectNonEmpty([], p.hists);
      assert hists == NonEmpty(p.hists[..]);
      NonEmptyKeeps(p.hists[..]);
      var sum := AddAll(hists);
      r := sum.value;
    }
  }

  lemma CollectedIs(get: seq<Hist>, put: seq<Hist>, meta: seq<Hist>)
    ensures var all := [] + NonEmpty(get) + NonEmpty(put) + NonEmpty(meta);
            && (AnyExceeds(all) <==> AnyExceeds(get) || AnyExceeds(put) || AnyExceeds(meta))
            && Flat(all) == Flat(get) + Flat(put) + Flat(meta)
  {
    hide Exceeds, Flat, AnyExceeds, NonEmpty;
    var x, y, z := NonEmpty(get), NonEmpty(put), NonEmpty(meta);
    assert [] + x + y + z == x + y + z;
    NonEmptyKeeps(get);
    NonEmptyKeeps(put);
    NonEmptyKeeps(meta);
    AnyExceedsConcat(x + y, z);
    AnyExceedsConcat(x, y);
    FlatConcat(x + y, z);
    FlatConcat(x, y);
  }

  predicate SomeSlow(ts: seq<Totals>) {
    exists i :: 0 <= i < |ts| && Slow(ts[i])
  }

  /** A merge of several results is refused when one of them is slow. */
  predicate Refused(ts: seq<Totals>) {
    |ts| >= 2 && SomeSlow(ts)
  }

  lemma ExceedsUnion(x: Hist, y: Hist)
    ensures Exceeds(x + y) <==> Exceeds(x) || Exceeds(y)
    ensures !Exceeds(multiset{})
  {
    assert forall v :: v in x + y <==> v in x || v in y;
  }

  lemma ExceedsPlus(a: seq<Hist>, b: seq<Hist>)
    ensures AnyExceeds(Plus(a, b)) <==> AnyExceeds(a) || AnyExceeds(b)
  {
    var sum := Plus(a, b);
    hide Exceeds, Plus;
    forall i: nat | i < |sum|
      ensures Exceeds(sum[i]) <==> (i < |a| && Exceeds(a[i])) || (i < |b| && Exceeds(b[i]))
    {
      assert sum[i] == At(sum, i) == At(a, i) + At(b, i);
      ExceedsUnion(At(a, i), At(b, i));
    }
    if i :| 0 <= i < |a| && Exceeds(a[i]) {
      assert Exceeds(sum[i]);
    }
    if i :| 0 <= i < |b| && Exceeds(b[i]) {
      assert Exceeds(sum[i]);
    }
  }

  lemma SlowCombine(a: Totals, b: Totals)
    ensures Slow(Combine(a, b)) <==> Slow(a) || Slow(b)
  {
    hide AnyExceeds, Plus, BinsPlus;
    ExceedsPlus(a.get.hists, b.get.hists);
    ExceedsPlus(a.put.hists, b.put.hists);
    ExceedsPlus(a.meta.hists, b.meta.hists);
  }

  lemma SomeSlowSnoc(ts: seq<Totals>)
    requires ts != []
    ensures SomeSlow(ts) <==> SomeSlow(ts[..|ts| - 1]) || Slow(ts[|ts| - 1])
  {
    hide Slow;
    var n := |ts| - 1;
    if i :| 0 <= i < n && Slow(ts[..n][i]) {
      assert Slow(ts[i]);
    }
    if i :| 0 <= i < |ts| && Slow(ts[i]) && i < n {
      assert Slow(ts[..n][i]);
    }
  }

  /** The merged histograms hold a refused latency exactly when some worker's do. */
  lemma {:induction false} SlowMerged(ts: seq<Totals>)
    ensures Slow(MergeAll(ts)) <==> SomeSlow(ts)
  {
    if ts != [] {
      var n := |ts| - 1;
      SlowMerged(ts[..n]);
      SomeSlowSnoc(ts);
      hide Slow, SomeSlow, Combine;
      SlowCombine(MergeAll(ts[..n]), ts[n]);
    }
  }

  /** The refusal does not depend on the order in which the results arrive. */
  lemma RefusalOrderIrrelevant(a: seq<Totals>, b: seq<Totals>)
    requires multiset(a) == multiset(b)
    ensures Refused(a) <==> Refused(b)
  {
    assert |a| == |multiset(a)| == |multiset(b)| == |b|;
    hide SomeSlow;
    SlowMoves(a, b);
    SlowMoves(b, a);
  }

  lemma SlowMoves(a: seq<Totals>, b: seq<Totals>)
    requires multiset(a) == multiset(b)
    ensures SomeSlow(a) ==> SomeSlow(b)
  {
    hide Slow;
    if SomeSlow(a) {
      var i :| 0 <= i < |a| && Slow(a[i]);
      assert a[i] in multiset(b);
      var j :| 0 <= j < |b| && b[j] == a[i];
      assert Slow(b[j]);
    }
  }

  /** In terms of what was recorded: a worker is slow when an operation took longer than the combined
      bound and not longer than its own histogram keeps. */
  lemma SlowSamples(samples: seq<Sample>)
    ensures AnyExceeds(Recorded(Empty(NUM_BUCKETS), samples))
            <==> exists k :: 0 <= k < |samples| && COMBINED_HIGHEST < samples[k].micros <= HIGHEST
  {
    var hists := Recorded(Empty(NUM_BUCKETS), samples);
    if k :| 0 <= k < |samples| && COMBINED_HIGHEST < samples[k].micros <= HIGHEST {
      var b, v := BucketIndex(samples[k].size), samples[k].micros;
      RecordedIsExact(samples, b, v);
      LandsIff(samples[k], b, v);
      SomeLands(samples, b, v, k);
      assert v in hists[b];
    }
    if b :| 0 <= b < |hists| && Exceeds(hists[b]) {
      var v :| v in hists[b] && v > COMBINED_HIGHEST;
      RecordedIsExact(samples, b, v);
      var k := WhoLands(samples, b, v);
      assert COMBINED_HIGHEST < samples[k].micros <= HIGHEST;
    }
  }

  lemma {:induction false} SomeLands(samples: seq<Sample>, b: nat, v: nat, k: nat)
    requires k < |samples| && Lands(samples[k], b, v)
    ensures CountLanding(samples, b, v) > 0
    decreases |samples|
  {
    hide Lands;
    if k < |samples| - 1 {
      SomeLands(samples[..|samples| - 1], b, v, k);
    }
  }

  lemma {:induction false} WhoLands(samples: seq<Sample>, b: nat, v: nat) returns (k: nat)
    requires CountLanding(samples, b, v) > 0
    ensures k < |samples| && Lands(samples[k], b, v)
    decreases |samples|
  {
    hide Lands;
    k := |samples| - 1;
    if !Lands(samples[k], b, v) {
      k := WhoLands(samples[..k], b, v);
    }
  }

  /** One GET of just over a minute, by either of two workers, and the run has no result. */
  lemma OneSlowGetRefusesAll(idle: Totals, size: usize)
    ensures var worker := ZERO.(get := Part(1, map[], Recorded(Empty(NUM_BUCKETS), [Sample(size, COMBINED_HIGHEST + 1)])));
            Refused([worker, idle]) && Refused([idle, worker])
  {
    var samples := [Sample(size, COMBINED_HIGHEST + 1)];
    var worker := ZERO.(get := Part(1, map[], Recorded(Empty(NUM_BUCKETS), samples)));
    assert COMBINED_HIGHEST < samples[0].micros <= HIGHEST;
    SlowSamples(samples);
    hide AnyExceeds, Recorded;
    assert [worker, idle][0] == worker && [idle, worker][1] == worker && Slow(worker);
  }

  /** `merged` starts as a clone of the first summary, so it adds into that summary's histograms in
      place; the first is then skipped. */
  method MergeSummaries(summaries: seq<Summary>) returns (r: Option<Summary>)
    requires OwnStorage(summaries)
    modifies if summaries == [] then {} else Storage(summaries[0])
    ensures r.None? <==> summaries == [] || Refused(old(Views(summaries)))
    ensures r.Some? ==>
              && View(r.value) == MergeAll(old(Views(summaries)))
              && Storage(r.value) == Storage(summaries[0])
              && r.value.totalErrors == summaries[0].totalErrors
              && r.value.meta.bytes == summaries[0].meta.bytes
              && (r.value.meta.bytes == MetaTotal(summaries) <==> OnlyFirstHasMetaBytes(summaries))
    ensures forall i :: 0 < i < |summaries| ==> View(summaries[i]) == old(View(summaries[i]))
  {
    if summaries == [] {
      return None;
    }
    hide Combine, MergeAll, View, OwnStorage, Slow, SomeSlow, MetaTotal, OnlyFirstHasMetaBytes;
    MetaBytesOverThreads(summaries);
    if |summaries| == 1 {
      OneView(summaries);
      return Some(summaries[0]);
    }
    r := MergeSeveral(summaries);
  }

  lemma OneView(summaries: seq<Summary>)
    requires |summaries| == 1
    ensures View(summaries[0]) == MergeAll(Views(summaries))
  {
    MergeOne(Views(summaries)[0]);
    assert Views(summaries) == [Views(summaries)[0]];
  }

  method MergeSeveral(summaries: seq<Summary>) returns (r: Option<Summary>)
    requires OwnStorage(summaries) && summaries != []
    modifies Storage(summaries[0])
    ensures r.None? <==> SomeSlow(old(Views(summaries)))
    ensures r.Some? ==> View(r.value) == MergeAll(old(Views(summaries))) && Storage(r.value) == Storage(summaries[0])
    ensures r.Some? ==> r.value.meta.bytes == summaries[0].meta.bytes && r.value.totalErrors == summaries[0].totalErrors
    ensures forall i :: 0 < i < |summaries| ==> View(summaries[i]) == old(View(summaries[i]))
  {
    hide Combine, MergeAll, OwnStorage, Slow, SomeSlow, AnyExceeds, Flat;
    ghost var views := Views(summaries);
    SlowMerged(views);
    var merged := MergeLoop(summaries);
    assert merged.get.hists in Storage(summaries[0]) && merged.put.hists in Storage(summaries[0]) && merged.meta.hists in Storage(summaries[0]);
    var combined := RecalculatePercentiles(merged);
    assert View(merged) == MergeAll(views);
    r := if combined.None? then None else Some(merged);
  }

  method MergeLoop(summaries: seq<Summary>) returns (merged: Summary)
    requires OwnStorage(summaries) && summaries != []
    modifies Storage(summaries[0])
    ensures View(merged) == MergeAll(old(Views(summaries))) && SameStorage(merged, summaries[0])
    ensures merged.meta.bytes == summaries[0].meta.bytes && merged.totalErrors == summaries[0].totalErrors
    ensures forall i :: 0 < i < |summaries| ==> View(summaries[i]) == old(View(summaries[i]))
  {
    hide Combine, MergeAll, View;
    ghost var views := Views(summaries);
    MergeOne(views[0]);
    merged := summaries[0];
    assert views[..1] == [views[0]];
    for i := 1 to |summaries|
      invariant SameStorage(merged, summaries[0])
      invariant merged.meta.bytes == summaries[0].meta.bytes && merged.totalErrors == summaries[0].totalErrors
      invariant View(merged) == MergeAll(views[..i])
      invariant forall k :: 0 < k < |summaries| ==> View(summaries[k]) == views[k]
    {
      var summary := summaries[i];
      OthersApart(summaries, i);
      MergeSnoc(views, i);
      merged := MergeInto(merged, summary);
    }
    assert views[..|summaries|] == views;
  }

  function MetaTotal(summaries: seq<Summary>): nat {
    if summaries == [] then 0 else MetaTotal(summaries[..|summaries| - 1]) + summaries[|summaries| - 1].meta.bytes
  }

  predicate OnlyFirstHasMetaBytes(summaries: seq<Summary>) {
    forall i :: 0 < i < |summaries| ==> summaries[i].meta.bytes == 0
  }

  /** The first summary's metadata bytes are those of all workers exactly when the others have none. */
  lemma {:induction false} MetaBytesOverThreads(summaries: seq<Summary>)
    requires summaries != []
    ensures MetaTotal(summaries) >= summaries[0].meta.bytes
    ensures summaries[0].meta.bytes == MetaTotal(summaries) <==> OnlyFirstHasMetaBytes(summaries)
    decreases |summaries|
  {
    var n := |summaries| - 1;
    if n > 0 {
      MetaBytesOverThreads(summaries[..n]);
      assert forall i :: 0 < i < n ==> summaries[..n][i] == summaries[i];
    } else {
      assert MetaTotal(summaries[..0]) == 0;
    }
  }

  lemma MergeSnoc(ts: seq<Totals>, i: nat)
    requires i < |ts|
    ensures MergeAll(ts[..i + 1]) == Combine(MergeAll(ts[..i]), ts[i])
  {
    hide Combine;
    assert ts[..i + 1][..i] == ts[..i];
  }

  lemma MergeOne(t: Totals)
    ensures MergeAll([t]) == t
  {
    CombineZero(t);
    assert [t][..0] == [];
  }

  predicate SameStorage(s: Summary, t: Summary) {
    s.get.hists == t.get.hists && s.put.hists == t.put.hists && s.meta.hists == t.meta.hists
  }

  /** The body of the merge loop, for one kind of operation. */
  method MergeOp(target: OpSummary, source: OpSummary) returns (r: OpSummary)
    requires target.hists != source.hists && source.hists.Length <= target.hists.Length
    modifies target.hists
    ensures r.hists == target.hists && PartView(r) == PartPlus(old(PartView(target)), old(PartView(source)))
    ensures r.bytes == target.bytes + source.bytes
  {
    hide Plus, BinsPlus, BinAt, At;
    AddInto(target.hists, source.hists);
    var bins := MergeFrom(target.bins, source.bins);
    r := OpSummary(target.bytes + source.bytes, target.ops + source.ops, bins, target.hists);
  }

  /** The body of the merge loop. */
  method MergeInto(target: Summary, source: Summary) returns (r: Summary)
    requires Storage(target) !! Storage(source) && ThreeDistinct(target)
    requires forall h :: h in Storage(target) + Storage(source) ==> h.Length == NUM_BUCKETS
    modifies Storage(target)
    ensures SameStorage(r, target)
    ensures View(r) == Combine(old(View(target)), old(View(source)))
    ensures r.meta.bytes == target.meta.bytes && r.totalErrors == target.totalErrors
  {
    hide PartPlus, Plus, BinsPlus, BinAt, At;
    var get := MergeOp(target.get, source.get);
    var put := MergeOp(target.put, source.put);
    var meta := MergeOp(target.meta, source.meta);
    r := Summary(Longer(target.wall, source.wall), target.totalBytes + source.totalBytes, target.totalOps + source.totalOps,
                 get, put, meta.(bytes := target.meta.bytes), target.totalErrors);
  }

  /** Collecting from the channel: a missing result is an error, whatever arrived. */
  method GatherAndMerge(arrived: seq<Summary>, spawned: nat) returns (r: Option<Summary>)
    requires OwnStorage(arrived)
    modifies if arrived == [] then {} else Storage(arrived[0])
    ensures r.Some? <==> |arrived| == spawned > 0 && !Refused(old(Views(arrived)))
    ensures r.Some? ==> View(r.value) == MergeAll(old(Views(arrived)))
  {
    if |arrived| != spawned {
      return None;
    }
    r := MergeSummaries(arrived);
  }

  // === Over processes: serialized summaries, merged from empty histograms ===

  datatype IpcSummary = IpcSummary(totals: Totals, metaBytes: nat, totalErrors: nat)

  function ToIpc(s: Summary): IpcSummary
    reads Storage(s)
  {
    IpcSummary(View(s), s.meta.bytes, s.totalErrors)
  }

  function TotalsOf(summaries: seq<IpcSummary>): (r: seq<Totals>)
    ensures |r| == |summaries|
  {
    seq(|summaries|, i requires 0 <= i < |summaries| => summaries[i].totals)
  }

  function MetaBytes(summaries: seq<IpcSummary>): nat {
    if summaries == [] then 0 else MetaBytes(summaries[..|summaries| - 1]) + summaries[|summaries| - 1].metaBytes
  }

  predicate Fits(t: Totals, n: nat) {
    |t.get.hists| <= n && |t.put.hists| <= n && |t.meta.hists| <= n
  }

  function Blank(n: nat): Totals {
    Totals(0.0, 0, 0, 0, 0, Part(0, map[], Empty(n)), Part(0, map[], Empty(n)), Part(0, map[], Empty(n)))
  }

  method MergeIpcOp(target: OpSummary, bytes: nat, source: Part) returns (ok: bool, r: OpSummary)
    modifies target.hists
    ensures ok <==> |source.hists| <= target.hists.Length
    ensures ok ==> r.hists == target.hists && r.bytes == target.bytes + bytes && PartView(r) == PartPlus(old(PartView(target)), source)
  {
    hide Plus, BinsPlus, BinAt, At;
    ok := AddList(target.hists, source.hists);
    var bins := MergeFrom(target.bins, source.bins);
    r := OpSummary(target.bytes + bytes, target.ops + source.ops, bins, target.hists);
  }

  /** The loop body over processes; `None` when a histogram list is longer than the first one's. */
  method MergeIpcInto(target: Summary, source: IpcSummary, n: nat) returns (r: Option<Summary>)
    requires ThreeDistinct(target) && forall h :: h in Storage(target) ==> h.Length == n
    modifies Storage(target)
    ensures r.Some? <==> Fits(source.totals, n)
    ensures r.Some? ==> SameStorage(r.value, target) && View(r.value) == Combine(old(View(target)), source.totals)
    ensures r.Some? ==> r.value.meta.bytes == target.meta.bytes + source.metaBytes
  {
    hide PartPlus, Plus, BinsPlus, BinAt, At;
    var t := source.totals;
    var ok, get := MergeIpcOp(target.get, t.getBytes, t.get);
    if !ok {
      return None;
    }
    var put, meta;
    ok, put := MergeIpcOp(target.put, t.putBytes, t.put);
    if !ok {
      return None;
    }
    ok, meta := MergeIpcOp(target.meta, source.metaBytes, t.meta);
    if !ok {
      return None;
    }
    r := Some(Summary(Longer(target.wall, t.wall), target.totalBytes + t.bytes, target.totalOps + t.ops,
                      get, put, meta, target.totalErrors + source.totalErrors));
  }

  method BlankSummary(n: nat) returns (s: Summary)
    ensures fresh(Storage(s)) && ThreeDistinct(s) && View(s) == Blank(n)
    ensures forall h :: h in Storage(s) ==> h.Length == n
    ensures s.meta.bytes == 0
  {
    var get := NewHists(n);
    var put := NewHists(n);
    var meta := NewHists(n);
    s := Summary(0.0, 0, 0, OpSummary(0, 0, map[], get), OpSummary(0, 0, map[], put), OpSummary(0, 0, map[], meta), 0);
    assert get.Length == |get[..]| && put.Length == |put[..]| && meta.Length == |meta[..]|;
  }

  method MergeIpc(summaries: seq<IpcSummary>) returns (r: Option<Summary>)
    ensures r.Some? <==> summaries != [] && forall i :: 0 <= i < |summaries| ==> Fits(summaries[i].totals, |summaries[0].totals.get.hists|)
    ensures r.Some? ==>
              && fresh(Storage(r.value))
              && View(r.value) == Combine(Blank(|summaries[0].totals.get.hists|), MergeAll(TotalsOf(summaries)))
              && r.value.meta.bytes == MetaBytes(summaries)
  {
    if summaries == [] {
      return None;
    }
    hide Combine, MergeAll, View, Blank, Fits, MetaBytes, TotalsOf;
    var n := |summaries[0].totals.get.hists|;
    var start := BlankSummary(n);
    r := MergeIpcAll(start, summaries, n);
  }

  /** The loop over the child processes. */
  method MergeIpcAll(start: Summary, summaries: seq<IpcSummary>, n: nat) returns (r: Option<Summary>)
    requires ThreeDistinct(start) && forall h :: h in Storage(start) ==> h.Length == n
    modifies Storage(start)
    ensures r.Some? <==> forall i :: 0 <= i < |summaries| ==> Fits(summaries[i].totals, n)
    ensures r.Some? ==>
              && SameStorage(r.value, start)
              && View(r.value) == Combine(old(View(start)), MergeAll(TotalsOf(summaries)))
              && r.value.meta.bytes == start.meta.bytes + MetaBytes(summaries)
  {
    hide Combine, MergeAll, View, Fits, MetaBytes, TotalsOf;
    var merged := start;
    ghost var blank := View(start);
    NothingMerged(summaries, blank);
    for i := 0 to |summaries|
      invariant SameStorage(merged, start)
      invariant forall k :: 0 <= k < i ==> Fits(summaries[k].totals, n)
      invariant View(merged) == Combine(blank, MergeAll(TotalsOf(summaries[..i])))
      invariant merged.meta.bytes == start.meta.bytes + MetaBytes(summaries[..i])
    {
      var next := MergeIpcInto(merged, summaries[i], n);
      if next.None? {
        return None;
      }
      IpcSnoc(summaries, blank, i);
      merged := next.value;
    }
    assert summaries[..|summaries|] == summaries;
    r := Some(merged);
  }

  lemma NothingMerged(summaries: seq<IpcSummary>, t: Totals)
    ensures Combine(t, MergeAll(TotalsOf(summaries[..0]))) == t && MetaBytes(summaries[..0]) == 0
  {
    CombineCommutes(t, ZERO);
    CombineZero(t);
  }

  lemma IpcSnoc(summaries: seq<IpcSummary>, t: Totals, i: nat)
    requires i < |summaries|
    ensures Combine(Combine(t, MergeAll(TotalsOf(summaries[..i]))), summaries[i].totals) == Combine(t, MergeAll(TotalsOf(summaries[..i + 1])))
    ensures MetaBytes(summaries[..i + 1]) == MetaBytes(summaries[..i]) + summaries[i].metaBytes
  {
    hide Combine;
    var ts, front := TotalsOf(summaries[..i + 1]), summaries[..i];
    assert ts[..i] == TotalsOf(front) && ts[..i + 1] == ts;
    MergeSnoc(ts, i);
    CombineAssociates(t, MergeAll(ts[..i]), ts[i]);
    assert summaries[..i + 1][..i] == front;
  }

  /** What the child processes of these workers report. */
  function ToIpcs(ss: seq<Summary>): (r: seq<IpcSummary>)
    reads AllStorage(ss)
    ensures |r| == |ss|
  {
    if ss == [] then [] else ToIpcs(ss[..|ss| - 1]) + [ToIpc(ss[|ss| - 1])]
  }

  lemma {:induction false} ReportsAreViews(ss: seq<Summary>)
    ensures TotalsOf(ToIpcs(ss)) == Views(ss) && MetaBytes(ToIpcs(ss)) == MetaTotal(ss)
  {
    hide View;
    if ss != [] {
      var front, reports := ss[..|ss| - 1], ToIpcs(ss);
      ReportsAreViews(front);
      assert reports[..|ss| - 1] == ToIpcs(front);
      assert TotalsOf(reports) == TotalsOf(ToIpcs(front)) + [View(ss[|ss| - 1])];
    }
  }

  /** Both ways of merging give the same values for the same workers: starting from nine empty buckets
      changes nothing.  Over processes the metadata bytes are summed, and no latency is refused. */
  lemma ProcessesAgreeWithThreads(ss: seq<Summary>)
    requires OwnStorage(ss) && ss != []
    ensures Combine(Blank(NUM_BUCKETS), MergeAll(TotalsOf(ToIpcs(ss)))) == MergeAll(Views(ss))
    ensures MetaBytes(ToIpcs(ss)) == MetaTotal(ss)
  {
    ReportsAreViews(ss);
    var ts := Views(ss);
    var last := ts[|ts| - 1];
    NineBuckets(ss, |ss| - 1);
    hide MergeAll, Combine, View, Blank;
    assert MergeAll(ts) == Combine(MergeAll(ts[..|ts| - 1]), last) by {
      MergeSnoc(ts, |ts| - 1);
      assert ts[..|ts|] == ts;
    }
    CombineCommutes(MergeAll(ts[..|ts| - 1]), last);
    CombineAssociates(Blank(NUM_BUCKETS), last, MergeAll(ts[..|ts| - 1]));
    BlankIsZero(last);
  }

  lemma NineBuckets(ss: seq<Summary>, i: nat)
    requires OwnStorage(ss) && i < |ss|
    ensures |View(ss[i]).get.hists| == |View(ss[i]).put.hists| == |View(ss[i]).meta.hists| == NUM_BUCKETS
  {
    var views := Views(ss);
    assert ss[i].get.hists in Storage(ss[i]) && ss[i].put.hists in Storage(ss[i]) && ss[i].meta.hists in Storage(ss[i]);
  }

  lemma BlankIsZero(t: Totals)
    requires |t.get.hists| == |t.put.hists| == |t.meta.hists| == NUM_BUCKETS
    ensures Combine(Blank(NUM_BUCKETS), t) == t
  {
    hide PartPlus;
    BlankPart(t.get);
    BlankPart(t.put);
    BlankPart(t.meta);
  }

  lemma BlankPart(p: Part)
    requires |p.hists| == NUM_BUCKETS
    ensures PartPlus(Part(0, map[], Empty(NUM_BUCKETS)), p) == p
  {
    PlusEmpty(p.hists, NUM_BUCKETS);
    SameBins(BinsPlus(map[], p.bins), p.bins);
  }
}
