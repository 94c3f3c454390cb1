/** Routing over endpoints, aggregation, and the test that lets a run skip a LIST. */
module Coverage {
  import opened Text
  import opened ObjectCache

  /** Entries of one hash and state, summed over the first `k` endpoints. */
  ghost function CountUpTo(tables: seq<Table>, hash: string, state: ObjectState, k: nat): nat
    requires k <= |tables|
  {
    if k == 0 then 0 else CountUpTo(tables, hash, state, k - 1) + |Slots(tables[k - 1], hash, state)|
  }

  ghost function BytesUpTo(tables: seq<Table>, hash: string, state: ObjectState, k: nat): nat
    requires k <= |tables|
  {
    if k == 0 then 0
    else BytesUpTo(tables, hash, state, k - 1) + TotalSize(tables[k - 1], Slots(tables[k - 1], hash, state))
  }

  ghost predicate IsCreated(t: Table, hash: string, idx: usize) {
    (hash, idx) in t && t[(hash, idx)].state == Created
  }

  /** Every entry of `hash` has an index below `total` and sits on the endpoint that owns it. */
  ghost predicate Routed(tables: seq<Table>, hash: string, total: nat) {
    forall e, p :: 0 <= e < |tables| && p in tables[e] && p.0 == hash ==> p.1 < total && p.1 % |tables| == e
  }

  /** Every object below `total` is created on the endpoint that owns it. */
  ghost predicate AllCreated(tables: seq<Table>, hash: string, total: usize)
    requires 0 < |tables|
  {
    forall i: usize :: i < total ==> IsCreated(tables[i % |tables|], hash, i)
  }

  // === The pigeonhole argument ===

  ghost function CreatedIndices(tables: seq<Table>, hash: string, total: nat, k: nat): set<usize>
    requires 0 < |tables|
  {
    set i: usize | 0 <= i < total && i % |tables| < k && IsCreated(tables[i % |tables|], hash, i)
  }

  lemma {:induction false} SameSize(slots: set<Slot>, hash: string, indices: set<usize>)
    requires forall p :: p in slots ==> p.0 == hash && p.1 in indices
    requires forall i :: i in indices ==> (hash, i) in slots
    ensures |slots| == |indices|
    decreases |slots|
  {
    if slots != {} {
      var p :| p in slots;
      assert p == (hash, p.1);
      SameSize(slots - {p}, hash, indices - {p.1});
    } else {
      assert indices == {};
    }
  }

  lemma {:induction false} CountIsIndices(tables: seq<Table>, hash: string, total: nat, k: nat)
    requires 0 < |tables| && k <= |tables| && Routed(tables, hash, total)
    ensures CountUpTo(tables, hash, Created, k) == |CreatedIndices(tables, hash, total, k)|
  {
    if k == 0 {
      assert CreatedIndices(tables, hash, total, 0) == {};
    } else {
      CountIsIndices(tables, hash, total, k - 1);
      var before, after := CreatedIndices(tables, hash, total, k - 1), CreatedIndices(tables, hash, total, k);
      SameSize(Slots(tables[k - 1], hash, Created), hash, after - before);
      assert before <= after;
      assert |after| == |before| + |after - before|;
    }
  }

  lemma {:induction false} BelowSize(total: usize, some: set<usize>)
    requires forall i :: i in some ==> i < total
    ensures |some| <= total
    ensures |some| == total <==> forall i: usize :: i < total ==> i in some
    decreases total
  {
    if total == 0 {
      assert some == {};
    } else {
      var last: usize := total - 1;
      BelowSize(last, some - {last});
      if last in some {
        assert forall i: usize :: i < total ==> (i in some <==> i == last || i in some - {last});
      } else {
        assert some - {last} == some;
      }
    }
  }

  /** When every write was routed, enough created entries in total means every single object is
      created on the endpoint that owns it, and the other way round. */
  lemma CoverageIsExact(tables: seq<Table>, hash: string, total: usize)
    requires 0 < |tables| && Routed(tables, hash, total)
    ensures CountUpTo(tables, hash, Created, |tables|) >= total <==> AllCreated(tables, hash, total)
  {
    CountIsIndices(tables, hash, total, |tables|);
    var all := CreatedIndices(tables, hash, total, |tables|);
    BelowSize(total, all);
    assert forall i: usize :: i < total ==> (i in all <==> IsCreated(tables[i % |tables|], hash, i));
  }

  // === Whole runs of routed writes ===

  /** Every write goes through `endpoint_for_file`. */
  function RouteOp(tables: seq<Table>, op: Op): seq<Table>
    requires 0 < |tables|
  {
    var e := op.idx % |tables|;
    tables[e := ApplyOp(tables[e], e, op)]
  }

  function RouteAll(tables: seq<Table>, ops: seq<Op>): (r: seq<Table>)
    requires 0 < |tables|
    ensures |r| == |tables|
    decreases |ops|
  {
    if ops == [] then tables else RouteAll(RouteOp(tables, ops[0]), ops[1..])
  }

  lemma {:induction false} RouteAllStaysRouted(tables: seq<Table>, ops: seq<Op>, hash: string, total: usize)
    requires 0 < |tables| && Routed(tables, hash, total)
    requires forall op :: op in ops && op.hash == hash ==> op.idx < total
    ensures Routed(RouteAll(tables, ops), hash, total)
    decreases |ops|
  {
    if ops != [] {
      assert ops[0] in ops;
      RouteAllStaysRouted(RouteOp(tables, ops[0]), ops[1..], hash, total);
    }
  }

  /** LIST-skip is sound and complete over every run: after any routed operations on empty caches
      that touch only indices below `total` for this hash, the coverage test passes exactly when
      every object is created where it belongs. */
  lemma ListSkipIsSound(n: nat, ops: seq<Op>, hash: string, total: usize)
    requires 0 < n && forall op :: op in ops && op.hash == hash ==> op.idx < total
    ensures var tables := RouteAll(seq(n, e => map[]), ops);
            CountUpTo(tables, hash, Created, n) >= total <==> AllCreated(tables, hash, total)
  {
    var empty: seq<Table> := seq(n, e => map[]);
    RouteAllStaysRouted(empty, ops, hash, total);
    CoverageIsExact(RouteAll(empty, ops), hash, total);
  }

  // === Which indices the test can be trusted with ===

  /** The indices created for a hash are exactly these, each on the endpoint that owns it. */
  ghost predicate Holds(tables: seq<Table>, hash: string, created: set<usize>) {
    && 0 < |tables| && Routed(tables, hash, USIZE_MAX + 1)
    && forall i: usize :: IsCreated(tables[i % |tables|], hash, i) <==> i in created
  }

  lemma HoldsCount(tables: seq<Table>, hash: string, created: set<usize>)
    requires Holds(tables, hash, created)
    ensures CountUpTo(tables, hash, Created, |tables|) == |created|
  {
    CountIsIndices(tables, hash, USIZE_MAX + 1, |tables|);
    assert CreatedIndices(tables, hash, USIZE_MAX + 1, |tables|) == created;
  }

  lemma HoldsRecord(tables: seq<Table>, hash: string, created: set<usize>, op: Op)
    requires Holds(tables, hash, created) && op.UpsertCreated? && op.hash == hash
    ensures Holds(RouteOp(tables, op), hash, created + {op.idx})
  {
    var after := RouteOp(tables, op);
    forall i: usize
      ensures IsCreated(after[i % |after|], hash, i) <==> i in created + {op.idx}
    {
      assert IsCreated(tables[i % |tables|], hash, i) <==> i in created;
    }
  }

  lemma EmptyHolds(n: nat, hash: string)
    requires 0 < n
    ensures Holds(seq(n, e => map[]), hash, {})
  {}

  function Creations(hash: string, indices: seq<usize>): seq<Op> {
    seq(|indices|, k requires 0 <= k < |indices| => UpsertCreated(hash, indices[k], "object", 0, 0, None))
  }

  function Elements(indices: seq<usize>): set<usize> {
    set i | i in indices
  }

  lemma {:induction false} CreationsHold(tables: seq<Table>, hash: string, created: set<usize>, indices: seq<usize>)
    requires Holds(tables, hash, created)
    ensures Holds(RouteAll(tables, Creations(hash, indices)), hash, created + Elements(indices))
    decreases |indices|
  {
    hide Holds, RouteOp;
    var ops := Creations(hash, indices);
    if indices == [] {
      assert created + Elements(indices) == created;
    } else {
      assert (tables != []) by {
        HoldsNonEmpty(tables, hash, created);
      }
      HoldsRecord(tables, hash, created, ops[0]);
      CreationsHold(RouteOp(tables, ops[0]), hash, created + {indices[0]}, indices[1..]);
      assert ops[1..] == Creations(hash, indices[1..]);
      assert created + {indices[0]} + Elements(indices[1..]) == created + Elements(indices);
    }
  }

  lemma HoldsNonEmpty(tables: seq<Table>, hash: string, created: set<usize>)
    requires Holds(tables, hash, created)
    ensures 0 < |tables|
  {}

  /** A run of routed operations that touches only these indices of the hash. */
  predicate Keeps(ops: seq<Op>, hash: string, allowed: set<usize>) {
    forall op :: op in ops && op.hash == hash ==> op.idx in allowed
  }

  /** The test did not pass, or every object is created where it belongs. */
  ghost predicate TestHonest(n: nat, ops: seq<Op>, hash: string, total: usize)
    requires 0 < n
  {
    var tables := RouteAll(seq(n, e => map[]), ops);
    CountUpTo(tables, hash, Created, n) >= total ==> AllCreated(tables, hash, total)
  }

  lemma {:induction false} FirstIndices(total: usize) returns (indices: seq<usize>)
    requires 0 < total
    ensures |Elements(indices)| == total - 1
    ensures forall i: usize :: i in Elements(indices) <==> 0 < i < total
    decreases total
  {
    if total == 1 {
      indices := [];
      assert Elements(indices) == {};
    } else {
      var last: usize := total - 1;
      var front := FirstIndices(last);
      indices := front + [last];
      assert Elements(indices) == Elements(front) + {last} && last !in Elements(front);
    }
  }

  /** A created index beyond the expected range stands in for a missing one. */
  lemma StrayRun(n: nat, hash: string, total: usize, stray: usize) returns (ops: seq<Op>)
    requires 0 < n && 0 < total <= stray
    ensures forall op :: op in ops ==> op.hash == hash && (0 < op.idx < total || op.idx == stray)
    ensures !TestHonest(n, ops, hash, total)
  {
    var front := FirstIndices(total);
    var indices := front + [stray];
    assert Elements(indices) == Elements(front) + {stray} && stray !in Elements(front);
    ops := Creations(hash, indices);
    forall op | op in ops
      ensures op.hash == hash && (0 < op.idx < total || op.idx == stray)
    {
      assert op.idx in Elements(indices);
    }
    EnoughWithoutFirst(n, hash, total, indices);
  }

  lemma EnoughWithoutFirst(n: nat, hash: string, total: usize, indices: seq<usize>)
    requires 0 < n && 0 < total <= |Elements(indices)| && 0 !in Elements(indices)
    ensures !TestHonest(n, Creations(hash, indices), hash, total)
  {
    var empty: seq<Table> := seq(n, e => map[]);
    EmptyHolds(n, hash);
    CreationsHold(empty, hash, {}, indices);
    assert {} + Elements(indices) == Elements(indices);
    hide Creations, Elements;
    var tables := RouteAll(empty, Creations(hash, indices));
    HoldsCount(tables, hash, Elements(indices));
    var zero: usize := 0;
    assert !IsCreated(tables[zero % n], hash, zero);
  }

  /** The test can be trusted in every run over a set of indices exactly when the set has none beyond
      the expected range. */
  lemma StrayIndexFoolsTheTest(n: nat, hash: string, total: usize, allowed: set<usize>)
    requires 0 < n && 0 < total && forall i: usize :: i < total ==> i in allowed
    ensures (forall ops :: Keeps(ops, hash, allowed) ==> TestHonest(n, ops, hash, total)) <==> (forall i :: i in allowed ==> i < total)
  {
    hide TestHonest;
    if stray: usize :| stray in allowed && stray >= total {
      var ops := StrayRun(n, hash, total, stray);
      assert Keeps(ops, hash, allowed);
    } else {
      forall ops | Keeps(ops, hash, allowed)
        ensures TestHonest(n, ops, hash, total)
      {
        HonestInRange(n, ops, hash, total);
      }
    }
  }

  lemma HonestInRange(n: nat, ops: seq<Op>, hash: string, total: usize)
    requires 0 < n && forall op :: op in ops && op.hash == hash ==> op.idx < total
    ensures TestHonest(n, ops, hash, total)
  {
    ListSkipIsSound(n, ops, hash, total);
  }

  lemma {:induction false} CountGrows(tables: seq<Table>, hash: string, state: ObjectState, j: nat, k: nat)
    requires j <= k <= |tables|
    ensures CountUpTo(tables, hash, state, j) <= CountUpTo(tables, hash, state, k)
  {
    if j < k {
      CountGrows(tables, hash, state, j, k - 1);
    }
  }

  // === The cache orchestrator ===

  datatype CheckpointCoverage = CheckpointCoverage(
    createdCount: nat, plannedCount: nat, failedCount: nat, totalTracked: nat, expectedCount: nat,
    coversAll: bool, stateCounts: map<ObjectState, nat>, bytesByState: map<ObjectState, nat>)

  function CountOf(counts: map<ObjectState, nat>, s: ObjectState): nat {
    if s in counts then counts[s] else 0
  }

  const STATES: seq<ObjectState> := [DirectoryNonExistent, Planned, Creating, Created, Failed, Deleted]

  function SumCounts(counts: map<ObjectState, nat>, k: nat): nat
    requires k <= |STATES|
  {
    if k == 0 then 0 else SumCounts(counts, k - 1) + CountOf(counts, STATES[k - 1])
  }

  function FromStateCounts(counts: map<ObjectState, nat>, bytes: map<ObjectState, nat>, expected: nat): CheckpointCoverage {
    var created := CountOf(counts, Created);
    CheckpointCoverage(
      created, CountOf(counts, Planned), CountOf(counts, Failed), SumCounts(counts, |STATES|), expected,
      created >= expected && expected > 0, counts, bytes)
  }

  /** Running total of one state over the first `k` endpoints. */
  ghost predicate Sum(tables: seq<Table>, hash: string, k: nat, s: ObjectState, counts: map<ObjectState, nat>, bytes: map<ObjectState, nat>)
    requires k <= |tables|
  {
    && CountOf(counts, s) == CountUpTo(tables, hash, s, k)
    && CountOf(bytes, s) == BytesUpTo(tables, hash, s, k)
    && (s in counts <==> CountUpTo(tables, hash, s, k) > 0)
  }

  ghost predicate Sums(tables: seq<Table>, hash: string, k: nat, counts: map<ObjectState, nat>, bytes: map<ObjectState, nat>)
    requires k <= |tables|
  {
    forall s :: Sum(tables, hash, k, s, counts, bytes)
  }

  lemma SumsStep(tables: seq<Table>, hash: string, k: nat, counts: map<ObjectState, nat>, bytes: map<ObjectState, nat>,
                 here: map<ObjectState, nat>, hereBytes: map<ObjectState, nat>)
    requires k < |tables| && Sums(tables, hash, k, counts, bytes)
    requires TalliesAll(tables[k], hash, here, hereBytes)
    ensures Sums(tables, hash, k + 1, AddCounts(counts, here), AddCounts(bytes, hereBytes))
  {
    var counts', bytes' := AddCounts(counts, here), AddCounts(bytes, hereBytes);
    var next := k + 1;
    forall s
      ensures Sum(tables, hash, next, s, counts', bytes')
    {
      assert Sum(tables, hash, k, s, counts, bytes);
      assert Tally(tables[k], Slots(tables[k], hash, s), s, here, hereBytes);
      SumStep(tables, hash, k, s, counts, bytes, here, hereBytes);
    }
  }

  lemma SumStep(tables: seq<Table>, hash: string, k: nat, s: ObjectState, counts: map<ObjectState, nat>, bytes: map<ObjectState, nat>,
                here: map<ObjectState, nat>, hereBytes: map<ObjectState, nat>)
    requires k < |tables| && Sum(tables, hash, k, s, counts, bytes)
    requires Tally(tables[k], Slots(tables[k], hash, s), s, here, hereBytes)
    ensures Sum(tables, hash, k + 1, s, AddCounts(counts, here), AddCounts(bytes, hereBytes))
  {
    var slots := Slots(tables[k], hash, s);
    AddCountsAt(counts, here, s);
    AddCountsAt(bytes, hereBytes, s);
    if slots == {} {
      assert TotalSize(tables[k], slots) == 0;
    }
    assert CountOf(here, s) == |slots| && CountOf(hereBytes, s) == TotalSize(tables[k], slots);
  }

  /** Adds the counts of one endpoint into the running totals. */
  function AddCounts(a: map<ObjectState, nat>, b: map<ObjectState, nat>): map<ObjectState, nat> {
    map s | s in a.Keys + b.Keys :: CountOf(a, s) + CountOf(b, s)
  }

  lemma AddCountsAt(a: map<ObjectState, nat>, b: map<ObjectState, nat>, s: ObjectState)
    ensures CountOf(AddCounts(a, b), s) == CountOf(a, s) + CountOf(b, s)
    ensures s in AddCounts(a, b) <==> s in a || s in b
  {}

  /** All entries of a hash, whatever their state. */
  ghost function Entries(t: Table, hash: string): set<Slot> {
    set p | p in t && p.0 == hash
  }

  ghost function EntriesUpTo(tables: seq<Table>, hash: string, k: nat): nat
    requires k <= |tables|
  {
    if k == 0 then 0 else EntriesUpTo(tables, hash, k - 1) + |Entries(tables[k - 1], hash)|
  }

  ghost function InStates(t: Table, hash: string, n: nat): set<Slot>
    requires n <= |STATES|
  {
    set p | p in t && p.0 == hash && t[p].state in STATES[..n]
  }

  ghost function SumSlots(t: Table, hash: string, n: nat): nat
    requires n <= |STATES|
  {
    if n == 0 then 0 else SumSlots(t, hash, n - 1) + |Slots(t, hash, STATES[n - 1])|
  }

  lemma {:induction false} StatesSplit(t: Table, hash: string, n: nat)
    requires n <= |STATES|
    ensures |InStates(t, hash, n)| == SumSlots(t, hash, n)
  {
    if n == 0 {
      assert InStates(t, hash, n) == {};
    } else {
      StatesSplit(t, hash, n - 1);
      StatesStep(t, hash, n);
    }
  }

  lemma StatesStep(t: Table, hash: string, n: nat)
    requires 0 < n <= |STATES|
    ensures InStates(t, hash, n) == InStates(t, hash, n - 1) + Slots(t, hash, STATES[n - 1])
    ensures InStates(t, hash, n - 1) !! Slots(t, hash, STATES[n - 1])
  {
    StatesDiffer(n);
  }

  lemma StatesDiffer(n: nat)
    requires 0 < n <= |STATES|
    ensures STATES[n - 1] !in STATES[..n - 1]
    ensures forall s :: s in STATES[..n] <==> s in STATES[..n - 1] || s == STATES[n - 1]
  {
    assert STATES[..n] == STATES[..n - 1] + [STATES[n - 1]];
    assert forall i, j :: 0 <= i < j < |STATES| ==> STATES[i] != STATES[j];
  }

  lemma EveryState(t: Table, hash: string)
    ensures |Entries(t, hash)| == SumSlots(t, hash, |STATES|)
  {
    StatesSplit(t, hash, |STATES|);
    forall s: ObjectState
      ensures s in STATES[..|STATES|]
    {
      assert STATES[..|STATES|] == STATES;
      assert s == STATES[0] || s == STATES[1] || s == STATES[2] || s == STATES[3] || s == STATES[4] || s == STATES[5];
    }
    assert InStates(t, hash, |STATES|) == Entries(t, hash);
  }

  /** Counts summed over states first or over endpoints first. */
  ghost function Grid(tables: seq<Table>, hash: string, k: nat, n: nat): nat
    requires k <= |tables| && n <= |STATES|
  {
    if n == 0 then 0 else Grid(tables, hash, k, n - 1) + CountUpTo(tables, hash, STATES[n - 1], k)
  }

  lemma {:induction false} GridNext(tables: seq<Table>, hash: string, k: nat, n: nat)
    requires 0 < k <= |tables| && n <= |STATES|
    ensures Grid(tables, hash, k, n) == Grid(tables, hash, k - 1, n) + SumSlots(tables[k - 1], hash, n)
  {
    if n > 0 {
      GridNext(tables, hash, k, n - 1);
    }
  }

  lemma {:induction false} GridNone(tables: seq<Table>, hash: string, n: nat)
    requires n <= |STATES|
    ensures Grid(tables, hash, 0, n) == 0
  {
    if n > 0 {
      GridNone(tables, hash, n - 1);
    }
  }

  lemma {:induction false} GridIsEntries(tables: seq<Table>, hash: string, k: nat)
    requires k <= |tables|
    ensures Grid(tables, hash, k, |STATES|) == EntriesUpTo(tables, hash, k)
  {
    if k == 0 {
      GridNone(tables, hash, |STATES|);
    } else {
      GridIsEntries(tables, hash, k - 1);
      GridNext(tables, hash, k, |STATES|);
      EveryState(tables[k - 1], hash);
    }
  }

  lemma {:induction false} SumCountsIsGrid(tables: seq<Table>, hash: string, counts: map<ObjectState, nat>, bytes: map<ObjectState, nat>, n: nat)
    requires n <= |STATES| && Sums(tables, hash, |tables|, counts, bytes)
    ensures SumCounts(counts, n) == Grid(tables, hash, |tables|, n)
  {
    if n > 0 {
      SumCountsIsGrid(tables, hash, counts, bytes, n - 1);
      assert Sum(tables, hash, |tables|, STATES[n - 1], counts, bytes);
    }
  }

  /** The report counts what the endpoints hold: by state, and every entry of the hash once in all. */
  lemma ReportIsExact(tables: seq<Table>, hash: string, counts: map<ObjectState, nat>, bytes: map<ObjectState, nat>, expected: nat)
    requires Sums(tables, hash, |tables|, counts, bytes)
    ensures var r := FromStateCounts(counts, bytes, expected);
            && r.createdCount == CountUpTo(tables, hash, Created, |tables|)
            && r.plannedCount == CountUpTo(tables, hash, Planned, |tables|)
            && r.failedCount == CountUpTo(tables, hash, Failed, |tables|)
            && r.totalTracked == EntriesUpTo(tables, hash, |tables|)
            && r.expectedCount == expected && r.stateCounts == counts && r.bytesByState == bytes
            && (r.coversAll <==> 0 < expected && r.createdCount >= expected)
  {
    assert Sum(tables, hash, |tables|, Created, counts, bytes);
    assert Sum(tables, hash, |tables|, Planned, counts, bytes);
    assert Sum(tables, hash, |tables|, Failed, counts, bytes);
    SumCountsIsGrid(tables, hash, counts, bytes, |STATES|);
    GridIsEntries(tables, hash, |tables|);
  }

  class MetadataCache {
    const endpoints: seq<EndpointCache>
    const configHash: string

    ghost predicate Valid()
      reads endpoints
    {
      && 0 < |endpoints| && ':' !in configHash
      && forall e :: 0 <= e < |endpoints| ==> endpoints[e].Valid() && endpoints[e].endpointIndex == e
    }

    ghost function Tables(): (r: seq<Table>)
      reads endpoints
      ensures |r| == |endpoints| && forall e :: 0 <= e < |r| ==> r[e] == endpoints[e].table
    {
      seq(|endpoints|, e requires 0 <= e < |endpoints| reads endpoints => endpoints[e].table)
    }

    constructor (caches: seq<EndpointCache>, hash: string)
      requires 0 < |caches| && ':' !in hash
      requires forall e :: 0 <= e < |caches| ==> caches[e].Valid() && caches[e].endpointIndex == e
      ensures Valid() && endpoints == caches && configHash == hash
    {
      endpoints, configHash := caches, hash;
    }

    function EndpointForFile(idx: usize): EndpointCache
      requires 0 < |endpoints|
    {
      endpoints[idx % |endpoints|]
    }

    /** What the prepare phase does after each upload: the endpoint that owns the file records it. */
    method RecordCreated(idx: usize, path: string, size: nat, createdAt: Option<nat>, checksum: Option<nat>, now: nat)
      requires Valid()
      modifies EndpointForFile(idx)
      ensures Valid()
      ensures var at := if createdAt.Some? then createdAt.value else now;
              Tables() == RouteOp(old(Tables()), UpsertCreated(configHash, idx, path, size, at, checksum))
    {
      var owner := EndpointForFile(idx);
      OwnersDiffer(idx);
      owner.RecordCreated(configHash, idx, path, size, createdAt, checksum, now);
    }

    lemma OwnersDiffer(idx: usize)
      requires Valid()
      ensures forall e :: 0 <= e < |endpoints| && e != idx % |endpoints| ==> endpoints[e] != EndpointForFile(idx)
    {
      forall e | 0 <= e < |endpoints| && e != idx % |endpoints|
        ensures endpoints[e] != EndpointForFile(idx)
      {
        assert endpoints[e].endpointIndex == e;
      }
    }

    method AggregateCoverage(hash: string) returns (counts: map<ObjectState, nat>, bytes: map<ObjectState, nat>)
      requires Valid() && ':' !in hash
      ensures Sums(Tables(), hash, |endpoints|, counts, bytes)
    {
      ghost var tables := Tables();
      counts, bytes := map[], map[];
      for e := 0 to |endpoints|
        invariant Sums(tables, hash, e, counts, bytes)
      {
        var here, hereBytes := endpoints[e].CountAndBytesByState(hash);
        SumsStep(tables, hash, e, counts, bytes, here, hereBytes);
        counts, bytes := AddCounts(counts, here), AddCounts(bytes, hereBytes);
      }
    }

    /** The decision the prepare phase takes before a LIST. */
    method CheckListingCoverage(expected: usize) returns (r: Option<CheckpointCoverage>)
      requires Valid()
      ensures r.None? <==> NothingTracked(Tables(), configHash)
      ensures r.Some? ==> r.value.createdCount == CountUpTo(Tables(), configHash, Created, |endpoints|)
      ensures r.Some? ==> r.value.plannedCount == CountUpTo(Tables(), configHash, Planned, |endpoints|)
      ensures r.Some? ==> r.value.failedCount == CountUpTo(Tables(), configHash, Failed, |endpoints|)
      ensures r.Some? ==> r.value.totalTracked == EntriesUpTo(Tables(), configHash, |endpoints|) && r.value.expectedCount == expected
      ensures r.Some? ==> Sums(Tables(), configHash, |endpoints|, r.value.stateCounts, r.value.bytesByState)
      ensures r.Some? ==> (r.value.coversAll <==> 0 < expected && r.value.createdCount >= expected)
      ensures r.Some? && Routed(Tables(), configHash, expected) ==>
                (r.value.coversAll <==> 0 < expected && AllCreated(Tables(), configHash, expected))
    {
      var counts, bytes := AggregateCoverage(configHash);
      TrackedAnywhere(Tables(), configHash, counts, bytes);
      if counts == map[] {
        return None;
      }
      r := Some(FromStateCounts(counts, bytes, expected));
      ReportIsExact(Tables(), configHash, counts, bytes, expected);
      if Routed(Tables(), configHash, expected) {
        CoverageIsExact(Tables(), configHash, expected);
      }
    }
  }

  ghost predicate NothingTracked(tables: seq<Table>, hash: string) {
    forall e, s :: 0 <= e < |tables| ==> Slots(tables[e], hash, s) == {}
  }

  lemma TrackedAnywhere(tables: seq<Table>, hash: string, counts: map<ObjectState, nat>, bytes: map<ObjectState, nat>)
    requires Sums(tables, hash, |tables|, counts, bytes)
    ensures counts == map[] <==> NothingTracked(tables, hash)
    ensures CountOf(counts, Created) == CountUpTo(tables, hash, Created, |tables|)
  {
    assert Sum(tables, hash, |tables|, Created, counts, bytes);
    if counts == map[] {
      forall e, s | 0 <= e < |tables|
        ensures Slots(tables[e], hash, s) == {}
      {
        assert Sum(tables, hash, |tables|, s, counts, bytes);
        CountGrows(tables, hash, s, e + 1, |tables|);
      }
    } else {
      var s :| s in counts;
      assert Sum(tables, hash, |tables|, s, counts, bytes);
      var e := SomeNonEmpty(tables, hash, s, |tables|);
    }
  }

  lemma {:induction false} SomeNonEmpty(tables: seq<Table>, hash: string, s: ObjectState, k: nat) returns (e: nat)
    requires k <= |tables| && CountUpTo(tables, hash, s, k) > 0
    ensures e < k && Slots(tables[e], hash, s) != {}
  {
    if |Slots(tables[k - 1], hash, s)| > 0 {
      e := k - 1;
    } else {
      e := SomeNonEmpty(tables, hash, s, k - 1);
    }
  }

}
