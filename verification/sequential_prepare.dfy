/** Sequential prepare with a metadata cache: the LIST-skip test is asked once per pool of objects, and
    all pools of a run share the cache entries of one configuration hash. */
module SequentialPrepare {
  import opened Text
  import opened ObjectCache
  import opened Coverage

  /** The indices of a pool. */
  function Below(count: usize): (r: set<usize>)
    ensures |r| == count && forall i: usize :: i in r <==> i < count
    decreases count
  {
    if count == 0 then {}
    else
      var last: usize := count - 1;
      Below(last) + {last}
  }

  /** What storage holds of each pool. */
  predicate Fits(counts: seq<usize>, stored: seq<set<usize>>) {
    |stored| == |counts| && forall k :: 0 <= k < |counts| ==> stored[k] <= Below(counts[k])
  }

  /** The skip test, when these indices are recorded as created. */
  predicate Skips(created: set<usize>, count: usize) {
    0 < count <= |created|
  }

  /** What is recorded after one pool: an upload records its index, a listed object is not recorded. */
  function CreatedAfter(created: set<usize>, count: usize, stored: set<usize>): set<usize> {
    if Skips(created, count) then created else created + (Below(count) - stored)
  }

  /** What storage holds of the pools after the run, and what is recorded. */
  function Prepared(counts: seq<usize>, stored: seq<set<usize>>, created: set<usize>): (r: (seq<set<usize>>, set<usize>))
    requires |stored| == |counts|
    ensures |r.0| == |counts|
    decreases |counts|
  {
    if counts == [] then ([], created)
    else
      var rest := Prepared(counts[1..], stored[1..], CreatedAfter(created, counts[0], stored[0]));
      ([if Skips(created, counts[0]) then stored[0] else Below(counts[0])] + rest.0, rest.1)
  }

  /** The loop over the pools, without `skip_verification` or `force_overwrite`. */
  method PrepareSequential(cache: MetadataCache, counts: seq<usize>, stored: seq<set<usize>>, ghost created: set<usize>, size: nat, now: nat)
      returns (after: seq<set<usize>>)
    requires cache.Valid() && Fits(counts, stored) && Holds(cache.Tables(), cache.configHash, created)
    modifies cache.endpoints
    ensures cache.Valid()
    ensures after == Prepared(counts, stored, created).0
    ensures Holds(cache.Tables(), cache.configHash, Prepared(counts, stored, created).1)
  {
    hide Holds, Below, Prepared, Skips, CreatedAfter;
    PreparedNil(created);
    after := [];
    ghost var recorded := created;
    for k := 0 to |counts|
      invariant cache.Valid() && Holds(cache.Tables(), cache.configHash, recorded)
      invariant after + Prepared(counts[k..], stored[k..], recorded).0 == Prepared(counts, stored, created).0
      invariant Prepared(counts[k..], stored[k..], recorded).1 == Prepared(counts, stored, created).1
    {
      PreparedCons(counts, stored, recorded, k);
      var have := PreparePool(cache, counts[k], stored[k], recorded, size, now);
      recorded := CreatedAfter(recorded, counts[k], stored[k]);
      after := after + [have];
    }
    PreparedNil(recorded);
    assert counts[|counts|..] == [] && stored[|counts|..] == [];
  }

  lemma PreparedNil(created: set<usize>)
    ensures Prepared([], [], created) == ([], created)
  {}

  lemma PreparedCons(counts: seq<usize>, stored: seq<set<usize>>, created: set<usize>, k: nat)
    requires |stored| == |counts| && k < |counts|
    ensures var rest := Prepared(counts[k + 1..], stored[k + 1..], CreatedAfter(created, counts[k], stored[k]));
            Prepared(counts[k..], stored[k..], created)
              == ([if Skips(created, counts[k]) then stored[k] else Below(counts[k])] + rest.0, rest.1)
  {
    hide Skips, CreatedAfter, Below;
    assert counts[k..][1..] == counts[k + 1..] && stored[k..][1..] == stored[k + 1..];
  }

  /** One pool: ask the cache, else list, and upload what is missing. */
  method PreparePool(cache: MetadataCache, count: usize, listed: set<usize>, ghost created: set<usize>, size: nat, now: nat) returns (have: set<usize>)
    requires cache.Valid() && listed <= Below(count) && Holds(cache.Tables(), cache.configHash, created)
    modifies cache.endpoints
    ensures cache.Valid()
    ensures have == if Skips(created, count) then listed else Below(count)
    ensures Holds(cache.Tables(), cache.configHash, CreatedAfter(created, count, listed))
  {
    hide Holds, Below, Routed, AllCreated, NothingTracked, CountUpTo;
    HoldsCount(cache.Tables(), cache.configHash, created);
    var coverage := cache.CheckListingCoverage(count);
    if coverage.None? {
      NothingIsCreated(cache.Tables(), cache.configHash, |cache.endpoints|);
    }
    if coverage.Some? && coverage.value.coversAll {
      return listed;
    }
    have := UploadMissing(cache, count, listed, created, size, now);
    assert listed + Below(count) == Below(count);
  }

  /** Uploads and records, in order, the indices that the listing does not have. */
  method UploadMissing(cache: MetadataCache, count: usize, listed: set<usize>, ghost created: set<usize>, size: nat, now: nat) returns (have: set<usize>)
    requires cache.Valid() && Holds(cache.Tables(), cache.configHash, created)
    modifies cache.endpoints
    ensures cache.Valid() && have == listed + Below(count)
    ensures Holds(cache.Tables(), cache.configHash, created + (Below(count) - listed))
  {
    hide Holds, RouteOp, Padded, Below, MetadataCache.Valid;
    ghost var recorded := created;
    have := listed;
    var i: usize := 0;
    NoIndex(created, listed);
    while i < count
      invariant i <= count && cache.Valid()
      invariant have == listed + Below(i) && recorded == created + (Below(i) - listed)
      invariant Holds(cache.Tables(), cache.configHash, recorded)
    {
      var next: usize := i + 1;
      if i in listed {
        assert recorded + {} == recorded && have + {} == have;
      } else {
        UploadOne(cache, i, recorded, size, now);
        recorded := recorded + {i};
        have := have + {i};
      }
      NextIndex(created, listed, i);
      i := next;
    }
  }

  /** After the upload of one object the cache records it. */
  method UploadOne(cache: MetadataCache, i: usize, ghost recorded: set<usize>, size: nat, now: nat)
    requires cache.Valid() && Holds(cache.Tables(), cache.configHash, recorded)
    modifies cache.endpoints
    ensures cache.Valid() && Holds(cache.Tables(), cache.configHash, recorded + {i})
  {
    hide Holds, RouteOp, Padded;
    HoldsRecord(cache.Tables(), cache.configHash, recorded, UpsertCreated(cache.configHash, i, Padded(i, 8), size, now, None));
    cache.RecordCreated(i, Padded(i, 8), size, None, None, now);
  }

  lemma NoIndex(created: set<usize>, listed: set<usize>)
    ensures created + (Below(0) - listed) == created && listed + Below(0) == listed
  {}

  lemma NextIndex(created: set<usize>, listed: set<usize>, i: usize)
    requires i < USIZE_MAX
    ensures created + (Below(i + 1) - listed) == created + (Below(i) - listed) + if i in listed then {} else {i}
    ensures listed + Below(i + 1) == listed + Below(i) + if i in listed then {} else {i}
  {}

  lemma {:induction false} NothingIsCreated(tables: seq<Table>, hash: string, k: nat)
    requires NothingTracked(tables, hash) && k <= |tables|
    ensures CountUpTo(tables, hash, Created, k) == 0
  {
    if k > 0 {
      NothingIsCreated(tables, hash, k - 1);
    }
  }

  // === When every pool gets its objects ===

  predicate Complete(counts: seq<usize>, after: seq<set<usize>>) {
    |after| == |counts| && forall k :: 0 <= k < |counts| ==> after[k] == Below(counts[k])
  }

  /** Every pool that is not empty is larger than all pools before it. */
  predicate Rising(counts: seq<usize>) {
    forall j, k :: 0 <= j < k < |counts| && 0 < counts[k] ==> counts[j] < counts[k]
  }

  lemma {:induction false} RisingIsComplete(counts: seq<usize>, stored: seq<set<usize>>, created: set<usize>, most: usize)
    requires Fits(counts, stored) && Rising(counts) && created <= Below(most)
    requires forall k :: 0 <= k < |counts| && 0 < counts[k] ==> most < counts[k]
    ensures Complete(counts, Prepared(counts, stored, created).0)
    decreases |counts|
  {
    hide Below;
    if counts != [] {
      var c := counts[0];
      SubsetHas(created, Below(most));
      assert !Skips(created, c);
      var next := if c > most then c else most;
      BelowGrows(most, next);
      BelowGrows(c, next);
      RisingIsComplete(counts[1..], stored[1..], CreatedAfter(created, c, stored[0]), next);
    }
  }

  lemma SubsetHas(a: set<usize>, b: set<usize>)
    requires a <= b
    ensures |a| <= |b|
  {
    assert b == a + (b - a);
  }

  lemma BelowGrows(a: usize, b: usize)
    requires a <= b
    ensures Below(a) <= Below(b)
  {}

  function Empties(n: nat): seq<set<usize>> {
    seq(n, i => {})
  }

  /** On empty storage a pool no larger than an earlier one is skipped, and stays empty. */
  lemma {:induction false} SmallerIsSkipped(counts: seq<usize>, most: usize, k: nat)
    requires k < |counts| && 0 < counts[k]
    requires counts[k] <= most || exists j :: 0 <= j < k && counts[k] <= counts[j]
    ensures Prepared(counts, Empties(|counts|), Below(most)).0[k] == {}
    decreases |counts|
  {
    hide Below, Prepared;
    PreparedCons(counts, Empties(|counts|), Below(most), 0);
    assert counts[0..] == counts && Empties(|counts|)[0..] == Empties(|counts|);
    if k > 0 {
      var c := counts[0];
      var next := if c > most then c else most;
      NextBelow(most, c);
      assert Empties(|counts|)[1..] == Empties(|counts| - 1);
      SmallerIsSkipped(counts[1..], next, k - 1);
    }
  }

  lemma NextBelow(most: usize, c: usize)
    ensures CreatedAfter(Below(most), c, {}) == Below(if c > most then c else most)
  {
    BelowGrows(if c < most then c else most, if c > most then c else most);
  }

  /** Every pool ends up with all its objects, whatever storage held before, exactly when each pool that
      is not empty is larger than all pools before it. */
  lemma PreparesAllIff(counts: seq<usize>)
    ensures (forall stored :: Fits(counts, stored) ==> Complete(counts, Prepared(counts, stored, {}).0)) <==> Rising(counts)
  {
    hide Prepared;
    if Rising(counts) {
      forall stored | Fits(counts, stored)
        ensures Complete(counts, Prepared(counts, stored, {}).0)
      {
        RisingIsComplete(counts, stored, {}, 0);
      }
    } else {
      var j, k :| 0 <= j < k < |counts| && 0 < counts[k] && counts[j] >= counts[k];
      assert Below(0) == {};
      SmallerIsSkipped(counts, 0, k);
      assert Fits(counts, Empties(|counts|));
      assert Prepared(counts, Empties(|counts|), {}).0[k] != Below(counts[k]);
    }
  }

  /** The pools of a workload that reads and deletes: two of the same size for each entry. */
  function TwoPools(counts: seq<usize>): seq<usize> {
    if counts == [] then [] else TwoPools(counts[..|counts| - 1]) + [counts[|counts| - 1], counts[|counts| - 1]]
  }

  /** With separate pools that is never so: the second pool of an entry is taken for prepared. */
  lemma {:induction false} TwoPoolsRiseIff(counts: seq<usize>)
    ensures |TwoPools(counts)| == 2 * |counts|
    ensures Rising(TwoPools(counts)) <==> forall k :: 0 <= k < |counts| ==> counts[k] == 0
  {
    if counts != [] {
      var n := |counts| - 1;
      var front, pools := TwoPools(counts[..n]), TwoPools(counts);
      TwoPoolsRiseIff(counts[..n]);
      assert forall k :: 0 <= k < n ==> counts[..n][k] == counts[k];
      assert pools[2 * n] == pools[2 * n + 1] == counts[n];
      assert forall i :: 0 <= i < 2 * n ==> pools[i] == front[i];
      if Rising(pools) {
        assert Rising(front);
        assert counts[n] == 0;
      }
    }
  }

  /** The run uploaded this index of some pool: it is stored afterwards and was not before. */
  predicate Uploaded(stored: seq<set<usize>>, after: seq<set<usize>>, i: usize)
    requires |after| == |stored|
  {
    exists k :: 0 <= k < |stored| && i in after[k] && i !in stored[k]
  }

  lemma UploadedCons(s: set<usize>, stored: seq<set<usize>>, a: set<usize>, after: seq<set<usize>>, i: usize)
    requires |after| == |stored|
    ensures Uploaded([s] + stored, [a] + after, i) <==> (i in a && i !in s) || Uploaded(stored, after, i)
  {
    var ss, aa := [s] + stored, [a] + after;
    if k :| 0 <= k < |stored| && i in after[k] && i !in stored[k] {
      assert i in aa[k + 1] && i !in ss[k + 1];
    }
    if i in a && i !in s {
      assert i in aa[0] && i !in ss[0];
    }
    if k :| 0 <= k < |ss| && i in aa[k] && i !in ss[k] {
      assert k > 0 ==> i in after[k - 1] && i !in stored[k - 1];
    }
  }

  /** What is recorded as created is what the run uploaded. */
  lemma {:induction false} RecordedAreUploads(counts: seq<usize>, stored: seq<set<usize>>, created: set<usize>, i: usize)
    requires Fits(counts, stored)
    ensures var (after, recorded) := Prepared(counts, stored, created);
            i in recorded <==> i in created || Uploaded(stored, after, i)
    decreases |counts|
  {
    hide Below, Prepared, Uploaded;
    if counts == [] {
      PreparedNil(created);
      assert stored == [] && !Uploaded([], [], i) by {
        NoUpload(i);
      }
    } else {
      PreparedCons(counts, stored, created, 0);
      assert counts[0..] == counts && stored[0..] == stored && stored == [stored[0]] + stored[1..];
      var c, next := counts[0], CreatedAfter(created, counts[0], stored[0]);
      RecordedAreUploads(counts[1..], stored[1..], next, i);
      UploadedCons(stored[0], stored[1..], if Skips(created, c) then stored[0] else Below(c), Prepared(counts[1..], stored[1..], next).0, i);
    }
  }

  lemma NoUpload(i: usize)
    ensures !Uploaded([], [], i)
  {}
}
