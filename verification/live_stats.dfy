/** Live statistics: many threads record operations on shared counters and a try-locked histogram while
    a reporter takes snapshots.  GET, PUT and metadata operations share nothing, so the tracker is three
    lanes side by side.  Threads are anonymous: a call in progress is an entry of the bag of calls that
    have reached some point of `record_*`. */
module LiveStats {
  import opened Text
  import Histograms

  datatype Call = Call(bytes: nat, micros: nat)

  /** Who holds the histogram's lock. */
  datatype Holder = Free | Sampling(call: Call) | Reading

  /** One load of a counter by a snapshot. */
  datatype Load = Load(ofBytes: bool, value: nat)

  /** `counted` calls have added to the operation counter only, `summed` ones to both counters. */
  datatype Lane = Lane(
    ops: nat, bytes: nat, hist: multiset<nat>, holder: Holder,
    counted: multiset<Call>, summed: multiset<Call>, finished: multiset<Call>, loads: seq<Load>)

  datatype Step =
    | Begin(call: Call)      // fetch_add(1) on the operation counter
    | AddBytes(call: Call)   // fetch_add(bytes); metadata calls have none
    | TryLock(call: Call)    // try_lock, giving up when someone holds the lock
    | Sample                 // record and unlock
    | SnapshotLock           // the reporter locks the histogram ...
    | SnapshotUnlock         // ... and releases it
    | LoadOps
    | LoadBytes

  const EMPTY := Lane(0, 0, multiset{}, Free, multiset{}, multiset{}, multiset{}, [])

  predicate Enabled(s: Lane, step: Step) {
    match step
    case AddBytes(c) => c in s.counted
    case TryLock(c) => c in s.summed
    case Sample => s.holder.Sampling?
    case SnapshotLock => s.holder == Free
    case SnapshotUnlock => s.holder == Reading
    case _ => true
  }

  /** `sized`: the lane has a byte counter (GET and PUT do, metadata does not). */
  function Apply(sized: bool, s: Lane, step: Step): Lane
    requires Enabled(s, step)
  {
    match step
    case Begin(c) =>
      if sized then s.(ops := s.ops + 1, counted := s.counted + multiset{c})
      else s.(ops := s.ops + 1, summed := s.summed + multiset{c})
    case AddBytes(c) => s.(bytes := s.bytes + c.bytes, counted := s.counted - multiset{c}, summed := s.summed + multiset{c})
    case TryLock(c) =>
      if s.holder == Free then s.(summed := s.summed - multiset{c}, holder := Sampling(c))
      else s.(summed := s.summed - multiset{c}, finished := s.finished + multiset{c})
    case Sample =>
      var c := s.holder.call;
      s.(hist := Recorded(s.hist, c.micros), holder := Free, finished := s.finished + multiset{c})
    case SnapshotLock => s.(holder := Reading)
    case SnapshotUnlock => s.(holder := Free)
    case LoadOps => s.(loads := s.loads + [Load(false, s.ops)])
    case LoadBytes => s.(loads := s.loads + [Load(true, s.bytes)])
  }

  /** An out-of-range latency is dropped. */
  function Recorded(hist: multiset<nat>, micros: nat): multiset<nat> {
    if micros <= Histograms.HIGHEST then hist + multiset{micros} else hist
  }

  predicate CanRun(sized: bool, steps: seq<Step>)
    decreases |steps|, 0
  {
    steps == [] || (CanRun(sized, steps[..|steps| - 1]) && Enabled(Run(sized, steps[..|steps| - 1]), steps[|steps| - 1]))
  }

  function Run(sized: bool, steps: seq<Step>): Lane
    requires CanRun(sized, steps)
    decreases |steps|, 1
  {
    if steps == [] then EMPTY else Apply(sized, Run(sized, steps[..|steps| - 1]), steps[|steps| - 1])
  }

  // === The reference: what the history of calls adds up to ===

  /** The calls begun in a history. */
  function Begun(steps: seq<Step>): multiset<Call> {
    if steps == [] then multiset{}
    else Begun(steps[..|steps| - 1]) + if steps[|steps| - 1].Begin? then multiset{steps[|steps| - 1].call} else multiset{}
  }

  /** What one call contributes. */
  datatype Measure = Bytes | SamplesOf(micros: nat)

  function Weight(c: Call, m: Measure): nat {
    match m
    case Bytes => c.bytes
    case SamplesOf(v) => if c.micros == v && v <= Histograms.HIGHEST then 1 else 0
  }

  ghost function Weigh(calls: multiset<Call>, m: Measure): nat
    decreases |calls|
  {
    if calls == multiset{} then 0
    else
      var c :| c in calls;
      Weight(c, m) + Weigh(calls - multiset{c}, m)
  }

  lemma WeighUnfold(calls: multiset<Call>, m: Measure) returns (first: Call)
    requires calls != multiset{}
    ensures first in calls && Weigh(calls, m) == Weight(first, m) + Weigh(calls - multiset{first}, m)
  {
    first :| first in calls && Weigh(calls, m) == Weight(first, m) + Weigh(calls - multiset{first}, m);
  }

  lemma {:induction false} WeighAdd(calls: multiset<Call>, c: Call, m: Measure)
    ensures Weigh(calls + multiset{c}, m) == Weigh(calls, m) + Weight(c, m)
    decreases |calls|
  {
    hide Weight, Weigh;
    var all := calls + multiset{c};
    var first := WeighUnfold(all, m);
    if first == c {
      assert all - multiset{c} == calls;
    } else {
      var rest := calls - multiset{first};
      assert all - multiset{first} == rest + multiset{c};
      WeighAdd(rest, c, m);
      assert rest + multiset{first} == calls;
      WeighAdd(rest, first, m);
    }
  }

  lemma WeighRemove(calls: multiset<Call>, c: Call, m: Measure)
    requires c in calls
    ensures Weigh(calls, m) == Weigh(calls - multiset{c}, m) + Weight(c, m)
  {
    assert calls == calls - multiset{c} + multiset{c};
    WeighAdd(calls - multiset{c}, c, m);
  }

  /** The reference in its own words: each call adds its size once, and its latency once if in range. */
  lemma WeighIsSum(calls: multiset<Call>, c: Call, v: nat)
    ensures Weigh(multiset{}, Bytes) == Weigh(multiset{}, SamplesOf(v)) == 0
    ensures Weigh(calls + multiset{c}, Bytes) == Weigh(calls, Bytes) + c.bytes
    ensures Weigh(calls + multiset{c}, SamplesOf(v)) == Weigh(calls, SamplesOf(v)) + if c.micros == v && v <= 3_600_000_000 then 1 else 0
  {
    WeighAdd(calls, c, Bytes);
    WeighAdd(calls, c, SamplesOf(v));
  }

  // === Accounting ===

  function HeldCall(s: Lane): multiset<Call> {
    if s.holder.Sampling? then multiset{s.holder.call} else multiset{}
  }

  /** In how many places a call is; each call is in exactly one. */
  function Places(s: Lane, c: Call): nat {
    s.counted[c] + s.summed[c] + HeldCall(s)[c] + s.finished[c]
  }

  /** Calls are neither lost nor duplicated, the counters hold what the calls added so far, and every
      sample is the latency of a finished call. */
  ghost predicate Accounted(sized: bool, s: Lane, begun: multiset<Call>) {
    && (forall c :: Places(s, c) == begun[c])
    && s.ops == |begun|
    && s.bytes + Weigh(s.counted, Bytes) == (if sized then Weigh(begun, Bytes) else 0)
    && (!sized ==> s.counted == multiset{})
    && |s.hist| <= |s.finished|
    && (forall v :: s.hist[v] <= Weigh(s.finished, SamplesOf(v)))
  }

  function Added(step: Step): multiset<Call> {
    if step.Begin? then multiset{step.call} else multiset{}
  }

  lemma Moves(source: multiset<Call>, target: multiset<Call>, x: Call, c: Call)
    requires x in source
    ensures (source - multiset{x})[c] + (target + multiset{x})[c] == source[c] + target[c]
  {}

  lemma AddBytesConserves(sized: bool, s: Lane, x: Call, c: Call)
    requires Enabled(s, AddBytes(x))
    ensures Places(Apply(sized, s, AddBytes(x)), c) == Places(s, c)
  {
    Moves(s.counted, s.summed, x, c);
  }

  lemma TryLockConserves(sized: bool, s: Lane, x: Call, c: Call)
    requires Enabled(s, TryLock(x))
    ensures Places(Apply(sized, s, TryLock(x)), c) == Places(s, c)
  {
    if s.holder == Free {
      Moves(s.summed, multiset{}, x, c);
    } else {
      Moves(s.summed, s.finished, x, c);
    }
  }

  lemma OtherConserves(sized: bool, s: Lane, step: Step, c: Call)
    requires Enabled(s, step) && !step.AddBytes? && !step.TryLock?
    ensures Places(Apply(sized, s, step), c) == Places(s, c) + Added(step)[c]
  {
    hide Recorded;
  }

  lemma StepConserves(sized: bool, s: Lane, step: Step, c: Call)
    requires Enabled(s, step)
    ensures Places(Apply(sized, s, step), c) == Places(s, c) + Added(step)[c]
  {
    hide Places, Apply, Enabled;
    match step
    case AddBytes(x) => AddBytesConserves(sized, s, x, c);
    case TryLock(x) => TryLockConserves(sized, s, x, c);
    case _ => OtherConserves(sized, s, step, c);
  }

  lemma StepGrows(sized: bool, s: Lane, step: Step, begun: multiset<Call>)
    requires Enabled(s, step) && s.ops == |begun| && |s.hist| <= |s.finished| && (!sized ==> s.counted == multiset{})
    ensures var t := Apply(sized, s, step);
            t.ops == |begun + Added(step)| && |t.hist| <= |t.finished| && (!sized ==> t.counted == multiset{})
  {
    match step
    case Begin(x) => assert |begun + multiset{x}| == |begun| + 1;
    case TryLock(x) => assert |s.finished + multiset{x}| == |s.finished| + 1;
    case Sample =>
      assert |Recorded(s.hist, s.holder.call.micros)| <= |s.hist| + 1;
      assert |s.finished + multiset{s.holder.call}| == |s.finished| + 1;
    case _ =>
  }

  lemma StepAddsBytes(sized: bool, s: Lane, step: Step, begun: multiset<Call>)
    requires Enabled(s, step) && Accounted(sized, s, begun)
    ensures var t := Apply(sized, s, step);
            t.bytes + Weigh(t.counted, Bytes) == (if sized then Weigh(begun + Added(step), Bytes) else 0)
  {
    hide Weigh, Recorded;
    match step
    case Begin(c) =>
      WeighAdd(s.counted, c, Bytes);
      WeighAdd(begun, c, Bytes);
    case AddBytes(c) =>
      WeighRemove(s.counted, c, Bytes);
      assert begun + multiset{} == begun;
    case _ => assert begun + multiset{} == begun;
  }

  /** The step gives up on a sample because the histogram is locked. */
  predicate Dropped(s: Lane, step: Step) {
    step.TryLock? && s.holder != Free
  }

  /** A sample enters the histogram only when its call finishes. */
  lemma StepSamples(sized: bool, s: Lane, step: Step, v: nat)
    requires Enabled(s, step)
    ensures var t := Apply(sized, s, step);
            && Weigh(s.finished, SamplesOf(v)) + t.hist[v] <= Weigh(t.finished, SamplesOf(v)) + s.hist[v]
            && (!Dropped(s, step) ==> Weigh(s.finished, SamplesOf(v)) + t.hist[v] == Weigh(t.finished, SamplesOf(v)) + s.hist[v])
  {
    hide Weigh;
    match step
    case TryLock(c) => WeighAdd(s.finished, c, SamplesOf(v));
    case Sample => WeighAdd(s.finished, s.holder.call, SamplesOf(v));
    case _ =>
  }

  lemma StepStaysAccounted(sized: bool, s: Lane, step: Step, begun: multiset<Call>)
    requires Enabled(s, step) && Accounted(sized, s, begun)
    ensures Accounted(sized, Apply(sized, s, step), begun + Added(step))
  {
    hide Weigh, Places, Apply, Enabled, Added;
    StepAddsBytes(sized, s, step, begun);
    StepGrows(sized, s, step, begun);
    var t := Apply(sized, s, step);
    forall c
      ensures Places(t, c) == (begun + Added(step))[c]
    {
      StepConserves(sized, s, step, c);
    }
    forall v
      ensures t.hist[v] <= Weigh(t.finished, SamplesOf(v))
    {
      StepSamples(sized, s, step, v);
    }
  }

  /** In every interleaving. */
  lemma {:induction false} RunStaysAccounted(sized: bool, steps: seq<Step>)
    requires CanRun(sized, steps)
    ensures Accounted(sized, Run(sized, steps), Begun(steps))
  {
    if steps != [] {
      var front, step := steps[..|steps| - 1], steps[|steps| - 1];
      RunStaysAccounted(sized, front);
      StepStaysAccounted(sized, Run(sized, front), step, Begun(front));
      hide Apply, Enabled, Accounted;
    }
  }

  /** The histogram never holds more samples than the operation counter says, and never a latency more
      often than calls of that latency were begun. */
  lemma SamplesNeverExceedOps(sized: bool, steps: seq<Step>)
    requires CanRun(sized, steps)
    ensures |Run(sized, steps).hist| <= Run(sized, steps).ops
  {
    RunStaysAccounted(sized, steps);
    FinishedWereBegun(sized, Run(sized, steps), Begun(steps));
    hide Run, CanRun, Weigh, Places;
  }

  lemma FinishedWereBegun(sized: bool, s: Lane, begun: multiset<Call>)
    requires Accounted(sized, s, begun)
    ensures s.finished <= begun && |s.finished| <= |begun|
  {
    hide Weigh, HeldCall;
    forall c
      ensures s.finished[c] <= begun[c]
    {
      assert Places(s, c) == begun[c];
    }
    assert begun == s.finished + (begun - s.finished);
  }

  predicate Quiescent(s: Lane) {
    s.counted == multiset{} && s.summed == multiset{} && !s.holder.Sampling?
  }

  /** When no call is in progress the counters are exact, whatever samples were dropped: the operation
      counter is the number of calls and the byte counter the sum of their sizes. */
  lemma QuiescentIsExact(sized: bool, steps: seq<Step>)
    requires CanRun(sized, steps) && Quiescent(Run(sized, steps))
    ensures Run(sized, steps).ops == |Begun(steps)|
    ensures Run(sized, steps).bytes == if sized then Weigh(Begun(steps), Bytes) else 0
    ensures Run(sized, steps).finished == Begun(steps)
  {
    RunStaysAccounted(sized, steps);
    var s, begun := Run(sized, steps), Begun(steps);
    forall c
      ensures s.finished[c] == begun[c]
    {
      assert Places(s, c) == begun[c];
    }
    assert s.finished == begun;
  }

  predicate NoneDropped(sized: bool, steps: seq<Step>)
    requires CanRun(sized, steps)
    decreases |steps|
  {
    steps == [] || (NoneDropped(sized, steps[..|steps| - 1]) && !Dropped(Run(sized, steps[..|steps| - 1]), steps[|steps| - 1]))
  }

  /** Contention is the only way to lose an in-range sample: in a run where no `try_lock` fails the
      histogram holds exactly the latencies of the finished calls. */
  lemma {:induction false} UncontendedIsExact(sized: bool, steps: seq<Step>, v: nat)
    requires CanRun(sized, steps) && NoneDropped(sized, steps)
    ensures Run(sized, steps).hist[v] == Weigh(Run(sized, steps).finished, SamplesOf(v))
  {
    if steps != [] {
      var front := steps[..|steps| - 1];
      UncontendedIsExact(sized, front, v);
      StepSamples(sized, Run(sized, front), steps[|steps| - 1], v);
      hide Weigh, Apply, Enabled, Dropped;
    }
  }

  // === Snapshots ===

  function ValueNow(s: Lane, load: Load): nat {
    if load.ofBytes then s.bytes else s.ops
  }

  /** Loads of one counter never go down, and none is ahead of the counter. */
  predicate Monotone(s: Lane) {
    && (forall i :: 0 <= i < |s.loads| ==> s.loads[i].value <= ValueNow(s, s.loads[i]))
    && (forall i, j :: 0 <= i < j < |s.loads| && s.loads[i].ofBytes == s.loads[j].ofBytes ==> s.loads[i].value <= s.loads[j].value)
  }

  lemma MonotoneSnoc(s: Lane, t: Lane, load: Load)
    requires Monotone(s) && s.ops <= t.ops && s.bytes <= t.bytes
    requires t.loads == s.loads + [load] && ValueNow(s, load) == load.value
    ensures Monotone(t)
  {
    forall i, j | 0 <= i < j < |t.loads| && t.loads[i].ofBytes == t.loads[j].ofBytes
      ensures t.loads[i].value <= t.loads[j].value
    {
      assert t.loads[i] == s.loads[i];
      if j == |s.loads| {
        assert s.loads[i].value <= ValueNow(s, s.loads[i]);
      } else {
        assert t.loads[j] == s.loads[j];
      }
    }
  }

  lemma MonotoneSame(s: Lane, t: Lane)
    requires Monotone(s) && s.ops <= t.ops && s.bytes <= t.bytes && t.loads == s.loads
    ensures Monotone(t)
  {}

  lemma StepKeepsMonotone(sized: bool, s: Lane, step: Step)
    requires Enabled(s, step) && Monotone(s)
    ensures Monotone(Apply(sized, s, step))
  {
    var t := Apply(sized, s, step);
    LoadsGrow(sized, s, step);
    hide Apply, Enabled, Monotone;
    if t.loads == s.loads {
      MonotoneSame(s, t);
    } else {
      MonotoneSnoc(s, t, if t.loads == s.loads + [Load(true, s.bytes)] then Load(true, s.bytes) else Load(false, s.ops));
    }
  }

  lemma LoadsGrow(sized: bool, s: Lane, step: Step)
    requires Enabled(s, step)
    ensures var t := Apply(sized, s, step);
            && s.ops <= t.ops && s.bytes <= t.bytes
            && (t.loads == s.loads || t.loads == s.loads + [Load(true, s.bytes)] || t.loads == s.loads + [Load(false, s.ops)])
  {
    hide Recorded;
  }

  /** Successive snapshots never see a counter go down, whatever happens between and during them. */
  lemma {:induction false} SnapshotsAreMonotone(sized: bool, steps: seq<Step>)
    requires CanRun(sized, steps)
    ensures Monotone(Run(sized, steps))
  {
    if steps != [] {
      var front := steps[..|steps| - 1];
      SnapshotsAreMonotone(sized, front);
      StepKeepsMonotone(sized, Run(sized, front), steps[|steps| - 1]);
      hide Apply, Enabled, Monotone;
    }
  }

  /** A load reports the truth of its moment: the operations begun so far, and, when no call is in
      progress, the sum of their sizes. */
  lemma LoadsAreTrue(sized: bool, steps: seq<Step>)
    requires CanRun(sized, steps)
    ensures CanRun(sized, steps + [LoadOps]) && Run(sized, steps + [LoadOps]).loads == Run(sized, steps).loads + [Load(false, |Begun(steps)|)]
    ensures CanRun(sized, steps + [LoadBytes])
    ensures Quiescent(Run(sized, steps)) ==>
              Run(sized, steps + [LoadBytes]).loads == Run(sized, steps).loads + [Load(true, if sized then Weigh(Begun(steps), Bytes) else 0)]
  {
    RunStaysAccounted(sized, steps);
    assert (steps + [LoadOps])[..|steps|] == steps && (steps + [LoadBytes])[..|steps|] == steps;
    if Quiescent(Run(sized, steps)) {
      QuiescentIsExact(sized, steps);
    }
    hide Weigh, Begun, Places;
  }

  // === The tracker ===

  datatype Op = Get | Put | Meta

  datatype Tracker = Tracker(get: Lane, put: Lane, meta: Lane)

  datatype TrackerStep = TrackerStep(op: Op, step: Step)

  function LaneOf(t: Tracker, op: Op): Lane {
    match op case Get => t.get case Put => t.put case Meta => t.meta
  }

  function ApplyTracker(t: Tracker, s: TrackerStep): Tracker
    requires Enabled(LaneOf(t, s.op), s.step)
  {
    var next := Apply(s.op != Meta, LaneOf(t, s.op), s.step);
    match s.op case Get => t.(get := next) case Put => t.(put := next) case Meta => t.(meta := next)
  }

  predicate TrackerCanRun(steps: seq<TrackerStep>)
    decreases |steps|, 0
  {
    steps == []
    || (TrackerCanRun(steps[..|steps| - 1])
        && Enabled(LaneOf(RunTracker(steps[..|steps| - 1]), steps[|steps| - 1].op), steps[|steps| - 1].step))
  }

  function RunTracker(steps: seq<TrackerStep>): Tracker
    requires TrackerCanRun(steps)
    decreases |steps|, 1
  {
    if steps == [] then Tracker(EMPTY, EMPTY, EMPTY) else ApplyTracker(RunTracker(steps[..|steps| - 1]), steps[|steps| - 1])
  }

  /** The steps of one kind of operation. */
  function Only(steps: seq<TrackerStep>, op: Op): seq<Step> {
    if steps == [] then []
    else Only(steps[..|steps| - 1], op) + if steps[|steps| - 1].op == op then [steps[|steps| - 1].step] else []
  }

  /** Whatever the threads of all kinds do, each lane is as if its own steps had run alone. */
  lemma {:induction false} LanesAreIndependent(steps: seq<TrackerStep>, op: Op)
    requires TrackerCanRun(steps)
    ensures CanRun(op != Meta, Only(steps, op))
    ensures LaneOf(RunTracker(steps), op) == Run(op != Meta, Only(steps, op))
  {
    if steps != [] {
      var front, s := steps[..|steps| - 1], steps[|steps| - 1];
      LanesAreIndependent(front, op);
      hide Apply, Enabled;
      var own := Only(front, op);
      if s.op == op {
        assert (own + [s.step])[..|own|] == own;
      } else {
        assert own + [] == own;
      }
    }
  }
}
