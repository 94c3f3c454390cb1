/** The lock-free flush protocol of `EndpointCache` as interleaved atomic steps.

    Any number of threads write, flush and force-flush at once.  The only shared state is the
    keyspace (a log of inserts), the mark up to which it is durable, and the `pending_writes`
    atomic.  `fetch_add`, `store(0)` and `persist` are separate steps, so a thread can wipe out
    increments of writes that finished after its own decision to flush. */
module FlushProtocol {
  import opened Text

  datatype Policy = Immediate | BatchSize(threshold: nat) | AsyncInterval(secs: nat)

  /** Where a thread stands inside a cache call. */
  datatype Phase =
    | Idle
    | Inserted(position: Option<nat>)  // insert done (None: the key was missing), maybe_flush not yet
    | MustStore                        // saw pending >= threshold
    | MustPersist                      // counter reset, persist still to come

  datatype State = State(
    recorded: nat,              // inserts made so far
    durable: nat,               // the first `durable` of them survive a crash
    counter: nat,               // pending_writes
    phases: map<nat, Phase>,    // by thread; a thread that is not listed is Idle
    failed: bool)               // some persist failed since the last successful one

  datatype Step =
    | Insert(thread: nat)
    | FindNothing(thread: nat)
    | Decide(thread: nat)       // the policy branch of maybe_flush, with its fetch_add
    | StoreZero(thread: nat)
    | Persist(thread: nat)
    | PersistFails(thread: nat)
    | ForceFlush(thread: nat)   // the swap(0) of force_flush

  function PhaseOf(s: State, thread: nat): Phase {
    if thread in s.phases then s.phases[thread] else Idle
  }

  ghost predicate Quiescent(s: State) {
    forall thread :: PhaseOf(s, thread) == Idle
  }

  predicate Flushed(s: State) {
    s.durable == s.recorded && s.counter == 0 && s.phases == map[] && !s.failed
  }

  predicate Enabled(s: State, step: Step) {
    match step
    case Insert(th) => PhaseOf(s, th).Idle?
    case FindNothing(th) => PhaseOf(s, th).Idle?
    case ForceFlush(th) => PhaseOf(s, th).Idle?
    case Decide(th) => PhaseOf(s, th).Inserted?
    case StoreZero(th) => PhaseOf(s, th).MustStore?
    case Persist(th) => PhaseOf(s, th).MustPersist?
    case PersistFails(th) => PhaseOf(s, th).MustPersist?
  }

  function Goto(s: State, thread: nat, phase: Phase): State {
    s.(phases := s.phases[thread := phase])
  }

  function Apply(policy: Policy, s: State, step: Step): State
    requires Enabled(s, step)
  {
    match step
    case Insert(th) => Goto(s, th, Inserted(Some(s.recorded))).(recorded := s.recorded + 1)
    case FindNothing(th) => Goto(s, th, Inserted(None))
    case ForceFlush(th) => Goto(s, th, MustPersist).(counter := 0)
    case StoreZero(th) => Goto(s, th, MustPersist).(counter := 0)
    case Persist(th) => Goto(s, th, Idle).(durable := s.recorded, failed := false)
    case PersistFails(th) => Goto(s, th, Idle).(failed := true)
    case Decide(th) =>
      match policy
      case Immediate => Goto(s, th, MustPersist)
      case AsyncInterval(_) => Goto(s, th, Idle).(counter := s.counter + 1)
      case BatchSize(t) =>
        Goto(s, th, if s.counter + 1 >= t then MustStore else Idle).(counter := s.counter + 1)
  }

  /** `steps` is one interleaving; every step must be enabled when its turn comes. */
  predicate CanRun(policy: Policy, s: State, steps: seq<Step>)
    decreases |steps|
  {
    steps == [] || (Enabled(s, steps[0]) && CanRun(policy, Apply(policy, s, steps[0]), steps[1..]))
  }

  function Run(policy: Policy, s: State, steps: seq<Step>): State
    requires CanRun(policy, s, steps)
    decreases |steps|
  {
    if steps == [] then s else Run(policy, Apply(policy, s, steps[0]), steps[1..])
  }

  lemma {:induction false} RunConcat(policy: Policy, s: State, a: seq<Step>, b: seq<Step>)
    requires CanRun(policy, s, a) && CanRun(policy, Run(policy, s, a), b)
    ensures CanRun(policy, s, a + b) && Run(policy, s, a + b) == Run(policy, Run(policy, s, a), b)
    decreases |a|
  {
    hide Apply, Enabled;
    if a == [] {
      assert a + b == b;
    } else {
      RunConcat(policy, Apply(policy, s, a[0]), a[1..], b);
      assert (a + b)[1..] == a[1..] + b;
    }
  }

  // === The bound ===

  /** The number of counted, unflushed writes at which a call is obliged to flush. */
  function Limit(policy: Policy): nat {
    match policy
    case BatchSize(t) => if t == 0 then 1 else t
    case _ => 1
  }

  /** `since` is where the run began: writes before it may be unflushed and uncounted, as after a change
      of policy.  Of the others, `live` holds the writes whose increment is still in the counter.  Every other write that is
      not durable is in the hands of a thread that has not counted it yet, or of a thread that
      wiped its count and still has to persist. */
  ghost predicate Accounted(policy: Policy, s: State, since: nat, live: set<nat>) {
    && s.durable <= s.recorded
    && |live| <= s.counter
    && (forall p :: s.durable <= p < s.recorded ==>
         || p < since
         || p in live
         || (exists th :: PhaseOf(s, th) == Inserted(Some(p)))
         || (exists th :: PhaseOf(s, th) == MustPersist)
         || s.failed)
    && (s.counter >= Limit(policy) ==> exists th :: PhaseOf(s, th) == MustStore)
  }

  lemma StepStaysAccounted(policy: Policy, s: State, step: Step, since: nat, live: set<nat>) returns (live': set<nat>)
    requires !policy.AsyncInterval?
    requires Accounted(policy, s, since, live) && Enabled(s, step)
    ensures Accounted(policy, Apply(policy, s, step), since, live')
  {
    var s' := Apply(policy, s, step);
    var me := step.thread;
    forall th | th != me
      ensures PhaseOf(s', th) == PhaseOf(s, th)
    {}
    assert PhaseOf(s', me) == s'.phases[me];
    live' := live;
    match step
    case Insert(_) =>
    case FindNothing(_) =>
    case ForceFlush(_) => live' := {};
    case StoreZero(_) => live' := {};
    case Persist(_) =>
    case PersistFails(_) =>
    case Decide(_) =>
      if policy.BatchSize? {
        match PhaseOf(s, me).position
        case None =>
        case Some(p) => live' := live + {p};
      }
  }

  lemma {:induction false} RunStaysAccounted(policy: Policy, s: State, steps: seq<Step>, since: nat, live: set<nat>)
      returns (live': set<nat>)
    requires !policy.AsyncInterval?
    requires Accounted(policy, s, since, live) && CanRun(policy, s, steps)
    ensures Accounted(policy, Run(policy, s, steps), since, live')
    decreases |steps|
  {
    if steps == [] {
      live' := live;
    } else {
      var mid := StepStaysAccounted(policy, s, steps[0], since, live);
      live' := RunStaysAccounted(policy, Apply(policy, s, steps[0]), steps[1..], since, mid);
    }
  }

  lemma {:induction false} IntervalSize(lo: nat, hi: nat, cover: set<nat>)
    requires lo <= hi
    requires forall p :: lo <= p < hi ==> p in cover
    ensures hi - lo <= |cover|
    decreases hi
  {
    if lo < hi {
      IntervalSize(lo, hi - 1, cover - {hi - 1});
    }
  }

  /** However the threads interleave, once no call is in progress (and the last persist succeeded)
      fewer than `Limit` completed writes are not durable, besides those that were already unflushed
      and uncounted at the start. */
  lemma LostAfterUncountedStart(policy: Policy, start: State, steps: seq<Step>)
    requires !policy.AsyncInterval?
    requires Uncounted(start) && CanRun(policy, start, steps)
    ensures var end := Run(policy, start, steps);
            Quiescent(end) && !end.failed ==>
              && start.durable <= end.durable <= end.recorded
              && end.recorded - end.durable <= (if end.durable < start.recorded then start.recorded - end.durable else 0) + Limit(policy) - 1
  {
    var live := RunStaysAccounted(policy, start, steps, start.recorded, {});
    RunGrows(policy, start, steps);
    var end := Run(policy, start, steps);
    if Quiescent(end) && !end.failed {
      var lo := if end.durable < start.recorded then start.recorded else end.durable;
      assert lo <= end.recorded;
      IntervalSize(lo, end.recorded, live);
    }
  }

  /** Nothing in progress and nothing counted, as after `set_flush_policy`, which zeroes the counter and
      flushes nothing. */
  predicate Uncounted(s: State) {
    s.durable <= s.recorded && s.counter == 0 && s.phases == map[] && !s.failed
  }

  lemma {:induction false} RunGrows(policy: Policy, s: State, steps: seq<Step>)
    requires s.durable <= s.recorded && CanRun(policy, s, steps)
    ensures s.durable <= Run(policy, s, steps).durable <= Run(policy, s, steps).recorded && s.recorded <= Run(policy, s, steps).recorded
    decreases |steps|
  {
    if steps != [] {
      RunGrows(policy, Apply(policy, s, steps[0]), steps[1..]);
    }
  }

  /** From a flushed start at most t-1 completed writes (none for Immediate) are not durable. */
  lemma AtMostThresholdMinusOneLost(policy: Policy, start: State, steps: seq<Step>)
    requires !policy.AsyncInterval?
    requires Flushed(start) && CanRun(policy, start, steps)
    ensures var end := Run(policy, start, steps);
            Quiescent(end) && !end.failed ==>
              && end.durable <= end.recorded
              && (policy.Immediate? ==> end.durable == end.recorded)
              && (policy.BatchSize? && policy.threshold >= 1 ==> end.recorded - end.durable <= policy.threshold - 1)
              && (policy.BatchSize? && policy.threshold == 0 ==> end.durable == end.recorded)
  {
    LostAfterUncountedStart(policy, start, steps);
  }

  /** The bound after a change of policy is reached: the writes the old policy had counted and not
      flushed stay behind, with t-1 new ones. */
  lemma PolicyChangeBoundIsReached(t: nat, start: State) returns (steps: seq<Step>)
    requires t >= 1 && Uncounted(start)
    ensures CanRun(BatchSize(t), start, steps)
    ensures var end := Run(BatchSize(t), start, steps);
            Quiescent(end) && !end.failed && end.durable == start.durable
            && end.recorded - end.durable == start.recorded - start.durable + t - 1
  {
    steps := UncountedWrites(BatchSize(t), start, t - 1);
  }

  /** What a forced flush promises: when it returns without an error, everything recorded before the
      call is durable, whatever other threads did in between and have done since. */
  lemma ForceFlushCovers(policy: Policy, s: State, th: nat, steps: seq<Step>)
    requires s.durable <= s.recorded && Enabled(s, ForceFlush(th))
    requires CanRun(policy, Apply(policy, s, ForceFlush(th)), steps) && PersistFails(th) !in steps
    ensures var end := Run(policy, Apply(policy, s, ForceFlush(th)), steps);
            PhaseOf(end, th) != MustPersist ==> s.recorded <= end.durable
  {
    PersistCovers(policy, Apply(policy, s, ForceFlush(th)), th, steps, s.recorded);
  }

  lemma {:induction false} PersistCovers(policy: Policy, s: State, th: nat, steps: seq<Step>, upto: nat)
    requires s.durable <= s.recorded && upto <= s.recorded && (PhaseOf(s, th) == MustPersist || upto <= s.durable)
    requires CanRun(policy, s, steps) && PersistFails(th) !in steps
    ensures PhaseOf(Run(policy, s, steps), th) != MustPersist ==> upto <= Run(policy, s, steps).durable
    decreases |steps|
  {
    if steps != [] {
      PersistCovers(policy, Apply(policy, s, steps[0]), th, steps[1..], upto);
    }
  }

  // === The bound is exact, and what it depends on ===

  /** `n` writes by one thread, none of which reaches the threshold. */
  lemma {:induction false} UncountedWrites(policy: Policy, s: State, n: nat) returns (steps: seq<Step>)
    requires PhaseOf(s, 0).Idle?
    requires policy.AsyncInterval? || (policy.BatchSize? && s.counter + n < policy.threshold)
    ensures |steps| == 2 * n && CanRun(policy, s, steps)
    ensures forall step <- steps :: !step.ForceFlush?
    ensures var end := Run(policy, s, steps);
            && end == s.(recorded := s.recorded + n, counter := s.counter + n, phases := end.phases)
            && forall th :: PhaseOf(end, th) == PhaseOf(s, th)
    decreases n
  {
    if n == 0 {
      steps := [];
    } else {
      var s1 := Apply(policy, s, Insert(0));
      var s2 := Apply(policy, s1, Decide(0));
      var rest := UncountedWrites(policy, s2, n - 1);
      steps := [Insert(0), Decide(0)] + rest;
      assert steps[1..][0] == Decide(0) && steps[1..][1..] == rest;
      assert CanRun(policy, s1, steps[1..]);
      forall th
        ensures PhaseOf(s2, th) == PhaseOf(s, th)
      {}
    }
  }

  /** No smaller bound holds: some run leaves exactly threshold-1 writes behind. */
  lemma BoundIsReached(t: nat, start: State) returns (steps: seq<Step>)
    requires t >= 1 && Flushed(start)
    ensures CanRun(BatchSize(t), start, steps)
    ensures var end := Run(BatchSize(t), start, steps);
            Quiescent(end) && !end.failed && end.recorded - end.durable == t - 1
  {
    steps := UncountedWrites(BatchSize(t), start, t - 1);
  }

  /** Under the default policy nothing but a forced flush ever persists: the code starts no
      background flusher. */
  lemma {:induction false} AsyncNeverPersists(secs: nat, s: State, steps: seq<Step>)
    requires CanRun(AsyncInterval(secs), s, steps)
    requires forall th :: PhaseOf(s, th) != MustPersist && PhaseOf(s, th) != MustStore
    requires forall step <- steps :: !step.ForceFlush?
    ensures Run(AsyncInterval(secs), s, steps).durable == s.durable
    decreases |steps|
  {
    if steps != [] {
      var s' := Apply(AsyncInterval(secs), s, steps[0]);
      forall th
        ensures PhaseOf(s', th) != MustPersist && PhaseOf(s', th) != MustStore
      {
        assert PhaseOf(s', steps[0].thread) == s'.phases[steps[0].thread];
        assert th != steps[0].thread ==> PhaseOf(s', th) == PhaseOf(s, th);
      }
      AsyncNeverPersists(secs, s', steps[1..]);
    }
  }

  /** So under the default policy any number of completed writes can be lost. */
  lemma AsyncLossIsUnbounded(secs: nat, start: State, n: nat) returns (steps: seq<Step>)
    requires Flushed(start)
    ensures CanRun(AsyncInterval(secs), start, steps)
    ensures var end := Run(AsyncInterval(secs), start, steps);
            Quiescent(end) && !end.failed && end.recorded - end.durable == n
  {
    steps := UncountedWrites(AsyncInterval(secs), start, n);
  }

  /** One round of `t` writes whose persist fails: the counter is back at 0, nothing is durable. */
  lemma FailOnce(t: nat, s: State) returns (steps: seq<Step>)
    requires t >= 1 && s.counter == 0 && Quiescent(s)
    ensures CanRun(BatchSize(t), s, steps)
    ensures var end := Run(BatchSize(t), s, steps);
            Quiescent(end) && end.counter == 0 && end.durable == s.durable && end.recorded == s.recorded + t
  {
    var policy := BatchSize(t);
    var first := UncountedWrites(policy, s, t - 1);
    var s1 := Run(policy, s, first);
    var s2 := Apply(policy, s1, Insert(0));
    var s3 := Apply(policy, s2, Decide(0));
    var s4 := Apply(policy, s3, StoreZero(0));
    var s5 := Apply(policy, s4, PersistFails(0));
    var last := [Insert(0), Decide(0), StoreZero(0), PersistFails(0)];
    assert last[1..] == [Decide(0), StoreZero(0), PersistFails(0)];
    assert last[1..][1..] == [StoreZero(0), PersistFails(0)];
    assert last[1..][1..][1..] == [PersistFails(0)];
    assert CanRun(policy, s4, [PersistFails(0)]) && Run(policy, s4, [PersistFails(0)]) == s5;
    assert CanRun(policy, s3, last[1..][1..]) && Run(policy, s3, last[1..][1..]) == s5;
    assert CanRun(policy, s2, last[1..]) && Run(policy, s2, last[1..]) == s5;
    RunConcat(policy, s, first, last);
    forall th
      ensures PhaseOf(s5, th) == Idle
    {
      assert th != 0 ==> PhaseOf(s5, th) == PhaseOf(s1, th);
    }
    steps := first + last;
  }

  /** The premise `!failed` is needed: the counter is reset before `persist` is tried, so a failed
      persist forgets the writes it was to cover, and failures add up without limit. */
  lemma {:induction false} FailedPersistsForget(t: nat, s: State, n: nat) returns (steps: seq<Step>)
    requires t >= 1 && s.counter == 0 && Quiescent(s)
    ensures CanRun(BatchSize(t), s, steps)
    ensures var end := Run(BatchSize(t), s, steps);
            Quiescent(end) && end.counter == 0 && end.durable == s.durable && end.recorded == s.recorded + n * t
    decreases n
  {
    hide Quiescent;
    if n == 0 {
      steps := [];
    } else {
      var first := FailOnce(t, s);
      var rest := FailedPersistsForget(t, Run(BatchSize(t), s, first), n - 1);
      RunConcat(BatchSize(t), s, first, rest);
      steps := first + rest;
      assert n * t == t + (n - 1) * t;
    }
  }
}
