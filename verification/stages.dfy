/** Stage lists: validation, ordering, barrier defaults, and the stages made for a legacy
    configuration. */
module Stages {
  import opened Text

  datatype Completion = Duration | TasksDone | ScriptExit | ValidationPassed | DurationOrTasks

  datatype Kind =
    | Validation
    | Prepare(preparedObjects: Option<nat>)
    | Execute(seconds: nat)
    | Cleanup(cleanedObjects: Option<nat>)
    | Custom(command: string, args: seq<string>)
    | Hybrid(maxSeconds: Option<nat>, tasks: Option<nat>)

  datatype BarrierType = AllOrNothing | Majority | BestEffort

  datatype Barrier = Barrier(barrierType: BarrierType, heartbeat: nat, missed: nat, queryTimeout: nat, queryRetries: nat, agentTimeout: nat)

  datatype Stage = Stage(name: string, order: nat, completion: Completion, barrier: Option<Barrier>, timeout: Option<nat>, optional: bool, kind: Kind)

  datatype BarrierSync = BarrierSync(
    enabled: bool, heartbeat: nat, missed: nat, queryTimeout: nat, queryRetries: nat,
    validation: Option<Barrier>, prepare: Option<Barrier>, execute: Option<Barrier>, cleanup: Option<Barrier>)

  // === Validation ===

  predicate Matches(s: Stage) {
    match s.kind
    case Execute(_) => s.completion == Duration || s.completion == DurationOrTasks
    case Prepare(_) => s.completion == TasksDone || s.completion == DurationOrTasks
    case Cleanup(_) => s.completion == TasksDone || s.completion == DurationOrTasks
    case Custom(_, _) => s.completion == ScriptExit || s.completion == DurationOrTasks
    case Hybrid(_, _) => s.completion == DurationOrTasks
    case Validation => s.completion == ValidationPassed
  }

  /** Read by completion: the combined criterion fits everything but validation, every other one fits
      the kinds it was made for, and nothing else fits a hybrid stage. */
  lemma MatchesByCompletion(s: Stage)
    ensures Matches(s) <==>
            match s.completion
            case Duration => s.kind.Execute?
            case TasksDone => s.kind.Prepare? || s.kind.Cleanup?
            case ScriptExit => s.kind.Custom?
            case ValidationPassed => s.kind.Validation?
            case DurationOrTasks => !s.kind.Validation?
  {}

  predicate DistinctNames(stages: seq<Stage>) {
    forall i, j :: 0 <= i < j < |stages| ==> stages[i].name != stages[j].name
  }

  predicate DistinctOrders(stages: seq<Stage>) {
    forall i, j :: 0 <= i < j < |stages| ==> stages[i].order != stages[j].order
  }

  predicate AllMatch(stages: seq<Stage>) {
    forall i :: 0 <= i < |stages| ==> Matches(stages[i])
  }

  predicate Valid(stages: seq<Stage>) {
    stages != [] && DistinctNames(stages) && DistinctOrders(stages) && AllMatch(stages)
  }

  datatype StageError = EmptyList | DuplicateName(name: string) | DuplicateOrder(order: nat) | WrongCompletion(name: string)

  /** The error reported names a real fault, and the faults looked for earlier are absent. */
  predicate Explains(stages: seq<Stage>, e: StageError) {
    match e
    case EmptyList => stages == []
    case DuplicateName(n) => exists i, j :: 0 <= i < j < |stages| && stages[i].name == stages[j].name == n
    case DuplicateOrder(o) => DistinctNames(stages) && exists i, j :: 0 <= i < j < |stages| && stages[i].order == stages[j].order == o
    case WrongCompletion(n) => DistinctNames(stages) && DistinctOrders(stages) && exists i :: 0 <= i < |stages| && !Matches(stages[i]) && stages[i].name == n
  }

  method ValidateStages(stages: seq<Stage>) returns (error: Option<StageError>)
    ensures error.None? <==> Valid(stages)
    ensures error.Some? ==> Explains(stages, error.value)
  {
    if stages == [] {
      return Some(EmptyList);
    }
    var names: set<string> := {};
    for i := 0 to |stages|
      invariant forall n :: n in names <==> exists k :: 0 <= k < i && stages[k].name == n
      invariant forall k, l :: 0 <= k < l < i ==> stages[k].name != stages[l].name
    {
      if stages[i].name in names {
        return Some(DuplicateName(stages[i].name));
      }
      names := names + {stages[i].name};
    }
    var orders: set<nat> := {};
    for i := 0 to |stages|
      invariant forall o :: o in orders <==> exists k :: 0 <= k < i && stages[k].order == o
      invariant forall k, l :: 0 <= k < l < i ==> stages[k].order != stages[l].order
    {
      if stages[i].order in orders {
        return Some(DuplicateOrder(stages[i].order));
      }
      orders := orders + {stages[i].order};
    }
    for i := 0 to |stages|
      invariant forall k :: 0 <= k < i ==> Matches(stages[k])
    {
      if !Matches(stages[i]) {
        return Some(WrongCompletion(stages[i].name));
      }
    }
    error := None;
  }

  // === Ordering ===

  function Insert(s: Stage, sorted: seq<Stage>): (r: seq<Stage>)
    ensures |r| == |sorted| + 1
  {
    if sorted == [] then [s]
    else if s.order <= sorted[0].order then [s] + sorted
    else [sorted[0]] + Insert(s, sorted[1..])
  }

  /** The library's stable sort by `order`. */
  function SortByOrder(stages: seq<Stage>): (r: seq<Stage>)
    ensures |r| == |stages|
  {
    if stages == [] then [] else Insert(stages[0], SortByOrder(stages[1..]))
  }

  predicate Increasing(stages: seq<Stage>) {
    forall i, j :: 0 <= i < j < |stages| ==> stages[i].order < stages[j].order
  }

  predicate NonDecreasing(stages: seq<Stage>) {
    forall i, j :: 0 <= i < j < |stages| ==> stages[i].order <= stages[j].order
  }

  lemma {:induction false} InsertBag(s: Stage, sorted: seq<Stage>)
    ensures multiset(Insert(s, sorted)) == multiset(sorted) + multiset{s}
    decreases |sorted|
  {
    if sorted != [] && s.order > sorted[0].order {
      InsertBag(s, sorted[1..]);
      assert sorted == [sorted[0]] + sorted[1..];
    }
  }

  predicate AllAtLeast(stages: seq<Stage>, least: nat) {
    forall i :: 0 <= i < |stages| ==> least <= stages[i].order
  }

  lemma {:induction false} InsertSorted(s: Stage, sorted: seq<Stage>, least: nat)
    requires NonDecreasing(sorted) && AllAtLeast(sorted, least) && least <= s.order
    ensures NonDecreasing(Insert(s, sorted)) && AllAtLeast(Insert(s, sorted), least)
    decreases |sorted|
  {
    if sorted != [] && s.order > sorted[0].order {
      InsertSorted(s, sorted[1..], sorted[0].order);
    }
  }

  lemma {:induction false} SortIsSorted(stages: seq<Stage>)
    ensures NonDecreasing(SortByOrder(stages))
    ensures multiset(SortByOrder(stages)) == multiset(stages)
  {
    if stages != [] {
      SortIsSorted(stages[1..]);
      InsertSorted(stages[0], SortByOrder(stages[1..]), 0);
      InsertBag(stages[0], SortByOrder(stages[1..]));
      hide Insert;
      assert stages == [stages[0]] + stages[1..];
    }
  }

  lemma {:induction false} DistinctIsOfBag(a: seq<Stage>, b: seq<Stage>)
    requires multiset(a) == multiset(b) && DistinctOrders(a)
    ensures DistinctOrders(b)
  {
    forall i, j | 0 <= i < j < |b|
      ensures b[i].order != b[j].order
    {
      var x, y := b[i], b[j];
      Twice(b, i, j);
      assert x in multiset(b) && y in multiset(b);
      assert x in a && y in a;
      var k :| 0 <= k < |a| && a[k] == x;
      var l :| 0 <= l < |a| && a[l] == y;
      if x == y {
        OnlyOnce(a, k);
      }
    }
  }

  lemma Twice(b: seq<Stage>, i: nat, j: nat)
    requires i < j < |b|
    ensures b[i] == b[j] ==> multiset(b)[b[i]] >= 2
  {
    assert b == b[..j] + [b[j]] + b[j + 1..];
    assert b[..j][i] == b[i];
  }

  lemma OnlyOnce(a: seq<Stage>, k: nat)
    requires DistinctOrders(a) && k < |a|
    ensures multiset(a)[a[k]] == 1
  {
    assert a == a[..k] + [a[k]] + a[k + 1..];
    assert a[k] !in a[..k] && a[k] !in a[k + 1..];
  }

  lemma SortStrict(stages: seq<Stage>)
    requires DistinctOrders(stages)
    ensures Increasing(SortByOrder(stages))
  {
    SortIsSorted(stages);
    DistinctIsOfBag(stages, SortByOrder(stages));
  }

  /** A bag of stages has at most one strictly increasing arrangement, so any sort gives this one. */
  lemma {:induction false} IncreasingIsUnique(a: seq<Stage>, b: seq<Stage>)
    requires Increasing(a) && Increasing(b) && multiset(a) == multiset(b)
    ensures a == b
    decreases |a|
  {
    assert |a| == |multiset(a)| == |multiset(b)| == |b|;
    if a != [] {
      Least(a, b);
      Least(b, a);
      SameHead(a, b);
      TailBag(a);
      TailBag(b);
      IncreasingIsUnique(a[1..], b[1..]);
    }
  }

  lemma TailBag(a: seq<Stage>)
    requires a != []
    ensures multiset(a[1..]) == multiset(a) - multiset{a[0]}
    ensures a == [a[0]] + a[1..]
  {
    assert a == [a[0]] + a[1..];
  }

  lemma Least(a: seq<Stage>, b: seq<Stage>)
    requires a != [] && b != [] && Increasing(a) && multiset(a) == multiset(b)
    ensures a[0].order <= b[0].order
  {
    assert b[0] in multiset(a);
    var i :| 0 <= i < |a| && a[i] == b[0];
  }

  lemma SameHead(a: seq<Stage>, b: seq<Stage>)
    requires a != [] && b != [] && Increasing(a) && multiset(a) == multiset(b) && a[0].order == b[0].order
    ensures a[0] == b[0]
  {
    assert b[0] in multiset(a);
    var i :| 0 <= i < |a| && a[i] == b[0];
  }

  // === Barriers ===

  const AGENT_BARRIER_TIMEOUT: nat := 120

  function PhaseConfig(sync: BarrierSync, phase: string): Barrier {
    var own := match phase
      case "validation" => sync.validation
      case "prepare" => sync.prepare
      case "execute" => sync.execute
      case "cleanup" => sync.cleanup
      case _ => None;
    match own
    case Some(b) => b
    case None => Barrier(AllOrNothing, sync.heartbeat, sync.missed, sync.queryTimeout, sync.queryRetries, AGENT_BARRIER_TIMEOUT)
  }

  function PhaseName(kind: Kind): string {
    match kind
    case Validation => "validation"
    case Prepare(_) => "prepare"
    case Cleanup(_) => "cleanup"
    case _ => "execute"
  }

  function WithBarrier(s: Stage, sync: BarrierSync): Stage {
    if sync.enabled && s.barrier.None? then s.(barrier := Some(PhaseConfig(sync, PhaseName(s.kind)))) else s
  }

  function WithBarriers(stages: seq<Stage>, sync: BarrierSync): (r: seq<Stage>)
    ensures |r| == |stages|
  {
    seq(|stages|, i requires 0 <= i < |stages| => WithBarrier(stages[i], sync))
  }

  /** The stage has its phase's own barrier, or an all-or-nothing barrier with the section's defaults. */
  predicate Guarded(s: Stage, own: Option<Barrier>, sync: BarrierSync) {
    s.barrier == if own.Some? then own else Some(Barrier(AllOrNothing, sync.heartbeat, sync.missed, sync.queryTimeout, sync.queryRetries, 120))
  }

  /** Which phase guards which kind of stage. */
  predicate GuardedByPhase(s: Stage, sync: BarrierSync) {
    && (s.kind.Validation? ==> Guarded(s, sync.validation, sync))
    && (s.kind.Prepare? ==> Guarded(s, sync.prepare, sync))
    && (s.kind.Cleanup? ==> Guarded(s, sync.cleanup, sync))
    && (s.kind.Execute? || s.kind.Custom? || s.kind.Hybrid? ==> Guarded(s, sync.execute, sync))
  }

  lemma BarrierOfPhase(s: Stage, sync: BarrierSync)
    ensures sync.enabled && s.barrier.None? ==> GuardedByPhase(WithBarrier(s, sync), sync)
    ensures !sync.enabled || s.barrier.Some? ==> WithBarrier(s, sync) == s
  {
    assert "validation" != "prepare" && "validation" != "execute" && "validation" != "cleanup";
    assert "prepare"[0] == 'p' && "execute"[0] == 'e' && "cleanup"[0] == 'c' && "validation"[0] == 'v';
  }

  datatype Result = Ok(stages: seq<Stage>) | Err(error: StageError)

  function SortedStages(stages: seq<Stage>, sync: BarrierSync): (r: seq<Stage>)
    ensures |r| == |stages|
  {
    WithBarriers(SortByOrder(stages), sync)
  }

  /** `get_sorted_stages` */
  method GetSortedStages(stages: seq<Stage>, sync: BarrierSync) returns (r: Result)
    ensures r.Ok? <==> Valid(stages)
    ensures r.Ok? ==> r.stages == SortedStages(stages, sync)
    ensures r.Ok? ==> forall i :: 0 <= i < |r.stages| && sync.enabled && SortByOrder(stages)[i].barrier.None? ==> GuardedByPhase(r.stages[i], sync)
    ensures r.Err? ==> Explains(stages, r.error)
  {
    var error := ValidateStages(stages);
    if error.Some? {
      return Err(error.value);
    }
    var start := SortByOrder(stages);
    var sorted := start;
    if sync.enabled {
      for i := 0 to |sorted|
        invariant |sorted| == |start|
        invariant forall k :: 0 <= k < |start| ==> sorted[k] == if k < i then WithBarrier(start[k], sync) else start[k]
      {
        if sorted[i].barrier.None? {
          var stage := sorted[i];
          sorted := sorted[i := stage.(barrier := Some(PhaseConfig(sync, PhaseName(stage.kind))))];
        }
      }
    }
    assert sorted == WithBarriers(start, sync);
    forall i | 0 <= i < |sorted| && sync.enabled && start[i].barrier.None?
      ensures GuardedByPhase(sorted[i], sync)
    {
      BarrierOfPhase(start[i], sync);
    }
    r := Ok(sorted);
  }

  /** What a run executes: every configured stage once, in strictly increasing order, unchanged but for
      a barrier where barriers are on and the stage has none of its own. */
  lemma SortedStagesRun(stages: seq<Stage>, sync: BarrierSync)
    requires Valid(stages)
    ensures Increasing(SortedStages(stages, sync))
    ensures multiset(SortByOrder(stages)) == multiset(stages)
    ensures forall i :: 0 <= i < |stages| ==> BarrierDone(SortByOrder(stages)[i], SortedStages(stages, sync)[i], sync)
  {
    hide SortByOrder, SortedStages, WithBarrier, AllMatch, DistinctNames, GuardedByPhase;
    SortIsSorted(stages);
    SortStrict(stages);
    forall i | 0 <= i < |stages|
      ensures var (was, now) := (SortByOrder(stages)[i], SortedStages(stages, sync)[i]);
              && now == WithBarrier(was, sync) && now.order == was.order
    {
      StageAt(stages, sync, i);
    }
    forall i | 0 <= i < |stages|
      ensures BarrierDone(SortByOrder(stages)[i], WithBarrier(SortByOrder(stages)[i], sync), sync)
    {
      BarrierIsDone(SortByOrder(stages)[i], sync);
    }
  }

  /** One stage before and after the defaults are filled in. */
  predicate BarrierDone(was: Stage, now: Stage, sync: BarrierSync) {
    && now == was.(barrier := now.barrier)
    && (was.barrier.Some? || !sync.enabled ==> now == was)
    && (sync.enabled ==> now.barrier.Some?)
    && (sync.enabled && was.barrier.None? ==> GuardedByPhase(now, sync))
  }

  lemma BarrierIsDone(was: Stage, sync: BarrierSync)
    ensures BarrierDone(was, WithBarrier(was, sync), sync)
  {
    BarrierOfPhase(was, sync);
    hide GuardedByPhase, PhaseConfig;
  }

  lemma StageAt(stages: seq<Stage>, sync: BarrierSync, i: nat)
    requires i < |stages|
    ensures SortedStages(stages, sync)[i] == WithBarrier(SortByOrder(stages)[i], sync)
    ensures SortedStages(stages, sync)[i].order == SortByOrder(stages)[i].order
  {
    hide SortByOrder, PhaseConfig;
  }

  lemma ValidIsOfBag(a: seq<Stage>, b: seq<Stage>)
    requires multiset(a) == multiset(b) && Valid(a)
    ensures Valid(b)
  {
    assert |multiset(a)| == |a| && |multiset(b)| == |b|;
    DistinctIsOfBag(a, b);
    forall i | 0 <= i < |b|
      ensures Matches(b[i])
    {
      assert b[i] in multiset(b);
      assert b[i] in a;
    }
    forall i, j | 0 <= i < j < |b|
      ensures b[i].name != b[j].name
    {
      assert b[i] in multiset(a) && b[j] in multiset(a);
      var k :| 0 <= k < |a| && a[k] == b[i];
      var l :| 0 <= l < |a| && a[l] == b[j];
      assert b[i].order != b[j].order;
    }
  }

  /** The position of a stage in the file does not matter, only its `order`. */
  lemma FileOrderIrrelevant(a: seq<Stage>, b: seq<Stage>, sync: BarrierSync)
    requires multiset(a) == multiset(b)
    ensures Valid(a) <==> Valid(b)
    ensures Valid(a) ==> SortedStages(a, sync) == SortedStages(b, sync)
  {
    if Valid(b) {
      ValidIsOfBag(b, a);
    }
    if Valid(a) {
      ValidIsOfBag(a, b);
      SortIsSorted(a);
      SortIsSorted(b);
      SortStrict(a);
      SortStrict(b);
      IncreasingIsUnique(SortByOrder(a), SortByOrder(b));
    }
  }

  /** A list already in increasing order is not rearranged. */
  lemma OrderedStays(stages: seq<Stage>)
    requires Increasing(stages)
    ensures SortByOrder(stages) == stages
  {
    SortIsSorted(stages);
    SortStrict(stages);
    IncreasingIsUnique(SortByOrder(stages), stages);
  }
}
