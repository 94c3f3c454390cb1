/** Converting a legacy configuration to explicit stages. */
module ConfigConverter {
  import opened Text
  import opened Arithmetic
  import opened Stages

  datatype PrepareSpec = PrepareSpec(counts: seq<nat>, cleanup: bool)

  datatype Distributed = Distributed(agents: seq<string>, startDelay: nat, pathTemplate: string, sharedFilesystem: bool, barrierSync: BarrierSync, stages: seq<Stage>)

  function Total(counts: seq<nat>): nat {
    if counts == [] then 0 else counts[0] + Total(counts[1..])
  }

  /** The total counts every entry once, in whatever order. */
  lemma {:induction false} TotalAdds(a: seq<nat>, b: seq<nat>, c: nat)
    ensures Total([]) == 0 && Total([c]) == c
    ensures Total(a + b) == Total(a) + Total(b)
  {
    assert [c][1..] == [];
    if a == [] {
      assert a + b == b;
    } else {
      assert (a + b)[1..] == a[1..] + b;
      TotalAdds(a[1..], b, c);
    }
  }

  function ExpectedObjects(prepare: PrepareSpec): Option<nat> {
    if prepare.counts != [] then Some(Total(prepare.counts)) else None
  }

  const NO_BARRIERS := BarrierSync(false, 30, 3, 10, 2, None, None, None, None)

  const NEW_SECTION := Distributed([], 2, "agent-{id}/", false, NO_BARRIERS, [])

  predicate Numbered(stages: seq<Stage>) {
    forall i :: 0 <= i < |stages| ==> stages[i].order == i + 1
  }

  class Config {
    var workload: seq<string>
    var prepare: Option<PrepareSpec>
    var duration: nat
    var distributed: Option<Distributed>

    constructor (workload: seq<string>, prepare: Option<PrepareSpec>, duration: nat, distributed: Option<Distributed>)
      ensures this.workload == workload && this.prepare == prepare && this.duration == duration && this.distributed == distributed
      ensures NeedsConversion() <==> workload != [] && (distributed.None? || distributed.value.stages == [])
      ensures HasStages() <==> distributed.Some? && distributed.value.stages != []
    {
      this.workload, this.prepare, this.duration, this.distributed := workload, prepare, duration, distributed;
    }

    predicate HasStages()
      reads this
    {
      distributed.Some? && distributed.value.stages != []
    }

    predicate NeedsConversion()
      reads this
    {
      workload != [] && !HasStages()
    }

    /** The kinds of stages a legacy configuration stands for. */
    function Kinds(): seq<Kind>
      reads this
    {
      [Validation]
      + (if prepare.Some? then [Prepare(ExpectedObjects(prepare.value))] else [])
      + [Execute(duration)]
      + if prepare.Some? && prepare.value.cleanup then [Cleanup(ExpectedObjects(prepare.value))] else []
    }

    method GenerateStages() returns (stages: seq<Stage>)
      ensures Valid(stages) && Numbered(stages)
      ensures |stages| == |Kinds()| && forall i :: 0 <= i < |stages| ==> stages[i].kind == Kinds()[i]
      ensures stages[0].kind == Validation && stages[0].name == "preflight"
      ensures prepare.None? ==> |stages| == 2 && stages[1].kind == Execute(duration) && stages[1].name == "execute"
      ensures prepare.Some? ==>
                && |stages| == (if prepare.value.cleanup then 4 else 3)
                && stages[1].kind.Prepare? && stages[1].name == "prepare"
                && stages[2].kind == Execute(duration) && stages[2].name == "execute"
                && (prepare.value.cleanup ==> stages[3].kind.Cleanup? && stages[3].name == "cleanup")
      ensures prepare.Some? ==>
                && (stages[1].kind.preparedObjects.None? <==> prepare.value.counts == [])
                && (prepare.value.cleanup ==> stages[3].kind.cleanedObjects == stages[1].kind.preparedObjects)
                && (prepare.value.counts != [] ==> stages[1].kind.preparedObjects == Some(Total(prepare.value.counts)))
      ensures forall i :: 0 <= i < |stages| ==> stages[i].barrier.None? && !stages[i].optional
      ensures forall i :: 0 <= i < |stages| ==> (stages[i].timeout == if stages[i].kind == Validation then Some(300) else None)
    {
      hide Valid, Numbered, Matches;
      LettersDiffer();
      var order := 1;
      stages := [Stage("preflight", order, ValidationPassed, None, Some(300), false, Validation)];
      FirstStage(stages[0]);
      order := order + 1;
      if prepare.Some? {
        var stage := Stage("prepare", order, TasksDone, None, None, false, Prepare(ExpectedObjects(prepare.value)));
        NextStage(stages, stage);
        stages := stages + [stage];
        order := order + 1;
      }
      var execute := Stage("execute", order, Duration, None, None, false, Execute(duration));
      NextStage(stages, execute);
      stages := stages + [execute];
      order := order + 1;
      if prepare.Some? && prepare.value.cleanup {
        var stage := Stage("cleanup", order, TasksDone, None, None, false, Cleanup(ExpectedObjects(prepare.value)));
        NextStage(stages, stage);
        stages := stages + [stage];
      }
    }

    method ConvertConfig()
      modifies this`distributed
      ensures HasStages() && !NeedsConversion()
      ensures distributed.value == (if old(distributed).Some? then old(distributed).value else NEW_SECTION).(stages := distributed.value.stages)
      ensures old(distributed).None? ==>
                var d := distributed.value;
                d.agents == [] && d.startDelay == 2 && d.pathTemplate == "agent-{id}/" && !d.sharedFilesystem && !d.barrierSync.enabled
      ensures Valid(distributed.value.stages) && Numbered(distributed.value.stages)
      ensures |distributed.value.stages| == |Kinds()| && forall i :: 0 <= i < |Kinds()| ==> distributed.value.stages[i].kind == Kinds()[i]
    {
      var stages := GenerateStages();
      if distributed.None? {
        distributed := Some(NEW_SECTION);
      }
      distributed := Some(distributed.value.(stages := stages));
    }
  }

  lemma FirstStage(stage: Stage)
    requires stage.order == 1 && stage.kind == Validation && stage.completion == ValidationPassed
    ensures Valid([stage]) && Numbered([stage])
  {}

  lemma NextStage(stages: seq<Stage>, stage: Stage)
    requires Valid(stages) && Numbered(stages)
    requires stage.order == |stages| + 1 && forall i :: 0 <= i < |stages| ==> stages[i].name != stage.name
    requires ((stage.kind.Prepare? || stage.kind.Cleanup?) && stage.completion == TasksDone) || (stage.kind.Execute? && stage.completion == Duration)
    ensures Valid(stages + [stage]) && Numbered(stages + [stage])
  {}

  lemma LettersDiffer()
    ensures "preflight" != "prepare" && "preflight" != "execute" && "preflight" != "cleanup"
    ensures "prepare" != "execute" && "prepare" != "cleanup" && "execute" != "cleanup"
  {
    assert "preflight"[3] != "prepare"[3];
    assert "preflight"[0] != "execute"[0] && "preflight"[0] != "cleanup"[0] && "execute"[0] != "cleanup"[0];
  }

  /** A converted configuration runs: its stages are accepted and executed in the order generated. */
  lemma ConvertedRuns(stages: seq<Stage>, sync: BarrierSync)
    requires Valid(stages) && Numbered(stages)
    ensures SortedStages(stages, sync) == WithBarriers(stages, sync)
  {
    OrderedStays(stages);
  }

  // === Durations ===

  /** `format_duration`: minutes where they come out even; hours are never reached. */
  function FormatDuration(seconds: nat): string {
    if seconds % 60 == 0 && seconds >= 60 then Decimal(seconds / 60) + "m"
    else if seconds % 3600 == 0 && seconds >= 3600 then Decimal(seconds / 3600) + "h"
    else Decimal(seconds) + "s"
  }

  /** What is written: minutes when they come out even and there is at least one, else seconds. */
  lemma DurationText(seconds: nat, minutes: nat)
    ensures seconds == 60 * minutes && minutes > 0 ==> FormatDuration(seconds) == Decimal(minutes) + "m"
    ensures seconds == 0 || seconds % 60 != 0 ==> FormatDuration(seconds) == Decimal(seconds) + "s"
  {
    HoursAreMinutes(seconds);
    if seconds == 60 * minutes {
      DivUnique(seconds, 60, minutes, 0);
    }
    hide Decimal;
  }

  /** Reading a number followed by one unit letter. */
  function ParseDuration(s: string): Option<nat> {
    if s == "" || !AllDigits(s[..|s| - 1]) then None
    else
      var n := Value(s[..|s| - 1]);
      match s[|s| - 1]
      case 's' => Some(n)
      case 'm' => Some(60 * n)
      case 'h' => Some(3600 * n)
      case _ => None
  }

  lemma HoursAreMinutes(seconds: nat)
    ensures seconds % 3600 == 0 ==> seconds % 60 == 0
  {
    DivMod(seconds, 3600);
    if seconds % 3600 == 0 {
      DivUnique(seconds, 60, 60 * (seconds / 3600), 0);
    }
  }

  /** The generated text denotes the configured duration, and never in hours. */
  lemma DurationRoundTrip(seconds: nat)
    ensures ParseDuration(FormatDuration(seconds)) == Some(seconds)
    ensures FormatDuration(seconds)[|FormatDuration(seconds)| - 1] != 'h'
  {
    DecimalValue(seconds);
    DecimalValue(seconds / 60);
    HoursAreMinutes(seconds);
    hide Decimal;
    var s := FormatDuration(seconds);
    if seconds % 60 == 0 && seconds >= 60 {
      assert s[..|s| - 1] == Decimal(seconds / 60);
    } else {
      assert s[..|s| - 1] == Decimal(seconds);
    }
  }
}
