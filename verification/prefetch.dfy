/** The metadata prefetch pipeline as a transition system: a feeder, N workers that share one
    locked receiver, and a bounded output channel with one consumer. */
module Prefetch {
  import opened Text

  datatype ObjectMetadata = ObjectMetadata(uri: string, size: Option<nat>, isLocal: bool)

  predicate IsLocalUri(uri: string) {
    StartsWith(uri, "file://") || StartsWith(uri, "direct://")
  }

  datatype Worker =
    | Free                          // about to lock the shared receiver
    | Waiting                       // holds the lock, inside recv
    | Fetching(uri: string)
    | Sending(item: ObjectMetadata)
    | Done

  /** `workers` and `buffer` of the configuration; tokio panics on a channel of capacity 0. */
  datatype Config = Config(workers: nat, buffer: nat) {
    predicate Valid() {
      workers >= 1 && buffer >= 1
    }
  }

  datatype State = State(
    unsent: seq<string>,
    feeding: bool,                  // uri_tx is alive
    queue: seq<string>,             // capacity 2 * workers; its receiver is never dropped
    workers: seq<Worker>,
    out: seq<ObjectMetadata>,       // capacity buffer
    senders: bool,                  // the pipeline task still holds tx
    listening: bool,                // the consumer still holds rx
    received: seq<ObjectMetadata>,
    ended: bool,                    // the consumer has seen the end of the stream
    lost: multiset<string>)         // results nobody will see; history only

  datatype Step =
    | FeedOne | FeedDone
    | Lock(w: nat) | Take(w: nat) | TakeNone(w: nat)
    | Fetch(w: nat, size: Option<nat>) | Send(w: nat) | SendFails(w: nat)
    | Join
    | Receive | ReceiveNone | DropReceiver

  function Init(c: Config, uris: seq<string>): State {
    State(uris, true, [], seq(c.workers, i => Free), [], true, true, [], false, multiset{})
  }

  predicate AllDone(workers: seq<Worker>) {
    forall w :: 0 <= w < |workers| ==> workers[w] == Done
  }

  predicate At(s: State, w: nat, phase: Worker) {
    w < |s.workers| && s.workers[w] == phase
  }

  predicate Enabled(c: Config, s: State, step: Step) {
    match step
    case FeedOne => s.feeding && s.unsent != [] && |s.queue| < 2 * c.workers
    case FeedDone => s.feeding && s.unsent == []
    case Lock(w) => At(s, w, Free) && Waiting !in s.workers
    case Take(w) => At(s, w, Waiting) && s.queue != []
    case TakeNone(w) => At(s, w, Waiting) && s.queue == [] && !s.feeding
    case Fetch(w, size) => w < |s.workers| && s.workers[w].Fetching? && (IsLocalUri(s.workers[w].uri) || size.None?)
    case Send(w) => w < |s.workers| && s.workers[w].Sending? && s.listening && |s.out| < c.buffer
    case SendFails(w) => w < |s.workers| && s.workers[w].Sending? && !s.listening
    case Join => s.senders && !s.feeding && AllDone(s.workers)
    case Receive => s.listening && s.out != []
    case ReceiveNone => s.listening && !s.ended && s.out == [] && !s.senders
    case DropReceiver => s.listening
  }

  function Goto(s: State, w: nat, phase: Worker): State
    requires w < |s.workers|
  {
    s.(workers := s.workers[w := phase])
  }

  function Apply(c: Config, s: State, step: Step): State
    requires Enabled(c, s, step)
  {
    match step
    case FeedOne => s.(unsent := s.unsent[1..], queue := s.queue + [s.unsent[0]])
    case FeedDone => s.(feeding := false)
    case Lock(w) => Goto(s, w, Waiting)
    case Take(w) => Goto(s, w, Fetching(s.queue[0])).(queue := s.queue[1..])
    case TakeNone(w) => Goto(s, w, Done)
    case Fetch(w, size) => Goto(s, w, Sending(ObjectMetadata(s.workers[w].uri, size, IsLocalUri(s.workers[w].uri))))
    case Send(w) => Goto(s, w, Free).(out := s.out + [s.workers[w].item])
    case SendFails(w) => Goto(s, w, Done).(lost := s.lost + multiset{s.workers[w].item.uri})
    case Join => s.(senders := false)
    case Receive => s.(out := s.out[1..], received := s.received + [s.out[0]])
    case ReceiveNone => s.(ended := true)
    case DropReceiver => s.(listening := false, out := [], lost := s.lost + multiset(Uris(s.out)))
  }

  predicate CanRun(c: Config, s: State, steps: seq<Step>)
    decreases |steps|
  {
    steps == [] || (Enabled(c, s, steps[0]) && CanRun(c, Apply(c, s, steps[0]), steps[1..]))
  }

  function Run(c: Config, s: State, steps: seq<Step>): State
    requires CanRun(c, s, steps)
    decreases |steps|
  {
    if steps == [] then s else Run(c, Apply(c, s, steps[0]), steps[1..])
  }

  lemma {:induction false} RunConcat(c: Config, s: State, a: seq<Step>, b: seq<Step>)
    requires CanRun(c, s, a) && CanRun(c, Run(c, s, a), b)
    ensures CanRun(c, s, a + b) && Run(c, s, a + b) == Run(c, Run(c, s, a), b)
    decreases |a|
  {
    hide Apply, Enabled;
    if a == [] {
      assert a + b == b;
    } else {
      RunConcat(c, Apply(c, s, a[0]), a[1..], b);
      assert (a + b)[1..] == a[1..] + b;
    }
  }

  // === Exactly-once delivery ===

  function Uris(items: seq<ObjectMetadata>): (r: seq<string>)
    ensures |r| == |items|
  {
    seq(|items|, i requires 0 <= i < |items| => items[i].uri)
  }

  function HeldBy(w: Worker): multiset<string> {
    match w
    case Fetching(uri) => multiset{uri}
    case Sending(item) => multiset{item.uri}
    case _ => multiset{}
  }

  function Held(workers: seq<Worker>): multiset<string> {
    if workers == [] then multiset{} else HeldBy(workers[0]) + Held(workers[1..])
  }

  /** Every URI is in exactly one place. */
  function Everything(s: State): multiset<string> {
    multiset(s.unsent) + multiset(s.queue) + Held(s.workers) + multiset(Uris(s.out)) + multiset(Uris(s.received)) + s.lost
  }

  lemma {:induction false} HeldUpdate(workers: seq<Worker>, i: nat, w: Worker, u: string)
    requires i < |workers|
    ensures Held(workers[i := w])[u] + HeldBy(workers[i])[u] == Held(workers)[u] + HeldBy(w)[u]
  {
    hide HeldBy;
    var updated := workers[i := w];
    assert Held(updated)[u] == HeldBy(updated[0])[u] + Held(updated[1..])[u];
    assert Held(workers)[u] == HeldBy(workers[0])[u] + Held(workers[1..])[u];
    if i == 0 {
      assert updated[1..] == workers[1..];
    } else {
      assert updated[1..] == workers[1..][i - 1 := w];
      HeldUpdate(workers[1..], i - 1, w, u);
    }
  }

  lemma HeadTail(s: seq<string>, u: string)
    requires s != []
    ensures multiset(s)[u] == multiset{s[0]}[u] + multiset(s[1..])[u]
  {
    assert s == [s[0]] + s[1..];
  }

  predicate IsWorkerStep(step: Step) {
    step.Lock? || step.Take? || step.TakeNone? || step.Fetch? || step.Send? || step.SendFails?
  }

  function Places(s: State, u: string): nat {
    multiset(s.unsent)[u] + multiset(s.queue)[u] + Held(s.workers)[u]
    + multiset(Uris(s.out))[u] + multiset(Uris(s.received))[u] + s.lost[u]
  }

  lemma TakeConserves(c: Config, s: State, w: nat, u: string)
    requires Enabled(c, s, Take(w))
    ensures Places(Apply(c, s, Take(w)), u) == Places(s, u)
  {
    HeldUpdate(s.workers, w, Fetching(s.queue[0]), u);
    HeadTail(s.queue, u);
  }

  lemma UrisSnoc(items: seq<ObjectMetadata>, item: ObjectMetadata, u: string)
    ensures multiset(Uris(items + [item]))[u] == multiset(Uris(items))[u] + multiset{item.uri}[u]
  {
    assert Uris(items + [item]) == Uris(items) + [item.uri];
  }

  /** A worker that parts with its item holds one URI less. */
  lemma HeldRelease(workers: seq<Worker>, w: nat, phase: Worker, u: string)
    requires w < |workers| && workers[w].Sending? && (phase == Free || phase == Done)
    ensures Held(workers[w := phase])[u] + multiset{workers[w].item.uri}[u] == Held(workers)[u]
  {
    HeldUpdate(workers, w, phase, u);
  }

  lemma SendConserves(c: Config, s: State, w: nat, u: string)
    requires Enabled(c, s, Send(w))
    ensures Places(Apply(c, s, Send(w)), u) == Places(s, u)
  {
    hide Held, Uris, HeldBy;
    HeldRelease(s.workers, w, Free, u);
    UrisSnoc(s.out, s.workers[w].item, u);
  }

  lemma SendFailsConserves(c: Config, s: State, w: nat, u: string)
    requires Enabled(c, s, SendFails(w))
    ensures Places(Apply(c, s, SendFails(w)), u) == Places(s, u)
  {
    hide Held, Uris, HeldBy;
    HeldRelease(s.workers, w, Done, u);
  }

  lemma GotoConserves(s: State, w: nat, phase: Worker, u: string)
    requires w < |s.workers| && HeldBy(phase) == HeldBy(s.workers[w])
    ensures Places(Goto(s, w, phase), u) == Places(s, u)
  {
    HeldUpdate(s.workers, w, phase, u);
  }

  lemma LockConserves(c: Config, s: State, w: nat, u: string)
    requires Enabled(c, s, Lock(w))
    ensures Places(Apply(c, s, Lock(w)), u) == Places(s, u)
  {
    GotoConserves(s, w, Waiting, u);
  }

  lemma TakeNoneConserves(c: Config, s: State, w: nat, u: string)
    requires Enabled(c, s, TakeNone(w))
    ensures Places(Apply(c, s, TakeNone(w)), u) == Places(s, u)
  {
    GotoConserves(s, w, Done, u);
  }

  lemma FetchConserves(c: Config, s: State, w: nat, size: Option<nat>, u: string)
    requires Enabled(c, s, Fetch(w, size))
    ensures Places(Apply(c, s, Fetch(w, size)), u) == Places(s, u)
  {
    var uri := s.workers[w].uri;
    GotoConserves(s, w, Sending(ObjectMetadata(uri, size, IsLocalUri(uri))), u);
  }

  lemma FeedConserves(c: Config, s: State, u: string)
    requires Enabled(c, s, FeedOne)
    ensures Places(Apply(c, s, FeedOne), u) == Places(s, u)
  {
    HeadTail(s.unsent, u);
  }

  lemma ReceiveConserves(c: Config, s: State, u: string)
    requires Enabled(c, s, Receive)
    ensures Places(Apply(c, s, Receive), u) == Places(s, u)
  {
    var uris := Uris(s.out);
    HeadTail(uris, u);
    assert Uris(s.out[1..]) == uris[1..];
    assert Uris(s.received + [s.out[0]]) == Uris(s.received) + [uris[0]];
  }

  lemma DropConserves(c: Config, s: State, u: string)
    requires Enabled(c, s, DropReceiver)
    ensures Places(Apply(c, s, DropReceiver), u) == Places(s, u)
  {
    assert Uris([]) == [];
  }

  lemma FlagStepConserves(c: Config, s: State, step: Step, u: string)
    requires Enabled(c, s, step) && (step.FeedDone? || step.Join? || step.ReceiveNone?)
    ensures Places(Apply(c, s, step), u) == Places(s, u)
  {
    hide Uris, Held;
  }

  lemma StepConservesEach(c: Config, s: State, step: Step, u: string)
    requires Enabled(c, s, step)
    ensures Places(Apply(c, s, step), u) == Places(s, u)
  {
    hide Apply, Enabled, Places;
    match step
    case Lock(w) => LockConserves(c, s, w, u);
    case Take(w) => TakeConserves(c, s, w, u);
    case TakeNone(w) => TakeNoneConserves(c, s, w, u);
    case Fetch(w, size) => FetchConserves(c, s, w, size, u);
    case Send(w) => SendConserves(c, s, w, u);
    case SendFails(w) => SendFailsConserves(c, s, w, u);
    case FeedOne => FeedConserves(c, s, u);
    case Receive => ReceiveConserves(c, s, u);
    case DropReceiver => DropConserves(c, s, u);
    case _ => FlagStepConserves(c, s, step, u);
  }

  lemma StepConserves(c: Config, s: State, step: Step)
    requires Enabled(c, s, step)
    ensures Everything(Apply(c, s, step)) == Everything(s)
  {
    var s' := Apply(c, s, step);
    forall u
      ensures Everything(s')[u] == Everything(s)[u]
    {
      hide Apply, Enabled, Everything, Places;
      StepConservesEach(c, s, step, u);
      EverythingAt(s, u);
      EverythingAt(s', u);
    }
  }

  lemma EverythingAt(s: State, u: string)
    ensures Everything(s)[u] == Places(s, u)
  {
    hide Held, Uris;
  }

  // === Invariant ===

  predicate Accurate(m: ObjectMetadata) {
    m.isLocal == IsLocalUri(m.uri) && (!m.isLocal ==> m.size.None?)
  }

  predicate Bounded(c: Config, s: State) {
    && c.Valid() && |s.workers| == c.workers && |s.queue| <= 2 * c.workers && |s.out| <= c.buffer
    && (forall i, j :: 0 <= i < j < |s.workers| ==> !(s.workers[i] == Waiting && s.workers[j] == Waiting))
  }

  predicate Ordered(s: State) {
    && (!s.feeding ==> s.unsent == [])
    && (!s.senders ==> !s.feeding && AllDone(s.workers))
    && (s.ended ==> s.out == [] && !s.senders)
    && (if s.listening then s.lost == multiset{} else s.out == [])
    && (s.listening && (exists w :: 0 <= w < |s.workers| && s.workers[w] == Done) ==> !s.feeding && s.queue == [])
  }

  ghost predicate AllAccurate(s: State) {
    && (forall w :: 0 <= w < |s.workers| && s.workers[w].Sending? ==> Accurate(s.workers[w].item))
    && (forall m :: m in s.out ==> Accurate(m))
    && (forall m :: m in s.received ==> Accurate(m))
  }

  ghost predicate Wellformed(c: Config, s: State) {
    Bounded(c, s) && Ordered(s) && AllAccurate(s)
  }

  lemma StepKeepsBounded(c: Config, s: State, step: Step)
    requires Bounded(c, s) && Enabled(c, s, step)
    ensures Bounded(c, Apply(c, s, step))
  {
    hide IsLocalUri, Uris;
    if step.Lock? {
      assert forall i :: 0 <= i < |s.workers| ==> s.workers[i] in s.workers;
    }
  }

  lemma StepKeepsOrdered(c: Config, s: State, step: Step)
    requires Ordered(s) && Enabled(c, s, step)
    ensures Ordered(Apply(c, s, step))
  {
    hide IsLocalUri, Uris;
    var s' := Apply(c, s, step);
    if IsWorkerStep(step) {
      assert s.workers[step.w] != Done;
      assert forall i :: 0 <= i < |s.workers| && i != step.w ==> s'.workers[i] == s.workers[i];
    }
  }

  lemma StepKeepsAccurate(c: Config, s: State, step: Step)
    requires AllAccurate(s) && Enabled(c, s, step)
    ensures AllAccurate(Apply(c, s, step))
  {
    hide IsLocalUri;
    var s' := Apply(c, s, step);
    if IsWorkerStep(step) {
      assert forall i :: 0 <= i < |s.workers| && i != step.w ==> s'.workers[i] == s.workers[i];
    }
  }

  lemma StepKeepsWellformed(c: Config, s: State, step: Step)
    requires Wellformed(c, s) && Enabled(c, s, step)
    ensures Wellformed(c, Apply(c, s, step))
  {
    StepKeepsBounded(c, s, step);
    StepKeepsOrdered(c, s, step);
    StepKeepsAccurate(c, s, step);
  }

  lemma {:induction false} RunKeepsInvariants(c: Config, s: State, steps: seq<Step>)
    requires Wellformed(c, s) && CanRun(c, s, steps)
    ensures Wellformed(c, Run(c, s, steps)) && Everything(Run(c, s, steps)) == Everything(s)
    decreases |steps|
  {
    if steps != [] {
      var s' := Apply(c, s, steps[0]);
      assert Everything(s') == Everything(s) && Wellformed(c, s') by {
        StepKeepsWellformed(c, s, steps[0]);
        StepConserves(c, s, steps[0]);
      }
      RunKeepsInvariants(c, s', steps[1..]);
    }
  }

  lemma {:induction false} KeepsListening(c: Config, s: State, steps: seq<Step>)
    requires CanRun(c, s, steps) && forall step :: step in steps ==> step != DropReceiver
    ensures Run(c, s, steps).listening == s.listening
    decreases |steps|
  {
    hide Enabled, IsLocalUri, Uris;
    if steps != [] {
      assert steps[0] in steps && forall step :: step in steps[1..] ==> step in steps;
      KeepsListening(c, Apply(c, s, steps[0]), steps[1..]);
    }
  }

  lemma InitIsWellformed(c: Config, uris: seq<string>)
    requires c.Valid()
    ensures Wellformed(c, Init(c, uris)) && Everything(Init(c, uris)) == multiset(uris)
  {
    NothingHeld(c.workers);
  }

  lemma {:induction false} NothingHeld(n: nat)
    ensures Held(seq(n, i => Free)) == multiset{}
  {
    if n > 0 {
      NothingHeld(n - 1);
      assert seq(n, i => Free)[1..] == seq(n - 1, i => Free);
    }
  }

  // === Termination ===

  function WorkerCost(w: Worker): nat {
    match w
    case Free => 2
    case Waiting => 1
    case Fetching(_) => 5
    case Sending(_) => 4
    case Done => 0
  }

  function WorkersCost(workers: seq<Worker>): nat {
    if workers == [] then 0 else WorkerCost(workers[0]) + WorkersCost(workers[1..])
  }

  function Flag(b: bool): nat {
    if b then 1 else 0
  }

  /** An upper bound on the number of steps still possible. */
  function Remaining(s: State): nat {
    6 * |s.unsent| + 5 * |s.queue| + WorkersCost(s.workers) + |s.out|
    + Flag(s.feeding) + Flag(s.senders) + Flag(s.listening) + Flag(!s.ended)
  }

  lemma {:induction false} CostUpdate(workers: seq<Worker>, i: nat, w: Worker)
    requires i < |workers|
    ensures WorkersCost(workers[i := w]) + WorkerCost(workers[i]) == WorkersCost(workers) + WorkerCost(w)
  {
    if i == 0 {
      assert workers[0 := w][1..] == workers[1..];
    } else {
      CostUpdate(workers[1..], i - 1, w);
      assert workers[i := w][1..] == workers[1..][i - 1 := w];
    }
  }

  lemma StepDecreases(c: Config, s: State, step: Step)
    requires Enabled(c, s, step)
    ensures Remaining(Apply(c, s, step)) < Remaining(s)
  {
    hide IsLocalUri, Uris;
    var s' := Apply(c, s, step);
    if IsWorkerStep(step) {
      CostUpdate(s.workers, step.w, s'.workers[step.w]);
    }
  }

  /** Every run is finite, with an explicit bound on its length. */
  lemma {:induction false} RunIsBounded(c: Config, s: State, steps: seq<Step>)
    requires CanRun(c, s, steps)
    ensures |steps| + Remaining(Run(c, s, steps)) <= Remaining(s)
    decreases |steps|
  {
    if steps != [] {
      StepDecreases(c, s, steps[0]);
      RunIsBounded(c, Apply(c, s, steps[0]), steps[1..]);
    }
  }

  // === Progress ===

  /** No step is left but the consumer's choice to walk away. */
  ghost predicate Stuck(c: Config, s: State) {
    forall step :: Enabled(c, s, step) ==> step == DropReceiver
  }

  predicate Finished(s: State) {
    !s.senders && (s.listening ==> s.ended)
  }

  /** The consumer is gone, so every worker has stopped; the queue is full and nobody will read it,
      but its receiver is still alive in the pipeline task, so the feeder waits forever. */
  predicate Leaked(c: Config, s: State) {
    && !s.listening && s.feeding && s.unsent != [] && |s.queue| == 2 * c.workers
    && AllDone(s.workers)
  }

  lemma StuckIsFinishedOrLeaked(c: Config, s: State)
    requires Wellformed(c, s) && Stuck(c, s)
    ensures Finished(s) || Leaked(c, s)
  {
    assert !Enabled(c, s, FeedOne) && !Enabled(c, s, FeedDone) && !Enabled(c, s, Join);
    assert !Enabled(c, s, Receive) && !Enabled(c, s, ReceiveNone);
    forall w | 0 <= w < |s.workers|
      ensures s.workers[w] != Waiting
    {
      assert !Enabled(c, s, Take(w)) && !Enabled(c, s, TakeNone(w));
    }
    assert Waiting !in s.workers;
    forall w | 0 <= w < |s.workers|
      ensures s.workers[w] == Done
    {
      assert !Enabled(c, s, Fetch(w, None)) && !Enabled(c, s, Send(w)) && !Enabled(c, s, SendFails(w));
      assert !Enabled(c, s, Lock(w)) && !Enabled(c, s, Take(w)) && !Enabled(c, s, TakeNone(w));
    }
    assert s.workers[0] == Done;
  }

  /** While the consumer keeps receiving, a run that can go no further has delivered exactly one
      accurate result for every URI and closed the stream. */
  lemma DeliversExactlyOnce(c: Config, uris: seq<string>, steps: seq<Step>)
    requires c.Valid() && CanRun(c, Init(c, uris), steps)
    requires forall step :: step in steps ==> step != DropReceiver
    ensures var s := Run(c, Init(c, uris), steps);
            && Everything(s) == multiset(uris)
            && |steps| <= 6 * |uris| + 2 * c.workers + 4
            && (Stuck(c, s) ==>
                 && s.ended && !s.senders
                 && multiset(Uris(s.received)) == multiset(uris)
                 && forall m :: m in s.received ==> Accurate(m))
  {
    InitIsWellformed(c, uris);
    RunKeepsInvariants(c, Init(c, uris), steps);
    KeepsListening(c, Init(c, uris), steps);
    RunIsBounded(c, Init(c, uris), steps);
    InitialCost(c.workers);
    var s := Run(c, Init(c, uris), steps);
    if Stuck(c, s) {
      StuckIsFinishedOrLeaked(c, s);
      AllDoneHoldNothing(s.workers);
    }
  }

  lemma {:induction false} InitialCost(n: nat)
    ensures WorkersCost(seq(n, i => Free)) == 2 * n
  {
    if n > 0 {
      InitialCost(n - 1);
      assert seq(n, i => Free)[1..] == seq(n - 1, i => Free);
    }
  }

  lemma {:induction false} AllDoneHoldNothing(workers: seq<Worker>)
    requires AllDone(workers)
    ensures Held(workers) == multiset{}
  {
    if workers != [] {
      AllDoneHoldNothing(workers[1..]);
    }
  }

  // === When a dropped consumer leaks the pipeline ===

  function DoneCount(workers: seq<Worker>): nat {
    if workers == [] then 0 else Flag(workers[0] == Done) + DoneCount(workers[1..])
  }

  lemma {:induction false} DoneUpdate(workers: seq<Worker>, i: nat, w: Worker)
    requires i < |workers|
    ensures DoneCount(workers[i := w]) + Flag(workers[i] == Done) == DoneCount(workers) + Flag(w == Done)
  {
    if i == 0 {
      assert workers[0 := w][1..] == workers[1..];
    } else {
      DoneUpdate(workers[1..], i - 1, w);
      assert workers[i := w][1..] == workers[1..][i - 1 := w];
    }
  }

  lemma {:induction false} AllDoneCount(workers: seq<Worker>)
    requires AllDone(workers)
    ensures DoneCount(workers) == |workers|
  {
    if workers != [] {
      AllDoneCount(workers[1..]);
    }
  }

  lemma {:induction false} NoneDone(n: nat)
    ensures DoneCount(seq(n, i => Free)) == 0
  {
    if n > 0 {
      NoneDone(n - 1);
      assert seq(n, i => Free)[1..] == seq(n - 1, i => Free);
    }
  }

  /** While URIs are still being fed, each stopped worker took one result down with it. */
  lemma {:induction false} StoppedWorkersLost(c: Config, s: State, steps: seq<Step>)
    requires CanRun(c, s, steps) && (s.feeding ==> DoneCount(s.workers) <= |s.lost|)
    ensures Run(c, s, steps).feeding ==> DoneCount(Run(c, s, steps).workers) <= |Run(c, s, steps).lost|
    decreases |steps|
  {
    hide IsLocalUri, AllDone;
    if steps != [] {
      var step, s' := steps[0], Apply(c, s, steps[0]);
      if IsWorkerStep(step) {
        DoneUpdate(s.workers, step.w, s'.workers[step.w]);
      }
      StoppedWorkersLost(c, s', steps[1..]);
    }
  }

  lemma LeakNeedsManyUris(c: Config, uris: seq<string>, steps: seq<Step>)
    requires c.Valid() && CanRun(c, Init(c, uris), steps) && Leaked(c, Run(c, Init(c, uris), steps))
    ensures |uris| > 3 * c.workers
  {
    InitIsWellformed(c, uris);
    RunKeepsInvariants(c, Init(c, uris), steps);
    NoneDone(c.workers);
    StoppedWorkersLost(c, Init(c, uris), steps);
    var s := Run(c, Init(c, uris), steps);
    AllDoneCount(s.workers);
    assert |Everything(s)| >= |s.unsent| + |s.queue| + |s.lost|;
    assert |multiset(uris)| == |uris|;
  }

  /** Feed `n` URIs into the queue. */
  lemma {:induction false} FeedMany(c: Config, s: State, n: nat) returns (steps: seq<Step>)
    requires s.feeding && n <= |s.unsent| && |s.queue| + n <= 2 * c.workers
    ensures CanRun(c, s, steps)
    ensures Run(c, s, steps) == s.(unsent := s.unsent[n..], queue := s.queue + s.unsent[..n])
    decreases n
  {
    if n == 0 {
      steps := [];
      assert s.unsent[0..] == s.unsent && s.queue + s.unsent[..0] == s.queue;
    } else {
      var s' := Apply(c, s, FeedOne);
      assert s' == s.(unsent := s.unsent[1..], queue := s.queue + [s.unsent[0]]);
      var rest := FeedMany(c, s', n - 1);
      steps := [FeedOne] + rest;
      assert steps[1..] == rest;
      FeedSlices(s.unsent, s.queue, n);
    }
  }

  lemma FeedSlices(unsent: seq<string>, queue: seq<string>, n: nat)
    requires 1 <= n <= |unsent|
    ensures unsent[1..][n - 1..] == unsent[n..]
    ensures queue + [unsent[0]] + unsent[1..][..n - 1] == queue + unsent[..n]
  {
    assert [unsent[0]] + unsent[1..][..n - 1] == unsent[..n];
  }

  /** Worker `w` takes one URI, and finds the consumer gone. */
  lemma StopOne(c: Config, s: State, w: nat) returns (steps: seq<Step>)
    requires c.Valid() && s.feeding && s.unsent != [] && s.queue == [] && !s.listening
    requires At(s, w, Free) && Waiting !in s.workers
    ensures CanRun(c, s, steps)
    ensures Run(c, s, steps) == s.(unsent := s.unsent[1..], workers := s.workers[w := Done], lost := s.lost + multiset{s.unsent[0]})
  {
    var s1 := Apply(c, s, FeedOne);
    var s2 := Apply(c, s1, Lock(w));
    var s3 := Apply(c, s2, Take(w));
    var s4 := Apply(c, s3, Fetch(w, None));
    var s5 := Apply(c, s4, SendFails(w));
    assert s5.workers == s.workers[w := Done];
    assert s5.queue == [];
    hide Apply, Enabled;
    Prepend(c, s4, SendFails(w), []);
    Prepend(c, s3, Fetch(w, None), [SendFails(w)]);
    Prepend(c, s2, Take(w), [Fetch(w, None), SendFails(w)]);
    Prepend(c, s1, Lock(w), [Take(w), Fetch(w, None), SendFails(w)]);
    Prepend(c, s, FeedOne, [Lock(w), Take(w), Fetch(w, None), SendFails(w)]);
    steps := [FeedOne, Lock(w), Take(w), Fetch(w, None), SendFails(w)];
  }

  lemma Prepend(c: Config, s: State, step: Step, rest: seq<Step>)
    requires Enabled(c, s, step) && CanRun(c, Apply(c, s, step), rest)
    ensures CanRun(c, s, [step] + rest) && Run(c, s, [step] + rest) == Run(c, Apply(c, s, step), rest)
  {
    hide Apply, Enabled;
    assert ([step] + rest)[1..] == rest;
  }

  predicate StoppedBelow(workers: seq<Worker>, k: nat) {
    forall w :: 0 <= w < |workers| ==> workers[w] == if w < k then Done else Free
  }

  lemma StopNext(workers: seq<Worker>, k: nat)
    requires k < |workers| && StoppedBelow(workers, k)
    ensures workers[k] == Free && Waiting !in workers && StoppedBelow(workers[k := Done], k + 1)
  {}

  lemma {:induction false} StopAll(c: Config, s: State, k: nat) returns (steps: seq<Step>)
    requires c.Valid() && s.feeding && s.queue == [] && !s.listening && k <= |s.workers| && |s.unsent| >= |s.workers| - k
    requires StoppedBelow(s.workers, k)
    ensures CanRun(c, s, steps)
    ensures var end := Run(c, s, steps);
            && end.feeding && end.queue == [] && !end.listening
            && end.unsent == s.unsent[|s.workers| - k..]
            && |end.workers| == |s.workers| && AllDone(end.workers)
    decreases |s.workers| - k
  {
    if k == |s.workers| {
      steps := [];
    } else {
      hide Apply, Enabled, Run, CanRun, AllDone;
      StopNext(s.workers, k);
      var first := StopOne(c, s, k);
      var s' := Run(c, s, first);
      assert s'.unsent == s.unsent[1..] && s'.unsent[|s.workers| - k - 1..] == s.unsent[|s.workers| - k..];
      var rest := StopAll(c, s', k + 1);
      RunConcat(c, s, first, rest);
      steps := first + rest;
    }
  }

  /** A consumer that walks away can leave the pipeline waiting forever exactly when there are more
      than three URIs per worker. */
  lemma LeakIffManyUris(c: Config, uris: seq<string>)
    requires c.Valid()
    ensures |uris| > 3 * c.workers <==>
            exists steps :: CanRun(c, Init(c, uris), steps) && Leaked(c, Run(c, Init(c, uris), steps))
  {
    if steps :| CanRun(c, Init(c, uris), steps) && Leaked(c, Run(c, Init(c, uris), steps)) {
      LeakNeedsManyUris(c, uris, steps);
    }
    if |uris| > 3 * c.workers {
      var s0 := Init(c, uris);
      var s1 := Apply(c, s0, DropReceiver);
      assert CanRun(c, s1, []) && [DropReceiver][1..] == [];
      assert CanRun(c, s0, [DropReceiver]) && Run(c, s0, [DropReceiver]) == s1;
      var stop := StopAll(c, s1, 0);
      var s2 := Run(c, s1, stop);
      var feed := FeedMany(c, s2, 2 * c.workers);
      RunConcat(c, s1, stop, feed);
      RunConcat(c, s0, [DropReceiver], stop + feed);
      assert Leaked(c, Run(c, s0, [DropReceiver] + (stop + feed)));
    }
  }

  /** With at most three URIs per worker the pipeline always winds down, whatever the consumer does. */
  lemma SmallRunsAlwaysFinish(c: Config, uris: seq<string>, steps: seq<Step>)
    requires c.Valid() && CanRun(c, Init(c, uris), steps) && |uris| <= 3 * c.workers
    requires Stuck(c, Run(c, Init(c, uris), steps))
    ensures Finished(Run(c, Init(c, uris), steps))
  {
    InitIsWellformed(c, uris);
    RunKeepsInvariants(c, Init(c, uris), steps);
    StuckIsFinishedOrLeaked(c, Run(c, Init(c, uris), steps));
    LeakIffManyUris(c, uris);
  }

  // === What a result says ===

  /** Local are exactly the URIs of these two schemes. */
  lemma LocalSchemes(uri: string)
    ensures IsLocalUri(uri) <==> exists rest :: uri == "file://" + rest || uri == "direct://" + rest
  {
    if "file://" <= uri {
      assert uri == "file://" + uri[7..];
    }
    if "direct://" <= uri {
      assert uri == "direct://" + uri[9..];
    }
    if rest :| uri == "file://" + rest || uri == "direct://" + rest {
      assert "file://" <= uri || "direct://" <= uri;
    }
  }

  /** A result somewhere between the worker that fetched it and the consumer. */
  ghost predicate HasItem(s: State, m: ObjectMetadata) {
    m in s.out || m in s.received || exists w :: 0 <= w < |s.workers| && s.workers[w] == Sending(m)
  }

  /** The URIs fetched in a run, each with what the fetch returned. */
  function FetchLog(c: Config, s: State, steps: seq<Step>): set<(string, Option<nat>)>
    requires CanRun(c, s, steps)
    decreases |steps|
  {
    if steps == [] then {}
    else
      (if steps[0].Fetch? then {(s.workers[steps[0].w].uri, steps[0].size)} else {})
      + FetchLog(c, Apply(c, s, steps[0]), steps[1..])
  }

  lemma StepItems(c: Config, s: State, step: Step, m: ObjectMetadata)
    requires Enabled(c, s, step) && HasItem(Apply(c, s, step), m)
    ensures HasItem(s, m) || (step.Fetch? && m.uri == s.workers[step.w].uri && m.size == step.size && (m.isLocal <==> IsLocalUri(m.uri)))
  {
    hide IsLocalUri, Uris;
  }

  /** Every result carries the URI a worker took and the size its fetch returned: nothing is made up. */
  lemma {:induction false} ResultsWereFetched(c: Config, s: State, steps: seq<Step>, m: ObjectMetadata)
    requires CanRun(c, s, steps) && HasItem(Run(c, s, steps), m)
    ensures HasItem(s, m) || ((m.uri, m.size) in FetchLog(c, s, steps) && (m.isLocal <==> IsLocalUri(m.uri)))
    decreases |steps|
  {
    if steps != [] {
      var next := Apply(c, s, steps[0]);
      ResultsWereFetched(c, next, steps[1..], m);
      if HasItem(next, m) {
        StepItems(c, s, steps[0], m);
      }
      hide Apply, Enabled, HasItem, IsLocalUri;
    }
  }
}
