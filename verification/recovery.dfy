/** Checkpoints, crashes and reopens of the per-agent caches of one endpoint.

    A cache is the log of its inserts.  `persist` makes the whole log durable; a crash keeps some
    prefix that contains everything durable; an archive of the live directory holds such a prefix
    too.  Archives live on the storage under test, one name per agent. */
module Recovery {
  import opened Text

  datatype Write = Write(key: string, value: string)

  type AgentId = Option<usize>  // None: single-node run

  // === Names on storage ===

  function ArchiveName(agent: AgentId): string {
    match agent
    case Some(id) => ".sai3-cache-agent-" + Decimal(id) + ".tar.zst"
    case None => "sai3-kv-cache.tar.zst"
  }

  predicate IsCloud(uri: string) {
    StartsWith(uri, "s3://") || StartsWith(uri, "az://") || StartsWith(uri, "gs://")
  }

  function Slashed(uri: string): string {
    if EndsWith(uri, "/") then uri else uri + "/"
  }

  function JoinSlash(uri: string, name: string): string {
    Slashed(uri) + name
  }

  /** Where a checkpoint is written: cloud URIs are concatenated as they are. */
  function UploadUri(uri: string, agent: AgentId): string {
    if IsCloud(uri) then uri + ArchiveName(agent) else JoinSlash(uri, ArchiveName(agent))
  }

  /** Where a restore looks for it. */
  function DownloadUri(uri: string, agent: AgentId): string {
    JoinSlash(uri, ArchiveName(agent))
  }

  predicate RoundTrips(uri: string) {
    !IsCloud(uri) || EndsWith(uri, "/")
  }

  lemma ArchiveNameInjective(a: AgentId, b: AgentId)
    requires ArchiveName(a) == ArchiveName(b)
    ensures a == b
  {
    assert ArchiveName(a)[0] == if a.Some? then '.' else 's';
    assert ArchiveName(b)[0] == if b.Some? then '.' else 's';
    if a.Some? && b.Some? {
      var pre, suf, s := ".sai3-cache-agent-", ".tar.zst", ArchiveName(a);
      assert s[|pre|..|s| - |suf|] == Decimal(a.value);
      assert s[|pre|..|s| - |suf|] == Decimal(b.value);
      DecimalInjective(a.value, b.value);
    }
  }

  lemma ArchiveNameHasNoSlash(a: AgentId)
    ensures '/' !in ArchiveName(a)
  {
    match a
    case None =>
    case Some(id) => assert forall c <- Decimal(id) :: IsDigit(c);
  }

  /** Two (endpoint, agent) pairs share a checkpoint location exactly when they are the same agent on
      endpoints that differ at most by a final slash. */
  lemma CheckpointLocationInjective(u: string, a: AgentId, v: string, b: AgentId)
    ensures DownloadUri(u, a) == DownloadUri(v, b) <==> Slashed(u) == Slashed(v) && a == b
  {
    hide ArchiveName;
    ArchiveNameHasNoSlash(a);
    ArchiveNameHasNoSlash(b);
    var x, y := Slashed(u), Slashed(v);
    var u', v' := x[..|x| - 1], y[..|y| - 1];
    assert x == u' + "/" && y == v' + "/";
    if DownloadUri(u, a) == DownloadUri(v, b) {
      SuffixAfterSlash(u', ArchiveName(a), v', ArchiveName(b));
      ArchiveNameInjective(a, b);
    }
  }

  lemma LocationsDistinct(uri: string, a: AgentId, b: AgentId)
    requires UploadUri(uri, a) == UploadUri(uri, b) || DownloadUri(uri, a) == DownloadUri(uri, b)
    ensures a == b
  {
    var base := if UploadUri(uri, a) == UploadUri(uri, b) && IsCloud(uri) then uri
                else if EndsWith(uri, "/") then uri else uri + "/";
    assert base + ArchiveName(a) == base + ArchiveName(b);
    assert (base + ArchiveName(a))[|base|..] == ArchiveName(a);
    assert (base + ArchiveName(b))[|base|..] == ArchiveName(b);
    ArchiveNameInjective(a, b);
  }

  /** Which schemes are concatenated as they are, and which are joined with a slash. */
  lemma SchemesDecide(rest: string, agent: AgentId)
    ensures forall scheme :: scheme in ["s3://", "az://", "gs://"] ==> UploadUri(scheme + rest, agent) == scheme + rest + ArchiveName(agent)
    ensures forall scheme :: scheme in ["file://", "direct://"] && !EndsWith(scheme + rest, "/") ==>
              UploadUri(scheme + rest, agent) == scheme + rest + "/" + ArchiveName(agent)
  {
    hide ArchiveName;
    var f, d := "file://" + rest, "direct://" + rest;
    assert f[0] == 'f' && d[0] == 'd';
    assert "s3://"[0] == 's' && "az://"[0] == 'a' && "gs://"[0] == 'g';
  }

  /** A restore looks where the checkpoint was written exactly when the URI is local or ends in a
      slash; otherwise it looks where no agent ever writes. */
  lemma UploadIsFound(uri: string, a: AgentId, b: AgentId)
    ensures UploadUri(uri, a) == DownloadUri(uri, a) <==> RoundTrips(uri)
    ensures !RoundTrips(uri) ==> UploadUri(uri, b) != DownloadUri(uri, a)
  {
    if !RoundTrips(uri) {
      assert UploadUri(uri, b)[|uri|] == ArchiveName(b)[0] != '/';
      assert DownloadUri(uri, a)[|uri|] == '/';
      assert UploadUri(uri, a)[|uri|] == ArchiveName(a)[0] != '/';
    }
  }

  // === Sessions, storage and steps ===

  /** What unpacking the archive of a directory gives back. */
  datatype Archive = Archive(content: seq<Write>)

  datatype Session = Session(
    log: seq<Write>,              // everything recorded on this branch of history
    durable: nat,                 // guaranteed to survive a crash
    open: bool,
    linked: bool,                 // the cache directory still exists while open
    disk: seq<Write>,             // directory contents while closed
    inflight: multiset<Archive>)  // captured by periodic checkpoints, retries included, and not yet landed

  const NEW_SESSION := Session([], 0, false, false, [], multiset{})

  datatype State = State(storage: map<string, Archive>, sessions: map<AgentId, Session>)

  const FRESH := State(map[], map[])

  datatype Step =
    | Open(agent: AgentId)
    | Record(agent: AgentId, write: Write)
    | Flush(agent: AgentId)
    | Crash(agent: AgentId, kept: nat)
    | Capture(agent: AgentId, kept: nat)             // periodic task archives the directory, without a flush
    | Upload(agent: AgentId, archive: Archive)       // a captured archive lands
    | DropUpload(agent: AgentId, archive: Archive)   // or never will
    | FinalCheckpoint(agent: AgentId)                // a successful write_checkpoint

  function SessionOf(s: State, a: AgentId): Session {
    if a in s.sessions then s.sessions[a] else NEW_SESSION
  }

  function With(s: State, a: AgentId, x: Session): State {
    s.(sessions := s.sessions[a := x])
  }

  predicate Enabled(s: State, step: Step) {
    var x := SessionOf(s, step.agent);
    match step
    case Open(_) => !x.open
    case Record(_, _) => x.open
    case Flush(_) => x.open
    case Crash(_, k) => x.open && x.durable <= k <= |x.log|
    case Capture(_, k) => x.open && x.linked && x.durable <= k <= |x.log|
    case Upload(_, archive) => archive in x.inflight
    case DropUpload(_, archive) => archive in x.inflight
    case FinalCheckpoint(_) => x.open && x.linked
  }

  function Apply(uri: string, s: State, step: Step): State
    requires Enabled(s, step)
  {
    var a := step.agent;
    var x := SessionOf(s, a);
    match step
    case Open(_) =>
      // the archive wins whenever there is one, even over a newer local directory
      var found := DownloadUri(uri, a) in s.storage;
      var content := if found then s.storage[DownloadUri(uri, a)].content else x.disk;
      With(s, a, Session(content, |content|, true, true, [], multiset{}))
    case Record(_, w) => With(s, a, x.(log := x.log + [w]))
    case Flush(_) => With(s, a, if x.linked then x.(durable := |x.log|) else x)
    case Crash(_, k) => With(s, a, x.(open := false, disk := if x.linked then x.log[..k] else [], inflight := multiset{}))
    case Capture(_, k) => With(s, a, x.(inflight := x.inflight + multiset{Archive(x.log[..k])}))
    case Upload(_, archive) =>
      With(s, a, x.(inflight := x.inflight - multiset{archive})).(storage := s.storage[UploadUri(uri, a) := archive])
    case DropUpload(_, archive) => With(s, a, x.(inflight := x.inflight - multiset{archive}))
    case FinalCheckpoint(_) =>
      // force_flush, archive, upload, then remove the local directory
      With(s, a, x.(durable := |x.log|, linked := false))
        .(storage := s.storage[UploadUri(uri, a) := Archive(x.log)])
  }

  predicate CanRun(uri: string, s: State, steps: seq<Step>)
    decreases |steps|
  {
    steps == [] || (Enabled(s, steps[0]) && CanRun(uri, Apply(uri, s, steps[0]), steps[1..]))
  }

  function Run(uri: string, s: State, steps: seq<Step>): State
    requires CanRun(uri, s, steps)
    decreases |steps|
  {
    if steps == [] then s else Run(uri, Apply(uri, s, steps[0]), steps[1..])
  }

  // === Safety over all histories ===

  predicate ArchiveOf(log: seq<Write>, archive: Archive) {
    archive.content <= log
  }

  /** Whatever is stored or about to be stored for this agent is a prefix of its history. */
  ghost predicate Own(uri: string, s: State, a: AgentId) {
    var x := SessionOf(s, a);
    && x.durable <= |x.log|
    && (UploadUri(uri, a) in s.storage ==> ArchiveOf(x.log, s.storage[UploadUri(uri, a)]))
    && (forall archive :: archive in x.inflight ==> ArchiveOf(x.log, archive))
    && (!x.open ==> x.disk <= x.log && x.inflight == multiset{})
    && (!x.open && x.linked ==> x.durable <= |x.disk|)
    && (x.open && !x.linked ==> UploadUri(uri, a) in s.storage)
  }

  ghost predicate Consistent(uri: string, s: State) {
    forall a :: Own(uri, s, a)
  }

  lemma StepKeepsOwn(uri: string, s: State, step: Step)
    requires RoundTrips(uri) && Own(uri, s, step.agent) && Enabled(s, step)
    ensures Own(uri, Apply(uri, s, step), step.agent)
  {
    UploadIsFound(uri, step.agent, step.agent);
    hide UploadUri, DownloadUri, RoundTrips, Own, Apply, Enabled;
    match step
    case Record(a, w) => RecordKeepsOwn(uri, s, a, w);
    case _ => OtherKeepsOwn(uri, s, step);
  }

  lemma OtherKeepsOwn(uri: string, s: State, step: Step)
    requires UploadUri(uri, step.agent) == DownloadUri(uri, step.agent)
    requires Own(uri, s, step.agent) && Enabled(s, step) && !step.Record?
    ensures Own(uri, Apply(uri, s, step), step.agent)
  {
    hide UploadUri, DownloadUri;
  }

  lemma RecordKeepsOwn(uri: string, s: State, a: AgentId, w: Write)
    requires Own(uri, s, a) && Enabled(s, Record(a, w))
    ensures Own(uri, Apply(uri, s, Record(a, w)), a)
  {
    hide UploadUri, DownloadUri;
    var log := SessionOf(s, a).log;
    forall archive | ArchiveOf(log, archive)
      ensures ArchiveOf(log + [w], archive)
    {}
    hide ArchiveOf;
  }

  lemma StepKeepsConsistent(uri: string, s: State, step: Step)
    requires RoundTrips(uri) && Consistent(uri, s) && Enabled(s, step)
    ensures Consistent(uri, Apply(uri, s, step))
  {
    hide UploadUri, DownloadUri, Apply, Enabled;
    assert Own(uri, s, step.agent);
    StepKeepsOwn(uri, s, step);
    forall a | a != step.agent
      ensures Own(uri, Apply(uri, s, step), a)
    {
      assert Own(uri, s, a);
      OtherAgentsUntouched(uri, s, step, a);
    }
  }

  lemma {:induction false} RunKeepsConsistent(uri: string, s: State, steps: seq<Step>)
    requires RoundTrips(uri) && Consistent(uri, s) && CanRun(uri, s, steps)
    ensures Consistent(uri, Run(uri, s, steps))
    decreases |steps|
  {
    if steps != [] {
      StepKeepsConsistent(uri, s, steps[0]);
      RunKeepsConsistent(uri, Apply(uri, s, steps[0]), steps[1..]);
    }
  }

  // === What an archive is worth ===

  lemma {:induction false} RunSnoc(uri: string, s: State, steps: seq<Step>, step: Step)
    requires CanRun(uri, s, steps) && Enabled(Run(uri, s, steps), step)
    ensures CanRun(uri, s, steps + [step]) && Run(uri, s, steps + [step]) == Apply(uri, Run(uri, s, steps), step)
    decreases |steps|
  {
    hide Apply, Enabled;
    if steps == [] {
      Chain(uri, s, [step], Apply(uri, s, step));
      assert [] + [step] == [step];
    } else {
      RunSnoc(uri, Apply(uri, s, steps[0]), steps[1..], step);
      assert (steps + [step])[1..] == steps[1..] + [step];
    }
  }

  lemma {:induction false} RunPrefix(uri: string, s: State, steps: seq<Step>, i: nat)
    requires CanRun(uri, s, steps) && i <= |steps|
    ensures CanRun(uri, s, steps[..i])
    ensures i < |steps| ==>
              && Enabled(Run(uri, s, steps[..i]), steps[i]) && CanRun(uri, s, steps[..i + 1])
              && Run(uri, s, steps[..i + 1]) == Apply(uri, Run(uri, s, steps[..i]), steps[i])
    ensures i == |steps| ==> Run(uri, s, steps[..i]) == Run(uri, s, steps)
    decreases i
  {
    hide Apply, Enabled;
    if i > 0 {
      RunPrefix(uri, Apply(uri, s, steps[0]), steps[1..], i - 1);
      assert steps[..i][1..] == steps[1..][..i - 1];
      if i < |steps| {
        assert steps[..i + 1][1..] == steps[1..][..i];
      }
    } else if |steps| > 0 {
      assert steps[..1][1..] == [];
    }
    assert steps[..|steps|] == steps;
  }

  /** A capture puts one archive in flight: everything that is durable at that moment, and nothing that
      was not recorded. */
  lemma CaptureHoldsDurable(uri: string, s: State, a: AgentId, kept: nat) returns (archive: Archive)
    requires Enabled(s, Capture(a, kept))
    ensures var (x, y) := (SessionOf(s, a), SessionOf(Apply(uri, s, Capture(a, kept)), a));
            && y.inflight == x.inflight + multiset{archive}
            && x.log[..x.durable] <= archive.content <= x.log
            && y.log == x.log && y.durable == x.durable
  {
    archive := Archive(SessionOf(s, a).log[..kept]);
  }

  /** The content was archived by step `i` of the run: it has all that was durable just before. */
  ghost predicate TakenAt(uri: string, steps: seq<Step>, a: AgentId, content: seq<Write>, i: nat) {
    && i < |steps| && steps[i].agent == a && (steps[i].Capture? || steps[i].FinalCheckpoint?)
    && CanRun(uri, FRESH, steps[..i])
    && var x := SessionOf(Run(uri, FRESH, steps[..i]), a);
       x.durable <= |x.log| && x.log[..x.durable] <= content <= x.log
  }

  ghost predicate Taken(uri: string, steps: seq<Step>, a: AgentId, content: seq<Write>) {
    exists i: nat :: TakenAt(uri, steps, a, content, i)
  }

  lemma TakenBefore(uri: string, steps: seq<Step>, step: Step, a: AgentId, content: seq<Write>)
    requires Taken(uri, steps, a, content)
    ensures Taken(uri, steps + [step], a, content)
  {
    hide CanRun, Run;
    var i: nat :| TakenAt(uri, steps, a, content, i);
    assert (steps + [step])[..i] == steps[..i];
    assert TakenAt(uri, steps + [step], a, content, i);
  }

  lemma TakenNow(uri: string, steps: seq<Step>, step: Step, content: seq<Write>)
    requires CanRun(uri, FRESH, steps) && (step.Capture? || step.FinalCheckpoint?)
    requires var x := SessionOf(Run(uri, FRESH, steps), step.agent); x.durable <= |x.log| && x.log[..x.durable] <= content <= x.log
    ensures Taken(uri, steps + [step], step.agent, content)
  {
    hide CanRun, Run;
    assert (steps + [step])[..|steps|] == steps;
    assert TakenAt(uri, steps + [step], step.agent, content, |steps|);
  }

  /** In every run all that is stored or in flight for an agent was taken by a step of that agent. */
  ghost predicate AllTaken(uri: string, steps: seq<Step>, a: AgentId)
    requires CanRun(uri, FRESH, steps)
  {
    var s := Run(uri, FRESH, steps);
    && (UploadUri(uri, a) in s.storage ==> Taken(uri, steps, a, s.storage[UploadUri(uri, a)].content))
    && forall archive :: archive in SessionOf(s, a).inflight ==> Taken(uri, steps, a, archive.content)
  }

  lemma {:induction false} EverythingWasTaken(uri: string, steps: seq<Step>, a: AgentId)
    requires RoundTrips(uri) && CanRun(uri, FRESH, steps)
    ensures AllTaken(uri, steps, a)
    decreases |steps|
  {
    hide Run, CanRun, Apply, Enabled, Own, AllTaken, RoundTrips;
    if steps == [] {
      NothingTaken(uri, a);
    } else {
      var n := |steps| - 1;
      var front, step := steps[..n], steps[n];
      RunPrefix(uri, FRESH, steps, n);
      assert steps == front + [step] && steps[..n + 1] == steps;
      EverythingWasTaken(uri, front, a);
      OwnAfterRun(uri, front, a);
      StepKeepsTaken(uri, front, step, a);
    }
  }

  lemma NothingTaken(uri: string, a: AgentId)
    ensures CanRun(uri, FRESH, []) && AllTaken(uri, [], a)
  {}

  lemma OwnAfterRun(uri: string, steps: seq<Step>, a: AgentId)
    requires RoundTrips(uri) && CanRun(uri, FRESH, steps)
    ensures Own(uri, Run(uri, FRESH, steps), a)
  {
    FreshIsConsistent(uri);
    RunKeepsConsistent(uri, FRESH, steps);
    hide Own, Run, CanRun;
  }

  lemma FreshIsConsistent(uri: string)
    ensures Consistent(uri, FRESH)
  {}

  lemma StepKeepsTaken(uri: string, front: seq<Step>, step: Step, a: AgentId)
    requires CanRun(uri, FRESH, front) && Enabled(Run(uri, FRESH, front), step) && CanRun(uri, FRESH, front + [step])
    requires Run(uri, FRESH, front + [step]) == Apply(uri, Run(uri, FRESH, front), step)
    requires AllTaken(uri, front, a) && Own(uri, Run(uri, FRESH, front), a)
    ensures AllTaken(uri, front + [step], a)
  {
    var s, steps := Run(uri, FRESH, front), front + [step];
    var t := Apply(uri, s, step);
    forall content | Taken(uri, front, a, content)
      ensures Taken(uri, steps, a, content)
    {
      TakenBefore(uri, front, step, a, content);
    }
    hide Taken, Run, CanRun, UploadUri, DownloadUri, ArchiveOf, Apply, Enabled;
    WhatLands(uri, s, step, a);
    if step.agent == a && step.Capture? {
      var archive := CaptureHoldsDurable(uri, s, a, step.kept);
      TakenNow(uri, front, step, archive.content);
    } else if step.agent == a && step.FinalCheckpoint? {
      TakenNow(uri, front, step, SessionOf(s, a).log);
    }
  }

  /** What a step can put into storage or in flight. */
  lemma WhatLands(uri: string, s: State, step: Step, a: AgentId)
    requires Enabled(s, step)
    ensures var t, key := Apply(uri, s, step), UploadUri(uri, a);
            key in t.storage ==>
              || (key in s.storage && t.storage[key] == s.storage[key])
              || t.storage[key] in SessionOf(s, a).inflight
              || (step == FinalCheckpoint(a) && t.storage[key].content == SessionOf(s, a).log)
    ensures forall archive :: archive in SessionOf(Apply(uri, s, step), a).inflight ==>
              archive in SessionOf(s, a).inflight || (step.agent == a && step.Capture?)
  {
    hide UploadUri, DownloadUri;
    if step.agent != a || !(step.Upload? || step.FinalCheckpoint?) {
      OtherAgentsUntouched(uri, s, step, a);
    }
  }

  /** After any history, a reopened cache holds a prefix of what that agent recorded.  With an
      archive on storage it is the archive, which has all that was durable when it was taken;
      without one it still holds everything that was durable. */
  lemma ReopenedIsPrefix(uri: string, steps: seq<Step>, a: AgentId)
    requires RoundTrips(uri) && CanRun(uri, FRESH, steps)
    requires !SessionOf(Run(uri, FRESH, steps), a).open
    ensures var s := Run(uri, FRESH, steps);
            var before, after := SessionOf(s, a), SessionOf(Apply(uri, s, Open(a)), a);
            && after.log <= before.log
            && (DownloadUri(uri, a) in s.storage ==> after.log == s.storage[DownloadUri(uri, a)].content && Taken(uri, steps, a, after.log))
            && (DownloadUri(uri, a) !in s.storage && before.linked ==> before.durable <= |after.log|)
  {
    RunKeepsConsistent(uri, FRESH, steps);
    EverythingWasTaken(uri, steps, a);
    UploadIsFound(uri, a, a);
    var s := Run(uri, FRESH, steps);
    assert Own(uri, s, a);
    hide Taken, Run, CanRun;
  }

  /** What was recorded before a flush stays durable and in the log until the session ends. */
  lemma {:induction false} FlushedStaysDurable(uri: string, s: State, steps: seq<Step>, a: AgentId, log: seq<Write>)
    requires SessionOf(s, a).open && log <= SessionOf(s, a).log && |log| <= SessionOf(s, a).durable
    requires CanRun(uri, s, steps) && forall step :: step in steps && step.agent == a ==> !step.Crash?
    ensures var x := SessionOf(Run(uri, s, steps), a); x.open && log <= x.log && |log| <= x.durable
    decreases |steps|
  {
    if steps != [] {
      assert steps[0] in steps;
      StepKeepsDurable(uri, s, steps[0], a, log);
      hide Apply, Enabled;
      FlushedStaysDurable(uri, Apply(uri, s, steps[0]), steps[1..], a, log);
    }
  }

  lemma StepKeepsDurable(uri: string, s: State, step: Step, a: AgentId, log: seq<Write>)
    requires SessionOf(s, a).open && log <= SessionOf(s, a).log && |log| <= SessionOf(s, a).durable
    requires Enabled(s, step) && (step.agent == a ==> !step.Crash?)
    ensures var x := SessionOf(Apply(uri, s, step), a); x.open && log <= x.log && |log| <= x.durable
  {
    hide UploadUri, DownloadUri;
  }

  /** A flush, and a capture some time later in the same session: the archive has everything that was
      recorded before the flush. */
  lemma CaptureCoversFlush(uri: string, s: State, between: seq<Step>, a: AgentId, kept: nat) returns (archive: Archive)
    requires Enabled(s, Flush(a)) && SessionOf(s, a).linked
    requires CanRun(uri, Apply(uri, s, Flush(a)), between) && forall step :: step in between && step.agent == a ==> !step.Crash?
    requires Enabled(Run(uri, Apply(uri, s, Flush(a)), between), Capture(a, kept))
    ensures var mid := Run(uri, Apply(uri, s, Flush(a)), between);
            SessionOf(Apply(uri, mid, Capture(a, kept)), a).inflight == SessionOf(mid, a).inflight + multiset{archive}
    ensures SessionOf(s, a).log <= archive.content
  {
    var log, flushed := SessionOf(s, a).log, Apply(uri, s, Flush(a));
    FlushedStaysDurable(uri, flushed, between, a, log);
    var mid := Run(uri, flushed, between);
    archive := CaptureHoldsDurable(uri, mid, a, kept);
    var x := SessionOf(mid, a);
    assert log == x.log[..|log|] && x.log[..x.durable][..|log|] == x.log[..|log|];
    assert archive.content[..|log|] == log;
  }

  /** The archive that landed last is what the next open restores, whatever other steps follow. */
  lemma LastLandedIsRestored(uri: string, s: State, a: AgentId, archive: Archive, after: seq<Step>)
    requires RoundTrips(uri) && Enabled(s, Upload(a, archive)) && CanRun(uri, Apply(uri, s, Upload(a, archive)), after)
    requires forall step :: step in after && step.agent == a ==> !step.Upload? && !step.FinalCheckpoint? && !step.Open?
    requires !SessionOf(Run(uri, Apply(uri, s, Upload(a, archive)), after), a).open
    ensures SessionOf(Apply(uri, Run(uri, Apply(uri, s, Upload(a, archive)), after), Open(a)), a).log == archive.content
  {
    UploadIsFound(uri, a, a);
    NothingElseLands(uri, Apply(uri, s, Upload(a, archive)), after, a);
  }

  lemma {:induction false} NothingElseLands(uri: string, s: State, steps: seq<Step>, a: AgentId)
    requires CanRun(uri, s, steps) && UploadUri(uri, a) in s.storage
    requires forall step :: step in steps && step.agent == a ==> !step.Upload? && !step.FinalCheckpoint?
    ensures UploadUri(uri, a) in Run(uri, s, steps).storage && Run(uri, s, steps).storage[UploadUri(uri, a)] == s.storage[UploadUri(uri, a)]
    decreases |steps|
  {
    if steps != [] {
      assert steps[0] in steps;
      OtherAgentsUntouched(uri, s, steps[0], a);
      hide Apply, Enabled, UploadUri;
      NothingElseLands(uri, Apply(uri, s, steps[0]), steps[1..], a);
    }
  }

  /** A flush is not enough.  The flushed writes of a crashed session come back exactly when
      storage holds no archive, or one that already contains them all. */
  lemma FlushedWritesSurvive(uri: string, s: State, a: AgentId, kept: nat)
    requires RoundTrips(uri) && Consistent(uri, s)
    requires SessionOf(s, a).linked && Enabled(s, Crash(a, kept))
    ensures var x := SessionOf(s, a);
            var down := Apply(uri, s, Crash(a, kept));
            var after := SessionOf(Apply(uri, down, Open(a)), a);
            (x.log[..x.durable] <= after.log) <==>
            (DownloadUri(uri, a) !in s.storage || x.durable <= |s.storage[DownloadUri(uri, a)].content|)
  {
    UploadIsFound(uri, a, a);
    var x := SessionOf(s, a);
    assert Own(uri, s, a);
    if DownloadUri(uri, a) in s.storage {
      assert ArchiveOf(x.log, s.storage[UploadUri(uri, a)]);
      assert s.storage[DownloadUri(uri, a)].content == x.log[..|s.storage[DownloadUri(uri, a)].content|];
    }
  }

  lemma Chain(uri: string, s: State, steps: seq<Step>, end: State)
    requires steps != [] && Enabled(s, steps[0])
    requires CanRun(uri, Apply(uri, s, steps[0]), steps[1..])
    requires Run(uri, Apply(uri, s, steps[0]), steps[1..]) == end
    ensures CanRun(uri, s, steps) && Run(uri, s, steps) == end
  {}

  lemma ThreeSteps(uri: string, s: State, p: Step, q: Step, r: Step)
    requires Enabled(s, p) && Enabled(Apply(uri, s, p), q) && Enabled(Apply(uri, Apply(uri, s, p), q), r)
    ensures CanRun(uri, s, [p, q, r])
    ensures Run(uri, s, [p, q, r]) == Apply(uri, Apply(uri, Apply(uri, s, p), q), r)
  {
    var s1 := Apply(uri, s, p);
    var s2 := Apply(uri, s1, q);
    var s3 := Apply(uri, s2, r);
    Chain(uri, s2, [r], s3);
    assert [q, r][1..] == [r];
    Chain(uri, s1, [q, r], s3);
    assert [p, q, r][1..] == [q, r];
    Chain(uri, s, [p, q, r], s3);
  }

  /** The failing case is one crash away in every session: checkpoint, reopen, record and flush one
      more write, crash.  The write was durable, and reopening does not bring it back. */
  lemma NewerFlushIsRolledBack(uri: string, s: State, a: AgentId, w: Write)
    requires RoundTrips(uri) && Enabled(s, FinalCheckpoint(a))
    ensures var log := SessionOf(s, a).log;
            var first := [FinalCheckpoint(a), Crash(a, |log|), Open(a)];
            var next := [Record(a, w), Flush(a), Crash(a, |log| + 1)];
            && CanRun(uri, s, first) && CanRun(uri, Run(uri, s, first), next)
            && var down := Run(uri, Run(uri, s, first), next);
               && SessionOf(down, a).durable == |log| + 1 && SessionOf(down, a).log == log + [w]
               && Enabled(down, Open(a))
               && SessionOf(Apply(uri, down, Open(a)), a).log == log
  {
    UploadIsFound(uri, a, a);
    var log := SessionOf(s, a).log;
    ThreeSteps(uri, s, FinalCheckpoint(a), Crash(a, |log|), Open(a));
    var mid := Run(uri, s, [FinalCheckpoint(a), Crash(a, |log|), Open(a)]);
    assert SessionOf(mid, a) == Session(log, |log|, true, true, [], multiset{});
    ThreeSteps(uri, mid, Record(a, w), Flush(a), Crash(a, |log| + 1));
  }

  // === The final checkpoint ===

  /** No step but an upload by the agent itself changes the agent's archive, and no step by
      another agent changes its session. */
  lemma OtherAgentsUntouched(uri: string, s: State, step: Step, a: AgentId)
    requires Enabled(s, step)
    requires step.agent != a || !(step.Upload? || step.FinalCheckpoint?)
    ensures var s' := Apply(uri, s, step);
            && (step.agent != a ==> SessionOf(s', a) == SessionOf(s, a))
            && (UploadUri(uri, a) in s'.storage <==> UploadUri(uri, a) in s.storage)
            && (UploadUri(uri, a) in s.storage ==> s'.storage[UploadUri(uri, a)] == s.storage[UploadUri(uri, a)])
  {
    if UploadUri(uri, a) == UploadUri(uri, step.agent) {
      LocationsDistinct(uri, a, step.agent);
    }
  }

  /** The agent's archive holds this content, and nothing that could land holds anything else. */
  ghost predicate Sealed(uri: string, s: State, a: AgentId, content: seq<Write>) {
    && UploadUri(uri, a) in s.storage && s.storage[UploadUri(uri, a)].content == content
    && (SessionOf(s, a).open ==> !SessionOf(s, a).linked)
    && forall archive :: archive in SessionOf(s, a).inflight ==> archive.content == content
  }

  lemma StepKeepsSealed(uri: string, s: State, step: Step, a: AgentId, content: seq<Write>)
    requires Sealed(uri, s, a, content) && Enabled(s, step) && step != Open(a)
    ensures Sealed(uri, Apply(uri, s, step), a, content)
  {
    hide UploadUri, DownloadUri;
    if step.agent != a || !(step.Upload? || step.FinalCheckpoint?) {
      OtherAgentsUntouched(uri, s, step, a);
    }
    assert step.agent == a ==> !step.FinalCheckpoint? && !step.Capture? && !step.Open?;
  }

  /** While the directory is gone and nothing in flight differs, no later step short of a reopen can
      change the agent's archive. */
  lemma {:induction false} ArchiveIsSealed(uri: string, s: State, steps: seq<Step>, a: AgentId, content: seq<Write>)
    requires CanRun(uri, s, steps) && Open(a) !in steps && Sealed(uri, s, a, content)
    ensures Sealed(uri, Run(uri, s, steps), a, content)
    decreases |steps|
  {
    if steps != [] {
      StepKeepsSealed(uri, s, steps[0], a, content);
      hide Sealed, Apply, Enabled;
      ArchiveIsSealed(uri, Apply(uri, s, steps[0]), steps[1..], a, content);
    }
  }

  /** Whatever follows short of a reopen, once the session has ended the next open restores this. */
  ghost predicate AlwaysRestores(uri: string, s: State, a: AgentId, content: seq<Write>) {
    forall steps :: CanRun(uri, s, steps) && Open(a) !in steps && !SessionOf(Run(uri, s, steps), a).open ==>
      SessionOf(Apply(uri, Run(uri, s, steps), Open(a)), a).log == content
  }

  /** After a successful final checkpoint the next open restores exactly the checkpointed state,
      whatever follows, exactly when every periodic archive still in flight holds that state too. */
  lemma FinalCheckpointIsExact(uri: string, s: State, a: AgentId)
    requires RoundTrips(uri) && Enabled(s, FinalCheckpoint(a))
    ensures var log := SessionOf(s, a).log;
            AlwaysRestores(uri, Apply(uri, s, FinalCheckpoint(a)), a, log)
            <==> forall archive :: archive in SessionOf(s, a).inflight ==> archive.content == log
  {
    var log := SessionOf(s, a).log;
    var done := Apply(uri, s, FinalCheckpoint(a));
    UploadIsFound(uri, a, a);
    if archive :| archive in SessionOf(s, a).inflight && archive.content != log {
      LateUploadRollsBack(uri, s, a, archive);
      assert !AlwaysRestores(uri, done, a, log);
    } else {
      assert Sealed(uri, done, a, log);
      forall steps | CanRun(uri, done, steps) && Open(a) !in steps && !SessionOf(Run(uri, done, steps), a).open
        ensures SessionOf(Apply(uri, Run(uri, done, steps), Open(a)), a).log == log
      {
        ArchiveIsSealed(uri, done, steps, a, log);
        hide CanRun, Run, UploadUri, DownloadUri;
      }
    }
  }

  /** An archive captured earlier that lands after the final checkpoint replaces it: the next open
      restores what was captured.  Aborting the periodic task does not recall a file write that has
      begun. */
  lemma LateUploadRollsBack(uri: string, s: State, a: AgentId, archive: Archive)
    requires RoundTrips(uri) && Enabled(s, FinalCheckpoint(a)) && archive in SessionOf(s, a).inflight
    ensures var done := Apply(uri, s, FinalCheckpoint(a));
            var steps := [Upload(a, archive), Crash(a, |SessionOf(s, a).log|)];
            && CanRun(uri, done, steps) && !SessionOf(Run(uri, done, steps), a).open
            && SessionOf(Apply(uri, Run(uri, done, steps), Open(a)), a).log == archive.content
  {
    UploadIsFound(uri, a, a);
    var done, n := Apply(uri, s, FinalCheckpoint(a)), |SessionOf(s, a).log|;
    var landed := Apply(uri, done, Upload(a, archive));
    var down := Apply(uri, landed, Crash(a, n));
    Chain(uri, landed, [Crash(a, n)], down);
    assert [Upload(a, archive), Crash(a, n)][1..] == [Crash(a, n)];
    Chain(uri, done, [Upload(a, archive), Crash(a, n)], down);
  }

  /** Such an archive is in flight in some run from every session that has just opened: capture,
      write once more, checkpoint. */
  lemma LateUploadHappens(uri: string, s: State, a: AgentId, w: Write)
    requires RoundTrips(uri) && SessionOf(s, a).open && SessionOf(s, a).linked && SessionOf(s, a).durable <= |SessionOf(s, a).log|
    ensures var n := |SessionOf(s, a).log|;
            var steps := [Capture(a, n), Record(a, w), Flush(a)];
            && CanRun(uri, s, steps) && Enabled(Run(uri, s, steps), FinalCheckpoint(a))
            && !AlwaysRestores(uri, Apply(uri, Run(uri, s, steps), FinalCheckpoint(a)), a, SessionOf(s, a).log + [w])
  {
    var x := SessionOf(s, a);
    var n := |x.log|;
    var captured := Archive(x.log[..n]);
    ThreeSteps(uri, s, Capture(a, n), Record(a, w), Flush(a));
    var end := Run(uri, s, [Capture(a, n), Record(a, w), Flush(a)]);
    assert SessionOf(end, a).log == x.log + [w] && captured in SessionOf(end, a).inflight;
    hide CanRun, Run, AlwaysRestores, UploadUri, DownloadUri;
    FinalCheckpointIsExact(uri, end, a);
  }

  /** A final checkpoint can be restored exactly when its URI is local or ends in a slash (or there
      was nothing to restore): the local directory is removed after the upload, so an archive that
      restore does not find means the whole history is lost. */
  lemma CheckpointIsRecoverable(uri: string, s: State, a: AgentId)
    requires Enabled(s, FinalCheckpoint(a)) && SessionOf(s, a).durable <= |SessionOf(s, a).log|
    requires forall key <- s.storage :: exists b :: key == UploadUri(uri, b)
    ensures var x := SessionOf(s, a);
            var done := Apply(uri, s, FinalCheckpoint(a));
            var down := Apply(uri, done, Crash(a, |x.log|));
            SessionOf(Apply(uri, down, Open(a)), a).log == x.log <==> RoundTrips(uri) || x.log == []
  {
    UploadIsFound(uri, a, a);
    if !RoundTrips(uri) {
      forall b
        ensures UploadUri(uri, b) != DownloadUri(uri, a)
      {
        UploadIsFound(uri, a, b);
      }
    }
  }
}
