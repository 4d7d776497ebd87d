/**
 Many builds at once: source workers, cancellation, the point of no return, and table commits.

 A schedule is any sequence of actions; an action that is not enabled does nothing. A build reads
 the revision of each of its tables, runs its workers, decides whether it was cancelled, composes,
 settles, commits its tables, writes its manifest and ends its job; it can also be stopped, by an
 exception nobody handles or a refusal, and then its job is all that still ends; and its job may never
 be queued. `After` is the state a schedule leads to, and everything below is about the states of all
 schedules.
 */
module BuildRuns {
  import opened Basics

  // ----- cancellation of one run (`RunCancellation`)

  /** Two latches, changed under one lock. */
  datatype Latch = Latch(requested: bool, committed: bool)

  function Request(l: Latch): Latch {
    if l.committed then l else l.(requested := true)
  }

  function Commit(l: Latch): Latch {
    if l.requested then l else l.(committed := true)
  }

  // ----- state

  datatype Status = Ok | Failed | Cancelled

  datatype JobStatus = Queued | Running | Cancelling | JobSucceeded | JobFailed | JobCancelled

  /** A worker at the boundary before stage `stage` (bronze, silver, gold, export), or past it. */
  datatype Worker =
    | AtBoundary(stage: nat)
    | Inside(stage: nat)
    | Ended(status: Status, error: string)

  datatype Failure = Conflict | CommitFailed

  datatype Phase =
    | Waiting
    | Reading
    | Working
    | Decided(cancelled: bool)
    | Settled(status: Status, errors: seq<string>)

  datatype Manifest = Manifest(
    status: Status, partial: bool, errors: seq<string>, composed: bool, failures: map<string, Failure>)

  /** What a build is asked for; `probe` when it can be cancelled, `catalog` when it commits. */
  datatype Spec = Spec(dataset: string, sources: seq<string>, composition: Option<string>, probe: bool, catalog: bool)

  datatype Run = Run(
    spec: Spec,
    phase: Phase,
    latch: Latch,
    job: JobStatus,
    starts: seq<nat>,
    readAt: seq<nat>,
    workers: seq<Worker>,
    composition: Option<Option<string>>,
    terminal: seq<Status>,
    next: nat,
    materialized: set<string>,
    failures: map<string, Failure>,
    manifest: Option<Manifest>,
    stopped: bool)

  /** A committed snapshot: by which build, from which source, when that build had read the
      table's revision, and when it was committed. */
  datatype Snapshot = Snapshot(run: nat, source: nat, readAt: nat, committedAt: nat)

  /** A table's revision is the number of its snapshots; the last is the current one. */
  datatype State = State(clock: nat, runs: seq<Run>, tables: map<string, seq<Snapshot>>)

  function History(s: State, table: string): seq<Snapshot> {
    if table in s.tables then s.tables[table] else []
  }

  /** The table of the i-th source. */
  function Table(spec: Spec, i: nat): string
    requires i < |spec.sources|
  {
    spec.dataset + "." + spec.sources[i]
  }

  function Fresh(spec: Spec): Run {
    Run(spec, Waiting, Latch(false, false), Queued, [], [], [], None, [], 0, {}, map[], None, false)
  }

  function Initial(specs: seq<Spec>): (s: State)
    ensures |s.runs| == |specs|
  {
    State(0, seq(|specs|, i requires 0 <= i < |specs| => Fresh(specs[i])), map[])
  }

  // ----- actions

  datatype Action =
    | NotQueued
    | Start
    | ReadRevision
    | CheckBoundary(worker: nat)
    | CheckFetch(worker: nat)
    | Work(worker: nat, raised: Option<string>)
    | RequestCancel
    | Decide
    | Compose(raised: Option<string>)
    | Settle
    | Materialize(directory: bool, broken: bool)
    | WriteManifest
    | Stop
    | FinishJob

  predicate Terminal(j: JobStatus) {
    j.JobSucceeded? || j.JobFailed? || j.JobCancelled?
  }

  predicate CancelSeen(r: Run) {
    r.spec.probe && r.latch.requested
  }

  /** `AsyncBuildJobRegistry.request_cancel`. */
  function Cancel(r: Run): Run {
    if !r.spec.probe || Terminal(r.job) then r
    else if r.latch.committed then r
    else r.(latch := Request(r.latch), job := if r.job.Queued? then JobCancelled else Cancelling)
  }

  predicate AllEnded(workers: seq<Worker>) {
    forall i :: 0 <= i < |workers| ==> workers[i].Ended?
  }

  predicate SomeCancelled(workers: seq<Worker>) {
    exists i :: 0 <= i < |workers| && workers[i].Ended? && workers[i].status.Cancelled?
  }

  /** The errors of the failed sources, in order, each under its name. */
  function SourceErrors(sources: seq<string>, workers: seq<Worker>): seq<string>
    requires |sources| == |workers|
  {
    if workers == [] then []
    else
      (if workers[0].Ended? && workers[0].status.Failed? then [sources[0] + ": " + workers[0].error] else [])
      + SourceErrors(sources[1..], workers[1..])
  }

  function CompositionErrors(r: Run): seq<string> {
    if r.spec.composition.Some? && r.composition.Some? && r.composition.value.Some?
    then [r.spec.composition.value + ": " + r.composition.value.value]
    else []
  }

  /** The decision at the final boundary: seen by a worker, or the commit is refused. */
  function DecideRun(r: Run): Run {
    if SomeCancelled(r.workers) then r.(phase := Decided(true))
    else if !r.spec.probe then r.(phase := Decided(false))
    else r.(latch := Commit(r.latch), phase := Decided(r.latch.requested))
  }

  function SettleRun(r: Run): Run
    requires r.phase.Decided? && |r.spec.sources| == |r.workers|
  {
    var errors := SourceErrors(r.spec.sources, r.workers) + CompositionErrors(r);
    if r.phase.cancelled then r.(phase := Settled(Cancelled, errors))
    else if errors != [] then r.(phase := Settled(Failed, errors), terminal := r.terminal + [Failed])
    else r.(phase := Settled(Ok, errors), terminal := r.terminal + [Ok])
  }

  predicate CommitsLeft(r: Run) {
    r.spec.catalog && r.phase.Settled? && r.phase.status.Ok? && r.next < |r.spec.sources|
  }

  function ManifestOf(r: Run): Manifest
    requires r.phase.Settled?
  {
    Manifest(r.phase.status, r.phase.status.Cancelled?, r.phase.errors, r.composition.Some?, r.failures)
  }

  /** The build can end early: it has started, no worker is under way, and its job has not ended. */
  predicate CanStop(r: Run) {
    !r.phase.Waiting? && (r.phase.Working? ==> AllEnded(r.workers)) && !Terminal(r.job)
  }

  /** Whether the build's answer is an error: nothing but an ok build without warehouse failures is
      answered below 400. */
  predicate AnsweredAsFailed(r: Run) {
    r.stopped || r.manifest.None? || !r.manifest.value.status.Ok? || r.manifest.value.failures != map[]
  }

  /** `finish` closes the window for cancelling: the latch decides, then the answer. */
  function Finish(r: Run): Run {
    if r.spec.probe && (r.manifest.Some? || r.stopped) && !Terminal(r.job) then
      r.(latch := r.latch.(committed := true),
         job := if r.latch.requested then JobCancelled else if AnsweredAsFailed(r) then JobFailed else JobSucceeded)
    else r
  }

  /** `mark_failed`: the worker pool does not take the job. */
  function MarkFailed(r: Run): Run {
    if r.spec.probe && r.phase.Waiting? && r.job.Queued? then r.(job := JobFailed) else r
  }

  /** What one action makes of one run; tables are only changed by `Materialize`. A build that was
      stopped does nothing more; its job can still be cancelled and ends. */
  function Act(r: Run, a: Action, s: State): Run {
    match a
    case NotQueued => MarkFailed(r)
    case RequestCancel => Cancel(r)
    case FinishJob => Finish(r)
    case _ => if r.stopped then r else Advance(r, a, s)
  }

  /** What the build itself does. */
  function Advance(r: Run, a: Action, s: State): Run {
    match a
    case Stop => if CanStop(r) then r.(stopped := true) else r
    case Start =>
      if r.phase.Waiting? && !Terminal(r.job) then
        // Without a probe there is no job; the run is simply called.
        r.(phase := Reading, job := if r.spec.probe then Running else r.job)
      else r
    case ReadRevision =>
      if !r.phase.Reading? then r
      else if |r.starts| < |r.spec.sources| then
        r.(starts := r.starts + [|History(s, Table(r.spec, |r.starts|))|], readAt := r.readAt + [s.clock])
      else r.(phase := Working, workers := seq(|r.spec.sources|, _ => AtBoundary(0)))
    case CheckBoundary(i) =>
      if r.phase.Working? && i < |r.workers| && r.workers[i].AtBoundary? then
        r.(workers := r.workers[i := if CancelSeen(r) then Ended(Cancelled, "") else Inside(r.workers[i].stage)])
      else r
    case CheckFetch(i) =>
      if r.phase.Working? && i < |r.workers| && r.workers[i] == Inside(0) && CancelSeen(r) then
        r.(workers := r.workers[i := Ended(Cancelled, "")])
      else r
    case Work(i, raised) =>
      if r.phase.Working? && i < |r.workers| && r.workers[i].Inside? then
        r.(workers := r.workers[i :=
          if raised.Some? then Ended(Failed, raised.value)
          else if r.workers[i].stage < 3 then AtBoundary(r.workers[i].stage + 1)
          else Ended(Ok, "")])
      else r
    case Decide => if r.phase.Working? && AllEnded(r.workers) then DecideRun(r) else r
    case Compose(raised) =>
      if r.phase == Decided(false) && r.spec.composition.Some? && r.composition.None?
      then r.(composition := Some(raised)) else r
    case Settle =>
      if r.phase.Decided? && |r.spec.sources| == |r.workers|
        && (r.phase.cancelled || r.spec.composition.None? || r.composition.Some?)
      then SettleRun(r) else r
    case Materialize(directory, broken) =>
      if !CommitsLeft(r) || |r.starts| != |r.spec.sources| then r
      else
        var source := r.spec.sources[r.next];
        if !directory then r.(next := r.next + 1)
        else if broken then r.(next := r.next + 1, failures := r.failures[source := CommitFailed])
        else if r.starts[r.next] != |History(s, Table(r.spec, r.next))| then
          r.(next := r.next + 1, failures := r.failures[source := Conflict])
        else r.(next := r.next + 1, materialized := r.materialized + {source})
    case WriteManifest =>
      if r.phase.Settled? && r.manifest.None? && !CommitsLeft(r) then
        r.(manifest := Some(ManifestOf(r)))
      else r
    case _ => r
  }

  /** The compare-and-swap: the table is still at the revision read before fetching. */
  predicate Commits(r: Run, a: Action, s: State) {
    && a.Materialize? && a.directory && !a.broken && !r.stopped
    && CommitsLeft(r) && |r.starts| == |r.readAt| == |r.spec.sources|
    && r.starts[r.next] == |History(s, Table(r.spec, r.next))|
  }

  function Do(s: State, id: nat, a: Action): (s': State)
    ensures |s'.runs| == |s.runs|
  {
    if id >= |s.runs| then s.(clock := s.clock + 1)
    else
      var r := s.runs[id];
      State(s.clock + 1, s.runs[id := Act(r, a, s)],
        if !Commits(r, a, s) then s.tables
        else
          var table := Table(r.spec, r.next);
          s.tables[table := History(s, table) + [Snapshot(id, r.next, r.readAt[r.next], s.clock)]])
  }

  type Schedule = seq<(nat, Action)>

  function After(s: State, schedule: Schedule): (s': State)
    ensures |s'.runs| == |s.runs|
  {
    if schedule == [] then s
    else
      var last := schedule[|schedule| - 1];
      Do(After(s, schedule[..|schedule| - 1]), last.0, last.1)
  }

  // ----- what holds of a run in every state

  /** What was decided at the final boundary, once it was. */
  function Decision(r: Run): Option<bool> {
    match r.phase
    case Decided(cancelled) => Some(cancelled)
    case Settled(status, _) => Some(status.Cancelled?)
    case _ => None
  }

  predicate Untouched(r: Run) {
    r.terminal == [] && r.next == 0 && r.materialized == {} && r.failures == map[] && r.manifest == None
  }

  ghost predicate Shape(r: Run) {
    && |r.readAt| == |r.starts| <= |r.spec.sources|
    && (r.phase.Waiting? || r.phase.Reading? ==> r.workers == [])
    && (r.phase.Working? || Decision(r).Some? ==> |r.starts| == |r.workers| == |r.spec.sources|)
    && (Decision(r).Some? ==> AllEnded(r.workers))
  }

  ghost predicate LatchOk(r: Run) {
    && (r.latch.requested ==> r.spec.probe)
    && (SomeCancelled(r.workers) ==> r.latch.requested)
    && (Decision(r) == Some(true) ==> r.latch.requested)
    && (Decision(r) == Some(false) ==> !r.latch.requested && !SomeCancelled(r.workers))
    && (Decision(r) == Some(false) && r.spec.probe ==> r.latch.committed)
    && (r.latch.committed && r.latch.requested ==> Terminal(r.job))
    && (Decision(r) == None ==> !r.latch.committed || (Terminal(r.job) && r.stopped))
  }

  ghost predicate Progress(r: Run) {
    && (!r.phase.Settled? ==> Untouched(r))
    && (Decision(r) != Some(false) ==> r.composition == None)
    && (r.phase.Settled? ==> SettledOk(r))
  }

  ghost predicate SettledOk(r: Run)
    requires r.phase.Settled?
  {
    && |r.spec.sources| == |r.workers|
    && r.phase.errors == SourceErrors(r.spec.sources, r.workers) + CompositionErrors(r)
    && (!r.phase.status.Cancelled? ==> (r.phase.status.Failed? <==> r.phase.errors != []))
    && r.terminal == (if r.phase.status.Cancelled? then [] else [r.phase.status])
    && (!r.phase.status.Ok? ==> r.next == 0 && r.materialized == {} && r.failures == map[])
    && (!r.phase.status.Cancelled? && r.spec.composition.Some? ==> r.composition.Some?)
    && (r.manifest.Some? ==> !CommitsLeft(r) && r.manifest.value == ManifestOf(r))
  }

  ghost predicate JobOk(r: Run) {
    && (!r.spec.probe ==> r.job.Queued?)
    && (r.spec.probe && r.job.Queued? ==> r.phase.Waiting?)
    && (r.phase.Waiting? ==> r.job.Queued? || r.job.JobCancelled? || r.job.JobFailed?)
    && (r.spec.probe ==> (r.latch.requested <==> r.job.Cancelling? || r.job.JobCancelled?))
    && (r.stopped ==> !r.phase.Waiting?)
    && (r.job.JobSucceeded? ==> !AnsweredAsFailed(r))
    && (r.job.JobFailed? ==> AnsweredAsFailed(r))
    && (r.job.Cancelling? ==> !r.latch.committed)
    && (Terminal(r.job) && !r.phase.Waiting? ==> r.manifest.Some? || r.stopped)
  }

  ghost predicate RunInv(r: Run) {
    Shape(r) && LatchOk(r) && Progress(r) && JobOk(r)
  }

  lemma FreshRunInv(spec: Spec)
    ensures RunInv(Fresh(spec))
  {
  }

  lemma WorkerStep(r: Run, a: Action, s: State)
    requires RunInv(r) && (a.CheckBoundary? || a.CheckFetch? || a.Work?)
    ensures RunInv(Act(r, a, s))
  {
    var r' := Act(r, a, s);
    if SomeCancelled(r'.workers) {
      var i :| 0 <= i < |r'.workers| && r'.workers[i].Ended? && r'.workers[i].status.Cancelled?;
      if r.workers[i] == r'.workers[i] {
        assert SomeCancelled(r.workers);
      }
    }
  }

  lemma SettleStep(r: Run, a: Action, s: State)
    requires RunInv(r) && (a.Settle? || a.Compose?)
    ensures RunInv(Act(r, a, s))
  {
  }

  lemma MaterializeStep(r: Run, a: Action, s: State)
    requires RunInv(r) && a.Materialize?
    ensures RunInv(Act(r, a, s))
  {
    var r' := Act(r, a, s);
    if r' != r {
      AttemptChanges(r, a, s);
      AttemptStep(r, r'.failures, r'.materialized);
    }
  }

  lemma AttemptChanges(r: Run, a: Action, s: State)
    requires a.Materialize? && Act(r, a, s) != r
    ensures CommitsLeft(r)
    ensures var r' := Act(r, a, s);
      r' == r.(next := r.next + 1, failures := r'.failures, materialized := r'.materialized)
  {
  }

  /** One attempt to commit a table, whatever it records. */
  lemma AttemptStep(r: Run, failures: map<string, Failure>, materialized: set<string>)
    requires RunInv(r) && CommitsLeft(r)
    ensures RunInv(r.(next := r.next + 1, failures := failures, materialized := materialized))
  {
    assert r.manifest.None?;
  }

  lemma WriteStep(r: Run, a: Action, s: State)
    requires RunInv(r) && a.WriteManifest?
    ensures RunInv(Act(r, a, s))
  {
    if Act(r, a, s) != r {
      ManifestStep(r);
    }
  }

  lemma ManifestStep(r: Run)
    requires RunInv(r) && r.phase.Settled? && r.manifest.None? && !CommitsLeft(r) && !r.stopped
    ensures RunInv(r.(manifest := Some(ManifestOf(r))))
  {
  }

  lemma StopStep(r: Run, a: Action, s: State)
    requires RunInv(r) && a.Stop?
    ensures RunInv(Act(r, a, s))
  {
  }

  lemma FinishStep(r: Run)
    requires RunInv(r)
    ensures RunInv(Finish(r))
  {
  }

  lemma CancelStep(r: Run)
    requires RunInv(r)
    ensures RunInv(Cancel(r)) && RunInv(MarkFailed(r))
  {
  }

  lemma ActKeepsRunInv(r: Run, a: Action, s: State)
    requires RunInv(r)
    ensures RunInv(Act(r, a, s))
  {
    match a
    case CheckBoundary(_) => WorkerStep(r, a, s);
    case CheckFetch(_) => WorkerStep(r, a, s);
    case Work(_, _) => WorkerStep(r, a, s);
    case Compose(_) => SettleStep(r, a, s);
    case Settle => SettleStep(r, a, s);
    case Materialize(_, _) => MaterializeStep(r, a, s);
    case WriteManifest => WriteStep(r, a, s);
    case FinishJob => FinishStep(r);
    case RequestCancel => CancelStep(r);
    case NotQueued => CancelStep(r);
    case Stop => StopStep(r, a, s);
    case _ =>
  }

  // ----- over every schedule

  ghost predicate AllRunsOk(s: State) {
    forall id :: 0 <= id < |s.runs| ==> RunInv(s.runs[id])
  }

  lemma DoKeepsRuns(s: State, id: nat, a: Action)
    requires AllRunsOk(s)
    ensures AllRunsOk(Do(s, id, a))
    ensures forall i :: 0 <= i < |s.runs| ==> Do(s, id, a).runs[i].spec == s.runs[i].spec
  {
    if id < |s.runs| {
      ActKeepsRunInv(s.runs[id], a, s);
      ActKeepsSpec(s.runs[id], a, s);
      OneRunMoves(s, id, a);
    }
  }

  lemma ActKeepsSpec(r: Run, a: Action, s: State)
    ensures Act(r, a, s).spec == r.spec
  {
  }

  lemma OneRunMoves(s: State, id: nat, a: Action)
    requires id < |s.runs|
    ensures Do(s, id, a).runs == s.runs[id := Act(s.runs[id], a, s)]
  {
  }

  lemma {:induction false} EveryRunKeepsItsInvariant(specs: seq<Spec>, schedule: Schedule)
    ensures var s := After(Initial(specs), schedule);
            AllRunsOk(s) && forall id :: 0 <= id < |specs| ==> s.runs[id].spec == specs[id]
  {
    if schedule == [] {
      forall id | 0 <= id < |specs| ensures RunInv(Initial(specs).runs[id]) {
        FreshRunInv(specs[id]);
      }
    } else {
      var (id, a) := schedule[|schedule| - 1];
      EveryRunKeepsItsInvariant(specs, schedule[..|schedule| - 1]);
      DoKeepsRuns(After(Initial(specs), schedule[..|schedule| - 1]), id, a);
    }
  }
}
