/**
 A build that loses its table to another one: it ends ok, its manifest says so, and its job says
 failed. The schedule is spelled out, and followed step by step.
 */
module BuildConflicts {
  import opened Basics
  import opened BuildEnds
  import opened BuildRuns

  /** The actions of one build, one after the other. */
  function Steps(id: nat, actions: seq<Action>): Schedule {
    if actions == [] then [] else [(id, actions[0])] + Steps(id, actions[1..])
  }

  /** `s`, `ticks` later, with one build moved on. */
  function Put(s: State, id: nat, r: Run, ticks: nat): State
    requires id < |s.runs|
  {
    State(s.clock + ticks, s.runs[id := r], s.tables)
  }

  lemma StepFirst(s: State, id: nat, a: Action, rest: seq<Action>)
    ensures After(s, Steps(id, [a] + rest)) == After(Do(s, id, a), Steps(id, rest))
  {
    assert ([a] + rest)[1..] == rest;
    AfterBoth(s, [(id, a)], Steps(id, rest));
    assert [(id, a)][..0] == [];
  }

  /** One step that commits nothing. */
  lemma Moved(s: State, id: nat, r: Run, ticks: nat, a: Action, rest: seq<Action>, r': Run)
    requires id < |s.runs| && !Commits(r, a, Put(s, id, r, ticks))
    requires Act(r, a, Put(s, id, r, ticks)) == r'
    ensures After(Put(s, id, r, ticks), Steps(id, [a] + rest)) == After(Put(s, id, r', ticks + 1), Steps(id, rest))
  {
    var now := Put(s, id, r, ticks);
    StepFirst(now, id, a, rest);
    assert now.runs[id := r'] == s.runs[id := r'];
  }

  /** A build of one source that can be cancelled and commits its table. */
  const REFRESH: Spec := Spec("d", ["s"], None, true, true)

  lemma OneTable()
    ensures Table(REFRESH, 0) == "d.s"
  {
  }

  // ----- up to the first read of a revision

  const OPENING: seq<Action> := [Start] + ([ReadRevision] + ([ReadRevision] + []))

  /** The build once it has read its table's revision. */
  function Opened(revision: nat, at: nat): Run {
    Fresh(REFRESH).(phase := Working, job := Running, starts := [revision], readAt := [at], workers := [AtBoundary(0)])
  }

  function Reading(): Run {
    Fresh(REFRESH).(phase := Phase.Reading, job := Running)
  }

  function HasRead(revision: nat, at: nat): Run {
    Reading().(starts := [revision], readAt := [at])
  }

  lemma StartActs(s: State)
    ensures Act(Fresh(REFRESH), Start, s) == Reading()
  {
  }

  lemma ReadActs(s: State)
    ensures Act(Reading(), ReadRevision, s) == HasRead(|History(s, "d.s")|, s.clock)
  {
    OneTable();
  }

  lemma BeginActs(revision: nat, at: nat, s: State)
    ensures Act(HasRead(revision, at), ReadRevision, s) == Opened(revision, at)
  {
    assert seq(1, _ => AtBoundary(0)) == [AtBoundary(0)];
  }

  lemma Reads(s: State, id: nat, revision: nat, at: nat)
    requires id < |s.runs| && revision == |History(s, "d.s")| && at == s.clock + 1
    ensures After(Put(s, id, Reading(), 1), Steps(id, [ReadRevision] + ([ReadRevision] + [])))
         == Put(s, id, Opened(revision, at), 3)
  {
    ReadActs(Put(s, id, Reading(), 1));
    Moved(s, id, Reading(), 1, ReadRevision, [ReadRevision] + [], HasRead(revision, at));
    BeginActs(revision, at, Put(s, id, HasRead(revision, at), 2));
    Moved(s, id, HasRead(revision, at), 2, ReadRevision, [], Opened(revision, at));
  }

  lemma Opens(s: State, id: nat)
    requires id < |s.runs| && s.runs[id] == Fresh(REFRESH)
    ensures After(s, Steps(id, OPENING)) == Put(s, id, Opened(|History(s, "d.s")|, s.clock + 1), 3)
  {
    assert Put(s, id, Fresh(REFRESH), 0) == s;
    StartActs(s);
    Moved(s, id, Fresh(REFRESH), 0, Start, [ReadRevision] + ([ReadRevision] + []), Reading());
    Reads(s, id, |History(s, "d.s")|, s.clock + 1);
  }

  // ----- the worker

  /** The worker's stages from one on. */
  function Stages(from: nat): seq<Action>
    decreases 4 - from
  {
    if from >= 4 then [] else [CheckBoundary(0)] + ([Work(0, None)] + Stages(from + 1))
  }

  lemma StageActs(r: Run, stage: nat, s: State)
    requires r.phase.Working? && !r.stopped && !r.latch.requested && r.workers == [AtBoundary(stage)]
    ensures Act(r, CheckBoundary(0), s) == r.(workers := [Inside(stage)])
    ensures Act(r.(workers := [Inside(stage)]), Work(0, None), s)
         == r.(workers := [if stage < 3 then AtBoundary(stage + 1) else Ended(Ok, "")])
  {
  }

  lemma {:induction false} Works(s: State, id: nat, r: Run, ticks: nat, stage: nat)
    requires id < |s.runs| && r.phase.Working? && !r.stopped && !r.latch.requested
    requires stage < 4 && r.workers == [AtBoundary(stage)]
    ensures After(Put(s, id, r, ticks), Steps(id, Stages(stage)))
         == Put(s, id, r.(workers := [Ended(Ok, "")]), ticks + 2 * (4 - stage))
    decreases 4 - stage
  {
    var inside := r.(workers := [Inside(stage)]);
    var done := r.(workers := [if stage < 3 then AtBoundary(stage + 1) else Ended(Ok, "")]);
    StageActs(r, stage, Put(s, id, r, ticks));
    Moved(s, id, r, ticks, CheckBoundary(0), [Work(0, None)] + Stages(stage + 1), inside);
    StageActs(r, stage, Put(s, id, inside, ticks + 1));
    Moved(s, id, inside, ticks + 1, Work(0, None), Stages(stage + 1), done);
    if stage < 3 {
      Works(s, id, done, ticks + 2, stage + 1);
    }
  }

  // ----- the decision

  /** The build once it is settled, all its work being done. */
  function SettledRun(revision: nat, at: nat): Run {
    Opened(revision, at).(
      phase := Settled(Ok, []), latch := Latch(false, true), workers := [Ended(Ok, "")], terminal := [Ok])
  }

  lemma DecideActs(r: Run, s: State)
    requires r.phase.Working? && !r.stopped && r.latch == Latch(false, false) && r.spec == REFRESH
    requires r.workers == [Ended(Ok, "")]
    ensures Act(r, Decide, s) == r.(latch := Latch(false, true), phase := Decided(false))
  {
    assert !SomeCancelled(r.workers) && AllEnded(r.workers);
  }

  lemma SettleActs(r: Run, s: State)
    requires r.phase == Decided(false) && !r.stopped && r.spec == REFRESH && r.composition == None && r.terminal == []
    requires r.workers == [Ended(Ok, "")]
    ensures Act(r, Settle, s) == r.(phase := Settled(Ok, []), terminal := [Ok])
  {
    assert r.workers[1..] == [] && REFRESH.sources[1..] == [];
    assert SourceErrors(REFRESH.sources, r.workers) == [];
  }

  const SETTLING: seq<Action> := [Decide] + ([Settle] + [])

  function Labour(id: nat): Schedule {
    Steps(id, Stages(0)) + Steps(id, SETTLING)
  }

  lemma Labours(s: State, id: nat, revision: nat, at: nat, ticks: nat)
    requires id < |s.runs|
    ensures After(Put(s, id, Opened(revision, at), ticks), Labour(id))
         == Put(s, id, SettledRun(revision, at), ticks + 10)
  {
    var before, worked := Opened(revision, at), Worked(revision, at);
    Works(s, id, before, ticks, 0);
    Then(Put(s, id, before, ticks), Steps(id, Stages(0)), Put(s, id, worked, ticks + 8), Steps(id, SETTLING));
    Settles(s, id, revision, at, ticks + 8);
  }

  function Worked(revision: nat, at: nat): Run {
    Opened(revision, at).(workers := [Ended(Ok, "")])
  }

  lemma Settles(s: State, id: nat, revision: nat, at: nat, ticks: nat)
    requires id < |s.runs|
    ensures After(Put(s, id, Worked(revision, at), ticks), Steps(id, SETTLING))
         == Put(s, id, SettledRun(revision, at), ticks + 2)
  {
    var r := Worked(revision, at);
    var decided := r.(latch := Latch(false, true), phase := Decided(false));
    DecideActs(r, Put(s, id, r, ticks));
    Moved(s, id, r, ticks, Decide, [Settle] + [], decided);
    SettleActs(decided, Put(s, id, decided, ticks + 1));
    Moved(s, id, decided, ticks + 1, Settle, [], SettledRun(revision, at));
  }

  // ----- the conflict

  const CLOSING: seq<Action> := [Materialize(true, false)] + ([WriteManifest] + ([FinishJob] + []))

  function Overtaken(revision: nat, at: nat): Run {
    SettledRun(revision, at).(next := 1, failures := map["s" := Conflict])
  }

  function Written(revision: nat, at: nat): Run {
    Overtaken(revision, at).(manifest := Some(Manifest(Ok, false, [], false, map["s" := Conflict])))
  }

  /** An ok build, and its job failed. */
  function LostRun(revision: nat, at: nat): Run {
    Written(revision, at).(job := JobFailed)
  }

  lemma ConflictActs(revision: nat, at: nat, s: State)
    requires |History(s, "d.s")| != revision
    ensures !Commits(SettledRun(revision, at), Materialize(true, false), s)
    ensures Act(SettledRun(revision, at), Materialize(true, false), s) == Overtaken(revision, at)
  {
    OneTable();
  }

  lemma ClosingActs(revision: nat, at: nat, s: State)
    ensures Act(Overtaken(revision, at), WriteManifest, s) == Written(revision, at)
    ensures Act(Written(revision, at), FinishJob, s) == LostRun(revision, at)
  {
    assert map["s" := Conflict]["s"] == Conflict;
  }

  lemma Loses(s: State, id: nat, revision: nat, at: nat, ticks: nat)
    requires id < |s.runs| && |History(s, "d.s")| != revision
    ensures After(Put(s, id, SettledRun(revision, at), ticks), Steps(id, CLOSING))
         == Put(s, id, LostRun(revision, at), ticks + 3)
  {
    var settled, overtaken, written := SettledRun(revision, at), Overtaken(revision, at), Written(revision, at);
    ConflictActs(revision, at, Put(s, id, settled, ticks));
    Moved(s, id, settled, ticks, Materialize(true, false), [WriteManifest] + ([FinishJob] + []), overtaken);
    ClosingActs(revision, at, Put(s, id, overtaken, ticks + 1));
    Moved(s, id, overtaken, ticks + 1, WriteManifest, [FinishJob] + [], written);
    ClosingActs(revision, at, Put(s, id, written, ticks + 2));
    Moved(s, id, written, ticks + 2, FinishJob, [], LostRun(revision, at));
  }

  lemma Committed(s: State)
    requires |s.runs| == 2 && s.runs[1] == SettledRun(0, 4) && s.tables == map[]
    ensures var s' := After(s, [(1, Materialize(true, false))]);
      |s'.runs| == 2 && |History(s', "d.s")| == 1 && s'.runs[0] == s.runs[0]
  {
    OneTable();
    assert [(1, Materialize(true, false))][..0] == [];
  }

  // ----- the schedule

  function Late(): Schedule {
    Labour(0) + Steps(0, CLOSING)
  }

  function Commit(): Schedule {
    [(1, Materialize(true, false))] + Late()
  }

  /** Two builds read the revision of the same table; the second works and commits; then the first goes
      on. */
  function ConflictSchedule(): Schedule {
    Steps(0, OPENING) + Rest()
  }

  function Rest(): Schedule {
    Steps(1, OPENING) + (Labour(1) + Commit())
  }

  lemma Then(s: State, first: Schedule, mid: State, second: Schedule)
    requires After(s, first) == mid
    ensures After(s, first + second) == After(mid, second)
  {
    AfterBoth(s, first, second);
  }

  lemma Same(s: State, id: nat)
    requires id < |s.runs|
    ensures Put(s, id, s.runs[id], 0) == s
  {
  }

  lemma LatePart(s: State)
    requires |s.runs| == 2 && s.runs[0] == Opened(0, 1) && |History(s, "d.s")| == 1
    ensures After(s, Late()).runs[0] == LostRun(0, 1)
  {
    Same(s, 0);
    Labours(s, 0, 0, 1, 0);
    Then(s, Labour(0), Put(s, 0, SettledRun(0, 1), 10), Steps(0, CLOSING));
    Loses(s, 0, 0, 1, 10);
  }

  lemma CommitPart(s: State)
    requires |s.runs| == 2 && s.runs[0] == Opened(0, 1) && s.runs[1] == SettledRun(0, 4) && s.tables == map[]
    ensures After(s, Commit()).runs[0] == LostRun(0, 1)
  {
    AfterBoth(s, [(1, Materialize(true, false))], Late());
    Committed(s);
    LatePart(After(s, [(1, Materialize(true, false))]));
  }

  lemma WorkPart(s: State)
    requires |s.runs| == 2 && s.runs[0] == Opened(0, 1) && s.runs[1] == Opened(0, 4) && s.tables == map[]
    ensures After(s, Labour(1) + Commit()).runs[0] == LostRun(0, 1)
  {
    var mid := Put(s, 1, SettledRun(0, 4), 10);
    Same(s, 1);
    Labours(s, 1, 0, 4, 0);
    Then(s, Labour(1), mid, Commit());
    CommitPart(mid);
  }

  lemma BothPart(s: State)
    requires |s.runs| == 2 && s.runs[0] == Opened(0, 1) && s.runs[1] == Fresh(REFRESH)
    requires s.tables == map[] && s.clock == 3
    ensures After(s, Rest()).runs[0] == LostRun(0, 1)
  {
    var mid := Put(s, 1, Opened(0, 4), 3);
    Opens(s, 1);
    Then(s, Steps(1, OPENING), mid, Labour(1) + Commit());
    WorkPart(mid);
  }

  lemma FirstBuildOpens(s: State)
    requires |s.runs| == 2 && s.runs[0] == s.runs[1] == Fresh(REFRESH) && s.tables == map[] && s.clock == 0
    ensures var mid := After(s, Steps(0, OPENING));
      && |mid.runs| == 2 && mid.runs[0] == Opened(0, 1) && mid.runs[1] == Fresh(REFRESH)
      && mid.tables == map[] && mid.clock == 3
  {
    Opens(s, 0);
  }

  lemma GoesOn(s: State, mid: State)
    requires mid == After(s, Steps(0, OPENING))
    requires |mid.runs| == 2 && mid.runs[0] == Opened(0, 1) && mid.runs[1] == Fresh(REFRESH)
    requires mid.tables == map[] && mid.clock == 3
    ensures |After(s, ConflictSchedule()).runs| == 2 && After(s, ConflictSchedule()).runs[0] == LostRun(0, 1)
  {
    Then(s, Steps(0, OPENING), mid, Rest());
    BothPart(mid);
  }

  lemma FirstBuildLoses(s: State)
    requires |s.runs| == 2 && s.runs[0] == s.runs[1] == Fresh(REFRESH) && s.tables == map[] && s.clock == 0
    ensures After(s, ConflictSchedule()).runs[0] == LostRun(0, 1)
  {
    FirstBuildOpens(s);
    GoesOn(s, After(s, Steps(0, OPENING)));
  }

  lemma WhatIsLost()
    ensures var r := LostRun(0, 1);
      && r.manifest.Some? && r.manifest.value.status.Ok? && r.manifest.value.failures == map["s" := Conflict]
      && r.job.JobFailed? && !SayTheSame(r.job, r.manifest.value.status)
  {
  }

  /** A job and the manifest of its build can disagree: the first build is ok and says so, and its job
      ends failed. */
  lemma AConflictFailsTheJobOfAnOkBuild()
    ensures var r := After(Initial([REFRESH, REFRESH]), ConflictSchedule()).runs[0];
      && r.manifest.Some? && r.manifest.value.status.Ok? && r.manifest.value.failures == map["s" := Conflict]
      && r.job.JobFailed? && !SayTheSame(r.job, r.manifest.value.status)
  {
    FirstBuildLoses(Initial([REFRESH, REFRESH]));
    WhatIsLost();
  }
}
