/**
 No build is ever stuck: from every state it can go on to its manifest and the end of its job, whatever
 the other builds do or do not do. And a request to cancel that comes in time takes effect.
 */
module BuildProgress {
  import opened Basics
  import opened BuildRuns
  import opened BuildEnds

  // ----- how much is left of a build

  function StagesLeft(stage: nat): nat {
    if stage < 4 then 4 - stage else 1
  }

  function WorkerRest(w: Worker): nat {
    match w
    case AtBoundary(stage) => 2 * StagesLeft(stage)
    case Inside(stage) => 2 * StagesLeft(stage) - 1
    case Ended(_, _) => 0
  }

  function WorkersRest(workers: seq<Worker>): nat {
    if workers == [] then 0 else WorkerRest(workers[0]) + WorkersRest(workers[1..])
  }

  /** The steps a build still needs; none once its manifest is written and its job has ended. */
  function Rest(r: Run): int {
    var sources := |r.spec.sources|;
    match r.phase
    case Waiting => 10 * sources + 7
    case Reading => 10 * sources + 6 - |r.starts|
    case Working => sources + 5 + WorkersRest(r.workers)
    case Decided(_) => sources + 3 + (if r.composition.None? then 1 else 0)
    case Settled(_, _) =>
      (if CommitsLeft(r) then sources - r.next else 0) + (if r.manifest.None? then 1 else 0)
      + (if r.spec.probe && !Terminal(r.job) then 1 else 0)
  }

  predicate Over(r: Run) {
    r.manifest.Some? && (r.spec.probe ==> Terminal(r.job))
  }

  /** The build was not cancelled in the queue, given up there, or stopped. */
  predicate Alive(r: Run) {
    !r.stopped && (r.phase.Waiting? ==> !Terminal(r.job))
  }

  lemma {:induction false} OneWorkerOn(workers: seq<Worker>, i: nat, w: Worker)
    requires i < |workers|
    ensures WorkersRest(workers[i := w]) == WorkersRest(workers) - WorkerRest(workers[i]) + WorkerRest(w)
  {
    if i == 0 {
      assert workers[0 := w][1..] == workers[1..];
    } else {
      assert workers[i := w][1..] == workers[1..][i - 1 := w];
      OneWorkerOn(workers[1..], i - 1, w);
    }
  }

  lemma {:induction false} AllAtTheStart(workers: seq<Worker>)
    requires forall i :: 0 <= i < |workers| ==> workers[i] == AtBoundary(0)
    ensures WorkersRest(workers) == 8 * |workers|
  {
    if workers != [] {
      AllAtTheStart(workers[1..]);
    }
  }

  // ----- the next step

  /** A step the build can take itself, with nothing raised, that leaves less to do. */
  ghost predicate LeadsOn(r: Run, a: Action, s: State) {
    !a.Stop? && !a.RequestCancel? && !a.NotQueued? && Rest(Act(r, a, s)) < Rest(r) && Alive(Act(r, a, s))
  }

  lemma BeginsOn(r: Run, s: State) returns (a: Action)
    requires RunInv(r) && Alive(r) && (r.phase.Waiting? || r.phase.Reading?)
    ensures LeadsOn(r, a, s)
  {
    a := if r.phase.Waiting? then Start else ReadRevision;
    if r.phase.Reading? && |r.starts| == |r.spec.sources| {
      AllAtTheStart(Act(r, a, s).workers);
    }
  }

  lemma WorksOn(r: Run, i: nat, s: State) returns (a: Action)
    requires RunInv(r) && Alive(r) && r.phase.Working? && i < |r.workers| && !r.workers[i].Ended?
    ensures LeadsOn(r, a, s)
  {
    a := if r.workers[i].AtBoundary? then CheckBoundary(i) else Work(i, None);
    OneWorkerOn(r.workers, i, Act(r, a, s).workers[i]);
    assert Act(r, a, s).workers == r.workers[i := Act(r, a, s).workers[i]];
  }

  lemma EndsOn(r: Run, s: State) returns (a: Action)
    requires RunInv(r) && Alive(r) && !r.phase.Waiting? && !r.phase.Reading? && !Over(r)
    requires r.phase.Working? ==> AllEnded(r.workers)
    ensures LeadsOn(r, a, s)
  {
    match r.phase
    case Working => a := Decide;
    case Decided(cancelled) =>
      a := if !cancelled && r.spec.composition.Some? && r.composition.None? then Compose(None) else Settle;
    case Settled(_, _) => a := ClosesOn(r, s);
  }

  lemma ClosesOn(r: Run, s: State) returns (a: Action)
    requires RunInv(r) && Alive(r) && r.phase.Settled? && !Over(r)
    ensures LeadsOn(r, a, s)
  {
    a := if CommitsLeft(r) then Materialize(false, false) else if r.manifest.None? then WriteManifest else FinishJob;
  }

  lemma GoesOn(r: Run, s: State) returns (a: Action)
    requires RunInv(r) && Alive(r) && !Over(r)
    ensures LeadsOn(r, a, s)
  {
    if r.phase.Waiting? || r.phase.Reading? {
      a := BeginsOn(r, s);
    } else if r.phase.Working? && !AllEnded(r.workers) {
      var i :| 0 <= i < |r.workers| && !r.workers[i].Ended?;
      a := WorksOn(r, i, s);
    } else {
      a := EndsOn(r, s);
    }
  }

  // ----- to the end

  /** All are steps of the one build, and none stops it, cancels it or gives it up. */
  predicate OwnSteps(schedule: Schedule, id: nat) {
    forall k :: 0 <= k < |schedule| ==>
      schedule[k].0 == id && !schedule[k].1.Stop? && !schedule[k].1.RequestCancel? && !schedule[k].1.NotQueued?
  }

  lemma {:induction false} CanEnd(s: State, id: nat) returns (more: Schedule)
    requires AllRunsOk(s) && id < |s.runs| && Alive(s.runs[id])
    ensures OwnSteps(more, id) && Over(After(s, more).runs[id])
    decreases Rest(s.runs[id])
  {
    more := [];
    if !Over(s.runs[id]) {
      var a := GoesOn(s.runs[id], s);
      DoKeepsRuns(s, id, a);
      RestIsNatural(s.runs[id]);
      var later := CanEnd(Do(s, id, a), id);
      AfterBoth(s, [(id, a)], later);
      assert [(id, a)][..0] == [];
      more := [(id, a)] + later;
    }
  }

  lemma RestIsNatural(r: Run)
    requires RunInv(r)
    ensures Rest(r) >= 0
  {
  }

  /** In every interleaving, a build that was not cancelled or given up in the queue, nor stopped, can still
      write its manifest and end its job by steps of its own. */
  lemma NoBuildIsStuck(specs: seq<Spec>, schedule: Schedule, id: nat)
    requires id < |specs| && Alive(After(Initial(specs), schedule).runs[id])
    ensures exists more :: OwnSteps(more, id) && Over(After(Initial(specs), schedule + more).runs[id])
  {
    EveryRunKeepsItsInvariant(specs, schedule);
    var s := After(Initial(specs), schedule);
    var more := CanEnd(s, id);
    AfterBoth(Initial(specs), schedule, more);
  }

  /** The job of a build that was stopped can end at once, and so can that of a build with a manifest. */
  lemma JobCanEnd(specs: seq<Spec>, schedule: Schedule, id: nat)
    requires id < |specs| && specs[id].probe
    ensures var r := After(Initial(specs), schedule).runs[id];
      r.stopped || r.manifest.Some? ==> Terminal(After(Initial(specs), schedule + [(id, FinishJob)]).runs[id].job)
  {
    EveryRunKeepsItsInvariant(specs, schedule);
    OneStep(specs, schedule, id, FinishJob);
    FinishEnds(After(Initial(specs), schedule).runs[id]);
  }

  lemma OneStep(specs: seq<Spec>, schedule: Schedule, id: nat, a: Action)
    requires id < |specs|
    ensures var s := After(Initial(specs), schedule);
      After(Initial(specs), schedule + [(id, a)]).runs[id] == Act(s.runs[id], a, s)
  {
    var more := schedule + [(id, a)];
    assert more[..|more| - 1] == schedule;
  }

  lemma FinishEnds(r: Run)
    ensures r.spec.probe && (r.stopped || r.manifest.Some?) ==> Terminal(Finish(r).job)
  {
  }

  // ----- cancelling in time

  /** A request that comes while the job has not ended and before the build has committed to a normal end
      makes every later manifest say cancelled, and any other request changes nothing. */
  lemma RequestInTimeCancels(specs: seq<Spec>, first: Schedule, second: Schedule, id: nat)
    requires id < |specs| && specs[id].probe
    ensures var now := After(Initial(specs), first).runs[id];
      var next := After(Initial(specs), first + [(id, RequestCancel)]).runs[id];
      var later := After(Initial(specs), first + [(id, RequestCancel)] + second).runs[id];
      if Terminal(now.job) || now.latch.committed then next == now
      else later.manifest.Some? ==> later.manifest.value.status.Cancelled?
  {
    EveryRunKeepsItsInvariant(specs, first);
    OneStep(specs, first, id, RequestCancel);
    PointOfNoReturn(specs, first + [(id, RequestCancel)], second, id);
  }
}
