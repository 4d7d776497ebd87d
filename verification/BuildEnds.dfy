/**
 How builds and their jobs end, over every schedule: what the manifest says, what the job says, and what
 no later action can change.
 */
module BuildEnds {
  import opened Basics
  import opened BuildRuns

  /** A cancelled build composed nothing, committed nothing, recorded no terminal event and says it is
      partial; any other one was not cancelled at all. Either way the manifest has the errors of all
      failed sources. */
  ghost predicate IsTrueOf(m: Manifest, r: Run) {
    && |r.workers| == |r.spec.sources| && AllEnded(r.workers) && SourceErrors(r.spec.sources, r.workers) <= m.errors
    && (m.status.Cancelled? <==> r.latch.requested)
    && (m.status.Cancelled? <==> m.partial)
    && (SomeCancelled(r.workers) ==> m.status.Cancelled?)
    && (m.status.Cancelled? ==> !m.composed && r.materialized == {} && m.failures == map[] && r.terminal == [])
    && (!m.status.Cancelled? ==> r.terminal == [m.status])
    && (m.status.Failed? ==> m.errors != [] && r.materialized == {})
    && (m.status.Ok? ==> m.errors == [] && forall i :: 0 <= i < |r.workers| ==> r.workers[i].status.Ok?)
  }

  /** In every interleaving a manifest that was written is true of its build. */
  lemma ManifestTellsTheTruth(specs: seq<Spec>, schedule: Schedule, id: nat)
    requires id < |specs|
    ensures var r := After(Initial(specs), schedule).runs[id];
            r.spec == specs[id] && (r.manifest.Some? ==> IsTrueOf(r.manifest.value, r))
  {
    EveryRunKeepsItsInvariant(specs, schedule);
    var r := After(Initial(specs), schedule).runs[id];
    if r.manifest.Some? && r.phase.status.Ok? {
      NoErrorsNoFailures(r.spec.sources, r.workers);
    }
  }

  lemma {:induction false} NoErrorsNoFailures(sources: seq<string>, workers: seq<Worker>)
    requires |sources| == |workers|
    ensures SourceErrors(sources, workers) == [] && AllEnded(workers) && !SomeCancelled(workers) ==>
              forall i :: 0 <= i < |workers| ==> workers[i].status.Ok?
  {
    if workers != [] && SourceErrors(sources, workers) == [] && AllEnded(workers) && !SomeCancelled(workers) {
      assert workers[0].Ended?;
      assert forall i :: 0 <= i < |workers[1..]| ==> workers[1..][i] == workers[i + 1];
      NoErrorsNoFailures(sources[1..], workers[1..]);
    }
  }

  /** A failed source's error is in the list, under its name. */
  lemma {:induction false} FailedSourceIsListed(sources: seq<string>, workers: seq<Worker>, i: nat)
    requires |sources| == |workers| && i < |workers|
    requires workers[i].Ended? && workers[i].status.Failed?
    ensures sources[i] + ": " + workers[i].error in SourceErrors(sources, workers)
  {
    if i > 0 {
      FailedSourceIsListed(sources[1..], workers[1..], i - 1);
    }
  }

  /** What a job that ended says, against what the manifest says. */
  predicate SayTheSame(job: JobStatus, status: Status) {
    match status
    case Ok => job.JobSucceeded?
    case Failed => job.JobFailed?
    case Cancelled => job.JobCancelled?
  }

  /** When a job has ended and its build wrote a manifest, the two disagree exactly when the manifest
      says ok and tables were not committed, or the build was stopped after writing it; then the job
      says failed. */
  lemma JobDisagreesExactlyWhen(specs: seq<Spec>, schedule: Schedule, id: nat)
    requires id < |specs|
    ensures var r := After(Initial(specs), schedule).runs[id];
            Terminal(r.job) && r.manifest.Some? ==> DisagreesExactlyWhen(r.job, r.manifest.value, r.stopped)
  {
    EveryRunKeepsItsInvariant(specs, schedule);
  }

  predicate DisagreesExactlyWhen(job: JobStatus, m: Manifest, stopped: bool) {
    && (!SayTheSame(job, m.status) <==> m.status.Ok? && (m.failures != map[] || stopped))
    && (!SayTheSame(job, m.status) ==> job.JobFailed?)
  }

  /** A job that ended without a manifest was cancelled before its build started, or was never taken by
      the worker pool, or its build was stopped. It says cancelled if that was requested, and failed
      otherwise. A cancelling job has a request that no commit overtook. */
  lemma JobWithoutManifest(specs: seq<Spec>, schedule: Schedule, id: nat)
    requires id < |specs|
    ensures var r := After(Initial(specs), schedule).runs[id];
            && (Terminal(r.job) && r.manifest.None? ==> r.job == if r.latch.requested then JobCancelled else JobFailed)
            && (Terminal(r.job) && r.manifest.None? ==> r.phase.Waiting? != r.stopped)
            && (r.job.Cancelling? ==> r.latch.requested && !r.latch.committed)
  {
    EveryRunKeepsItsInvariant(specs, schedule);
  }

  // ----- the decision is final

  lemma DecisionStays(s: State, id: nat, other: nat, a: Action)
    requires id < |s.runs| && Decision(s.runs[id]).Some?
    ensures Decision(Do(s, other, a).runs[id]) == Decision(s.runs[id])
  {
  }

  lemma {:induction false} DecisionIsFinal(s: State, schedule: Schedule, id: nat)
    requires id < |s.runs| && Decision(s.runs[id]).Some?
    ensures Decision(After(s, schedule).runs[id]) == Decision(s.runs[id])
  {
    if schedule != [] {
      DecisionIsFinal(s, schedule[..|schedule| - 1], id);
      var (other, a) := schedule[|schedule| - 1];
      DecisionStays(After(s, schedule[..|schedule| - 1]), id, other, a);
    }
  }

  lemma {:induction false} AfterBoth(s: State, first: Schedule, second: Schedule)
    ensures After(s, first + second) == After(After(s, first), second)
  {
    if second == [] {
      assert first + second == first;
    } else {
      assert (first + second)[..|first + second| - 1] == first + second[..|second| - 1];
      AfterBoth(s, first, second[..|second| - 1]);
    }
  }

  /** The point of no return: once `commit()` has succeeded, the build ends ok or failed whatever
      is requested afterwards; once it has been refused, or a worker has seen the request, the build
      ends cancelled. */
  lemma PointOfNoReturn(specs: seq<Spec>, first: Schedule, second: Schedule, id: nat)
    requires id < |specs| && specs[id].probe
    ensures var now, later := After(Initial(specs), first).runs[id], After(Initial(specs), first + second).runs[id];
            && (now.latch.committed && now.manifest.None? && later.manifest.Some? ==>
                  !later.manifest.value.status.Cancelled?)
            && (now.latch.requested && later.manifest.Some? ==> later.manifest.value.status.Cancelled?)
            && (now.latch.committed && !now.latch.requested ==> !later.job.JobCancelled?)
  {
    EveryRunKeepsItsInvariant(specs, first);
    EveryRunKeepsItsInvariant(specs, first + second);
    AfterBoth(Initial(specs), first, second);
    var now := After(Initial(specs), first);
    if now.runs[id].latch.requested {
      RequestIsKept(now, second, id);
    } else if now.runs[id].latch.committed {
      CommitIsKept(now, second, id);
    }
  }

  /** After a commit, and without a request, the build is not decided as cancelled. */
  lemma CommitIsKept(s: State, schedule: Schedule, id: nat)
    requires id < |s.runs| && s.runs[id].latch == Latch(false, true)
    requires RunInv(s.runs[id]) && RunInv(After(s, schedule).runs[id])
    ensures var later := After(s, schedule).runs[id];
      && (later.manifest.Some? ==> !later.manifest.value.status.Cancelled?) && !later.job.JobCancelled?
  {
    CommitStays(s, schedule, id);
  }

  /** After a request the build ends cancelled, if it comes to a manifest. */
  lemma RequestIsKept(s: State, schedule: Schedule, id: nat)
    requires id < |s.runs| && s.runs[id].latch.requested
    requires RunInv(s.runs[id]) && RunInv(After(s, schedule).runs[id])
    ensures var later := After(s, schedule).runs[id];
      && (later.manifest.Some? ==> later.manifest.value.status.Cancelled?)
      && (s.runs[id].latch.committed && s.runs[id].manifest.None? ==> later.manifest.None?)
  {
    RequestStays(s, schedule, id);
    if s.runs[id].latch.committed && s.runs[id].manifest.None? {
      StoppedStays(s, schedule, id);
    }
  }

  /** A build that was stopped never writes a manifest. */
  lemma {:induction false} StoppedStays(s: State, schedule: Schedule, id: nat)
    requires id < |s.runs| && s.runs[id].stopped && s.runs[id].manifest.None?
    ensures After(s, schedule).runs[id].stopped && After(s, schedule).runs[id].manifest.None?
  {
    if schedule != [] {
      StoppedStays(s, schedule[..|schedule| - 1], id);
    }
  }

  /** After a commit no request is accepted. */
  lemma {:induction false} CommitStays(s: State, schedule: Schedule, id: nat)
    requires id < |s.runs| && s.runs[id].latch == Latch(false, true)
    ensures After(s, schedule).runs[id].latch == Latch(false, true)
  {
    if schedule != [] {
      CommitStays(s, schedule[..|schedule| - 1], id);
    }
  }

  lemma {:induction false} RequestStays(s: State, schedule: Schedule, id: nat)
    requires id < |s.runs| && s.runs[id].latch.requested
    ensures After(s, schedule).runs[id].latch.requested
  {
    if schedule != [] {
      RequestStays(s, schedule[..|schedule| - 1], id);
    }
  }
}
