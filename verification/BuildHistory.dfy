/**
 What a manifest says, against what the build's workers met. A history is read from the schedule: which
 actions came while the build was at work, and whether cancellation could be seen then. It refers neither
 to the workers' states nor to the step that changes them.
 */
module BuildHistory {
  import opened Basics
  import opened BuildRuns
  import opened BuildEnds
  import opened Sorting

  /** A worker crosses a boundary or turns back at it, leaves a fetch, or does a stage's work or fails in it. */
  datatype Happening = Crossed | TurnedBack | LeftFetch | Did | Raised(error: string)

  /** So many stages, entered and done. */
  function Clean(stages: nat): seq<Happening> {
    if stages == 0 then [] else Clean(stages - 1) + [Crossed, Did]
  }

  ghost predicate BeforeStage(met: seq<Happening>, stage: int) {
    0 <= stage < 4 && met == Clean(stage)
  }

  ghost predicate InStage(met: seq<Happening>, stage: int) {
    0 <= stage < 4 && met == Clean(stage) + [Crossed]
  }

  predicate AtWork(r: Run, i: nat) {
    r.phase.Working? && !r.stopped && i < |r.spec.sources|
  }

  /** What an action lets worker `i` meet, after what it met before. */
  ghost function Meets(r: Run, i: nat, met: seq<Happening>, a: Action): seq<Happening> {
    if !AtWork(r, i) then []
    else if a == CheckBoundary(i) && (exists stage :: BeforeStage(met, stage)) then
      [if CancelSeen(r) then TurnedBack else Crossed]
    else if a == CheckFetch(i) && InStage(met, 0) && CancelSeen(r) then [LeftFetch]
    else if a.Work? && a.worker == i && (exists stage :: InStage(met, stage)) then
      [if a.raised.Some? then Raised(a.raised.value) else Did]
    else []
  }

  /** What worker `i` of the build met. */
  ghost function Met(specs: seq<Spec>, schedule: Schedule, id: nat, i: nat): seq<Happening>
    requires id < |specs|
  {
    if schedule == [] then []
    else
      var before := schedule[..|schedule| - 1];
      var (other, a) := schedule[|schedule| - 1];
      var met := Met(specs, before, id, i);
      if other != id then met else met + Meets(After(Initial(specs), before).runs[id], i, met, a)
  }

  // ----- workers and histories

  ghost predicate FailedAfter(met: seq<Happening>, error: string, stage: int) {
    0 <= stage < 4 && met == Clean(stage) + [Crossed, Raised(error)]
  }

  ghost predicate TurnedBackAfter(met: seq<Happening>, stage: int) {
    0 <= stage < 4 && met == Clean(stage) + [TurnedBack]
  }

  ghost predicate Fits(w: Worker, met: seq<Happening>) {
    match w
    case AtBoundary(stage) => BeforeStage(met, stage)
    case Inside(stage) => InStage(met, stage)
    case Ended(Ok, _) => met == Clean(4)
    case Ended(Failed, error) => exists stage :: FailedAfter(met, error, stage)
    case Ended(Cancelled, _) => met == [Crossed, LeftFetch] || exists stage :: TurnedBackAfter(met, stage)
  }

  ghost function Histories(specs: seq<Spec>, schedule: Schedule, id: nat): nat -> seq<Happening>
    requires id < |specs|
  {
    (i: nat) => Met(specs, schedule, id, i)
  }

  ghost predicate WorkersFit(r: Run, met: nat -> seq<Happening>) {
    if r.phase.Waiting? || r.phase.Reading? then
      r.workers == [] && forall i: nat :: met(i) == []
    else
      |r.workers| == |r.spec.sources| && forall i :: 0 <= i < |r.workers| ==> Fits(r.workers[i], met(i))
  }

  lemma {:induction false} CleanLength(n: nat)
    ensures |Clean(n)| == 2 * n
  {
    if n > 0 {
      CleanLength(n - 1);
    }
  }

  /** A history's length and last happening tell what kind it is. */
  lemma Before(met: seq<Happening>, stage: nat)
    requires BeforeStage(met, stage)
    ensures |met| == 2 * stage && (met != [] ==> met[|met| - 1] == Did)
  {
    CleanLength(stage);
  }

  lemma In(met: seq<Happening>, stage: nat)
    requires InStage(met, stage)
    ensures |met| == 2 * stage + 1 && met[|met| - 1] == Crossed
  {
    CleanLength(stage);
  }

  lemma Over(w: Worker, met: seq<Happening>)
    requires w.Ended? && Fits(w, met)
    ensures met != [] && met[|met| - 1] != Crossed && (met[|met| - 1] == Did ==> |met| == 8)
  {
    CleanLength(4);
  }

  lemma OnlyAtBoundary(w: Worker, met: seq<Happening>, stage: nat)
    requires Fits(w, met) && BeforeStage(met, stage)
    ensures w == AtBoundary(stage)
  {
    Before(met, stage);
    match w
    case AtBoundary(other) => Before(met, other);
    case Inside(other) => In(met, other);
    case Ended(_, _) => Over(w, met);
  }

  lemma OnlyInside(w: Worker, met: seq<Happening>, stage: nat)
    requires Fits(w, met) && InStage(met, stage)
    ensures w == Inside(stage)
  {
    In(met, stage);
    match w
    case AtBoundary(other) => Before(met, other);
    case Inside(other) => In(met, other);
    case Ended(_, _) => Over(w, met);
  }

  // ----- one step

  lemma BoundaryStep(r: Run, i: nat, met: seq<Happening>, s: State)
    requires AtWork(r, i) && |r.workers| == |r.spec.sources| && Fits(r.workers[i], met)
    ensures |Act(r, CheckBoundary(i), s).workers| == |r.workers|
    ensures Fits(Act(r, CheckBoundary(i), s).workers[i], met + Meets(r, i, met, CheckBoundary(i)))
  {
    var w := r.workers[i];
    if stage :| BeforeStage(met, stage) {
      OnlyAtBoundary(w, met, stage);
      if CancelSeen(r) {
        assert TurnedBackAfter(met + [TurnedBack], stage);
      }
    } else {
      assert !w.AtBoundary?;
      assert met + [] == met;
    }
  }

  lemma FetchStep(r: Run, i: nat, met: seq<Happening>, s: State)
    requires AtWork(r, i) && |r.workers| == |r.spec.sources| && Fits(r.workers[i], met)
    ensures |Act(r, CheckFetch(i), s).workers| == |r.workers|
    ensures Fits(Act(r, CheckFetch(i), s).workers[i], met + Meets(r, i, met, CheckFetch(i)))
  {
    var w := r.workers[i];
    if InStage(met, 0) {
      OnlyInside(w, met, 0);
      assert Clean(0) + [Crossed] == [Crossed];
    } else {
      assert w != Inside(0);
    }
    assert met + [] == met;
  }

  lemma WorkStep(r: Run, i: nat, met: seq<Happening>, raised: Option<string>, s: State)
    requires AtWork(r, i) && |r.workers| == |r.spec.sources| && Fits(r.workers[i], met)
    ensures |Act(r, Work(i, raised), s).workers| == |r.workers|
    ensures Fits(Act(r, Work(i, raised), s).workers[i], met + Meets(r, i, met, Work(i, raised)))
  {
    var w := r.workers[i];
    if stage :| InStage(met, stage) {
      OnlyInside(w, met, stage);
      if raised.Some? {
        assert met + [Raised(raised.value)] == Clean(stage) + [Crossed, Raised(raised.value)];
        assert FailedAfter(met + [Raised(raised.value)], raised.value, stage);
      } else {
        assert met + [Did] == Clean(stage) + [Crossed, Did] == Clean(stage + 1);
      }
    } else {
      assert !w.Inside?;
      assert met + [] == met;
    }
  }

  predicate IsWorkerAction(a: Action, i: nat) {
    a == CheckBoundary(i) || a == CheckFetch(i) || (a.Work? && a.worker == i)
  }

  lemma OtherStep(r: Run, i: nat, met: seq<Happening>, a: Action, s: State)
    requires !AtWork(r, i) || !IsWorkerAction(a, i)
    requires |r.workers| == |r.spec.sources| && i < |r.workers| && !r.phase.Reading?
    ensures |Act(r, a, s).workers| == |r.workers| && Act(r, a, s).workers[i] == r.workers[i]
    ensures met + Meets(r, i, met, a) == met
  {
  }

  lemma WorkerFits(r: Run, i: nat, met: seq<Happening>, a: Action, s: State)
    requires |r.workers| == |r.spec.sources| && i < |r.workers| && !r.phase.Reading? && Fits(r.workers[i], met)
    ensures |Act(r, a, s).workers| == |r.workers|
    ensures Fits(Act(r, a, s).workers[i], met + Meets(r, i, met, a))
  {
    if !AtWork(r, i) || !IsWorkerAction(a, i) {
      OtherStep(r, i, met, a, s);
    } else if a == CheckBoundary(i) {
      BoundaryStep(r, i, met, s);
    } else if a == CheckFetch(i) {
      FetchStep(r, i, met, s);
    } else {
      WorkStep(r, i, met, a.raised, s);
    }
  }

  // ----- every schedule

  /** Before the workers begin none of them meets anything. */
  lemma NoWorkerYet(r: Run, a: Action, s: State)
    requires RunInv(r) && (r.phase.Waiting? || r.phase.Reading?)
    ensures forall i: nat :: Meets(r, i, [], a) == []
    ensures var r' := Act(r, a, s);
      if r'.phase.Waiting? || r'.phase.Reading? then r'.workers == []
      else |r'.workers| == |r.spec.sources| && forall i :: 0 <= i < |r'.workers| ==> r'.workers[i] == AtBoundary(0)
  {
  }

  lemma PhaseStays(r: Run, a: Action, s: State)
    requires !r.phase.Waiting? && !r.phase.Reading?
    ensures !Act(r, a, s).phase.Waiting? && !Act(r, a, s).phase.Reading? && Act(r, a, s).spec == r.spec
  {
  }

  lemma MetOneMore(specs: seq<Spec>, before: Schedule, other: nat, a: Action, id: nat, i: nat)
    requires id < |specs|
    ensures var met := Met(specs, before, id, i);
      Met(specs, before + [(other, a)], id, i)
      == if other != id then met else met + Meets(After(Initial(specs), before).runs[id], i, met, a)
    ensures After(Initial(specs), before + [(other, a)]) == Do(After(Initial(specs), before), other, a)
  {
    var schedule := before + [(other, a)];
    assert schedule[..|schedule| - 1] == before;
  }

  ghost predicate GoOn(r: Run, a: Action, met: nat -> seq<Happening>, met': nat -> seq<Happening>) {
    forall i: nat :: met'(i) == met(i) + Meets(r, i, met(i), a)
  }

  lemma FitsOneMore(r: Run, a: Action, s: State, met: nat -> seq<Happening>, met': nat -> seq<Happening>)
    requires RunInv(r) && WorkersFit(r, met) && GoOn(r, a, met, met')
    ensures WorkersFit(Act(r, a, s), met')
  {
    if r.phase.Waiting? || r.phase.Reading? {
      NoWorkerYet(r, a, s);
      ActKeepsSpec(r, a, s);
    } else {
      PhaseStays(r, a, s);
      ActKeepsWorkerCount(r, a, s);
      forall i | 0 <= i < |r.workers| ensures Fits(Act(r, a, s).workers[i], met'(i)) {
        WorkerFits(r, i, met(i), a, s);
      }
    }
  }

  lemma ActKeepsWorkerCount(r: Run, a: Action, s: State)
    requires !r.phase.Waiting? && !r.phase.Reading?
    ensures |Act(r, a, s).workers| == |r.workers|
  {
  }

  /** In every interleaving each worker is where its history puts it. */
  lemma {:induction false} EveryWorkerFits(specs: seq<Spec>, schedule: Schedule, id: nat)
    requires id < |specs|
    ensures WorkersFit(After(Initial(specs), schedule).runs[id], Histories(specs, schedule, id))
  {
    if schedule != [] {
      var before := schedule[..|schedule| - 1];
      var (other, a) := schedule[|schedule| - 1];
      assert schedule == before + [(other, a)];
      var met, met' := Histories(specs, before, id), Histories(specs, schedule, id);
      var r := After(Initial(specs), before).runs[id];
      forall i: nat ensures met'(i) == if other != id then met(i) else met(i) + Meets(r, i, met(i), a) {
        MetOneMore(specs, before, other, a, id, i);
      }
      MetOneMore(specs, before, other, a, id, 0);
      EveryWorkerFits(specs, before, id);
      EveryRunKeepsItsInvariant(specs, before);
      if other == id {
        FitsOneMore(r, a, After(Initial(specs), before), met, met');
      }
    }
  }

  // ----- what the manifest says of them

  /** The errors the workers met, in the order of the sources, each under its source's name. */
  ghost function ErrorsMet(sources: seq<string>, met: seq<seq<Happening>>): seq<string>
    requires |sources| == |met|
  {
    if met == [] then []
    else
      var last := if met[0] == [] then Did else met[0][|met[0]| - 1];
      (if last.Raised? then [sources[0] + ": " + last.error] else []) + ErrorsMet(sources[1..], met[1..])
  }

  ghost function AllMet(specs: seq<Spec>, schedule: Schedule, id: nat): seq<seq<Happening>>
    requires id < |specs|
  {
    seq(|specs[id].sources|, i requires 0 <= i < |specs[id].sources| => Met(specs, schedule, id, i))
  }

  /** An error is the last thing a worker meets, and it ended failed with it. */
  lemma RaisedIsLast(w: Worker, met: seq<Happening>, k: nat)
    requires Fits(w, met) && k < |met| && met[k].Raised?
    ensures k == |met| - 1 && w == Ended(Failed, met[k].error)
  {
    var n := match w case AtBoundary(stage) => stage case Inside(stage) => stage case Ended(_, _) => 4;
    NoErrorInClean(n);
    match w
    case AtBoundary(_) =>
    case Inside(_) =>
    case Ended(Ok, _) =>
    case Ended(Failed, error) =>
      var stage :| FailedAfter(met, error, stage);
      NoErrorInClean(stage);
    case Ended(Cancelled, _) =>
      if stage :| TurnedBackAfter(met, stage) {
        NoErrorInClean(stage);
      }
  }

  lemma {:induction false} NoErrorInClean(n: nat)
    ensures forall k :: 0 <= k < |Clean(n)| ==> !Clean(n)[k].Raised?
  {
    if n > 0 {
      NoErrorInClean(n - 1);
    }
  }

  lemma LastTells(w: Worker, met: seq<Happening>)
    requires Fits(w, met) && w.Ended?
    ensures met != [] && (met[|met| - 1].Raised? <==> w.status.Failed?)
    ensures w.status.Failed? ==> met[|met| - 1] == Raised(w.error)
    ensures w.status.Ok? ==> met == Clean(4)
  {
    CleanLength(4);
    CleanEnds();
  }

  lemma CleanEnds()
    ensures |Clean(4)| == 8 ==> Clean(4)[7] == Did
  {
  }

  lemma {:induction false} ErrorsAgree(sources: seq<string>, workers: seq<Worker>, met: seq<seq<Happening>>)
    requires |sources| == |workers| == |met| && AllEnded(workers)
    requires forall i :: 0 <= i < |workers| ==> Fits(workers[i], met[i])
    ensures SourceErrors(sources, workers) == ErrorsMet(sources, met)
  {
    if workers != [] {
      LastTells(workers[0], met[0]);
      assert workers[0].Ended?;
      assert forall i :: 0 <= i < |workers[1..]| ==> workers[1..][i] == workers[i + 1] && met[1..][i] == met[i + 1];
      ErrorsAgree(sources[1..], workers[1..], met[1..]);
    }
  }

  // ----- the composition

  /** What the composition raised, once it ran: at most once, and only in a build that was not cancelled. */
  ghost function Composing(specs: seq<Spec>, schedule: Schedule, id: nat): seq<Option<string>>
    requires id < |specs|
  {
    if schedule == [] then []
    else
      var before := schedule[..|schedule| - 1];
      var (other, a) := schedule[|schedule| - 1];
      var composing := Composing(specs, before, id);
      if other != id then composing else composing + Composes(After(Initial(specs), before).runs[id], composing, a)
  }

  ghost function Composes(r: Run, composing: seq<Option<string>>, a: Action): seq<Option<string>> {
    if !a.Compose? || r.stopped || r.phase != Decided(false) || r.spec.composition.None? || composing != [] then []
    else [a.raised]
  }

  ghost predicate ComposingFits(r: Run, composing: seq<Option<string>>) {
    && |composing| <= 1 && (composing != [] ==> r.spec.composition.Some?)
    && r.composition == if composing == [] then None else Some(composing[0])
  }

  lemma ComposeStep(r: Run, composing: seq<Option<string>>, a: Action, s: State)
    requires ComposingFits(r, composing)
    ensures ComposingFits(Act(r, a, s), composing + Composes(r, composing, a))
  {
  }

  lemma {:induction false} EveryComposingFits(specs: seq<Spec>, schedule: Schedule, id: nat)
    requires id < |specs|
    ensures ComposingFits(After(Initial(specs), schedule).runs[id], Composing(specs, schedule, id))
  {
    if schedule != [] {
      var before := schedule[..|schedule| - 1];
      var (other, a) := schedule[|schedule| - 1];
      EveryComposingFits(specs, before, id);
      var s := After(Initial(specs), before);
      if other == id {
        ComposeStep(s.runs[id], Composing(specs, before, id), a, s);
      }
    }
  }

  // ----- the commits

  /** One source's table: nothing to commit, the commit raised, another build was faster, or committed. */
  datatype Attempt = Nothing | Broken | Overtaken | Committed

  ghost function Attempts(specs: seq<Spec>, schedule: Schedule, id: nat): seq<Attempt>
    requires id < |specs|
  {
    if schedule == [] then []
    else
      var before := schedule[..|schedule| - 1];
      var (other, a) := schedule[|schedule| - 1];
      var tried, s := Attempts(specs, before, id), After(Initial(specs), before);
      if other != id then tried else tried + Tries(s.runs[id], tried, a, s)
  }

  /** The sources of an ok build with a catalog are tried in order, each once. */
  ghost function Tries(r: Run, tried: seq<Attempt>, a: Action, s: State): seq<Attempt> {
    if !a.Materialize? || r.stopped || !r.spec.catalog || !r.phase.Settled? || !r.phase.status.Ok? then []
    else if |tried| >= |r.spec.sources| || |r.starts| != |r.spec.sources| then []
    else
      var read, now := r.starts[|tried|], |History(s, Table(r.spec, |tried|))|;
      [if !a.directory then Nothing else if a.broken then Broken else if read != now then Overtaken else Committed]
  }

  /** The failures of the attempts, by source. */
  ghost function FailuresMet(sources: seq<string>, tried: seq<Attempt>): map<string, Failure>
    requires |tried| <= |sources|
  {
    if tried == [] then map[]
    else
      var n := |tried| - 1;
      var before := FailuresMet(sources, tried[..n]);
      match tried[n]
      case Broken => before[sources[n] := CommitFailed]
      case Overtaken => before[sources[n] := Conflict]
      case _ => before
  }

  ghost predicate AttemptsFit(r: Run, tried: seq<Attempt>) {
    r.next == |tried| <= |r.spec.sources| && r.failures == FailuresMet(r.spec.sources, tried)
  }

  lemma NothingTried(r: Run, tried: seq<Attempt>, a: Action, s: State)
    requires AttemptsFit(r, tried) && Tries(r, tried, a, s) == []
    ensures AttemptsFit(Act(r, a, s), tried)
  {
  }

  lemma OneTried(r: Run, tried: seq<Attempt>, a: Action, s: State)
    requires AttemptsFit(r, tried) && Tries(r, tried, a, s) != []
    ensures AttemptsFit(Act(r, a, s), tried + Tries(r, tried, a, s))
  {
    var more := tried + Tries(r, tried, a, s);
    assert more[..|more| - 1] == tried;
  }

  lemma {:induction false} EveryAttemptFits(specs: seq<Spec>, schedule: Schedule, id: nat)
    requires id < |specs|
    ensures AttemptsFit(After(Initial(specs), schedule).runs[id], Attempts(specs, schedule, id))
  {
    if schedule != [] {
      var before := schedule[..|schedule| - 1];
      var (other, a) := schedule[|schedule| - 1];
      EveryAttemptFits(specs, before, id);
      var s, tried := After(Initial(specs), before), Attempts(specs, before, id);
      if other == id {
        if Tries(s.runs[id], tried, a, s) == [] {
          NothingTried(s.runs[id], tried, a, s);
          assert tried + [] == tried;
        } else {
          OneTried(s.runs[id], tried, a, s);
        }
      }
    }
  }

  /** A source is among the failures exactly when its attempt was one. */
  ghost predicate FailedAt(sources: seq<string>, tried: seq<Attempt>, source: string, k: int) {
    0 <= k < |tried| <= |sources| && sources[k] == source && (tried[k].Broken? || tried[k].Overtaken?)
  }

  lemma {:induction false} FailuresAreTheFailed(sources: seq<string>, tried: seq<Attempt>, source: string)
    requires |tried| <= |sources|
    ensures source in FailuresMet(sources, tried) <==> exists k :: FailedAt(sources, tried, source, k)
  {
    if tried != [] {
      var n := |tried| - 1;
      FailuresAreTheFailed(sources, tried[..n], source);
      if k :| FailedAt(sources, tried[..n], source, k) {
        assert FailedAt(sources, tried, source, k);
      }
      if k :| FailedAt(sources, tried, source, k) {
        if k < n {
          assert FailedAt(sources, tried[..n], source, k);
        }
      } else {
        assert !FailedAt(sources, tried, source, n);
      }
    }
  }

  /** With distinct sources the kind of failure is that of the source's own attempt. */
  lemma {:induction false} FailureIsTheAttempts(sources: seq<string>, tried: seq<Attempt>, k: nat)
    requires |tried| <= |sources| && Distinct(sources) && k < |tried| && (tried[k].Broken? || tried[k].Overtaken?)
    ensures sources[k] in FailuresMet(sources, tried)
    ensures FailuresMet(sources, tried)[sources[k]] == if tried[k].Broken? then CommitFailed else Conflict
  {
    if k < |tried| - 1 {
      FailureIsTheAttempts(sources, tried[..|tried| - 1], k);
      assert sources[|tried| - 1] != sources[k];
    }
  }

  // ----- the manifest

  function CompositionMet(spec: Spec, composing: seq<Option<string>>): seq<string> {
    if spec.composition.Some? && composing != [] && composing[0].Some?
    then [spec.composition.value + ": " + composing[0].value]
    else []
  }

  /** The manifest tells all that was met: every error of a source or of the composition, in order and
      nothing else, and every failed commit. An ok build went through all stages of all its sources and
      its composition with nothing raised, and tried to commit each table. */
  ghost predicate TellsWhatWasMet(m: Manifest, spec: Spec, met: seq<seq<Happening>>, composing: seq<Option<string>>,
                                  tried: seq<Attempt>)
    requires |met| == |spec.sources|
  {
    && m.errors == ErrorsMet(spec.sources, met) + CompositionMet(spec, composing)
    && (m.composed <==> composing != [])
    && |tried| <= |spec.sources| && m.failures == FailuresMet(spec.sources, tried)
    && (m.status.Ok? ==> WentThrough(spec, met, composing, tried))
    && (m.status.Failed? ==> m.errors != [])
    && (!m.status.Ok? ==> tried == [])
    && (m.status.Cancelled? ==> composing == [])
    && ((exists i :: 0 <= i < |met| && Cut(met[i])) ==> m.status.Cancelled?)
  }

  /** All stages of all sources were done, and the composition if there is one, with nothing raised. */
  ghost predicate WentThrough(spec: Spec, met: seq<seq<Happening>>, composing: seq<Option<string>>, tried: seq<Attempt>)
  {
    && (forall i :: 0 <= i < |met| ==> met[i] == Clean(4))
    && composing == (if spec.composition.Some? then [None] else [])
    && (spec.catalog ==> |tried| == |spec.sources|)
  }

  /** The worker saw a request to cancel. */
  predicate Cut(met: seq<Happening>) {
    met != [] && (met[|met| - 1].TurnedBack? || met[|met| - 1].LeftFetch?)
  }

  lemma CutWasCancelled(r: Run, met: seq<seq<Happening>>, i: nat)
    requires |r.workers| == |met| && i < |met| && AllEnded(r.workers) && Fits(r.workers[i], met[i]) && Cut(met[i])
    ensures SomeCancelled(r.workers)
  {
    LastTells(r.workers[i], met[i]);
    CleanLength(4);
    CleanEnds();
    assert r.workers[i].Ended? && !r.workers[i].status.Ok?;
  }

  lemma OkWentThrough(r: Run, m: Manifest, met: seq<seq<Happening>>, composing: seq<Option<string>>,
                      tried: seq<Attempt>)
    requires RunInv(r) && r.manifest == Some(m) && IsTrueOf(m, r) && m.status.Ok?
    requires |r.workers| == |r.spec.sources| == |met|
    requires forall i :: 0 <= i < |met| ==> Fits(r.workers[i], met[i])
    requires ComposingFits(r, composing) && AttemptsFit(r, tried)
    ensures WentThrough(r.spec, met, composing, tried)
  {
    forall i | 0 <= i < |met| ensures met[i] == Clean(4) {
      LastTells(r.workers[i], met[i]);
    }
  }

  lemma TruthIsWhatWasMet(r: Run, m: Manifest, met: seq<seq<Happening>>, composing: seq<Option<string>>,
                          tried: seq<Attempt>)
    requires RunInv(r) && r.manifest == Some(m) && IsTrueOf(m, r)
    requires |r.workers| == |r.spec.sources| == |met|
    requires forall i :: 0 <= i < |met| ==> Fits(r.workers[i], met[i])
    requires ComposingFits(r, composing) && AttemptsFit(r, tried)
    ensures TellsWhatWasMet(m, r.spec, met, composing, tried)
  {
    ErrorsAgree(r.spec.sources, r.workers, met);
    if m.status.Ok? {
      OkWentThrough(r, m, met, composing, tried);
    }
    if i :| 0 <= i < |met| && Cut(met[i]) {
      CutWasCancelled(r, met, i);
    }
  }

  /** In every interleaving a manifest that was written tells what the build met. */
  lemma ManifestTellsWhatWasMet(specs: seq<Spec>, schedule: Schedule, id: nat)
    requires id < |specs|
    ensures var manifest := After(Initial(specs), schedule).runs[id].manifest;
            manifest.Some? ==> TellsWhatWasMet(manifest.value, specs[id], AllMet(specs, schedule, id),
                                               Composing(specs, schedule, id), Attempts(specs, schedule, id))
  {
    EveryRunKeepsItsInvariant(specs, schedule);
    ManifestTellsTheTruth(specs, schedule, id);
    EveryWorkerFits(specs, schedule, id);
    EveryComposingFits(specs, schedule, id);
    EveryAttemptFits(specs, schedule, id);
    var r, met := After(Initial(specs), schedule).runs[id], AllMet(specs, schedule, id);
    if r.manifest.Some? {
      forall i | 0 <= i < |met| ensures Fits(r.workers[i], met[i]) {
        assert met[i] == Histories(specs, schedule, id)(i);
      }
      TruthIsWhatWasMet(r, r.manifest.value, met, Composing(specs, schedule, id), Attempts(specs, schedule, id));
    }
  }

  // ----- what was met is told

  lemma {:induction false} HistoriesGrow(specs: seq<Spec>, first: Schedule, second: Schedule, id: nat, i: nat)
    requires id < |specs|
    ensures Met(specs, first, id, i) <= Met(specs, first + second, id, i)
    ensures Composing(specs, first, id) <= Composing(specs, first + second, id)
    ensures Attempts(specs, first, id) <= Attempts(specs, first + second, id)
  {
    if second == [] {
      assert first + second == first;
    } else {
      var n := |second| - 1;
      assert (first + second)[..|first + second| - 1] == first + second[..n];
      HistoriesGrow(specs, first, second[..n], id, i);
    }
  }

  lemma {:induction false} ErrorIsListed(sources: seq<string>, met: seq<seq<Happening>>, i: nat)
    requires |sources| == |met| && i < |met| && met[i] != [] && met[i][|met[i]| - 1].Raised?
    ensures sources[i] + ": " + met[i][|met[i]| - 1].error in ErrorsMet(sources, met)
  {
    if i > 0 {
      ErrorIsListed(sources[1..], met[1..], i - 1);
    }
  }

  /** An error raised by a worker at work in any stage is in every manifest written later, under the
      source's name, and that manifest is not ok. */
  lemma RaisedIsTold(specs: seq<Spec>, first: Schedule, second: Schedule, id: nat, i: nat, error: string)
    requires id < |specs| && i < |specs[id].sources| && Raised(error) in Met(specs, first, id, i)
    ensures var manifest := After(Initial(specs), first + second).runs[id].manifest;
            manifest.Some? ==>
              specs[id].sources[i] + ": " + error in manifest.value.errors && !manifest.value.status.Ok?
  {
    HistoriesGrow(specs, first, second, id, i);
    RaisedIsToldThere(specs, first + second, id, i, error);
  }

  lemma WrittenWhenSettled(specs: seq<Spec>, schedule: Schedule, id: nat)
    requires id < |specs|
    ensures var r := After(Initial(specs), schedule).runs[id]; r.manifest.Some? ==> r.phase.Settled?
  {
    EveryRunKeepsItsInvariant(specs, schedule);
    assert RunInv(After(Initial(specs), schedule).runs[id]);
  }

  lemma AllMetAt(specs: seq<Spec>, schedule: Schedule, id: nat, i: nat)
    requires id < |specs| && i < |specs[id].sources|
    ensures AllMet(specs, schedule, id)[i] == Met(specs, schedule, id, i)
  {
  }

  lemma RaisedIsToldThere(specs: seq<Spec>, schedule: Schedule, id: nat, i: nat, error: string)
    requires id < |specs| && i < |specs[id].sources| && Raised(error) in Met(specs, schedule, id, i)
    ensures var manifest := After(Initial(specs), schedule).runs[id].manifest;
            manifest.Some? ==>
              specs[id].sources[i] + ": " + error in manifest.value.errors && !manifest.value.status.Ok?
  {
    var r, all := After(Initial(specs), schedule).runs[id], AllMet(specs, schedule, id);
    WrittenWhenSettled(specs, schedule, id);
    if r.manifest.Some? {
      NothingAfterRaised(specs, schedule, id, i, error);
      ManifestTellsWhatWasMet(specs, schedule, id);
      AllMetAt(specs, schedule, id, i);
      TellsRaised(r.manifest.value, specs[id], all, Composing(specs, schedule, id), Attempts(specs, schedule, id),
                  i, error);
    }
  }

  lemma TellsRaised(m: Manifest, spec: Spec, met: seq<seq<Happening>>, composing: seq<Option<string>>,
                    tried: seq<Attempt>, i: nat, error: string)
    requires |met| == |spec.sources| && TellsWhatWasMet(m, spec, met, composing, tried)
    requires i < |met| && met[i] != [] && met[i][|met[i]| - 1] == Raised(error)
    ensures spec.sources[i] + ": " + error in m.errors && !m.status.Ok?
  {
    ErrorIsListed(spec.sources, met, i);
    CleanLength(4);
    CleanEnds();
  }

  lemma NothingAfterRaised(specs: seq<Spec>, schedule: Schedule, id: nat, i: nat, error: string)
    requires id < |specs| && i < |specs[id].sources| && Raised(error) in Met(specs, schedule, id, i)
    requires !After(Initial(specs), schedule).runs[id].phase.Waiting?
    requires !After(Initial(specs), schedule).runs[id].phase.Reading?
    ensures var met := Met(specs, schedule, id, i); met[|met| - 1] == Raised(error)
  {
    var r, met := After(Initial(specs), schedule).runs[id], Met(specs, schedule, id, i);
    EveryRunKeepsItsInvariant(specs, schedule);
    EveryWorkerFits(specs, schedule, id);
    assert met == Histories(specs, schedule, id)(i);
    var k :| 0 <= k < |met| && met[k] == Raised(error);
    RaisedIsLast(r.workers[i], met, k);
  }

  /** So is an error raised by the composition, and a commit that failed is among the failures. */
  lemma CompositionAndCommitsAreTold(specs: seq<Spec>, first: Schedule, second: Schedule, id: nat)
    requires id < |specs|
    ensures var manifest := After(Initial(specs), first + second).runs[id].manifest;
            var composing, tried := Composing(specs, first, id), Attempts(specs, first, id);
            manifest.Some? ==>
              && (composing != [] && composing[0].Some? ==>
                    && specs[id].composition.Some? && !manifest.value.status.Ok?
                    && specs[id].composition.value + ": " + composing[0].value in manifest.value.errors)
              && (forall k :: 0 <= k < |tried| && (tried[k].Broken? || tried[k].Overtaken?) ==>
                    k < |specs[id].sources| && specs[id].sources[k] in manifest.value.failures)
  {
    var schedule := first + second;
    HistoriesGrow(specs, first, second, id, 0);
    EveryRunKeepsItsInvariant(specs, schedule);
    EveryComposingFits(specs, schedule, id);
    ManifestTellsWhatWasMet(specs, schedule, id);
    var r, all := After(Initial(specs), schedule).runs[id], Attempts(specs, schedule, id);
    if r.manifest.Some? {
      forall k | 0 <= k < |Attempts(specs, first, id)| && (all[k].Broken? || all[k].Overtaken?)
        ensures specs[id].sources[k] in r.manifest.value.failures
      {
        FailuresAreTheFailed(specs[id].sources, all, specs[id].sources[k]);
        assert FailedAt(specs[id].sources, all, specs[id].sources[k], k);
      }
    }
  }
}
