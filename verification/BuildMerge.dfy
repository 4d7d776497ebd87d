/**
 The end of `run_build`, single-threaded, after every worker has ended: the decision, the errors and
 the status, each the one the transition system of `BuildRuns` takes in its steps.
 */
module BuildMerge {
  import opened Basics
  import opened BuildRuns

  class RunCancellation {
    var requested: bool
    var committed: bool

    function State(): Latch
      reads this
    {
      Latch(requested, committed)
    }

    constructor ()
      ensures State() == Latch(false, false)
    {
      requested, committed := false, false;
    }

    /** Refused once the run has committed to a normal end. */
    method RequestCancel() returns (accepted: bool)
      modifies this
      ensures State() == Request(old(State())) && accepted == !old(committed)
    {
      if committed {
        return false;
      }
      requested := true;
      accepted := true;
    }

    /** Refused once cancellation was requested. */
    method TryCommit() returns (ok: bool)
      modifies this
      ensures State() == Commit(old(State())) && ok == !old(requested)
    {
      if requested {
        return false;
      }
      committed := true;
      ok := true;
    }

    method Close() returns (cancelled: bool)
      modifies this
      ensures State() == old(State()).(committed := true) && cancelled == requested
    {
      committed := true;
      cancelled := requested;
    }
  }

  /** The run as its workers leave it. */
  ghost function Entry(spec: Spec, latch: Latch, workers: seq<Worker>): Run {
    Fresh(spec).(phase := Working, latch := latch, workers := workers)
  }

  /** The steps of the transition system from there: decide, compose unless cancelled, settle. */
  ghost function Exit(r: Run, composing: Option<string>): Run
    requires |r.spec.sources| == |r.workers|
  {
    var d := DecideRun(r);
    var c := if d.phase.cancelled || r.spec.composition.None? then d else d.(composition := Some(composing));
    SettleRun(c)
  }

  lemma {:induction false} ErrorsOneMore(sources: seq<string>, workers: seq<Worker>, source: string, worker: Worker)
    requires |sources| == |workers|
    ensures SourceErrors(sources + [source], workers + [worker])
         == SourceErrors(sources, workers) + SourceErrors([source], [worker])
  {
    if workers == [] {
      assert sources + [source] == [source] && workers + [worker] == [worker];
    } else {
      assert (sources + [source])[1..] == sources[1..] + [source];
      assert (workers + [worker])[1..] == workers[1..] + [worker];
      ErrorsOneMore(sources[1..], workers[1..], source, worker);
    }
  }

  method CollectErrors(sources: seq<string>, workers: seq<Worker>) returns (errors: seq<string>)
    requires |sources| == |workers|
    ensures errors == SourceErrors(sources, workers)
  {
    errors := [];
    var i := 0;
    while i < |workers|
      invariant i <= |workers| && errors == SourceErrors(sources[..i], workers[..i])
    {
      assert sources[..i + 1] == sources[..i] + [sources[i]];
      assert workers[..i + 1] == workers[..i] + [workers[i]];
      ErrorsOneMore(sources[..i], workers[..i], sources[i], workers[i]);
      if workers[i].Ended? && workers[i].status.Failed? {
        errors := errors + [sources[i] + ": " + workers[i].error];
      }
      i := i + 1;
    }
    assert sources[..i] == sources && workers[..i] == workers;
  }

  method AnyCancelled(workers: seq<Worker>) returns (cancelled: bool)
    ensures cancelled <==> SomeCancelled(workers)
  {
    var i := 0;
    while i < |workers|
      invariant i <= |workers| && !SomeCancelled(workers[..i])
    {
      if workers[i].Ended? && workers[i].status.Cancelled? {
        assert SomeCancelled(workers);
        return true;
      }
      assert workers[..i + 1] == workers[..i] + [workers[i]];
      i := i + 1;
    }
    assert workers[..i] == workers;
    cancelled := false;
  }

  /** `composing` is what the composition raises, if it is run at all. */
  method Merge(spec: Spec, workers: seq<Worker>, probe: RunCancellation?, composing: Option<string>)
      returns (status: Status, errors: seq<string>, composed: Option<Option<string>>)
    requires |spec.sources| == |workers| && AllEnded(workers)
    requires spec.probe <==> probe != null
    modifies probe
    ensures var latch := if probe == null then Latch(false, false) else old(probe.State());
            var r := Exit(Entry(spec, latch, workers), composing);
            && r.phase == Settled(status, errors) && r.composition == composed
            && (probe != null ==> probe.State() == r.latch)
  {
    var cancelled := AnyCancelled(workers);
    if !cancelled && probe != null {
      var ok := probe.TryCommit();
      if !ok {
        cancelled := true;
      }
    }
    composed := None;
    if spec.composition.Some? && !cancelled {
      composed := Some(composing);
    }
    errors := CollectErrors(spec.sources, workers);
    if composed.Some? && composed.value.Some? {
      errors := errors + [spec.composition.value + ": " + composed.value.value];
    } else {
      assert errors + [] == errors;
    }
    if cancelled {
      status := Cancelled;
    } else if errors != [] {
      status := Failed;
    } else {
      status := Ok;
    }
  }
}
