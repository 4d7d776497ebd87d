/**
 The checkpointed fetch: parameter sets are fetched one after the other, each with retries, and a
 checkpoint is saved after each; a run may raise or die anywhere, and a later one may resume.

 A record is opaque text. What the service answers to an attempt, and where a run dies, are
 parameters; saving a checkpoint is one atomic step.
 */
module CheckpointedFetch {
  import opened Basics

  type Record = string

  // ----- one parameter set, with retries

  /** One request: the batches delivered, and the lower-cased message if it raised after them. */
  datatype Attempt = Attempt(batches: seq<seq<Record>>, error: Option<string>)

  datatype Fetch = Fetched(records: seq<Record>) | Exhausted(message: string) | Raised(message: string)

  const MAX_RETRIES: nat := 5

  const RETRYABLE: seq<string> :=
    ["429", "too many requests", "500", "502", "503", "504", "timeout", "connection"]

  predicate Contains(text: string, token: string) {
    token <= text || (text != "" && Contains(text[1..], token))
  }

  ghost predicate StandsAt(text: string, token: string, i: int) {
    0 <= i && i + |token| <= |text| && text[i..i + |token|] == token
  }

  lemma {:induction false} ContainsExactlyWhen(text: string, token: string)
    ensures Contains(text, token) <==> exists i :: StandsAt(text, token, i)
  {
    if token <= text {
      assert StandsAt(text, token, 0);
    } else if text != "" {
      ContainsExactlyWhen(text[1..], token);
      if i :| StandsAt(text[1..], token, i) {
        assert text[i + 1..i + 1 + |token|] == text[1..][i..i + |token|];
        assert StandsAt(text, token, i + 1);
      }
      if i :| StandsAt(text, token, i) {
        assert i > 0 && text[1..][i - 1..i - 1 + |token|] == text[i..i + |token|];
        assert StandsAt(text[1..], token, i - 1);
      }
    }
  }

  predicate Retryable(message: string) {
    exists i :: 0 <= i < |RETRYABLE| && Contains(message, RETRYABLE[i])
  }

  function Concat(batches: seq<seq<Record>>): seq<Record> {
    if batches == [] then [] else batches[0] + Concat(batches[1..])
  }

  /** What attempts `attempt..maxRetries` lead to: the first that does not raise decides, unless one
      before it raised what is not worth a retry. */
  function Outcome(tries: nat -> Attempt, attempt: nat, maxRetries: nat): Fetch
    requires attempt <= maxRetries
    decreases maxRetries - attempt
  {
    var answer := tries(attempt);
    if answer.error.None? then Fetched(Concat(answer.batches))
    else if attempt == maxRetries then Exhausted(answer.error.value)
    else if Retryable(answer.error.value) then Outcome(tries, attempt + 1, maxRetries)
    else Raised(answer.error.value)
  }

  /** `_fetch_with_retry`: what an attempt delivered before it raised is not kept. */
  method FetchWithRetry(tries: nat -> Attempt, useListAll: bool, maxRetries: nat) returns (r: Fetch)
    ensures r == Outcome(tries, 0, maxRetries)
  {
    var records: seq<Record> := [];
    var attempt := 0;
    while true
      invariant attempt <= maxRetries && records == []
      invariant Outcome(tries, 0, maxRetries) == Outcome(tries, attempt, maxRetries)
      decreases maxRetries - attempt
    {
      var answer := tries(attempt);
      if useListAll {
        records := Extended(records, answer.batches);
      } else if answer.error.None? {
        records := records + Concat(answer.batches);
      }
      if answer.error.None? {
        return Fetched(records);
      }
      var message := answer.error.value;
      if !Retryable(message) || attempt == maxRetries {
        return if attempt == maxRetries then Exhausted(message) else Raised(message);
      }
      records := [];
      attempt := attempt + 1;
    }
  }

  method Extended(start: seq<Record>, batches: seq<seq<Record>>) returns (records: seq<Record>)
    ensures records == start + Concat(batches)
  {
    records := start;
    var left := batches;
    while left != []
      invariant records + Concat(left) == start + Concat(batches)
    {
      assert records + (left[0] + Concat(left[1..])) == (records + left[0]) + Concat(left[1..]);
      records := records + left[0];
      left := left[1..];
    }
  }

  predicate RetriedBefore(tries: nat -> Attempt, from: nat, attempt: nat) {
    forall j :: from <= j < attempt ==> tries(j).error.Some? && Retryable(tries(j).error.value)
  }

  /** The first attempt that is not retried decides. */
  lemma {:induction false} DecidedBy(tries: nat -> Attempt, from: nat, maxRetries: nat, attempt: nat)
    requires from <= attempt <= maxRetries
    requires RetriedBefore(tries, from, attempt)
    ensures tries(attempt).error.None? ==> Outcome(tries, from, maxRetries) == Fetched(Concat(tries(attempt).batches))
    ensures tries(attempt).error.Some? && attempt == maxRetries ==>
              Outcome(tries, from, maxRetries) == Exhausted(tries(attempt).error.value)
    ensures tries(attempt).error.Some? && attempt < maxRetries && !Retryable(tries(attempt).error.value) ==>
              Outcome(tries, from, maxRetries) == Raised(tries(attempt).error.value)
    decreases attempt - from
  {
    if from < attempt {
      DecidedBy(tries, from + 1, maxRetries, attempt);
    }
  }

  ghost predicate AnswersAt(tries: nat -> Attempt, from: nat, maxRetries: nat, attempt: nat) {
    from <= attempt <= maxRetries && RetriedBefore(tries, from, attempt) && tries(attempt).error.None?
  }

  /** A parameter set is fetched exactly when some allowed attempt answers and all before it raised what
      is worth a retry; the records are those of that one attempt. */
  lemma {:induction false} FetchedExactlyWhen(tries: nat -> Attempt, from: nat, maxRetries: nat)
    requires from <= maxRetries
    ensures Outcome(tries, from, maxRetries).Fetched? <==> exists attempt :: AnswersAt(tries, from, maxRetries, attempt)
    ensures forall attempt :: AnswersAt(tries, from, maxRetries, attempt) ==>
              Outcome(tries, from, maxRetries) == Fetched(Concat(tries(attempt).batches))
    decreases maxRetries - from
  {
    forall attempt | AnswersAt(tries, from, maxRetries, attempt)
      ensures Outcome(tries, from, maxRetries) == Fetched(Concat(tries(attempt).batches))
    {
      DecidedBy(tries, from, maxRetries, attempt);
    }
    if tries(from).error.None? {
      assert AnswersAt(tries, from, maxRetries, from);
    } else if from < maxRetries && Retryable(tries(from).error.value) {
      var next := from + 1;
      FetchedExactlyWhen(tries, next, maxRetries);
      if attempt :| AnswersAt(tries, next, maxRetries, attempt) {
        assert AnswersAt(tries, from, maxRetries, attempt);
      }
    }
  }

  // ----- runs over all parameter sets

  /** What a run is configured with: the dataset of a provider, whether all its pages are listed, and the
      sets of fetch parameters. */
  datatype Config = Config(dataset: string, listAll: bool, params: seq<string>)

  /** What the service is asked for. */
  datatype Request = Request(dataset: string, listAll: bool, params: string)

  /** A configuration's requests, one for each parameter set. */
  function Requests(c: Config): (r: seq<Request>)
    ensures |r| == |c.params|
    ensures forall i :: 0 <= i < |r| ==> r[i] == Request(c.dataset, c.listAll, c.params[i])
  {
    seq(|c.params|, i requires 0 <= i < |c.params| => Request(c.dataset, c.listAll, c.params[i]))
  }

  datatype Checkpoint = Checkpoint(nextIndex: nat, records: seq<Record>)

  /** Where a run dies at parameter set `i`, if it does: before its answer, or before its checkpoint. */
  datatype Death = Lives | InFetch | BeforeSave

  /** A run: its configuration, and what it meets at each parameter set and each attempt. */
  datatype Run = Run(
    config: Config, checkpointing: bool, resume: bool, tries: nat -> nat -> Attempt, dies: nat -> Death)

  /** What the run asks for, in order. */
  function Asked(run: Run): (r: seq<Request>)
    ensures |r| == |run.config.params|
  {
    Requests(run.config)
  }

  datatype Result = Completed(records: seq<Record>) | Failed(message: string) | Died

  /** The run from parameter set `i` on, with the checkpoint it leaves. */
  function RunFrom(run: Run, i: nat, records: seq<Record>, saved: Option<Checkpoint>): (Result, Option<Checkpoint>)
    decreases |Asked(run)| - i
  {
    if i >= |Asked(run)| then (Completed(records), saved)
    else if run.dies(i).InFetch? then (Died, saved)
    else
      match Outcome(run.tries(i), 0, MAX_RETRIES)
      case Exhausted(message) => (Failed(message), saved)
      case Raised(message) => (Failed(message), saved)
      case Fetched(more) =>
        if run.dies(i).BeforeSave? then (Died, saved)
        else RunFrom(run, i + 1, records + more, Saved(run, i + 1, records + more, saved))
  }

  /** The checkpoint after a parameter set. */
  function Saved(run: Run, next: nat, records: seq<Record>, saved: Option<Checkpoint>): Option<Checkpoint> {
    if run.checkpointing then Some(Checkpoint(next, records)) else saved
  }

  /** Where a run starts. */
  function Origin(run: Run, saved: Option<Checkpoint>): Checkpoint {
    if run.resume && run.checkpointing && saved.Some? then saved.value else Checkpoint(0, [])
  }

  function WholeRun(run: Run, saved: Option<Checkpoint>): (Result, Option<Checkpoint>) {
    RunFrom(run, Origin(run, saved).nextIndex, Origin(run, saved).records, saved)
  }

  /** The service answers each request alike whenever it answers. */
  ghost predicate AnswersAlike(answers: Request -> seq<Record>, run: Run) {
    forall i: nat, k: nat :: i < |Asked(run)| && run.tries(i)(k).error.None? ==>
      Concat(run.tries(i)(k).batches) == answers(Asked(run)[i])
  }

  /** The answers to requests, in order. */
  function AnswersTo(answers: Request -> seq<Record>, requests: seq<Request>): seq<Record> {
    if requests == [] then [] else AnswersTo(answers, requests[..|requests| - 1]) + answers(requests[|requests| - 1])
  }

  /** A checkpoint holds the records of exactly the first `nextIndex` requests, in order. */
  ghost predicate Sound(answers: Request -> seq<Record>, requests: seq<Request>, saved: Option<Checkpoint>) {
    saved.Some? ==>
      && saved.value.nextIndex <= |requests|
      && saved.value.records == AnswersTo(answers, requests[..saved.value.nextIndex])
  }

  /** A sound checkpoint is left, and a completed run returns all answers. */
  ghost predicate SoundEnd(answers: Request -> seq<Record>, requests: seq<Request>, end: (Result, Option<Checkpoint>)) {
    Sound(answers, requests, end.1) && (end.0.Completed? ==> end.0.records == AnswersTo(answers, requests))
  }

  /** The working directory of the fetch: the checkpoint is all that outlives a run. */
  class Workspace {
    var checkpoint: Option<Checkpoint>

    constructor ()
      ensures checkpoint == None
    {
      checkpoint := None;
    }

    /** `fetch_records`. */
    method FetchRecords(run: Run, ghost answers: Request -> seq<Record>) returns (result: Result)
      modifies this
      ensures (result, checkpoint) == WholeRun(run, old(checkpoint))
      ensures AnswersAlike(answers, run) && Sound(answers, Asked(run), old(checkpoint)) ==>
        && Sound(answers, Asked(run), checkpoint)
        && (result.Completed? ==> result.records == AnswersTo(answers, Asked(run)))
    {
      if AnswersAlike(answers, run) && Sound(answers, Asked(run), checkpoint) {
        RunIsSound(answers, run, checkpoint);
      }
      var i, records := 0, [];
      if run.resume && run.checkpointing && checkpoint.Some? {
        i, records := checkpoint.value.nextIndex, checkpoint.value.records;
      }
      while i < |Asked(run)|
        invariant RunFrom(run, i, records, checkpoint) == WholeRun(run, old(checkpoint))
      {
        if run.dies(i).InFetch? {
          return Died;
        }
        var fetch := FetchWithRetry(run.tries(i), run.config.listAll, MAX_RETRIES);
        if !fetch.Fetched? {
          return Failed(fetch.message);
        }
        if run.dies(i).BeforeSave? {
          return Died;
        }
        records := records + fetch.records;
        if run.checkpointing {
          checkpoint := Some(Checkpoint(i + 1, records));
        }
        i := i + 1;
      }
      return Completed(records);
    }
  }

  lemma {:induction false} FetchedIsTheAnswer(answers: Request -> seq<Record>, run: Run, i: nat, attempt: nat)
    requires AnswersAlike(answers, run) && i < |Asked(run)| && attempt <= MAX_RETRIES
    ensures Outcome(run.tries(i), attempt, MAX_RETRIES).Fetched? ==>
              Outcome(run.tries(i), attempt, MAX_RETRIES).records == answers(Asked(run)[i])
    decreases MAX_RETRIES - attempt
  {
    if attempt < MAX_RETRIES {
      FetchedIsTheAnswer(answers, run, i, attempt + 1);
    }
  }

  lemma OneMoreAnswer(answers: Request -> seq<Record>, requests: seq<Request>, i: nat)
    requires i < |requests|
    ensures AnswersTo(answers, requests[..i + 1]) == AnswersTo(answers, requests[..i]) + answers(requests[i])
  {
    assert requests[..i + 1][..i] == requests[..i];
  }

  lemma {:induction false} RunFromIsSound(answers: Request -> seq<Record>, run: Run, i: nat,
                                          records: seq<Record>, saved: Option<Checkpoint>)
    requires AnswersAlike(answers, run) && Sound(answers, Asked(run), saved)
    requires i <= |Asked(run)| && records == AnswersTo(answers, Asked(run)[..i])
    ensures SoundEnd(answers, Asked(run), RunFrom(run, i, records, saved))
    decreases |Asked(run)| - i
  {
    if i < |Asked(run)| {
      FetchedIsTheAnswer(answers, run, i, 0);
      OneMoreAnswer(answers, Asked(run), i);
      var grown := records + answers(Asked(run)[i]);
      RunFromIsSound(answers, run, i + 1, grown, Saved(run, i + 1, grown, saved));
    } else {
      assert Asked(run)[..i] == Asked(run);
    }
  }

  lemma RunIsSound(answers: Request -> seq<Record>, run: Run, saved: Option<Checkpoint>)
    requires AnswersAlike(answers, run) && Sound(answers, Asked(run), saved)
    ensures SoundEnd(answers, Asked(run), WholeRun(run, saved))
  {
    RunFromIsSound(answers, run, Origin(run, saved).nextIndex, Origin(run, saved).records, saved);
  }

  // ----- any number of runs

  /** The checkpoint after a history of runs that started with none. */
  function After(runs: seq<Run>): Option<Checkpoint> {
    if runs == [] then None else WholeRun(runs[|runs| - 1], After(runs[..|runs| - 1])).1
  }

  /** Runs that ask for the same. */
  ghost predicate AllAlike(answers: Request -> seq<Record>, requests: seq<Request>, runs: seq<Run>) {
    forall k :: 0 <= k < |runs| ==> Asked(runs[k]) == requests && AnswersAlike(answers, runs[k])
  }

  /** Over any number of crashes, failures, restarts and resumes the checkpoint holds the records of
      exactly the first `nextIndex` requests. */
  lemma {:induction false} EveryCheckpointIsSound(answers: Request -> seq<Record>,
                                                  requests: seq<Request>, runs: seq<Run>)
    requires AllAlike(answers, requests, runs)
    ensures Sound(answers, requests, After(runs))
  {
    if runs != [] {
      EveryCheckpointIsSound(answers, requests, runs[..|runs| - 1]);
      RunIsSound(answers, runs[|runs| - 1], After(runs[..|runs| - 1]));
    }
  }

  /** Whatever happened before, a run that completes returns what one uninterrupted run returns: nothing
      lost, nothing doubled. */
  lemma EveryCompletedRunAgrees(answers: Request -> seq<Record>, requests: seq<Request>,
                                runs: seq<Run>, last: Run, uninterrupted: Run)
    requires AllAlike(answers, requests, runs)
    requires Asked(last) == Asked(uninterrupted) == requests
    requires AnswersAlike(answers, last) && AnswersAlike(answers, uninterrupted)
    requires WholeRun(last, After(runs)).0.Completed?
    requires WholeRun(uninterrupted, None).0.Completed?
    ensures WholeRun(last, After(runs)).0 == WholeRun(uninterrupted, None).0
  {
    EveryCheckpointIsSound(answers, requests, runs);
    RunIsSound(answers, last, After(runs));
    RunIsSound(answers, uninterrupted, None);
  }

  // ----- progress

  ghost predicate Passes(run: Run, i: nat) {
    run.dies(i).Lives? && Outcome(run.tries(i), 0, MAX_RETRIES).Fetched?
  }

  /** A run completes exactly when it gets through every parameter set not yet in its checkpoint. */
  lemma {:induction false} CompletesExactlyWhen(run: Run, i: nat, records: seq<Record>, saved: Option<Checkpoint>)
    ensures RunFrom(run, i, records, saved).0.Completed? <==> forall j: nat :: i <= j < |Asked(run)| ==> Passes(run, j)
    decreases |Asked(run)| - i
  {
    if i < |Asked(run)| && Passes(run, i) {
      var grown := records + Outcome(run.tries(i), 0, MAX_RETRIES).records;
      CompletesExactlyWhen(run, i + 1, grown, Saved(run, i + 1, grown, saved));
    }
  }

  /** A run that does not resume, or keeps no checkpoints, is not told by the one it finds. */
  lemma {:induction false} CheckpointDoesNotTell(run: Run, i: nat, records: seq<Record>,
                                                 a: Option<Checkpoint>, b: Option<Checkpoint>)
    ensures RunFrom(run, i, records, a).0 == RunFrom(run, i, records, b).0
    ensures !run.checkpointing ==> RunFrom(run, i, records, a).1 == a
    decreases |Asked(run)| - i
  {
    if i < |Asked(run)| && Passes(run, i) {
      var grown := records + Outcome(run.tries(i), 0, MAX_RETRIES).records;
      CheckpointDoesNotTell(run, i + 1, grown, Saved(run, i + 1, grown, a), Saved(run, i + 1, grown, b));
    }
  }

  /** Without resuming, a run ends as one that finds no checkpoint. */
  lemma WithoutResuming(run: Run, saved: Option<Checkpoint>)
    requires !run.resume || !run.checkpointing
    ensures WholeRun(run, saved).0 == WholeRun(run, None).0
    ensures !run.checkpointing ==> WholeRun(run, saved).1 == saved
  {
    CheckpointDoesNotTell(run, 0, [], saved, None);
  }

  /** Otherwise the first parameter set it does not get through tells how it ends: the run dies there, or
      fails with the message of the fetch. */
  lemma {:induction false} EndsAtTheFirstNotPassed(run: Run, i: nat, j: nat, records: seq<Record>,
                                                   saved: Option<Checkpoint>)
    requires i <= j < |Asked(run)| && !Passes(run, j) && forall k :: i <= k < j ==> Passes(run, k)
    ensures var fetch := Outcome(run.tries(j), 0, MAX_RETRIES);
      RunFrom(run, i, records, saved).0
      == if run.dies(j).InFetch? || fetch.Fetched? then Died else Failed(fetch.message)
    decreases j - i
  {
    if i < j {
      assert Passes(run, i);
      var grown := records + Outcome(run.tries(i), 0, MAX_RETRIES).records;
      EndsAtTheFirstNotPassed(run, i + 1, j, grown, Saved(run, i + 1, grown, saved));
    }
  }

  function Reached(saved: Option<Checkpoint>): nat {
    if saved.Some? then saved.value.nextIndex else 0
  }

  /** The checkpoint a run leaves stands at the first parameter set it did not get through. */
  lemma {:induction false} CheckpointStandsWhereTheRunStopped(run: Run, i: nat,
                                                              records: seq<Record>, saved: Option<Checkpoint>)
    requires run.checkpointing && Reached(saved) == i <= |Asked(run)|
    ensures var reached := Reached(RunFrom(run, i, records, saved).1);
      && i <= reached <= |Asked(run)| && (forall j :: i <= j < reached ==> Passes(run, j))
      && (reached < |Asked(run)| ==> !Passes(run, reached))
    decreases |Asked(run)| - i
  {
    if i < |Asked(run)| && Passes(run, i) {
      var grown := records + Outcome(run.tries(i), 0, MAX_RETRIES).records;
      CheckpointStandsWhereTheRunStopped(run, i + 1, grown, Some(Checkpoint(i + 1, grown)));
    }
  }

  ghost predicate SameFrom(i: nat, a: Run, b: Run) {
    && a.checkpointing == b.checkpointing && |Asked(a)| == |Asked(b)|
    && forall j: nat :: j >= i ==> a.tries(j) == b.tries(j) && a.dies(j) == b.dies(j)
  }

  /** A resumed run asks for no parameter set its checkpoint holds: what they are, what would be answered,
      or would happen, there makes no difference. */
  lemma {:induction false} NothingIsFetchedAgain(a: Run, b: Run, i: nat,
                                                 records: seq<Record>, saved: Option<Checkpoint>)
    requires SameFrom(i, a, b)
    ensures RunFrom(a, i, records, saved) == RunFrom(b, i, records, saved)
    decreases |Asked(a)| - i
  {
    if i < |Asked(a)| && Passes(a, i) {
      var grown := records + Outcome(a.tries(i), 0, MAX_RETRIES).records;
      NothingIsFetchedAgain(a, b, i + 1, grown, Saved(a, i + 1, grown, saved));
    }
  }

  // ----- a checkpoint of other requests

  /** The requests from `i` on. */
  function Beyond(requests: seq<Request>, i: nat): seq<Request> {
    if i < |requests| then requests[i..] else []
  }

  lemma LastAnswer(answers: Request -> seq<Record>, requests: seq<Request>, init: seq<Request>, last: Request)
    requires requests == init + [last]
    ensures AnswersTo(answers, requests) == AnswersTo(answers, init) + answers(last)
  {
    assert requests[..|requests| - 1] == init;
  }

  lemma {:induction false} AnswersConcatenate(answers: Request -> seq<Record>, a: seq<Request>, b: seq<Request>)
    ensures AnswersTo(answers, a + b) == AnswersTo(answers, a) + AnswersTo(answers, b)
  {
    if b == [] {
      assert a + b == a;
    } else {
      var init, last := b[..|b| - 1], b[|b| - 1];
      AnswersConcatenate(answers, a, init);
      LastAnswer(answers, a + b, a + init, last);
      OneAfterAnother(AnswersTo(answers, a), AnswersTo(answers, init), answers(last));
    }
  }

  lemma {:induction false} CompletedAppends(answers: Request -> seq<Record>, run: Run, i: nat,
                                            records: seq<Record>, saved: Option<Checkpoint>)
    requires AnswersAlike(answers, run) && RunFrom(run, i, records, saved).0.Completed?
    ensures RunFrom(run, i, records, saved).0.records == records + AnswersTo(answers, Beyond(Asked(run), i))
    decreases |Asked(run)| - i
  {
    if i < |Asked(run)| {
      GoesOn(answers, run, i, records, saved);
      var answer, rest := answers(Asked(run)[i]), AnswersTo(answers, Beyond(Asked(run), i + 1));
      CompletedAppends(answers, run, i + 1, records + answer, Saved(run, i + 1, records + answer, saved));
      FirstBeyond(answers, Asked(run), i);
      OneAfterAnother(records, answer, rest);
    }
  }

  lemma OneAfterAnother(x: seq<Record>, y: seq<Record>, z: seq<Record>)
    ensures (x + y) + z == x + (y + z)
  {
  }

  /** A run that completes goes on with the answer to its next parameter set. */
  lemma GoesOn(answers: Request -> seq<Record>, run: Run, i: nat, records: seq<Record>, saved: Option<Checkpoint>)
    requires AnswersAlike(answers, run) && i < |Asked(run)| && RunFrom(run, i, records, saved).0.Completed?
    ensures var grown := records + answers(Asked(run)[i]);
      RunFrom(run, i, records, saved) == RunFrom(run, i + 1, grown, Saved(run, i + 1, grown, saved))
  {
    FetchedIsTheAnswer(answers, run, i, 0);
  }

  lemma FirstBeyond(answers: Request -> seq<Record>, requests: seq<Request>, i: nat)
    requires i < |requests|
    ensures AnswersTo(answers, Beyond(requests, i))
         == answers(requests[i]) + AnswersTo(answers, Beyond(requests, i + 1))
  {
    var first, rest := [requests[i]], Beyond(requests, i + 1);
    assert Beyond(requests, i) == first + rest;
    AnswersConcatenate(answers, first, rest);
    assert first[..0] == [] && AnswersTo(answers, first) == answers(requests[i]);
  }

  /** The checkpoint that a run of `written` leaves after its first `n` parameter sets. */
  function Left(answers: Request -> seq<Record>, written: Config, n: nat): Option<Checkpoint>
    requires n <= |written.params|
  {
    Some(Checkpoint(n, AnswersTo(answers, Requests(written)[..n])))
  }

  /** The first `n` requests of `written` are the first `n` of `resuming`: the same dataset, listed the
      same way, if there is any request at all, and the same parameter sets. */
  predicate Fits(written: Config, n: nat, resuming: Config)
    requires n <= |written.params|
  {
    && n <= |resuming.params| && written.params[..n] == resuming.params[..n]
    && (n > 0 ==> written.dataset == resuming.dataset && written.listAll == resuming.listAll)
  }

  lemma FitsMeansSameRequests(written: Config, n: nat, resuming: Config)
    requires n <= |written.params|
    ensures Fits(written, n, resuming) <==>
            n <= |resuming.params| && Requests(written)[..n] == Requests(resuming)[..n]
  {
    if n <= |resuming.params| {
      var asked, asking := Requests(written)[..n], Requests(resuming)[..n];
      assert forall i :: 0 <= i < n ==>
        asked[i] == Request(written.dataset, written.listAll, written.params[..n][i]);
      assert forall i :: 0 <= i < n ==>
        asking[i] == Request(resuming.dataset, resuming.listAll, resuming.params[..n][i]);
      if asked == asking {
        assert forall i :: 0 <= i < n ==> asked[i] == asking[i] && written.params[..n][i] == resuming.params[..n][i];
        assert n > 0 ==> asked[0] == asking[0];
      }
    }
  }

  /** The run is one that resumes as configured and completes from this checkpoint. */
  ghost predicate Resumes(answers: Request -> seq<Record>, written: Config, n: nat, resuming: Config, run: Run)
    requires n <= |written.params|
  {
    && run.config == resuming && run.resume && run.checkpointing && AnswersAlike(answers, run)
    && WholeRun(run, Left(answers, written, n)).0.Completed?
  }

  /** What is in the list of a resumed run: the first `n` requests of one configuration, then those of
      the other from there on. */
  function Mixed(written: Config, n: nat, resuming: Config): seq<Request>
    requires n <= |written.params|
  {
    Requests(written)[..n] + Beyond(Requests(resuming), n)
  }

  /** What such a run returns: the answers to what was asked before the checkpoint, then to what it asks
      itself. */
  lemma ResumedList(answers: Request -> seq<Record>, written: Config, n: nat, resuming: Config, run: Run)
    requires n <= |written.params| && Resumes(answers, written, n, resuming, run)
    ensures WholeRun(run, Left(answers, written, n)).0.records == AnswersTo(answers, Mixed(written, n, resuming))
  {
    var before := Requests(written)[..n];
    CompletedAppends(answers, run, n, AnswersTo(answers, before), Left(answers, written, n));
    AnswersConcatenate(answers, before, Beyond(Requests(resuming), n));
  }

  /** A run that nothing disturbs. */
  function SmoothRun(answers: Request -> seq<Record>, config: Config): Run {
    var requests := Requests(config);
    Run(config, true, true,
        (i: nat) => (attempt: nat) => Attempt([if i < |requests| then answers(requests[i]) else []], None),
        (i: nat) => Lives)
  }

  lemma SmoothRunCompletes(answers: Request -> seq<Record>, config: Config, saved: Option<Checkpoint>)
    ensures AnswersAlike(answers, SmoothRun(answers, config))
    ensures WholeRun(SmoothRun(answers, config), saved).0.Completed?
  {
    var run := SmoothRun(answers, config);
    forall i: nat, k: nat | i < |Asked(run)| ensures Concat(run.tries(i)(k).batches) == answers(Asked(run)[i]) {
      assert run.tries(i)(k).batches[1..] == [];
    }
    CompletesExactlyWhen(run, Origin(run, saved).nextIndex, Origin(run, saved).records, saved);
  }

  /** A service whose answer tells the request. */
  function Echo(): Request -> seq<Record> {
    (r: Request) => [r.dataset, if r.listAll then "all" else "one", r.params]
  }

  /** Different lists of requests are answered differently. */
  lemma {:induction false} EchoTells(a: seq<Request>, b: seq<Request>)
    ensures |AnswersTo(Echo(), a)| == 3 * |a|
    ensures AnswersTo(Echo(), a) == AnswersTo(Echo(), b) ==> a == b
  {
    EchoIsLong(a);
    EchoIsLong(b);
    if AnswersTo(Echo(), a) == AnswersTo(Echo(), b) && a != [] {
      var x, y := a[|a| - 1], b[|b| - 1];
      EchoTells(a[..|a| - 1], b[..|b| - 1]);
      LastThree(AnswersTo(Echo(), a[..|a| - 1]), Echo()(x), AnswersTo(Echo(), b[..|b| - 1]), Echo()(y));
      assert Echo()(x)[0] == Echo()(y)[0] && Echo()(x)[1] == Echo()(y)[1] && Echo()(x)[2] == Echo()(y)[2];
      assert "all"[0] != "one"[0];
      assert a == a[..|a| - 1] + [x] && b == b[..|b| - 1] + [y];
    }
  }

  lemma {:induction false} EchoIsLong(requests: seq<Request>)
    ensures |AnswersTo(Echo(), requests)| == 3 * |requests|
  {
    if requests != [] {
      EchoIsLong(requests[..|requests| - 1]);
    }
  }

  lemma LastThree(a: seq<Record>, x: seq<Record>, b: seq<Record>, y: seq<Record>)
    requires |x| == |y| && a + x == b + y
    ensures a == b && x == y
  {
    assert |a| == |b|;
    assert a == (a + x)[..|a|] && x == (a + x)[|a|..];
  }

  /** The resumed run is right. */
  ghost predicate RightResume(answers: Request -> seq<Record>, written: Config, n: nat, resuming: Config, run: Run)
    requires n <= |written.params|
  {
    Resumes(answers, written, n, resuming, run) ==>
      WholeRun(run, Left(answers, written, n)).0 == Completed(AnswersTo(answers, Requests(resuming)))
  }

  /** A checkpoint does not say what it was written for. Whatever the service answers and whatever the run
      meets, resuming from a checkpoint of the first `n` parameter sets of `written` is right exactly when
      `resuming` begins with the same requests. */
  lemma ResumeIsRightExactlyWhen(written: Config, n: nat, resuming: Config)
    requires n <= |written.params|
    ensures Fits(written, n, resuming) <==>
            forall answers: Request -> seq<Record>, run: Run :: RightResume(answers, written, n, resuming, run)
  {
    FitsMeansSameRequests(written, n, resuming);
    if Fits(written, n, resuming) {
      forall answers: Request -> seq<Record>, run: Run ensures RightResume(answers, written, n, resuming, run) {
        if Resumes(answers, written, n, resuming, run) {
          ResumedList(answers, written, n, resuming, run);
          assert Mixed(written, n, resuming) == Requests(resuming);
        }
      }
    } else {
      UnfitResumeIsWrong(written, n, resuming);
    }
  }

  /** Otherwise some service gives a wrong list: the one whose answer tells the request. */
  lemma UnfitResumeIsWrong(written: Config, n: nat, resuming: Config)
    requires n <= |written.params| && !Fits(written, n, resuming)
    ensures !RightResume(Echo(), written, n, resuming, SmoothRun(Echo(), resuming))
  {
    var run := SmoothRun(Echo(), resuming);
    SmoothRunCompletes(Echo(), resuming, Left(Echo(), written, n));
    ResumedList(Echo(), written, n, resuming, run);
    FitsMeansSameRequests(written, n, resuming);
    assert Mixed(written, n, resuming)[..n] == Requests(written)[..n];
    EchoTells(Mixed(written, n, resuming), Requests(resuming));
  }

  // ----- a run of one configuration, then a run of another one that resumes

  /** The second run returns what the first one fetched, which is not what it was asked for. */
  lemma ResumedWithOtherConfig(first: Config, second: Config)
    requires |first.params| == |second.params| == 1 && first != second
    ensures var runs := [SmoothRun(Echo(), first)];
      && WholeRun(SmoothRun(Echo(), second), After(runs)).0 == Completed(AnswersTo(Echo(), Requests(first)))
      && WholeRun(SmoothRun(Echo(), second), None).0 == Completed(AnswersTo(Echo(), Requests(second)))
      && AnswersTo(Echo(), Requests(first)) != AnswersTo(Echo(), Requests(second))
  {
    var runs, run := [SmoothRun(Echo(), first)], SmoothRun(Echo(), second);
    SmoothRunSaves(first);
    assert runs[..0] == [];
    var found := AnswersTo(Echo(), Requests(first));
    SmoothRunCompletes(Echo(), second, After(runs));
    CompletedAppends(Echo(), run, 1, found, After(runs));
    assert found + AnswersTo(Echo(), Beyond(Asked(run), 1)) == found;
    SmoothRunCompletes(Echo(), second, None);
    RunIsSound(Echo(), run, None);
    assert Requests(first)[0] != Requests(second)[0];
    EchoTells(Requests(first), Requests(second));
  }

  lemma SmoothRunSaves(config: Config)
    requires |config.params| == 1
    ensures WholeRun(SmoothRun(Echo(), config), None).1 == Some(Checkpoint(1, AnswersTo(Echo(), Requests(config))))
  {
    var run := SmoothRun(Echo(), config);
    SmoothRunCompletes(Echo(), config, None);
    RunIsSound(Echo(), run, None);
    CheckpointStandsWhereTheRunStopped(run, 0, [], None);
    assert Requests(config)[..1] == Requests(config);
  }

  /** Other parameters; the same parameters of another dataset; the same request, listed in another way. */
  lemma ResumedWithOtherParameters()
    ensures var a, b := Config("p.bakery", false, ["{year: 2023}"]), Config("p.bakery", false, ["{year: 2024}"]);
      WholeRun(SmoothRun(Echo(), b), After([SmoothRun(Echo(), a)])).0 != WholeRun(SmoothRun(Echo(), b), None).0
    ensures var a, b := Config("p.bakery", false, ["{}"]), Config("p.clinic", false, ["{}"]);
      WholeRun(SmoothRun(Echo(), b), After([SmoothRun(Echo(), a)])).0 != WholeRun(SmoothRun(Echo(), b), None).0
    ensures var a, b := Config("p.bakery", false, ["{}"]), Config("p.bakery", true, ["{}"]);
      WholeRun(SmoothRun(Echo(), b), After([SmoothRun(Echo(), a)])).0 != WholeRun(SmoothRun(Echo(), b), None).0
  {
    assert "{year: 2023}"[10] != "{year: 2024}"[10] && "p.bakery"[2] != "p.clinic"[2];
    ResumedWithOtherConfig(Config("p.bakery", false, ["{year: 2023}"]), Config("p.bakery", false, ["{year: 2024}"]));
    ResumedWithOtherConfig(Config("p.bakery", false, ["{}"]), Config("p.clinic", false, ["{}"]));
    ResumedWithOtherConfig(Config("p.bakery", false, ["{}"]), Config("p.bakery", true, ["{}"]));
  }
}
