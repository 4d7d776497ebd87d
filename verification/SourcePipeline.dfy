/**
 One source through Bronze, Silver, Gold and export, and the events it leaves behind.

 What the stages do is not modelled, only where they end: a step finishes or raises, and at a safe
 boundary cancellation may have been requested. `Course` says which, for one execution. The recorder is
 shared: between any two events of a source, the others may record theirs.
 */
module SourcePipeline {
  import opened Basics

  datatype Stage = Bronze | Silver | Gold | Export

  datatype Event =
    | FetchStarted
    | FetchProgress(done: nat, total: nat)
    | FetchCompleted
    | FetchFailed
    | StageStarted(stage: Stage)
    | StageCompleted(stage: Stage)
    | StageFailed(stage: Stage)
    | QualityEvaluated

  /** An event with the source it is about. */
  datatype Recorded = Recorded(source: string, event: Event)

  // ----- the recorder

  /** `BuildEventRecorder`, with the store it writes to; all sources of a build share it. Appending may
      fail: `fails(n)` says whether the n-th append of this run does. */
  class Recorder {
    const hasStore: bool
    const fails: nat -> bool
    var store: seq<Recorded>
    var dropped: seq<Recorded>
    ghost var attempted: seq<Recorded>

    /** Every event is in the store or among the dropped ones, in order. */
    ghost predicate Valid()
      reads this
    {
      && (hasStore ==> store == Kept(attempted, fails) && dropped == Lost(attempted, fails))
      && (hasStore ==> |store| + |dropped| == |attempted|)
      && (!hasStore ==> store == [] && dropped == [])
    }

    constructor (hasStore: bool, fails: nat -> bool)
      ensures Valid() && attempted == [] && this.hasStore == hasStore && this.fails == fails
    {
      this.hasStore, this.fails := hasStore, fails;
      store, dropped, attempted := [], [], [];
    }

    /** `_record`: never raises, whatever the store does. */
    method Record(e: Recorded)
      requires Valid()
      modifies this
      ensures Valid() && attempted == old(attempted) + [e]
    {
      attempted := attempted + [e];
      assert attempted[..|attempted| - 1] == old(attempted);
      if !hasStore {
        return;
      }
      if fails(|store| + |dropped|) {
        dropped := dropped + [e];
      } else {
        store := store + [e];
      }
    }
  }

  function Kept(events: seq<Recorded>, fails: nat -> bool): seq<Recorded> {
    if events == [] then []
    else
      var n := |events| - 1;
      Kept(events[..n], fails) + (if fails(n) then [] else [events[n]])
  }

  function Lost(events: seq<Recorded>, fails: nat -> bool): seq<Recorded> {
    if events == [] then []
    else
      var n := |events| - 1;
      Lost(events[..n], fails) + (if fails(n) then [events[n]] else [])
  }

  lemma LastAppend(events: seq<Recorded>, fails: nat -> bool, init: seq<Recorded>, last: Recorded)
    requires events == init + [last]
    ensures !fails(|init|) ==>
              Kept(events, fails) == Kept(init, fails) + [last] && Lost(events, fails) == Lost(init, fails)
    ensures fails(|init|) ==>
              Kept(events, fails) == Kept(init, fails) && Lost(events, fails) == Lost(init, fails) + [last]
  {
    assert events[..|events| - 1] == init;
  }

  /** An append that fails changes nothing but where its event is kept. */
  lemma {:induction false} NothingIsLost(events: seq<Recorded>, fails: nat -> bool)
    ensures multiset(Kept(events, fails)) + multiset(Lost(events, fails)) == multiset(events)
  {
    if events != [] {
      var init, last := events[..|events| - 1], events[|events| - 1];
      NothingIsLost(init, fails);
      OneMoreIsNotLost(events, fails, init, last);
    }
  }

  lemma OneMoreIsNotLost(events: seq<Recorded>, fails: nat -> bool, init: seq<Recorded>, last: Recorded)
    requires events == init + [last]
    requires multiset(Kept(init, fails)) + multiset(Lost(init, fails)) == multiset(init)
    ensures multiset(Kept(events, fails)) + multiset(Lost(events, fails)) == multiset(events)
  {
    LastAppend(events, fails, init, last);
    if fails(|init|) {
      AddedToLost(Kept(init, fails), Lost(init, fails), init, last);
    } else {
      AddedToKept(Kept(init, fails), Lost(init, fails), init, last);
    }
  }

  lemma AddedToKept(kept: seq<Recorded>, lost: seq<Recorded>, all: seq<Recorded>, e: Recorded)
    requires multiset(kept) + multiset(lost) == multiset(all)
    ensures multiset(kept + [e]) + multiset(lost) == multiset(all + [e])
  {
  }

  lemma AddedToLost(kept: seq<Recorded>, lost: seq<Recorded>, all: seq<Recorded>, e: Recorded)
    requires multiset(kept) + multiset(lost) == multiset(all)
    ensures multiset(kept) + multiset(lost + [e]) == multiset(all + [e])
  {
  }

  lemma {:induction false} NothingIsDropped(events: seq<Recorded>, fails: nat -> bool)
    requires forall n: nat :: n < |events| ==> !fails(n)
    ensures Kept(events, fails) == events && Lost(events, fails) == []
  {
    if events != [] {
      var init, last := events[..|events| - 1], events[|events| - 1];
      NothingIsDropped(init, fails);
      LastAppend(events, fails, init, last);
    }
  }

  /** The events of one source, in the order they were recorded in. */
  function Of(key: string, recorded: seq<Recorded>): seq<Event> {
    if recorded == [] then []
    else
      var last := recorded[|recorded| - 1];
      Of(key, recorded[..|recorded| - 1]) + (if last.source == key then [last.event] else [])
  }

  lemma OfOneMore(key: string, recorded: seq<Recorded>, e: Recorded)
    ensures e.source == key ==> Of(key, recorded + [e]) == Of(key, recorded) + [e.event]
    ensures e.source != key ==> Of(key, recorded + [e]) == Of(key, recorded)
  {
    assert (recorded + [e])[..|recorded|] == recorded;
  }

  // ----- what an execution meets

  /** The steps that can raise, in order. */
  datatype Step =
    | PrepareFetch | FetchEnd | PersistBronze | BuildProvenance
    | BuildSilver | EvaluateQuality | PassGates | PersistSilver | CaptureSilver
    | BuildGold | PersistGold
    | ExportGold | WriteCard | SummarizeSchema

  /** One execution: which steps raise, at which boundaries cancellation is seen, and the same for
      the combinations of a fetch. */
  datatype Course = Course(
    raises: Step -> bool,
    error: string,
    cancelled: nat -> bool,
    combinations: nat,
    cancelledAfter: nat -> bool,
    raisesBefore: nat -> bool)

  datatype Status = Succeeded | Failed | Cancelled

  datatype SourceOutcome = SourceOutcome(status: Status, completed: seq<Stage>, error: Option<string>)

  const MEDALLION: seq<Stage> := [Bronze, Silver, Gold]

  // ----- what the events say

  function Completions(events: seq<Event>): seq<Stage> {
    if events == [] then []
    else
      var n := |events| - 1;
      Completions(events[..n]) + (if events[n].StageCompleted? then [events[n].stage] else [])
  }

  function Starts(events: seq<Event>): seq<Stage> {
    if events == [] then []
    else
      var n := |events| - 1;
      Starts(events[..n]) + (if events[n].StageStarted? then [events[n].stage] else [])
  }

  function Failures(events: seq<Event>): seq<Stage> {
    if events == [] then []
    else
      var n := |events| - 1;
      Failures(events[..n]) + (if events[n].StageFailed? then [events[n].stage] else [])
  }

  lemma EventsOneMore(events: seq<Event>, e: Event)
    ensures Completions(events + [e]) == Completions(events) + (if e.StageCompleted? then [e.stage] else [])
    ensures Starts(events + [e]) == Starts(events) + (if e.StageStarted? then [e.stage] else [])
    ensures Failures(events + [e]) == Failures(events) + (if e.StageFailed? then [e.stage] else [])
  {
    assert (events + [e])[..|events|] == events;
  }

  /** A fetch that did not end has failed. */
  lemma FetchTold(told: seq<Event>, fetched: bool)
    requires FetchFailed !in told && (fetched <==> FetchCompleted in told)
    ensures var events := told + FailureTold(0, fetched); FetchFailed in events <==> FetchCompleted !in events
  {
    var more := FailureTold(0, fetched);
    if fetched {
      assert more == [StageFailed(Bronze)];
    } else {
      assert more == [FetchFailed, StageFailed(Bronze)] && more[0] in more;
      assert (told + more)[|told|] == FetchFailed;
    }
  }

  lemma OneMoreAfter(events: seq<Event>, more: seq<Event>, e: Event)
    ensures (events + more) + [e] == events + (more + [e])
  {
  }

  /** The stage after the ones that completed; export is not in the list of them. */
  function NextStage(completed: seq<Stage>): Stage
    requires completed <= MEDALLION
  {
    if |completed| == 3 then Export else MEDALLION[|completed|]
  }

  lemma WhichComplete(n: nat)
    requires n <= 3
    ensures Bronze in MEDALLION[..n] <==> n > 0
    ensures Silver in MEDALLION[..n] <==> n > 1
    ensures Gold in MEDALLION[..n] <==> n > 2
  {
    assert n > 0 ==> MEDALLION[..n][0] == Bronze;
    assert n > 1 ==> MEDALLION[..n][1] == Silver;
    assert n > 2 ==> MEDALLION[..n][2] == Gold;
  }

  /** A source's events, given how it ended, and whether it failed after its export was complete. */
  ghost predicate EventsMatch(events: seq<Event>, o: SourceOutcome, afterExport: bool) {
    && o.completed <= MEDALLION
    && match o.status
       case Succeeded =>
         && o.completed == MEDALLION && o.error == None
         && Completions(events) == Starts(events) == MEDALLION + [Export]
         && Failures(events) == [] && FetchFailed !in events
       case Failed =>
         && o.error.Some?
         && (if afterExport then o.completed == MEDALLION && Completions(events) == MEDALLION + [Export]
             else Completions(events) == o.completed)
         && Failures(events) == [NextStage(o.completed)]
         && (Starts(events) == o.completed || Starts(events) == o.completed + [NextStage(o.completed)])
         && (FetchFailed in events <==> FetchCompleted !in events)
         && (FetchFailed in events ==> o.completed == [])
       case Cancelled =>
         && o.error == None
         && Completions(events) == o.completed
         && Failures(events) == [] && FetchFailed !in events
         // The only stage that can be left begun is a fetch of several combinations.
         && (Starts(events) == o.completed
             || (o.completed == [] && Starts(events) == [Bronze] && FetchCompleted !in events))
  }

  // ----- the agenda

  /** What an execution goes through, one after the other: a safe boundary, a step, a combination of the
      fetch, or the boundary after one. */
  datatype Entry = Boundary(n: nat) | Does(step: Step) | Combination(k: nat) | AfterCombination(k: nat)

  const TO_FETCH: seq<Entry> := [Boundary(0), Does(PrepareFetch)]

  const FROM_FETCH: seq<Entry> := [
    Does(FetchEnd), Does(PersistBronze), Does(BuildProvenance),
    Boundary(1), Does(BuildSilver), Does(EvaluateQuality), Does(PassGates), Does(PersistSilver), Does(CaptureSilver),
    Boundary(2), Does(BuildGold), Does(PersistGold),
    Boundary(3), Does(ExportGold), Does(WriteCard), Does(SummarizeSchema)]

  /** The combinations from the `k`-th on; there is no boundary after the last. */
  function Combinations(k: nat, total: nat): seq<Entry>
    decreases total - k
  {
    if k >= total then []
    else [Combination(k)] + (if k + 1 < total then [AfterCombination(k + 1)] else []) + Combinations(k + 1, total)
  }

  function Agenda(c: Course): seq<Entry> {
    TO_FETCH + Combinations(0, c.combinations) + FROM_FETCH
  }

  predicate IsBoundary(e: Entry) {
    e.Boundary? || e.AfterCombination?
  }

  /** The execution does not get past the entry: it is cancelled at a boundary, or raises in a step. */
  predicate Stops(c: Course, e: Entry) {
    match e
    case Boundary(n) => c.cancelled(n)
    case Does(step) => c.raises(step)
    case Combination(k) => c.raisesBefore(k)
    case AfterCombination(k) => c.cancelledAfter(k)
  }

  /** The first `n` entries are passed; the next one, if there is one, stops the execution. */
  ghost predicate PassesJust(c: Course, n: int) {
    && 0 <= n <= |Agenda(c)|
    && (forall i :: 0 <= i < n ==> !Stops(c, Agenda(c)[i]))
    && (n < |Agenda(c)| ==> Stops(c, Agenda(c)[n]))
  }

  predicate Persists(e: Entry) {
    e == Does(PersistBronze) || e == Does(PersistSilver) || e == Does(PersistGold)
  }

  /** How many of the first `n` entries write a stage. */
  function Persisted(writes: Entry -> bool, agenda: seq<Entry>, n: nat): nat
    requires n <= |agenda|
  {
    if n == 0 then 0 else Persisted(writes, agenda, n - 1) + (if writes(agenda[n - 1]) then 1 else 0)
  }

  predicate FetchEnded(agenda: seq<Entry>, n: nat)
    requires n <= |agenda|
  {
    n > 0 && (agenda[n - 1] == Does(FetchEnd) || FetchEnded(agenda, n - 1))
  }

  predicate NoneStops(stops: Entry -> bool, agenda: seq<Entry>, n: nat)
    requires n <= |agenda|
  {
    n > 0 ==> !stops(agenda[n - 1]) && NoneStops(stops, agenda, n - 1)
  }

  /** The events of an entry that is passed. */
  function Tells(c: Course, e: Entry): seq<Event> {
    match e
    case Boundary(n) =>
      if n == 0 then [StageStarted(Bronze), FetchStarted]
      else if n == 1 then [StageStarted(Silver)]
      else if n == 2 then [StageStarted(Gold)]
      else [StageStarted(Export)]
    case Combination(k) => [FetchProgress(k + 1, c.combinations)]
    case AfterCombination(_) => []
    case Does(FetchEnd) => [FetchCompleted]
    case Does(PersistBronze) => [StageCompleted(Bronze)]
    case Does(EvaluateQuality) => [QualityEvaluated]
    case Does(PersistSilver) => [StageCompleted(Silver)]
    case Does(PersistGold) => [StageCompleted(Gold)]
    case Does(WriteCard) => [StageCompleted(Export)]
    case Does(_) => []
  }

  /** The events of the first `n` entries. */
  function Told(tells: Entry -> seq<Event>, agenda: seq<Entry>, n: nat): seq<Event>
    requires n <= |agenda|
  {
    if n == 0 then [] else Told(tells, agenda, n - 1) + tells(agenda[n - 1])
  }

  function Teller(c: Course): Entry -> seq<Event> {
    (e: Entry) => Tells(c, e)
  }

  function Stopper(c: Course): Entry -> bool {
    (e: Entry) => Stops(c, e)
  }

  /** The events of a failure after so many stages are written; the fetch failed unless it ended. */
  function FailureTold(persisted: nat, fetched: bool): seq<Event> {
    if persisted == 0 then (if fetched then [] else [FetchFailed]) + [StageFailed(Bronze)]
    else if persisted == 1 then [StageFailed(Silver)]
    else if persisted == 2 then [StageFailed(Gold)]
    else [StageFailed(Export)]
  }

  /** How an execution ends that passes the first `n` entries of its agenda, and its events. */
  ghost predicate EndsAfter(c: Course, n: int, o: SourceOutcome, events: seq<Event>) {
    var agenda := Agenda(c);
    && PassesJust(c, n)
    && var persisted, told := Persisted(Persists, agenda, n), Told(Teller(c), agenda, n);
       && persisted <= 3 && o.completed == MEDALLION[..persisted]
       && if n == |agenda| then
            o.status == Succeeded && o.error == None && events == told
          else if IsBoundary(agenda[n]) then
            o.status == Cancelled && o.error == None && events == told
          else
            && o.status == Failed && o.error == Some(c.error)
            && events == told + FailureTold(persisted, FetchEnded(agenda, n))
  }

  /** The signal fits the entry the execution gets to. */
  ghost predicate IsEnd(c: Course, n: nat, signal: Signal) {
    var agenda := Agenda(c);
    if n >= |agenda| then signal == Done
    else signal == if IsBoundary(agenda[n]) then Stopped else Raised
  }

  lemma EndsThere(c: Course, n: nat, signal: Signal, told: seq<Event>, persisted: nat, fetched: bool,
                  o: SourceOutcome, events: seq<Event>)
    requires PassesJust(c, n) && IsEnd(c, n, signal)
    requires told == Told(Teller(c), Agenda(c), n) && persisted == Persisted(Persists, Agenda(c), n)
    requires fetched == FetchEnded(Agenda(c), n) && persisted <= 3 && o.completed == MEDALLION[..persisted]
    requires o.status == match signal case Done => Succeeded case Stopped => Cancelled case Raised => Failed
    requires o.error == if signal == Raised then Some(c.error) else None
    requires events == told + if signal == Raised then FailureTold(persisted, fetched) else []
    ensures EndsAfter(c, n, o, events)
  {
    assert told + [] == told;
  }

  lemma {:induction false} NoneStopsBefore(c: Course, agenda: seq<Entry>, n: nat)
    requires n <= |agenda| && NoneStops(Stopper(c), agenda, n)
    ensures forall i :: 0 <= i < n ==> !Stops(c, agenda[i])
  {
    if n > 0 {
      NoneStopsBefore(c, agenda, n - 1);
    }
  }

  /** Where the end of the fetch stands on the agenda. */
  function FetchEndAt(c: Course): nat {
    if c.combinations == 0 then 2 else 2 * c.combinations + 1
  }

  /** Marks of the entry and the place at hand: only of those is what follows used. */
  predicate Met(e: Entry) {
    true
  }

  predicate At(n: int) {
    true
  }

  /** What stands where. */
  ghost predicate IsAgenda(agenda: seq<Entry>, end: nat) {
    && 2 <= end && |agenda| == end + 16
    && agenda[0] == Boundary(0) && agenda[1] == Does(PrepareFetch)
    && agenda[end] == Does(FetchEnd) && agenda[end + 1] == Does(PersistBronze)
    && agenda[end + 2] == Does(BuildProvenance) && agenda[end + 3] == Boundary(1)
    && agenda[end + 4] == Does(BuildSilver) && agenda[end + 5] == Does(EvaluateQuality)
    && agenda[end + 6] == Does(PassGates) && agenda[end + 7] == Does(PersistSilver)
    && agenda[end + 8] == Does(CaptureSilver) && agenda[end + 9] == Boundary(2)
    && agenda[end + 10] == Does(BuildGold) && agenda[end + 11] == Does(PersistGold)
    && agenda[end + 12] == Boundary(3) && agenda[end + 13] == Does(ExportGold)
    && agenda[end + 14] == Does(WriteCard) && agenda[end + 15] == Does(SummarizeSchema)
  }

  ghost predicate ListsFetch(c: Course, agenda: seq<Entry>, end: nat) {
    && end == FetchEndAt(c) <= |agenda|
    && (forall k: nat :: k < c.combinations ==> agenda[2 * k + 2] == Combination(k))
    && (forall k: nat :: 0 < k < c.combinations ==> agenda[2 * k + 1] == AfterCombination(k))
  }

  lemma {:induction false} CombinationsLength(k: nat, total: nat)
    ensures |Combinations(k, total)| == if k < total then 2 * (total - k) - 1 else 0
    decreases total - k
  {
    if k < total {
      CombinationsLength(k + 1, total);
    }
  }

  lemma {:induction false} CombinationAt(k: nat, total: nat, i: nat)
    requires i < |Combinations(k, total)|
    ensures Combinations(k, total)[i]
         == if i % 2 == 0 then Combination(k + i / 2) else AfterCombination(k + (i + 1) / 2)
    decreases i
  {
    if i >= 2 {
      var rest := Combinations(k + 1, total);
      assert Combinations(k, total) == [Combination(k), AfterCombination(k + 1)] + rest;
      CombinationAt(k + 1, total, i - 2);
    }
  }

  lemma AgendaIsAgenda(c: Course)
    ensures IsAgenda(Agenda(c), FetchEndAt(c)) && ListsFetch(c, Agenda(c), FetchEndAt(c))
  {
    CombinationsLength(0, c.combinations);
    IsAgendaAfter(Combinations(0, c.combinations));
    ListsFetchBetween(c, TO_FETCH, FROM_FETCH);
  }

  lemma ListsFetchBetween(c: Course, before: seq<Entry>, after: seq<Entry>)
    requires |before| == 2
    ensures ListsFetch(c, before + Combinations(0, c.combinations) + after, FetchEndAt(c))
  {
    var fetch := Combinations(0, c.combinations);
    var agenda := before + fetch + after;
    CombinationsLength(0, c.combinations);
    ThreeParts(before, fetch, after);
    forall k: nat | k < c.combinations ensures agenda[2 * k + 2] == Combination(k) {
      CombinationAt(0, c.combinations, 2 * k);
    }
    forall k: nat | 0 < k < c.combinations ensures agenda[2 * k + 1] == AfterCombination(k) {
      CombinationAt(0, c.combinations, 2 * k - 1);
    }
  }

  lemma IsAgendaAfter(fetch: seq<Entry>)
    ensures IsAgenda(TO_FETCH + fetch + FROM_FETCH, 2 + |fetch|)
  {
  }

  lemma ThreeParts(a: seq<Entry>, b: seq<Entry>, c: seq<Entry>)
    ensures forall i :: 0 <= i < |a| ==> (a + b + c)[i] == a[i]
    ensures forall i :: |a| <= i < |a| + |b| ==> (a + b + c)[i] == b[i - |a|]
    ensures forall i :: |a| + |b| <= i < |a| + |b| + |c| ==> (a + b + c)[i] == c[i - |a| - |b|]
  {
  }

  // ----- where an execution ends

  datatype Signal = Done | Stopped | Raised

  /** How the fetch of the combinations from `done` on ends; the last one is no boundary. */
  function Fetching(c: Course, done: nat): Signal
    decreases c.combinations - done
  {
    if done >= c.combinations then Done
    else if c.raisesBefore(done) then Raised
    else if done + 1 < c.combinations && c.cancelledAfter(done + 1) then Stopped
    else Fetching(c, done + 1)
  }

  function ToBronze(c: Course): Signal {
    if c.cancelled(0) then Stopped
    else if c.raises(PrepareFetch) then Raised
    else if Fetching(c, 0) != Done then Fetching(c, 0)
    else if c.raises(FetchEnd) || c.raises(PersistBronze) then Raised
    else Done
  }

  function ToSilver(c: Course): Signal {
    if c.raises(BuildProvenance) then Raised
    else if c.cancelled(1) then Stopped
    else if c.raises(BuildSilver) || c.raises(EvaluateQuality) then Raised
    else if c.raises(PassGates) || c.raises(PersistSilver) then Raised
    else Done
  }

  function ToGold(c: Course): Signal {
    if c.raises(CaptureSilver) then Raised
    else if c.cancelled(2) then Stopped
    else if c.raises(BuildGold) || c.raises(PersistGold) then Raised
    else Done
  }

  function ToExport(c: Course): Signal {
    if c.cancelled(3) then Stopped
    else if c.raises(ExportGold) || c.raises(WriteCard) || c.raises(SummarizeSchema) then Raised
    else Done
  }

  datatype End = End(signal: Signal, stages: nat)

  /** Where the source ends: it goes as far as its stages let it. */
  function EndOf(c: Course): (e: End)
    ensures e.stages <= 3
  {
    if ToBronze(c) != Done then End(ToBronze(c), 0)
    else if ToSilver(c) != Done then End(ToSilver(c), 1)
    else if ToGold(c) != Done then End(ToGold(c), 2)
    else End(ToExport(c), 3)
  }

  /** The source failed, but after its export was complete. */
  predicate FailsAfterExport(c: Course) {
    && EndOf(c) == End(Raised, 3) && !c.raises(ExportGold) && !c.raises(WriteCard)
  }

  function OutcomeOf(c: Course): SourceOutcome {
    var completed := MEDALLION[..EndOf(c).stages];
    match EndOf(c).signal
    case Done => SourceOutcome(Succeeded, completed, None)
    case Stopped => SourceOutcome(Cancelled, completed, None)
    case Raised => SourceOutcome(Failed, completed, Some(c.error))
  }

  // ----- the execution

  /** Nothing the others record is about this source. */
  ghost predicate AllElsewhere(key: string, others: nat -> seq<Recorded>) {
    forall n: nat, e :: e in others(n) ==> e.source != key
  }

  /** One source of a build. `others(n)` is what the other sources record before its event number `n`. */
  class SourceRun {
    const recorder: Recorder
    const key: string
    const others: nat -> seq<Recorded>
    const course: Course
    var completed: seq<Stage>
    var fetchCompleted: bool
    var exportStarted: bool
    var emitted: nat
    /** What this source emits, after what the recorder had been given of it before. */
    ghost var events: seq<Event>
    /** Its agenda, where the end of the fetch stands on it, and what that means for its entries. */
    ghost const agenda: seq<Entry>
    ghost const fetchEnd: nat
    ghost const tells: Entry -> seq<Event>
    ghost const writes: Entry -> bool
    ghost const stops: Entry -> bool
    ghost const before: seq<Event>

    ghost predicate Valid()
      reads `events, `emitted, recorder
    {
      && recorder.Valid() && Of(key, recorder.attempted) == before + events
      && emitted == |events| && AllElsewhere(key, others)
    }

    /** So many entries of the agenda are passed, and nothing else has happened. */
    ghost predicate Passed(n: int)
      reads `events, `completed, `fetchCompleted
    {
      forall m {:trigger At(m)} :: At(m) && m == n ==> PassedJust(m)
    }

    ghost predicate PassedJust(n: int)
      reads `events, `completed, `fetchCompleted
    {
      && 0 <= n <= |agenda| && NoneStops(stops, agenda, n)
      && events == Told(tells, agenda, n) && |completed| == Persisted(writes, agenda, n)
      && (fetchCompleted <==> FetchEnded(agenda, n))
    }

    /** The next entry stops the execution in the way the signal says. */
    ghost predicate HaltedAt(n: int, signal: Signal)
      reads `events, `completed, `fetchCompleted
    {
      && PassedJust(n) && n < |agenda| && stops(agenda[n])
      && signal == if IsBoundary(agenda[n]) then Stopped else Raised
    }

    ghost predicate Halted(signal: Signal)
      reads `events, `completed, `fetchCompleted
    {
      exists n :: HaltedAt(n, signal)
    }

    ghost predicate OwnAgenda() {
      && agenda == Agenda(course) && fetchEnd == FetchEndAt(course)
      && tells == Teller(course) && writes == Persists && stops == Stopper(course)
    }

    ghost predicate OnAgenda() {
      && IsAgenda(agenda, fetchEnd)
      && forall e {:trigger Met(e)} :: Met(e) ==>
           tells(e) == Tells(course, e) && writes(e) == Persists(e) && stops(e) == Stops(course, e)
    }

    ghost predicate Next(n: nat, e: Entry) {
      OnAgenda() && n < |agenda| && agenda[n] == e
    }

    /** The next entry is passed: what it tells is told, and what it writes is written. */
    lemma Pass(n: nat, e: Entry)
      requires Next(n, e) && !Stops(course, e) && NoneStops(stops, agenda, n)
      requires events == Told(tells, agenda, n) + Tells(course, e)
      requires |completed| == Persisted(writes, agenda, n) + (if Persists(e) then 1 else 0)
      requires fetchCompleted <==> FetchEnded(agenda, n) || e == Does(FetchEnd)
      ensures Passed(n + 1)
    {
      assert Met(e);
    }

    /** An entry that leaves no event and completes no stage is passed without more ado. */
    lemma PassQuietly(n: nat, e: Entry)
      requires Next(n, e) && Passed(n) && !Stops(course, e)
      requires Tells(course, e) == [] && !Persists(e) && e != Does(FetchEnd)
      ensures Passed(n + 1)
    {
      assert At(n);
      Pass(n, e);
    }

    lemma Halts(n: nat, e: Entry)
      requires Next(n, e) && Passed(n) && Stops(course, e)
      ensures Halted(if IsBoundary(e) then Stopped else Raised)
    {
      assert Met(e) && At(n);
      assert HaltedAt(n, if IsBoundary(e) then Stopped else Raised);
    }

    /** Between two stages: `n` stages are complete, and the events say just that. */
    ghost predicate Between(n: nat)
      reads `events, `emitted, `completed, `exportStarted, `fetchCompleted, recorder
      requires n <= 3
    {
      && Valid() && completed == MEDALLION[..n] && !exportStarted
      && Completions(events) == Starts(events) == completed
      && Failures(events) == [] && FetchFailed !in events
      && (fetchCompleted <==> n > 0) && (fetchCompleted <==> FetchCompleted in events)
    }

    /** Inside the stage after `n` complete ones. */
    ghost predicate Within(n: nat)
      reads `events, `emitted, `completed, `exportStarted, `fetchCompleted, recorder
      requires n <= 3
    {
      && Valid() && completed == MEDALLION[..n] && (exportStarted <==> n == 3)
      && Completions(events) == completed
      && Starts(events) == completed + [NextStage(completed)]
      && Failures(events) == [] && FetchFailed !in events
      && (n > 0 ==> fetchCompleted) && (fetchCompleted <==> FetchCompleted in events)
    }

    /** All stages and the export are complete. */
    ghost predicate Exported()
      reads `events, `emitted, `completed, `exportStarted, `fetchCompleted, recorder
    {
      && Valid() && completed == MEDALLION && exportStarted && fetchCompleted && FetchCompleted in events
      && Completions(events) == Starts(events) == MEDALLION + [Export]
      && Failures(events) == [] && FetchFailed !in events
    }

    /** Where a signal leaves the source. */
    ghost predicate LeftAt(signal: Signal, n: nat)
      reads `events, `emitted, `completed, `exportStarted, `fetchCompleted, recorder
      requires n <= 3
    {
      match signal
      case Done => n == 3 && Exported()
      case Stopped => Between(n) || (n == 0 && Within(0) && !fetchCompleted)
      case Raised =>
        if n == 3 && FailsAfterExport(course) then Exported() else Within(n) || (0 < n < 3 && Between(n))
    }

    constructor (recorder: Recorder, key: string, others: nat -> seq<Recorded>, course: Course)
      requires recorder.Valid() && AllElsewhere(key, others)
      ensures this.recorder == recorder && this.key == key && this.others == others && this.course == course
      ensures Between(0) && Passed(0) && events == [] && OnAgenda() && OwnAgenda()
    {
      this.recorder, this.key, this.others, this.course := recorder, key, others, course;
      before := Of(key, recorder.attempted);
      completed, fetchCompleted, exportStarted, emitted, events := [], false, false, 0, [];
      agenda, fetchEnd := Agenda(course), FetchEndAt(course);
      tells, writes, stops := Teller(course), Persists, Stopper(course);
      AgendaIsAgenda(course);
    }

    /** The others record what they do before this source's next event. */
    method LetOthersRecord()
      requires Valid()
      modifies recorder
      ensures Valid()
    {
      var left := others(emitted);
      while left != []
        invariant Valid() && forall e :: e in left ==> e.source != key
      {
        OfOneMore(key, recorder.attempted, left[0]);
        recorder.Record(left[0]);
        left := left[1..];
      }
    }

    method Emit(e: Event)
      requires Valid()
      modifies `events, `emitted, recorder
      ensures Valid() && events == old(events) + [e]
      ensures e.StageCompleted? ==> Completions(events) == old(Completions(events)) + [e.stage]
      ensures !e.StageCompleted? ==> Completions(events) == old(Completions(events))
      ensures e.StageStarted? ==> Starts(events) == old(Starts(events)) + [e.stage]
      ensures !e.StageStarted? ==> Starts(events) == old(Starts(events))
      ensures e.StageFailed? ==> Failures(events) == old(Failures(events)) + [e.stage]
      ensures !e.StageFailed? ==> Failures(events) == old(Failures(events))
    {
      LetOthersRecord();
      OfOneMore(key, recorder.attempted, Recorded(key, e));
      recorder.Record(Recorded(key, e));
      EventsOneMore(events, e);
      assert (before + events) + [e] == before + (events + [e]);
      emitted := emitted + 1;
      events := events + [e];
    }

    /** The one event of an entry that completes no stage. */
    method EmitFor(e: Event, ghost n: nat, ghost entry: Entry)
      requires Valid() && Next(n, entry) && Passed(n) && !Stops(course, entry)
      requires Tells(course, entry) == [e] && !Persists(entry) && entry != Does(FetchEnd)
      requires !e.StageCompleted? || e.stage == Export
      modifies `events, `emitted, recorder
      ensures Valid() && events == old(events) + [e] && Passed(n + 1)
      ensures Completions(events) == old(Completions(events)) + (if e.StageCompleted? then [Export] else [])
      ensures Starts(events) == old(Starts(events)) + (if e.StageStarted? then [e.stage] else [])
      ensures Failures(events) == old(Failures(events)) + (if e.StageFailed? then [e.stage] else [])
    {
      assert At(n);
      Emit(e);
      Pass(n, entry);
    }

    /** The event of a stage that is written. */
    method Complete(stage: Stage, ghost n: nat, ghost step: Step)
      requires Valid() && Next(n, Does(step)) && Passed(n) && !course.raises(step)
      requires Tells(course, Does(step)) == [StageCompleted(stage)] && Persists(Does(step))
      modifies `completed, `events, `emitted, recorder
      ensures Valid() && events == old(events) + [StageCompleted(stage)] && Passed(n + 1)
      ensures completed == old(completed) + [stage]
      ensures Completions(events) == old(Completions(events)) + [stage]
      ensures Starts(events) == old(Starts(events)) && Failures(events) == old(Failures(events))
    {
      assert At(n);
      completed := completed + [stage];
      Emit(StageCompleted(stage));
      Pass(n, Does(step));
    }

    /** A safe boundary; the stage after it begins unless cancellation is seen. */
    method Cross(boundary: nat, stage: Stage, ghost n: nat) returns (signal: Signal)
      requires 0 < boundary < 4 && stage == NextStage(MEDALLION[..boundary])
      requires Next(n, Boundary(boundary)) && Between(boundary) && Passed(n)
      modifies `exportStarted, `events, `emitted, recorder
      ensures signal == if course.cancelled(boundary) then Stopped else Done
      ensures if signal == Done then Within(boundary) && Passed(n + 1) else Between(boundary) && Halted(Stopped)
    {
      if course.cancelled(boundary) {
        Halts(n, Boundary(boundary));
        return Stopped;
      }
      StartStage(boundary, stage, n);
      signal := Done;
    }

    method StartStage(boundary: nat, stage: Stage, ghost n: nat)
      requires 0 < boundary < 4 && stage == NextStage(MEDALLION[..boundary]) && !course.cancelled(boundary)
      requires Next(n, Boundary(boundary)) && Between(boundary) && Passed(n)
      modifies `exportStarted, `events, `emitted, recorder
      ensures Within(boundary) && Passed(n + 1)
    {
      StartTold(boundary, stage);
      EmitFor(StageStarted(stage), n, Boundary(boundary));
      exportStarted := boundary == 3;
    }

    lemma StartTold(boundary: nat, stage: Stage)
      requires 0 < boundary < 4 && stage == NextStage(MEDALLION[..boundary])
      ensures Tells(course, Boundary(boundary)) == [StageStarted(stage)]
    {
    }

    /** A stage is written, and with that complete. */
    method PersistStage(done: nat, step: Step, stage: Stage, ghost n: nat) returns (signal: Signal)
      requires done < 3 && stage == MEDALLION[done] && Tells(course, Does(step)) == [StageCompleted(stage)]
      requires Next(n, Does(step)) && Persists(Does(step)) && Within(done) && fetchCompleted && Passed(n)
      modifies `completed, `events, `emitted, recorder
      ensures signal == if course.raises(step) then Raised else Done
      ensures if signal == Done then Between(done + 1) && Passed(n + 1) else Within(done) && Halted(Raised)
    {
      if course.raises(step) {
        Halts(n, Does(step));
        return Raised;
      }
      Complete(stage, n, step);
      signal := Done;
    }

    method RunToBronze() returns (signal: Signal)
      requires OnAgenda() && ListsFetch(course, agenda, fetchEnd) && Between(0) && Passed(0)
      modifies this, recorder
      ensures signal == ToBronze(course)
      ensures signal == Done ==> Between(1) && Passed(fetchEnd + 2)
      ensures signal != Done ==> LeftAt(signal, 0) && Halted(signal)
    {
      if course.cancelled(0) {
        Halts(0, Boundary(0));
        return Stopped;
      }
      StartBronze();
      if course.raises(PrepareFetch) {
        Halts(1, Does(PrepareFetch));
        return Raised;
      }
      PassQuietly(1, Does(PrepareFetch));
      signal := FetchAndPersist();
    }

    method StartBronze()
      requires Next(0, Boundary(0)) && Between(0) && Passed(0) && !course.cancelled(0)
      modifies `events, `emitted, recorder
      ensures Within(0) && !fetchCompleted && Passed(1)
    {
      EmitStart();
    }

    method EmitStart()
      requires Valid() && Next(0, Boundary(0)) && Passed(0) && !course.cancelled(0)
      modifies `events, `emitted, recorder
      ensures Valid() && events == old(events) + [StageStarted(Bronze), FetchStarted] && Passed(1)
      ensures Completions(events) == old(Completions(events)) && Failures(events) == old(Failures(events))
      ensures Starts(events) == old(Starts(events)) + [Bronze]
    {
      assert At(0);
      Emit(StageStarted(Bronze));
      Emit(FetchStarted);
      Pass(0, Boundary(0));
    }

    method FetchAndPersist() returns (signal: Signal)
      requires OnAgenda() && ListsFetch(course, agenda, fetchEnd) && Within(0) && !fetchCompleted && Passed(2)
      modifies this, recorder
      ensures signal == if Fetching(course, 0) != Done then Fetching(course, 0)
                        else if course.raises(FetchEnd) || course.raises(PersistBronze) then Raised else Done
      ensures signal == Done ==> Between(1) && Passed(fetchEnd + 2)
      ensures signal != Done ==> LeftAt(signal, 0) && Halted(signal)
    {
      signal := Fetch();
      if signal != Done {
        return;
      }
      signal := FinishFetch();
      if signal == Done {
        signal := PersistStage(0, PersistBronze, Bronze, fetchEnd + 1);
      }
    }

    method FinishFetch() returns (signal: Signal)
      requires Next(fetchEnd, Does(FetchEnd)) && Within(0) && !fetchCompleted && Passed(fetchEnd)
      modifies `fetchCompleted, `events, `emitted, recorder
      ensures signal == if course.raises(FetchEnd) then Raised else Done
      ensures Within(0) && if signal == Done then fetchCompleted && Passed(fetchEnd + 1) else Halted(Raised)
    {
      if course.raises(FetchEnd) {
        Halts(fetchEnd, Does(FetchEnd));
        return Raised;
      }
      EmitFetchEnd();
      signal := Done;
    }

    method EmitFetchEnd()
      requires Valid() && Next(fetchEnd, Does(FetchEnd)) && Passed(fetchEnd) && !course.raises(FetchEnd)
      modifies `fetchCompleted, `events, `emitted, recorder
      ensures Valid() && events == old(events) + [FetchCompleted] && fetchCompleted && Passed(fetchEnd + 1)
      ensures Completions(events) == old(Completions(events)) && Starts(events) == old(Starts(events))
      ensures Failures(events) == old(Failures(events))
    {
      assert At(fetchEnd);
      Emit(FetchCompleted);
      fetchCompleted := true;
      Pass(fetchEnd, Does(FetchEnd));
    }

    /** The combinations of a fetch; each finished one is a safe boundary, except the last. */
    method Fetch() returns (signal: Signal)
      requires OnAgenda() && ListsFetch(course, agenda, fetchEnd) && Within(0) && !fetchCompleted && Passed(2)
      modifies `events, `emitted, recorder
      ensures signal == Fetching(course, 0)
      ensures Within(0) && !fetchCompleted
      ensures if signal == Done then Passed(fetchEnd) else Halted(signal)
    {
      var done := 0;
      while done < course.combinations
        invariant Fetching(course, 0) == Fetching(course, done)
        invariant Within(0) && !fetchCompleted
        invariant Passed(if done < course.combinations then 2 * done + 2 else fetchEnd)
      {
        if course.raisesBefore(done) {
          Halts(2 * done + 2, Combination(done));
          return Raised;
        }
        signal := FetchNext(done);
        if signal == Stopped {
          return;
        }
        done := done + 1;
      }
      signal := Done;
    }

    /** One more combination is fetched, and the boundary after it seen to. */
    method FetchNext(before: nat) returns (signal: Signal)
      requires OnAgenda() && ListsFetch(course, agenda, fetchEnd) && Within(0) && !fetchCompleted
      requires before < course.combinations && Passed(2 * before + 2) && !course.raisesBefore(before)
      modifies `events, `emitted, recorder
      ensures Within(0) && !fetchCompleted
      ensures signal == if before + 1 < course.combinations && course.cancelledAfter(before + 1) then Stopped else Done
      ensures signal == Stopped ==> Halted(Stopped)
      ensures signal == Done ==> Passed(if before + 1 < course.combinations then 2 * before + 4 else fetchEnd)
    {
      var done := before + 1;
      EmitFor(FetchProgress(done, course.combinations), 2 * before + 2, Combination(before));
      if done < course.combinations {
        if course.cancelledAfter(done) {
          Halts(2 * before + 3, AfterCombination(done));
          return Stopped;
        }
        PassQuietly(2 * before + 3, AfterCombination(done));
      }
      signal := Done;
    }

    method RunToSilver() returns (signal: Signal)
      requires OnAgenda() && Between(1) && Passed(fetchEnd + 2)
      modifies this, recorder
      ensures signal == ToSilver(course)
      ensures signal == Done ==> Between(2) && Passed(fetchEnd + 8)
      ensures signal != Done ==> LeftAt(signal, 1) && Halted(signal)
    {
      if course.raises(BuildProvenance) {
        Halts(fetchEnd + 2, Does(BuildProvenance));
        return Raised;
      }
      PassQuietly(fetchEnd + 2, Does(BuildProvenance));
      signal := Cross(1, Silver, fetchEnd + 3);
      if signal == Stopped {
        return;
      }
      if course.raises(BuildSilver) {
        Halts(fetchEnd + 4, Does(BuildSilver));
        return Raised;
      }
      PassQuietly(fetchEnd + 4, Does(BuildSilver));
      signal := FinishSilver();
    }

    method FinishSilver() returns (signal: Signal)
      requires OnAgenda() && Within(1) && Passed(fetchEnd + 5)
      modifies this, recorder
      ensures signal == if course.raises(EvaluateQuality) || course.raises(PassGates) || course.raises(PersistSilver)
                        then Raised else Done
      ensures signal == Done ==> Between(2) && Passed(fetchEnd + 8)
      ensures signal == Raised ==> Within(1) && Halted(Raised)
    {
      signal := ShowQuality();
      if signal == Raised {
        return;
      }
      if course.raises(PassGates) {
        Halts(fetchEnd + 6, Does(PassGates));
        return Raised;
      }
      PassQuietly(fetchEnd + 6, Does(PassGates));
      signal := PersistStage(1, PersistSilver, Silver, fetchEnd + 7);
    }

    method ShowQuality() returns (signal: Signal)
      requires Next(fetchEnd + 5, Does(EvaluateQuality)) && Within(1) && Passed(fetchEnd + 5)
      modifies `events, `emitted, recorder
      ensures signal == if course.raises(EvaluateQuality) then Raised else Done
      ensures Within(1) && if signal == Done then Passed(fetchEnd + 6) else Halted(Raised)
    {
      if course.raises(EvaluateQuality) {
        Halts(fetchEnd + 5, Does(EvaluateQuality));
        return Raised;
      }
      EmitFor(QualityEvaluated, fetchEnd + 5, Does(EvaluateQuality));
      signal := Done;
    }

    method RunToGold() returns (signal: Signal)
      requires OnAgenda() && Between(2) && Passed(fetchEnd + 8)
      modifies this, recorder
      ensures signal == ToGold(course)
      ensures signal == Done ==> Between(3) && Passed(fetchEnd + 12)
      ensures signal != Done ==> LeftAt(signal, 2) && Halted(signal)
    {
      if course.raises(CaptureSilver) {
        Halts(fetchEnd + 8, Does(CaptureSilver));
        return Raised;
      }
      PassQuietly(fetchEnd + 8, Does(CaptureSilver));
      signal := Cross(2, Gold, fetchEnd + 9);
      if signal == Stopped {
        return;
      }
      if course.raises(BuildGold) {
        Halts(fetchEnd + 10, Does(BuildGold));
        return Raised;
      }
      PassQuietly(fetchEnd + 10, Does(BuildGold));
      signal := PersistStage(2, PersistGold, Gold, fetchEnd + 11);
    }

    method RunToExport() returns (signal: Signal)
      requires OnAgenda() && Between(3) && Passed(fetchEnd + 12)
      modifies this, recorder
      ensures signal == ToExport(course)
      ensures signal == Done || (signal == Raised && !course.raises(ExportGold) && !course.raises(WriteCard)) ==>
                Exported()
      ensures signal == Stopped ==> Between(3)
      ensures signal == Raised && (course.raises(ExportGold) || course.raises(WriteCard)) ==> Within(3)
      ensures if signal == Done then Passed(fetchEnd + 16) else Halted(signal)
    {
      signal := Cross(3, Export, fetchEnd + 12);
      if signal == Done {
        signal := WriteExport();
      }
    }

    method WriteExport() returns (signal: Signal)
      requires OnAgenda() && Within(3) && Passed(fetchEnd + 13)
      modifies `events, `emitted, recorder
      ensures course.raises(ExportGold) || course.raises(WriteCard) ==> signal == Raised && Within(3)
      ensures !course.raises(ExportGold) && !course.raises(WriteCard) ==>
        Exported() && signal == if course.raises(SummarizeSchema) then Raised else Done
      ensures if signal == Done then Passed(fetchEnd + 16) else Halted(signal)
    {
      if course.raises(ExportGold) {
        Halts(fetchEnd + 13, Does(ExportGold));
        return Raised;
      }
      PassQuietly(fetchEnd + 13, Does(ExportGold));
      signal := FinishExport();
      if signal == Done {
        if course.raises(SummarizeSchema) {
          Halts(fetchEnd + 15, Does(SummarizeSchema));
          return Raised;
        }
        PassQuietly(fetchEnd + 15, Does(SummarizeSchema));
      }
    }

    method FinishExport() returns (signal: Signal)
      requires Next(fetchEnd + 14, Does(WriteCard)) && Within(3) && Passed(fetchEnd + 14)
      modifies `events, `emitted, recorder
      ensures signal == if course.raises(WriteCard) then Raised else Done
      ensures if signal == Done then Exported() && Passed(fetchEnd + 15) else Within(3) && Halted(Raised)
    {
      if course.raises(WriteCard) {
        Halts(fetchEnd + 14, Does(WriteCard));
        return Raised;
      }
      EmitFor(StageCompleted(Export), fetchEnd + 14, Does(WriteCard));
      assert MEDALLION == MEDALLION[..3];
      signal := Done;
    }

    method RunStages() returns (signal: Signal)
      requires OnAgenda() && ListsFetch(course, agenda, fetchEnd) && Between(0) && Passed(0)
      modifies this, recorder
      ensures signal == EndOf(course).signal && LeftAt(signal, EndOf(course).stages)
      ensures if signal == Done then Passed(fetchEnd + 16) else Halted(signal)
    {
      signal := RunToBronze();
      if signal == Done {
        signal := RunToSilver();
        if signal == Done {
          signal := RunToGold();
          if signal == Done {
            signal := RunToExport();
          }
        }
      }
    }

    method RecordFetchFailure()
      requires Valid()
      modifies `events, `emitted, recorder
      ensures Valid() && Failures(events) == old(Failures(events))
      ensures Completions(events) == old(Completions(events)) && Starts(events) == old(Starts(events))
      ensures events == old(events) + (if fetchCompleted then [] else [FetchFailed])
    {
      if !fetchCompleted {
        Emit(FetchFailed);
      }
    }

    method EmitBronzeFailure()
      requires Valid()
      modifies `events, `emitted, recorder
      ensures Valid() && Failures(events) == old(Failures(events)) + [Bronze]
      ensures Completions(events) == old(Completions(events)) && Starts(events) == old(Starts(events))
      ensures events == old(events) + FailureTold(0, fetchCompleted)
    {
      RecordFetchFailure();
      OneMoreAfter(old(events), if fetchCompleted then [] else [FetchFailed], StageFailed(Bronze));
      Emit(StageFailed(Bronze));
    }

    method RecordBronzeFailure()
      requires Within(0)
      modifies `events, `emitted, recorder
      ensures Valid() && Failures(events) == [Bronze]
      ensures Completions(events) == old(Completions(events)) && Starts(events) == old(Starts(events))
      ensures FetchFailed in events <==> FetchCompleted !in events
      ensures events == old(events) + FailureTold(0, fetchCompleted)
    {
      FetchTold(events, fetchCompleted);
      EmitBronzeFailure();
    }

    /** The failure events: for the first stage that is not complete, and for the fetch when that
        is what failed. */
    method RecordFailure(ghost n: nat)
      requires n <= 3 && LeftAt(Raised, n)
      modifies `events, `emitted, recorder
      ensures Valid()
      ensures Failures(events) == [NextStage(completed)]
      ensures Completions(events) == old(Completions(events)) && Starts(events) == old(Starts(events))
      ensures FetchFailed in events <==> FetchCompleted !in events
      ensures FetchFailed in events ==> completed == []
      ensures events == old(events) + FailureTold(|completed|, fetchCompleted)
    {
      WhichComplete(n);
      if Bronze !in completed {
        RecordBronzeFailure();
      } else if Silver !in completed {
        Emit(StageFailed(Silver));
      } else if Gold !in completed {
        Emit(StageFailed(Gold));
      } else if exportStarted {
        Emit(StageFailed(Export));
      }
    }

    /** Where on the agenda a signal came from. */
    lemma EndOnAgenda(signal: Signal) returns (n: nat)
      requires OwnAgenda() && OnAgenda()
      requires if signal == Done then Passed(fetchEnd + 16) else Halted(signal)
      ensures PassesJust(course, n) && IsEnd(course, n, signal)
      ensures events == Told(Teller(course), Agenda(course), n)
      ensures |completed| == Persisted(Persists, Agenda(course), n)
      ensures fetchCompleted <==> FetchEnded(Agenda(course), n)
    {
      if signal == Done {
        n := fetchEnd + 16;
        assert At(n);
      } else {
        n :| HaltedAt(n, signal);
      }
      NoneStopsBefore(course, agenda, n);
    }

    /** The stages, and the failure events if they raised. */
    method RunAndRecord() returns (o: SourceOutcome)
      requires OwnAgenda() && OnAgenda() && Between(0) && Passed(0)
      modifies this, recorder
      ensures Valid() && o == OutcomeOf(course) && EventsMatch(events, o, FailsAfterExport(course))
      ensures exists n :: EndsAfter(course, n, o, events)
    {
      AgendaIsAgenda(course);
      var signal := RunStages();
      ghost var n := EndOnAgenda(signal);
      ghost var told, persisted, fetched := events, |completed|, fetchCompleted;
      o := Conclude(signal);
      EndsThere(course, n, signal, told, persisted, fetched, o, events);
    }

    /** The outcome for a signal. */
    method Conclude(signal: Signal) returns (o: SourceOutcome)
      requires signal == EndOf(course).signal && LeftAt(signal, EndOf(course).stages)
      modifies `events, `emitted, recorder
      ensures Valid() && o == OutcomeOf(course) && EventsMatch(events, o, FailsAfterExport(course))
      ensures events == old(events) + if signal == Raised then FailureTold(|completed|, fetchCompleted) else []
      ensures o.completed == completed && o.error == if signal == Raised then Some(course.error) else None
    {
      if signal == Done {
        o := SourceOutcome(Succeeded, completed, None);
      } else if signal == Stopped {
        o := SourceOutcome(Cancelled, completed, None);
      } else {
        RecordFailure(EndOf(course).stages);
        o := SourceOutcome(Failed, completed, Some(course.error));
      }
    }

    /** `_run_source_pipeline`: the outcome, whatever becomes of the events. */
    method Run() returns (o: SourceOutcome)
      requires OwnAgenda() && OnAgenda() && Between(0) && Passed(0) && events == []
      modifies this, recorder
      ensures Valid() && Of(key, recorder.attempted) == old(Of(key, recorder.attempted)) + events
      // The agenda up to the first entry that stops it tells the outcome and every event.
      ensures exists n :: EndsAfter(course, n, o, events)
      ensures o == OutcomeOf(course) && EventsMatch(events, o, FailsAfterExport(course))
      // The completion events are the completed stages exactly unless it fails after its export.
      ensures o.status != Succeeded ==> (Completions(events) == o.completed <==> !FailsAfterExport(course))
    {
      assert before + events == before;
      o := RunAndRecord();
    }
  }
}
