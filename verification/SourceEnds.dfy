/**
 Where a source ends, told from its agenda alone: the first entry that raises or is cancelled decides.
 */
module SourceEnds {
  import opened Basics
  import opened SourcePipeline

  lemma {:induction false} FetchPasses(c: Course, k: nat)
    requires forall j :: k <= j < c.combinations ==> !c.raisesBefore(j)
    requires forall j :: k < j < c.combinations ==> !c.cancelledAfter(j)
    ensures Fetching(c, k) == Done
    decreases c.combinations - k
  {
    if k < c.combinations {
      FetchPasses(c, k + 1);
    }
  }

  /** The fetch stops at combination `m`, before it or, at the boundary, after it. */
  lemma {:induction false} FetchStops(c: Course, k: nat, m: nat, signal: Signal)
    requires k <= m < c.combinations
    requires forall j :: k <= j < m ==> !c.raisesBefore(j)
    requires forall j :: k < j <= m ==> !c.cancelledAfter(j)
    requires if signal == Raised then c.raisesBefore(m)
             else signal == Stopped && !c.raisesBefore(m) && m + 1 < c.combinations && c.cancelledAfter(m + 1)
    ensures Fetching(c, k) == signal
    decreases m - k
  {
    if k < m {
      FetchStops(c, k + 1, m, signal);
    }
  }

  lemma EntryInFetch(c: Course, i: nat)
    requires 2 <= i < FetchEndAt(c)
    ensures i < |Agenda(c)|
    ensures Agenda(c)[i] == if i % 2 == 0 then Combination((i - 2) / 2) else AfterCombination((i - 1) / 2)
  {
    AgendaIsAgenda(c);
    var k := (i - 1) / 2;
    if i % 2 == 0 {
      assert Agenda(c)[2 * ((i - 2) / 2) + 2] == Combination((i - 2) / 2);
    } else {
      assert 0 < k < c.combinations && Agenda(c)[2 * k + 1] == AfterCombination(k);
    }
  }

  /** Where on the agenda the stages are written. */
  function WrittenBefore(c: Course, n: nat): nat {
    var end := FetchEndAt(c);
    if n <= end + 1 then 0 else if n <= end + 7 then 1 else if n <= end + 11 then 2 else 3
  }

  lemma {:induction false} PersistedIs(c: Course, n: nat)
    requires n <= |Agenda(c)|
    ensures Persisted(Persists, Agenda(c), n) == WrittenBefore(c, n)
  {
    if n > 0 {
      PersistedIs(c, n - 1);
      PersistsAt(c, n - 1);
    }
  }

  lemma PersistsAt(c: Course, i: nat)
    requires i < |Agenda(c)|
    ensures Persists(Agenda(c)[i]) <==>
              i == FetchEndAt(c) + 1 || i == FetchEndAt(c) + 7 || i == FetchEndAt(c) + 11
  {
    AgendaIsAgenda(c);
    if 2 <= i < FetchEndAt(c) {
      EntryInFetch(c, i);
    }
  }

  /** What `Fetching` says of a fetch that is got through, or is stopped in. */
  lemma FetchByAgenda(c: Course, n: nat)
    requires PassesJust(c, n) && 2 <= n
    ensures n >= FetchEndAt(c) ==> Fetching(c, 0) == Done
    ensures n < FetchEndAt(c) ==>
              n < |Agenda(c)| && Fetching(c, 0) == if IsBoundary(Agenda(c)[n]) then Stopped else Raised
  {
    AgendaIsAgenda(c);
    var passed := if n >= FetchEndAt(c) then FetchEndAt(c) else n;
    forall j: nat | j < c.combinations && 2 * j + 2 < passed ensures !c.raisesBefore(j) {
      assert Agenda(c)[2 * j + 2] == Combination(j);
    }
    forall j: nat | 0 < j < c.combinations && 2 * j + 1 < passed ensures !c.cancelledAfter(j) {
      assert Agenda(c)[2 * j + 1] == AfterCombination(j);
    }
    if n >= FetchEndAt(c) {
      FetchPasses(c, 0);
    } else {
      EntryInFetch(c, n);
      var k := if n % 2 == 0 then (n - 2) / 2 else (n - 3) / 2;
      FetchStops(c, 0, k, if n % 2 == 0 then Raised else Stopped);
    }
  }

  ghost predicate NotStopped(c: Course, n: nat, end: nat, m: nat)
    requires end + m < |Agenda(c)|
  {
    n > end + m ==> !Stops(c, Agenda(c)[end + m])
  }

  /** Where an execution ends that passes just `n` entries of its agenda. */
  lemma EndByAgenda(c: Course, n: nat)
    requires PassesJust(c, n)
    ensures EndOf(c).stages == WrittenBefore(c, n) && IsEnd(c, n, EndOf(c).signal)
  {
    AgendaIsAgenda(c);
    var end := FetchEndAt(c);
    if n >= 2 {
      FetchByAgenda(c, n);
    }
    assert NotStopped(c, n, 0, 0) && NotStopped(c, n, 0, 1);
    assert NotStopped(c, n, end, 0) && NotStopped(c, n, end, 1) && NotStopped(c, n, end, 2);
    assert NotStopped(c, n, end, 3) && NotStopped(c, n, end, 4) && NotStopped(c, n, end, 5);
    assert NotStopped(c, n, end, 6) && NotStopped(c, n, end, 7) && NotStopped(c, n, end, 8);
    assert NotStopped(c, n, end, 9) && NotStopped(c, n, end, 10) && NotStopped(c, n, end, 11);
    assert NotStopped(c, n, end, 12) && NotStopped(c, n, end, 13) && NotStopped(c, n, end, 14);
    assert NotStopped(c, n, end, 15);
  }

  /** The first entry of the agenda that stops decides the outcome: its kind the status, and the stages
      written before it the list of completed ones. Without one the source succeeds. */
  lemma OutcomeByAgenda(c: Course, n: nat)
    requires PassesJust(c, n)
    ensures Persisted(Persists, Agenda(c), n) <= 3
    ensures OutcomeOf(c).completed == MEDALLION[..Persisted(Persists, Agenda(c), n)]
    ensures OutcomeOf(c).status == if n == |Agenda(c)| then Succeeded
                                   else if IsBoundary(Agenda(c)[n]) then Cancelled else Failed
    ensures OutcomeOf(c).error == if OutcomeOf(c).status == Failed then Some(c.error) else None
  {
    EndByAgenda(c, n);
    PersistedIs(c, n);
  }

  lemma {:induction false} FirstStop(c: Course, from: nat) returns (n: nat)
    requires from <= |Agenda(c)| && forall i :: 0 <= i < from ==> !Stops(c, Agenda(c)[i])
    ensures PassesJust(c, n)
    decreases |Agenda(c)| - from
  {
    n := from;
    if from < |Agenda(c)| && !Stops(c, Agenda(c)[from]) {
      n := FirstStop(c, from + 1);
    }
  }

  /** A source succeeds exactly when no step raises and no boundary is cancelled. */
  lemma SucceedsExactlyWhen(c: Course)
    ensures OutcomeOf(c).status == Succeeded <==> forall i :: 0 <= i < |Agenda(c)| ==> !Stops(c, Agenda(c)[i])
  {
    var n := FirstStop(c, 0);
    OutcomeByAgenda(c, n);
  }
}
