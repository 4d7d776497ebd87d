/**
 Builds that share tables: a snapshot is only replaced by one whose build read the table's revision
 after it was committed.
 */
module TableCommits {
  import opened BuildRuns

  /** Every snapshot was read for after the ones before it were committed. */
  ghost predicate HistoryOk(h: seq<Snapshot>, clock: nat) {
    && (forall i :: 0 <= i < |h| ==> h[i].readAt < h[i].committedAt < clock)
    && (forall i, j :: 0 <= i < j < |h| ==> h[i].committedAt < h[j].readAt)
  }

  /** A revision that was read is the number of snapshots committed by then. */
  ghost predicate ReadOk(h: seq<Snapshot>, start: nat, readAt: nat, clock: nat) {
    && readAt < clock && start <= |h|
    && forall k :: 0 <= k < |h| ==> (k < start <==> h[k].committedAt < readAt)
  }

  ghost predicate ReadsOk(r: Run, s: State) {
    && |r.readAt| == |r.starts| <= |r.spec.sources|
    && forall i :: 0 <= i < |r.starts| ==> ReadOk(History(s, Table(r.spec, i)), r.starts[i], r.readAt[i], s.clock)
  }

  ghost predicate TablesOk(s: State) {
    && (forall t :: t in s.tables ==> HistoryOk(s.tables[t], s.clock))
    && (forall id :: 0 <= id < |s.runs| ==> ReadsOk(s.runs[id], s))
  }

  /** A snapshot comes from a build that ended ok and records the commit. */
  ghost predicate OwnerOk(p: Snapshot, table: string, s: State) {
    && p.run < |s.runs|
    && var r := s.runs[p.run];
       && p.source < |r.readAt| && p.source < |r.spec.sources|
       && Table(r.spec, p.source) == table && r.readAt[p.source] == p.readAt
       && r.phase.Settled? && r.phase.status.Ok? && p.source < r.next
       && r.spec.sources[p.source] in r.materialized
  }

  ghost predicate OwnersOk(s: State) {
    forall t, k :: t in s.tables && 0 <= k < |s.tables[t]| ==> OwnerOk(s.tables[t][k], t, s)
  }

  lemma CommitKeepsHistory(s: State, id: nat, a: Action)
    requires TablesOk(s) && id < |s.runs| && Commits(s.runs[id], a, s)
    ensures var s', r := Do(s, id, a), s.runs[id];
            HistoryOk(s'.tables[Table(r.spec, r.next)], s'.clock)
  {
    var r := s.runs[id];
    assert ReadOk(History(s, Table(r.spec, r.next)), r.starts[r.next], r.readAt[r.next], s.clock);
  }

  /** A commit only adds a snapshot newer than every revision read so far. */
  lemma CommitKeepsReads(h: seq<Snapshot>, p: Snapshot, start: nat, readAt: nat, clock: nat)
    requires ReadOk(h, start, readAt, clock) && p.committedAt == clock
    ensures ReadOk(h + [p], start, readAt, clock + 1)
  {
  }

  lemma ReadKeepsReads(s: State, id: nat)
    requires TablesOk(s) && id < |s.runs|
    ensures ReadsOk(Act(s.runs[id], ReadRevision, s), s.(clock := s.clock + 1))
  {
    var r := s.runs[id];
    var r', s' := Act(r, ReadRevision, s), s.(clock := s.clock + 1);
    assert ReadsOk(r, s);
    forall i | 0 <= i < |r'.starts|
      ensures ReadOk(History(s', Table(r'.spec, i)), r'.starts[i], r'.readAt[i], s'.clock)
    {
      if i < |r.starts| {
        LaterIsFine(History(s, Table(r.spec, i)), r.starts[i], r.readAt[i], s.clock);
      } else {
        NewReadIsFine(s, Table(r.spec, i));
      }
    }
  }

  lemma LaterIsFine(h: seq<Snapshot>, start: nat, readAt: nat, clock: nat)
    requires ReadOk(h, start, readAt, clock)
    ensures ReadOk(h, start, readAt, clock + 1)
  {
  }

  lemma NewReadIsFine(s: State, table: string)
    requires table in s.tables ==> HistoryOk(s.tables[table], s.clock)
    ensures ReadOk(History(s, table), |History(s, table)|, s.clock, s.clock + 1)
  {
  }

  lemma OtherActionsKeepReads(r: Run, a: Action, s: State)
    requires !a.ReadRevision?
    ensures Act(r, a, s).starts == r.starts && Act(r, a, s).readAt == r.readAt && Act(r, a, s).spec == r.spec
  {
  }

  lemma DoKeepsTables(s: State, id: nat, a: Action)
    requires TablesOk(s)
    ensures TablesOk(Do(s, id, a))
  {
    var s' := Do(s, id, a);
    if id < |s.runs| {
      if Commits(s.runs[id], a, s) {
        CommitKeepsHistory(s, id, a);
      }
      if a.ReadRevision? {
        ReadKeepsReads(s, id);
      } else {
        OtherActionsKeepReads(s.runs[id], a, s);
      }
    }
    forall j | 0 <= j < |s'.runs| ensures ReadsOk(s'.runs[j], s') {
      assert ReadsOk(s.runs[j], s);
      if !a.ReadRevision? || j != id {
        forall i | 0 <= i < |s.runs[j].starts|
          ensures ReadOk(History(s', Table(s.runs[j].spec, i)), s.runs[j].starts[i], s.runs[j].readAt[i], s'.clock)
        {
          ReadStays(s, id, a, Table(s.runs[j].spec, i), s.runs[j].starts[i], s.runs[j].readAt[i]);
        }
      }
    }
  }

  lemma ReadStays(s: State, id: nat, a: Action, table: string, start: nat, readAt: nat)
    requires ReadOk(History(s, table), start, readAt, s.clock)
    ensures ReadOk(History(Do(s, id, a), table), start, readAt, s.clock + 1)
  {
    var h, h' := History(s, table), History(Do(s, id, a), table);
    if h' != h {
      var r := s.runs[id];
      CommitKeepsReads(h, Snapshot(id, r.next, r.readAt[r.next], s.clock), start, readAt, s.clock);
    }
  }

  lemma DoKeepsOwners(s: State, id: nat, a: Action)
    requires OwnersOk(s) && AllRunsOk(s)
    ensures OwnersOk(Do(s, id, a))
  {
    var s' := Do(s, id, a);
    forall t, k | t in s'.tables && 0 <= k < |s'.tables[t]| ensures OwnerOk(s'.tables[t][k], t, s') {
      if t in s.tables && k < |s.tables[t]| {
        assert s'.tables[t][k] == s.tables[t][k];
        OwnerStays(s, id, a, s.tables[t][k], t);
      } else {
        NewOwner(s, id, a, t, k);
      }
    }
  }

  lemma NewOwner(s: State, id: nat, a: Action, table: string, k: nat)
    requires AllRunsOk(s)
    requires table in Do(s, id, a).tables && k < |Do(s, id, a).tables[table]|
    requires table !in s.tables || k >= |s.tables[table]|
    ensures OwnerOk(Do(s, id, a).tables[table][k], table, Do(s, id, a))
  {
    var r := s.runs[id];
    assert Commits(r, a, s);
    assert table == Table(r.spec, r.next) && k == |History(s, table)|;
    CommitIsRecorded(r, a, s);
  }

  lemma CommitIsRecorded(r: Run, a: Action, s: State)
    requires RunInv(r) && Commits(r, a, s)
    ensures var r' := Act(r, a, s);
      && r'.spec == r.spec && r'.readAt == r.readAt && r'.phase == r.phase
      && r'.next == r.next + 1 && r.spec.sources[r.next] in r'.materialized
  {
  }

  lemma OwnerStays(s: State, id: nat, a: Action, p: Snapshot, table: string)
    requires OwnerOk(p, table, s)
    ensures OwnerOk(p, table, Do(s, id, a))
  {
  }

  lemma {:induction false} EveryStateIsOk(specs: seq<Spec>, schedule: Schedule)
    ensures TablesOk(After(Initial(specs), schedule)) && OwnersOk(After(Initial(specs), schedule))
  {
    if schedule != [] {
      var before := After(Initial(specs), schedule[..|schedule| - 1]);
      var (id, a) := schedule[|schedule| - 1];
      EveryStateIsOk(specs, schedule[..|schedule| - 1]);
      EveryRunKeepsItsInvariant(specs, schedule[..|schedule| - 1]);
      DoKeepsTables(before, id, a);
      DoKeepsOwners(before, id, a);
    }
  }

  // ----- the results

  /** Over every interleaving of builds: a snapshot's build had read the table after the snapshot
      before it was committed, and it is a build that ended ok. */
  lemma NewerDataReplacesOlder(specs: seq<Spec>, schedule: Schedule, table: string, i: nat, j: nat)
    requires var h := History(After(Initial(specs), schedule), table); i < j < |h|
    ensures var s := After(Initial(specs), schedule);
            var h := History(s, table);
            && h[i].committedAt < h[j].readAt < h[j].committedAt
            && OwnerOk(h[j], table, s)
  {
    EveryStateIsOk(specs, schedule);
    var s := After(Initial(specs), schedule);
    assert HistoryOk(s.tables[table], s.clock);
  }

  /** Whether another commit came after the build had read the revision it is about to use. */
  ghost predicate Overtaken(r: Run, s: State)
    requires r.next < |r.readAt| && r.next < |r.spec.sources|
  {
    var h := History(s, Table(r.spec, r.next));
    exists k :: 0 <= k < |h| && h[k].committedAt >= r.readAt[r.next]
  }

  /** What the next attempt of a build to commit a table comes to: a conflict, with all tables as they are,
      if it was overtaken, and a new snapshot otherwise. */
  ghost predicate AttemptSucceedsUnlessOvertaken(s: State, id: nat)
    requires id < |s.runs|
  {
    var r, s' := s.runs[id], Do(s, id, Materialize(true, false));
    && r.next < |r.readAt| && r.next < |r.spec.sources|
    && var source, table := r.spec.sources[r.next], Table(r.spec, r.next);
       if Overtaken(r, s) then
         && s'.tables == s.tables
         && source in s'.runs[id].failures && s'.runs[id].failures[source] == Conflict
       else
         && History(s', table) == History(s, table) + [Snapshot(id, r.next, r.readAt[r.next], s.clock)]
         && source in s'.runs[id].materialized
  }

  /** A commit attempt moves the table exactly when no other commit came in between; otherwise the
      table stays and the conflict is recorded. */
  lemma OvertakenBuildConflicts(specs: seq<Spec>, schedule: Schedule, id: nat)
    requires id < |specs|
    requires CommitsLeft(After(Initial(specs), schedule).runs[id]) && !After(Initial(specs), schedule).runs[id].stopped
    ensures AttemptSucceedsUnlessOvertaken(After(Initial(specs), schedule), id)
  {
    EveryStateIsOk(specs, schedule);
    EveryRunKeepsItsInvariant(specs, schedule);
    AttemptedCommit(After(Initial(specs), schedule), id);
  }

  /** In a state where reads and builds are as they should be. */
  lemma AttemptedCommit(s: State, id: nat)
    requires id < |s.runs| && RunInv(s.runs[id]) && ReadsOk(s.runs[id], s)
    requires CommitsLeft(s.runs[id]) && !s.runs[id].stopped
    ensures AttemptSucceedsUnlessOvertaken(s, id)
  {
    var r := s.runs[id];
    var h := History(s, Table(r.spec, r.next));
    assert ReadOk(h, r.starts[r.next], r.readAt[r.next], s.clock);
    StaleExactlyWhen(h, r.starts[r.next], r.readAt[r.next], s.clock);
    if Overtaken(r, s) {
      StaleConflicts(r, s);
    } else {
      CurrentCommits(r, s);
    }
  }

  lemma StaleExactlyWhen(h: seq<Snapshot>, start: nat, readAt: nat, clock: nat)
    requires ReadOk(h, start, readAt, clock)
    ensures start != |h| <==> exists k :: 0 <= k < |h| && h[k].committedAt >= readAt
  {
    if start < |h| {
      assert h[start].committedAt >= readAt;
    }
  }

  ghost predicate CanAttempt(r: Run) {
    CommitsLeft(r) && !r.stopped && |r.starts| == |r.readAt| == |r.spec.sources|
  }

  lemma StaleConflicts(r: Run, s: State)
    requires CanAttempt(r) && r.starts[r.next] != |History(s, Table(r.spec, r.next))|
    ensures !Commits(r, Materialize(true, false), s)
    ensures var r', source := Act(r, Materialize(true, false), s), r.spec.sources[r.next];
      source in r'.failures && r'.failures[source] == Conflict
  {
  }

  lemma CurrentCommits(r: Run, s: State)
    requires CanAttempt(r) && r.starts[r.next] == |History(s, Table(r.spec, r.next))|
    ensures Commits(r, Materialize(true, false), s)
    ensures r.spec.sources[r.next] in Act(r, Materialize(true, false), s).materialized
  {
  }
}
