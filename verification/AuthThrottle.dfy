/**
 The throttle of failed authentications: a window of recent failures for each client, at most so many
 clients, and what a plain log of all failures says about it.

 Time is a number; the clock never goes back. The clock readings are parameters.
 */
module AuthThrottle {
  import opened Basics

  ghost predicate Ordered(stamps: seq<real>) {
    forall i, j :: 0 <= i < j < |stamps| ==> stamps[i] <= stamps[j]
  }

  /** The stamps left once those up to `cutoff` at the front are dropped. */
  function Prune(stamps: seq<real>, cutoff: real): seq<real> {
    if stamps != [] && stamps[0] <= cutoff then Prune(stamps[1..], cutoff) else stamps
  }

  /** How many stamps lie after `cutoff`. */
  function CountAfter(stamps: seq<real>, cutoff: real): nat {
    if stamps == [] then 0
    else (if stamps[0] > cutoff then 1 else 0) + CountAfter(stamps[1..], cutoff)
  }

  lemma {:induction false} CountAfterConcatenation(a: seq<real>, b: seq<real>, cutoff: real)
    ensures CountAfter(a + b, cutoff) == CountAfter(a, cutoff) + CountAfter(b, cutoff)
  {
    if a == [] {
      assert a + b == b;
    } else {
      assert (a + b)[1..] == a[1..] + b;
      CountAfterConcatenation(a[1..], b, cutoff);
    }
  }

  lemma {:induction false} AllAfter(stamps: seq<real>, cutoff: real)
    requires Ordered(stamps) && (stamps != [] ==> stamps[0] > cutoff)
    ensures CountAfter(stamps, cutoff) == |stamps|
  {
    if stamps != [] {
      AllAfter(stamps[1..], cutoff);
    }
  }

  lemma {:induction false} NoneAfter(stamps: seq<real>, cutoff: real)
    requires forall i :: 0 <= i < |stamps| ==> stamps[i] <= cutoff
    ensures CountAfter(stamps, cutoff) == 0
  {
    if stamps != [] {
      NoneAfter(stamps[1..], cutoff);
    }
  }

  /** Pruning keeps exactly the stamps in the window. */
  lemma {:induction false} PruneKeepsTheWindow(stamps: seq<real>, cutoff: real)
    requires Ordered(stamps)
    ensures |Prune(stamps, cutoff)| == CountAfter(stamps, cutoff)
    ensures |Prune(stamps, cutoff)| <= |stamps|
    ensures Prune(stamps, cutoff) != [] ==> Prune(stamps, cutoff)[0] > cutoff
    ensures Prune(stamps, cutoff) == stamps[|stamps| - |Prune(stamps, cutoff)|..]
    ensures forall i :: 0 <= i < |stamps| - |Prune(stamps, cutoff)| ==> stamps[i] <= cutoff
  {
    if stamps != [] && stamps[0] <= cutoff {
      PruneKeepsTheWindow(stamps[1..], cutoff);
      assert forall i :: 0 < i < |stamps| ==> stamps[i] == stamps[1..][i - 1];
    } else {
      AllAfter(stamps, cutoff);
    }
  }

  // ----- the answer for one client

  function Ceiling(x: real): int {
    -((-x).Floor)
  }

  function Larger(a: int, b: int): int {
    if a < b then b else a
  }

  /** How long a client with these failures has to wait, if it does. */
  function RetryAfter(stamps: seq<real>, limit: int, window: real, now: real): Option<int> {
    var live := Prune(stamps, now - window);
    if live == [] || |live| < limit then None
    else Some(Larger(1, Ceiling(live[0] + window - now)))
  }

  /** A client is let through at `now` exactly when its `limit`-th newest failure has left the window. */
  lemma UnblockedExactlyWhen(stamps: seq<real>, limit: nat, window: real, now: real)
    requires Ordered(stamps) && 0 < limit <= |stamps|
    ensures RetryAfter(stamps, limit, window, now) == None <==> stamps[|stamps| - limit] <= now - window
  {
    PruneKeepsTheWindow(stamps, now - window);
    var live := Prune(stamps, now - window);
    if |live| >= limit {
      assert stamps[|stamps| - limit] >= live[0];
    }
  }

  /** A client that holds no more than `limit` failures is let through after waiting as told, when no
      failure is added. */
  lemma WaitingUnblocks(stamps: seq<real>, limit: nat, window: real, now: real, later: real)
    requires Ordered(stamps) && |stamps| <= limit && RetryAfter(stamps, limit, window, now).Some?
    requires later >= now + RetryAfter(stamps, limit, window, now).value as real
    ensures RetryAfter(stamps, limit, window, later) == None
  {
    PruneKeepsTheWindow(stamps, now - window);
    var live := Prune(stamps, now - window);
    assert live == stamps;
    var x := live[0] + window - now;
    assert (-x).Floor as real <= -x;
    UnblockedExactlyWhen(stamps, limit, window, later);
  }

  lemma CeilingIsLeast(x: real, n: int)
    ensures n >= Ceiling(x) <==> n as real >= x
  {
  }

  /** The time told is the least number of seconds, one at least, after which the oldest failure in the
      window has left it. */
  lemma WaitIsLeast(stamps: seq<real>, limit: nat, window: real, now: real, n: int)
    requires Ordered(stamps) && RetryAfter(stamps, limit, window, now).Some?
    ensures var live := CountAfter(stamps, now - window);
      && 0 < live <= |stamps|
      && (n >= RetryAfter(stamps, limit, window, now).value <==>
          n >= 1 && stamps[|stamps| - live] <= now + n as real - window)
  {
    PruneKeepsTheWindow(stamps, now - window);
    var live := Prune(stamps, now - window);
    CeilingIsLeast(live[0] + window - now, n);
  }

  /** With more failures than the limit, which requests that run together can leave, it may still be
      blocked then. */
  lemma WaitingMayNotBeEnough()
    ensures var stamps, wait := [0.0, 0.5], RetryAfter([0.0, 0.5], 1, 60.0, 1.0);
            wait == Some(59) && RetryAfter(stamps, 1, 60.0, 1.0 + 59.0).Some?
  {
    var x := 0.0 + 60.0 - 1.0;
    assert (-x).Floor == -59;
    assert Prune([0.0, 0.5], -59.0) == [0.0, 0.5];
    assert Prune([0.0, 0.5], 0.0) == [0.5];
  }

  // ----- one client's log and what is held of it

  /** What is held is the end of the log; what is missing has left the window or is no newer than `mark`,
      the newest stamp lost to eviction. */
  ghost predicate Agree(logged: seq<real>, held: seq<real>, mark: Option<real>, clock: real, window: real) {
    && Ordered(logged) && (forall i :: 0 <= i < |logged| ==> logged[i] <= clock)
    && |held| <= |logged| && held == logged[|logged| - |held|..]
    && forall i :: 0 <= i < |logged| - |held| ==>
         logged[i] <= clock - window || (mark.Some? && logged[i] <= mark.value)
  }

  /** The count over the log is at least the number held, and equal to it unless a stamp still in the
      window was evicted. */
  lemma HeldCountsTheLog(logged: seq<real>, held: seq<real>, mark: Option<real>, clock: real, window: real)
    requires Agree(logged, held, mark, clock, window)
    ensures CountAfter(logged, clock - window) >= |Prune(held, clock - window)|
    ensures mark.None? || mark.value <= clock - window ==>
              CountAfter(logged, clock - window) == |Prune(held, clock - window)|
  {
    var lost := logged[..|logged| - |held|];
    assert logged == lost + held;
    EndIsOrdered(logged, |lost|);
    CountLostAndHeld(lost, held, clock - window);
    if mark.None? || mark.value <= clock - window {
      NoneAfter(lost, clock - window);
    }
  }

  lemma EndIsOrdered(stamps: seq<real>, from: nat)
    requires Ordered(stamps) && from <= |stamps|
    ensures Ordered(stamps[from..])
  {
  }

  lemma CountLostAndHeld(lost: seq<real>, held: seq<real>, cutoff: real)
    requires Ordered(held)
    ensures CountAfter(lost + held, cutoff) == CountAfter(lost, cutoff) + |Prune(held, cutoff)|
  {
    CountAfterConcatenation(lost, held, cutoff);
    PruneKeepsTheWindow(held, cutoff);
  }

  lemma TimeKeepsAgreement(logged: seq<real>, held: seq<real>, mark: Option<real>, clock: real, window: real, now: real)
    requires Agree(logged, held, mark, clock, window) && now >= clock
    ensures Agree(logged, held, mark, now, window)
  {
  }

  lemma PruneKeepsAgreement(logged: seq<real>, held: seq<real>, mark: Option<real>, clock: real, window: real)
    requires Agree(logged, held, mark, clock, window)
    ensures Agree(logged, Prune(held, clock - window), mark, clock, window)
  {
    PruneKeepsTheWindow(held, clock - window);
    var live := Prune(held, clock - window);
    forall i | 0 <= i < |logged| - |live|
      ensures logged[i] <= clock - window || (mark.Some? && logged[i] <= mark.value)
    {
      if i >= |logged| - |held| {
        assert logged[i] == held[i - (|logged| - |held|)];
      }
    }
  }

  lemma FailureKeepsAgreement(logged: seq<real>, held: seq<real>, mark: Option<real>, clock: real, window: real)
    requires Agree(logged, held, mark, clock, window)
    ensures Agree(logged + [clock], held + [clock], mark, clock, window)
  {
  }

  lemma EvictionKeepsAgreement(logged: seq<real>, held: seq<real>, mark: Option<real>, clock: real, window: real)
    requires Agree(logged, held, mark, clock, window) && held != []
    ensures Agree(logged, [], Some(held[|held| - 1]), clock, window)
    ensures held[|held| - 1] <= clock - window ==> Agree(logged, [], mark, clock, window)
  {
    assert held[|held| - 1] == logged[|logged| - 1];
  }

  // ----- all clients

  /** The stamps a map keeps for a client, none for one it does not know. */
  function StampsOf(stamps: map<string, seq<real>>, client: string): seq<real> {
    if client in stamps then stamps[client] else []
  }

  ghost function MarkOf(evicted: map<string, real>, client: string): Option<real> {
    if client in evicted then Some(evicted[client]) else None
  }

  ghost predicate AllAgree(log: map<string, seq<real>>, failures: map<string, seq<real>>, evicted: map<string, real>,
                           clock: real, window: real) {
    && (forall c :: c in failures ==> failures[c] != [])
    && forall c :: AgreeOn(log, failures, evicted, clock, window, c)
  }

  ghost predicate AgreeOn(log: map<string, seq<real>>, failures: map<string, seq<real>>, evicted: map<string, real>,
                          clock: real, window: real, client: string) {
    Agree(StampsOf(log, client), StampsOf(failures, client), MarkOf(evicted, client), clock, window)
  }

  /** `failures` with one client's stamps pruned. */
  function Pruned(failures: map<string, seq<real>>, client: string, cutoff: real): map<string, seq<real>> {
    var live := Prune(StampsOf(failures, client), cutoff);
    if live == [] then failures - {client} else failures[client := live]
  }

  lemma TimeKeepsAll(log: map<string, seq<real>>, failures: map<string, seq<real>>, evicted: map<string, real>,
                     clock: real, window: real, now: real)
    requires AllAgree(log, failures, evicted, clock, window) && now >= clock
    ensures AllAgree(log, failures, evicted, now, window)
  {
    forall c ensures AgreeOn(log, failures, evicted, now, window, c) {
      assert AgreeOn(log, failures, evicted, clock, window, c);
      TimeKeepsAgreement(StampsOf(log, c), StampsOf(failures, c), MarkOf(evicted, c), clock, window, now);
    }
  }

  lemma PruneKeepsAll(log: map<string, seq<real>>, failures: map<string, seq<real>>, evicted: map<string, real>,
                      clock: real, window: real, client: string)
    requires AllAgree(log, failures, evicted, clock, window)
    ensures AllAgree(log, Pruned(failures, client, clock - window), evicted, clock, window)
  {
    var pruned := Pruned(failures, client, clock - window);
    forall c ensures AgreeOn(log, pruned, evicted, clock, window, c) {
      assert AgreeOn(log, failures, evicted, clock, window, c);
      PruneKeepsOne(log, failures, evicted, clock, window, client, c);
    }
  }

  lemma PruneKeepsOne(log: map<string, seq<real>>, failures: map<string, seq<real>>, evicted: map<string, real>,
                      clock: real, window: real, client: string, c: string)
    requires AgreeOn(log, failures, evicted, clock, window, c)
    ensures AgreeOn(log, Pruned(failures, client, clock - window), evicted, clock, window, c)
  {
    PrunedStamps(failures, client, clock - window, c);
    if c == client {
      PruneKeepsAgreement(StampsOf(log, c), StampsOf(failures, c), MarkOf(evicted, c), clock, window);
    } else {
      StillAgrees(log, log, failures, Pruned(failures, client, clock - window), evicted, evicted, clock, window, c);
    }
  }

  lemma PrunedStamps(failures: map<string, seq<real>>, client: string, cutoff: real, c: string)
    ensures StampsOf(Pruned(failures, client, cutoff), c)
         == if c == client then Prune(StampsOf(failures, c), cutoff) else StampsOf(failures, c)
  {
  }

  /** Who is not touched agrees as before. */
  lemma StillAgrees(log: map<string, seq<real>>, log': map<string, seq<real>>,
                    failures: map<string, seq<real>>, failures': map<string, seq<real>>,
                    evicted: map<string, real>, evicted': map<string, real>, clock: real, window: real, client: string)
    requires AgreeOn(log, failures, evicted, clock, window, client)
    requires StampsOf(log', client) == StampsOf(log, client)
    requires StampsOf(failures', client) == StampsOf(failures, client)
    requires MarkOf(evicted', client) == MarkOf(evicted, client)
    ensures AgreeOn(log', failures', evicted', clock, window, client)
  {
  }

  lemma StampsSet(stamps: map<string, seq<real>>, client: string, value: seq<real>, c: string)
    ensures StampsOf(stamps[client := value], c) == if c == client then value else StampsOf(stamps, c)
  {
  }

  lemma StampsRemoved(stamps: map<string, seq<real>>, client: string, c: string)
    ensures StampsOf(stamps - {client}, c) == if c == client then [] else StampsOf(stamps, c)
  {
  }

  lemma PrunedFits(failures: map<string, seq<real>>, client: string, cutoff: real)
    requires forall c :: c in failures ==> failures[c] != []
    ensures |Pruned(failures, client, cutoff)| <= |failures|
    ensures client !in failures ==> Pruned(failures, client, cutoff) == failures
  {
    var pruned := Pruned(failures, client, cutoff);
    if client in failures && Prune(StampsOf(failures, client), cutoff) != [] {
      assert pruned.Keys == failures.Keys;
    } else if client in failures {
      assert pruned.Keys == failures.Keys - {client};
    }
    assert |pruned.Keys| == |pruned| && |failures.Keys| == |failures|;
  }

  /** The answer against the log. */
  lemma AnswerFitsTheLog(log: map<string, seq<real>>, failures: map<string, seq<real>>, evicted: map<string, real>,
                         clock: real, window: real, client: string, limit: int)
    requires AllAgree(log, failures, evicted, clock, window) && limit > 0
    ensures RetryAfter(StampsOf(failures, client), limit, window, clock).Some? ==>
              LogBlocks(log, client, clock - window, limit)
    ensures NothingLiveEvicted(evicted, client, clock - window) ==>
              (RetryAfter(StampsOf(failures, client), limit, window, clock).Some? <==>
               LogBlocks(log, client, clock - window, limit))
  {
    assert AgreeOn(log, failures, evicted, clock, window, client);
    HeldCountsTheLog(StampsOf(log, client), StampsOf(failures, client), MarkOf(evicted, client), clock, window);
  }

  lemma FailureKeepsAll(log: map<string, seq<real>>, failures: map<string, seq<real>>, evicted: map<string, real>,
                        clock: real, window: real, client: string)
    requires AllAgree(log, failures, evicted, clock, window)
    ensures AllAgree(log[client := StampsOf(log, client) + [clock]],
                     failures[client := StampsOf(failures, client) + [clock]], evicted, clock, window)
  {
    var logged := log[client := StampsOf(log, client) + [clock]];
    var held := failures[client := StampsOf(failures, client) + [clock]];
    forall c ensures AgreeOn(logged, held, evicted, clock, window, c) {
      assert AgreeOn(log, failures, evicted, clock, window, c);
      FailureKeepsOne(log, failures, evicted, clock, window, client, StampsOf(log, client) + [clock],
                      StampsOf(failures, client) + [clock], c);
    }
  }

  lemma FailureKeepsOne(log: map<string, seq<real>>, failures: map<string, seq<real>>, evicted: map<string, real>,
                        clock: real, window: real, client: string,
                        logged: seq<real>, held: seq<real>, c: string)
    requires AgreeOn(log, failures, evicted, clock, window, c)
    requires logged == StampsOf(log, client) + [clock] && held == StampsOf(failures, client) + [clock]
    ensures AgreeOn(log[client := logged], failures[client := held], evicted, clock, window, c)
  {
    StampsSet(log, client, logged, c);
    StampsSet(failures, client, held, c);
    if c == client {
      FailureKeepsAgreement(StampsOf(log, c), StampsOf(failures, c), MarkOf(evicted, c), clock, window);
    } else {
      StillAgrees(log, log[client := logged], failures, failures[client := held], evicted, evicted, clock, window, c);
    }
  }

  /** A failure of a client whose held stamps are pruned first. */
  function WithFailure(failures: map<string, seq<real>>, client: string, now: real, window: real)
    : map<string, seq<real>>
  {
    failures[client := Prune(StampsOf(failures, client), now - window) + [now]]
  }

  lemma PrunedFailureKeepsAll(log: map<string, seq<real>>, failures: map<string, seq<real>>, evicted: map<string, real>,
                              clock: real, window: real, client: string, now: real)
    requires AllAgree(log, failures, evicted, clock, window) && now >= clock
    ensures AllAgree(log[client := StampsOf(log, client) + [now]], WithFailure(failures, client, now, window),
                     evicted, now, window)
  {
    TimeKeepsAll(log, failures, evicted, clock, window, now);
    PruneKeepsAll(log, failures, evicted, now, window, client);
    var pruned := Pruned(failures, client, now - window);
    FailureKeepsAll(log, pruned, evicted, now, window, client);
    assert pruned[client := StampsOf(pruned, client) + [now]] == WithFailure(failures, client, now, window);
  }

  lemma WithFailureAddsOne(failures: map<string, seq<real>>, client: string, now: real, window: real)
    ensures |WithFailure(failures, client, now, window)| == |failures| + if client in failures then 0 else 1
    ensures client !in failures ==> WithFailure(failures, client, now, window) == failures[client := [now]]
  {
    assert client !in failures ==> Prune(StampsOf(failures, client), now - window) + [now] == [now];
  }

  lemma SuccessKeepsAll(log: map<string, seq<real>>, failures: map<string, seq<real>>, evicted: map<string, real>,
                        clock: real, window: real, client: string)
    requires AllAgree(log, failures, evicted, clock, window)
    ensures AllAgree(log - {client}, failures - {client}, evicted - {client}, clock, window)
  {
    var logged, held, marked := log - {client}, failures - {client}, evicted - {client};
    forall c ensures AgreeOn(logged, held, marked, clock, window, c) {
      assert AgreeOn(log, failures, evicted, clock, window, c);
      SuccessKeepsOne(log, failures, evicted, clock, window, client, c);
    }
  }

  lemma SuccessKeepsOne(log: map<string, seq<real>>, failures: map<string, seq<real>>, evicted: map<string, real>,
                        clock: real, window: real, client: string, c: string)
    requires AgreeOn(log, failures, evicted, clock, window, c)
    ensures AgreeOn(log - {client}, failures - {client}, evicted - {client}, clock, window, c)
  {
    StampsRemoved(log, client, c);
    StampsRemoved(failures, client, c);
    if c != client {
      StillAgrees(log, log - {client}, failures, failures - {client}, evicted, evicted - {client}, clock, window, c);
    }
  }

  function Newest(failures: map<string, seq<real>>, client: string): real
    requires client in failures && failures[client] != []
  {
    failures[client][|failures[client]| - 1]
  }

  /** Who is evicted while live agrees, once what was lost is marked. */
  lemma EvictedAgrees(log: map<string, seq<real>>, failures: map<string, seq<real>>, fewer: map<string, seq<real>>,
                      evicted: map<string, real>, marked: map<string, real>, clock: real, window: real, client: string)
    requires AgreeOn(log, failures, evicted, clock, window, client)
    requires client in failures && failures[client] != []
    requires StampsOf(fewer, client) == [] && MarkOf(marked, client) == Some(Newest(failures, client))
    ensures AgreeOn(log, fewer, marked, clock, window, client)
  {
    EvictionKeepsAgreement(StampsOf(log, client), StampsOf(failures, client), MarkOf(evicted, client), clock, window);
  }

  /** Who has expired agrees without a mark. */
  lemma ExpiredAgrees(log: map<string, seq<real>>, failures: map<string, seq<real>>, live: map<string, seq<real>>,
                      evicted: map<string, real>, clock: real, window: real, client: string)
    requires AgreeOn(log, failures, evicted, clock, window, client)
    requires client in failures && failures[client] != [] && Newest(failures, client) <= clock - window
    requires StampsOf(live, client) == []
    ensures AgreeOn(log, live, evicted, clock, window, client)
  {
    EvictionKeepsAgreement(StampsOf(log, client), StampsOf(failures, client), MarkOf(evicted, client), clock, window);
  }

  lemma ExpiryKeepsAll(log: map<string, seq<real>>, failures: map<string, seq<real>>, evicted: map<string, real>,
                       clock: real, window: real, live: map<string, seq<real>>)
    requires AllAgree(log, failures, evicted, clock, window)
    requires forall c :: c in live ==> c in failures && live[c] == failures[c]
    requires forall c :: c in failures && c !in live ==> Newest(failures, c) <= clock - window
    ensures AllAgree(log, live, evicted, clock, window)
  {
    forall c ensures AgreeOn(log, live, evicted, clock, window, c) {
      assert AgreeOn(log, failures, evicted, clock, window, c);
      if c in failures && c !in live {
        ExpiredAgrees(log, failures, live, evicted, clock, window, c);
      } else {
        StillAgrees(log, log, failures, live, evicted, evicted, clock, window, c);
      }
    }
  }

  lemma EvictionKeepsAll(log: map<string, seq<real>>, failures: map<string, seq<real>>, evicted: map<string, real>,
                         clock: real, window: real, client: string)
    requires AllAgree(log, failures, evicted, clock, window) && client in failures
    ensures AllAgree(log, failures - {client}, evicted[client := Newest(failures, client)], clock, window)
  {
    var fewer, newest := failures - {client}, Newest(failures, client);
    var marked := evicted[client := newest];
    forall c ensures AgreeOn(log, fewer, marked, clock, window, c) {
      assert AgreeOn(log, failures, evicted, clock, window, c);
      EvictionKeepsOne(log, failures, evicted, clock, window, client, newest, c);
    }
  }

  lemma EvictionKeepsOne(log: map<string, seq<real>>, failures: map<string, seq<real>>, evicted: map<string, real>,
                         clock: real, window: real, client: string, newest: real, c: string)
    requires AgreeOn(log, failures, evicted, clock, window, c)
    requires client in failures && failures[client] != [] && newest == Newest(failures, client)
    ensures AgreeOn(log, failures - {client}, evicted[client := newest], clock, window, c)
  {
    var fewer, marked := failures - {client}, evicted[client := newest];
    StampsRemoved(failures, client, c);
    if c == client {
      EvictedAgrees(log, failures, fewer, evicted, marked, clock, window, c);
    } else {
      StillAgrees(log, log, failures, fewer, evicted, marked, clock, window, c);
    }
  }

  /** What eviction may do for a new client: leave all as it is when there is room; otherwise drop who
      has expired, and of the live ones only those with the oldest newest failure and only down to the
      bound, and mark what they lost. */
  ghost predicate EvictedWell(before: map<string, seq<real>>, after: map<string, seq<real>>,
                              markedBefore: map<string, real>, marked: map<string, real>, cutoff: real, maxClients: nat)
    requires forall c :: c in before ==> before[c] != []
  {
    && |after| < maxClients
    && (|before| < maxClients ==> after == before && marked == markedBefore)
    && (forall c :: c in after ==> c in before && after[c] == before[c])
    && (forall c :: c !in before || c in after ==> MarkOf(marked, c) == MarkOf(markedBefore, c))
    && (forall c :: c in before && c !in after ==> Gone(before, after, markedBefore, marked, cutoff, maxClients, c))
  }

  ghost predicate Gone(before: map<string, seq<real>>, after: map<string, seq<real>>, markedBefore: map<string, real>,
                       marked: map<string, real>, cutoff: real, maxClients: nat, client: string)
    requires forall c :: c in before ==> before[c] != []
    requires client in before && forall c :: c in after ==> c in before && after[c] == before[c]
  {
    if Newest(before, client) <= cutoff then
      MarkOf(marked, client) == MarkOf(markedBefore, client)
    else
      && MarkOf(marked, client) == Some(Newest(before, client))
      && |after| == maxClients - 1 && forall d :: d in after ==> Newest(before, client) <= Newest(after, d)
  }

  function Unexpired(failures: map<string, seq<real>>, cutoff: real): map<string, seq<real>>
    requires forall c :: c in failures ==> failures[c] != []
  {
    map c | c in failures && !(Newest(failures, c) <= cutoff) :: failures[c]
  }

  /** Between the live clients and what is left while the oldest are being evicted. */
  ghost predicate Trimmed(live: map<string, seq<real>>, after: map<string, seq<real>>,
                          markedBefore: map<string, real>, marked: map<string, real>, maxClients: nat)
    requires forall c :: c in live ==> live[c] != []
  {
    && (forall c :: c in after ==> c in live && after[c] == live[c])
    && (forall c :: c !in live || c in after ==> MarkOf(marked, c) == MarkOf(markedBefore, c))
    && (forall c :: c in live && c !in after ==>
         && MarkOf(marked, c) == Some(Newest(live, c)) && |after| + 1 >= maxClients
         && forall d :: d in after ==> Newest(live, c) <= Newest(after, d))
  }

  lemma TrimStep(live: map<string, seq<real>>, after: map<string, seq<real>>,
                 markedBefore: map<string, real>, marked: map<string, real>, maxClients: nat, oldest: string)
    requires forall c :: c in live ==> live[c] != []
    requires Trimmed(live, after, markedBefore, marked, maxClients)
    requires |after| >= maxClients && oldest in after
    requires forall c :: c in after ==> Newest(after, oldest) <= Newest(after, c)
    ensures Trimmed(live, after - {oldest}, markedBefore, marked[oldest := Newest(after, oldest)], maxClients)
    ensures |after - {oldest}| == |after| - 1
  {
    OneFewer(after, oldest);
  }

  lemma OneFewer(stamps: map<string, seq<real>>, client: string)
    requires client in stamps
    ensures |stamps - {client}| == |stamps| - 1
  {
    assert (stamps - {client}).Keys == stamps.Keys - {client};
    assert |(stamps - {client}).Keys| == |stamps - {client}| && |stamps.Keys| == |stamps|;
  }

  lemma TrimmedIsEvictedWell(before: map<string, seq<real>>, after: map<string, seq<real>>,
                             markedBefore: map<string, real>, marked: map<string, real>, cutoff: real, maxClients: nat)
    requires forall c :: c in before ==> before[c] != []
    requires Trimmed(Unexpired(before, cutoff), after, markedBefore, marked, maxClients)
    requires |before| >= maxClients > |after|
    ensures EvictedWell(before, after, markedBefore, marked, cutoff, maxClients)
  {
    var live := Unexpired(before, cutoff);
    forall c | c in before && c !in after
      ensures Gone(before, after, markedBefore, marked, cutoff, maxClients, c)
    {
      if Newest(before, c) > cutoff {
        assert c in live;
      }
    }
  }

  /** The client lost no stamp to eviction that would still be in the window. */
  ghost predicate NothingLiveEvicted(evicted: map<string, real>, client: string, cutoff: real) {
    client in evicted ==> evicted[client] <= cutoff
  }

  /** What the plain log says: at least `limit` failures in the window. */
  ghost predicate LogBlocks(log: map<string, seq<real>>, client: string, cutoff: real, limit: int) {
    CountAfter(StampsOf(log, client), cutoff) >= limit
  }

  // ----- the throttle

  /** What authenticating a request answers. */
  datatype Authentication = Accepted | Rejected(status: int)

  datatype Response = Throttled(wait: int) | Refusal(status: int) | Admitted

  class AuthFailureThrottle {
    const limit: int
    const window: real
    const maxClients: nat
    var failures: map<string, seq<real>>

    /** The plain log: every failure of a client since its last success. */
    ghost var log: map<string, seq<real>>
    /** The newest stamp a client lost to eviction while it was live, since its last success. */
    ghost var evicted: map<string, real>
    /** The last clock reading. */
    ghost var clock: real

    ghost predicate Valid()
      reads this
    {
      maxClients >= 1 && |failures| <= maxClients && AllAgree(log, failures, evicted, clock, window)
    }

    constructor (limit: int, window: real, maxClients: nat, now: real)
      requires maxClients >= 1
      ensures Valid() && log == map[] && failures == map[] && evicted == map[] && clock == now
      ensures this.limit == limit && this.window == window && this.maxClients == maxClients
    {
      this.limit, this.window, this.maxClients := limit, window, maxClients;
      failures, log, evicted, clock := map[], map[], map[], now;
    }

    predicate Enabled() {
      limit > 0
    }

    /** Under the lock: prune and answer. */
    method LockedRetryAfter(client: string, now: real) returns (wait: Option<int>)
      requires Valid() && now == clock
      modifies this`failures
      ensures Valid() && failures == Pruned(old(failures), client, now - window)
      ensures wait == RetryAfter(StampsOf(old(failures), client), limit, window, now)
    {
      PruneKeepsAll(log, failures, evicted, now, window, client);
      PrunedFits(failures, client, now - window);
      wait := None;
      if client in failures {
        var live := Prune(failures[client], now - window);
        failures := if live == [] then failures - {client} else failures[client := live];
        if live != [] && |live| >= limit {
          // Capacity returns when the first of them leaves the window.
          wait := Some(Larger(1, Ceiling(live[0] + window - now)));
        }
      }
    }

    /** `retry_after`: blocked only when the log has at least `limit` failures in the window, and
        exactly then unless the client lost one of them to eviction. */
    method CheckRetryAfter(client: Option<string>, now: real) returns (wait: Option<int>)
      requires Valid() && now >= clock
      modifies this
      ensures Valid() && clock == now && log == old(log) && evicted == old(evicted)
      ensures !Enabled() || client.None? ==> wait == None && failures == old(failures)
      ensures Enabled() && client.Some? ==>
        && wait == RetryAfter(StampsOf(old(failures), client.value), limit, window, now)
        && failures == Pruned(old(failures), client.value, now - window)
        && (wait.Some? ==> wait.value >= 1 && LogBlocks(log, client.value, now - window, limit))
        && (NothingLiveEvicted(evicted, client.value, now - window) ==>
              (wait.Some? <==> LogBlocks(log, client.value, now - window, limit)))
    {
      TimeKeepsAll(log, failures, evicted, clock, window, now);
      clock := now;
      if !Enabled() || client.None? {
        return None;
      }
      AnswerFitsTheLog(log, failures, evicted, now, window, client.value, limit);
      wait := LockedRetryAfter(client.value, now);
    }

    /** `record_success`: the log of the client starts anew. */
    method RecordSuccess(client: Option<string>)
      requires Valid()
      modifies this
      ensures Valid() && clock == old(clock)
      ensures !Enabled() || client.None? ==> log == old(log) && failures == old(failures) && evicted == old(evicted)
      ensures Enabled() && client.Some? ==>
        && log == old(log) - {client.value}
        && failures == old(failures) - {client.value} && evicted == old(evicted) - {client.value}
    {
      if Enabled() && client.Some? {
        var c := client.value;
        SuccessKeepsAll(log, failures, evicted, clock, window, c);
        failures := failures - {c};
        log := log - {c};
        evicted := evicted - {c};
      }
    }

    /** The client whose newest failure is the oldest. */
    method Oldest() returns (client: string)
      requires failures != map[] && forall c :: c in failures ==> failures[c] != []
      ensures client in failures
      ensures forall c :: c in failures ==> Newest(failures, client) <= Newest(failures, c)
    {
      var left := failures.Keys;
      client :| client in left;
      while left != {}
        invariant left <= failures.Keys && client in failures
        invariant forall c :: c in failures && c !in left ==> Newest(failures, client) <= Newest(failures, c)
      {
        var c :| c in left;
        if Newest(failures, c) < Newest(failures, client) {
          client := c;
        }
        left := left - {c};
      }
    }

    /** `_evict_if_needed`: room for one more client. */
    method EvictIfNeeded(now: real)
      requires Valid() && now >= clock
      modifies this
      ensures Valid() && clock == now && log == old(log)
      ensures EvictedWell(old(failures), failures, old(evicted), evicted, now - window, maxClients)
    {
      TimeKeepsAll(log, failures, evicted, clock, window, now);
      clock := now;
      if |failures| < maxClients {
        return;
      }
      var cutoff := now - window;
      var live := Unexpired(failures, cutoff);
      ExpiryKeepsAll(log, failures, evicted, clock, window, live);
      failures := live;
      EvictOldest();
      TrimmedIsEvictedWell(old(failures), failures, old(evicted), evicted, cutoff, maxClients);
    }

    method EvictOldest()
      requires maxClients >= 1 && AllAgree(log, failures, evicted, clock, window)
      modifies this`failures, this`evicted
      ensures |failures| < maxClients && AllAgree(log, failures, evicted, clock, window)
      ensures Trimmed(old(failures), failures, old(evicted), evicted, maxClients)
    {
      while |failures| >= maxClients
        invariant AllAgree(log, failures, evicted, clock, window)
        invariant Trimmed(old(failures), failures, old(evicted), evicted, maxClients)
        decreases |failures|
      {
        var oldest := Oldest();
        EvictionKeepsAll(log, failures, evicted, clock, window, oldest);
        TrimStep(old(failures), failures, old(evicted), evicted, maxClients, oldest);
        evicted := evicted[oldest := Newest(failures, oldest)];
        failures := failures - {oldest};
      }
    }

    /** `record_failure`: the log grows by one failure; what is held of the client is pruned and grows
        with it, after room was made for a client not known. */
    method RecordFailure(client: Option<string>, now: real)
      requires Valid() && now >= clock
      modifies this
      ensures Valid()
      ensures !Enabled() || client.None? ==>
        failures == old(failures) && log == old(log) && evicted == old(evicted) && clock == old(clock)
      ensures Enabled() && client.Some? ==>
        clock == now && log == old(log)[client.value := StampsOf(old(log), client.value) + [now]]
      ensures Enabled() && client.Some? && client.value in old(failures) ==>
        evicted == old(evicted) && failures == WithFailure(old(failures), client.value, now, window)
      ensures Enabled() && client.Some? && client.value !in old(failures) ==>
        exists kept :: failures == kept[client.value := [now]] && client.value !in kept &&
          EvictedWell(old(failures), kept, old(evicted), evicted, now - window, maxClients)
    {
      if Enabled() && client.Some? {
        if client.value !in failures {
          EvictIfNeeded(now);
        }
        TimeKeepsAll(log, failures, evicted, clock, window, now);
        clock := now;
        WithFailureAddsOne(failures, client.value, now, window);
        Append(client.value, now);
      }
    }

    /** The pruned stamps of the client and the new one. */
    method Append(client: string, now: real)
      requires Valid() && clock == now && (client in failures || |failures| < maxClients)
      modifies this`failures, this`log
      ensures Valid() && log == old(log)[client := StampsOf(old(log), client) + [now]]
      ensures failures == WithFailure(old(failures), client, now, window)
    {
      PrunedFailureKeepsAll(log, failures, evicted, clock, window, client, now);
      WithFailureAddsOne(failures, client, now, window);
      failures := WithFailure(failures, client, now, window);
      log := log[client := StampsOf(log, client) + [now]];
    }

    /** The gate of a request: a throttled one is answered without authenticating it; of the refusals
        only 401 counts as a failure; a success starts the log anew. */
    method Dispatch(client: Option<string>, answer: Authentication, arrived: real, answered: real)
        returns (response: Response)
      requires Valid() && clock <= arrived <= answered
      modifies this
      ensures Valid()
      ensures response.Throttled? ==> log == old(log) && evicted == old(evicted)
      ensures response.Throttled? ==> client.Some? && limit > 0 && response.wait >= 1
      ensures response.Throttled? ==> LogBlocks(old(log), client.value, arrived - window, limit)
      ensures !response.Throttled? && limit > 0 && client.Some? ==>
        || !NothingLiveEvicted(old(evicted), client.value, arrived - window)
        || !LogBlocks(old(log), client.value, arrived - window, limit)
      ensures !response.Throttled? ==> response == if answer.Accepted? then Admitted else Refusal(answer.status)
      ensures !response.Throttled? && limit > 0 && client.Some? && answer.Accepted? ==> log == old(log) - {client.value}
      ensures !response.Throttled? && limit > 0 && client.Some? && answer == Rejected(401) ==>
        log == old(log)[client.value := StampsOf(old(log), client.value) + [answered]]
      ensures !response.Throttled? && answer.Rejected? && answer.status != 401 ==> log == old(log)
    {
      var wait := CheckRetryAfter(client, arrived);
      if wait.Some? {
        return Throttled(wait.value);
      }
      if answer.Rejected? {
        if answer.status == 401 {
          RecordFailure(client, answered);
        }
        return Refusal(answer.status);
      }
      RecordSuccess(client);
      return Admitted;
    }
  }
}
