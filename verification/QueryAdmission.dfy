/**
 Admission of queries: a slot of the concurrency limit, then a reservation from the memory budget, both
 given back on every exit; first for one query, then for any number of threads whose steps interleave.
 */
module QueryAdmission {
  import opened Basics

  // ----- the memory budget

  /** There is room for `amount` more. */
  predicate Fits(total: int, reserved: int, amount: int) {
    reserved + amount <= total
  }

  function Returned(reserved: int, amount: int): int {
    if reserved - amount < 0 then 0 else reserved - amount
  }

  class MemoryBudget {
    const total: int
    var reserved: int

    constructor (total: int)
      requires total >= 1
      ensures this.total == total && reserved == 0
    {
      this.total, reserved := total, 0;
    }

    method Reserve(amount: int) returns (ok: bool)
      modifies this
      ensures ok <==> Fits(total, old(reserved), amount)
      ensures reserved == if ok then old(reserved) + amount else old(reserved)
      ensures old(reserved) <= total ==> reserved <= total
    {
      if reserved + amount > total {
        return false;
      }
      reserved := reserved + amount;
      return true;
    }

    method Release(amount: int)
      modifies this
      ensures reserved == Returned(old(reserved), amount)
      ensures 0 <= amount <= old(reserved) ==> reserved == old(reserved) - amount
    {
      reserved := if reserved - amount < 0 then 0 else reserved - amount;
    }
  }

  // ----- one query

  datatype Answer = Ran(failed: bool) | SlotsExhausted | MemoryExhausted

  class QueryService {
    const capacity: nat
    const budget: MemoryBudget?
    const reservation: nat
    /** The free slots of the semaphore. */
    var free: nat

    constructor (capacity: nat, memoryLimit: Option<nat>, budget: MemoryBudget?)
      requires capacity >= 1
      ensures this.capacity == capacity == free && this.budget == budget
      ensures reservation == Reservation(memoryLimit, if budget == null then None else Some(budget.total))
    {
      this.capacity, free, this.budget := capacity, capacity, budget;
      reservation := match memoryLimit
        case Some(bytes) => bytes
        case None => if budget != null && budget.total >= 0 then budget.total else 0;
    }

    /** One query through `_admitted`: whether it succeeds, fails or is refused, the slots and the
        memory are afterwards what they were. */
    method Execute(fails: bool) returns (answer: Answer)
      requires free <= capacity && (budget != null ==> 0 <= budget.reserved)
      modifies this, budget
      ensures free == old(free) && (budget != null ==> budget.reserved == old(budget.reserved))
      ensures answer == SlotsExhausted <==> old(free) == 0
      ensures answer == MemoryExhausted <==>
        old(free) > 0 && budget != null && !Fits(budget.total, old(budget.reserved), reservation)
      ensures answer.Ran? ==> answer.failed == fails
    {
      if free == 0 {
        return SlotsExhausted;
      }
      free := free - 1;
      var reserved := false;
      answer := Ran(fails);
      if budget != null {
        reserved := budget.Reserve(reservation);
        if !reserved {
          answer := MemoryExhausted;
        }
      }
      if reserved && budget != null {
        budget.Release(reservation);
      }
      free := free + 1;
    }
  }

  // ----- many threads

  /** What one query reserves: its memory cap, or the whole budget without one. */
  function Reservation(memoryLimit: Option<nat>, total: Option<int>): nat {
    match memoryLimit
    case Some(bytes) => bytes
    case None => if total.Some? && total.value >= 0 then total.value else 0
  }

  datatype Config = Config(capacity: nat, memoryLimit: Option<nat>, total: Option<int>)

  ghost predicate ValidConfig(c: Config) {
    c.capacity >= 1 && (c.memoryLimit.Some? ==> c.memoryLimit.value >= 1) && (c.total.Some? ==> c.total.value >= 1)
  }

  function Amount(c: Config): nat {
    Reservation(c.memoryLimit, c.total)
  }

  /** Where a thread is. `Leaving` is the way out through `finally`, with the memory still to give back
      or not; `Returning` has only its slot left. */
  datatype Thread =
    | Outside
    | HasSlot
    | Running(reserved: bool)
    | Leaving(reserved: bool)
    | Returning

  datatype State = State(free: nat, reserved: int, threads: seq<Thread>)

  /** What a thread does next; `Next` moves a thread that is inside. */
  datatype Action = Enter | Next

  function Start(c: Config, n: nat): State {
    State(c.capacity, 0, seq(n, _ => Outside))
  }

  /** One atomic step of thread `id`. */
  function Do(c: Config, s: State, id: nat, a: Action): State {
    if id >= |s.threads| then s
    else
      match s.threads[id]
      case Outside =>
        if a.Enter? && s.free > 0 then State(s.free - 1, s.reserved, s.threads[id := HasSlot]) else s
      case HasSlot =>
        if c.total.None? then s.(threads := s.threads[id := Running(false)])
        else if Fits(c.total.value, s.reserved, Amount(c)) then
          State(s.free, s.reserved + Amount(c), s.threads[id := Running(true)])
        else s.(threads := s.threads[id := Leaving(false)])
      case Running(reserved) => s.(threads := s.threads[id := Leaving(reserved)])
      case Leaving(reserved) =>
        if reserved && c.total.Some?
        then State(s.free, Returned(s.reserved, Amount(c)), s.threads[id := Returning])
        else s.(threads := s.threads[id := Returning])
      case Returning => State(s.free + 1, s.reserved, s.threads[id := Outside])
  }

  function After(c: Config, n: nat, schedule: seq<(nat, Action)>): State {
    if schedule == [] then Start(c, n)
    else
      var last := schedule[|schedule| - 1];
      Do(c, After(c, n, schedule[..|schedule| - 1]), last.0, last.1)
  }

  /** What a thread holds. */
  function SlotsOf(t: Thread): nat {
    if t.Outside? then 0 else 1
  }

  function MemoryOf(t: Thread, amount: nat): nat {
    if (t.Running? || t.Leaving?) && t.reserved then amount else 0
  }

  function SlotsHeld(threads: seq<Thread>): nat {
    if threads == [] then 0 else SlotsOf(threads[0]) + SlotsHeld(threads[1..])
  }

  /** The sum of the live reservations. */
  function MemoryHeld(threads: seq<Thread>, amount: nat): nat {
    if threads == [] then 0 else MemoryOf(threads[0], amount) + MemoryHeld(threads[1..], amount)
  }

  ghost predicate Inv(c: Config, s: State) {
    && s.free + SlotsHeld(s.threads) == c.capacity
    && s.reserved == MemoryHeld(s.threads, Amount(c))
    && (c.total.Some? ==> s.reserved <= c.total.value)
    && (c.total.None? ==> s.reserved == 0)
    && forall i :: 0 <= i < |s.threads| ==> FitsConfig(c, s.threads[i])
  }

  /** A query runs with a reservation exactly when there is a budget. */
  predicate FitsConfig(c: Config, t: Thread) {
    if c.total.Some? then t != Running(false) else NoMemory(t)
  }

  predicate NoMemory(t: Thread) {
    (t.Running? || t.Leaving?) ==> !t.reserved
  }

  lemma {:induction false} HeldUpdated(threads: seq<Thread>, id: nat, t: Thread, amount: nat)
    requires id < |threads|
    ensures SlotsHeld(threads[id := t]) == SlotsHeld(threads) - SlotsOf(threads[id]) + SlotsOf(t)
    ensures MemoryHeld(threads[id := t], amount)
            == MemoryHeld(threads, amount) - MemoryOf(threads[id], amount) + MemoryOf(t, amount)
  {
    var updated := threads[id := t];
    if id == 0 {
      assert updated[1..] == threads[1..];
    } else {
      assert updated[1..] == threads[1..][id - 1 := t];
      HeldUpdated(threads[1..], id - 1, t, amount);
    }
  }

  /** No thread holds more than all hold together. */
  lemma {:induction false} OneOfMany(threads: seq<Thread>, id: nat, amount: nat)
    requires id < |threads|
    ensures MemoryOf(threads[id], amount) <= MemoryHeld(threads, amount)
    ensures SlotsOf(threads[id]) <= SlotsHeld(threads)
  {
    if id > 0 {
      OneOfMany(threads[1..], id - 1, amount);
    }
  }

  lemma DoKeepsInv(c: Config, s: State, id: nat, a: Action)
    requires ValidConfig(c) && Inv(c, s)
    ensures Inv(c, Do(c, s, id, a))
  {
    if id < |s.threads| {
      var t := Do(c, s, id, a).threads[id];
      assert FitsConfig(c, s.threads[id]);
      OneThreadMoves(c, s, id, a);
      HeldUpdated(s.threads, id, t, Amount(c));
      OneOfMany(s.threads, id, Amount(c));
      StepIsAccounted(c, s, id, a);
    }
  }

  lemma OneThreadMoves(c: Config, s: State, id: nat, a: Action)
    requires id < |s.threads| && FitsConfig(c, s.threads[id])
    ensures Do(c, s, id, a).threads == s.threads[id := Do(c, s, id, a).threads[id]]
    ensures FitsConfig(c, Do(c, s, id, a).threads[id])
  {
  }

  /** What a step takes from the free slots and the free memory, its thread holds, and the other way
      round. */
  lemma StepIsAccounted(c: Config, s: State, id: nat, a: Action)
    requires id < |s.threads| && FitsConfig(c, s.threads[id]) && s.reserved >= MemoryOf(s.threads[id], Amount(c))
    ensures var s' := Do(c, s, id, a);
      && |s'.threads| == |s.threads|
      && s'.free + SlotsOf(s'.threads[id]) == s.free + SlotsOf(s.threads[id])
      && s'.reserved - MemoryOf(s'.threads[id], Amount(c)) == s.reserved - MemoryOf(s.threads[id], Amount(c))
      && (c.total.Some? && s.reserved <= c.total.value ==> s'.reserved <= c.total.value)
      && (c.total.None? ==> s'.reserved == s.reserved)
  {
  }

  /** In every interleaving: slots free and slots held make up the capacity, and what is reserved is
      the sum of the live reservations and within the budget. */
  lemma {:induction false} EveryInterleavingKeepsTheLimits(c: Config, n: nat, schedule: seq<(nat, Action)>)
    requires ValidConfig(c)
    ensures Inv(c, After(c, n, schedule)) && |After(c, n, schedule).threads| == n
  {
    if schedule == [] {
      NobodyHoldsAnything(Start(c, n).threads, Amount(c));
    } else {
      var last := schedule[|schedule| - 1];
      EveryInterleavingKeepsTheLimits(c, n, schedule[..|schedule| - 1]);
      DoKeepsInv(c, After(c, n, schedule[..|schedule| - 1]), last.0, last.1);
    }
  }

  lemma {:induction false} NobodyHoldsAnything(threads: seq<Thread>, amount: nat)
    requires AllOutside(threads)
    ensures SlotsHeld(threads) == 0 && MemoryHeld(threads, amount) == 0
  {
    if threads != [] {
      NobodyHoldsAnything(threads[1..], amount);
    }
  }

  ghost predicate AllOutside(threads: seq<Thread>) {
    forall i :: 0 <= i < |threads| ==> threads[i] == Outside
  }

  /** Once all threads have left, everything has been returned. */
  lemma AllIsReturned(c: Config, n: nat, schedule: seq<(nat, Action)>)
    requires ValidConfig(c)
    requires AllOutside(After(c, n, schedule).threads)
    ensures After(c, n, schedule).free == c.capacity && After(c, n, schedule).reserved == 0
  {
    EveryInterleavingKeepsTheLimits(c, n, schedule);
    NobodyHoldsAnything(After(c, n, schedule).threads, Amount(c));
  }

  /** The clamp in `release` never takes effect, and the semaphore is never released beyond its
      capacity. */
  lemma ReleasesAreExact(c: Config, n: nat, schedule: seq<(nat, Action)>, id: nat)
    requires ValidConfig(c) && id < n
    ensures |After(c, n, schedule).threads| == n
    ensures After(c, n, schedule).threads[id] == Leaving(true) ==>
              Returned(After(c, n, schedule).reserved, Amount(c)) == After(c, n, schedule).reserved - Amount(c)
    ensures After(c, n, schedule).threads[id] == Returning ==> After(c, n, schedule).free < c.capacity
  {
    EveryInterleavingKeepsTheLimits(c, n, schedule);
    OneOfMany(After(c, n, schedule).threads, id, Amount(c));
  }

  function CountReserved(threads: seq<Thread>): nat {
    if threads == [] then 0 else (if NoMemory(threads[0]) then 0 else 1) + CountReserved(threads[1..])
  }

  lemma {:induction false} MemoryIsCounted(threads: seq<Thread>, amount: nat)
    ensures MemoryHeld(threads, amount) == CountReserved(threads) * amount
  {
    if threads != [] {
      MemoryIsCounted(threads[1..], amount);
    }
  }

  predicate RefusesMemory(c: Config, s: State, id: nat)
    requires id < |s.threads|
  {
    |Do(c, s, id, Next).threads| == |s.threads| && Do(c, s, id, Next).threads[id] == Leaving(false)
  }

  /** A query is refused for memory exactly when one more would take the live reservations over the
      budget; without a memory cap of its own, exactly when another query holds the budget. */
  lemma RefusedForMemoryExactlyWhen(c: Config, n: nat, schedule: seq<(nat, Action)>, id: nat)
    requires ValidConfig(c) && c.total.Some? && id < n
    ensures |After(c, n, schedule).threads| == n
    ensures After(c, n, schedule).threads[id] == HasSlot ==>
              (RefusesMemory(c, After(c, n, schedule), id) <==>
               (CountReserved(After(c, n, schedule).threads) + 1) * Amount(c) > c.total.value)
    ensures After(c, n, schedule).threads[id] == HasSlot && c.memoryLimit.None? ==>
              (RefusesMemory(c, After(c, n, schedule), id) <==> CountReserved(After(c, n, schedule).threads) > 0)
  {
    EveryInterleavingKeepsTheLimits(c, n, schedule);
    var s := After(c, n, schedule);
    MemoryIsCounted(s.threads, Amount(c));
    Times(CountReserved(s.threads), Amount(c));
  }

  /** With a memory cap, what one more takes is that cap. */
  lemma RefusedForItsCapExactlyWhen(c: Config, n: nat, schedule: seq<(nat, Action)>, id: nat)
    requires ValidConfig(c) && c.total.Some? && c.memoryLimit.Some? && id < n
    ensures |After(c, n, schedule).threads| == n
    ensures After(c, n, schedule).threads[id] == HasSlot ==>
              (RefusesMemory(c, After(c, n, schedule), id) <==>
               (CountReserved(After(c, n, schedule).threads) + 1) * c.memoryLimit.value > c.total.value)
  {
    RefusedForMemoryExactlyWhen(c, n, schedule, id);
  }

  function CountInside(threads: seq<Thread>): nat {
    if threads == [] then 0 else (if threads[0] == Outside then 0 else 1) + CountInside(threads[1..])
  }

  lemma {:induction false} SlotsAreCounted(threads: seq<Thread>)
    ensures SlotsHeld(threads) == CountInside(threads)
  {
    if threads != [] {
      SlotsAreCounted(threads[1..]);
    }
  }

  /** A thread gets a slot exactly when fewer than the limit are inside. */
  lemma AdmittedExactlyWhen(c: Config, n: nat, schedule: seq<(nat, Action)>, id: nat)
    requires ValidConfig(c) && id < n
    ensures var s := After(c, n, schedule);
      && |s.threads| == |Do(c, s, id, Enter).threads| == n
      && (s.threads[id] == Outside ==>
            (Do(c, s, id, Enter).threads[id] == HasSlot <==> CountInside(s.threads) < c.capacity))
  {
    EveryInterleavingKeepsTheLimits(c, n, schedule);
    SlotsAreCounted(After(c, n, schedule).threads);
  }

  lemma Times(k: nat, amount: nat)
    ensures (k + 1) * amount == k * amount + amount
    ensures k >= 1 ==> k * amount >= amount
    ensures k >= 2 ==> k * amount >= 2 * amount
    ensures k == 0 ==> k * amount == 0
  {
    if k >= 1 {
      assert k * amount == (k - 1) * amount + amount;
    }
    if k >= 2 {
      assert k * amount == (k - 2) * amount + 2 * amount;
    }
  }

  /** Without a memory cap of its own a query reserves the whole budget: they run one at a time. */
  lemma OneAtATimeWithoutACap(c: Config, n: nat, schedule: seq<(nat, Action)>)
    requires ValidConfig(c) && c.total.Some? && c.memoryLimit.None?
    ensures CountReserved(After(c, n, schedule).threads) <= 1
  {
    EveryInterleavingKeepsTheLimits(c, n, schedule);
    var threads := After(c, n, schedule).threads;
    MemoryIsCounted(threads, Amount(c));
    Times(CountReserved(threads), Amount(c));
  }

  function CountRunning(threads: seq<Thread>): nat {
    if threads == [] then 0 else (if threads[0].Running? then 1 else 0) + CountRunning(threads[1..])
  }

  lemma {:induction false} RunningHold(threads: seq<Thread>)
    ensures CountRunning(threads) <= SlotsHeld(threads)
    ensures (forall i :: 0 <= i < |threads| ==> threads[i] != Running(false)) ==>
              CountRunning(threads) <= CountReserved(threads)
  {
    if threads != [] {
      RunningHold(threads[1..]);
      if forall i :: 0 <= i < |threads| ==> threads[i] != Running(false) {
        assert threads[0] != Running(false);
        assert forall i :: 0 <= i < |threads[1..]| ==> threads[1..][i] == threads[i + 1];
      }
    }
  }

  /** At any moment, no more queries run than there are slots, and what those that run may take together
      fits in the budget. */
  lemma RunningQueriesFit(c: Config, n: nat, schedule: seq<(nat, Action)>)
    requires ValidConfig(c)
    ensures CountRunning(After(c, n, schedule).threads) <= c.capacity
    ensures c.total.Some? ==> CountRunning(After(c, n, schedule).threads) * Amount(c) <= c.total.value
  {
    EveryInterleavingKeepsTheLimits(c, n, schedule);
    var threads := After(c, n, schedule).threads;
    assert forall i :: 0 <= i < |threads| ==> FitsConfig(c, threads[i]);
    RunningHold(threads);
    MemoryIsCounted(threads, Amount(c));
    FewerTimes(CountRunning(threads), CountReserved(threads), Amount(c));
  }

  lemma FewerTimes(x: nat, y: nat, amount: nat)
    ensures x <= y ==> x * amount <= y * amount
  {
  }

  // ----- no thread keeps another from leaving

  /** The steps a thread has left until it is outside. */
  function StepsLeft(t: Thread): nat {
    match t
    case Outside => 0
    case HasSlot => 4
    case Running(_) => 3
    case Leaving(_) => 2
    case Returning => 1
  }

  /** The state a schedule leads to from another state. */
  function From(c: Config, s: State, schedule: seq<(nat, Action)>): State {
    if schedule == [] then s
    else
      var last := schedule[|schedule| - 1];
      Do(c, From(c, s, schedule[..|schedule| - 1]), last.0, last.1)
  }

  lemma {:induction false} AfterMore(c: Config, n: nat, first: seq<(nat, Action)>, second: seq<(nat, Action)>)
    ensures From(c, After(c, n, first), second) == After(c, n, first + second)
  {
    if second == [] {
      assert first + second == first;
    } else {
      assert (first + second)[..|first + second| - 1] == first + second[..|second| - 1];
      AfterMore(c, n, first, second[..|second| - 1]);
    }
  }

  /** How many steps of the schedule are those of a thread. */
  function StepsOf(schedule: seq<(nat, Action)>, id: nat): nat {
    if schedule == [] then 0
    else StepsOf(schedule[..|schedule| - 1], id) + (if schedule[|schedule| - 1].0 == id then 1 else 0)
  }

  ghost predicate NobodyEnters(schedule: seq<(nat, Action)>) {
    forall i :: 0 <= i < |schedule| ==> schedule[i].1 == Next
  }

  /** Each step of a thread brings it nearer to the exit, whatever the others do in between. */
  lemma {:induction false} EveryStepLeadsOut(c: Config, s: State, schedule: seq<(nat, Action)>, id: nat)
    requires NobodyEnters(schedule) && id < |s.threads|
    ensures |From(c, s, schedule).threads| == |s.threads|
    ensures StepsLeft(From(c, s, schedule).threads[id]) == 0
         || StepsLeft(From(c, s, schedule).threads[id]) + StepsOf(schedule, id) <= StepsLeft(s.threads[id])
  {
    if schedule != [] {
      EveryStepLeadsOut(c, s, schedule[..|schedule| - 1], id);
      var last := schedule[|schedule| - 1];
      StepsOfOneStep(c, From(c, s, schedule[..|schedule| - 1]), last.0, id);
    }
  }

  lemma StepsOfOneStep(c: Config, s: State, moved: nat, id: nat)
    requires id < |s.threads|
    ensures |Do(c, s, moved, Next).threads| == |s.threads|
    ensures moved != id ==> Do(c, s, moved, Next).threads[id] == s.threads[id]
    ensures s.threads[id] == Outside ==> Do(c, s, moved, Next).threads[id] == Outside
    ensures moved == id && s.threads[id] != Outside ==>
              StepsLeft(Do(c, s, moved, Next).threads[id]) < StepsLeft(s.threads[id])
  {
  }

  /** No thread keeps another from leaving: once nobody enters, and every thread has made its steps, in
      whatever order, all are outside and everything has been returned. */
  lemma EverybodyLeaves(c: Config, n: nat, first: seq<(nat, Action)>, second: seq<(nat, Action)>)
    requires ValidConfig(c) && NobodyEnters(second)
    requires |After(c, n, first).threads| == n
    requires forall id: nat :: id < n ==> StepsOf(second, id) >= StepsLeft(After(c, n, first).threads[id])
    ensures AllOutside(After(c, n, first + second).threads)
    ensures After(c, n, first + second).free == c.capacity && After(c, n, first + second).reserved == 0
  {
    var s, end := After(c, n, first), After(c, n, first + second);
    AfterMore(c, n, first, second);
    EveryInterleavingKeepsTheLimits(c, n, first + second);
    forall id: nat | id < n ensures end.threads[id] == Outside {
      EveryStepLeadsOut(c, s, second, id);
      assert StepsOf(second, id) >= StepsLeft(s.threads[id]);
    }
    AllIsReturned(c, n, first + second);
  }
}
