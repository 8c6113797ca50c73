/** The reconcile scheduler: requests, events, the lifecycle loop and shutdown, interleaved in any order. */
module ReconcileLoop {
  import opened Geometry

  /** A ticket names the deferred completion that requesters of one cycle share. */
  type Ticket = nat

  type Removals = set<WindowId>

  /** Where the loop's fiber is: not forked, about to test its condition, inside a cycle, or interrupted. */
  datatype Fiber = Idle | AtHead | Cycling(ticket: Ticket, batch: Removals) | Dead

  datatype CycleResult = Succeeded | FailedCycle | InterruptedCycle | StoppedFirst

  /** The scheduler's variables; the last fields record the completions settled, every removal reported, the
      removals of cycles that succeeded, and how many cycles began. */
  datatype State = State(
    pending: Option<Ticket>, batch: Removals, running: bool, fiber: Fiber, again: bool, stopping: bool,
    tickets: nat, settled: map<Ticket, CycleResult>, reported: Removals, reconciled: Removals, begun: nat)

  const QUIET := State(None, {}, false, Idle, false, false, 0, map[], {}, {}, 0)

  function StartLoop(s: State): State {
    if s.running || s.stopping then s else s.(running := true, fiber := AtHead)
  }

  /** The pending completion, created when there is none. */
  function WithPending(s: State): State {
    if s.pending.Some? then s else s.(pending := Some(s.tickets), tickets := s.tickets + 1)
  }

  function Request(s: State): State {
    if s.stopping then s else StartLoop(WithPending(s))
  }

  function ReportRemoval(s: State, id: WindowId): State {
    Request(s.(batch := s.batch + {id}, reported := s.reported + {id}))
  }

  function Settle(s: State, ticket: Ticket, result: CycleResult): State {
    s.(settled := s.settled[ticket := result])
  }

  /** The loop's condition: take the pending cycle and its batch, or leave. Leaving and clearing the flag are one
      step, and the loop is started again should a cycle be pending by then. */
  function TurnLoop(s: State): State {
    if !s.fiber.AtHead? then s
    else if !s.stopping && s.pending.Some? then
      s.(pending := None, batch := {}, fiber := Cycling(s.pending.value, s.batch), begun := s.begun + 1)
    else
      var left := s.(running := false, fiber := Idle);
      if left.pending.Some? then StartLoop(left) else left
  }

  /** A failed cycle gives its removals back to the next one. */
  function EndCycle(s: State, ok: bool): State {
    match s.fiber
    case Cycling(ticket, batch) =>
      var merged := if ok then s.(reconciled := s.reconciled + batch) else s.(batch := batch + s.batch);
      var told := Settle(merged, ticket, if ok then Succeeded else FailedCycle).(fiber := AtHead);
      if told.again then WithPending(told.(again := false)) else told
    case _ => s
  }

  /** Shutdown interrupts the fiber once stopping is set. */
  function Interrupt(s: State): State {
    if !s.stopping || s.fiber.Idle? || s.fiber.Dead? then s
    else
      var told := if s.fiber.Cycling? then Settle(s, s.fiber.ticket, InterruptedCycle) else s;
      told.(fiber := Dead)
  }

  /** When no fiber is left, shutdown settles the cycle that never began. */
  function Close(s: State): State {
    if !s.stopping || s.fiber.AtHead? || s.fiber.Cycling? then s
    else
      var told := if s.pending.Some? then Settle(s, s.pending.value, StoppedFirst) else s;
      told.(again := false, pending := None)
  }

  datatype Event =
    | Requested
    | RemovalReported(id: WindowId)
    | RerunWanted
    | LoopTurned
    | CycleEnded(ok: bool)
    | StopRequested
    | FiberInterrupted
    | Closed

  function Apply(s: State, e: Event): State {
    match e
    case Requested => Request(s)
    case RemovalReported(id) => ReportRemoval(s, id)
    case RerunWanted => s.(again := true)
    case LoopTurned => TurnLoop(s)
    case CycleEnded(ok) => EndCycle(s, ok)
    case StopRequested => s.(stopping := true)
    case FiberInterrupted => Interrupt(s)
    case Closed => Close(s)
  }

  function After(s: State, events: seq<Event>): State
    decreases |events|
  {
    if events == [] then s else After(Apply(s, events[0]), events[1..])
  }

  // ---------------------------------------------------------------- the invariant

  function InFlight(s: State): Removals {
    if s.fiber.Cycling? then s.fiber.batch else {}
  }

  /** A pending cycle has a live loop to run it, unless the engine is stopping. */
  ghost predicate Served(s: State) {
    && (s.running <==> !s.fiber.Idle?)
    && (s.fiber.Dead? ==> s.stopping)
    && (s.pending.Some? && !s.stopping ==> s.fiber.AtHead? || s.fiber.Cycling?)
  }

  /** Every completion is pending, in flight or settled, and only one of these. */
  ghost predicate Accounted(s: State) {
    && (s.pending.Some? ==> s.pending.value < s.tickets && s.pending.value !in s.settled)
    && (s.fiber.Cycling? ==> s.fiber.ticket < s.tickets && s.fiber.ticket !in s.settled && s.pending != Some(s.fiber.ticket))
    && (forall t :: t in s.settled ==> t < s.tickets)
    && (forall t: nat :: t < s.tickets ==>
          t in s.settled || s.pending == Some(t) || (s.fiber.Cycling? && s.fiber.ticket == t))
  }

  /** Until shutdown no reported removal is lost. */
  ghost predicate Remembered(s: State) {
    && (!s.stopping ==> s.reported == s.batch + InFlight(s) + s.reconciled)
    && s.batch + InFlight(s) + s.reconciled <= s.reported
  }

  ghost predicate Valid(s: State) {
    Served(s) && Accounted(s) && Remembered(s)
  }

  // ---------------------------------------------------------------- every interleaving

  lemma RequestKeeps(s: State)
    requires Valid(s)
    ensures Valid(Request(s))
  {
  }

  lemma EndCycleKeeps(s: State, ok: bool)
    requires Valid(s)
    ensures Valid(EndCycle(s, ok))
  {
  }

  lemma ReportKeeps(s: State, id: WindowId)
    requires Valid(s)
    ensures Valid(ReportRemoval(s, id))
  {
    var heard := s.(batch := s.batch + {id}, reported := s.reported + {id});
    assert Valid(heard);
    RequestKeeps(heard);
  }

  lemma StepKeepsInvariant(s: State, e: Event)
    requires Valid(s)
    ensures Valid(Apply(s, e))
  {
    hide Request, ReportRemoval, EndCycle;
    match e
    case Requested => RequestKeeps(s);
    case RemovalReported(id) => ReportKeeps(s, id);
    case CycleEnded(ok) => EndCycleKeeps(s, ok);
    case _ =>
  }

  lemma {:induction false} RunKeepsInvariant(s: State, events: seq<Event>)
    requires Valid(s)
    ensures Valid(After(s, events))
    decreases |events|
  {
    hide Valid, Apply;
    if events != [] {
      StepKeepsInvariant(s, events[0]);
      RunKeepsInvariant(Apply(s, events[0]), events[1..]);
    }
  }

  /** In every interleaving from start-up: a pending cycle has a loop, every completion is in exactly one place,
      and until shutdown every reported removal is in the pending batch, in the running one, or in a batch whose
      cycle succeeded. */
  lemma NothingIsLost(events: seq<Event>)
    ensures Valid(After(QUIET, events))
  {
    RunKeepsInvariant(QUIET, events);
  }

  lemma StepKeepsSettled(s: State, e: Event, t: Ticket)
    requires Valid(s) && t in s.settled
    ensures t in Apply(s, e).settled && Apply(s, e).settled[t] == s.settled[t]
  {
  }

  /** A completion is settled once: whatever happens later, its result stands. */
  lemma {:induction false} SettledOnce(s: State, events: seq<Event>, t: Ticket)
    requires Valid(s) && t in s.settled
    ensures t in After(s, events).settled && After(s, events).settled[t] == s.settled[t]
    decreases |events|
  {
    hide Valid, Apply;
    if events != [] {
      StepKeepsInvariant(s, events[0]);
      StepKeepsSettled(s, events[0], t);
      SettledOnce(Apply(s, events[0]), events[1..], t);
    }
  }

  // ---------------------------------------------------------------- progress

  lemma AfterTwo(s: State, a: Event, b: Event)
    ensures After(s, [a, b]) == Apply(Apply(s, a), b)
  {
    hide Apply;
    assert [a, b][1..] == [b];
    assert After(Apply(s, a), [b]) == Apply(Apply(s, a), b);
  }

  lemma AfterThree(s: State, a: Event, b: Event, c: Event)
    ensures After(s, [a, b, c]) == Apply(Apply(Apply(s, a), b), c)
  {
    hide Apply;
    assert [a, b, c][1..] == [b, c];
    AfterTwo(Apply(s, a), b, c);
  }

  /** What the loop does next to finish the pending cycle; `first` is how a cycle in flight ends. */
  function Steps(s: State, first: bool, ok: bool): seq<Event> {
    if s.fiber.Cycling? then [CycleEnded(first), LoopTurned, CycleEnded(ok)] else [LoopTurned, CycleEnded(ok)]
  }

  lemma NextCycleSettles(s: State, ok: bool)
    requires Valid(s) && s.pending.Some? && !s.stopping && !s.fiber.Cycling?
    ensures var r := EndCycle(TurnLoop(s), ok);
            && s.pending.value in r.settled && r.settled[s.pending.value] == (if ok then Succeeded else FailedCycle)
            && (ok ==> s.reported <= r.reconciled)
  {
    assert s.fiber.AtHead?;
  }

  lemma EndKeepsPending(s: State, ok: bool)
    requires s.fiber.Cycling? && s.pending.Some?
    ensures var r := EndCycle(s, ok);
            r.pending == s.pending && r.fiber.AtHead? && r.stopping == s.stopping && r.reported == s.reported
  {
  }

  /** An awaited completion is settled by the loop's own next steps, with the result of the cycle it was pending
      for; a successful cycle reconciles every removal reported so far. */
  lemma PendingCycleSettles(s: State, first: bool, ok: bool)
    requires Valid(s) && s.pending.Some? && !s.stopping
    ensures var r := After(s, Steps(s, first, ok));
            && s.pending.value in r.settled && r.settled[s.pending.value] == (if ok then Succeeded else FailedCycle)
            && (ok ==> s.reported <= r.reconciled)
  {
    hide EndCycle, TurnLoop, Valid;
    if s.fiber.Cycling? {
      AfterThree(s, CycleEnded(first), LoopTurned, CycleEnded(ok));
      EndCycleKeeps(s, first);
      EndKeepsPending(s, first);
      NextCycleSettles(EndCycle(s, first), ok);
    } else {
      AfterTwo(s, LoopTurned, CycleEnded(ok));
      NextCycleSettles(s, ok);
    }
  }

  /** Shutdown settles whatever is left, and in this order: fiber first, then the pending completion. */
  lemma ShutdownSettlesEverything(s: State)
    requires Valid(s)
    ensures var r := After(s, [StopRequested, FiberInterrupted, Closed]);
            && r.pending.None? && !r.fiber.Cycling? && (forall t: nat :: t < s.tickets ==> t in r.settled)
            && r.tickets == s.tickets
  {
    AfterThree(s, StopRequested, FiberInterrupted, Closed);
    StepKeepsInvariant(s, StopRequested);
    StepKeepsInvariant(Apply(s, StopRequested), FiberInterrupted);
    StepKeepsInvariant(Apply(Apply(s, StopRequested), FiberInterrupted), Closed);
  }

  // ---------------------------------------------------------------- wanting another run

  predicate LoopOnly(events: seq<Event>) {
    forall i :: 0 <= i < |events| ==> events[i].LoopTurned? || events[i].CycleEnded?
  }

  /** Neither a cycle in flight nor one pending. */
  predicate Resting(s: State) {
    s.pending.None? && !s.fiber.Cycling?
  }

  lemma {:induction false} RestingStays(s: State, events: seq<Event>)
    requires Resting(s) && LoopOnly(events)
    ensures Resting(After(s, events)) && After(s, events).again == s.again
    decreases |events|
  {
    if events != [] {
      assert events[0].LoopTurned? || events[0].CycleEnded?;
      RestingStays(Apply(s, events[0]), events[1..]);
    }
  }

  /** Asking for another run from inside the engine wakes nobody up: the loop acts on it by itself exactly when a
      cycle is in flight or already pending. Otherwise it waits for the next request or event. */
  lemma RerunIsTakenUpIff(s: State)
    requires Valid(s) && !s.stopping
    ensures (exists events :: LoopOnly(events) && !After(Apply(s, RerunWanted), events).again) <==> !Resting(s)
  {
    var t := Apply(s, RerunWanted);
    if Resting(s) {
      forall events | LoopOnly(events) ensures After(t, events).again {
        RestingStays(t, events);
      }
    } else if s.fiber.Cycling? {
      var events := [CycleEnded(true)];
      assert events[1..] == [];
      assert LoopOnly(events);
      assert !After(t, events).again;
    } else {
      var events := [LoopTurned, CycleEnded(true)];
      AfterTwo(t, LoopTurned, CycleEnded(true));
      assert LoopOnly(events);
      assert !After(t, events).again;
    }
  }

  /** A failed cycle starts no new one: its removals stay pending until something else asks. */
  lemma FailureWaitsForNextRequest(s: State)
    requires Valid(s) && s.fiber.Cycling? && s.pending.None? && !s.again
    ensures Resting(EndCycle(s, false)) && InFlight(s) <= EndCycle(s, false).batch
  {
  }

  // ---------------------------------------------------------------- the engine's own variables

  class Scheduler {
    var pendingCycle: Option<Ticket>
    var pendingBatch: Removals
    var lifecycleRunning: bool
    var fiber: Fiber
    var reconcileAgain: bool
    var stopping: bool
    var tickets: nat
    var settled: map<Ticket, CycleResult>
    ghost var reported: Removals
    ghost var reconciled: Removals
    ghost var begun: nat

    ghost function Now(): State
      reads this
    {
      State(pendingCycle, pendingBatch, lifecycleRunning, fiber, reconcileAgain, stopping, tickets, settled,
            reported, reconciled, begun)
    }

    constructor ()
      ensures Now() == QUIET && Valid(Now())
    {
      pendingCycle, pendingBatch, lifecycleRunning, fiber, reconcileAgain, stopping := None, {}, false, Idle, false, false;
      tickets, settled, reported, reconciled, begun := 0, map[], {}, {}, 0;
    }

    method StartLifecycleLoop()
      modifies `lifecycleRunning, `fiber
      ensures Now() == StartLoop(old(Now()))
    {
      if lifecycleRunning || stopping {
        return;
      }
      lifecycleRunning := true;
      fiber := AtHead;
    }

    /** The completion the requester may wait on; none once the engine is stopping. */
    method RequestReconcile() returns (completion: Option<Ticket>)
      requires Valid(Now())
      modifies this
      ensures Now() == Request(old(Now())) && Valid(Now())
      ensures completion == if old(stopping) then None else pendingCycle
      ensures !old(stopping) ==> completion.Some? && (old(pendingCycle).Some? ==> completion == old(pendingCycle))
    {
      RequestKeeps(Now());
      if stopping {
        return None;
      }
      if pendingCycle.None? {
        pendingCycle := Some(tickets);
        tickets := tickets + 1;
      }
      completion := pendingCycle;
      StartLifecycleLoop();
    }

    method WindowRemoved(id: WindowId)
      requires Valid(Now())
      modifies this
      ensures Now() == ReportRemoval(old(Now()), id) && Valid(Now())
    {
      ReportKeeps(Now(), id);
      pendingBatch := pendingBatch + {id};
      reported := reported + {id};
      var _ := RequestReconcile();
    }

    method EnterLoop()
      requires Valid(Now()) && fiber.AtHead?
      modifies this
      ensures Now() == TurnLoop(old(Now())) && Valid(Now())
    {
      StepKeepsInvariant(Now(), LoopTurned);
      if !stopping && pendingCycle.Some? {
        var completion, batch := pendingCycle.value, pendingBatch;
        pendingCycle := None;
        pendingBatch := {};
        fiber := Cycling(completion, batch);
        begun := begun + 1;
      } else {
        lifecycleRunning := false;
        fiber := Idle;
        if pendingCycle.Some? {
          StartLifecycleLoop();
        }
      }
    }

    method FinishCycle(ok: bool)
      requires Valid(Now()) && fiber.Cycling?
      modifies this
      ensures Now() == EndCycle(old(Now()), ok) && Valid(Now())
    {
      hide Served, Accounted, Remembered;
      EndCycleKeeps(Now(), ok);
      var completion, batch := fiber.ticket, fiber.batch;
      if !ok {
        pendingBatch := batch + pendingBatch;
      } else {
        reconciled := reconciled + batch;
      }
      settled := settled[completion := if ok then Succeeded else FailedCycle];
      fiber := AtHead;
      if reconcileAgain {
        reconcileAgain := false;
        if pendingCycle.None? {
          pendingCycle := Some(tickets);
          tickets := tickets + 1;
        }
      }
    }

    method InterruptFiber()
      requires Valid(Now()) && stopping
      modifies this
      ensures Now() == Interrupt(old(Now())) && Valid(Now())
      ensures stopping && !fiber.AtHead? && !fiber.Cycling?
    {
      StepKeepsInvariant(Now(), FiberInterrupted);
      if fiber.AtHead? || fiber.Cycling? {
        if fiber.Cycling? {
          settled := settled[fiber.ticket := InterruptedCycle];
        }
        fiber := Dead;
      }
    }

    method CloseDown()
      requires Valid(Now()) && stopping && !fiber.AtHead? && !fiber.Cycling?
      modifies this
      ensures Now() == Close(old(Now())) && Valid(Now())
      ensures pendingCycle.None? && forall t: nat :: t < tickets ==> t in settled
    {
      StepKeepsInvariant(Now(), Closed);
      reconcileAgain := false;
      if pendingCycle.Some? {
        settled := settled[pendingCycle.value := StoppedFirst];
        pendingCycle := None;
      }
    }

    method Stop()
      requires Valid(Now())
      modifies this
      ensures Now() == Close(Interrupt(old(Now()).(stopping := true))) && Valid(Now())
      ensures pendingCycle.None? && forall t: nat :: t < tickets ==> t in settled
    {
      hide Valid, Interrupt, Close;
      StepKeepsInvariant(Now(), StopRequested);
      stopping := true;
      InterruptFiber();
      CloseDown();
    }
  }
}
