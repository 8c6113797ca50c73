/** The command queue when the fiber that pumps it is interrupted or dies inside an entry: what still holds, when the
    queue stalls, and what sets it going again. */
module PumpLoss {
  import opened Geometry
  import opened TransactionSteps
  import opened TransactionQueue

  /** The queue, and the entries whose pump was lost under them. */
  datatype Lossy = Lossy(queue: State, lost: map<nat, Request>)

  /** The pump is the fiber of whoever submitted first, so it may go with its submitter. Its finalizers clear the two
      flags; the running entry's deferred is settled by nobody. (A pump that went without its finalizers is a running
      entry that never finishes, which every run allows for.) */
  datatype Step = Ordinary(event: Event) | PumpLost

  function Take(s: Lossy, step: Step): Lossy {
    match step
    case Ordinary(event) => s.(queue := Apply(s.queue, event))
    case PumpLost =>
      if s.queue.processing.None? then s
      else
        var entry := s.queue.processing.value;
        Lossy(s.queue.(processing := None, pumping := false), s.lost[entry.ticket := entry.request])
  }

  function TakeAll(s: Lossy, steps: seq<Step>): Lossy
    decreases |steps|
  {
    if steps == [] then s else TakeAll(Take(s, steps[0]), steps[1..])
  }

  /** Something waits outside recovery and nothing pumps. */
  predicate Stalled(q: State) {
    q.pending != [] && !q.recovering && !q.pumping
  }

  /** A lost entry is accounted for like one that runs inline for ever. */
  ghost function AsInline(s: Lossy): State {
    s.queue.(nested := s.queue.nested + s.lost)
  }

  ghost predicate Sound(s: Lossy) {
    && s.queue.nested.Keys !! s.lost.Keys
    && Steady(AsInline(s))
    && (Stalled(s.queue) ==> |s.queue.pending| < PENDING_LIMIT)
  }

  ghost predicate FinishesLost(s: Lossy, event: Event) {
    event.InlineFinished? && event.ticket in s.lost
  }

  // ---------------------------------------------------------------- the queue does not look at what runs inline

  lemma LoopIgnoresInline(q: State, n: map<nat, Request>)
    ensures Loop(q.(nested := n)) == Loop(q).(nested := n)
  {
    hide CountOf;
    assert Suspicious(q.(nested := n), Request("", None, false)) == Suspicious(q, Request("", None, false));
  }

  lemma DrainIgnoresInline(q: State, n: map<nat, Request>)
    ensures Drain(q.(nested := n)) == Drain(q).(nested := n)
  {
    hide Loop;
    LoopIgnoresInline(q.(pumping := true), n);
  }

  lemma AcceptIgnoresInline(q: State, n: map<nat, Request>, request: Request)
    ensures Accept(q.(nested := n), request) == Accept(q, request).(nested := n) && Accept(q, request).nested == q.nested
    ensures Occupied(q.(nested := n)) == Occupied(q)
  {
    hide CountOf;
  }

  lemma DrainKeepsInline(q: State)
    ensures Drain(q).nested == q.nested
  {
    hide Suspicious;
  }

  lemma EnqueueIgnoresInline(q: State, n: map<nat, Request>, request: Request)
    ensures Enqueue(q.(nested := n), request) == (Enqueue(q, request).0.(nested := n), Enqueue(q, request).1)
    ensures Enqueue(q, request).0.nested == q.nested
  {
    hide Drain, Accept, Occupied;
    AcceptIgnoresInline(q, n, request);
    DrainIgnoresInline(Accept(q, request), n);
    DrainKeepsInline(Accept(q, request));
  }

  lemma TicketsAreUsed(s: Lossy)
    requires Sound(s)
    ensures s.queue.tickets !in s.lost
  {
    hide InOrder, Coalesced, Newest, CountOf, CountedSince;
    assert s.queue.tickets in s.lost ==> s.queue.tickets in AsInline(s).nested;
  }

  lemma SubmissionIsSame(s: Lossy, request: Request)
    requires s.queue.tickets !in s.lost && s.queue.nested.Keys !! s.lost.Keys
    ensures var t := Submit(s.queue, request).0;
            Submit(AsInline(s), request).0 == t.(nested := t.nested + s.lost) && t.nested.Keys !! s.lost.Keys
  {
    hide Enqueue, Equivalent;
    EnqueueIgnoresInline(s.queue, s.queue.nested + s.lost, request);
    assert (s.queue.nested + s.lost)[s.queue.tickets := request] == s.queue.nested[s.queue.tickets := request] + s.lost;
  }

  lemma BatchIsSame(s: Lossy, units: seq<Request>)
    requires s.queue.tickets !in s.lost && s.queue.nested.Keys !! s.lost.Keys
    ensures var t := SubmitBatch(s.queue, units).0;
            SubmitBatch(AsInline(s), units).0 == t.(nested := t.nested + s.lost) && t.nested.Keys !! s.lost.Keys
  {
    hide Enqueue;
    if 0 < |units| <= BATCH_CAP {
      var request := Request("batch:" + units[0].id, None, false);
      EnqueueIgnoresInline(s.queue, s.queue.nested + s.lost, request);
        assert (s.queue.nested + s.lost)[s.queue.tickets := request] == s.queue.nested[s.queue.tickets := request] + s.lost;
    }
  }

  lemma FinishIsSame(s: Lossy, receipt: Receipt)
    requires s.queue.nested.Keys !! s.lost.Keys
    ensures var t := Finish(s.queue, receipt);
            Finish(AsInline(s), receipt) == t.(nested := t.nested + s.lost) && t.nested == s.queue.nested
  {
    hide Newest, CountOf;
    if s.queue.processing.Some? {
      LoopIgnoresInline(Settled(s.queue, receipt), s.queue.nested + s.lost);
    }
  }

  lemma InlineFinishIsSame(s: Lossy, ticket: nat, receipt: Receipt)
    requires ticket !in s.lost && s.queue.nested.Keys !! s.lost.Keys
    ensures var t := FinishInline(s.queue, ticket, receipt);
            FinishInline(AsInline(s), ticket, receipt) == t.(nested := t.nested + s.lost) && t.nested.Keys !! s.lost.Keys
  {
    hide Newest;
    assert (s.queue.nested + s.lost) - {ticket} == (s.queue.nested - {ticket}) + s.lost;
  }

  lemma RecoveryIsSame(s: Lossy, active: bool)
    requires s.queue.nested.Keys !! s.lost.Keys
    ensures var t := SetRecovery(s.queue, active);
            SetRecovery(AsInline(s), active) == t.(nested := t.nested + s.lost) && t.nested == s.queue.nested
  {
    hide CountOf;
    DrainIgnoresInline(s.queue.(recovering := false), s.queue.nested + s.lost);
  }

  /** A step of the queue is the same step of the queue with its lost entries inline. */
  lemma StepIsSame(s: Lossy, event: Event)
    requires Sound(s) && !FinishesLost(s, event)
    ensures AsInline(Take(s, Ordinary(event))) == Apply(AsInline(s), event)
    ensures Take(s, Ordinary(event)).queue.nested.Keys !! s.lost.Keys
  {
    hide Steady, Submit, SubmitBatch, Finish, FinishInline, SetRecovery;
    TicketsAreUsed(s);
    match event
    case Submitted(request) => SubmissionIsSame(s, request);
    case BatchSubmitted(units) => BatchIsSame(s, units);
    case Finished(receipt) => FinishIsSame(s, receipt);
    case InlineFinished(ticket, receipt) => InlineFinishIsSame(s, ticket, receipt);
    case RecoverySet(active) => RecoveryIsSame(s, active);
  }

  // ---------------------------------------------------------------- what survives the loss of a pump

  lemma LossKeepsConsistent(s: Lossy)
    requires Sound(s) && s.queue.processing.Some?
    ensures Consistent(AsInline(Take(s, PumpLost)))
    ensures Take(s, PumpLost).queue.nested.Keys !! Take(s, PumpLost).lost.Keys
  {
    hide CountOf, CountedSince, Newest;
    var a, b := AsInline(s), AsInline(Take(s, PumpLost));
    var ticket := s.queue.processing.value.ticket;
    assert Running(a, ticket);
    assert ticket !in a.nested;
    assert Accounted(b) by {
      forall k: nat ensures Waiting(a, k) <==> Waiting(b, k) {}
      forall k: nat ensures Running(a, k) <==> k == ticket {}
      forall k: nat ensures k in b.nested <==> k in a.nested || k == ticket {}
    }
  }

  lemma SteadyOccupies(q: State)
    requires Steady(q)
    ensures Occupied(q) <= PENDING_LIMIT
  {
  }

  /** An event brings no stall about; what ends one is a submission that is admitted, or a switch of recovery. */
  lemma StallEvents(q: State, event: Event)
    requires q.pumping <==> q.processing.Some?
    ensures Stalled(Apply(q, event)) ==> Stalled(q) && Apply(q, event).pending == q.pending
    ensures Stalled(q) ==> (Stalled(Apply(q, event)) <==> !Restarts(q, event))
    ensures Stalled(q) && Restarts(q, event) && !event.RecoverySet? ==>
              Apply(q, event).processing == Some(q.pending[0]) && Apply(q, event).pumping
    ensures Stalled(q) && event == RecoverySet(false) ==>
              Apply(q, event).processing == Some(q.pending[0]) && Apply(q, event).pumping
  {
    hide CountOf, Newest, Equivalent;
  }

  /** A submission the queue takes in as an entry, or a switch of recovery. */
  predicate Restarts(q: State, event: Event) {
    match event
    case Submitted(request) => Equivalent(q.pending, request.key).None? && Occupied(q) < PENDING_LIMIT
    case BatchSubmitted(units) => 0 < |units| <= BATCH_CAP && Occupied(q) < PENDING_LIMIT
    case RecoverySet(active) => true
    case _ => false
  }

  lemma TakeKeepsSound(s: Lossy, step: Step)
    requires Sound(s)
    ensures Sound(Take(s, step))
  {
    hide Steady, Apply, Restarts;
    FlagsFollow(s);
    match step
    case PumpLost =>
      if s.queue.processing.Some? {
        LossKeepsConsistent(s);
        LossIsSteady(s);
      }
    case Ordinary(event) =>
      StallEvents(s.queue, event);
      if FinishesLost(s, event) {
        assert Take(s, step) == s by { LostIsNotInline(s, event.ticket, event.receipt); }
      } else {
        StepIsSame(s, event);
        ApplyKeeps(AsInline(s), event);
      }
  }

  lemma FlagsFollow(s: Lossy)
    requires Sound(s)
    ensures s.queue.pumping <==> s.queue.processing.Some?
    ensures Occupied(s.queue) <= PENDING_LIMIT
  {
    SteadyOccupies(AsInline(s));
  }

  lemma LossIsSteady(s: Lossy)
    requires s.queue.processing.Some? && Consistent(AsInline(Take(s, PumpLost)))
    ensures Steady(AsInline(Take(s, PumpLost)))
  {
    hide Consistent;
  }

  lemma LostIsNotInline(s: Lossy, ticket: nat, receipt: Receipt)
    requires s.queue.nested.Keys !! s.lost.Keys && ticket in s.lost
    ensures Apply(s.queue, InlineFinished(ticket, receipt)) == s.queue
  {
  }

  lemma {:induction false} RunStaysSound(s: Lossy, steps: seq<Step>)
    requires Sound(s)
    ensures Sound(TakeAll(s, steps))
    decreases |steps|
  {
    hide Sound, Take;
    if steps != [] {
      TakeKeepsSound(s, steps[0]);
      RunStaysSound(Take(s, steps[0]), steps[1..]);
    }
  }

  const FRESH := Lossy(EMPTY, map[])

  /** Whatever pumps are lost on the way, the bound on the backlog, the order of entries, coalescing, the history and
      the count of every key hold, and every ticket is in exactly one place: waiting, running, inline, settled or
      lost. What goes is the promise that a waiting entry has a pump. */
  lemma EveryLossyRunIsSound(steps: seq<Step>)
    ensures Sound(TakeAll(FRESH, steps))
  {
    hide Accounted, Newest;
    assert Valid(EMPTY) by { EveryRunIsSafe([]); }
    ValidIsSteady(EMPTY);
    assert AsInline(FRESH) == EMPTY;
    RunStaysSound(FRESH, steps);
  }

  lemma TakeFive(s: Lossy, a: Step, b: Step, c: Step, d: Step, e: Step)
    ensures TakeAll(s, [a, b, c, d, e]) == Take(Take(Take(Take(Take(s, a), b), c), d), e)
  {
    hide Take;
    assert [a, b, c, d, e][1..] == [b, c, d, e] && [b, c, d, e][1..] == [c, d, e] && [c, d, e][1..] == [d, e];
    assert [d, e][1..] == [e] && [e][1..] == [];
    var s3 := Take(Take(Take(s, a), b), c);
    assert TakeAll(Take(s3, d), [e]) == Take(Take(s3, d), e);
    assert TakeAll(s3, [d, e]) == TakeAll(Take(s3, d), [e]);
    assert TakeAll(Take(Take(s, a), b), [c, d, e]) == TakeAll(s3, [d, e]);
    assert TakeAll(Take(s, a), [b, c, d, e]) == TakeAll(Take(Take(s, a), b), [c, d, e]);
  }

  /** Two entries queued during recovery, released, and the first one's pump lost: the other waits without a pump,
      and a submission equivalent to it only joins the wait. */
  lemma LostPumpStrandsWaiters(first: string, second: string)
    requires first != second
    ensures var a, b := Request(first, Some(first), false), Request(second, Some(second), false);
            var steps := [Ordinary(RecoverySet(true)), Ordinary(Submitted(a)), Ordinary(Submitted(b)),
                          Ordinary(RecoverySet(false)), PumpLost];
            var s := TakeAll(FRESH, steps);
            && Stalled(s.queue) && s.queue.pending == [Entry(b, 1)] && s.lost == map[0 := a]
            && Take(s, Ordinary(Submitted(b))) == s
  {
    var a, b := Request(first, Some(first), false), Request(second, Some(second), false);
    var s1 := Take(FRESH, Ordinary(RecoverySet(true)));
    var s2 := Take(s1, Ordinary(Submitted(a)));
    var s3 := Take(s2, Ordinary(Submitted(b)));
    assert s2.queue.pending == [Entry(a, 0)] && s2.queue.tickets == 1;
    assert !SameKey(Entry(a, 0), b.key) && s2.queue.pending[1..] == [];
    assert Equivalent(s2.queue.pending, b.key).None?;
    assert s3.queue.pending == [Entry(a, 0), Entry(b, 1)];
    var s4 := Take(s3, Ordinary(RecoverySet(false)));
    assert s4.queue.processing == Some(Entry(a, 0)) && s4.queue.pending == [Entry(b, 1)];
    TakeFive(FRESH, Ordinary(RecoverySet(true)), Ordinary(Submitted(a)), Ordinary(Submitted(b)),
             Ordinary(RecoverySet(false)), PumpLost);
  }

  /** A step stalls the queue exactly when it loses the pump while other entries wait outside recovery. */
  lemma StallsIff(s: Lossy, step: Step)
    requires Sound(s) && !Stalled(s.queue)
    ensures Stalled(Take(s, step).queue) <==>
            step.PumpLost? && s.queue.processing.Some? && s.queue.pending != [] && !s.queue.recovering
  {
    hide Steady, Apply, Restarts;
    FlagsFollow(s);
    if step.Ordinary? {
      StallEvents(s.queue, step.event);
    }
  }

  /** A stalled queue is set going by exactly these: a submission of another key than those waiting, a batch, or a
      switch of recovery. It goes on with the entry that waits longest; equivalent submissions join the stall. */
  lemma StallEndsIff(s: Lossy, step: Step)
    requires Sound(s) && Stalled(s.queue)
    ensures !Stalled(Take(s, step).queue) <==>
            step.Ordinary? && match step.event
                              case Submitted(request) => Equivalent(s.queue.pending, request.key).None?
                              case BatchSubmitted(units) => 0 < |units| <= BATCH_CAP
                              case RecoverySet(_) => true
                              case _ => false
    ensures !Stalled(Take(s, step).queue) && step.event != RecoverySet(true) ==>
              Take(s, step).queue.processing == Some(s.queue.pending[0])
  {
    hide Steady, Apply;
    FlagsFollow(s);
    if step.Ordinary? {
      StallEvents(s.queue, step.event);
    }
  }

  /** The submitter of a lost entry waits for ever: no later step settles its ticket. */
  lemma {:induction false} LostIsNeverSettled(s: Lossy, steps: seq<Step>, ticket: nat)
    requires Sound(s) && ticket in s.lost
    ensures ticket in TakeAll(s, steps).lost && ticket !in TakeAll(s, steps).queue.receipts
    decreases |steps|
  {
    hide Steady, Apply;
    if steps == [] {
      LostIsUnsettled(s, ticket);
    } else {
      TakeKeepsSound(s, steps[0]);
      LostIsNeverSettled(Take(s, steps[0]), steps[1..], ticket);
    }
  }

  lemma LostIsUnsettled(s: Lossy, ticket: nat)
    requires Sound(s) && ticket in s.lost
    ensures ticket !in s.queue.receipts
  {
    hide InOrder, Coalesced, Newest, CountOf, CountedSince;
    assert ticket in AsInline(s).nested;
  }

  /** Settled deferreds keep their receipts in these runs, too. */
  lemma {:induction false} LossyReceiptsStand(s: Lossy, steps: seq<Step>, ticket: nat)
    requires Sound(s) && ticket in s.queue.receipts
    ensures ticket in TakeAll(s, steps).queue.receipts
         && TakeAll(s, steps).queue.receipts[ticket] == s.queue.receipts[ticket]
    decreases |steps|
  {
    hide Sound, Apply;
    if steps != [] {
      TakeKeepsSound(s, steps[0]);
      TakeKeepsReceipts(s, steps[0], ticket);
      LossyReceiptsStand(Take(s, steps[0]), steps[1..], ticket);
    }
  }

  lemma TakeKeepsReceipts(s: Lossy, step: Step, ticket: nat)
    requires Sound(s) && ticket in s.queue.receipts
    ensures ticket in Take(s, step).queue.receipts && Take(s, step).queue.receipts[ticket] == s.queue.receipts[ticket]
  {
    hide Consistent, Apply;
    if step.Ordinary? {
      if FinishesLost(s, step.event) {
        LostIsNotInline(s, step.event.ticket, step.event.receipt);
      } else {
        StepIsSame(s, step.event);
        ApplyKeepsReceipts(AsInline(s), step.event, ticket);
      }
    }
  }
}
