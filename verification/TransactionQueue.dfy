/** The serialized command queue: admission, coalescing, recovery, draining and settlement as atomic steps
    between suspension points. */
module TransactionQueue {
  import opened Geometry
  import opened TransactionSteps

  const PENDING_LIMIT: nat := 256
  const HISTORY_LIMIT: nat := 512
  const REPEAT_THRESHOLD: nat := 3
  const BATCH_CAP: nat := 64

  /** What the queue looks at in a unit: name, coalescing key and whether it has an escalation hook. */
  datatype Request = Request(id: string, key: Option<string>, escalates: bool)

  /** A ticket names the deferred a submitter waits on. */
  datatype Entry = Entry(request: Request, ticket: nat)

  datatype KeyEvent = Counted(key: string) | Reset(key: string)

  /** The queue's variables, and four records of what happened: entries accepted, entries taken off the queue,
      receipts recorded, and key counting. */
  datatype State = State(
    pending: seq<Entry>, history: seq<Receipt>, recovering: bool, processing: Option<Entry>, pumping: bool,
    keyCounts: map<string, nat>, nested: map<nat, Request>, receipts: map<nat, Receipt>, tickets: nat,
    accepted: seq<Entry>, drained: seq<Entry>, recorded: seq<Receipt>, counted: seq<KeyEvent>)

  const EMPTY := State([], [], false, None, false, map[], map[], map[], 0, [], [], [], [])

  datatype Reply = Awaiting(ticket: nat) | QueueFull | InvalidRequest | Immediate(receipt: Receipt)

  function Occupied(s: State): nat {
    |s.pending| + (if s.processing.Some? then 1 else 0)
  }

  function Newest<T>(items: seq<T>, limit: nat): seq<T> {
    if |items| > limit then items[|items| - limit..] else items
  }

  function CountOf(counts: map<string, nat>, key: string): nat {
    if key in counts then counts[key] else 0
  }

  function Record(s: State, receipt: Receipt): State {
    s.(history := Newest(s.history + [receipt], HISTORY_LIMIT), recorded := s.recorded + [receipt])
  }

  predicate Suspicious(s: State, request: Request) {
    request.key.Some? && request.escalates && CountOf(s.keyCounts, request.key.value) >= REPEAT_THRESHOLD
  }

  /** The head of the drain loop: take the first entry, or leave and clear the pump flag. */
  function Loop(s: State): State {
    if s.pending != [] && !s.recovering then
      var entry := s.pending[0];
      var taken := s.(pending := s.pending[1..], processing := Some(entry), drained := s.drained + [entry]);
      if Suspicious(s, entry.request)
      then taken.(keyCounts := s.keyCounts[entry.request.key.value := 0],
                  counted := s.counted + [Reset(entry.request.key.value)])
      else taken
    else s.(pumping := false)
  }

  function Drain(s: State): State {
    if s.pumping then s else Loop(s.(pumping := true))
  }

  function Accept(s: State, request: Request): State {
    var entry := Entry(request, s.tickets);
    var queued := s.(pending := s.pending + [entry], tickets := s.tickets + 1, accepted := s.accepted + [entry]);
    if request.key.Some?
    then queued.(keyCounts := s.keyCounts[request.key.value := CountOf(s.keyCounts, request.key.value) + 1],
                 counted := s.counted + [Counted(request.key.value)])
    else queued
  }

  function Enqueue(s: State, request: Request): (State, Reply) {
    if Occupied(s) >= PENDING_LIMIT then (s, QueueFull)
    else (Drain(Accept(s, request)), Awaiting(s.tickets))
  }

  /** A unit submitted while an entry runs: executed at once, outside the queue. */
  function RunInline(s: State, request: Request): (State, Reply) {
    (s.(nested := s.nested[s.tickets := request], tickets := s.tickets + 1), Awaiting(s.tickets))
  }

  predicate SameKey(entry: Entry, key: Option<string>) {
    key.Some? && entry.request.key == key
  }

  /** The first pending entry with this key. */
  function Equivalent(pending: seq<Entry>, key: Option<string>): Option<Entry>
    decreases |pending|
  {
    if pending == [] then None
    else if SameKey(pending[0], key) then Some(pending[0])
    else Equivalent(pending[1..], key)
  }

  function Submit(s: State, request: Request): (State, Reply) {
    var existing := Equivalent(s.pending, request.key);
    if existing.Some? then (s, Awaiting(existing.value.ticket))
    else if s.processing.Some? then RunInline(s, request)
    else Enqueue(s, request)
  }

  const EMPTY_BATCH := Receipt("batch:empty", Completed, [], None)

  function SubmitBatch(s: State, units: seq<Request>): (State, Reply) {
    if |units| > BATCH_CAP then (s, InvalidRequest)
    else if units == [] then (s, Immediate(EMPTY_BATCH))
    else
      var request := Request("batch:" + units[0].id, None, false);
      if s.processing.Some? then RunInline(s, request) else Enqueue(s, request)
  }

  /** The running entry's receipt arrives: it is recorded, handed out, and the loop goes round. */
  function Finish(s: State, receipt: Receipt): State {
    if s.processing.None? then s
    else Loop(Record(s, receipt).(processing := None, receipts := s.receipts[s.processing.value.ticket := receipt]))
  }

  function FinishInline(s: State, ticket: nat, receipt: Receipt): State {
    if ticket !in s.nested then s
    else Record(s, receipt).(nested := s.nested - {ticket}, receipts := s.receipts[ticket := receipt])
  }

  function SetRecovery(s: State, active: bool): State {
    if active then s.(recovering := true) else Drain(s.(recovering := false))
  }

  /** Everything that can happen between two suspension points, in any order. */
  datatype Event =
    | Submitted(request: Request)
    | BatchSubmitted(units: seq<Request>)
    | Finished(receipt: Receipt)
    | InlineFinished(ticket: nat, receipt: Receipt)
    | RecoverySet(active: bool)

  function Apply(s: State, e: Event): State {
    match e
    case Submitted(request) => Submit(s, request).0
    case BatchSubmitted(units) => SubmitBatch(s, units).0
    case Finished(receipt) => Finish(s, receipt)
    case InlineFinished(ticket, receipt) => FinishInline(s, ticket, receipt)
    case RecoverySet(active) => SetRecovery(s, active)
  }

  function After(s: State, events: seq<Event>): State
    decreases |events|
  {
    if events == [] then s else After(Apply(s, events[0]), events[1..])
  }

  // ---------------------------------------------------------------- the invariant

  /** How often a key was counted since it last escalated. */
  function CountedSince(counted: seq<KeyEvent>, key: string): nat {
    if counted == [] then 0
    else
      var n := |counted| - 1;
      if counted[n] == Reset(key) then 0
      else CountedSince(counted[..n], key) + (if counted[n] == Counted(key) then 1 else 0)
  }

  predicate Waiting(s: State, ticket: nat) {
    exists i :: 0 <= i < |s.pending| && s.pending[i].ticket == ticket
  }

  predicate Running(s: State, ticket: nat) {
    s.processing.Some? && s.processing.value.ticket == ticket
  }

  /** FIFO: the accepted entries are those taken off the queue followed by those still on it, and the running
      entry is the last one taken. */
  ghost predicate InOrder(s: State) {
    && s.accepted == s.drained + s.pending
    && (s.processing.Some? ==> s.drained != [] && s.drained[|s.drained| - 1] == s.processing.value)
    && (forall i, j :: 0 <= i < j < |s.accepted| ==> s.accepted[i].ticket < s.accepted[j].ticket)
  }

  /** At most the limit, and a pump whenever something waits outside recovery. */
  ghost predicate Pumped(s: State) {
    && Occupied(s) <= PENDING_LIMIT
    && (s.pumping <==> s.processing.Some?)
    && (s.pending != [] && !s.recovering ==> s.pumping)
  }

  /** Every ticket ever handed out is in exactly one place: waiting, running, running inline, or settled. */
  ghost predicate Accounted(s: State) {
    && (forall t: nat :: Waiting(s, t) ==> t < s.tickets && !Running(s, t) && t !in s.nested && t !in s.receipts)
    && (forall t: nat :: Running(s, t) ==> t < s.tickets && t !in s.nested && t !in s.receipts)
    && (forall t :: t in s.nested ==> t < s.tickets && t !in s.receipts)
    && (forall t :: t in s.receipts ==> t < s.tickets)
    && (forall t :: 0 <= t < s.tickets ==> Waiting(s, t) || Running(s, t) || t in s.nested || t in s.receipts)
  }

  ghost predicate Coalesced(s: State) {
    forall i, j :: 0 <= i < j < |s.pending| && s.pending[i].request.key.Some? ==>
      s.pending[i].request.key != s.pending[j].request.key
  }

  /** All of the invariant that does not depend on where the drain loop is. */
  ghost predicate Consistent(s: State) {
    && InOrder(s) && Accounted(s) && Coalesced(s)
    && Occupied(s) <= PENDING_LIMIT
    && s.history == Newest(s.recorded, HISTORY_LIMIT)
    && (forall k :: CountOf(s.keyCounts, k) == CountedSince(s.counted, k))
    && (forall e :: e in s.accepted ==> e.ticket < s.tickets)
  }

  ghost predicate Valid(s: State) {
    Consistent(s) && Pumped(s)
  }

  /** All of it but the pump that waiting entries need. */
  ghost predicate Steady(s: State) {
    Consistent(s) && (s.pumping <==> s.processing.Some?)
  }

  // ---------------------------------------------------------------- every step keeps the invariant

  lemma CountingKeeps(counts: map<string, nat>, counted: seq<KeyEvent>, key: string)
    requires forall k :: CountOf(counts, k) == CountedSince(counted, k)
    ensures forall k :: CountOf(counts[key := CountOf(counts, key) + 1], k) == CountedSince(counted + [Counted(key)], k)
    ensures forall k :: CountOf(counts[key := 0], k) == CountedSince(counted + [Reset(key)], k)
  {
    assert (counted + [Counted(key)])[..|counted|] == counted;
    assert (counted + [Reset(key)])[..|counted|] == counted;
  }

  lemma NewestOfMore<T>(items: seq<T>, item: T, limit: nat)
    requires limit > 0
    ensures Newest(Newest(items, limit) + [item], limit) == Newest(items + [item], limit)
  {
  }

  /** Taking the head moves one ticket from waiting to running. */
  lemma TakingAccounts(s: State, t: State)
    requires Accounted(s) && s.processing.None? && s.pending != []
    requires forall i, j :: 0 <= i < j < |s.pending| ==> s.pending[i].ticket != s.pending[j].ticket
    requires t.pending == s.pending[1..] && t.processing == Some(s.pending[0])
    requires t.nested == s.nested && t.receipts == s.receipts && t.tickets == s.tickets
    ensures Accounted(t)
  {
    forall k: nat ensures Waiting(s, k) <==> Waiting(t, k) || Running(t, k) {
      if Waiting(s, k) {
        var i :| 0 <= i < |s.pending| && s.pending[i].ticket == k;
        if i > 0 {
          assert t.pending[i - 1].ticket == k;
        }
      }
      if Waiting(t, k) {
        var i :| 0 <= i < |t.pending| && t.pending[i].ticket == k;
        assert s.pending[i + 1].ticket == k;
      }
    }
    forall k: nat | Waiting(t, k) ensures !Running(t, k) {
      var i :| 0 <= i < |t.pending| && t.pending[i].ticket == k;
      assert s.pending[i + 1].ticket == k;
    }
  }

  lemma PendingTicketsDiffer(s: State)
    requires InOrder(s)
    ensures forall i, j :: 0 <= i < j < |s.pending| ==> s.pending[i].ticket != s.pending[j].ticket
  {
    forall i, j | 0 <= i < j < |s.pending| ensures s.pending[i].ticket != s.pending[j].ticket {
      var d := |s.drained|;
      assert s.accepted[d + i] == s.pending[i] && s.accepted[d + j] == s.pending[j];
    }
  }

  lemma TakingKeepsOrder(s: State, t: State)
    requires InOrder(s) && Coalesced(s) && s.pending != []
    requires t.pending == s.pending[1..] && t.processing == Some(s.pending[0])
    requires t.accepted == s.accepted && t.drained == s.drained + [s.pending[0]]
    ensures InOrder(t) && Coalesced(t)
  {
    assert [s.pending[0]] + s.pending[1..] == s.pending;
    assert s.drained + [s.pending[0]] + s.pending[1..] == s.accepted;
  }

  lemma LoopKeeps(s: State)
    requires Consistent(s) && s.pumping && s.processing.None?
    ensures Valid(Loop(s))
  {
    hide CountOf, CountedSince, Newest, InOrder, Coalesced, Accounted;
    var t := Loop(s);
    if s.pending == [] || s.recovering {
      PumpIsFree(s);
      assert t == s.(pumping := false);
    } else {
      PendingTicketsDiffer(s);
      TakingAccounts(s, t);
      TakingKeepsOrder(s, t);
      if Suspicious(s, s.pending[0].request) {
        CountingKeeps(s.keyCounts, s.counted, s.pending[0].request.key.value);
      }
    }
  }

  lemma {:induction false} EquivalentFinds(pending: seq<Entry>, key: Option<string>)
    ensures Equivalent(pending, key).None? ==> forall i :: 0 <= i < |pending| ==> !SameKey(pending[i], key)
    ensures Equivalent(pending, key).Some? ==> Equivalent(pending, key).value in pending && SameKey(Equivalent(pending, key).value, key)
    decreases |pending|
  {
    if pending != [] && !SameKey(pending[0], key) {
      EquivalentFinds(pending[1..], key);
    }
  }

  /** A fresh ticket starts out waiting. */
  lemma AcceptingAccounts(s: State, t: State)
    requires Accounted(s)
    requires |t.pending| == |s.pending| + 1 && t.pending[..|s.pending|] == s.pending
    requires t.pending[|s.pending|].ticket == s.tickets
    requires t.processing == s.processing && t.nested == s.nested && t.receipts == s.receipts && t.tickets == s.tickets + 1
    ensures Accounted(t)
  {
    forall k: nat ensures Waiting(t, k) <==> Waiting(s, k) || k == s.tickets {
      if Waiting(s, k) {
        var i :| 0 <= i < |s.pending| && s.pending[i].ticket == k;
        assert t.pending[..|s.pending|][i] == s.pending[i];
        assert t.pending[i].ticket == k;
      }
      if Waiting(t, k) {
        var i :| 0 <= i < |t.pending| && t.pending[i].ticket == k;
        if i < |s.pending| {
          assert t.pending[..|s.pending|][i] == s.pending[i];
          assert s.pending[i].ticket == k;
        }
      }
    }
    forall k: nat ensures Running(t, k) <==> Running(s, k) {}
    assert t.pending[|s.pending|].ticket == s.tickets;
  }

  lemma AcceptKeeps(s: State, request: Request)
    requires Consistent(s) && Occupied(s) < PENDING_LIMIT
    requires Equivalent(s.pending, request.key).None?
    ensures Consistent(Accept(s, request))
  {
    hide CountOf, CountedSince, Newest, Equivalent, InOrder, Coalesced, Accounted, Accept;
    var t := Accept(s, request);
    var entry := Entry(request, s.tickets);
    AcceptedFields(s, request);
    AcceptedCounts(s, request);
    AcceptingAccounts(s, t);
    EquivalentFinds(s.pending, request.key);
    AcceptingKeepsOrder(s, t, entry);
    AcceptingKeepsKeys(s, t, entry);
  }

  lemma AcceptedFields(s: State, request: Request)
    ensures var t := Accept(s, request);
            && t.pending == s.pending + [Entry(request, s.tickets)] && t.accepted == s.accepted + [Entry(request, s.tickets)]
            && t.tickets == s.tickets + 1 && t.drained == s.drained && t.processing == s.processing
            && t.nested == s.nested && t.receipts == s.receipts && t.history == s.history && t.recorded == s.recorded
  {
    hide CountOf;
    var entry := Entry(request, s.tickets);
    var queued := s.(pending := s.pending + [entry], tickets := s.tickets + 1, accepted := s.accepted + [entry]);
    assert request.key.None? ==> Accept(s, request) == queued;
    assert Accept(s, request) == queued.(keyCounts := Accept(s, request).keyCounts, counted := Accept(s, request).counted);
  }

  lemma AcceptedCounts(s: State, request: Request)
    requires forall k :: CountOf(s.keyCounts, k) == CountedSince(s.counted, k)
    ensures forall k :: CountOf(Accept(s, request).keyCounts, k) == CountedSince(Accept(s, request).counted, k)
  {
    hide CountOf, CountedSince;
    if request.key.Some? {
      CountingKeeps(s.keyCounts, s.counted, request.key.value);
    }
  }

  lemma AcceptingKeepsOrder(s: State, t: State, entry: Entry)
    requires InOrder(s) && (forall e :: e in s.accepted ==> e.ticket < entry.ticket)
    requires t.pending == s.pending + [entry] && t.accepted == s.accepted + [entry]
    requires t.drained == s.drained && t.processing == s.processing
    ensures InOrder(t)
  {
    assert t.accepted == s.drained + (s.pending + [entry]);
    forall i, j | 0 <= i < j < |t.accepted| ensures t.accepted[i].ticket < t.accepted[j].ticket {
      assert t.accepted[i] == s.accepted[i];
    }
  }

  lemma AcceptingKeepsKeys(s: State, t: State, entry: Entry)
    requires Coalesced(s) && t.pending == s.pending + [entry]
    requires forall i :: 0 <= i < |s.pending| ==> !SameKey(s.pending[i], entry.request.key)
    ensures Coalesced(t)
  {
    forall i, j | 0 <= i < j < |t.pending| && t.pending[i].request.key.Some?
      ensures t.pending[i].request.key != t.pending[j].request.key
    {
      assert t.pending[i] == s.pending[i];
      assert !SameKey(s.pending[i], entry.request.key);
    }
  }

  /** An entry that is admitted sets the pump going, even where it had been lost. */
  lemma EnqueueKeeps(s: State, request: Request)
    requires Steady(s) && Equivalent(s.pending, request.key).None?
    ensures Steady(Enqueue(s, request).0)
    ensures Valid(s) || Occupied(s) < PENDING_LIMIT ==> Valid(Enqueue(s, request).0)
  {
    hide Consistent, Loop, Accept, Equivalent;
    if Occupied(s) < PENDING_LIMIT {
      AcceptKeeps(s, request);
      AcceptFrame(s, request);
      var t := Accept(s, request);
      if !t.pumping {
        LoopKeeps(t.(pumping := true)) by { PumpIsFree(t); }
      } else {
        assert Pumped(t) by { AcceptOccupies(t); }
      }
    }
  }

  lemma AcceptFrame(s: State, request: Request)
    ensures Accept(s, request).pumping == s.pumping && Accept(s, request).processing == s.processing
  {
  }

  lemma AcceptOccupies(s: State)
    requires Consistent(s)
    ensures Occupied(s) <= PENDING_LIMIT
  {
  }

  lemma PumpIsFree(s: State)
    requires Consistent(s)
    ensures Consistent(s.(pumping := true)) && Consistent(s.(pumping := false))
    ensures Consistent(s.(recovering := true)) && Consistent(s.(recovering := false))
  {
    hide *;
    FlagsAreFree(s, s.(pumping := true));
    FlagsAreFree(s, s.(pumping := false));
    FlagsAreFree(s, s.(recovering := true));
    FlagsAreFree(s, s.(recovering := false));
  }

  lemma FlagsAreFree(s: State, t: State)
    requires Consistent(s) && t == s.(pumping := t.pumping, recovering := t.recovering)
    ensures Consistent(t)
  {
    hide CountOf, CountedSince, Newest;
    forall k: nat ensures Waiting(s, k) <==> Waiting(t, k) {}
    forall k: nat ensures Running(s, k) <==> Running(t, k) {}
  }

  lemma RunInlineKeeps(s: State, request: Request)
    requires Steady(s)
    ensures Steady(RunInline(s, request).0) && (Valid(s) ==> Valid(RunInline(s, request).0))
  {
    hide CountOf, CountedSince, Newest;
    var t := RunInline(s, request).0;
    assert Accounted(t) by {
      forall k: nat ensures Waiting(s, k) <==> Waiting(t, k) {}
      forall k: nat ensures Running(s, k) <==> Running(t, k) {}
    }
  }

  lemma SubmitKeeps(s: State, request: Request)
    requires Steady(s)
    ensures Steady(Submit(s, request).0) && (Valid(s) ==> Valid(Submit(s, request).0))
  {
    hide Valid, Steady, RunInline, Enqueue;
    RunInlineKeeps(s, request);
    if Equivalent(s.pending, request.key).None? {
      EnqueueKeeps(s, request);
    }
  }

  lemma SubmitBatchKeeps(s: State, units: seq<Request>)
    requires Steady(s)
    ensures Steady(SubmitBatch(s, units).0) && (Valid(s) ==> Valid(SubmitBatch(s, units).0))
  {
    hide Valid, Steady, RunInline, Enqueue;
    if 0 < |units| <= BATCH_CAP {
      var request := Request("batch:" + units[0].id, None, false);
      RunInlineKeeps(s, request);
      EquivalentFinds(s.pending, None);
      EnqueueKeeps(s, request);
    }
  }

  /** The state just after the running entry's receipt is recorded, before the loop goes round. */
  function Settled(s: State, receipt: Receipt): State
    requires s.processing.Some?
  {
    Record(s, receipt).(processing := None, receipts := s.receipts[s.processing.value.ticket := receipt])
  }

  lemma SettlingKeeps(s: State, receipt: Receipt)
    requires Steady(s) && s.processing.Some?
    ensures Consistent(Settled(s, receipt))
  {
    hide CountOf, CountedSince, Newest;
    var t := Settled(s, receipt);
    NewestOfMore(s.recorded, receipt, HISTORY_LIMIT);
    assert Accounted(t) by {
      forall k: nat ensures Waiting(s, k) <==> Waiting(t, k) {}
    }
  }

  lemma FinishKeeps(s: State, receipt: Receipt)
    requires Steady(s)
    ensures Steady(Finish(s, receipt)) && (Valid(s) || s.processing.Some? ==> Valid(Finish(s, receipt)))
  {
    hide Consistent, Loop;
    if s.processing.Some? {
      SettlingKeeps(s, receipt);
      LoopKeeps(Settled(s, receipt));
    }
  }

  lemma FinishInlineKeeps(s: State, ticket: nat, receipt: Receipt)
    requires Steady(s)
    ensures Steady(FinishInline(s, ticket, receipt)) && (Valid(s) ==> Valid(FinishInline(s, ticket, receipt)))
  {
    hide CountOf, CountedSince, Newest;
    var t := FinishInline(s, ticket, receipt);
    if ticket in s.nested {
      NewestOfMore(s.recorded, receipt, HISTORY_LIMIT);
      assert Accounted(t) by {
        forall k: nat ensures Waiting(s, k) <==> Waiting(t, k) {}
        forall k: nat ensures Running(s, k) <==> Running(t, k) {}
      }
    }
  }

  lemma SetRecoveryKeeps(s: State, active: bool)
    requires Steady(s)
    ensures Valid(SetRecovery(s, active))
  {
    hide Consistent, Loop;
    PumpIsFree(s);
    AcceptOccupies(s);
    if !active {
      var t := s.(recovering := false);
      if !t.pumping {
        PumpIsFree(t);
        LoopKeeps(t.(pumping := true));
      }
    }
  }

  lemma ApplyKeeps(s: State, e: Event)
    requires Steady(s)
    ensures Steady(Apply(s, e)) && (Valid(s) ==> Valid(Apply(s, e)))
  {
    hide Consistent, Submit, SubmitBatch, Finish, FinishInline, SetRecovery;
    match e
    case Submitted(request) => SubmitKeeps(s, request);
    case BatchSubmitted(units) => SubmitBatchKeeps(s, units);
    case Finished(receipt) => FinishKeeps(s, receipt);
    case InlineFinished(ticket, receipt) => FinishInlineKeeps(s, ticket, receipt);
    case RecoverySet(active) => SetRecoveryKeeps(s, active);
  }

  lemma ValidIsSteady(s: State)
    requires Valid(s)
    ensures Steady(s)
  {
    hide Consistent;
  }

  lemma {:induction false} RunKeeps(s: State, events: seq<Event>)
    requires Valid(s)
    ensures Valid(After(s, events))
    decreases |events|
  {
    hide Valid, Steady, Apply;
    if events != [] {
      ValidIsSteady(s);
      ApplyKeeps(s, events[0]);
      RunKeeps(Apply(s, events[0]), events[1..]);
    }
  }

  /** Queue safety over every run from an empty queue in which the pump is not lost: at most the limit is pending or running, entries leave
      in the order they were accepted, a waiting entry outside recovery has a pump, every ticket is in
      exactly one place, and the history is the newest receipts in order. */
  lemma EveryRunIsSafe(events: seq<Event>)
    ensures Valid(After(EMPTY, events))
  {
    assert Valid(EMPTY);
    RunKeeps(EMPTY, events);
  }

  // ---------------------------------------------------------------- what every run promises its submitters

  /** What one turn of the loop can move. */
  lemma LoopMoves(s: State)
    ensures var t := Loop(s);
            && t.accepted == s.accepted && t.receipts == s.receipts
            && (|| (t.drained == s.drained && t.processing == s.processing)
                || (s.pending != [] && t.processing == Some(s.pending[0]) && t.drained == s.drained + [s.pending[0]]))
  {
  }

  lemma DrainMoves(s: State)
    ensures var t := Drain(s);
            && t.accepted == s.accepted && t.receipts == s.receipts
            && (|| (t.drained == s.drained && t.processing == s.processing)
                || (!s.pumping && s.pending != [] && t.processing == Some(s.pending[0]) && t.drained == s.drained + [s.pending[0]]))
  {
    hide Loop;
    LoopMoves(s.(pumping := true));
  }

  /** What admission can move. */
  lemma EnqueueMoves(s: State, request: Request)
    ensures var t := Enqueue(s, request).0;
            && s.accepted <= t.accepted && t.receipts == s.receipts
            && (|| (t.drained == s.drained && t.processing == s.processing)
                || (!s.pumping && t.processing.Some? && t.drained == s.drained + [t.processing.value]
                    && (s.pending != [] ==> t.processing.value == s.pending[0])))
  {
    hide Drain, CountOf;
    DrainMoves(Accept(s, request));
  }

  lemma SubmitMoves(s: State, request: Request)
    ensures var t := Submit(s, request).0;
            && s.accepted <= t.accepted && t.receipts == s.receipts
            && (|| (t.drained == s.drained && t.processing == s.processing)
                || (!s.pumping && t.processing.Some? && t.drained == s.drained + [t.processing.value]
                    && (s.pending != [] ==> t.processing.value == s.pending[0])))
  {
    hide Enqueue, Equivalent;
    EnqueueMoves(s, request);
  }

  lemma SubmitBatchMoves(s: State, units: seq<Request>)
    ensures var t := SubmitBatch(s, units).0;
            && s.accepted <= t.accepted && t.receipts == s.receipts
            && (|| (t.drained == s.drained && t.processing == s.processing)
                || (!s.pumping && t.processing.Some? && t.drained == s.drained + [t.processing.value]
                    && (s.pending != [] ==> t.processing.value == s.pending[0])))
  {
    hide Enqueue;
    if 0 < |units| <= BATCH_CAP {
      EnqueueMoves(s, Request("batch:" + units[0].id, None, false));
    }
  }

  /** An entry escalates as it is taken exactly when its key was counted three times since it last escalated, and
      then counting starts over. */
  lemma EscalatesIff(s: State)
    requires Consistent(s) && s.pending != [] && !s.recovering
    ensures var request, t := s.pending[0].request, Loop(s);
            && (t.counted != s.counted <==>
                request.escalates && request.key.Some? && CountedSince(s.counted, request.key.value) >= 3)
            && (t.counted != s.counted ==> CountedSince(t.counted, request.key.value) == 0)
            && (forall k :: request.key != Some(k) ==> CountedSince(t.counted, k) == CountedSince(s.counted, k))
  {
    hide InOrder, Accounted, Coalesced, Newest, CountedSince;
    if Suspicious(s, s.pending[0].request) {
      var key := s.pending[0].request.key.value;
      forall k ensures CountedSince(s.counted + [Reset(key)], k) == if k == key then 0 else CountedSince(s.counted, k) {
        ResetCounts(s.counted, key, k);
      }
    }
  }

  lemma ResetCounts(counted: seq<KeyEvent>, key: string, k: string)
    ensures CountedSince(counted + [Reset(key)], k) == if k == key then 0 else CountedSince(counted, k)
  {
    assert (counted + [Reset(key)])[..|counted|] == counted;
  }

  lemma ApplyMoves(s: State, e: Event)
    ensures s.accepted <= Apply(s, e).accepted
    ensures forall t :: t in s.receipts && !Running(s, t) && t !in s.nested ==>
              t in Apply(s, e).receipts && Apply(s, e).receipts[t] == s.receipts[t]
    ensures var t := Apply(s, e);
            || (t.drained == s.drained && t.processing == s.processing)
            || (t.drained == s.drained && t.processing.None? && e.Finished?)
            || (t.processing.Some? && t.drained == s.drained + [t.processing.value] && (!s.pumping || e.Finished?)
                && (s.pending != [] ==> t.processing.value == s.pending[0]))
  {
    hide Loop, Drain, Submit, SubmitBatch, Newest;
    match e
    case Submitted(request) => SubmitMoves(s, request);
    case BatchSubmitted(units) => SubmitBatchMoves(s, units);
    case Finished(receipt) => if s.processing.Some? { LoopMoves(Settled(s, receipt)); }
    case InlineFinished(ticket, receipt) =>
    case RecoverySet(active) => DrainMoves(s.(recovering := false));
  }

  lemma ApplyKeepsReceipts(s: State, e: Event, ticket: nat)
    requires Consistent(s) && ticket in s.receipts
    ensures ticket in Apply(s, e).receipts && Apply(s, e).receipts[ticket] == s.receipts[ticket]
  {
    hide Apply, InOrder, Coalesced, Waiting, CountOf, CountedSince, Newest;
    ApplyMoves(s, e);
  }

  /** A settled deferred keeps its receipt for ever: no submission is answered twice. */
  lemma {:induction false} ReceiptsStand(s: State, events: seq<Event>, ticket: nat)
    requires Valid(s) && ticket in s.receipts
    ensures ticket in After(s, events).receipts && After(s, events).receipts[ticket] == s.receipts[ticket]
    decreases |events|
  {
    hide Consistent, Apply;
    if events != [] {
      ValidIsSteady(s);
      ApplyKeeps(s, events[0]);
      ApplyKeepsReceipts(s, events[0], ticket);
      ReceiptsStand(Apply(s, events[0]), events[1..], ticket);
    }
  }

  /** An entry leaves the queue only for an idle processor or when the running entry's receipt arrives, and
      then it is the oldest one waiting. */
  lemma OneAtATime(s: State, e: Event)
    requires Valid(s)
    ensures var t := Apply(s, e);
            || (t.drained == s.drained && t.processing == s.processing)
            || (t.drained == s.drained && t.processing.None? && e.Finished?)
            || (t.processing.Some? && t.drained == s.drained + [t.processing.value] && (s.processing.None? || e.Finished?)
                && (s.pending != [] ==> t.processing.value == s.pending[0]))
  {
    hide Apply, Consistent;
    ApplyMoves(s, e);
  }

  lemma {:induction false} AcceptedGrows(s: State, events: seq<Event>)
    ensures s.accepted <= After(s, events).accepted
    decreases |events|
  {
    hide Apply;
    if events != [] {
      ApplyMoves(s, events[0]);
      AcceptedGrows(Apply(s, events[0]), events[1..]);
    }
  }

  lemma TicketNamesOneEntry(s: State, a: Entry, b: Entry)
    requires InOrder(s) && a in s.accepted && b in s.accepted && a.ticket == b.ticket
    ensures a == b
  {
  }

  lemma PendingIsAccepted(s: State, a: Entry)
    requires InOrder(s) && a in s.pending
    ensures a in s.accepted
  {
  }

  lemma OnePendingPerKey(s: State, a: Entry, b: Entry)
    requires Coalesced(s) && a in s.pending && b in s.pending && a.request.key.Some? && a.request.key == b.request.key
    ensures a == b
  {
  }

  /** A submission that joins the entry already waiting under its key changes nothing, and waits on the very
      ticket of the submitter that put it there. */
  lemma CoalescedSubmittersShare(s: State, entry: Entry, events: seq<Event>, request: Request)
    requires Valid(s) && entry in s.pending && entry.request.key.Some? && request.key == entry.request.key
    requires Waiting(After(s, events), entry.ticket)
    ensures Submit(After(s, events), request) == (After(s, events), Awaiting(entry.ticket))
  {
    hide Apply, Equivalent, After;
    var u := After(s, events);
    RunKeeps(s, events);
    AcceptedGrows(s, events);
    PendingIsAccepted(s, entry);
    var i :| 0 <= i < |u.pending| && u.pending[i].ticket == entry.ticket;
    PendingIsAccepted(u, u.pending[i]);
    TicketNamesOneEntry(u, u.pending[i], entry);
    EquivalentFinds(u.pending, request.key);
    OnePendingPerKey(u, entry, Equivalent(u.pending, request.key).value);
  }

  /** Submissions are refused only by a full backlog, which only recovery can build. */
  lemma QueueFullOnlyInRecovery(s: State, request: Request)
    requires Valid(s)
    ensures Submit(s, request).1.QueueFull? <==>
            s.recovering && s.processing.None? && |s.pending| == PENDING_LIMIT && Equivalent(s.pending, request.key).None?
  {
    hide CountOf, CountedSince, Newest, Equivalent;
  }

  function Finishes(receipts: seq<Receipt>): seq<Event> {
    seq(|receipts|, i requires 0 <= i < |receipts| => Finished(receipts[i]))
  }

  /** The running entry, then the waiting ones. */
  function Backlog(s: State): seq<Entry> {
    (if s.processing.Some? then [s.processing.value] else []) + s.pending
  }

  lemma FinishAdvances(s: State, receipt: Receipt)
    requires Valid(s) && !s.recovering && Backlog(s) != []
    ensures s.processing.Some?
    ensures var t := Finish(s, receipt);
            && !t.recovering && Backlog(t) == Backlog(s)[1..]
            && Backlog(s)[0].ticket in t.receipts && t.receipts[Backlog(s)[0].ticket] == receipt
  {
    hide CountOf, CountedSince, Newest;
  }

  /** Outside recovery the backlog drains: as many receipts as there are entries empty the queue, and the k-th
      receipt answers the k-th entry. */
  lemma {:induction false} BacklogDrains(s: State, receipts: seq<Receipt>)
    requires Valid(s) && !s.recovering && |receipts| == |Backlog(s)|
    ensures var t := After(s, Finishes(receipts));
            && Backlog(t) == []
            && forall k :: 0 <= k < |receipts| ==>
                 Backlog(s)[k].ticket in t.receipts && t.receipts[Backlog(s)[k].ticket] == receipts[k]
    decreases |receipts|
  {
    hide Valid, Finish, Backlog;
    if receipts != [] {
      var t := Finish(s, receipts[0]);
      FinishAdvances(s, receipts[0]);
      ValidIsSteady(s);
      FinishKeeps(s, receipts[0]);
      BacklogDrains(t, receipts[1..]);
      assert Finishes(receipts)[1..] == Finishes(receipts[1..]);
      ReceiptsStand(t, Finishes(receipts[1..]), Backlog(s)[0].ticket);
      forall k | 0 < k < |receipts|
        ensures Backlog(s)[k].ticket in After(t, Finishes(receipts[1..])).receipts
             && After(t, Finishes(receipts[1..])).receipts[Backlog(s)[k].ticket] == receipts[k]
      {
        assert Backlog(s)[k] == Backlog(t)[k - 1];
      }
    }
  }

  predicate NothingFinishes(events: seq<Event>) {
    forall i :: 0 <= i < |events| ==> !events[i].Finished?
  }

  lemma RunningEntryHoldsQueue(s: State, e: Event)
    requires Valid(s) && s.processing.Some? && !e.Finished?
    ensures Apply(s, e).processing == s.processing && Apply(s, e).pending == s.pending
  {
    hide CountOf, CountedSince, Newest, Equivalent;
  }

  lemma {:induction false} QueueWaitsForRunningEntry(s: State, events: seq<Event>)
    requires Valid(s) && s.processing.Some? && NothingFinishes(events)
    ensures After(s, events).pending == s.pending
    decreases |events|
  {
    hide Valid, Apply;
    if events != [] {
      RunningEntryHoldsQueue(s, events[0]);
      ValidIsSteady(s);
      ApplyKeeps(s, events[0]);
      QueueWaitsForRunningEntry(Apply(s, events[0]), events[1..]);
    }
  }

  /** A nested submission can be answered before the entry it runs under finishes exactly when no waiting entry
      has its key: one that coalesces waits for an entry that waits for the submitter. */
  lemma NestedSubmissionProgress(s: State, request: Request)
    requires Valid(s) && s.processing.Some?
    ensures Submit(s, request).1.Awaiting?
    ensures (exists events :: NothingFinishes(events)
              && Submit(s, request).1.ticket in After(Submit(s, request).0, events).receipts)
            <==> Equivalent(s.pending, request.key).None?
  {
    hide Valid, Consistent, CountOf, CountedSince, Newest, Equivalent;
    var (t, reply) := Submit(s, request);
    if Equivalent(s.pending, request.key).None? {
      var events := [InlineFinished(reply.ticket, EMPTY_BATCH)];
      assert NothingFinishes(events);
      assert events[1..] == [];
      assert After(t, events) == Apply(t, events[0]);
      assert reply.ticket in After(t, events).receipts;
    } else {
      EquivalentFinds(s.pending, request.key);
      forall events | NothingFinishes(events) ensures reply.ticket !in After(t, events).receipts {
        QueueWaitsForRunningEntry(s, events);
        RunKeeps(s, events);
        WaitingIsUnsettled(After(s, events), Equivalent(s.pending, request.key).value);
      }
    }
  }

  lemma WaitingIsUnsettled(s: State, entry: Entry)
    requires Valid(s) && entry in s.pending
    ensures entry.ticket !in s.receipts
  {
    var i :| 0 <= i < |s.pending| && s.pending[i] == entry;
    assert Waiting(s, entry.ticket);
  }

  lemma AfterFour(s: State, a: Event, b: Event, c: Event, d: Event)
    ensures After(s, [a, b, c, d]) == Apply(Apply(Apply(Apply(s, a), b), c), d)
  {
    hide Apply;
    assert [a, b, c, d][1..] == [b, c, d] && [b, c, d][1..] == [c, d] && [c, d][1..] == [d];
    assert After(Apply(Apply(Apply(s, a), b), c), [d]) == Apply(Apply(Apply(Apply(s, a), b), c), d);
    assert After(Apply(Apply(s, a), b), [c, d]) == After(Apply(Apply(Apply(s, a), b), c), [d]);
    assert After(Apply(s, a), [b, c, d]) == After(Apply(Apply(s, a), b), [c, d]);
  }

  /** Such a state is reachable: two entries under one key queued during recovery, then released. */
  lemma NestedJoinCanStall()
    ensures exists events: seq<Event>, request: Request :: After(EMPTY, events).processing.Some?
              && Equivalent(After(EMPTY, events).pending, request.key).Some?
  {
    var first, second := Request("a", Some("x"), false), Request("b", Some("y"), false);
    var s1 := Apply(EMPTY, RecoverySet(true));
    var s2 := Apply(s1, Submitted(first));
    var s3 := Apply(s2, Submitted(second));
    var s4 := Apply(s3, RecoverySet(false));
    assert s4.processing.Some? && s4.pending == [Entry(second, 1)];
    var events := [RecoverySet(true), Submitted(first), Submitted(second), RecoverySet(false)];
    AfterFour(EMPTY, events[0], events[1], events[2], events[3]);
    assert Equivalent(s4.pending, second.key).Some?;
  }

  // ---------------------------------------------------------------- the queue itself

  /** The mutable queue: every method moves the fields as the step functions say. */
  class Queue {
    var pending: seq<Entry>
    var history: seq<Receipt>
    var recovering: bool
    var processing: Option<Entry>
    var pumping: bool
    var keyCounts: map<string, nat>
    var nested: map<nat, Request>
    var receipts: map<nat, Receipt>
    var tickets: nat
    ghost var accepted: seq<Entry>
    ghost var drained: seq<Entry>
    ghost var recorded: seq<Receipt>
    ghost var counted: seq<KeyEvent>

    ghost function Now(): State
      reads this
    {
      State(pending, history, recovering, processing, pumping, keyCounts, nested, receipts, tickets,
            accepted, drained, recorded, counted)
    }

    constructor ()
      ensures Now() == EMPTY && Valid(Now())
    {
      pending, history, recovering, processing, pumping := [], [], false, None, false;
      keyCounts, nested, receipts, tickets := map[], map[], map[], 0;
      accepted, drained, recorded, counted := [], [], [], [];
    }

    method RecordHistory(receipt: Receipt)
      modifies `history, `recorded
      ensures Now() == Record(old(Now()), receipt)
    {
      history := history + [receipt];
      if |history| > HISTORY_LIMIT {
        history := history[|history| - HISTORY_LIMIT..];
      }
      recorded := recorded + [receipt];
    }

    /** One turn of the drain loop, up to the suspension inside the entry it takes. */
    method TurnLoop()
      modifies this
      ensures Now() == Loop(old(Now()))
    {
      if pending != [] && !recovering {
        var entry := pending[0];
        pending := pending[1..];
        processing := Some(entry);
        drained := drained + [entry];
        if entry.request.key.Some? && entry.request.escalates {
          var key := entry.request.key.value;
          if CountOf(keyCounts, key) >= REPEAT_THRESHOLD {
            keyCounts := keyCounts[key := 0];
            counted := counted + [Reset(key)];
          }
        }
      } else {
        pumping := false;
      }
    }

    method StartDrain()
      modifies this
      ensures Now() == Drain(old(Now()))
    {
      var busy := pumping;
      pumping := true;
      if busy {
        return;
      }
      TurnLoop();
    }

    method FindEquivalent(key: Option<string>) returns (existing: Option<Entry>)
      ensures existing == Equivalent(pending, key)
    {
      var i := 0;
      while i < |pending|
        invariant 0 <= i <= |pending|
        invariant Equivalent(pending, key) == Equivalent(pending[i..], key)
      {
        if SameKey(pending[i], key) {
          return Some(pending[i]);
        }
        assert pending[i..][1..] == pending[i + 1..];
        i := i + 1;
      }
      return None;
    }

    /** Append an entry and count its key. */
    method Append(request: Request)
      modifies this
      ensures Now() == Accept(old(Now()), request)
    {
      if request.key.Some? {
        keyCounts := keyCounts[request.key.value := CountOf(keyCounts, request.key.value) + 1];
        counted := counted + [Counted(request.key.value)];
      }
      pending := pending + [Entry(request, tickets)];
      accepted := accepted + [Entry(request, tickets)];
      tickets := tickets + 1;
    }

    method Push(request: Request) returns (reply: Reply)
      modifies this
      ensures (Now(), reply) == Enqueue(old(Now()), request)
    {
      hide Drain, Accept;
      var occupied := |pending| + (if processing.Some? then 1 else 0);
      if occupied >= PENDING_LIMIT {
        return QueueFull;
      }
      var ticket := tickets;
      Append(request);
      StartDrain();
      return Awaiting(ticket);
    }

    method StartInline(request: Request) returns (reply: Reply)
      modifies this
      ensures (Now(), reply) == RunInline(old(Now()), request)
    {
      reply := Awaiting(tickets);
      nested := nested[tickets := request];
      tickets := tickets + 1;
    }

    method SubmitUnit(request: Request) returns (reply: Reply)
      requires Valid(Now())
      modifies this
      ensures (Now(), reply) == Submit(old(Now()), request)
      ensures Valid(Now())
    {
      SubmitKeeps(Now(), request);
      var existing := FindEquivalent(request.key);
      if existing.Some? {
        return Awaiting(existing.value.ticket);
      }
      if processing.Some? {
        reply := StartInline(request);
      } else {
        reply := Push(request);
      }
    }

    method SubmitUnits(units: seq<Request>) returns (reply: Reply)
      requires Valid(Now())
      modifies this
      ensures (Now(), reply) == SubmitBatch(old(Now()), units)
      ensures reply.InvalidRequest? <==> |units| > 64
      ensures reply.Immediate? <==> units == []
      ensures reply.InvalidRequest? || reply.Immediate? ==> Now() == old(Now())
      ensures reply.Immediate? ==> reply == Immediate(Receipt("batch:empty", Completed, [], None))
      ensures Valid(Now())
    {
      SubmitBatchKeeps(Now(), units);
      if |units| > BATCH_CAP {
        return InvalidRequest;
      }
      if units == [] {
        return Immediate(EMPTY_BATCH);
      }
      var request := Request("batch:" + units[0].id, None, false);
      if processing.Some? {
        reply := StartInline(request);
      } else {
        reply := Push(request);
      }
    }

    /** The running entry's receipt arrives. */
    method Complete(receipt: Receipt)
      requires Valid(Now()) && processing.Some?
      modifies this
      ensures Now() == Finish(old(Now()), receipt)
      ensures Valid(Now())
    {
      FinishKeeps(Now(), receipt);
      var entry := processing.value;
      RecordHistory(receipt);
      receipts := receipts[entry.ticket := receipt];
      processing := None;
      TurnLoop();
    }

    method CompleteInline(ticket: nat, receipt: Receipt)
      requires Valid(Now()) && ticket in nested
      modifies this
      ensures Now() == FinishInline(old(Now()), ticket, receipt)
      ensures Valid(Now())
    {
      FinishInlineKeeps(Now(), ticket, receipt);
      RecordHistory(receipt);
      nested := nested - {ticket};
      receipts := receipts[ticket := receipt];
    }

    method SwitchRecovery(active: bool)
      requires Valid(Now())
      modifies this
      ensures Now() == SetRecovery(old(Now()), active)
      ensures Valid(Now())
    {
      SetRecoveryKeeps(Now(), active);
      recovering := active;
      if !active {
        StartDrain();
      }
    }
  }
}
