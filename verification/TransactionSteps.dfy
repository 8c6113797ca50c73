/** Running a unit's steps, unwinding them after a failure, and composing units into a batch. */
module TransactionSteps {
  import opened Geometry

  datatype Failure = Failure(code: string, message: string, diagnostic: Option<string>)

  /** What a receipt may show of a failure. */
  datatype Shown = Shown(code: string, message: string)

  /** A failing step may carry no description at all. */
  datatype Outcome = Done | Refused(failure: Option<Failure>)

  datatype Step<!W> = Step(name: string, run: W -> (W, Outcome), compensate: Option<W -> W>)

  datatype WorkUnit<!W> = WorkUnit(id: string, steps: seq<Step<W>>)

  datatype Status = Completed | Failed | TimedOut

  datatype Receipt = Receipt(id: string, status: Status, applied: seq<string>, error: Option<Shown>)

  const INTERNAL := "internal_error"
  const INTERNAL_MESSAGE := "the operation failed unexpectedly"
  const INTERNAL_FAILURE := Failure(INTERNAL, INTERNAL_MESSAGE, None)

  function FailureOf(left: Option<Failure>): Failure {
    if left.Some? then left.value else INTERNAL_FAILURE
  }

  function Safe(failure: Failure): Shown {
    if failure.code == INTERNAL then Shown(INTERNAL, INTERNAL_MESSAGE) else Shown(failure.code, failure.message)
  }

  function Diagnostic(id: string, failure: Failure): Option<string> {
    if failure.diagnostic.Some? then failure.diagnostic
    else if failure.code == INTERNAL then Some(id + ": unexpected step failure")
    else None
  }

  /** The state a run ends in, how many steps succeeded, and the failure that stopped it. */
  datatype Ran<W> = Ran(state: W, applied: nat, failure: Option<Failure>)

  /** Steps nest: a step's compensation wraps whatever the later steps undid. */
  function Run<W>(w: W, steps: seq<Step<W>>): (r: Ran<W>)
    ensures r.applied <= |steps|
    ensures r.failure.None? <==> r.applied == |steps|
  {
    if steps == [] then Ran(w, 0, None)
    else
      var (next, outcome) := steps[0].run(w);
      if outcome.Refused? then Ran(next, 0, Some(FailureOf(outcome.failure)))
      else
        var rest := Run(next, steps[1..]);
        Ran(if rest.failure.Some? && steps[0].compensate.Some? then steps[0].compensate.value(rest.state) else rest.state,
            rest.applied + 1, rest.failure)
  }

  function Names<W>(steps: seq<Step<W>>): seq<string> {
    seq(|steps|, i requires 0 <= i < |steps| => steps[i].name)
  }

  /** The latest compensation first. */
  function Unwound<W>(w: W, compensations: seq<W -> W>): W
    decreases |compensations|
  {
    if compensations == [] then w
    else Unwound(compensations[|compensations| - 1](w), compensations[..|compensations| - 1])
  }

  /** What the submitter is told of a run. */
  function ReceiptOf<W>(id: string, steps: seq<Step<W>>, ran: Ran<W>): Receipt
    requires ran.applied <= |steps|
  {
    if ran.failure.None? then Receipt(id, Completed, Names(steps), None)
    else Receipt(id, Failed, Names(steps[..ran.applied]), Some(Safe(ran.failure.value)))
  }

  /** The submitter sees the failure's code and message, of an internal one nothing but that it was unexpected; the
      diagnostic is the failure's own, else names the unit of an internal failure. */
  ghost predicate ToldOf(id: string, failure: Failure, error: Option<Shown>, diagnostic: Option<string>) {
    && error == Some(Shown(failure.code, if failure.code == "internal_error" then "the operation failed unexpectedly" else failure.message))
    && (failure.diagnostic.Some? ==> diagnostic == failure.diagnostic)
    && (failure.diagnostic.None? && failure.code == "internal_error" ==> diagnostic == Some(id + ": unexpected step failure"))
    && (failure.diagnostic.None? && failure.code != "internal_error" ==> diagnostic.None?)
  }

  /** The step loop with its list of compensations and the reverse pass over them. */
  method RunSteps<W>(id: string, start: W, steps: seq<Step<W>>)
    returns (w: W, receipt: Receipt, diagnostic: Option<string>)
    ensures w == Run(start, steps).state
    ensures receipt == ReceiptOf(id, steps, Run(start, steps))
    ensures receipt.id == id
    ensures receipt.applied == Names(steps[..Run(start, steps).applied])
    ensures receipt.status == if Run(start, steps).failure.None? then Completed else Failed
    ensures Run(start, steps).failure.None? ==> receipt.error.None? && diagnostic.None?
    ensures Run(start, steps).failure.Some?
            ==> && receipt.error == Some(Safe(Run(start, steps).failure.value))
                && diagnostic == Diagnostic(id, Run(start, steps).failure.value)
    ensures Run(start, steps).failure.Some? ==> ToldOf(id, Run(start, steps).failure.value, receipt.error, diagnostic)
  {
    w := start;
    var applied: seq<string> := [];
    var compensations: seq<W -> W> := [];
    var i := 0;
    while i < |steps|
      invariant 0 <= i <= |steps|
      invariant applied == Names(steps[..i])
      invariant var rest := Run(w, steps[i..]);
                Run(start, steps) == Ran(if rest.failure.Some? then Unwound(rest.state, compensations) else rest.state,
                                         i + rest.applied, rest.failure)
    {
      assert steps[i..][0] == steps[i] && steps[i..][1..] == steps[i + 1..];
      var (next, outcome) := steps[i].run(w);
      w := next;
      if outcome.Refused? {
        var failure := FailureOf(outcome.failure);
        var k := |compensations|;
        assert compensations[..k] == compensations;
        while k > 0
          invariant 0 <= k <= |compensations|
          invariant Unwound(w, compensations[..k]) == Run(start, steps).state
        {
          assert compensations[..k][..k - 1] == compensations[..k - 1];
          w := compensations[k - 1](w);
          k := k - 1;
        }
        return w, Receipt(id, Failed, applied, Some(Safe(failure))), Diagnostic(id, failure);
      }
      applied := applied + [steps[i].name];
      if steps[i].compensate.Some? {
        ghost var before := compensations;
        compensations := compensations + [steps[i].compensate.value];
        assert compensations[..|compensations| - 1] == before;
      }
      i := i + 1;
    }
    assert steps[..i] == steps;
    return w, Receipt(id, Completed, applied, None), None;
  }

  // ---------------------------------------------------------------- failed units leave no trace

  /** At this state the step either changes nothing, or succeeds with a compensation that inverts it. */
  ghost predicate Undoable<W>(step: Step<W>, w: W) {
    var (next, outcome) := step.run(w);
    if outcome.Done? && step.compensate.Some? then step.compensate.value(next) == w else next == w
  }

  /** Every step met by a run from `w` is undoable where it runs. */
  ghost predicate UndoableRun<W>(w: W, steps: seq<Step<W>>) {
    steps != [] ==>
      Undoable(steps[0], w) && (steps[0].run(w).1.Done? ==> UndoableRun(steps[0].run(w).0, steps[1..]))
  }

  /** A failed unit whose compensations invert their steps leaves the state where it began. */
  lemma {:induction false} FailedUnitRestoresState<W>(w: W, steps: seq<Step<W>>)
    requires Run(w, steps).failure.Some?
    requires UndoableRun(w, steps)
    ensures Run(w, steps).state == w
  {
    if steps != [] && steps[0].run(w).1.Done? {
      FailedUnitRestoresState(steps[0].run(w).0, steps[1..]);
    }
  }

  /** The compensations a completed run of these steps has gathered. */
  function Compensations<W>(steps: seq<Step<W>>): seq<W -> W> {
    if steps == [] then []
    else (if steps[0].compensate.Some? then [steps[0].compensate.value] else []) + Compensations(steps[1..])
  }

  lemma {:induction false} UnwoundFirst<W>(w: W, first: W -> W, rest: seq<W -> W>)
    ensures Unwound(w, [first] + rest) == first(Unwound(w, rest))
    decreases |rest|
  {
    var all := [first] + rest;
    if rest == [] {
      assert all[..0] == [];
    } else {
      var n := |rest| - 1;
      assert all[..|all| - 1] == [first] + rest[..n];
      UnwoundFirst(rest[n](w), first, rest[..n]);
    }
  }

  /** The state after these steps, whatever comes of them. */
  function Forward<W>(w: W, steps: seq<Step<W>>): W {
    if steps == [] then w else Forward(steps[0].run(w).0, steps[1..])
  }

  lemma ForwardFirst<W>(w: W, steps: seq<Step<W>>, i: nat)
    requires 0 < i <= |steps|
    ensures Forward(w, steps[..i]) == Forward(steps[0].run(w).0, steps[1..][..i - 1])
    ensures Compensations(steps[..i])
            == (if steps[0].compensate.Some? then [steps[0].compensate.value] else []) + Compensations(steps[1..][..i - 1])
  {
    assert steps[..i][0] == steps[0] && steps[..i][1..] == steps[1..][..i - 1];
  }

  /** Step `i` is run on what the steps before it made. */
  function OutcomeAt<W>(w: W, steps: seq<Step<W>>, i: nat): (W, Outcome)
    requires i < |steps|
  {
    steps[i].run(Forward(w, steps[..i]))
  }

  lemma OutcomeLater<W>(w: W, steps: seq<Step<W>>, i: nat)
    requires 0 < i < |steps|
    ensures OutcomeAt(w, steps, i) == OutcomeAt(steps[0].run(w).0, steps[1..], i - 1)
  {
    ForwardFirst(w, steps, i);
  }

  /** A run goes on until a step refuses. It fails with what that step said, or, where it said nothing, with an unexpected
      operation failure, and is unwound from what that step left, the latest compensation first. */
  lemma {:induction false} RunStopsAtTheFirstRefusal<W>(w: W, steps: seq<Step<W>>)
    ensures var ran, k := Run(w, steps), Run(w, steps).applied;
            && (forall i :: 0 <= i < k ==> OutcomeAt(w, steps, i).1.Done?)
            && (k == |steps| ==> ran.failure.None? && ran.state == Forward(w, steps))
            && (k < |steps| ==>
                  var (left, outcome) := OutcomeAt(w, steps, k);
                  && outcome.Refused? && ran.state == Unwound(left, Compensations(steps[..k]))
                  && ran.failure == if outcome.failure.Some? then outcome.failure
                                    else Some(Failure("internal_error", "the operation failed unexpectedly", None)))
  {
    if steps != [] {
      assert steps[..0] == [];
      if steps[0].run(w).1.Done? {
        RunStopsAtTheFirstRefusal(steps[0].run(w).0, steps[1..]);
        RunOnward(w, steps);
      }
    }
  }

  lemma RunOnward<W>(w: W, steps: seq<Step<W>>)
    requires steps != [] && steps[0].run(w).1.Done?
    requires var next, rest := steps[0].run(w).0, steps[1..];
             && (forall i :: 0 <= i < Run(next, rest).applied ==> OutcomeAt(next, rest, i).1.Done?)
             && (Run(next, rest).applied < |rest| ==>
                   var (left, outcome) := OutcomeAt(next, rest, Run(next, rest).applied);
                   Run(next, rest).state == Unwound(left, Compensations(rest[..Run(next, rest).applied])))
    ensures var k := Run(w, steps).applied;
            && k == Run(steps[0].run(w).0, steps[1..]).applied + 1
            && Run(w, steps).failure == Run(steps[0].run(w).0, steps[1..]).failure
            && (forall i :: 0 <= i < k ==> OutcomeAt(w, steps, i).1.Done?)
            && (k < |steps| ==>
                  && OutcomeAt(w, steps, k) == OutcomeAt(steps[0].run(w).0, steps[1..], k - 1)
                  && Run(w, steps).state == Unwound(OutcomeAt(w, steps, k).0, Compensations(steps[..k])))
  {
    var next, rest := steps[0].run(w).0, steps[1..];
    var k := Run(w, steps).applied;
    forall i | 0 <= i < k ensures OutcomeAt(w, steps, i).1.Done? {
      if i > 0 {
        OutcomeLater(w, steps, i);
      } else {
        assert steps[..0] == [];
      }
    }
    if k < |steps| {
      OutcomeLater(w, steps, k);
      ForwardFirst(w, steps, k);
      if steps[0].compensate.Some? {
        UnwoundFirst(OutcomeAt(w, steps, k).0, steps[0].compensate.value, Compensations(rest[..k - 1]));
      } else {
        assert [] + Compensations(rest[..k - 1]) == Compensations(rest[..k - 1]);
      }
    }
  }

  /** When a later part fails, the completed part before it is unwound from whatever state the later part left. */
  lemma {:induction false} FailureUnwindsPrefix<W>(w: W, first: seq<Step<W>>, second: seq<Step<W>>)
    requires Run(w, first).failure.None? && Run(Run(w, first).state, second).failure.Some?
    ensures var rest := Run(Run(w, first).state, second);
            && Run(w, first + second).failure == rest.failure
            && Run(w, first + second).state == Unwound(rest.state, Compensations(first))
  {
    if first == [] {
      assert first + second == second;
    } else {
      assert (first + second)[1..] == first[1..] + second;
      FailureUnwindsPrefix(first[0].run(w).0, first[1..], second);
      var rest := Run(Run(w, first).state, second);
      if first[0].compensate.Some? {
        UnwoundFirst(rest.state, first[0].compensate.value, Compensations(first[1..]));
      } else {
        assert [] + Compensations(first[1..]) == Compensations(first[1..]);
      }
    }
  }

  ghost predicate Injective<W(!new)>(f: W -> W) {
    forall a, b :: f(a) == f(b) ==> a == b
  }

  lemma {:induction false} UnwindingIsInjective<W(!new)>(a: W, b: W, compensations: seq<W -> W>)
    requires forall i :: 0 <= i < |compensations| ==> Injective(compensations[i])
    requires Unwound(a, compensations) == Unwound(b, compensations)
    ensures a == b
    decreases |compensations|
  {
    if compensations != [] {
      var n := |compensations| - 1;
      UnwindingIsInjective(compensations[n](a), compensations[n](b), compensations[..n]);
      assert Injective(compensations[n]);
    }
  }

  /** A completed undoable prefix is undone by unwinding it from where it ended. */
  lemma {:induction false} PrefixUnwinds<W>(w: W, steps: seq<Step<W>>)
    requires UndoableRun(w, steps) && Run(w, steps).failure.None?
    ensures Unwound(Run(w, steps).state, Compensations(steps)) == w
  {
    if steps != [] {
      var next := steps[0].run(w).0;
      PrefixUnwinds(next, steps[1..]);
      if steps[0].compensate.Some? {
        UnwoundFirst(Run(w, steps).state, steps[0].compensate.value, Compensations(steps[1..]));
      } else {
        assert [] + Compensations(steps[1..]) == Compensations(steps[1..]);
      }
    }
  }

  /** The steps done so far, one of them without a compensation, and a failure later on: unwinding starts from the
      state that step made, so what it did survives. When the compensations before it are injective and every other
      step is undoable, the start is restored if and only if that step changed nothing. */
  lemma UncompensatedStepSurvives<W(!new)>(w: W, before: seq<Step<W>>, step: Step<W>, later: seq<Step<W>>)
    requires Run(w, before).failure.None? && step.compensate.None?
    requires var mid := Run(w, before).state;
             var (next, outcome) := step.run(mid);
             outcome.Done? && UndoableRun(next, later) && Run(next, later).failure.Some?
    ensures var mid := Run(w, before).state;
            var next := step.run(mid).0;
            var ran := Run(w, before + ([step] + later));
            && ran.failure.Some? && ran.state == Unwound(next, Compensations(before))
            && (UndoableRun(w, before) && (forall i :: 0 <= i < |Compensations(before)| ==> Injective(Compensations(before)[i])) ==>
                  (ran.state == w <==> next == mid))
  {
    var mid := Run(w, before).state;
    var next := step.run(mid).0;
    var tail := [step] + later;
    assert tail[1..] == later;
    FailedUnitRestoresState(next, later);
    assert Run(mid, tail).state == next && Run(mid, tail).failure.Some?;
    FailureUnwindsPrefix(w, before, tail);
    if UndoableRun(w, before) && forall i :: 0 <= i < |Compensations(before)| ==> Injective(Compensations(before)[i]) {
      PrefixUnwinds(w, before);
      if Unwound(next, Compensations(before)) == w {
        UnwindingIsInjective(next, mid, Compensations(before));
      }
    }
  }

  // ---------------------------------------------------------------- what receipts keep to themselves

  /** Two steps that do the same to every state, except that internal failures may say different things. */
  ghost predicate AlikeOutside<W(!new)>(a: Step<W>, b: Step<W>) {
    && a.name == b.name && a.compensate == b.compensate
    && forall w :: a.run(w).0 == b.run(w).0 && SameOrInternal(a.run(w).1, b.run(w).1)
  }

  predicate SameOrInternal(a: Outcome, b: Outcome) {
    a == b || (a.Refused? && b.Refused? && FailureOf(a.failure).code == INTERNAL && FailureOf(b.failure).code == INTERNAL)
  }

  lemma {:induction false} AlikeRunsAlike<W(!new)>(w: W, steps: seq<Step<W>>, others: seq<Step<W>>)
    requires |steps| == |others| && forall i :: 0 <= i < |steps| ==> AlikeOutside(steps[i], others[i])
    ensures var a, b := Run(w, steps), Run(w, others);
            && a.state == b.state && a.applied == b.applied && (a.failure.Some? <==> b.failure.Some?)
            && (a.failure.Some? ==> Safe(a.failure.value) == Safe(b.failure.value))
  {
    if steps != [] {
      assert AlikeOutside(steps[0], others[0]);
      assert SameOrInternal(steps[0].run(w).1, others[0].run(w).1);
      forall i | 0 <= i < |steps[1..]| ensures AlikeOutside(steps[1..][i], others[1..][i]) {
        assert AlikeOutside(steps[i + 1], others[i + 1]);
      }
      AlikeRunsAlike(steps[0].run(w).0, steps[1..], others[1..]);
    }
  }

  /** Whatever internal failures say, and wherever in a run they occur, the submitter cannot tell: units that differ
      in nothing else leave the same state and the same receipt. */
  lemma InternalMessagesStayInside<W(!new)>(id: string, w: W, steps: seq<Step<W>>, others: seq<Step<W>>)
    requires |steps| == |others| && forall i :: 0 <= i < |steps| ==> AlikeOutside(steps[i], others[i])
    ensures Run(w, steps).state == Run(w, others).state
    ensures ReceiptOf(id, steps, Run(w, steps)) == ReceiptOf(id, others, Run(w, others))
  {
    hide Safe;
    AlikeRunsAlike(w, steps, others);
    var n := Run(w, steps).applied;
    forall i | 0 <= i < |steps| ensures steps[i].name == others[i].name {
      assert AlikeOutside(steps[i], others[i]);
    }
    assert Names(steps) == Names(others) && Names(steps[..n]) == Names(others[..n]);
  }

  // ---------------------------------------------------------------- batches

  function Renamed<W>(prefix: string, steps: seq<Step<W>>): (r: seq<Step<W>>)
    ensures |r| == |steps|
  {
    seq(|steps|, i requires 0 <= i < |steps| => steps[i].(name := prefix + "/" + steps[i].name))
  }

  /** The steps of a composite unit: every unit's own, in order, under the unit's name. */
  function BatchSteps<W>(units: seq<WorkUnit<W>>): seq<Step<W>> {
    if units == [] then [] else Renamed(units[0].id, units[0].steps) + BatchSteps(units[1..])
  }

  lemma {:induction false} RenamingKeepsRun<W>(w: W, prefix: string, steps: seq<Step<W>>)
    ensures Run(w, Renamed(prefix, steps)) == Run(w, steps)
  {
    if steps != [] {
      assert Renamed(prefix, steps)[1..] == Renamed(prefix, steps[1..]);
      RenamingKeepsRun(steps[0].run(w).0, prefix, steps[1..]);
    }
  }

  /** Steps after a completed prefix run where the prefix ended. */
  lemma {:induction false} RunAppendCompleted<W>(w: W, first: seq<Step<W>>, second: seq<Step<W>>)
    requires Run(w, first).failure.None?
    ensures var rest := Run(Run(w, first).state, second);
            && Run(w, first + second).failure == rest.failure
            && Run(w, first + second).applied == |first| + rest.applied
            && (rest.failure.None? ==> Run(w, first + second).state == rest.state)
  {
    if first == [] {
      assert first + second == second;
    } else {
      assert (first + second)[1..] == first[1..] + second;
      RunAppendCompleted(first[0].run(w).0, first[1..], second);
    }
  }

  /** A failing prefix stops the run: nothing after it matters. */
  lemma {:induction false} RunAppendFailed<W>(w: W, first: seq<Step<W>>, second: seq<Step<W>>)
    requires Run(w, first).failure.Some?
    ensures Run(w, first + second) == Run(w, first)
  {
    if first != [] {
      assert (first + second)[1..] == first[1..] + second;
      if first[0].run(w).1.Done? {
        RunAppendFailed(first[0].run(w).0, first[1..], second);
      }
    }
  }

  /** Running the units one after another, stopping at the first that fails. */
  function Sequence<W>(w: W, units: seq<WorkUnit<W>>): Ran<W> {
    if units == [] then Ran(w, 0, None)
    else
      var first := Run(w, units[0].steps);
      if first.failure.Some? then first
      else
        var rest := Sequence(first.state, units[1..]);
        Ran(rest.state, |units[0].steps| + rest.applied, rest.failure)
  }

  /** A batch stops on the same first failure as its units run in turn, and when all of them succeed it
      ends in the same state. */
  lemma {:induction false} BatchRunsUnitsInOrder<W>(w: W, units: seq<WorkUnit<W>>)
    ensures Run(w, BatchSteps(units)).failure == Sequence(w, units).failure
    ensures Run(w, BatchSteps(units)).applied == Sequence(w, units).applied
    ensures Sequence(w, units).failure.None? ==> Run(w, BatchSteps(units)).state == Sequence(w, units).state
  {
    if units != [] {
      var head, tail := Renamed(units[0].id, units[0].steps), BatchSteps(units[1..]);
      RenamingKeepsRun(w, units[0].id, units[0].steps);
      if Run(w, head).failure.Some? {
        RunAppendFailed(w, head, tail);
      } else {
        RunAppendCompleted(w, head, tail);
        BatchRunsUnitsInOrder(Run(w, head).state, units[1..]);
      }
    }
  }

  ghost predicate UndoableUnits<W>(w: W, units: seq<WorkUnit<W>>) {
    units != [] ==>
      && UndoableRun(w, units[0].steps)
      && (Run(w, units[0].steps).failure.None? ==> UndoableUnits(Run(w, units[0].steps).state, units[1..]))
  }

  lemma {:induction false} UndoableAppend<W>(w: W, prefix: string, first: seq<Step<W>>, second: seq<Step<W>>)
    requires UndoableRun(w, first)
    requires Run(w, first).failure.None? ==> UndoableRun(Run(w, first).state, second)
    ensures UndoableRun(w, Renamed(prefix, first) + second)
  {
    var all := Renamed(prefix, first) + second;
    if first == [] {
      assert all == second;
    } else {
      assert all[1..] == Renamed(prefix, first[1..]) + second;
      if first[0].run(w).1.Done? {
        UndoableAppend(first[0].run(w).0, prefix, first[1..], second);
      }
    }
  }

  lemma {:induction false} UndoableBatch<W>(w: W, units: seq<WorkUnit<W>>)
    requires UndoableUnits(w, units)
    ensures UndoableRun(w, BatchSteps(units))
  {
    if units != [] {
      if Run(w, units[0].steps).failure.None? {
        UndoableBatch(Run(w, units[0].steps).state, units[1..]);
      }
      UndoableAppend(w, units[0].id, units[0].steps, BatchSteps(units[1..]));
    }
  }

  /** All or nothing: a failing batch undoes the completed units before the failing one as well. */
  lemma BatchIsAllOrNothing<W>(w: W, units: seq<WorkUnit<W>>)
    requires UndoableUnits(w, units)
    ensures Run(w, BatchSteps(units)).state
            == if Sequence(w, units).failure.Some? then w else Sequence(w, units).state
  {
    UndoableBatch(w, units);
    BatchRunsUnitsInOrder(w, units);
    if Sequence(w, units).failure.Some? {
      FailedUnitRestoresState(w, BatchSteps(units));
    }
  }
}
