/** What the lock and the double revision check buy: commits form a chain, and what can still break it. */
module ObservationCommits {
  import opened Geometry
  import opened ObservationFile

  // ---------------------------------------------------------------- checks and chains

  /** A process about to rename still sees the revision it checked. */
  ghost predicate ChecksStand(s: State) {
    forall p :: p in s.processes && s.processes[p].pc.Checked? ==> s.file == s.processes[p].job.expected
  }

  /** Each commit replaced what the one before it left, and the file is what the last one left. */
  ghost predicate Chain(start: Content, history: seq<Commit>, file: Content) {
    if history == [] then file == start
    else
      var last := history[|history| - 1];
      file == Holds(last.document) && last.expected == last.replaced && Chain(start, history[..|history| - 1], last.replaced)
  }

  /** The two changes of the file that no lock guards, when they do change it. */
  predicate Unguarded(s: State, e: Event) {
    match e
    case Step(p, DoQuarantine) => At(s, p).pc.Quarantining? && s.file != Absent
    case FileDamaged => s.file != Damaged
    case _ => false
  }

  predicate SomeoneChecked(s: State) {
    exists p :: p in s.processes && s.processes[p].pc.Checked?
  }

  lemma OnlyOneChecked(s: State, p: Pid, q: Pid)
    requires Locked(s) && p in s.processes && q in s.processes && s.processes[p].pc.Checked? && s.processes[q].pc.Checked?
    ensures p == q
  {
    LockedParts(s);
    ClaimIsLock(s, p);
    ClaimIsLock(s, q);
    OwnLockMeansAlone(s, p);
  }

  lemma OthersKeepTheirPlace(s: State, p: Pid, action: Action, q: Pid)
    requires q != p
    ensures q in Act(s, p, action).processes <==> q in s.processes
    ensures q in s.processes ==> Act(s, p, action).processes[q] == s.processes[q]
  {
  }

  /** Becoming checked takes a look at the file. */
  lemma CheckedLooked(s: State, p: Pid, action: Action)
    requires p in Act(s, p, action).processes && Act(s, p, action).processes[p].pc.Checked?
    ensures var t := Act(s, p, action);
            && t.file == s.file
            && ((p in s.processes && s.processes[p] == t.processes[p]) || s.file == t.processes[p].job.expected)
  {
  }

  lemma FileChangesBy(s: State, p: Pid, action: Action)
    ensures var t := Act(s, p, action);
            t.file == s.file || (action.DoRename? && At(s, p).pc.Checked?) || Unguarded(s, Step(p, action))
  {
  }

  /** Past checks are upset exactly by an unguarded change of the file while someone has checked. */
  lemma StepKeepsChecksIff(s: State, e: Event)
    requires Locked(s) && ChecksStand(s)
    ensures ChecksStand(Apply(s, e)) <==> !(Unguarded(s, e) && SomeoneChecked(s))
  {
    hide Locked, Act;
    match e
    case StaleLockRemoved =>
    case FileDamaged =>
    case Step(p, action) =>
      ActKeepsChecksIff(s, p, action);
  }

  lemma ActKeepsChecksIff(s: State, p: Pid, action: Action)
    requires Locked(s) && ChecksStand(s)
    ensures ChecksStand(Act(s, p, action)) <==> !(Unguarded(s, Step(p, action)) && SomeoneChecked(s))
  {
    hide Locked, Act, Unguarded;
    var t := Act(s, p, action);
    forall q ensures q != p ==> (q in t.processes <==> q in s.processes) && (q in s.processes ==> t.processes[q] == s.processes[q]) {
      if q != p { OthersKeepTheirPlace(s, p, action, q); }
    }
    if p in t.processes && t.processes[p].pc.Checked? { CheckedLooked(s, p, action); }
    FileChangesBy(s, p, action);
    if Unguarded(s, Step(p, action)) {
      UnguardedStep(s, p, action);
    } else if t.file != s.file {
      forall q | q in s.processes && s.processes[q].pc.Checked? ensures q == p { OnlyOneChecked(s, p, q); }
      RenamedIsLeaving(s, p, action);
    }
  }

  lemma UnguardedStep(s: State, p: Pid, action: Action)
    requires Unguarded(s, Step(p, action))
    ensures Act(s, p, action).file != s.file && !At(s, p).pc.Checked?
    ensures p in Act(s, p, action).processes && !Act(s, p, action).processes[p].pc.Checked?
  {
  }

  lemma RenamedIsLeaving(s: State, p: Pid, action: Action)
    requires action.DoRename? && At(s, p).pc.Checked?
    ensures p in Act(s, p, action).processes && !Act(s, p, action).processes[p].pc.Checked?
  {
  }

  // ---------------------------------------------------------------- the chain of commits

  lemma HistoryChangesBy(s: State, p: Pid, action: Action)
    ensures var t := Act(s, p, action);
            || (t.history == s.history && (t.file == s.file || Unguarded(s, Step(p, action))))
            || (p in s.processes && s.processes[p].pc.Checked?
                && t.history == s.history + [Commit(s.processes[p].job.expected, s.file, s.processes[p].job.document)]
                && t.file == Holds(s.processes[p].job.document))
    ensures Unguarded(s, Step(p, action)) ==> Act(s, p, action).history == s.history && Act(s, p, action).file != s.file
  {
  }

  lemma ChainEndsInFile(start: Content, history: seq<Commit>, a: Content, b: Content)
    requires Chain(start, history, a)
    ensures Chain(start, history, b) <==> a == b
  {
  }

  /** The chain goes on with every step except exactly the unguarded changes. */
  lemma StepKeepsChainIff(start: Content, s: State, e: Event)
    requires ChecksStand(s) && Chain(start, s.history, s.file)
    ensures Chain(start, Apply(s, e).history, Apply(s, e).file) <==> !Unguarded(s, e)
  {
    hide Act, Unguarded;
    match e
    case StaleLockRemoved => assert !Unguarded(s, e) by { RemovingIsGuarded(s); }
    case FileDamaged => ChainEndsInFile(start, s.history, s.file, Damaged); DamageIsUnguarded(s);
    case Step(p, action) =>
      HistoryChangesBy(s, p, action);
      var t := Act(s, p, action);
      ChainEndsInFile(start, s.history, s.file, t.file);
      if t.history != s.history {
        assert t.history[..|t.history| - 1] == s.history;
      }
  }

  lemma RemovingIsGuarded(s: State)
    ensures !Unguarded(s, StaleLockRemoved)
  {
  }

  lemma DamageIsUnguarded(s: State)
    ensures Unguarded(s, FileDamaged) <==> s.file != Damaged
  {
  }

  // ---------------------------------------------------------------- what callers are told

  /** A save that was written is in the history. */
  ghost predicate Recorded(s: State, job: Job) {
    exists i :: 0 <= i < |s.history| && s.history[i].expected == job.expected && s.history[i].document == job.document
  }

  ghost predicate Known(start: Content, s: State, document: Document) {
    start == Holds(document) || exists i :: 0 <= i < |s.history| && s.history[i].document == document
  }

  predicate HasWritten(pc: Pc) {
    || (pc.Leaving? && (pc.result == Written || pc.result == WrittenUnsynced))
    || (pc.Returning? && (pc.result == Written || pc.result == WrittenUnsynced))
  }

  ghost predicate AnswersTrue(start: Content, s: State) {
    && (forall p :: p in s.processes && HasWritten(s.processes[p].pc) ==> Recorded(s, s.processes[p].job))
    && (forall i :: 0 <= i < |s.answers| && s.answers[i].Success? && s.answers[i].committed ==> Recorded(s, s.answers[i].job))
    && (forall i :: 0 <= i < |s.answers| && s.answers[i].Success? ==> Known(start, s, s.answers[i].job.document))
  }

  ghost predicate Sound(start: Content, s: State) {
    && Locked(s) && ChecksStand(s) && Chain(start, s.history, s.file) && AnswersTrue(start, s)
    && s.file != Damaged && forall p :: p in s.processes ==> !s.processes[p].pc.Quarantining?
  }

  lemma FileIsKnown(start: Content, s: State)
    requires Chain(start, s.history, s.file)
    ensures s.file.Holds? ==> Known(start, s, s.file.document)
  {
    if s.history != [] {
      assert s.history[|s.history| - 1].document == s.file.document;
    }
  }

  lemma HistoryGrows(s: State, t: State, start: Content)
    requires s.history <= t.history
    ensures forall job :: Recorded(s, job) ==> Recorded(t, job)
    ensures forall d :: Known(start, s, d) ==> Known(start, t, d)
  {
    forall job | Recorded(s, job) ensures Recorded(t, job) {
      var i :| 0 <= i < |s.history| && s.history[i].expected == job.expected && s.history[i].document == job.document;
      assert t.history[i] == s.history[i];
    }
    forall d | Known(start, s, d) ensures Known(start, t, d) {
      if start != Holds(d) {
        var i :| 0 <= i < |s.history| && s.history[i].document == d;
        assert t.history[i] == s.history[i];
      }
    }
  }

  /** A process that has written either had before or is renaming now. */
  lemma WrittenBy(s: State, p: Pid, action: Action)
    ensures var t := Act(s, p, action);
            p in t.processes && HasWritten(t.processes[p].pc) ==>
              || (p in s.processes && HasWritten(s.processes[p].pc) && s.processes[p].job == t.processes[p].job)
              || (t.history != [] && t.history[|t.history| - 1].expected == t.processes[p].job.expected
                  && t.history[|t.history| - 1].document == t.processes[p].job.document)
    ensures s.history <= Act(s, p, action).history
  {
  }

  lemma AnsweredBy(s: State, p: Pid, action: Action)
    ensures var t := Act(s, p, action);
            || t.answers == s.answers
            || (p in s.processes && s.processes[p].pc.Returning?
                && t.answers == s.answers + [AnswerFor(s.file, s.processes[p].job, s.processes[p].pc.result)])
  {
  }

  lemma RecordedIsKnown(start: Content, s: State, job: Job)
    requires Recorded(s, job)
    ensures Known(start, s, job.document)
  {
  }

  lemma AnswersStayTrue(start: Content, s: State, p: Pid, action: Action)
    requires AnswersTrue(start, s) && Chain(start, s.history, s.file)
    ensures AnswersTrue(start, Act(s, p, action))
  {
    hide Act, Recorded, Known, HasWritten, Chain;
    var t := Act(s, p, action);
    WrittenBy(s, p, action);
    AnsweredBy(s, p, action);
    HistoryGrows(s, t, start);
    forall q | q in t.processes && HasWritten(t.processes[q].pc) ensures Recorded(t, t.processes[q].job) {
      if q == p {
        if !(p in s.processes && HasWritten(s.processes[p].pc) && s.processes[p].job == t.processes[p].job) {
          LastIsRecorded(t, t.processes[p].job);
        }
      } else {
        OthersKeepTheirPlace(s, p, action, q);
      }
    }
    if t.answers != s.answers {
      NewAnswerIsTrue(start, s, p);
    }
  }

  lemma LastIsRecorded(s: State, job: Job)
    requires s.history != [] && s.history[|s.history| - 1].expected == job.expected && s.history[|s.history| - 1].document == job.document
    ensures Recorded(s, job)
  {
  }

  lemma NewAnswerIsTrue(start: Content, s: State, p: Pid)
    requires AnswersTrue(start, s) && Chain(start, s.history, s.file) && p in s.processes && s.processes[p].pc.Returning?
    ensures var a := AnswerFor(s.file, s.processes[p].job, s.processes[p].pc.result);
            && (a.Success? && a.committed ==> Recorded(s, a.job))
            && (a.Success? ==> Known(start, s, a.job.document))
  {
    hide Recorded, Known, Chain;
    FileIsKnown(start, s);
    if s.processes[p].pc.result == Written {
      assert HasWritten(s.processes[p].pc);
      RecordedIsKnown(start, s, s.processes[p].job);
    }
  }

  lemma NobodyQuarantines(s: State, p: Pid, action: Action)
    requires s.file != Damaged && forall q :: q in s.processes ==> !s.processes[q].pc.Quarantining?
    ensures var t := Act(s, p, action);
            && t.file != Damaged && (p in t.processes ==> !t.processes[p].pc.Quarantining?)
            && !Unguarded(s, Step(p, action))
  {
  }

  lemma StepKeepsSound(start: Content, s: State, e: Event)
    requires Sound(start, s) && !e.FileDamaged?
    ensures Sound(start, Apply(s, e))
  {
    hide Locked, ChecksStand, Chain, AnswersTrue, Unguarded, Act, SomeoneChecked;
    StepKeepsLocked(s, e);
    StepKeepsChecksIff(s, e);
    StepKeepsChainIff(start, s, e);
    match e
    case StaleLockRemoved => RemovingIsGuarded(s); SameAnswers(start, s, RemoveStaleLock(s));
    case Step(p, action) =>
      NobodyQuarantines(s, p, action);
      AnswersStayTrue(start, s, p, action);
      var t := Act(s, p, action);
      forall q | q in t.processes ensures !t.processes[q].pc.Quarantining? {
        if q != p { OthersKeepTheirPlace(s, p, action, q); }
      }
  }

  lemma SameAnswers(start: Content, s: State, t: State)
    requires AnswersTrue(start, s) && t == s.(lock := t.lock)
    ensures AnswersTrue(start, t)
  {
    HistoryGrows(s, t, start);
  }

  predicate Undamaged(events: seq<Event>) {
    forall i :: 0 <= i < |events| ==> !events[i].FileDamaged?
  }

  lemma {:induction false} RunKeepsSound(start: Content, s: State, events: seq<Event>)
    requires Sound(start, s) && Undamaged(events)
    ensures Sound(start, After(s, events))
    decreases |events|
  {
    hide Sound, Apply;
    if events != [] {
      StepKeepsSound(start, s, events[0]);
      RunKeepsSound(start, Apply(s, events[0]), events[1..]);
    }
  }

  /** No lost updates: as long as nothing damages the file, under every interleaving and crash the commits form a
      chain in which each replaced the revision it expected, a save told it was committed is in that chain, and one
      told it succeeded at least finds its document there. */
  lemma NoLostUpdates(start: Content, events: seq<Event>)
    requires start != Damaged && Undamaged(events)
    ensures var s := After(FreshStore(start), events);
            && Chain(start, s.history, s.file)
            && (forall i :: 0 <= i < |s.history| ==> s.history[i].expected == s.history[i].replaced)
            && AnswersTrue(start, s)
  {
    hide Apply;
    assert Locked(FreshStore(start));
    RunKeepsSound(start, FreshStore(start), events);
    var s := After(FreshStore(start), events);
    ChainMatches(start, s.history, s.file);
  }

  lemma {:induction false} ChainMatches(start: Content, history: seq<Commit>, file: Content)
    requires Chain(start, history, file)
    ensures forall i :: 0 <= i < |history| ==> history[i].expected == history[i].replaced
    ensures forall i :: 0 < i < |history| ==> history[i].replaced == Holds(history[i - 1].document)
    ensures history != [] ==> history[0].replaced == start && file == Holds(history[|history| - 1].document)
    decreases |history|
  {
    if history != [] {
      var n := |history| - 1;
      ChainMatches(start, history[..n], history[n].replaced);
    }
  }

  // ---------------------------------------------------------------- success without a commit

  /** A save turned away by a conflict or a busy lock succeeds all the same exactly when the file holds its
      document by then; it commits nothing, whatever revision it expected. */
  lemma TurnedAwaySucceedsIff(s: State, p: Pid)
    requires p in s.processes && s.processes[p].pc.Returning? && s.processes[p].pc.result in {Conflict, Busy}
    ensures var t := Return(s, p);
            && t.history == s.history && t.file == s.file && |t.answers| == |s.answers| + 1
            && (t.answers[|s.answers|].Success? <==> s.file == Holds(s.processes[p].job.document))
  {
  }

  /** So, in any run without damage and under every interleaving, whether a save that was turned away is told success
      depends on the last commit alone: it is if and only if that commit, by whichever process, wrote its document, or
      nothing was ever committed and the file held it from the start. */
  lemma TurnedAwayAnswerIsLastCommit(start: Content, events: seq<Event>, p: Pid)
    requires start != Damaged && Undamaged(events)
    requires var s := After(FreshStore(start), events);
             p in s.processes && s.processes[p].pc.Returning? && s.processes[p].pc.result in {Conflict, Busy}
    ensures var s := After(FreshStore(start), events);
            var t, document := Return(s, p), s.processes[p].job.document;
            && t.history == s.history && |t.answers| == |s.answers| + 1
            && (t.answers[|s.answers|].Success? <==>
                  if s.history == [] then start == Holds(document) else s.history[|s.history| - 1].document == document)
  {
    hide Apply, Return, After;
    NoLostUpdates(start, events);
    TurnedAwaySucceedsIff(After(FreshStore(start), events), p);
  }

  // ---------------------------------------------------------------- one save, and a lost one

  function SaveSteps(p: Pid, job: Job): seq<Event> {
    [Step(p, Begin(job)), Step(p, DoLink), Step(p, DoOpen(true)), Step(p, DoCompare), Step(p, DoCompare),
     Step(p, DoRename(true)), Step(p, DoUnlock(true)), Step(p, DoReturn)]
  }

  lemma {:induction false} AfterAppend(s: State, a: seq<Event>, b: seq<Event>)
    ensures After(s, a + b) == After(After(s, a), b)
    decreases |a|
  {
    hide Apply;
    if a == [] {
      assert a + b == b;
    } else {
      assert (a + b)[1..] == a[1..] + b;
      AfterAppend(Apply(s, a[0]), a[1..], b);
    }
  }

  lemma AfterOne(s: State, e: Event)
    ensures After(s, [e]) == Apply(s, e)
  {
    hide Apply;
    assert [e][1..] == [];
    assert After(Apply(s, e), []) == Apply(s, e);
  }

  lemma AfterFour(s: State, a: Event, b: Event, c: Event, d: Event)
    ensures After(s, [a, b, c, d]) == Apply(Apply(Apply(Apply(s, a), b), c), d)
  {
    hide Apply, After;
    assert [a, b, c, d] == [a] + ([b] + ([c] + [d]));
    AfterAppend(s, [a], [b] + ([c] + [d]));
    AfterAppend(Apply(s, a), [b], [c] + [d]);
    AfterAppend(Apply(Apply(s, a), b), [c], [d]);
    AfterOne(s, a);
    AfterOne(Apply(s, a), b);
    AfterOne(Apply(Apply(s, a), b), c);
    AfterOne(Apply(Apply(Apply(s, a), b), c), d);
  }

  lemma TakeLock(s: State, p: Pid, job: Job)
    requires At(s, p).pc.Idle? && s.lock.None? && s.file == job.expected && s.file != Damaged
    ensures var t := Apply(Apply(Apply(Apply(s, Step(p, Begin(job))), Step(p, DoLink)), Step(p, DoOpen(true))), Step(p, DoCompare));
            t == s.(lock := Some(s.tokens), tokens := s.tokens + 1,
                    processes := s.processes[p := Process(Preparing(s.tokens), job, At(s, p).orphan)])
  {
  }

  lemma FinishSave(s: State, p: Pid, token: Token, job: Job)
    requires p in s.processes && s.processes[p].pc == Preparing(token) && s.processes[p].job == job
    requires s.lock == Some(token) && s.file == job.expected && s.file != Damaged
    ensures var t := Apply(Apply(Apply(Apply(s, Step(p, DoCompare)), Step(p, DoRename(true))), Step(p, DoUnlock(true))), Step(p, DoReturn));
            t == s.(lock := None, file := Holds(job.document), history := s.history + [Commit(job.expected, job.expected, job.document)],
                    answers := s.answers + [Success(job, true)], processes := s.processes[p := Process(Idle, job, None)])
  {
  }

  /** A save nobody contends with commits when the file is at the revision it expects. */
  lemma UncontendedSaveCommits(s: State, p: Pid, job: Job)
    requires At(s, p).pc.Idle? && s.lock.None? && s.file == job.expected && s.file != Damaged
    ensures After(s, SaveSteps(p, job))
            == s.(file := Holds(job.document), history := s.history + [Commit(job.expected, job.expected, job.document)],
                  answers := s.answers + [Success(job, true)], tokens := s.tokens + 1,
                  processes := s.processes[p := Process(Idle, job, None)])
  {
    hide Apply, After;
    var steps := SaveSteps(p, job);
    assert steps == steps[..4] + steps[4..];
    assert steps[..4] == [steps[0], steps[1], steps[2], steps[3]];
    assert steps[4..] == [steps[4], steps[5], steps[6], steps[7]];
    AfterAppend(s, steps[..4], steps[4..]);
    AfterFour(s, steps[0], steps[1], steps[2], steps[3]);
    TakeLock(s, p, job);
    var t := After(s, steps[..4]);
    AfterFour(t, steps[4], steps[5], steps[6], steps[7]);
    FinishSave(t, p, s.tokens, job);
    assert s.processes[p := Process(Preparing(s.tokens), job, At(s, p).orphan)][p := Process(Idle, job, None)]
        == s.processes[p := Process(Idle, job, None)];
  }

  /** Moving a damaged file away happens outside the lock, so a slow load can throw away another process's
      commit: the first save is told it committed, yet the second one's commit does not replace it. */
  lemma SlowLoadLosesACommit(first: Document, second: Document)
    ensures exists events :: var s := After(FreshStore(Damaged), events);
              && s.history == [Commit(Absent, Absent, first), Commit(Absent, Absent, second)]
              && s.answers == [Success(Job(Absent, first), true), Success(Job(Absent, second), true)]
              && s.file == Holds(second)
  {
    hide Apply, After, SaveSteps;
    var s0 := FreshStore(Damaged);
    var loads := [Step(0, DoLoad), Step(1, DoLoad), Step(1, DoQuarantine), Step(2, DoLoad)];
    AfterFour(s0, loads[0], loads[1], loads[2], loads[3]);
    BothLoad();
    var s1 := After(s0, loads);
    UncontendedSaveCommits(s1, 1, Job(Absent, first));
    var s2 := After(s1, SaveSteps(1, Job(Absent, first)));
    AfterOne(s2, Step(0, DoQuarantine));
    LateQuarantine(s2, 0);
    var s3 := After(s2, [Step(0, DoQuarantine)]);
    UncontendedSaveCommits(s3, 0, Job(Absent, second));
    var saves := SaveSteps(1, Job(Absent, first)) + ([Step(0, DoQuarantine)] + SaveSteps(0, Job(Absent, second)));
    AfterAppend(s2, [Step(0, DoQuarantine)], SaveSteps(0, Job(Absent, second)));
    AfterAppend(s1, SaveSteps(1, Job(Absent, first)), [Step(0, DoQuarantine)] + SaveSteps(0, Job(Absent, second)));
    AfterAppend(s0, loads, saves);
    assert After(s0, loads + saves) == After(s3, SaveSteps(0, Job(Absent, second)));
  }

  lemma BothLoad()
    ensures var t := Apply(Apply(Apply(Apply(FreshStore(Damaged), Step(0, DoLoad)), Step(1, DoLoad)), Step(1, DoQuarantine)), Step(2, DoLoad));
            && t.file == Absent && t.lock.None? && t.history == [] && t.answers == []
            && At(t, 0).pc.Quarantining? && At(t, 1).pc.Idle? && 0 in t.processes
  {
  }

  lemma LateQuarantine(s: State, p: Pid)
    requires p in s.processes && s.processes[p].pc.Quarantining?
    ensures var t := Apply(s, Step(p, DoQuarantine));
            t == s.(file := Absent, processes := t.processes) && At(t, p).pc.Idle?
  {
  }
}
