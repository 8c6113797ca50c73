/** The save as one process runs it, call by call over mutable shared files: always a run of the protocol. */
module ObservationDirectory {
  import opened Geometry
  import opened ObservationFile
  import opened ObservationCommits

  /** Which file system calls succeed, and whether the file is damaged from outside between the two checks. */
  datatype Luck = Luck(open: bool, backOut: bool, reclaim: bool, write: bool, damage: bool, sync: bool, unlock: bool)

  lemma AfterNext(s: State, events: seq<Event>, e: Event)
    ensures After(s, events + [e]) == Apply(After(s, events), e)
  {
    AfterAppend(s, events, [e]);
    AfterOne(After(s, events), e);
  }

  class Directory {
    const before: Content
    var file: Content
    var lock: Option<Token>
    var tokens: nat
    var orphans: map<Pid, Token>
    ghost var processes: map<Pid, Process>
    ghost var history: seq<Commit>
    ghost var answers: seq<Answer>
    ghost var trace: seq<Event>

    ghost function Now(): State
      reads this
    {
      State(file, lock, processes, tokens, history, answers)
    }

    ghost function Here(p: Pid): Process
      reads this
    {
      At(Now(), p)
    }

    /** The files are as some run of the protocol leaves them, and the table of orphaned locks is what the
        processes remember. */
    ghost predicate Valid()
      reads this
    {
      && Now() == After(FreshStore(before), trace)
      && forall p :: (p in orphans <==> Here(p).orphan.Some?) && (p in orphans ==> Here(p).orphan == Some(orphans[p]))
    }

    constructor (file: Content)
      ensures Valid() && this.file == file && before == file
    {
      before := file;
      this.file, lock, tokens, orphans := file, None, 0, map[];
      processes, history, answers, trace := map[], [], [], [];
    }

    ghost method Note(p: Pid, pc: Pc, action: Action)
      modifies `processes, `trace
      ensures processes == old(processes)[p := old(Here(p)).(pc := pc)] && trace == old(trace) + [Step(p, action)]
    {
      AfterNext(FreshStore(before), trace, Step(p, action));
      processes := processes[p := Here(p).(pc := pc)];
      trace := trace + [Step(p, action)];
    }

    method WriteOwner(p: Pid, job: Job) returns (token: Token)
      requires Valid() && Here(p).pc.Idle?
      modifies `tokens, `processes, `trace
      ensures Valid() && Now() == Apply(old(Now()), Step(p, Begin(job))) && old(trace) <= trace
      ensures Here(p).pc == Owning(token) && Here(p).job == job
    {
      hide After;
      AfterNext(FreshStore(before), trace, Step(p, Begin(job)));
      token := tokens;
      tokens := tokens + 1;
      processes := processes[p := Here(p).(pc := Owning(token), job := job)];
      trace := trace + [Step(p, Begin(job))];
    }

    method LinkOwner(p: Pid, token: Token) returns (linked: bool)
      requires Valid() && Here(p).pc == Owning(token)
      modifies `lock, `processes, `trace
      ensures Valid() && Now() == Apply(old(Now()), Step(p, DoLink)) && old(trace) <= trace
      ensures linked <==> old(lock).None?
      ensures Here(p) == old(Here(p)).(pc := if linked then Linked(token) else Blocked)
      ensures lock == if linked then Some(token) else old(lock)
    {
      hide After;
      AfterNext(FreshStore(before), trace, Step(p, DoLink));
      linked := lock.None?;
      if linked {
        lock := Some(token);
      }
      Note(p, if linked then Linked(token) else Blocked, DoLink);
    }

    /** Open and identify the lock, or take the link back and fail. */
    method Identify(p: Pid, token: Token, luck: Luck) returns (held: bool)
      requires Valid() && Here(p).pc == Linked(token) && lock == Some(token)
      modifies `lock, `processes, `trace
      ensures Valid() && old(trace) <= trace && history == old(history) && answers == old(answers)
      ensures held <==> luck.open
      ensures Here(p) == old(Here(p)).(pc := if held then Holding(token) else Returning(IoFailed))
      ensures held ==> lock == Some(token)
    {
      hide After;
      AfterNext(FreshStore(before), trace, Step(p, DoOpen(luck.open)));
      Note(p, if luck.open then Holding(token) else Backing(token), DoOpen(luck.open));
      if luck.open {
        return true;
      }
      AfterNext(FreshStore(before), trace, Step(p, DoBackOut(luck.backOut)));
      if luck.backOut {
        lock := None;
      }
      Note(p, Returning(IoFailed), DoBackOut(luck.backOut));
      return false;
    }

    /** The lock exists: remove it when it is an orphan of this process, otherwise the save is turned away. */
    method ClearOrphan(p: Pid, luck: Luck) returns (token: Option<Token>)
      requires Valid() && Here(p).pc.Blocked? && lock.Some?
      modifies `lock, `tokens, `orphans, `processes, `trace
      ensures Valid() && old(trace) <= trace && history == old(history) && answers == old(answers)
      ensures Here(p).job == old(Here(p)).job
      ensures token.Some? ==> Here(p).pc == Owning(token.value) && lock.None?
      ensures token.None? ==> Here(p).pc == Returning(Busy)
    {
      hide After;
      AfterNext(FreshStore(before), trace, Step(p, DoReadOwner));
      if p !in orphans || orphans[p] != lock.value {
        Note(p, Returning(Busy), DoReadOwner);
        return None;
      }
      Note(p, Reclaiming(lock.value), DoReadOwner);
      token := RemoveOrphan(p, luck);
    }

    method RemoveOrphan(p: Pid, luck: Luck) returns (token: Option<Token>)
      requires Valid() && lock.Some? && Here(p).pc == Reclaiming(lock.value)
      modifies `lock, `tokens, `orphans, `processes, `trace
      ensures Valid() && old(trace) <= trace && history == old(history) && answers == old(answers)
      ensures Here(p).job == old(Here(p)).job
      ensures token.Some? ==> Here(p).pc == Owning(token.value) && lock.None?
      ensures token.None? ==> Here(p).pc == Returning(Busy)
    {
      hide After;
      AfterNext(FreshStore(before), trace, Step(p, DoReclaim(luck.reclaim)));
      if !luck.reclaim {
        Note(p, Returning(Busy), DoReclaim(false));
        return None;
      }
      lock := None;
      orphans := orphans - {p};
      token := Some(tokens);
      tokens := tokens + 1;
      processes := processes[p := Here(p).(pc := Owning(token.value), orphan := None)];
      trace := trace + [Step(p, DoReclaim(true))];
    }

    method Acquire(p: Pid, job: Job, luck: Luck) returns (token: Option<Token>, refusal: Result)
      requires Valid() && Here(p).pc.Idle?
      modifies `lock, `tokens, `orphans, `processes, `trace
      ensures Valid() && old(trace) <= trace && history == old(history) && answers == old(answers)
      ensures Here(p).job == job
      ensures token.Some? ==> Here(p).pc == Holding(token.value) && lock == token
      ensures token.None? ==> Here(p).pc == Returning(refusal) && (refusal == Busy || refusal == IoFailed)
    {
      hide Apply, After;
      var own := WriteOwner(p, job);
      ghost var noted := trace;
      var linked := LinkOwner(p, own);
      if !linked {
        var again := ClearOrphan(p, luck);
        if again.None? {
          return None, Busy;
        }
        own := again.value;
        linked := LinkOwner(p, own);
      }
      var held := Identify(p, own, luck);
      return if held then Some(own) else None, IoFailed;
    }

    /** One comparison of the revision under the lock. */
    method Check(p: Pid, token: Token, job: Job, second: bool) returns (result: Option<Result>)
      requires Valid() && Here(p).pc == (if second then Preparing(token) else Holding(token)) && Here(p).job == job
      modifies `processes, `trace
      ensures Valid() && old(trace) <= trace
      ensures result.None? ==> file == job.expected && file != Damaged
      ensures Here(p) == old(Here(p)).(pc := if result.Some? then Leaving(token, result.value)
                                             else if second then Checked(token) else Preparing(token))
      ensures result.Some? ==> result == Some(if file == Damaged then Unreadable else Conflict)
      ensures result == Some(Conflict) ==> file != job.expected
    {
      hide After;
      AfterNext(FreshStore(before), trace, Step(p, DoCompare));
      result := if file == Damaged then Some(Unreadable) else if file == job.expected then None else Some(Conflict);
      Note(p, if result.Some? then Leaving(token, result.value) else if second then Checked(token) else Preparing(token), DoCompare);
    }

    method Abort(p: Pid, token: Token)
      requires Valid() && (Here(p).pc == Preparing(token) || Here(p).pc == Checked(token))
      modifies `processes, `trace
      ensures Valid() && old(trace) <= trace && Here(p) == old(Here(p)).(pc := Leaving(token, IoFailed))
    {
      hide After;
      AfterNext(FreshStore(before), trace, Step(p, DoGiveUp));
      Note(p, Leaving(token, IoFailed), DoGiveUp);
    }

    method Replace(p: Pid, token: Token, job: Job, synced: bool)
      requires Valid() && Here(p).pc == Checked(token) && Here(p).job == job
      modifies `file, `history, `processes, `trace
      ensures Valid() && old(trace) <= trace && file == Holds(job.document)
      ensures history == old(history) + [Commit(job.expected, old(file), job.document)]
      ensures Here(p) == old(Here(p)).(pc := Leaving(token, if synced then Written else WrittenUnsynced))
    {
      hide After;
      AfterNext(FreshStore(before), trace, Step(p, DoRename(synced)));
      history := history + [Commit(job.expected, file, job.document)];
      file := Holds(job.document);
      Note(p, Leaving(token, if synced then Written else WrittenUnsynced), DoRename(synced));
    }

    /** Something outside the protocol ruins the file. */
    method SufferDamage()
      requires Valid()
      modifies `file, `trace
      ensures Valid() && old(trace) <= trace && file == Damaged
    {
      hide After;
      AfterNext(FreshStore(before), trace, FileDamaged);
      file := Damaged;
      trace := trace + [FileDamaged];
    }

    /** Both checks, the temporary file and the rename. */
    method WriteAtomically(p: Pid, token: Token, job: Job, luck: Luck) returns (result: Result)
      requires Valid() && Here(p).pc == Holding(token) && Here(p).job == job
      modifies `file, `history, `processes, `trace
      ensures Valid() && old(trace) <= trace
      ensures Here(p) == old(Here(p)).(pc := Leaving(token, result))
      ensures result == Written || result == WrittenUnsynced ==>
                old(file) == job.expected && file == Holds(job.document)
                && history == old(history) + [Commit(job.expected, job.expected, job.document)]
      ensures result != Written && result != WrittenUnsynced ==> history == old(history)
      ensures file == old(file) || result == Written || result == WrittenUnsynced || (luck.damage && file == Damaged)
      ensures result == Conflict ==> old(file) != job.expected
    {
      hide After;
      var first := Check(p, token, job, false);
      if first.Some? {
        return first.value;
      }
      if !luck.write {
        Abort(p, token);
        return IoFailed;
      }
      if luck.damage {
        SufferDamage();
      }
      var second := Check(p, token, job, true);
      if second.Some? {
        return second.value;
      }
      Replace(p, token, job, luck.sync);
      return if luck.sync then Written else WrittenUnsynced;
    }

    /** Remove the own lock; a refused removal goes into the table of orphans. */
    method Release(p: Pid, token: Token, result: Result, luck: Luck)
      requires Valid() && Here(p).pc == Leaving(token, result) && lock == Some(token)
      modifies `lock, `orphans, `processes, `trace
      ensures Valid() && old(trace) <= trace
      ensures Here(p).pc == Returning(result) && Here(p).job == old(Here(p)).job
      ensures luck.unlock ==> lock.None?
      ensures !luck.unlock ==> lock == old(lock) && p in orphans && orphans[p] == token
    {
      hide After;
      AfterNext(FreshStore(before), trace, Step(p, DoUnlock(luck.unlock)));
      if luck.unlock {
        lock := None;
        orphans := orphans - {p};
      } else {
        orphans := orphans[p := token];
      }
      processes := processes[p := Here(p).(pc := Returning(result), orphan := if luck.unlock then None else Some(token))];
      trace := trace + [Step(p, DoUnlock(luck.unlock))];
    }

    method Tell(p: Pid, job: Job, result: Result) returns (answer: Answer)
      requires Valid() && Here(p).pc == Returning(result) && Here(p).job == job
      modifies `answers, `processes, `trace
      ensures Valid() && old(trace) <= trace && Here(p) == old(Here(p)).(pc := Idle)
      ensures answer == AnswerFor(file, job, result) && answers == old(answers) + [answer]
    {
      hide After;
      AfterNext(FreshStore(before), trace, Step(p, DoReturn));
      answer := AnswerFor(file, job, result);
      answers := answers + [answer];
      Note(p, Idle, DoReturn);
    }

    /** A whole save. It commits exactly when it is told so or when only durability is in doubt, and then it
        replaced the revision it expected; every run of saves is a run of the interleaved protocol. */
    method Save(p: Pid, job: Job, luck: Luck) returns (answer: Answer)
      requires Valid() && Here(p).pc.Idle?
      modifies this
      ensures Valid() && old(trace) <= trace && Here(p).pc.Idle?
      ensures answers == old(answers) + [answer]
      ensures answer == Success(job, true) ==>
                old(file) == job.expected && file == Holds(job.document)
                && history == old(history) + [Commit(job.expected, job.expected, job.document)]
      ensures answer == Success(job, false) ==> file == old(file) == Holds(job.document) && history == old(history)
      ensures answer.Refusal? ==> history == old(history) && file != Holds(job.document)
      ensures answer.Refusal? ==> file == old(file) || (luck.damage && file == Damaged)
      ensures answer.Uncertain? ==> file == Holds(job.document)
    {
      hide After, Apply;
      var token, result := Acquire(p, job, luck);
      if token.Some? {
        result := WriteAtomically(p, token.value, job, luck);
        Release(p, token.value, result, luck);
      }
      answer := Tell(p, job, result);
    }
  }
}
