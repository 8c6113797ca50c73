/** Writers of one observation file in many processes: the link-based lock, the revision check, and crashes. */
module ObservationFile {
  import opened Geometry

  type Pid = nat
  type Token = nat
  type Document = string

  /** What the file holds. A revision is a digest of the content, so equal revisions are equal contents. */
  datatype Content = Absent | Holds(document: Document) | Damaged

  /** A save: the revision its caller expects to replace, and the document to put there. */
  datatype Job = Job(expected: Content, document: Document)

  /** How a save's locked part ended; `WrittenUnsynced` and `IoFailed` are input/output errors after and before the
      rename, `Unreadable` is a file that does not decode. */
  datatype Result = Written | WrittenUnsynced | Conflict | Busy | Unreadable | IoFailed

  /** A process between two file system calls. */
  datatype Pc =
    | Idle
    | Owning(token: Token)                       // owner file written, about to link it as the lock
    | Linked(token: Token)                       // link made, about to open and identify it
    | Backing(token: Token)                      // opening failed: about to take the link back
    | Blocked                                    // the lock exists: about to read its owner
    | Reclaiming(token: Token)                   // the lock is one this process failed to remove earlier
    | Holding(token: Token)
    | Preparing(token: Token)                    // first check passed, temporary file written
    | Checked(token: Token)                      // second check passed, about to rename
    | Leaving(token: Token, result: Result)      // about to remove the lock
    | Returning(result: Result)
    | Quarantining                               // a load saw a damaged file and is about to move it away
    | Crashed

  datatype Process = Process(pc: Pc, job: Job, orphan: Option<Token>)

  datatype Commit = Commit(expected: Content, replaced: Content, document: Document)

  /** What a caller of save was told. */
  datatype Answer = Success(job: Job, committed: bool) | Uncertain(job: Job) | Refusal(job: Job, result: Result)

  datatype State = State(file: Content, lock: Option<Token>, processes: map<Pid, Process>, tokens: nat,
                         history: seq<Commit>, answers: seq<Answer>)

  const NEWCOMER := Process(Idle, Job(Absent, ""), None)

  function At(s: State, p: Pid): Process {
    if p in s.processes then s.processes[p] else NEWCOMER
  }

  function Go(s: State, p: Pid, pc: Pc): State {
    s.(processes := s.processes[p := At(s, p).(pc := pc)])
  }

  // ---------------------------------------------------------------- taking the lock

  /** Write an owner file under a token nobody else has. */
  function CreateOwner(s: State, p: Pid): State {
    Go(s, p, Owning(s.tokens)).(tokens := s.tokens + 1)
  }

  function BeginSave(s: State, p: Pid, job: Job): State {
    if !At(s, p).pc.Idle? then s
    else CreateOwner(s.(processes := s.processes[p := At(s, p).(job := job)]), p)
  }

  /** Linking fails when the lock exists. */
  function Link(s: State, p: Pid): State {
    match At(s, p).pc
    case Owning(token) => if s.lock.None? then Go(s, p, Linked(token)).(lock := Some(token)) else Go(s, p, Blocked)
    case _ => s
  }

  function Open(s: State, p: Pid, ok: bool): State {
    match At(s, p).pc
    case Linked(token) => Go(s, p, if ok then Holding(token) else Backing(token))
    case _ => s
  }

  /** Take the link back if it is still the own one. */
  function BackOut(s: State, p: Pid, ok: bool): State {
    match At(s, p).pc
    case Backing(token) => Go(s, p, Returning(IoFailed)).(lock := if ok && s.lock == Some(token) then None else s.lock)
    case _ => s
  }

  /** Whose lock is it? A vanished one is tried again, an orphan of this process is reclaimed. */
  function ReadOwner(s: State, p: Pid): State {
    if !At(s, p).pc.Blocked? then s
    else if s.lock.None? then CreateOwner(s, p)
    else if At(s, p).orphan == s.lock then Go(s, p, Reclaiming(s.lock.value))
    else Go(s, p, Returning(Busy))
  }

  function Reclaim(s: State, p: Pid, ok: bool): State {
    match At(s, p).pc
    case Reclaiming(token) =>
      if ok then CreateOwner(s.(lock := None, processes := s.processes[p := At(s, p).(orphan := None)]), p)
      else Go(s, p, Returning(Busy))
    case _ => s
  }

  // ---------------------------------------------------------------- under the lock

  /** Compare the revision with the expected one. */
  function Compare(s: State, p: Pid): State {
    var expected := At(s, p).job.expected;
    match At(s, p).pc
    case Holding(token) =>
      Go(s, p, if s.file == Damaged then Leaving(token, Unreadable)
               else if s.file == expected then Preparing(token) else Leaving(token, Conflict))
    case Preparing(token) =>
      Go(s, p, if s.file == Damaged then Leaving(token, Unreadable)
               else if s.file == expected then Checked(token) else Leaving(token, Conflict))
    case _ => s
  }

  /** Writing the temporary file, or an identity check of the directory, may fail at any point. */
  function GiveUp(s: State, p: Pid): State {
    match At(s, p).pc
    case Holding(token) => Go(s, p, Leaving(token, IoFailed))
    case Preparing(token) => Go(s, p, Leaving(token, IoFailed))
    case Checked(token) => Go(s, p, Leaving(token, IoFailed))
    case _ => s
  }

  function Rename(s: State, p: Pid, synced: bool): State {
    match At(s, p).pc
    case Checked(token) =>
      var job := At(s, p).job;
      Go(s, p, Leaving(token, if synced then Written else WrittenUnsynced))
        .(file := Holds(job.document), history := s.history + [Commit(job.expected, s.file, job.document)])
    case _ => s
  }

  /** Remove the lock if it is still the own one; a refused removal is remembered as an orphan. */
  function Unlock(s: State, p: Pid, ok: bool): State {
    match At(s, p).pc
    case Leaving(token, result) =>
      if s.lock != Some(token) then
        s.(processes := s.processes[p := At(s, p).(pc := Returning(result), orphan := if s.lock.None? then At(s, p).orphan else None)])
      else if ok then s.(lock := None, processes := s.processes[p := At(s, p).(pc := Returning(result), orphan := None)])
      else s.(processes := s.processes[p := At(s, p).(pc := Returning(result), orphan := Some(token))])
    case _ => s
  }

  /** A save that failed looks once more, without the lock, whether its document is there after all. */
  function AnswerFor(file: Content, job: Job, result: Result): Answer {
    if result == Written then Success(job, true)
    else if file != Holds(job.document) then Refusal(job, result)
    else if result == WrittenUnsynced || result == IoFailed then Uncertain(job)
    else Success(job, false)
  }

  function Return(s: State, p: Pid): State {
    match At(s, p).pc
    case Returning(result) => Go(s, p, Idle).(answers := s.answers + [AnswerFor(s.file, At(s, p).job, result)])
    case _ => s
  }

  // ---------------------------------------------------------------- outside the lock

  /** A load that finds a damaged file moves it away, and does so without the lock. */
  function Load(s: State, p: Pid): State {
    if At(s, p).pc.Idle? && s.file == Damaged then Go(s, p, Quarantining) else s
  }

  function Quarantine(s: State, p: Pid): State {
    if At(s, p).pc.Quarantining? then Go(s, p, Idle).(file := Absent) else s
  }

  /** A crash forgets the process's memory; its lock, if any, stays. */
  function Crash(s: State, p: Pid): State {
    s.(processes := s.processes[p := At(s, p).(pc := Crashed, orphan := None)])
  }

  /** An operator removes a lock whose owner is gone. */
  function RemoveStaleLock(s: State): State {
    if s.lock.Some? && forall p :: p in s.processes ==> !Has(s.processes[p], s.lock.value) then s.(lock := None) else s
  }

  datatype Action =
    | Begin(job: Job) | DoLink | DoOpen(ok: bool) | DoBackOut(ok: bool) | DoReadOwner | DoReclaim(ok: bool)
    | DoCompare | DoGiveUp | DoRename(synced: bool) | DoUnlock(ok: bool) | DoReturn
    | DoLoad | DoQuarantine | DoCrash

  datatype Event = Step(pid: Pid, action: Action) | StaleLockRemoved | FileDamaged

  function Act(s: State, p: Pid, action: Action): State {
    match action
    case Begin(job) => BeginSave(s, p, job)
    case DoLink => Link(s, p)
    case DoOpen(ok) => Open(s, p, ok)
    case DoBackOut(ok) => BackOut(s, p, ok)
    case DoReadOwner => ReadOwner(s, p)
    case DoReclaim(ok) => Reclaim(s, p, ok)
    case DoCompare => Compare(s, p)
    case DoGiveUp => GiveUp(s, p)
    case DoRename(synced) => Rename(s, p, synced)
    case DoUnlock(ok) => Unlock(s, p, ok)
    case DoReturn => Return(s, p)
    case DoLoad => Load(s, p)
    case DoQuarantine => Quarantine(s, p)
    case DoCrash => Crash(s, p)
  }

  function Apply(s: State, e: Event): State {
    match e
    case Step(p, action) => Act(s, p, action)
    case StaleLockRemoved => RemoveStaleLock(s)
    case FileDamaged => s.(file := Damaged)
  }

  function After(s: State, events: seq<Event>): State
    decreases |events|
  {
    if events == [] then s else After(Apply(s, events[0]), events[1..])
  }

  function FreshStore(file: Content): State { State(file, None, map[], 0, [], []) }

  // ---------------------------------------------------------------- mutual exclusion

  function TokenOf(pc: Pc): Option<Token> {
    match pc
    case Owning(t) => Some(t)
    case Linked(t) => Some(t)
    case Backing(t) => Some(t)
    case Reclaiming(t) => Some(t)
    case Holding(t) => Some(t)
    case Preparing(t) => Some(t)
    case Checked(t) => Some(t)
    case Leaving(t, _) => Some(t)
    case _ => None
  }

  /** The process acts on the belief that the lock carries its token. */
  predicate Claims(pc: Pc) {
    TokenOf(pc).Some? && !pc.Owning?
  }

  /** Inside the critical section: between identifying the lock and removing it. */
  predicate Critical(pc: Pc) {
    pc.Holding? || pc.Preparing? || pc.Checked? || pc.Leaving?
  }

  predicate Has(process: Process, token: Token) {
    TokenOf(process.pc) == Some(token) || process.orphan == Some(token)
  }

  /** A process that claims the lock owns it. */
  ghost predicate ClaimsHold(s: State) {
    forall p :: p in s.processes && Claims(s.processes[p].pc) ==> s.lock == TokenOf(s.processes[p].pc)
  }

  /** No token is shared, and none is older than its making. */
  ghost predicate TokensApart(s: State) {
    && (forall p, q, t :: p in s.processes && q in s.processes && p != q && Has(s.processes[p], t) ==> !Has(s.processes[q], t))
    && (forall p, t: nat :: p in s.processes && Has(s.processes[p], t) ==> t < s.tokens)
    && (s.lock.Some? ==> s.lock.value < s.tokens)
  }

  ghost predicate Locked(s: State) {
    ClaimsHold(s) && TokensApart(s)
  }

  /** Nobody but `p` claims the lock. */
  ghost predicate OthersStandBack(s: State, p: Pid) {
    forall q :: q in s.processes && q != p ==> !Claims(s.processes[q].pc)
  }

  /** One process moves: its tokens are old ones of its own or brand-new, and the lock changes only under a process
      nobody else contradicts. */
  lemma MoveKeepsLocked(s: State, t: State, p: Pid)
    requires Locked(s)
    requires p in t.processes && t.processes == s.processes[p := t.processes[p]] && t.tokens >= s.tokens
    requires forall k: nat :: Has(t.processes[p], k) ==> Has(At(s, p), k) || s.tokens <= k < t.tokens
    requires Claims(t.processes[p].pc) ==> t.lock == TokenOf(t.processes[p].pc)
    requires t.lock == s.lock || OthersStandBack(s, p)
    requires t.lock.Some? ==> t.lock.value < t.tokens
    ensures Locked(t)
  {
    hide Claims, Has, TokenOf, At, Locked;
    LockedParts(s);
    forall q | q in t.processes && q != p ensures q in s.processes && t.processes[q] == s.processes[q] {}
    forall q, k: nat | q in t.processes && q != p && Has(t.processes[p], k) ensures !Has(t.processes[q], k) {
      OldTokenIsOwn(s, p, k);
    }
    forall k: nat | Has(t.processes[p], k) ensures k < t.tokens {
      OldTokenIsOwn(s, p, k);
    }
    assert TokensApart(t);
    forall q | q in t.processes && q != p && Claims(t.processes[q].pc) ensures t.lock == TokenOf(t.processes[q].pc) {
      assert s.lock == TokenOf(s.processes[q].pc);
    }
    LockedFromParts(t);
  }

  lemma OldTokenIsOwn(s: State, p: Pid, k: nat)
    requires TokensApart(s)
    ensures Has(At(s, p), k) ==> p in s.processes && At(s, p) == s.processes[p] && k < s.tokens
  {
  }

  lemma LockedFromParts(s: State)
    requires ClaimsHold(s) && TokensApart(s)
    ensures Locked(s)
  {
  }

  lemma UnlockedMeansUnclaimed(s: State, p: Pid)
    requires ClaimsHold(s) && s.lock.None?
    ensures OthersStandBack(s, p)
  {
  }

  lemma ClaimantHasLock(s: State, q: Pid)
    requires ClaimsHold(s) && q in s.processes && Claims(s.processes[q].pc)
    ensures s.lock.Some? && Has(s.processes[q], s.lock.value)
  {
  }

  lemma OwnLockMeansAlone(s: State, p: Pid)
    requires Locked(s) && p in s.processes && s.lock.Some? && Has(s.processes[p], s.lock.value)
    ensures OthersStandBack(s, p)
  {
    forall q | q in s.processes && q != p ensures !Claims(s.processes[q].pc) {
      if Claims(s.processes[q].pc) {
        ClaimantHasLock(s, q);
        assert false;
      }
    }
  }

  lemma ActKeepsLocked(s: State, p: Pid, action: Action)
    requires Locked(s)
    ensures Locked(Act(s, p, action))
  {
    hide Locked, ClaimsHold, TokensApart, OthersStandBack;
    LockedParts(s);
    var t := Act(s, p, action);
    if t != s {
      match action
      case Begin(job) => MoveKeepsLocked(s, t, p);
      case DoLink => LinkKeepsLocked(s, p);
      case DoOpen(ok) => MoveKeepsLocked(s, t, p) by { ClaimIsLock(s, p); }
      case DoBackOut(ok) => BackOutKeepsLocked(s, p, ok);
      case DoReadOwner => MoveKeepsLocked(s, t, p);
      case DoReclaim(ok) => ReclaimKeepsLocked(s, p, ok);
      case DoCompare => MoveKeepsLocked(s, t, p) by { ClaimIsLock(s, p); }
      case DoGiveUp => MoveKeepsLocked(s, t, p) by { ClaimIsLock(s, p); }
      case DoRename(synced) => MoveKeepsLocked(s, t, p) by { ClaimIsLock(s, p); }
      case DoUnlock(ok) => UnlockKeepsLocked(s, p, ok);
      case DoReturn => MoveKeepsLocked(s, t, p);
      case DoLoad => MoveKeepsLocked(s, t, p);
      case DoQuarantine => MoveKeepsLocked(s, t, p);
      case DoCrash => MoveKeepsLocked(s, t, p);
    }
  }

  lemma LockedParts(s: State)
    requires Locked(s)
    ensures ClaimsHold(s) && TokensApart(s)
    ensures s.lock.Some? ==> s.lock.value < s.tokens
  {
  }

  lemma ClaimIsLock(s: State, p: Pid)
    requires ClaimsHold(s)
    ensures Claims(At(s, p).pc) ==> p in s.processes && s.lock == TokenOf(At(s, p).pc)
  {
  }

  lemma LinkKeepsLocked(s: State, p: Pid)
    requires Locked(s)
    ensures Locked(Link(s, p))
  {
    hide Locked, ClaimsHold, TokensApart, OthersStandBack;
    LockedParts(s);
    var t := Link(s, p);
    if At(s, p).pc.Owning? {
      if s.lock.None? { UnlockedMeansUnclaimed(s, p); OwnTokenIsOld(s, p, At(s, p).pc.token); }
      MoveKeepsLocked(s, t, p);
    }
  }

  lemma OwnTokenIsOld(s: State, p: Pid, token: Token)
    requires TokensApart(s) && Has(At(s, p), token)
    ensures token < s.tokens
  {
  }

  lemma BackOutKeepsLocked(s: State, p: Pid, ok: bool)
    requires Locked(s)
    ensures Locked(BackOut(s, p, ok))
  {
    hide Locked, ClaimsHold, TokensApart, OthersStandBack;
    LockedParts(s);
    if At(s, p).pc.Backing? {
      ClaimIsLock(s, p);
      OwnLockMeansAlone(s, p);
      MoveKeepsLocked(s, BackOut(s, p, ok), p);
    }
  }

  lemma ReclaimKeepsLocked(s: State, p: Pid, ok: bool)
    requires Locked(s)
    ensures Locked(Reclaim(s, p, ok))
  {
    hide Locked, ClaimsHold, TokensApart, OthersStandBack;
    LockedParts(s);
    if At(s, p).pc.Reclaiming? {
      ClaimIsLock(s, p);
      OwnLockMeansAlone(s, p);
      MoveKeepsLocked(s, Reclaim(s, p, ok), p);
    }
  }

  lemma UnlockKeepsLocked(s: State, p: Pid, ok: bool)
    requires Locked(s)
    ensures Locked(Unlock(s, p, ok))
  {
    hide Locked, ClaimsHold, TokensApart, OthersStandBack;
    LockedParts(s);
    if At(s, p).pc.Leaving? {
      ClaimIsLock(s, p);
      OwnLockMeansAlone(s, p);
      MoveKeepsLocked(s, Unlock(s, p, ok), p);
    }
  }

  lemma StepKeepsLocked(s: State, e: Event)
    requires Locked(s)
    ensures Locked(Apply(s, e))
  {
    hide Act;
    match e
    case Step(p, action) => ActKeepsLocked(s, p, action);
    case StaleLockRemoved =>
    case FileDamaged =>
  }

  lemma {:induction false} RunKeepsLocked(s: State, events: seq<Event>)
    requires Locked(s)
    ensures Locked(After(s, events))
    decreases |events|
  {
    hide Locked, Apply;
    if events != [] {
      StepKeepsLocked(s, events[0]);
      RunKeepsLocked(Apply(s, events[0]), events[1..]);
    }
  }

  /** Under every interleaving, crash, failed removal, reclaim and operator clean-up, at most one process is in the
      critical section, and while one is, the lock is its own. */
  lemma MutualExclusion(file: Content, events: seq<Event>, p: Pid, q: Pid)
    requires var s := After(FreshStore(file), events);
             p in s.processes && q in s.processes && Critical(s.processes[p].pc) && Critical(s.processes[q].pc)
    ensures p == q
    ensures After(FreshStore(file), events).lock == TokenOf(After(FreshStore(file), events).processes[p].pc)
  {
    hide After;
    RunKeepsLocked(FreshStore(file), events);
    var s := After(FreshStore(file), events);
    LockedParts(s);
    ClaimIsLock(s, p);
    ClaimIsLock(s, q);
    OwnLockMeansAlone(s, p);
  }
}
