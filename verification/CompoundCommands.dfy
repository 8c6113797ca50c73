/** Compound commands: capture, draft, verified writes, one commit or one rollback, against any adapter. */
module CompoundCommands {
  import opened Geometry
  import opened Membership
  import opened Learning
  import opened MergeChanges

  const TOLERANCE := 1
  const SAVE_ATTEMPTS := 4

  // ---------------------------------------------------------------- what the platform and the store may answer

  datatype Observation = Observation(identity: string, process: int, normal: bool, frame: Frame)

  datatype Reading = Seen(window: Observation) | Missing | Unreadable | ReadInterrupted

  /** `settled` is false for a window still on its way. */
  datatype Writing = Wrote(observed: Frame, settled: bool) | Stale | Refused | WriteInterrupted

  /** What came of a focus request: an error, and what is in front now. */
  datatype Focusing = FocusAnswer(fault: Option<string>, focused: bool, frontmost: Option<int>, main: bool) | FocusInterrupted

  datatype Call =
    | Read(id: WindowId, reading: Reading)
    | Write(id: WindowId, frame: Frame, expected: Option<string>, writing: Writing)
    | Focus(id: WindowId, expected: Option<string>, focusing: Focusing)

  /** An adversary: it answers every call with the next entry of scripts nobody constrains. */
  class Adapter {
    var readings: seq<Reading>
    var writings: seq<Writing>
    var focusings: seq<Focusing>
    var evidence: seq<Option<Store>>
    var inventories: seq<Option<map<WindowId, Observation>>>
    ghost var log: seq<Call>

    constructor (readings: seq<Reading>, writings: seq<Writing>, focusings: seq<Focusing>, evidence: seq<Option<Store>>,
                 inventories: seq<Option<map<WindowId, Observation>>>)
      ensures log == []
    {
      this.readings, this.writings, this.focusings := readings, writings, focusings;
      this.evidence, this.inventories, log := evidence, inventories, [];
    }

    /** A fresh list of windows; None stands for an invalid one, or an invalid topology. */
    method Inventory() returns (windows: Option<map<WindowId, Observation>>)
      modifies this
      ensures log == old(log)
      ensures windows == if old(inventories) == [] then None else old(inventories)[0]
    {
      windows := None;
      if inventories != [] {
        windows, inventories := inventories[0], inventories[1..];
      }
    }

    method GetWindow(id: WindowId) returns (r: Reading)
      modifies this
      ensures log == old(log) + [Read(id, r)] && inventories == old(inventories)
    {
      r := Unreadable;
      if readings != [] {
        r, readings := readings[0], readings[1..];
      }
      log := log + [Read(id, r)];
    }

    method SetWindowFrame(id: WindowId, frame: Frame, expected: Option<string>) returns (r: Writing)
      modifies this
      ensures log == old(log) + [Write(id, frame, expected, r)] && evidence == old(evidence)
    {
      r := Refused;
      if writings != [] {
        r, writings := writings[0], writings[1..];
      }
      log := log + [Write(id, frame, expected, r)];
    }

    method FocusWindow(id: WindowId, expected: Option<string>) returns (r: Focusing)
      modifies this
      ensures log == old(log) + [Focus(id, expected, r)]
    {
      r := FocusInterrupted;
      if focusings != [] {
        r, focusings := focusings[0], focusings[1..];
      }
      log := log + [Focus(id, expected, r)];
    }

    /** The learning store a write's evidence leads to, when it teaches anything. */
    method Evidence() returns (learned: Option<Store>)
      modifies this
      ensures log == old(log)
      ensures learned == if old(evidence) == [] then None else old(evidence)[0]
    {
      learned := None;
      if evidence != [] {
        learned, evidence := evidence[0], evidence[1..];
      }
    }
  }

  datatype Saving = Saved(revision: string, document: Store) | SavedUndurably(revision: string, document: Store)
                  | Busy | Conflict | SaveFailed

  datatype StoreCall =
    | Offered(revision: string, document: Store, answer: Saving)
    | Fetched(snapshot: Option<(string, Store)>)

  /** The observation store, equally unconstrained. */
  class StoreFile {
    var savings: seq<Saving>
    var snapshots: seq<Option<(string, Store)>>
    ghost var log: seq<StoreCall>

    constructor (savings: seq<Saving>, snapshots: seq<Option<(string, Store)>>)
      ensures log == []
    {
      this.savings, this.snapshots, log := savings, snapshots, [];
    }

    method Save(revision: string, document: Store) returns (r: Saving)
      modifies this
      ensures log == old(log) + [Offered(revision, document, r)]
    {
      r := SaveFailed;
      if savings != [] {
        r, savings := savings[0], savings[1..];
      }
      log := log + [Offered(revision, document, r)];
    }

    method Load() returns (r: Option<(string, Store)>)
      modifies this
      ensures log == old(log) + [Fetched(r)]
    {
      r := None;
      if snapshots != [] {
        r, snapshots := snapshots[0], snapshots[1..];
      }
      log := log + [Fetched(r)];
    }
  }

  /** What an engine holds between its saves: the document it last saw stored, its revision, and its own version. */
  datatype Holding = Holding(persisted: Store, revision: string, learning: Store)

  /** A document fetched after a conflict is merged under the local changes; a stored one is taken over. */
  ghost function HoldingAfter(start: Holding, calls: seq<StoreCall>): Holding {
    if calls == [] then start else
      var held := HoldingAfter(start, calls[..|calls| - 1]);
      match calls[|calls| - 1]
      case Fetched(Some((revision, remote))) =>
        Holding(remote, revision, MergeLearningChanges(held.persisted, held.learning, remote))
      case Offered(_, _, Saved(revision, document)) => Holding(document, revision, document)
      case Offered(_, _, SavedUndurably(revision, document)) => Holding(document, revision, document)
      case _ => held
  }

  ghost function Offers(calls: seq<StoreCall>): nat {
    if calls == [] then 0
    else Offers(calls[..|calls| - 1]) + (if calls[|calls| - 1].Offered? then 1 else 0)
  }

  /** Call `i` offers what is held by then, or fetches after a conflict; only a conflict or a busy store is followed
      by another call, a conflict by a fetch. */
  ghost predicate CallInTurn(start: Holding, calls: seq<StoreCall>, i: nat)
    requires i < |calls|
  {
    && (match calls[i]
        case Offered(revision, document, _) =>
          var held := HoldingAfter(start, calls[..i]);
          revision == held.revision && document == held.learning
        case Fetched(_) => i > 0 && calls[i - 1].Offered? && calls[i - 1].answer.Conflict?)
    && (i > 0 && calls[i - 1].Offered? ==>
          (calls[i - 1].answer.Busy? && calls[i].Offered?) || (calls[i - 1].answer.Conflict? && calls[i].Fetched?))
    && (i > 0 && calls[i - 1].Fetched? ==> calls[i - 1].snapshot.Some? && calls[i].Offered?)
  }

  ghost predicate SavesInTurn(start: Holding, calls: seq<StoreCall>) {
    Offers(calls) <= SAVE_ATTEMPTS && forall i :: 0 <= i < |calls| ==> CallInTurn(start, calls, i)
  }

  /** The store cannot take it, or what it holds cannot be read. */
  ghost predicate NoUseOffering(calls: seq<StoreCall>) {
    calls != [] && match calls[|calls| - 1]
                   case Offered(_, _, answer) => answer.SaveFailed?
                   case Fetched(snapshot) => snapshot.None?
  }

  lemma NoUse(calls: seq<StoreCall>, last: StoreCall)
    requires calls != [] && calls[|calls| - 1] == last
    requires (if last.Offered? then last.answer.SaveFailed? else last.snapshot.None?)
    ensures NoUseOffering(calls)
  {
  }

  ghost predicate EndsStored(calls: seq<StoreCall>) {
    |calls| > 0 && calls[|calls| - 1].Offered? && (calls[|calls| - 1].answer.Saved? || calls[|calls| - 1].answer.SavedUndurably?)
  }

  lemma NextCall(start: Holding, calls: seq<StoreCall>, call: StoreCall)
    requires SavesInTurn(start, calls) && CallInTurn(start, calls + [call], |calls|)
    requires call.Offered? ==> Offers(calls) < SAVE_ATTEMPTS
    ensures SavesInTurn(start, calls + [call])
    ensures Offers(calls + [call]) == Offers(calls) + (if call.Offered? then 1 else 0)
  {
    hide HoldingAfter;
    var more := calls + [call];
    assert more[..|more| - 1] == calls;
    forall i | 0 <= i < |more| ensures CallInTurn(start, more, i) {
      if i < |calls| {
        assert CallInTurn(start, calls, i);
        assert more[..i] == calls[..i];
      }
    }
  }

  /** The store may be asked again: at the start, when it was busy, or after a merge. */
  ghost predicate MayOffer(calls: seq<StoreCall>) {
    calls == []
    || (match calls[|calls| - 1]
        case Offered(_, _, answer) => answer.Busy?
        case Fetched(snapshot) => snapshot.Some?)
  }

  lemma NothingOffered(start: Holding)
    ensures SavesInTurn(start, []) && Offers([]) == 0 && HoldingAfter(start, []) == start
    ensures MayOffer([]) && !EndsStored([])
  {
  }

  lemma OfferInTurn(start: Holding, calls: seq<StoreCall>, call: StoreCall)
    requires SavesInTurn(start, calls) && MayOffer(calls) && Offers(calls) < SAVE_ATTEMPTS && call.Offered?
    requires var held := HoldingAfter(start, calls); call.revision == held.revision && call.document == held.learning
    ensures SavesInTurn(start, calls + [call]) && Offers(calls + [call]) == Offers(calls) + 1
    ensures EndsStored(calls + [call]) <==> call.answer.Saved? || call.answer.SavedUndurably?
    ensures call.answer.Busy? ==> MayOffer(calls + [call])
    ensures var held := HoldingAfter(start, calls + [call]);
            match call.answer
            case Saved(revision, document) => held == Holding(document, revision, document)
            case SavedUndurably(revision, document) => held == Holding(document, revision, document)
            case _ => held == HoldingAfter(start, calls)
  {
    hide HoldingAfter, Offers, SavesInTurn;
    assert (calls + [call])[..|calls|] == calls;
    NextCall(start, calls, call);
    HeldNext(start, calls, call);
  }

  lemma FetchInTurn(start: Holding, calls: seq<StoreCall>, call: StoreCall)
    requires SavesInTurn(start, calls) && call.Fetched? && |calls| > 0
    requires calls[|calls| - 1].Offered? && calls[|calls| - 1].answer.Conflict?
    ensures SavesInTurn(start, calls + [call]) && Offers(calls + [call]) == Offers(calls)
    ensures !EndsStored(calls + [call]) && (call.snapshot.Some? ==> MayOffer(calls + [call]))
    ensures call.snapshot.Some? ==>
              var held := HoldingAfter(start, calls);
              HoldingAfter(start, calls + [call]) ==
              Holding(call.snapshot.value.1, call.snapshot.value.0,
                      MergeLearningChanges(held.persisted, held.learning, call.snapshot.value.1))
    ensures call.snapshot.None? ==> HoldingAfter(start, calls + [call]) == HoldingAfter(start, calls)
  {
    hide HoldingAfter, Offers, SavesInTurn, MergeLearningChanges;
    NextCall(start, calls, call);
    HeldNext(start, calls, call);
  }

  lemma HeldNext(start: Holding, calls: seq<StoreCall>, call: StoreCall)
    ensures var held := HoldingAfter(start, calls);
            HoldingAfter(start, calls + [call]) ==
            match call
            case Fetched(Some((revision, remote))) =>
              Holding(remote, revision, MergeLearningChanges(held.persisted, held.learning, remote))
            case Offered(_, _, Saved(revision, document)) => Holding(document, revision, document)
            case Offered(_, _, SavedUndurably(revision, document)) => Holding(document, revision, document)
            case _ => held
  {
    hide MergeLearningChanges;
    assert (calls + [call])[..|calls|] == calls;
  }

  // ---------------------------------------------------------------- engine state and commands

  /** Trees, membership, visibility and parked intent live in the workspaces. */
  datatype World = World(workspaces: seq<Workspace>, focusedWorkspace: Option<string>, focusIntent: Option<WindowId>,
                         windows: map<WindowId, Observation>, profiles: map<string, Profile>, epoch: nat, paused: bool)

  /** Learned constraints, what the store last held, and how they relate. */
  datatype Memory = Memory(learning: Store, persisted: Store, revision: string, failed: bool, dirty: bool)

  datatype Health = Healthy | Degraded(reason: string)

  datatype Captured = Captured(id: WindowId, identity: string, frame: Frame)

  datatype PlannedWrite = PlannedWrite(id: WindowId, frame: Frame, tolerance: nat, parksIn: Option<string>)

  /** The writes that are needed, every place a window should be in, the draft this leads to, and the last layout
      policy that was chosen. */
  datatype Plan = Plan(writes: seq<PlannedWrite>, targets: seq<PlannedWrite>, draft: World, policy: Option<nat>)

  datatype Intent = Retile(workspace: string) | Park(workspace: string, display: Option<DisplayId>)

  datatype Reduced = Reduced(draft: World, intents: seq<Intent>, events: seq<string>)

  /** A command: the windows it may touch, its reducer, how a draft and its intents become writes, by the
      planner's own choice of policy or by a given one of the `policies` there are, and the window to focus, if any. */
  datatype Command = Command(tracked: seq<WindowId>, valid: World -> bool, reduce: World -> Reduced,
                             plan: (World, seq<Intent>, Option<nat>) -> Option<Plan>, focus: World -> Option<WindowId>,
                             retries: bool, policies: nat)

  datatype Outcome = Committed(final: World) | NothingToDo | Failed(code: string) | WasInterrupted

  function Expected(captured: seq<Captured>, id: WindowId): Option<string> {
    if captured == [] then None
    else if captured[0].id == id then Some(captured[0].identity)
    else Expected(captured[1..], id)
  }

  /** The last answer about the window shows the captured window, in its captured place. */
  ghost predicate ShownInPlace(call: Call, cap: Captured) {
    match call
    case Read(id, reading) =>
      id == cap.id && reading.Seen? && reading.window.identity == cap.identity
      && WithinTolerance(reading.window.frame, cap.frame, TOLERANCE)
    case Write(id, frame, expected, writing) =>
      id == cap.id && frame == cap.frame && expected == Some(cap.identity) && writing.Wrote?
      && WithinTolerance(writing.observed, cap.frame, TOLERANCE)
    case Focus(_, _, _) => false
  }

  ghost predicate ReadBack(log: seq<Call>, cap: Captured) {
    exists i :: 0 <= i < |log| && ShownInPlace(log[i], cap) && forall j :: i < j < |log| ==> log[j].id != cap.id
  }

  ghost predicate OnlyReads(log: seq<Call>) {
    forall i :: 0 <= i < |log| ==> log[i].Read?
  }

  /** Every write and every focus request carries the identity its window was captured with. */
  ghost predicate Guarded(log: seq<Call>, captured: seq<Captured>) {
    forall i :: 0 <= i < |log| && !log[i].Read? ==> log[i].expected.Some? && log[i].expected == Expected(captured, log[i].id)
  }

  ghost predicate DistinctIds(captured: seq<Captured>) {
    forall i, j :: 0 <= i < j < |captured| ==> captured[i].id != captured[j].id
  }

  /** What was captured is what the platform showed, one reading a window. */
  ghost predicate AsCaptured(log: seq<Call>, captured: seq<Captured>, ids: seq<WindowId>) {
    && |log| == |captured| == |ids|
    && forall i :: 0 <= i < |ids| ==>
         captured[i].id == ids[i] && log[i].Read? && log[i].id == ids[i] && log[i].reading.Seen?
         && log[i].reading.window.identity == captured[i].identity && log[i].reading.window.frame == captured[i].frame
  }

  lemma ExpectedOfCaptured(captured: seq<Captured>, k: nat)
    requires DistinctIds(captured) && k < |captured|
    ensures Expected(captured, captured[k].id) == Some(captured[k].identity)
  {
    if k > 0 {
      assert captured[0].id != captured[k].id;
      forall i, j | 0 <= i < j < |captured[1..]| ensures captured[1..][i].id != captured[1..][j].id {
        assert captured[i + 1].id != captured[j + 1].id;
      }
      ExpectedOfCaptured(captured[1..], k - 1);
    }
  }

  /** Later calls about other windows leave a readback standing. */
  lemma ReadBackStands(log: seq<Call>, more: seq<Call>, cap: Captured)
    requires ReadBack(log, cap) && forall j :: 0 <= j < |more| ==> more[j].id != cap.id
    ensures ReadBack(log + more, cap)
  {
    var i :| 0 <= i < |log| && ShownInPlace(log[i], cap) && forall j :: i < j < |log| ==> log[j].id != cap.id;
    assert (log + more)[i] == log[i];
  }

  /** Nor do they make one. */
  lemma ReadBackBefore(log: seq<Call>, more: seq<Call>, cap: Captured)
    requires ReadBack(log + more, cap) && forall j :: 0 <= j < |more| ==> more[j].id != cap.id
    ensures ReadBack(log, cap)
  {
    hide ShownInPlace;
    var all := log + more;
    var i :| 0 <= i < |all| && ShownInPlace(all[i], cap) && forall j :: i < j < |all| ==> all[j].id != cap.id;
    ShownIsAbout(all[i], cap);
    assert ShownInPlace(log[i], cap);
    forall j | i < j < |log| ensures log[j].id != cap.id {
      assert all[j] == log[j];
    }
  }

  lemma ShownIsAbout(call: Call, cap: Captured)
    requires ShownInPlace(call, cap)
    ensures call.id == cap.id
  {
  }

  lemma ReadBackSince(before: seq<Call>, log: seq<Call>, cap: Captured)
    requires ReadBack(before + log, cap) && log != [] && log[0].id == cap.id
    ensures ReadBack(log, cap)
  {
    hide ShownInPlace;
    var all := before + log;
    var i :| 0 <= i < |all| && ShownInPlace(all[i], cap) && forall j :: i < j < |all| ==> all[j].id != cap.id;
    assert all[|before|] == log[0];
    var k := i - |before|;
    assert log[k] == all[i];
    forall j | k < j < |log| ensures log[j].id != cap.id {
      assert all[|before| + j] == log[j];
    }
  }

  lemma ReadBackByLast(log: seq<Call>, call: Call, cap: Captured)
    requires ShownInPlace(call, cap)
    ensures ReadBack(log + [call], cap)
  {
    assert (log + [call])[|log|] == call;
  }

  lemma ReadBackAfter(before: seq<Call>, log: seq<Call>, cap: Captured)
    requires ReadBack(log, cap)
    ensures ReadBack(before + log, cap)
  {
    var i :| 0 <= i < |log| && ShownInPlace(log[i], cap) && forall j :: i < j < |log| ==> log[j].id != cap.id;
    assert (before + log)[|before| + i] == log[i];
    forall j | |before| + i < j < |before + log| ensures (before + log)[j].id != cap.id {
      assert (before + log)[j] == log[j - |before|];
    }
  }

  // ---------------------------------------------------------------- drafts

  datatype Attempt = Reached(world: World) | Gave(code: string) | CutShort

  /** A window's frame as read back; windows the draft does not know stay unknown. */
  function Placed(draft: World, id: WindowId, observed: Frame): World {
    if id in draft.windows then draft.(windows := draft.windows[id := draft.windows[id].(frame := observed)]) else draft
  }

  /** The world a command works on: this one, with the windows the adapter lists. */
  function Fresh(world: World, inventories: seq<Option<map<WindowId, Observation>>>): Option<World> {
    if inventories == [] || inventories[0].None? then None else Some(world.(windows := inventories[0].value))
  }

  predicate Idle(cmd: Command, w: World) {
    var reduced := cmd.reduce(w);
    reduced.draft == w && reduced.intents == [] && reduced.events == []
  }

  /** Fallbacks begin after the policy the planner chose by itself. */
  function FirstFallback(cmd: Command, base: Reduced): nat {
    var own := cmd.plan(base.draft, base.intents, None);
    if own.Some? && own.value.policy.Some? then own.value.policy.value + 1 else 0
  }

  /** The policy of attempt `k`: the planner's own choice, then one fallback after the other. */
  function PolicyAt(cmd: Command, base: Reduced, k: nat): Option<nat> {
    if k == 0 then None else Some(FirstFallback(cmd, base) + k - 1)
  }

  function PlanAt(cmd: Command, base: Reduced, k: nat, from: World): Option<Plan> {
    cmd.plan(from, base.intents, PolicyAt(cmd, base, k))
  }

  predicate MayTry(cmd: Command, base: Reduced, k: nat) {
    k == 0 || (cmd.retries && FirstFallback(cmd, base) + k - 1 < cmd.policies)
  }

  ghost predicate AtTargets(w: World, targets: seq<PlannedWrite>) {
    forall i :: 0 <= i < |targets| ==>
      targets[i].id in w.windows && WithinTolerance(w.windows[targets[i].id].frame, targets[i].frame, targets[i].tolerance)
  }

  /** Every window where it should be, give or take. */
  method MeetsTargets(w: World, targets: seq<PlannedWrite>) returns (met: bool)
    ensures met <==> AtTargets(w, targets)
  {
    met := true;
    for i := 0 to |targets|
      invariant met <==> AtTargets(w, targets[..i])
    {
      assert targets[..i + 1] == targets[..i] + [targets[i]];
      var target := targets[i];
      met := met && target.id in w.windows && WithinTolerance(w.windows[target.id].frame, target.frame, target.tolerance);
    }
    assert targets[..|targets|] == targets;
  }

  // ---------------------------------------------------------------- what a draft knows of the windows

  ghost predicate Shows(call: Call, id: WindowId, window: Observation) {
    match call
    case Read(of, reading) => of == id && reading == Seen(window)
    case Write(of, _, _, writing) => of == id && writing.Wrote? && writing.observed == window.frame
    case Focus(_, _, _) => false
  }

  ghost predicate ShownSince(log: seq<Call>, since: nat, id: WindowId, window: Observation) {
    exists j :: since <= j < |log| && Shows(log[j], id, window)
  }

  /** Between two drafts windows changed only as the platform answered since. */
  ghost predicate WindowsFollow(log: seq<Call>, since: nat, before: World, later: World) {
    && (forall id :: id in before.windows ==> id in later.windows)
    && forall id :: id in later.windows ==>
         (id in before.windows && later.windows[id] == before.windows[id]) || ShownSince(log, since, id, later.windows[id])
  }

  /** The last calls read every captured window, under its captured identity, and the draft has what they showed. */
  ghost predicate SeenLast(log: seq<Call>, captured: seq<Captured>, w: World) {
    |captured| <= |log| && forall i :: 0 <= i < |captured| ==>
      && captured[i].id in w.windows && w.windows[captured[i].id].identity == captured[i].identity
      && log[|log| - |captured| + i] == Read(captured[i].id, Seen(w.windows[captured[i].id]))
  }

  /** The window's frame is what a settled write to it read back. */
  ghost predicate SettledSince(log: seq<Call>, since: nat, id: WindowId, w: World) {
    id in w.windows ==>
      exists j :: since <= j < |log| && log[j].Write? && log[j].id == id && log[j].writing.Wrote? && log[j].writing.settled
                  && log[j].writing.observed == w.windows[id].frame
  }

  /** Besides reading, only planned writes were made and only that window's focus was asked for. */
  ghost predicate OnlyWrites(log: seq<Call>, since: nat, writes: seq<PlannedWrite>, focus: Option<WindowId>) {
    forall j :: since <= j < |log| && !log[j].Read? ==>
      if log[j].Write? then Among(writes, log[j].id, log[j].frame) else focus == Some(log[j].id)
  }

  ghost predicate Among(writes: seq<PlannedWrite>, id: WindowId, frame: Frame) {
    exists i :: 0 <= i < |writes| && writes[i].id == id && writes[i].frame == frame
  }

  lemma FollowsItself(log: seq<Call>, since: nat, w: World)
    ensures WindowsFollow(log, since, w, w)
  {
  }

  lemma FollowsChain(log: seq<Call>, since: nat, more: seq<Call>, from: nat, a: World, b: World, c: World)
    requires log <= more && since <= from
    requires WindowsFollow(log, since, a, b) && WindowsFollow(more, from, b, c)
    ensures WindowsFollow(more, since, a, c)
  {
    hide Shows;
    forall id | id in c.windows && !(id in a.windows && c.windows[id] == a.windows[id])
      ensures ShownSince(more, since, id, c.windows[id])
    {
      if id in b.windows && c.windows[id] == b.windows[id] {
        var j :| since <= j < |log| && Shows(log[j], id, b.windows[id]);
        assert more[j] == log[j];
      }
    }
  }

  lemma FollowsGrows(log: seq<Call>, more: seq<Call>, since: nat, a: World, b: World)
    requires log <= more && WindowsFollow(log, since, a, b)
    ensures WindowsFollow(more, since, a, b)
  {
    FollowsItself(more, since, b);
    FollowsChain(log, since, more, since, a, b, b);
  }

  /** An answered write puts the window where it was read back. */
  lemma PlacedFollows(log: seq<Call>, since: nat, j: nat, draft: World)
    requires since <= j < |log| && log[j].Write? && log[j].writing.Wrote?
    ensures WindowsFollow(log, since, draft, Placed(draft, log[j].id, log[j].writing.observed))
    ensures log[j].writing.settled ==> SettledSince(log, since, log[j].id, Placed(draft, log[j].id, log[j].writing.observed))
  {
    var later := Placed(draft, log[j].id, log[j].writing.observed);
    if log[j].id in draft.windows {
      assert Shows(log[j], log[j].id, later.windows[log[j].id]);
    }
  }

  /** A reading shows its window. */
  lemma SeenFollows(log: seq<Call>, since: nat, j: nat, draft: World, id: WindowId, window: Observation)
    requires since <= j < |log| && log[j] == Read(id, Seen(window))
    ensures WindowsFollow(log, since, draft, draft.(windows := draft.windows[id := window]))
  {
    assert Shows(log[j], id, window);
  }

  lemma SettledStays(log: seq<Call>, more: seq<Call>, since: nat, id: WindowId, w: World, later: World)
    requires log <= more && SettledSince(log, since, id, w)
    requires id in later.windows ==> id in w.windows && later.windows[id] == w.windows[id]
    ensures SettledSince(more, since, id, later)
  {
    if id in later.windows {
      var j :| since <= j < |log| && log[j].Write? && log[j].id == id && log[j].writing.Wrote? && log[j].writing.settled
               && log[j].writing.observed == w.windows[id].frame;
      assert more[j] == log[j];
    }
  }

  // ---------------------------------------------------------------- from the reducer's draft to the installed one

  ghost predicate Parks(writes: seq<PlannedWrite>, id: WindowId, name: string) {
    exists i :: 0 <= i < |writes| && writes[i].id == id && writes[i].parksIn == Some(name)
  }

  /** The same workspace, but for the parked places of windows a write parks in it. */
  ghost predicate SameButParked(writes: seq<PlannedWrite>, later: Workspace, draft: Workspace) {
    && later == draft.(parked := later.parked)
    && forall id :: !Parks(writes, id, draft.name) ==>
         (id in later.parked <==> id in draft.parked) && (id in later.parked ==> later.parked[id] == draft.parked[id])
  }

  /** Only windows, and parked places the writes gave, have moved on. */
  ghost predicate StillDraft(writes: seq<PlannedWrite>, draft: World, later: World) {
    && later == draft.(windows := later.windows, workspaces := later.workspaces)
    && |later.workspaces| == |draft.workspaces|
    && forall i :: 0 <= i < |draft.workspaces| ==> SameButParked(writes, later.workspaces[i], draft.workspaces[i])
  }

  /** What attempt `k`, planned from `from`, leaves behind: the draft of its plan, or `from` when there was none,
      with windows as answered since and, after the first batch, newer parked places. */
  ghost predicate Leaves(cmd: Command, base: Reduced, k: nat, from: World, log: seq<Call>, since: nat, later: World) {
    var plan := PlanAt(cmd, base, k, from);
    if plan.None? then
      k > 0 && later == from.(windows := later.windows) && WindowsFollow(log, since, from, later)
    else
      && WindowsFollow(log, since, plan.value.draft, later)
      && if k == 0 then StillDraft(plan.value.writes, plan.value.draft, later)
         else later == plan.value.draft.(windows := later.windows)
  }

  ghost predicate SeenAt(log: seq<Call>, n: nat, captured: seq<Captured>, w: World) {
    n <= |log| && SeenLast(log[..n], captured, w)
  }

  /** Attempt `k` may plan from this draft: the reducer's own for the first, and for each later one what the
      attempt before left, with every captured window read again. */
  ghost predicate PlansFrom(cmd: Command, base: Reduced, captured: seq<Captured>, log: seq<Call>, since: nat, k: nat, from: World)
    decreases k
  {
    if k == 0 then from == base.draft
    else
      && (var last := k - 1;
          exists before :: PlansFrom(cmd, base, captured, log, since, last, before)
                           && Leaves(cmd, base, last, before, log, since, from))
      && (exists n: nat :: since <= n && SeenAt(log, n, captured, from))
  }

  predicate Settles(call: Call, write: PlannedWrite) {
    call.Write? && call.id == write.id && call.frame == write.frame && call.writing.Wrote? && call.writing.settled
  }

  ghost predicate WriteSettled(log: seq<Call>, since: nat, write: PlannedWrite) {
    exists j :: since <= j < |log| && Settles(log[j], write)
  }

  ghost predicate Written(log: seq<Call>, since: nat, writes: seq<PlannedWrite>) {
    forall i :: 0 <= i < |writes| ==> WriteSettled(log, since, writes[i])
  }

  lemma WriteStaysSettled(log: seq<Call>, more: seq<Call>, since: nat, from: nat, write: PlannedWrite)
    requires log <= more && since <= from && WriteSettled(log, from, write)
    ensures WriteSettled(more, since, write)
  {
    hide Settles;
    var j :| from <= j < |log| && Settles(log[j], write);
    assert more[j] == log[j];
  }

  lemma WrittenGrows(log: seq<Call>, more: seq<Call>, since: nat, from: nat, writes: seq<PlannedWrite>)
    requires log <= more && since <= from && Written(log, from, writes)
    ensures Written(more, since, writes)
  {
    hide WriteSettled;
    forall i | 0 <= i < |writes| ensures WriteSettled(more, since, writes[i]) {
      WriteStaysSettled(log, more, since, from, writes[i]);
    }
  }

  /** Every write settled; with fallbacks, every captured window was then read once more and every target met, without,
      every window written to is where it settled. */
  ghost predicate Verified(cmd: Command, plan: Plan, captured: seq<Captured>, log: seq<Call>, since: nat, final: World) {
    && Written(log, since, plan.writes)
    && if cmd.retries then SeenLast(log, captured, final) && AtTargets(final, plan.targets)
       else forall i :: 0 <= i < |plan.writes| ==> SettledSince(log, since, plan.writes[i].id, final)
  }

  ghost predicate PlacesAt(cmd: Command, base: Reduced, captured: seq<Captured>, log: seq<Call>, since: nat, placed: World,
                           k: nat, from: World) {
    && MayTry(cmd, base, k) && PlansFrom(cmd, base, captured, log, since, k, from)
    && PlanAt(cmd, base, k, from).Some? && Leaves(cmd, base, k, from, log, since, placed)
    && Verified(cmd, PlanAt(cmd, base, k, from).value, captured, log, since, placed)
  }

  /** The draft is what some attempt planned, on the way from the reducer's draft, and it was verified. */
  ghost predicate PlacesAll(cmd: Command, base: Reduced, captured: seq<Captured>, log: seq<Call>, since: nat, placed: World) {
    exists k: nat, from :: PlacesAt(cmd, base, captured, log, since, placed, k, from)
  }

  /** The window the first plan's draft has the command focus, when it was captured. */
  ghost function FocusTarget(cmd: Command, draft: World, captured: seq<Captured>): (target: Option<WindowId>)
    ensures target.Some? ==> Expected(captured, target.value).Some?
  {
    var focus := cmd.focus(draft);
    if focus.Some? && Expected(captured, focus.value).Some? then focus else None
  }

  /** The window is in front: it says so itself, or its process is and it is that process's main window. Requests
      that were rejected may still have had their effect. */
  ghost predicate Satisfied(answer: Focusing, window: Observation) {
    && answer.FocusAnswer? && (answer.fault.None? || answer.fault.value in ["rejected", "not_controllable"])
    && (answer.focused || (answer.frontmost == Some(window.process) && answer.main))
  }

  ghost function FocusFailure(answer: Focusing): string {
    if answer.FocusInterrupted? || answer.fault.None? then "internal_error"
    else
      match answer.fault.value
      case "rejected" => "geometry_rejected"
      case "not_controllable" => "window_not_controllable"
      case "stale" => "inventory_stale"
      case _ => "internal_error"
  }

  /** From now on the user means this window, and its workspace remembers it. */
  ghost function WithFocus(w: World, id: WindowId): World {
    var meant := w.(focusIntent := Some(id));
    var i := Home(w.workspaces, id);
    if id !in w.windows || !w.windows[id].normal || i == |w.workspaces| then meant
    else meant.(workspaces := w.workspaces[i := Remembering(w.workspaces[i], id)])
  }

  ghost predicate FocusAsked(log: seq<Call>, since: nat, id: WindowId, answer: Focusing) {
    exists j :: since <= j < |log| && log[j].Focus? && log[j].id == id && log[j].focusing == answer
  }

  ghost predicate FocusObtained(log: seq<Call>, since: nat, id: WindowId, w: World) {
    exists answer :: FocusAsked(log, since, id, answer) && (id in w.windows ==> Satisfied(answer, w.windows[id]))
  }

  /** The command's own focus, last: asked for, obtained, and then remembered. */
  ghost predicate AfterFocus(cmd: Command, base: Reduced, captured: seq<Captured>, log: seq<Call>, since: nat, placed: World,
                             final: World) {
    var first := PlanAt(cmd, base, 0, base.draft);
    && first.Some?
    && var target := FocusTarget(cmd, first.value.draft, captured);
       if target.None? then final == placed
       else FocusObtained(log, since, target.value, placed) && final == WithFocus(placed, target.value)
  }

  ghost predicate FocusMissed(cmd: Command, base: Reduced, captured: seq<Captured>, log: seq<Call>, since: nat, code: string,
                              placed: World, answer: Focusing)
  {
    && PlacesAll(cmd, base, captured, log, since, placed) && PlanAt(cmd, base, 0, base.draft).Some?
    && var target := FocusTarget(cmd, PlanAt(cmd, base, 0, base.draft).value.draft, captured);
       && target.Some? && target.value in placed.windows && FocusAsked(log, since, target.value, answer)
       && !Satisfied(answer, placed.windows[target.value]) && code == FocusFailure(answer)
  }

  /** Every window was placed, but the answer to the command's focus request leaves another one in front. */
  ghost predicate FocusFails(cmd: Command, base: Reduced, captured: seq<Captured>, log: seq<Call>, since: nat, r: Attempt) {
    r.Gave? && exists placed, answer :: FocusMissed(cmd, base, captured, log, since, r.code, placed, answer)
  }

  /** Every window was placed, and the command's focus was obtained. */
  ghost predicate Commits(cmd: Command, base: Reduced, captured: seq<Captured>, log: seq<Call>, since: nat, final: World) {
    exists placed :: PlacesAll(cmd, base, captured, log, since, placed) && AfterFocus(cmd, base, captured, log, since, placed, final)
  }

  ghost predicate AskedAt(cmd: Command, base: Reduced, captured: seq<Captured>, log: seq<Call>, since: nat, call: Call,
                          k: nat, from: World)
    requires !call.Read?
  {
    && MayTry(cmd, base, k) && PlansFrom(cmd, base, captured, log, since, k, from) && PlanAt(cmd, base, k, from).Some?
    && (var plan := PlanAt(cmd, base, k, from).value;
        if call.Write? then Among(plan.writes, call.id, call.frame)
        else k == 0 && FocusTarget(cmd, plan.draft, captured) == Some(call.id))
    && (k == 0 ==> Expected(captured, call.id).Some?)
  }

  /** Every write since was planned by an attempt on the way from the reducer's draft, every focus asked for is the
      command's; only fallbacks may write to windows that were not captured. */
  ghost predicate OnlyPlanned(cmd: Command, base: Reduced, captured: seq<Captured>, log: seq<Call>, since: nat, from: nat) {
    forall j :: from <= j < |log| && !log[j].Read? ==>
      exists k: nat, w :: AskedAt(cmd, base, captured, log, since, log[j], k, w)
  }

  lemma LeavesGrows(cmd: Command, base: Reduced, k: nat, from: World, log: seq<Call>, more: seq<Call>, since: nat, later: World)
    requires log <= more && Leaves(cmd, base, k, from, log, since, later)
    ensures Leaves(cmd, base, k, from, more, since, later)
  {
    hide StillDraft, WindowsFollow, PlanAt;
    var plan := PlanAt(cmd, base, k, from);
    FollowsGrows(log, more, since, if plan.None? then from else plan.value.draft, later);
  }

  /** Reading the windows again keeps what an attempt left. */
  lemma LeavesRefreshed(cmd: Command, base: Reduced, k: nat, from: World, log: seq<Call>, more: seq<Call>, since: nat,
                        later: World, seen: World)
    requires since <= |log| && log <= more && Leaves(cmd, base, k, from, log, since, later)
    requires seen == later.(windows := seen.windows) && WindowsFollow(more, |log|, later, seen)
    ensures Leaves(cmd, base, k, from, more, since, seen)
  {
    hide WindowsFollow, PlanAt, SameButParked;
    var plan := PlanAt(cmd, base, k, from);
    FollowsChain(log, since, more, |log|, if plan.None? then from else plan.value.draft, later, seen);
  }

  lemma {:induction false} PlansFromGrows(cmd: Command, base: Reduced, captured: seq<Captured>, log: seq<Call>, more: seq<Call>,
                                          since: nat, k: nat, from: World)
    requires log <= more && PlansFrom(cmd, base, captured, log, since, k, from)
    ensures PlansFrom(cmd, base, captured, more, since, k, from)
    decreases k
  {
    hide Leaves, SeenLast;
    if k > 0 {
      var before :| PlansFrom(cmd, base, captured, log, since, k - 1, before)
                    && Leaves(cmd, base, k - 1, before, log, since, from);
      PlansFromGrows(cmd, base, captured, log, more, since, k - 1, before);
      LeavesGrows(cmd, base, k - 1, before, log, more, since, from);
      var n: nat :| since <= n && SeenAt(log, n, captured, from);
      assert more[..n] == log[..n];
      assert SeenAt(more, n, captured, from);
    }
  }

  lemma AskedGrows(cmd: Command, base: Reduced, captured: seq<Captured>, log: seq<Call>, more: seq<Call>, since: nat,
                   call: Call, k: nat, from: World)
    requires log <= more && !call.Read? && AskedAt(cmd, base, captured, log, since, call, k, from)
    ensures AskedAt(cmd, base, captured, more, since, call, k, from)
  {
    hide PlansFrom, PlanAt, Among, MayTry, Expected, FocusTarget;
    PlansFromGrows(cmd, base, captured, log, more, since, k, from);
  }

  lemma OnlyPlannedGrows(cmd: Command, base: Reduced, captured: seq<Captured>, log: seq<Call>, more: seq<Call>,
                         since: nat, from: nat)
    requires log <= more && from <= |log| && OnlyPlanned(cmd, base, captured, log, since, from)
    requires OnlyPlanned(cmd, base, captured, more, since, |log|)
    ensures OnlyPlanned(cmd, base, captured, more, since, from)
  {
    hide AskedAt;
    forall j | from <= j < |more| && !more[j].Read?
      ensures exists k: nat, w :: AskedAt(cmd, base, captured, more, since, more[j], k, w)
    {
      if j < |log| {
        assert more[j] == log[j];
        var k: nat, w :| AskedAt(cmd, base, captured, log, since, log[j], k, w);
        AskedGrows(cmd, base, captured, log, more, since, more[j], k, w);
      }
    }
  }

  /** The writes of one attempt's plan, and the first one's focus. */
  lemma WritesArePlanned(cmd: Command, base: Reduced, captured: seq<Captured>, log: seq<Call>, since: nat, from: nat,
                         k: nat, w: World, focus: Option<WindowId>)
    requires MayTry(cmd, base, k) && PlansFrom(cmd, base, captured, log, since, k, w) && PlanAt(cmd, base, k, w).Some?
    requires OnlyWrites(log, from, PlanAt(cmd, base, k, w).value.writes, focus)
    requires focus.Some? ==> k == 0 && focus == FocusTarget(cmd, PlanAt(cmd, base, k, w).value.draft, captured)
    requires k == 0 ==> forall i :: 0 <= i < |PlanAt(cmd, base, k, w).value.writes| ==>
                                  Expected(captured, PlanAt(cmd, base, k, w).value.writes[i].id).Some?
    ensures OnlyPlanned(cmd, base, captured, log, since, from)
  {
    hide PlansFrom, PlanAt, MayTry, FocusTarget, Expected;
    forall j | from <= j < |log| && !log[j].Read?
      ensures exists k': nat, w' :: AskedAt(cmd, base, captured, log, since, log[j], k', w')
    {
      assert AskedAt(cmd, base, captured, log, since, log[j], k, w);
    }
  }

  lemma ReadsArePlanned(cmd: Command, base: Reduced, captured: seq<Captured>, log: seq<Call>, since: nat, from: nat)
    requires from <= |log| && OnlyReads(log[from..])
    ensures OnlyPlanned(cmd, base, captured, log, since, from)
  {
    hide AskedAt;
    forall j | from <= j < |log| ensures log[j].Read? {
      assert log[from..][j - from] == log[j];
    }
  }

  lemma StartsPlanned(cmd: Command, base: Reduced, captured: seq<Captured>, log: seq<Call>, since: nat)
    ensures PlansFrom(cmd, base, captured, log, since, 0, base.draft)
  {
    hide Leaves, SeenAt;
  }

  lemma NothingAsked(cmd: Command, base: Reduced, captured: seq<Captured>, log: seq<Call>, since: nat)
    ensures OnlyPlanned(cmd, base, captured, log, since, |log|)
  {
    hide AskedAt;
  }

  /** Once its windows are read again, what one attempt left is what the next one may plan from. */
  lemma PlansAgain(cmd: Command, base: Reduced, captured: seq<Captured>, log: seq<Call>, more: seq<Call>, since: nat,
                   k: nat, before: World, draft: World, seen: World)
    requires k >= 1 && since <= |log| && log <= more
    requires PlansFrom(cmd, base, captured, log, since, k - 1, before) && Leaves(cmd, base, k - 1, before, log, since, draft)
    requires seen == draft.(windows := seen.windows) && WindowsFollow(more, |log|, draft, seen)
    requires SeenLast(more, captured, seen)
    ensures PlansFrom(cmd, base, captured, more, since, k, seen)
  {
    hide Leaves, WindowsFollow, SeenLast;
    PlansFromGrows(cmd, base, captured, log, more, since, k - 1, before);
    LeavesRefreshed(cmd, base, k - 1, before, log, more, since, draft, seen);
    assert more[..|more|] == more;
    assert SeenAt(more, |more|, captured, seen);
  }

  lemma LeavesNothing(cmd: Command, base: Reduced, k: nat, from: World, log: seq<Call>, since: nat)
    requires k > 0 && PlanAt(cmd, base, k, from).None?
    ensures Leaves(cmd, base, k, from, log, since, from)
  {
    hide PlanAt, StillDraft;
    FollowsItself(log, since, from);
  }

  lemma LeavesWritten(cmd: Command, base: Reduced, k: nat, from: World, plan: Plan, log: seq<Call>, since: nat, wrote: nat,
                      later: World)
    requires k > 0 && PlanAt(cmd, base, k, from) == Some(plan) && since <= wrote <= |log|
    requires later == plan.draft.(windows := later.windows) && WindowsFollow(log, wrote, plan.draft, later)
    ensures Leaves(cmd, base, k, from, log, since, later)
  {
    hide PlanAt, StillDraft, WindowsFollow;
    FollowsItself(log[..since], since, plan.draft);
    FollowsChain(log[..since], since, log, wrote, plan.draft, plan.draft, later);
  }

  lemma PlacedByNow(cmd: Command, base: Reduced, captured: seq<Captured>, log: seq<Call>, since: nat, placed: World,
                    k: nat, from: World)
    requires PlacesAt(cmd, base, captured, log, since, placed, k, from)
    ensures PlacesAll(cmd, base, captured, log, since, placed)
  {
    hide PlacesAt;
  }

  lemma CommitsByNow(cmd: Command, base: Reduced, captured: seq<Captured>, log: seq<Call>, since: nat, placed: World,
                     final: World)
    requires PlacesAll(cmd, base, captured, log, since, placed) && AfterFocus(cmd, base, captured, log, since, placed, final)
    ensures Commits(cmd, base, captured, log, since, final)
  {
    hide PlacesAll, AfterFocus;
  }

  /** Exactly when there is a window to focus was it asked for, with this answer. */
  ghost predicate FocusHeard(target: Option<WindowId>, focusing: Option<Focusing>, log: seq<Call>, since: nat) {
    && focusing.Some? == target.Some?
    && (target.Some? ==> FocusAsked(log, since, target.value, focusing.value))
  }

  lemma StillHeard(target: Option<WindowId>, focusing: Option<Focusing>, log: seq<Call>, more: seq<Call>, since: nat)
    requires log <= more && FocusHeard(target, focusing, log, since)
    ensures FocusHeard(target, focusing, more, since)
  {
    hide FocusAsked;
    if target.Some? {
      StillAsked(log, more, since, target.value, focusing.value);
    }
  }

  lemma StillAsked(log: seq<Call>, more: seq<Call>, since: nat, id: WindowId, answer: Focusing)
    requires log <= more && FocusAsked(log, since, id, answer)
    ensures FocusAsked(more, since, id, answer)
  {
    var j :| since <= j < |log| && log[j].Focus? && log[j].id == id && log[j].focusing == answer;
    assert more[j] == log[j];
  }

  /** Parked places do not bear on what is known of the windows. */
  lemma SameWindows(log: seq<Call>, since: nat, id: WindowId, draft: World, placed: World, parked: World)
    requires parked.windows == placed.windows
    requires WindowsFollow(log, since, draft, placed) && SettledSince(log, since, id, placed)
    ensures WindowsFollow(log, since, draft, parked) && SettledSince(log, since, id, parked)
  {
    hide Shows;
  }

  // ---------------------------------------------------------------- why an attempt ends

  /** The write was answered, and did not settle. */
  predicate Unsettled(call: Call) {
    call.Write? && (call.writing.Refused? || (call.writing.Wrote? && !call.writing.settled))
  }

  ghost predicate AnyUnsettled(log: seq<Call>, from: nat, to: nat) {
    exists j :: from <= j < to <= |log| && Unsettled(log[j])
  }

  /** The last call was cut short. */
  ghost predicate EndsInterrupted(log: seq<Call>) {
    log != [] && match log[|log| - 1]
                 case Read(_, reading) => reading.ReadInterrupted?
                 case Write(_, _, _, writing) => writing.WriteInterrupted?
                 case Focus(_, _, focusing) => focusing.FocusInterrupted?
  }

  /** The window was gone, unreadable or in other hands. */
  predicate IsStale(call: Call, captured: seq<Captured>) {
    match call
    case Read(id, reading) =>
      reading.Missing? || reading.Unreadable? || (reading.Seen? && Expected(captured, id) != Some(reading.window.identity))
    case Write(_, _, _, writing) => writing.Stale?
    case Focus(_, _, _) => false
  }

  ghost predicate StaleSince(log: seq<Call>, since: nat, captured: seq<Captured>) {
    exists j :: since <= j < |log| && IsStale(log[j], captured)
  }

  /** Write `i` of the batch was refused, or answered without settling and then tried once more, no better. */
  ghost predicate GivenUp(log: seq<Call>, since: nat, writes: seq<PlannedWrite>, i: nat)
    requires i < |writes|
  {
    && since + i < |log| && log[since + i].Write? && log[since + i].id == writes[i].id && !Settles(log[since + i], writes[i])
    && (log[since + i].writing.Refused?
        || exists j :: since + |writes| <= j < |log| && log[j].Write? && log[j].id == writes[i].id && log[j].frame == writes[i].frame
                       && Unsettled(log[j]))
  }

  /** The one call since is a write that did not settle either. */
  ghost predicate TriedOnceMore(before: seq<Call>, log: seq<Call>, write: PlannedWrite) {
    && |log| == |before| + 1
    && log[|before|].Write? && log[|before|].id == write.id && log[|before|].frame == write.frame && Unsettled(log[|before|])
  }

  lemma GivenUpNow(log: seq<Call>, since: nat, writes: seq<PlannedWrite>, i: nat, before: seq<Call>)
    requires i < |writes| && since + |writes| <= |before| && before <= log
    requires log[since + i].Write? && log[since + i].id == writes[i].id
    requires var first := log[since + i].writing;
             first.Refused? || (!(first.Wrote? && first.settled) && TriedOnceMore(before, log, writes[i]))
    ensures SomeGivenUp(log, since, writes)
  {
    hide Unsettled;
    assert GivenUp(log, since, writes, i);
  }

  ghost predicate SomeGivenUp(log: seq<Call>, since: nat, writes: seq<PlannedWrite>) {
    exists i :: 0 <= i < |writes| && GivenUp(log, since, writes, i)
  }

  /** What attempt `k` left, as last read between the two calls, is off its targets. */
  ghost predicate OffTarget(cmd: Command, base: Reduced, captured: seq<Captured>, log: seq<Call>, since: nat, k: nat, from: World,
                            after: nat, to: nat)
    requires PlanAt(cmd, base, k, from).Some?
  {
    exists n: nat, w :: after <= n <= to && SeenAt(log, n, captured, w) && Leaves(cmd, base, k, from, log, since, w)
                        && !AtTargets(w, PlanAt(cmd, base, k, from).value.targets)
  }

  /** Attempt `k` came to nothing between these calls: no plan, a write that did not settle, or a window off its target. */
  ghost predicate FellShort(cmd: Command, base: Reduced, captured: seq<Captured>, log: seq<Call>, since: nat, k: nat, from: World,
                            after: nat, to: nat)
  {
    || PlanAt(cmd, base, k, from).None?
    || AnyUnsettled(log, after, to)
    || OffTarget(cmd, base, captured, log, since, k, from, after, to)
  }

  /** A fallback: the draft it planned from, read by call `at`. */
  datatype Try = Try(at: nat, from: World)

  ghost predicate TriedInVain(cmd: Command, base: Reduced, captured: seq<Captured>, log: seq<Call>, since: nat, tries: seq<Try>, i: nat)
    requires i < |tries|
  {
    && MayTry(cmd, base, i + 1) && PlansFrom(cmd, base, captured, log, since, i + 1, tries[i].from)
    && SeenAt(log, tries[i].at, captured, tries[i].from)
    && FellShort(cmd, base, captured, log, since, i + 1, tries[i].from, tries[i].at, if i + 1 < |tries| then tries[i + 1].at else |log|)
  }

  ghost predicate AllTriedInVain(cmd: Command, base: Reduced, captured: seq<Captured>, log: seq<Call>, since: nat, tries: seq<Try>) {
    forall i :: 0 <= i < |tries| ==> TriedInVain(cmd, base, captured, log, since, tries, i)
  }

  /** Every fallback there is was tried, in vain. */
  ghost predicate Exhausted(cmd: Command, base: Reduced, captured: seq<Captured>, log: seq<Call>, since: nat) {
    exists tries :: AllTriedInVain(cmd, base, captured, log, since, tries) && FirstFallback(cmd, base) + |tries| >= cmd.policies
  }

  /** Fallbacks end by an answer that cuts them short, by a window that is gone or unknown, or when there is none left. */
  ghost predicate RetriesEnd(cmd: Command, base: Reduced, captured: seq<Captured>, log: seq<Call>, since: nat, r: Attempt) {
    match r
    case Reached(_) => false
    case CutShort => EndsInterrupted(log)
    case Gave(code) =>
      || (code == "geometry_rejected" && Exhausted(cmd, base, captured, log, since))
      || (code == "inventory_stale" && (StaleSince(log, since, captured) || UnknownPlanned(cmd, base, captured, log, since)))
  }

  /** A fallback planned to write a window its own draft does not know. */
  ghost predicate UnknownPlanned(cmd: Command, base: Reduced, captured: seq<Captured>, log: seq<Call>, since: nat) {
    exists k: nat, from :: MayTry(cmd, base, k) && PlansFrom(cmd, base, captured, log, since, k, from) && PlanAt(cmd, base, k, from).Some?
      && NamesUnknown(PlanAt(cmd, base, k, from).value.writes, PlanAt(cmd, base, k, from).value.draft)
  }

  lemma StaleLater(log: seq<Call>, since: nat, from: nat, captured: seq<Captured>)
    requires since <= from && StaleSince(log, from, captured)
    ensures StaleSince(log, since, captured)
  {
    hide IsStale;
  }

  lemma EndedByReading(cmd: Command, base: Reduced, captured: seq<Captured>, log: seq<Call>, since: nat, from: nat, r: Attempt)
    requires since <= from && !r.Reached? && (r.CutShort? ==> EndsInterrupted(log))
    requires r.Gave? ==> r.code == "inventory_stale" && StaleSince(log, from, captured)
    ensures RetriesEnd(cmd, base, captured, log, since, r)
  {
    hide StaleSince, EndsInterrupted;
    if r.Gave? { StaleLater(log, since, from, captured); }
  }

  lemma EndedByWriting(cmd: Command, base: Reduced, captured: seq<Captured>, log: seq<Call>, since: nat, from: nat, r: Attempt,
                       k: nat, w: World)
    requires since <= from && !r.Reached? && (r.CutShort? ==> EndsInterrupted(log))
    requires MayTry(cmd, base, k) && PlansFrom(cmd, base, captured, log, since, k, w) && PlanAt(cmd, base, k, w).Some?
    requires var plan := PlanAt(cmd, base, k, w).value;
             r.Gave? ==> r.code == "inventory_stale" && (StaleSince(log, from, captured) || NamesUnknown(plan.writes, plan.draft))
    ensures RetriesEnd(cmd, base, captured, log, since, r)
  {
    hide StaleSince, EndsInterrupted, NamesUnknown, PlanAt, MayTry, PlansFrom;
    if r.Gave? && StaleSince(log, from, captured) { StaleLater(log, since, from, captured); }
  }

  lemma NoneTried(cmd: Command, base: Reduced, captured: seq<Captured>, log: seq<Call>, since: nat)
    ensures AllTriedInVain(cmd, base, captured, log, since, [])
  {
    hide TriedInVain;
  }

  lemma NoneLeft(cmd: Command, base: Reduced, captured: seq<Captured>, log: seq<Call>, since: nat, tries: seq<Try>)
    requires AllTriedInVain(cmd, base, captured, log, since, tries) && FirstFallback(cmd, base) + |tries| >= cmd.policies
    ensures RetriesEnd(cmd, base, captured, log, since, Gave("geometry_rejected"))
  {
    hide AllTriedInVain, FirstFallback;
  }

  lemma NoPlanFallsShort(cmd: Command, base: Reduced, captured: seq<Captured>, log: seq<Call>, since: nat, k: nat, from: World, after: nat)
    requires PlanAt(cmd, base, k, from).None?
    ensures FellShort(cmd, base, captured, log, since, k, from, after, |log|)
  {
    hide PlanAt;
  }

  lemma ShortOfTargets(cmd: Command, base: Reduced, captured: seq<Captured>, wrote: seq<Call>, log: seq<Call>, since: nat, k: nat,
                       from: World, after: nat, seen: World, complete: bool)
    requires PlanAt(cmd, base, k, from).Some? && wrote <= log && after <= |log| && SeenLast(log, captured, seen)
    requires Leaves(cmd, base, k, from, log, since, seen)
    requires if complete then !AtTargets(seen, PlanAt(cmd, base, k, from).value.targets) else AnyUnsettled(wrote, after, |wrote|)
    ensures FellShort(cmd, base, captured, log, since, k, from, after, |log|)
  {
    hide PlanAt, Leaves, AtTargets, Unsettled, SeenLast;
    if complete {
      assert log[..|log|] == log;
      assert SeenAt(log, |log|, captured, seen);
    } else {
      var j :| after <= j < |wrote| && Unsettled(wrote[j]);
      assert log[j] == wrote[j];
    }
  }

  lemma SeenThen(log: seq<Call>, more: seq<Call>, captured: seq<Captured>, w: World)
    requires log <= more && SeenLast(log, captured, w)
    ensures SeenAt(more, |log|, captured, w)
  {
    hide SeenLast;
    assert more[..|log|] == log;
  }

  /** The first attempt did not place every window: a write was given up, or a window last read is off its target. */
  ghost predicate Hindered(cmd: Command, base: Reduced, captured: seq<Captured>, log: seq<Call>, since: nat) {
    var plan := PlanAt(cmd, base, 0, base.draft);
    plan.Some? && (SomeGivenUp(log, since, plan.value.writes) || OffTarget(cmd, base, captured, log, since, 0, base.draft, since, |log|))
  }

  /** What keeps a command from placing its windows: a window that is gone or unknown, an answer that cuts it short, or a
      first attempt that was hindered, followed in vain by every fallback the command has. */
  ghost predicate PlacingEnds(cmd: Command, base: Reduced, captured: seq<Captured>, log: seq<Call>, since: nat, r: Attempt) {
    match r
    case Reached(_) => false
    case CutShort => EndsInterrupted(log)
    case Gave(code) =>
      || (code == "geometry_rejected" && Hindered(cmd, base, captured, log, since)
          && (cmd.retries ==> Exhausted(cmd, base, captured, log, since)))
      || (code == "inventory_stale" && (StaleSince(log, since, captured) || UnknownPlanned(cmd, base, captured, log, since)))
  }

  lemma EndedAtOnce(cmd: Command, base: Reduced, captured: seq<Captured>, log: seq<Call>, since: nat, r: Attempt)
    requires !r.Reached? && (r.CutShort? ==> EndsInterrupted(log))
    requires r.Gave? ==> r.code == "inventory_stale" && StaleSince(log, since, captured)
    ensures PlacingEnds(cmd, base, captured, log, since, r)
  {
    hide EndsInterrupted, StaleSince;
  }

  lemma EndedUnplaced(cmd: Command, base: Reduced, captured: seq<Captured>, log: seq<Call>, since: nat)
    requires !cmd.retries && Hindered(cmd, base, captured, log, since)
    ensures PlacingEnds(cmd, base, captured, log, since, Gave("geometry_rejected"))
  {
    hide Hindered;
  }

  lemma EndedFallingBack(cmd: Command, base: Reduced, captured: seq<Captured>, log: seq<Call>, since: nat, r: Attempt)
    requires Hindered(cmd, base, captured, log, since) && (!r.Reached? ==> RetriesEnd(cmd, base, captured, log, since, r))
    ensures !r.Reached? ==> PlacingEnds(cmd, base, captured, log, since, r)
  {
    hide Hindered, Exhausted, StaleSince, UnknownPlanned, EndsInterrupted;
  }

  lemma HinderedByWrite(cmd: Command, base: Reduced, captured: seq<Captured>, log: seq<Call>, since: nat, plan: Plan)
    requires PlanAt(cmd, base, 0, base.draft) == Some(plan) && SomeGivenUp(log, since, plan.writes)
    ensures Hindered(cmd, base, captured, log, since)
  {
    hide SomeGivenUp, OffTarget;
  }

  lemma HinderedByTarget(cmd: Command, base: Reduced, captured: seq<Captured>, log: seq<Call>, since: nat, plan: Plan, w: World)
    requires PlanAt(cmd, base, 0, base.draft) == Some(plan) && since <= |log|
    requires SeenLast(log, captured, w) && Leaves(cmd, base, 0, base.draft, log, since, w) && !AtTargets(w, plan.targets)
    ensures Hindered(cmd, base, captured, log, since)
  {
    hide SomeGivenUp, SeenLast, Leaves, AtTargets, PlanAt;
    assert log[..|log|] == log;
    assert SeenAt(log, |log|, captured, w);
  }

  lemma HinderedStill(cmd: Command, base: Reduced, captured: seq<Captured>, log: seq<Call>, more: seq<Call>, since: nat)
    requires log <= more && since <= |log| && Hindered(cmd, base, captured, log, since)
    ensures Hindered(cmd, base, captured, more, since)
  {
    hide PlanAt, Leaves, SeenLast, AtTargets, Unsettled, Settles;
    var plan := PlanAt(cmd, base, 0, base.draft).value;
    if SomeGivenUp(log, since, plan.writes) {
      var i :| 0 <= i < |plan.writes| && GivenUp(log, since, plan.writes, i);
      GivenUpStill(log, more, since, plan.writes, i);
    } else {
      var n: nat, w :| since <= n <= |log| && SeenAt(log, n, captured, w) && Leaves(cmd, base, 0, base.draft, log, since, w)
                       && !AtTargets(w, plan.targets);
      LeavesGrows(cmd, base, 0, base.draft, log, more, since, w);
      assert more[..n] == log[..n];
      assert SeenAt(more, n, captured, w);
    }
  }

  lemma GivenUpStill(log: seq<Call>, more: seq<Call>, since: nat, writes: seq<PlannedWrite>, i: nat)
    requires log <= more && i < |writes| && GivenUp(log, since, writes, i)
    ensures GivenUp(more, since, writes, i)
  {
    hide Unsettled, Settles;
    assert more[since + i] == log[since + i];
    if !log[since + i].writing.Refused? {
      var j :| since + |writes| <= j < |log| && log[j].Write? && log[j].id == writes[i].id && log[j].frame == writes[i].frame
               && Unsettled(log[j]);
      assert more[j] == log[j];
    }
  }

  lemma FellShortGrows(cmd: Command, base: Reduced, captured: seq<Captured>, log: seq<Call>, more: seq<Call>, since: nat, k: nat,
                       from: World, after: nat, to: nat, later: nat)
    requires log <= more && to <= |log| && to <= later <= |more| && FellShort(cmd, base, captured, log, since, k, from, after, to)
    ensures FellShort(cmd, base, captured, more, since, k, from, after, later)
  {
    hide PlanAt, Leaves, SeenLast, AtTargets, Unsettled;
    if AnyUnsettled(log, after, to) {
      var j :| after <= j < to && Unsettled(log[j]);
      assert more[j] == log[j];
    } else if PlanAt(cmd, base, k, from).Some? {
      var n: nat, w :| after <= n <= to && SeenAt(log, n, captured, w) && Leaves(cmd, base, k, from, log, since, w)
                       && !AtTargets(w, PlanAt(cmd, base, k, from).value.targets);
      LeavesGrows(cmd, base, k, from, log, more, since, w);
      assert more[..n] == log[..n];
      assert SeenAt(more, n, captured, w);
    }
  }

  /** One more fallback in vain. */
  lemma TriedAgain(cmd: Command, base: Reduced, captured: seq<Captured>, log: seq<Call>, more: seq<Call>, since: nat,
                   tries: seq<Try>, next: Try)
    requires log <= more && AllTriedInVain(cmd, base, captured, log, since, tries)
    requires next.at <= |more| && |log| <= next.at && MayTry(cmd, base, |tries| + 1)
    requires PlansFrom(cmd, base, captured, more, since, |tries| + 1, next.from) && SeenAt(more, next.at, captured, next.from)
    requires FellShort(cmd, base, captured, more, since, |tries| + 1, next.from, next.at, |more|)
    ensures AllTriedInVain(cmd, base, captured, more, since, tries + [next])
  {
    hide FellShort, PlansFrom, MayTry, SeenLast;
    var all := tries + [next];
    forall i | 0 <= i < |all| ensures TriedInVain(cmd, base, captured, more, since, all, i) {
      if i < |tries| {
        assert TriedInVain(cmd, base, captured, log, since, tries, i) && all[i] == tries[i];
        PlansFromGrows(cmd, base, captured, log, more, since, i + 1, tries[i].from);
        assert more[..tries[i].at] == log[..tries[i].at];
        var to := if i + 1 < |tries| then tries[i + 1].at else |log|;
        if i + 1 < |tries| {
          assert TriedInVain(cmd, base, captured, log, since, tries, i + 1);
        }
        FellShortGrows(cmd, base, captured, log, more, since, i + 1, tries[i].from, tries[i].at, to,
                       if i + 1 < |all| then all[i + 1].at else |more|);
      }
    }
  }

  ghost predicate NamesUnknown(writes: seq<PlannedWrite>, draft: World) {
    exists i :: 0 <= i < |writes| && writes[i].id !in draft.windows
  }

  lemma SettledNext(log: seq<Call>, more: seq<Call>, start: nat, writes: seq<PlannedWrite>, i: nat)
    requires i < |writes| && log <= more && |more| == |log| + 1 && start <= |log| && Written(log, start, writes[..i])
    requires Settles(more[|log|], writes[i])
    ensures Written(more, start, writes[..i + 1])
  {
    hide Settles, WriteSettled;
    WrittenGrows(log, more, start, start, writes[..i]);
    assert WriteSettled(more, start, writes[i]) by { SettledAt(more, start, |log|, writes[i]); }
    var now := writes[..i + 1];
    forall k | 0 <= k < |now| ensures WriteSettled(more, start, now[k]) {
      if k < i {
        assert now[k] == writes[..i][k];
      }
    }
  }

  lemma SettledAt(log: seq<Call>, since: nat, j: nat, write: PlannedWrite)
    requires since <= j < |log| && Settles(log[j], write)
    ensures WriteSettled(log, since, write)
  {
    hide Settles;
  }

  /** The batch as the adapter answered it, one write after the other. */
  ghost predicate Batched(log: seq<Call>, since: nat, writes: seq<PlannedWrite>, results: seq<Writing>, captured: seq<Captured>) {
    && |results| == |writes| && since + |writes| <= |log|
    && forall i :: 0 <= i < |writes| ==>
         log[since + i] == Write(writes[i].id, writes[i].frame, Expected(captured, writes[i].id), results[i])
  }

  /** The write puts a captured window back. */
  ghost predicate PutsBack(captured: seq<Captured>, call: Call)
    requires call.Write?
  {
    exists c :: 0 <= c < |captured| && captured[c].id == call.id && captured[c].frame == call.frame
                && call.expected == Some(captured[c].identity)
  }

  ghost predicate OnlyPutsBack(captured: seq<Captured>, log: seq<Call>, since: nat) {
    forall j :: since <= j < |log| && !log[j].Read? ==> log[j].Write? && PutsBack(captured, log[j])
  }

  lemma StaleInBatch(log: seq<Call>, since: nat, writes: seq<PlannedWrite>, results: seq<Writing>, captured: seq<Captured>, i: nat)
    requires Batched(log, since, writes, results, captured) && i < |results| && results[i].Stale?
    ensures StaleSince(log, since, captured)
  {
    hide Expected;
    assert log[since + i] == Write(writes[i].id, writes[i].frame, Expected(captured, writes[i].id), results[i]);
    assert IsStale(log[since + i], captured);
  }

  /** The calls about one captured window that only put it back. */
  lemma PutBackCalls(captured: seq<Captured>, start: nat, before: seq<Call>, log: seq<Call>, k: nat)
    requires DistinctIds(captured) && k < |captured| && start <= |before| && before <= log
    requires Guarded(before[start..], captured) && OnlyPutsBack(captured, before, start)
    requires var calls := log[|before|..];
             && (forall j :: 0 <= j < |calls| ==> calls[j].id == captured[k].id)
             && (forall j :: 0 <= j < |calls| && !calls[j].Read? ==>
                   calls[j].Write? && calls[j].frame == captured[k].frame && calls[j].expected == Some(captured[k].identity))
    ensures Guarded(log[start..], captured) && OnlyPutsBack(captured, log, start)
  {
    hide Expected;
    var calls := log[|before|..];
    ExpectedOfCaptured(captured, k);
    assert log[start..] == before[start..] + calls;
    forall j | start <= j < |log| && !log[j].Read? ensures log[j].Write? && PutsBack(captured, log[j]) {
      if j < |before| {
        assert log[j] == before[j];
      } else {
        assert log[j] == calls[j - |before|];
      }
    }
  }

  /** Every write and every focus request was planned by an attempt of the command, or is a write that puts a
      captured window back. */
  ghost predicate Accounted(cmd: Command, working: Option<World>, captured: seq<Captured>, log: seq<Call>, since: nat) {
    forall j :: since <= j < |log| && !log[j].Read? ==>
      || (log[j].Write? && PutsBack(captured, log[j]))
      || (working.Some? && exists k: nat, w :: AskedAt(cmd, cmd.reduce(working.value), captured, log, since, log[j], k, w))
  }

  lemma AllAccounted(cmd: Command, working: Option<World>, captured: seq<Captured>, tried: seq<Call>, log: seq<Call>, since: nat)
    requires since <= |tried| && tried <= log && OnlyPutsBack(captured, log, |tried|)
    requires if working.Some? then OnlyPlanned(cmd, cmd.reduce(working.value), captured, tried, since, since) else |tried| == since
    ensures Accounted(cmd, working, captured, log, since)
  {
    hide AskedAt, PutsBack;
    forall j | since <= j < |tried| && !log[j].Read?
      ensures exists k: nat, w :: AskedAt(cmd, cmd.reduce(working.value), captured, log, since, log[j], k, w)
    {
      assert log[j] == tried[j];
      var k: nat, w :| AskedAt(cmd, cmd.reduce(working.value), captured, tried, since, tried[j], k, w);
      AskedGrows(cmd, cmd.reduce(working.value), captured, tried, log, since, tried[j], k, w);
    }
  }

  /** What the command needs to get as far as writing. */
  ghost predicate Admitted(cmd: Command, world: World, working: Option<World>) {
    && working.Some? && cmd.valid(working.value) && !Idle(cmd, working.value)
    && var base := cmd.reduce(working.value);
       var plan := PlanAt(cmd, base, 0, base.draft);
       plan.Some? && (world.paused ==> plan.value.writes == [])
  }

  /** What keeps a command from writing at all. */
  ghost predicate TurnedAway(cmd: Command, world: World, recovering: bool, working: Option<World>, captured: seq<Captured>, r: Attempt) {
    if recovering then r == Gave("internal_error")
    else if working.None? then r == Gave("inventory_stale")
    else if !cmd.valid(working.value) then r == Gave("rejected")
    else
      var base := cmd.reduce(working.value);
      var plan := PlanAt(cmd, base, 0, base.draft);
      if plan.None? then r == Gave("geometry_rejected")
      else if world.paused && plan.value.writes != [] then r == Gave("paused")
      else r == Gave("defect") && exists i :: 0 <= i < |plan.value.writes| && Expected(captured, plan.value.writes[i].id).None?
  }

  ghost predicate GaveUp(cmd: Command, base: Reduced, captured: seq<Captured>, log: seq<Call>, since: nat, r: Attempt) {
    PlacingEnds(cmd, base, captured, log, since, r) || FocusFails(cmd, base, captured, log, since, r)
  }

  /** What was learned was offered to the store in vain. */
  ghost predicate NotSaved(before: seq<StoreCall>, log: seq<StoreCall>) {
    before <= log && !EndsStored(log[|before|..])
  }

  /** Why a command gave up, told by the calls up to then: turned away, windows or focus not obtained, or learning not saved. */
  ghost predicate Explained(cmd: Command, world: World, recovering: bool, working: Option<World>, captured: seq<Captured>,
                            log: seq<Call>, since: nat, before: seq<StoreCall>, stored: seq<StoreCall>, r: Attempt)
  {
    || TurnedAway(cmd, world, recovering, working, captured, r)
    || (working.Some? && GaveUpBy(cmd, cmd.reduce(working.value), captured, log, since, r))
    || (r == Gave("internal_error") && NotSavedBy(before, stored))
  }

  ghost predicate GaveUpBy(cmd: Command, base: Reduced, captured: seq<Captured>, log: seq<Call>, since: nat, r: Attempt) {
    exists n: nat :: since <= n <= |log| && GaveUp(cmd, base, captured, log[..n], since, r)
  }

  ghost predicate NotSavedBy(before: seq<StoreCall>, stored: seq<StoreCall>) {
    exists n: nat :: n <= |stored| && NotSaved(before, stored[..n])
  }

  lemma GaveUpWhy(cmd: Command, base: Reduced, captured: seq<Captured>, log: seq<Call>, since: nat, r: Attempt)
    requires since <= |log|
    requires PlacingEnds(cmd, base, captured, log, since, r) || FocusFails(cmd, base, captured, log, since, r)
    ensures GaveUpBy(cmd, base, captured, log, since, r)
  {
    hide PlacingEnds, FocusFails;
    assert GaveUp(cmd, base, captured, log, since, r);
    GaveUpNow(cmd, base, captured, log, since, r);
  }

  lemma GaveUpNow(cmd: Command, base: Reduced, captured: seq<Captured>, log: seq<Call>, since: nat, r: Attempt)
    requires since <= |log| && GaveUp(cmd, base, captured, log, since, r)
    ensures GaveUpBy(cmd, base, captured, log, since, r)
  {
    hide GaveUp;
    assert log[..|log|] == log;
  }

  lemma NotStored(before: seq<StoreCall>, calls: seq<StoreCall>)
    requires !EndsStored(calls)
    ensures NotSavedBy(before, before + calls)
  {
    hide EndsStored;
    assert (before + calls)[|before|..] == calls;
    NotSavedNow(before, before + calls);
  }

  lemma NotSavedNow(before: seq<StoreCall>, stored: seq<StoreCall>)
    requires NotSaved(before, stored)
    ensures NotSavedBy(before, stored)
  {
    hide NotSaved;
    assert stored[..|stored|] == stored;
  }

  lemma ExplainedStill(cmd: Command, world: World, recovering: bool, working: Option<World>, captured: seq<Captured>,
                       log: seq<Call>, more: seq<Call>, since: nat, before: seq<StoreCall>, stored: seq<StoreCall>,
                       later: seq<StoreCall>, r: Attempt)
    requires log <= more && stored <= later
    requires Explained(cmd, world, recovering, working, captured, log, since, before, stored, r)
    ensures Explained(cmd, world, recovering, working, captured, more, since, before, later, r)
  {
    hide TurnedAway, GaveUp, NotSaved;
    if working.Some? && GaveUpBy(cmd, cmd.reduce(working.value), captured, log, since, r) {
      var base := cmd.reduce(working.value);
      var n: nat :| since <= n <= |log| && GaveUp(cmd, base, captured, log[..n], since, r);
      assert more[..n] == log[..n];
    }
    if NotSavedBy(before, stored) {
      var n: nat :| n <= |stored| && NotSaved(before, stored[..n]);
      assert later[..n] == stored[..n];
    }
  }

  /** A tracked window could not be read, and nothing was written. */
  ghost predicate NotCaptured(log: seq<Call>, since: nat, tracked: seq<WindowId>, r: Attempt) {
    && since < |log| && OnlyReads(log[since..])
    && var last := log[|log| - 1];
       last.Read? && last.id in tracked && !last.reading.Seen?
       && r == if last.reading.ReadInterrupted? then CutShort else Gave("inventory_stale")
  }

  lemma NothingPutBack(captured: seq<Captured>, log: seq<Call>)
    ensures OnlyPutsBack(captured, log, |log|)
  {
    hide PutsBack;
  }

  lemma GuardedNothing(captured: seq<Captured>)
    ensures Guarded([], captured)
  {
  }

  /** Calls about captured windows are guarded by what was captured. */
  ghost predicate MatchesCapture(log: seq<Call>, captured: seq<Captured>) {
    forall i :: 0 <= i < |log| && !log[i].Read? ==> log[i].expected == Expected(captured, log[i].id)
  }

  lemma MatchesAppend(before: seq<Call>, log: seq<Call>, start: nat, captured: seq<Captured>)
    requires start <= |before| && before <= log
    requires MatchesCapture(before[start..], captured)
    requires MatchesCapture(log[|before|..], captured) || OnlyReads(log[|before|..])
    ensures MatchesCapture(log[start..], captured)
  {
    assert log[start..] == before[start..] + log[|before|..];
  }

  /** The store a write's evidence leads to is believed from then on, and is still to be saved; without evidence nothing
      is learned. */
  predicate Taught(evidence: seq<Option<Store>>, before: Memory, later: Memory) {
    if evidence != [] && evidence[0].Some? && evidence[0].value != before.learning
    then later == before.(learning := evidence[0].value, dirty := true)
    else later == before
  }

  /** A window that went to its parking place leaves the place read back as parked intent. */
  function Parking(draft: World, write: PlannedWrite, observed: Frame): World {
    if write.parksIn.None? then draft else
      var i := Named(draft.workspaces, write.parksIn.value);
      if i == |draft.workspaces| then draft
      else draft.(workspaces := draft.workspaces[i := draft.workspaces[i].(parked := draft.workspaces[i].parked[write.id := observed])])
  }

  /** A window written to its parking place has, in that workspace, the place it settled at as its parked one; nothing
      else is parked anew. */
  ghost predicate RemembersPlace(log: seq<Call>, since: nat, write: PlannedWrite, draft: World, later: World) {
    exists j :: since <= j < |log| && Settles(log[j], write) && ParkedAt(draft, later, write, log[j].writing.observed)
  }

  ghost predicate ParkedAt(draft: World, later: World, write: PlannedWrite, place: Frame) {
    && |later.workspaces| == |draft.workspaces|
    && forall i :: 0 <= i < |draft.workspaces| ==>
         var ws := draft.workspaces[i];
         later.workspaces[i] == if write.parksIn == Some(ws.name) && forall k :: 0 <= k < i ==> draft.workspaces[k].name != ws.name
                                then ws.(parked := ws.parked[write.id := place]) else ws
  }

  lemma ParkingRemembers(log: seq<Call>, since: nat, j: nat, draft: World, write: PlannedWrite)
    requires since <= j < |log| && Settles(log[j], write)
    ensures var observed := log[j].writing.observed;
            RemembersPlace(log, since, write, draft, Parking(Placed(draft, write.id, observed), write, observed))
  {
    var observed := log[j].writing.observed;
    assert ParkedAt(draft, Parking(Placed(draft, write.id, observed), write, observed), write, observed);
  }

  lemma PlacedStill(writes: seq<PlannedWrite>, draft: World, k: nat, observed: Frame, place: Frame)
    requires k < |writes|
    ensures StillDraft(writes, draft, Parking(Placed(draft, writes[k].id, observed), writes[k], place))
    ensures Parking(Placed(draft, writes[k].id, observed), writes[k], place).windows == Placed(draft, writes[k].id, observed).windows
  {
    hide Named;
    var later := Parking(Placed(draft, writes[k].id, observed), writes[k], place);
    forall i | 0 <= i < |draft.workspaces| ensures SameButParked(writes, later.workspaces[i], draft.workspaces[i]) {
      if later.workspaces[i] != draft.workspaces[i] {
        assert Parks(writes, writes[k].id, draft.workspaces[i].name);
      }
    }
  }

  lemma StillItself(writes: seq<PlannedWrite>, draft: World)
    ensures StillDraft(writes, draft, draft)
  {
  }

  lemma StillDraftChain(writes: seq<PlannedWrite>, a: World, b: World, c: World)
    requires StillDraft(writes, a, b) && StillDraft(writes, b, c)
    ensures StillDraft(writes, a, c)
  {
    hide Parks;
    forall i | 0 <= i < |a.workspaces| ensures SameButParked(writes, c.workspaces[i], a.workspaces[i]) {
      assert SameButParked(writes, b.workspaces[i], a.workspaces[i]);
      assert SameButParked(writes, c.workspaces[i], b.workspaces[i]);
    }
  }

  // ---------------------------------------------------------------- what a commit means for the layout

  /** Epoch, focus, and every workspace but for its parked places. */
  ghost predicate SameLayout(a: World, b: World) {
    && a == b.(windows := a.windows, workspaces := a.workspaces) && |a.workspaces| == |b.workspaces|
    && forall i :: 0 <= i < |a.workspaces| ==> a.workspaces[i] == b.workspaces[i].(parked := a.workspaces[i].parked)
  }

  /** A planner that only finds places, as the program's does: it changes workspaces in their parked places alone. */
  ghost predicate PlansPlaces(cmd: Command) {
    forall w, intents, policy ::
      cmd.plan(w, intents, policy).Some? ==> SameLayout(cmd.plan(w, intents, policy).value.draft, w)
  }

  ghost predicate KeepsEpoch(cmd: Command) {
    && (forall w :: cmd.reduce(w).draft.epoch == w.epoch)
    && (forall w, intents, policy ::
          cmd.plan(w, intents, policy).Some? ==> cmd.plan(w, intents, policy).value.draft.epoch == w.epoch)
  }

  lemma SameLayoutChain(a: World, b: World, c: World)
    requires SameLayout(a, b) && SameLayout(b, c)
    ensures SameLayout(a, c)
  {
  }

  lemma LeavesLayout(cmd: Command, base: Reduced, k: nat, from: World, log: seq<Call>, since: nat, later: World)
    requires PlansPlaces(cmd) && Leaves(cmd, base, k, from, log, since, later)
    ensures SameLayout(later, from)
  {
    hide WindowsFollow, PolicyAt;
    var plan := PlanAt(cmd, base, k, from);
    if plan.Some? {
      forall i | 0 <= i < |later.workspaces|
        ensures later.workspaces[i] == plan.value.draft.workspaces[i].(parked := later.workspaces[i].parked)
      {
        if k == 0 {
          assert SameButParked(plan.value.writes, later.workspaces[i], plan.value.draft.workspaces[i]);
        }
      }
      SameLayoutChain(later, plan.value.draft, from);
    }
  }

  lemma {:induction false} DraftsKeepLayout(cmd: Command, base: Reduced, captured: seq<Captured>, log: seq<Call>, since: nat,
                                            k: nat, from: World)
    requires PlansPlaces(cmd) && PlansFrom(cmd, base, captured, log, since, k, from)
    ensures SameLayout(from, base.draft)
    decreases k
  {
    hide PlansPlaces, Leaves, SeenAt;
    if k > 0 {
      var before :| PlansFrom(cmd, base, captured, log, since, k - 1, before)
                    && Leaves(cmd, base, k - 1, before, log, since, from);
      DraftsKeepLayout(cmd, base, captured, log, since, k - 1, before);
      LeavesLayout(cmd, base, k - 1, before, log, since, from);
      SameLayoutChain(from, before, base.draft);
    }
  }

  lemma {:induction false} SameHome(a: seq<Workspace>, b: seq<Workspace>, id: WindowId)
    requires |a| == |b| && forall i :: 0 <= i < |a| ==> a[i] == b[i].(parked := a[i].parked)
    ensures Home(a, id) == Home(b, id)
  {
    if a != [] {
      SameHome(a[1..], b[1..], id);
    }
  }

  /** Focusing a window changes the same things in two worlds of one layout. */
  lemma FocusedAlike(a: World, b: World, id: WindowId)
    requires SameLayout(a, b) && a.windows == b.windows
    ensures SameLayout(WithFocus(a, id), WithFocus(b, id))
  {
    hide Home;
    SameHome(a.workspaces, b.workspaces, id);
    var i := Home(a.workspaces, id);
    if i < |a.workspaces| {
      assert a.workspaces[i] == b.workspaces[i].(parked := a.workspaces[i].parked);
    }
  }

  /** What the command decided on: the reducer's draft, and the focus of a command that has its own. */
  ghost function Decided(cmd: Command, base: Reduced, captured: seq<Captured>, windows: map<WindowId, Observation>): World {
    var first := PlanAt(cmd, base, 0, base.draft);
    var target := if first.Some? then FocusTarget(cmd, first.value.draft, captured) else None;
    var draft := base.draft.(windows := windows);
    if target.None? then draft else WithFocus(draft, target.value)
  }

  lemma FocusKeepsDecision(cmd: Command, base: Reduced, captured: seq<Captured>, log: seq<Call>, since: nat, placed: World,
                           final: World)
    requires SameLayout(placed, base.draft) && AfterFocus(cmd, base, captured, log, since, placed, final)
    ensures SameLayout(final, Decided(cmd, base, captured, final.windows))
  {
    hide PlanAt, FocusTarget, FocusObtained, WithFocus;
    var draft := base.draft.(windows := placed.windows);
    assert SameLayout(placed, draft);
    var first := PlanAt(cmd, base, 0, base.draft);
    var target := FocusTarget(cmd, first.value.draft, captured);
    if target.Some? {
      FocusMovesNothing(placed, target.value);
      FocusedAlike(placed, draft, target.value);
    }
  }

  lemma FocusMovesNothing(w: World, id: WindowId)
    ensures var f := WithFocus(w, id);
            f.windows == w.windows && f.epoch == w.epoch && f.focusIntent == Some(id)
  {
  }

  /** Whatever went wrong on the way, a commit has the layout the command decided on: no tree, no member, no
      visibility and no focus is lost or made up by the attempts to place the windows. */
  lemma CommitHasTheReducersLayout(cmd: Command, base: Reduced, captured: seq<Captured>, log: seq<Call>, since: nat, final: World)
    requires PlansPlaces(cmd) && Commits(cmd, base, captured, log, since, final)
    ensures SameLayout(final, Decided(cmd, base, captured, final.windows))
  {
    hide PlansPlaces, Leaves, PlansFrom, Verified, MayTry, AfterFocus, Decided;
    var placed :| PlacesAll(cmd, base, captured, log, since, placed) && AfterFocus(cmd, base, captured, log, since, placed, final);
    var k: nat, from :| PlacesAt(cmd, base, captured, log, since, placed, k, from);
    DraftsKeepLayout(cmd, base, captured, log, since, k, from);
    LeavesLayout(cmd, base, k, from, log, since, placed);
    SameLayoutChain(placed, from, base.draft);
    FocusKeepsDecision(cmd, base, captured, log, since, placed, final);
  }

  lemma {:induction false} DraftsKeepEpoch(cmd: Command, base: Reduced, captured: seq<Captured>, log: seq<Call>, since: nat,
                                           k: nat, from: World)
    requires KeepsEpoch(cmd) && PlansFrom(cmd, base, captured, log, since, k, from)
    ensures from.epoch == base.draft.epoch
    decreases k
  {
    hide WindowsFollow, SeenAt, SameButParked, PolicyAt;
    if k > 0 {
      var before :| PlansFrom(cmd, base, captured, log, since, k - 1, before)
                    && Leaves(cmd, base, k - 1, before, log, since, from);
      DraftsKeepEpoch(cmd, base, captured, log, since, k - 1, before);
    }
  }

  lemma CommitKeepsEpoch(cmd: Command, working: World, captured: seq<Captured>, log: seq<Call>, since: nat, final: World)
    requires KeepsEpoch(cmd) && Commits(cmd, cmd.reduce(working), captured, log, since, final)
    ensures final.epoch == working.epoch
  {
    var base := cmd.reduce(working);
    hide WindowsFollow, SameButParked, PolicyAt, PlansFrom, Verified, MayTry, WithFocus, FocusTarget, FocusObtained;
    var placed :| PlacesAll(cmd, base, captured, log, since, placed) && AfterFocus(cmd, base, captured, log, since, placed, final);
    var k: nat, from :| PlacesAt(cmd, base, captured, log, since, placed, k, from);
    DraftsKeepEpoch(cmd, base, captured, log, since, k, from);
    forall id ensures WithFocus(placed, id).epoch == placed.epoch {
      FocusMovesNothing(placed, id);
    }
  }

  // ---------------------------------------------------------------- guards

  lemma GuardedAppend(before: seq<Call>, log: seq<Call>, start: nat, captured: seq<Captured>)
    requires start <= |before| && before <= log
    requires Guarded(before[start..], captured)
    requires Guarded(log[|before|..], captured) || OnlyReads(log[|before|..])
    ensures Guarded(log[start..], captured)
  {
    assert log[start..] == before[start..] + log[|before|..];
  }

  lemma ReadsAreGuarded(log: seq<Call>, captured: seq<Captured>)
    requires OnlyReads(log)
    ensures Guarded(log, captured)
  {
  }

  lemma GuardedMatches(log: seq<Call>, captured: seq<Captured>)
    requires Guarded(log, captured)
    ensures MatchesCapture(log, captured)
  {
  }

  lemma CapturedAreDistinct(log: seq<Call>, captured: seq<Captured>, ids: seq<WindowId>)
    requires AsCaptured(log, captured, ids) && forall i, j :: 0 <= i < j < |ids| ==> ids[i] != ids[j]
    ensures DistinctIds(captured) && OnlyReads(log)
  {
  }

  /** The whole log: the captured readings, then the rest. */
  lemma ConcludedLog(start: seq<Call>, taken: seq<Call>, log: seq<Call>, captured: seq<Captured>, retries: bool)
    requires start <= taken <= log && OnlyReads(taken[|start|..]) && |taken| == |start| + |captured|
    requires !retries ==> Guarded(log[|taken|..], captured)
    ensures log[|start|..][..|captured|] == taken[|start|..]
    ensures log == taken ==> OnlyReads(log[|start|..])
    ensures !retries ==> Guarded(log[|start|..], captured)
    ensures forall k :: 0 <= k < |captured| && ReadBack(log[|taken|..], captured[k]) ==> ReadBack(log[|start|..], captured[k])
  {
    assert log[|start|..] == taken[|start|..] + log[|taken|..];
    forall k | 0 <= k < |captured| && ReadBack(log[|taken|..], captured[k]) ensures ReadBack(log[|start|..], captured[k]) {
      ReadBackAfter(taken[|start|..], log[|taken|..], captured[k]);
    }
  }

  lemma RolledBack(start: seq<Call>, tried: seq<Call>, log: seq<Call>, captured: seq<Captured>, retries: bool)
    requires start <= tried <= log && Guarded(log[|tried|..], captured)
    requires !retries ==> Guarded(tried[|start|..], captured)
    ensures !retries ==> Guarded(log[|start|..], captured)
    ensures forall k :: 0 <= k < |captured| && ReadBack(log[|tried|..], captured[k]) ==> ReadBack(log[|start|..], captured[k])
  {
    assert log[|start|..] == tried[|start|..] + log[|tried|..];
    forall k | 0 <= k < |captured| && ReadBack(log[|tried|..], captured[k]) ensures ReadBack(log[|start|..], captured[k]) {
      ReadBackAfter(tried[|start|..], log[|tried|..], captured[k]);
    }
  }

  // ---------------------------------------------------------------- the engine

  class CompoundEngine {
    var world: World
    var memory: Memory
    var reconcileAgain: bool
    var recovering: bool
    var health: Health
    var published: seq<string>
    const adapter: Adapter
    const store: StoreFile

    /** The world shows the profiles that are currently believed. */
    predicate InSync()
      reads this
    {
      world.profiles == memory.learning.profiles
    }

    constructor (world: World, memory: Memory, adapter: Adapter, store: StoreFile)
      requires world.profiles == memory.learning.profiles
      ensures InSync() && this.world == world && this.memory == memory && this.adapter == adapter && this.store == store
    {
      this.world, this.memory, this.adapter, this.store := world, memory, adapter, store;
      reconcileAgain, recovering, health, published := false, false, Healthy, [];
    }

    method Learn(learned: Store)
      requires InSync()
      modifies `world, `memory
      ensures InSync() && world == old(world).(profiles := learned.profiles)
      ensures memory.learning == learned && memory == old(memory).(learning := learned, dirty := memory.dirty)
      ensures learned != old(memory).learning ==> memory.dirty
      ensures learned == old(memory).learning ==> memory == old(memory)
    {
      if learned != memory.learning {
        memory := memory.(learning := learned, dirty := true);
        world := world.(profiles := learned.profiles);
      }
    }

    /** Save what was learned. A concurrent writer's document is merged under the local changes and offered again,
        at most four times; success means that what is believed is what the store holds. */
    method PersistLearning() returns (ok: bool, ghost calls: seq<StoreCall>)
      requires InSync()
      modifies this, store
      ensures InSync() && world == old(world).(profiles := memory.learning.profiles)
      ensures recovering == old(recovering) && published == old(published)
      ensures ok && old(memory).dirty ==> memory.learning == memory.persisted && !memory.dirty
      ensures !old(memory).dirty ==> ok && memory == old(memory) && world == old(world) && health == old(health)
      ensures health == old(health) || health.Degraded?
      ensures store.log == old(store.log) + calls && (!old(memory).dirty ==> calls == [])
      ensures var start := Holding(old(memory).persisted, old(memory).revision, old(memory).learning);
              && SavesInTurn(start, calls)
              && Holding(memory.persisted, memory.revision, memory.learning) == HoldingAfter(start, calls)
              && (old(memory).dirty ==> (ok <==> EndsStored(calls)))
      ensures !ok ==> Offers(calls) == SAVE_ATTEMPTS || NoUseOffering(calls)
    {
      hide SavesInTurn, HoldingAfter, Offers, MergeLearningChanges, NoUseOffering, MayOffer, EndsStored;
      ghost var start := Holding(memory.persisted, memory.revision, memory.learning);
      calls := [];
      NothingOffered(start);
      if !memory.dirty {
        return true, [];
      }
      var attempt := 0;
      while attempt < SAVE_ATTEMPTS
        invariant InSync() && world == old(world).(profiles := memory.learning.profiles)
        invariant recovering == old(recovering) && published == old(published) && health == old(health)
        invariant 0 <= attempt <= SAVE_ATTEMPTS
        invariant store.log == old(store.log) + calls
        invariant SavesInTurn(start, calls) && Offers(calls) == attempt && !EndsStored(calls)
        invariant Holding(memory.persisted, memory.revision, memory.learning) == HoldingAfter(start, calls)
        invariant MayOffer(calls)
      {
        var base, local := memory.persisted, memory.learning;
        var saved := store.Save(memory.revision, local);
        OfferInTurn(start, calls, Offered(memory.revision, local, saved));
        calls := calls + [Offered(memory.revision, local, saved)];
        match saved {
          case Saved(revision, document) =>
            memory := Memory(document, document, revision, false, false);
            world := world.(profiles := document.profiles);
            return true, calls;
          case SavedUndurably(revision, document) =>
            memory := Memory(document, document, revision, true, false);
            world := world.(profiles := document.profiles);
            health := Degraded("observation_store_durability");
            return true, calls;
          case Busy =>
            if attempt == SAVE_ATTEMPTS - 1 { return false, calls; }
          case Conflict =>
            if attempt == SAVE_ATTEMPTS - 1 { return false, calls; }
            var snapshot := store.Load();
            FetchInTurn(start, calls, Fetched(snapshot));
            calls := calls + [Fetched(snapshot)];
            if snapshot.None? {
              NoUse(calls, calls[|calls| - 1]);
              return false, calls;
            }
            var (revision, remote) := snapshot.value;
            var merged := MergeLearningChanges(base, local, remote);
            memory := Memory(merged, remote, revision, memory.failed, true);
            reconcileAgain := true;
            world := world.(profiles := merged.profiles);
          case SaveFailed =>
            NoUse(calls, calls[|calls| - 1]);
            return false, calls;
        }
        attempt := attempt + 1;
      }
      return false, calls;
    }

    method PersistBestEffort()
      requires InSync()
      modifies this, store
      ensures InSync() && world == old(world).(profiles := memory.learning.profiles)
      ensures recovering == old(recovering) && published == old(published) && old(store.log) <= store.log
      ensures health == old(health) || health.Degraded?
      ensures !memory.dirty && memory.learning == (if old(memory).dirty then memory.persisted else old(memory).learning)
    {
      var ok, _ := PersistLearning();
      if !ok {
        memory := memory.(learning := memory.persisted, dirty := false, failed := true);
        world := world.(profiles := memory.learning.profiles);
        health := Degraded("observation_store");
      }
    }

    // -------------------------------------------------------------- capture

    /** Identity and frame of every window the command may touch, read before anything is changed. */
    method Capture(ids: seq<WindowId>) returns (captured: Option<seq<Captured>>, interrupted: bool)
      modifies adapter
      ensures old(adapter.log) <= adapter.log && OnlyReads(adapter.log[|old(adapter.log)|..])
      ensures captured.Some? ==> !interrupted && AsCaptured(adapter.log[|old(adapter.log)|..], captured.value, ids)
      ensures captured.None? ==> ids != []
      ensures captured.None? ==>
                NotCaptured(adapter.log, |old(adapter.log)|, ids, if interrupted then CutShort else Gave("inventory_stale"))
      ensures adapter.inventories == old(adapter.inventories)
    {
      var caps: seq<Captured> := [];
      var i := 0;
      while i < |ids|
        invariant 0 <= i <= |ids|
        invariant old(adapter.log) <= adapter.log && AsCaptured(adapter.log[|old(adapter.log)|..], caps, ids[..i])
        invariant adapter.inventories == old(adapter.inventories)
      {
        var reading := adapter.GetWindow(ids[i]);
        if !reading.Seen? {
          return None, reading.ReadInterrupted?;
        }
        caps := caps + [Captured(ids[i], reading.window.identity, reading.window.frame)];
        i := i + 1;
      }
      return Some(caps), false;
    }

    // -------------------------------------------------------------- rollback

    /** Put one captured window back, unless it is gone, replaced, or refuses. */
    method RestoreOne(cap: Captured) returns (restored: bool)
      modifies adapter
      ensures old(adapter.log) <= adapter.log
      ensures var calls := adapter.log[|old(adapter.log)|..];
              && (forall j :: 0 <= j < |calls| ==> calls[j].id == cap.id)
              && (restored <==> ReadBack(calls, cap))
              && calls != [] && calls[0].Read?
              && (var now := calls[0].reading;
                  if now.Seen? && now.window.identity == cap.identity && !WithinTolerance(now.window.frame, cap.frame, TOLERANCE)
                  then |calls| == 2 && calls[1].Write? else |calls| == 1)
              && (forall j :: 0 <= j < |calls| && !calls[j].Read? ==>
                    calls[j].Write? && calls[j].frame == cap.frame && calls[j].expected == Some(cap.identity))
    {
      ghost var start := |adapter.log|;
      var now := adapter.GetWindow(cap.id);
      assert adapter.log[start..] == [Read(cap.id, now)];
      if !now.Seen? || now.window.identity != cap.identity {
        return false;
      }
      if WithinTolerance(now.window.frame, cap.frame, TOLERANCE) {
        ReadBackByLast([], Read(cap.id, now), cap);
        assert [] + [Read(cap.id, now)] == adapter.log[start..];
        return true;
      }
      var written := adapter.SetWindowFrame(cap.id, cap.frame, Some(cap.identity));
      assert adapter.log[start..] == [Read(cap.id, now)] + [Write(cap.id, cap.frame, Some(cap.identity), written)];
      if written.Wrote? && WithinTolerance(written.observed, cap.frame, TOLERANCE) {
        ReadBackByLast([Read(cap.id, now)], Write(cap.id, cap.frame, Some(cap.identity), written), cap);
        return true;
      }
      return false;
    }

    /** The compensation pass, last captured window first. */
    method RestoreAll(captured: seq<Captured>) returns (complete: bool)
      requires DistinctIds(captured)
      modifies adapter
      ensures old(adapter.log) <= adapter.log
      ensures complete <==> forall k :: 0 <= k < |captured| ==> ReadBack(adapter.log[|old(adapter.log)|..], captured[k])
      ensures Guarded(adapter.log[|old(adapter.log)|..], captured)
      ensures OnlyPutsBack(captured, adapter.log, |old(adapter.log)|)
    {
      hide ReadBack, Guarded, OnlyPutsBack, Expected;
      ghost var start := adapter.log;
      complete := true;
      var k := |captured|;
      GuardedNothing(captured);
      NothingPutBack(captured, start);
      assert start[|start|..] == [];
      while k > 0
        invariant 0 <= k <= |captured|
        invariant start <= adapter.log
        invariant complete <==> forall m :: k <= m < |captured| ==> ReadBack(adapter.log[|start|..], captured[m])
        invariant Guarded(adapter.log[|start|..], captured)
        invariant OnlyPutsBack(captured, adapter.log, |start|)
      {
        ghost var before := adapter.log;
        var restored := RestoreOne(captured[k - 1]);
        ghost var more := adapter.log[|before|..];
        PutBackCalls(captured, |start|, before, adapter.log, k - 1);
        assert adapter.log[|start|..] == before[|start|..] + more;
        forall m | k <= m < |captured|
          ensures ReadBack(adapter.log[|start|..], captured[m]) <==> ReadBack(before[|start|..], captured[m])
        {
          assert captured[k - 1].id != captured[m].id;
          if ReadBack(before[|start|..], captured[m]) {
            ReadBackStands(before[|start|..], more, captured[m]);
          }
          if ReadBack(adapter.log[|start|..], captured[m]) {
            ReadBackBefore(before[|start|..], more, captured[m]);
          }
        }
        if restored {
          ReadBackAfter(before[|start|..], more, captured[k - 1]);
        } else {
          if ReadBack(adapter.log[|start|..], captured[k - 1]) {
            ReadBackSince(before[|start|..], more, captured[k - 1]);
            assert false;
          }
          complete := false;
        }
        k := k - 1;
      }
    }

    // -------------------------------------------------------------- rollback

    /** Restore what was learned, unless a fallback taught it, then every captured window. */
    method Rollback(captured: seq<Captured>, before: Memory, keepsLearning: bool)
      requires InSync() && DistinctIds(captured)
      modifies this, adapter, store
      ensures InSync() && world == old(world).(profiles := memory.learning.profiles)
      ensures published == old(published)
      ensures !keepsLearning ==> memory == before
      ensures old(adapter.log) <= adapter.log && Guarded(adapter.log[|old(adapter.log)|..], captured)
      ensures OnlyPutsBack(captured, adapter.log, |old(adapter.log)|)
      ensures (forall k :: 0 <= k < |captured| ==> ReadBack(adapter.log[|old(adapter.log)|..], captured[k])) || health.Degraded?
      ensures !keepsLearning ==>
                health == if forall k :: 0 <= k < |captured| ==> ReadBack(adapter.log[|old(adapter.log)|..], captured[k]) then old(health)
                          else Degraded("rollback_incomplete")
      ensures old(store.log) <= store.log && (!keepsLearning ==> store.log == old(store.log))
    {
      if !keepsLearning {
        memory := before;
        world := world.(profiles := memory.learning.profiles);
      }
      var complete := RestoreAll(captured);
      if !complete {
        health := Degraded("rollback_incomplete");
      }
      if keepsLearning {
        PersistBestEffort();
      }
    }

    // -------------------------------------------------------------- tentative phase

    /** Read every captured window again; a window that changed hands ends the command. */
    method Refresh(draft: World, captured: seq<Captured>) returns (r: Attempt)
      requires DistinctIds(captured)
      modifies adapter
      ensures old(adapter.log) <= adapter.log && OnlyReads(adapter.log[|old(adapter.log)|..])
      ensures r.Reached? ==>
                && r.world == draft.(windows := r.world.windows)
                && WindowsFollow(adapter.log, |old(adapter.log)|, draft, r.world)
                && |adapter.log| == |old(adapter.log)| + |captured| && SeenLast(adapter.log, captured, r.world)
      ensures r.CutShort? ==> EndsInterrupted(adapter.log)
      ensures r.Gave? ==> r.code == "inventory_stale" && StaleSince(adapter.log, |old(adapter.log)|, captured)
      ensures !r.Reached? ==> |adapter.log| > |old(adapter.log)|
    {
      hide WindowsFollow;
      ghost var start := |adapter.log|;
      var windows := draft.windows;
      FollowsItself(adapter.log, start, draft);
      var i := 0;
      while i < |captured|
        invariant 0 <= i <= |captured| && start == |old(adapter.log)| && |adapter.log| == start + i
        invariant old(adapter.log) <= adapter.log && OnlyReads(adapter.log[start..])
        invariant forall m :: 0 <= m < i ==>
                    && captured[m].id in windows && windows[captured[m].id].identity == captured[m].identity
                    && adapter.log[start + m] == Read(captured[m].id, Seen(windows[captured[m].id]))
        invariant WindowsFollow(adapter.log, start, draft, draft.(windows := windows))
      {
        ghost var before, known := adapter.log, draft.(windows := windows);
        var reading := adapter.GetWindow(captured[i].id);
        ExpectedOfCaptured(captured, i);
        if reading.ReadInterrupted? {
          return CutShort;
        }
        if !reading.Seen? || reading.window.identity != captured[i].identity {
          assert IsStale(adapter.log[|before|], captured);
          return Gave("inventory_stale");
        }
        windows := windows[captured[i].id := reading.window];
        SeenFollows(adapter.log, start, start + i, known, captured[i].id, reading.window);
        FollowsChain(before, start, adapter.log, start, draft, known, draft.(windows := windows));
        i := i + 1;
      }
      return Reached(draft.(windows := windows));
    }

    /** What a write taught, if anything. */
    method LearnFromEvidence()
      requires InSync()
      modifies `world, `memory, adapter
      ensures InSync() && world == old(world).(profiles := memory.learning.profiles)
      ensures adapter.log == old(adapter.log)
      ensures Taught(old(adapter.evidence), old(memory), memory)
    {
      var learned := adapter.Evidence();
      if learned.Some? {
        Learn(learned.value);
      }
    }

    /** One write on behalf of a draft: the draft afterwards, or why there is none. */
    method WriteOne(draft: World, write: PlannedWrite, expected: Option<string>) returns (r: Attempt, settled: bool, read: Frame)
      requires InSync()
      modifies `world, `memory, adapter
      ensures InSync() && world == old(world).(profiles := memory.learning.profiles)
      ensures |adapter.log| == |old(adapter.log)| + 1 && old(adapter.log) <= adapter.log
      ensures var call := adapter.log[|old(adapter.log)|];
              && call.Write? && call.id == write.id && call.frame == write.frame && call.expected == expected
              && (r.Reached? ==> call.writing.Wrote? && r.world == Placed(draft, write.id, call.writing.observed))
              && (r.Reached? ==> settled == call.writing.settled && read == call.writing.observed)
              && (r == Gave("rejected") <==> call.writing.Refused?) && (r == Gave("inventory_stale") <==> call.writing.Stale?)
              && (r.CutShort? <==> call.writing.WriteInterrupted?)
              && (r.Gave? ==> r.code == "rejected" || r.code == "inventory_stale")
      ensures if r.Reached? then Taught(old(adapter.evidence), old(memory), memory) else memory == old(memory)
    {
      var written := adapter.SetWindowFrame(write.id, write.frame, expected);
      settled, read := false, write.frame;
      match written {
        case WriteInterrupted => return CutShort, settled, read;
        case Stale => return Gave("inventory_stale"), settled, read;
        case Refused => return Gave("rejected"), settled, read;
        case Wrote(observed, arrived) =>
          LearnFromEvidence();
          return Reached(Placed(draft, write.id, observed)), arrived, observed;
      }
    }

    /** The writes of one plan, each under the captured identity. */
    method WriteAll(draft: World, writes: seq<PlannedWrite>, captured: seq<Captured>) returns (r: Attempt, complete: bool)
      requires InSync()
      modifies `world, `memory, adapter
      ensures InSync() && world == old(world).(profiles := memory.learning.profiles)
      ensures old(adapter.log) <= adapter.log && MatchesCapture(adapter.log[|old(adapter.log)|..], captured)
      ensures OnlyWrites(adapter.log, |old(adapter.log)|, writes, None)
      ensures r.Reached? ==>
                && r.world == draft.(windows := r.world.windows)
                && WindowsFollow(adapter.log, |old(adapter.log)|, draft, r.world)
      ensures r.Reached? && complete ==> Written(adapter.log, |old(adapter.log)|, writes)
      ensures r.Reached? && !complete ==> AnyUnsettled(adapter.log, |old(adapter.log)|, |adapter.log|)
      ensures r.CutShort? ==> EndsInterrupted(adapter.log)
      ensures r.Gave? ==> r.code == "inventory_stale" && (StaleSince(adapter.log, |old(adapter.log)|, captured) || NamesUnknown(writes, draft))
    {
      hide WindowsFollow, SettledSince, Expected;
      ghost var start := |adapter.log|;
      r, complete := Reached(draft), true;
      FollowsItself(adapter.log, start, draft);
      var i := 0;
      while i < |writes|
        invariant 0 <= i <= |writes| && start == |old(adapter.log)|
        invariant InSync() && world == old(world).(profiles := memory.learning.profiles)
        invariant old(adapter.log) <= adapter.log && MatchesCapture(adapter.log[start..], captured)
        invariant OnlyWrites(adapter.log, start, writes, None)
        invariant r.Reached? && complete && r.world == draft.(windows := r.world.windows)
        invariant WindowsFollow(adapter.log, start, draft, r.world)
        invariant r.world.windows.Keys == draft.windows.Keys && Written(adapter.log, start, writes[..i])
      {
        var write := writes[i];
        if write.id !in r.world.windows {
          return Gave("inventory_stale"), false;
        }
        ghost var before := adapter.log;
        var attempt, settled, _ := WriteOne(r.world, write, Expected(captured, write.id));
        assert adapter.log[start..] == before[start..] + [adapter.log[|before|]];
        assert Among(writes, write.id, write.frame);
        FollowsGrows(before, adapter.log, start, draft, r.world);
        if attempt == Gave("rejected") {
          assert Unsettled(adapter.log[|before|]);
          return r, false;
        }
        if !attempt.Reached? {
          return attempt, false;
        }
        PlacedFollows(adapter.log, |before|, |before|, r.world);
        FollowsChain(before, start, adapter.log, |before|, draft, r.world, attempt.world);
        r := attempt;
        if !settled {
          assert Unsettled(adapter.log[|before|]);
          return r, false;
        }
        SettledNext(before, adapter.log, start, writes, i);
        i := i + 1;
      }
      assert writes[..i] == writes;
    }

    /** One fallback: its writes, and a last look at every captured window. */
    method TryPolicy(cmd: Command, base: Reduced, policy: nat, from: World, captured: seq<Captured>, ghost since: nat, ghost k: nat)
      returns (r: Attempt, placed: bool)
      requires InSync() && DistinctIds(captured) && cmd.retries && since <= |adapter.log|
      requires k >= 1 && PolicyAt(cmd, base, k) == Some(policy) && MayTry(cmd, base, k)
      requires PlansFrom(cmd, base, captured, adapter.log, since, k, from)
      modifies `world, `memory, adapter
      ensures InSync() && world == old(world).(profiles := memory.learning.profiles)
      ensures old(adapter.log) <= adapter.log && MatchesCapture(adapter.log[|old(adapter.log)|..], captured)
      ensures OnlyPlanned(cmd, base, captured, adapter.log, since, |old(adapter.log)|)
      ensures placed ==> r.Reached? && PlacesAll(cmd, base, captured, adapter.log, since, r.world)
      ensures r.Reached? && !placed ==>
                && Leaves(cmd, base, k, from, adapter.log, since, r.world)
                && FellShort(cmd, base, captured, adapter.log, since, k, from, |old(adapter.log)|, |adapter.log|)
      ensures !r.Reached? ==> RetriesEnd(cmd, base, captured, adapter.log, since, r)
    {
      hide Leaves, PlansFrom, WindowsFollow, SeenLast, MatchesCapture, OnlyPlanned, OnlyWrites, PlacesAll, Expected, Written, FellShort,
           StaleSince, AtTargets, AnyUnsettled, RetriesEnd, MayTry;
      ghost var read := adapter.log;
      placed := false;
      var plan := cmd.plan(from, base.intents, Some(policy));
      assert PlanAt(cmd, base, k, from) == plan;
      if plan.None? {
        LeavesNothing(cmd, base, k, from, adapter.log, since);
        NoPlanFallsShort(cmd, base, captured, adapter.log, since, k, from, |read|);
        NothingAsked(cmd, base, captured, adapter.log, since);
        GuardedNothing(captured);
        GuardedMatches([], captured);
        assert adapter.log[|read|..] == [];
        return Reached(from), false;
      }
      var written, complete := WriteAll(plan.value.draft, plan.value.writes, captured);
      ghost var wrote := adapter.log;
      PlansFromGrows(cmd, base, captured, read, wrote, since, k, from);
      WritesArePlanned(cmd, base, captured, wrote, since, |read|, k, from, None);
      if !written.Reached? {
        EndedByWriting(cmd, base, captured, adapter.log, since, |read|, written, k, from);
        return written, false;
      }
      LeavesWritten(cmd, base, k, from, plan.value, wrote, since, |read|, written.world);
      var seen := Refresh(written.world, captured);
      MatchesAppend(wrote, adapter.log, |read|, captured);
      ReadsArePlanned(cmd, base, captured, adapter.log, since, |wrote|);
      OnlyPlannedGrows(cmd, base, captured, wrote, adapter.log, since, |read|);
      if !seen.Reached? {
        EndedByReading(cmd, base, captured, adapter.log, since, |wrote|, seen);
        return seen, false;
      }
      PlansFromGrows(cmd, base, captured, wrote, adapter.log, since, k, from);
      LeavesRefreshed(cmd, base, k, from, wrote, adapter.log, since, written.world, seen.world);
      var met := MeetsTargets(seen.world, plan.value.targets);
      if complete && met {
        WrittenGrows(wrote, adapter.log, since, |read|, plan.value.writes);
        PlacedByNow(cmd, base, captured, adapter.log, since, seen.world, k, from);
        return seen, true;
      }
      ShortOfTargets(cmd, base, captured, wrote, adapter.log, since, k, from, |read|, seen.world, complete);
      return seen, false;
    }

    /** Fall back through the remaining policies until one settles at every target. */
    method RetryPolicies(cmd: Command, base: Reduced, start: World, captured: seq<Captured>, ghost since: nat)
      returns (r: Attempt)
      requires InSync() && DistinctIds(captured) && cmd.retries && since <= |adapter.log|
      requires Leaves(cmd, base, 0, base.draft, adapter.log, since, start)
      modifies `world, `memory, adapter
      ensures InSync() && world == old(world).(profiles := memory.learning.profiles)
      ensures old(adapter.log) <= adapter.log && MatchesCapture(adapter.log[|old(adapter.log)|..], captured)
      ensures OnlyPlanned(cmd, base, captured, adapter.log, since, |old(adapter.log)|)
      ensures r.Reached? ==> PlacesAll(cmd, base, captured, adapter.log, since, r.world)
      ensures !r.Reached? ==> RetriesEnd(cmd, base, captured, adapter.log, since, r)
    {
      hide Leaves, PlansFrom, WindowsFollow, SeenLast, MatchesCapture, OnlyPlanned, PlacesAll, AllTriedInVain, FellShort, StaleSince,
           RetriesEnd, PlanAt;
      ghost var logged := |adapter.log|;
      ghost var tries: seq<Try> := [];
      NoneTried(cmd, base, captured, adapter.log, since);
      var own := cmd.plan(base.draft, base.intents, None);
      var draft, policy := start, if own.Some? && own.value.policy.Some? then own.value.policy.value + 1 else 0;
      ghost var k: nat, before: World := 1, base.draft;
      StartsPlanned(cmd, base, captured, adapter.log, since);
      NothingAsked(cmd, base, captured, adapter.log, since);
      GuardedNothing(captured);
      GuardedMatches([], captured);
      assert adapter.log[logged..] == [];
      while policy < cmd.policies
        invariant InSync() && world == old(world).(profiles := memory.learning.profiles)
        invariant logged == |old(adapter.log)| && old(adapter.log) <= adapter.log
        invariant MatchesCapture(adapter.log[logged..], captured)
        invariant OnlyPlanned(cmd, base, captured, adapter.log, since, logged)
        invariant k >= 1 && policy == FirstFallback(cmd, base) + k - 1
        invariant PlansFrom(cmd, base, captured, adapter.log, since, k - 1, before)
        invariant Leaves(cmd, base, k - 1, before, adapter.log, since, draft)
        invariant k == |tries| + 1 && AllTriedInVain(cmd, base, captured, adapter.log, since, tries)
        decreases cmd.policies - policy
      {
        ghost var log := adapter.log;
        var refreshed := Refresh(draft, captured);
        MatchesAppend(log, adapter.log, logged, captured);
        ReadsArePlanned(cmd, base, captured, adapter.log, since, |log|);
        OnlyPlannedGrows(cmd, base, captured, log, adapter.log, since, logged);
        if !refreshed.Reached? {
          EndedByReading(cmd, base, captured, adapter.log, since, |log|, refreshed);
          return refreshed;
        }
        PlansAgain(cmd, base, captured, log, adapter.log, since, k, before, draft, refreshed.world);
        ghost var read, from := adapter.log, refreshed.world;
        var tried, placed := TryPolicy(cmd, base, policy, refreshed.world, captured, since, k);
        MatchesAppend(read, adapter.log, logged, captured);
        OnlyPlannedGrows(cmd, base, captured, read, adapter.log, since, logged);
        if placed || !tried.Reached? {
          return tried;
        }
        PlansFromGrows(cmd, base, captured, read, adapter.log, since, k, from);
        SeenThen(read, adapter.log, captured, from);
        TriedAgain(cmd, base, captured, log, adapter.log, since, tries, Try(|read|, from));
        tries := tries + [Try(|read|, from)];
        draft, before := tried.world, from;
        k, policy := k + 1, policy + 1;
      }
      NoneLeft(cmd, base, captured, adapter.log, since, tries);
      return Gave("geometry_rejected");
    }

    /** The first batch: every planned write once, whatever its fate, then the command's focus. */
    method RunBatch(writes: seq<PlannedWrite>, focus: Option<WindowId>, captured: seq<Captured>)
      returns (results: seq<Writing>, focusing: Option<Focusing>, cut: bool)
      requires forall i :: 0 <= i < |writes| ==> Expected(captured, writes[i].id).Some?
      requires focus.Some? ==> Expected(captured, focus.value).Some?
      modifies adapter
      ensures old(adapter.log) <= adapter.log && Guarded(adapter.log[|old(adapter.log)|..], captured)
      ensures OnlyWrites(adapter.log, |old(adapter.log)|, writes, focus)
      ensures !cut ==> Batched(adapter.log, |old(adapter.log)|, writes, results, captured)
      ensures !cut ==> focusing.Some? == focus.Some?
      ensures !cut && focus.Some? ==> FocusAsked(adapter.log, |old(adapter.log)|, focus.value, focusing.value)
      ensures cut ==> EndsInterrupted(adapter.log)
    {
      results, focusing, cut := [], None, false;
      var i := 0;
      while i < |writes|
        invariant 0 <= i <= |writes| && |results| == i && !cut && |adapter.log| == |old(adapter.log)| + i
        invariant old(adapter.log) <= adapter.log && Guarded(adapter.log[|old(adapter.log)|..], captured)
        invariant OnlyWrites(adapter.log, |old(adapter.log)|, writes, focus)
        invariant Batched(adapter.log, |old(adapter.log)|, writes[..i], results, captured)
      {
        var written := adapter.SetWindowFrame(writes[i].id, writes[i].frame, Expected(captured, writes[i].id));
        assert Among(writes, writes[i].id, writes[i].frame);
        if written.WriteInterrupted? {
          return results, None, true;
        }
        results := results + [written];
        i := i + 1;
      }
      assert writes[..i] == writes;
      if focus.Some? {
        ghost var last := |adapter.log|;
        var answer := adapter.FocusWindow(focus.value, Expected(captured, focus.value));
        assert adapter.log[last] == Focus(focus.value, Expected(captured, focus.value), answer);
        focusing, cut := Some(answer), answer.FocusInterrupted?;
      }
    }

    /** Accept write `i` of the batch by its result, or write once more; None asks for a fallback. */
    method Accept(draft: World, writes: seq<PlannedWrite>, i: nat, first: Writing, captured: seq<Captured>, ghost since: nat)
      returns (r: Option<Attempt>)
      requires InSync() && i < |writes| && Expected(captured, writes[i].id).Some? && since + i < |adapter.log|
      requires adapter.log[since + i] == Write(writes[i].id, writes[i].frame, Expected(captured, writes[i].id), first)
      modifies `world, `memory, adapter
      ensures InSync() && world == old(world).(profiles := memory.learning.profiles)
      ensures old(adapter.log) <= adapter.log && Guarded(adapter.log[|old(adapter.log)|..], captured)
      ensures OnlyWrites(adapter.log, |old(adapter.log)|, writes, None)
      ensures r.Some? && r.value.Reached? ==>
                && StillDraft(writes, draft, r.value.world)
                && WindowsFollow(adapter.log, since, draft, r.value.world)
                && SettledSince(adapter.log, since, writes[i].id, r.value.world)
                && (forall id :: id != writes[i].id && id in r.value.world.windows ==>
                      id in draft.windows && r.value.world.windows[id] == draft.windows[id])
                && WriteSettled(adapter.log, since, writes[i])
                && RemembersPlace(adapter.log, since, writes[i], draft, r.value.world)
      ensures first.Wrote? && first.settled ==> r.Some? && r.value.Reached? && adapter.log == old(adapter.log)
      ensures first.Refused? ==> r.None? && memory == old(memory)
      ensures r.Some? && r.value.Reached? ==> Taught(old(adapter.evidence), old(memory), memory)
      ensures r.None? ==> first.Refused? || (!(first.Wrote? && first.settled) && TriedOnceMore(old(adapter.log), adapter.log, writes[i]))
      ensures r.Some? && r.value.CutShort? ==> EndsInterrupted(adapter.log)
      ensures r.Some? && r.value.Gave? ==>
                r.value.code == "inventory_stale" && |adapter.log| > |old(adapter.log)| && IsStale(adapter.log[|adapter.log| - 1], captured)
    {
      hide Parking, StillDraft, Expected, WindowsFollow, SettledSince;
      var write := writes[i];
      if first.Refused? {
        return None;
      }
      if first.Wrote? && first.settled {
        PlacedStill(writes, draft, i, first.observed, first.observed);
        PlacedFollows(adapter.log, since, since + i, draft);
        SameWindows(adapter.log, since, write.id, draft, Placed(draft, write.id, first.observed),
                    Parking(Placed(draft, write.id, first.observed), write, first.observed));
        LearnFromEvidence();
        SettledAt(adapter.log, since, since + i, write);
        ParkingRemembers(adapter.log, since, since + i, draft, write);
        return Some(Reached(Parking(Placed(draft, write.id, first.observed), write, first.observed)));
      }
      ghost var before := |adapter.log|;
      var again, settled, observed := WriteOne(draft, write, Expected(captured, write.id));
      assert Among(writes, write.id, write.frame);
      match again {
        case Gave(code) => return if code == "rejected" then None else Some(again);
        case CutShort => return Some(again);
        case Reached(placed) =>
          if !settled {
            return None;
          }
          PlacedStill(writes, draft, i, observed, observed);
          PlacedFollows(adapter.log, since, before, draft);
          SameWindows(adapter.log, since, write.id, draft, placed, Parking(placed, write, observed));
          SettledAt(adapter.log, since, before, write);
          ParkingRemembers(adapter.log, since, before, draft, write);
          return Some(Reached(Parking(placed, write, observed)));
      }
    }

    /** Go through the batch's results in order. */
    method AcceptAll(draft: World, writes: seq<PlannedWrite>, results: seq<Writing>, captured: seq<Captured>, ghost since: nat)
      returns (r: Attempt, complete: bool)
      requires InSync() && Batched(adapter.log, since, writes, results, captured)
      requires forall i :: 0 <= i < |writes| ==> Expected(captured, writes[i].id).Some?
      modifies `world, `memory, adapter
      ensures InSync() && world == old(world).(profiles := memory.learning.profiles)
      ensures old(adapter.log) <= adapter.log && Guarded(adapter.log[|old(adapter.log)|..], captured)
      ensures OnlyWrites(adapter.log, |old(adapter.log)|, writes, None)
      ensures r.Reached? ==> StillDraft(writes, draft, r.world) && WindowsFollow(adapter.log, since, draft, r.world)
      ensures r.Reached? && complete ==>
                forall i :: 0 <= i < |writes| ==> SettledSince(adapter.log, since, writes[i].id, r.world)
      ensures r.Reached? && complete ==> Written(adapter.log, since, writes)
      ensures r.Reached? && !complete ==> SomeGivenUp(adapter.log, since, writes)
      ensures r.CutShort? ==> EndsInterrupted(adapter.log)
      ensures r.Gave? ==> r.code == "inventory_stale" && StaleSince(adapter.log, since, captured)
    {
      hide StillDraft, WindowsFollow, SettledSince, Guarded, Expected;
      ghost var start := |adapter.log|;
      r, complete := Reached(draft), true;
      StillItself(writes, draft);
      FollowsItself(adapter.log, since, draft);
      GuardedNothing(captured);
      assert adapter.log[start..] == [];
      var i := 0;
      while i < |writes|
        invariant 0 <= i <= |writes| && start == |old(adapter.log)|
        invariant InSync() && world == old(world).(profiles := memory.learning.profiles)
        invariant old(adapter.log) <= adapter.log && Guarded(adapter.log[start..], captured)
        invariant OnlyWrites(adapter.log, start, writes, None)
        invariant r.Reached? && complete && StillDraft(writes, draft, r.world)
        invariant WindowsFollow(adapter.log, since, draft, r.world)
        invariant forall m :: 0 <= m < i ==> SettledSince(adapter.log, since, writes[m].id, r.world)
        invariant forall m :: 0 <= m < i ==> WriteSettled(adapter.log, since, writes[m])
      {
        ghost var before := adapter.log;
        assert before[since + i] == Write(writes[i].id, writes[i].frame, Expected(captured, writes[i].id), results[i]);
        var accepted := Accept(r.world, writes, i, results[i], captured, since);
        GuardedAppend(before, adapter.log, start, captured);
        FollowsGrows(before, adapter.log, since, draft, r.world);
        if accepted.None? {
          assert adapter.log[since + i] == before[since + i];
          GivenUpNow(adapter.log, since, writes, i, before);
          return r, false;
        }
        if !accepted.value.Reached? {
          return accepted.value, false;
        }
        forall m | 0 <= m < i ensures WriteSettled(adapter.log, since, writes[m]) {
          WriteStaysSettled(before, adapter.log, since, since, writes[m]);
        }
        StillDraftChain(writes, draft, r.world, accepted.value.world);
        FollowsChain(before, since, adapter.log, since, draft, r.world, accepted.value.world);
        forall m | 0 <= m < i ensures SettledSince(adapter.log, since, writes[m].id, accepted.value.world) {
          if writes[m].id != writes[i].id {
            SettledStays(before, adapter.log, since, writes[m].id, r.world, accepted.value.world);
          }
        }
        r := accepted.value;
        i := i + 1;
      }
    }

    /** Batch and acceptance; `complete` unless a write has to be tried some other way. */
    method FirstTry(cmd: Command, base: Reduced, plan: Plan, captured: seq<Captured>)
      returns (r: Attempt, complete: bool, focusing: Option<Focusing>)
      requires InSync() && PlanAt(cmd, base, 0, base.draft) == Some(plan)
      requires forall i :: 0 <= i < |plan.writes| ==> Expected(captured, plan.writes[i].id).Some?
      modifies `world, `memory, adapter
      ensures InSync() && world == old(world).(profiles := memory.learning.profiles)
      ensures old(adapter.log) <= adapter.log && Guarded(adapter.log[|old(adapter.log)|..], captured)
      ensures OnlyWrites(adapter.log, |old(adapter.log)|, plan.writes, FocusTarget(cmd, plan.draft, captured))
      ensures r.Reached? ==> FocusHeard(FocusTarget(cmd, plan.draft, captured), focusing, adapter.log, |old(adapter.log)|)
      ensures r.Reached? ==> Leaves(cmd, base, 0, base.draft, adapter.log, |old(adapter.log)|, r.world)
      ensures r.Reached? && complete ==>
                forall i :: 0 <= i < |plan.writes| ==> SettledSince(adapter.log, |old(adapter.log)|, plan.writes[i].id, r.world)
      ensures r.Reached? && complete ==> Written(adapter.log, |old(adapter.log)|, plan.writes)
      ensures r.Reached? && !complete ==> SomeGivenUp(adapter.log, |old(adapter.log)|, plan.writes)
      ensures r.CutShort? ==> EndsInterrupted(adapter.log)
      ensures r.Gave? ==> r.code == "inventory_stale" && StaleSince(adapter.log, |old(adapter.log)|, captured)
    {
      hide Written, SomeGivenUp, Guarded, StillDraft, WindowsFollow, SettledSince, Expected, PlanAt, Batched, FocusTarget, FocusAsked;
      ghost var start := |adapter.log|;
      var target := FindFocus(cmd, plan.draft, captured);
      var results, cut;
      results, focusing, cut := RunBatch(plan.writes, target, captured);
      ghost var batched := adapter.log;
      if cut {
        return CutShort, false, focusing;
      }
      if exists i :: 0 <= i < |results| && results[i].Stale? {
        ghost var i :| 0 <= i < |results| && results[i].Stale?;
        StaleInBatch(adapter.log, start, plan.writes, results, captured, i);
        return Gave("inventory_stale"), false, focusing;
      }
      r, complete := AcceptAll(plan.draft, plan.writes, results, captured, start);
      GuardedAppend(batched, adapter.log, start, captured);
      if target.Some? {
        StillAsked(batched, adapter.log, start, target.value, focusing.value);
      }
    }

    /** Batch, acceptance, and the fallbacks of a command that has any. A complete plan whose windows are not where
        they should be when read again counts as incomplete. */
    method PlaceWindows(cmd: Command, base: Reduced, plan: Plan, captured: seq<Captured>)
      returns (r: Attempt, fellBack: bool, focusing: Option<Focusing>)
      requires InSync() && DistinctIds(captured) && PlanAt(cmd, base, 0, base.draft) == Some(plan)
      requires forall i :: 0 <= i < |plan.writes| ==> Expected(captured, plan.writes[i].id).Some?
      modifies `world, `memory, adapter
      ensures InSync() && world == old(world).(profiles := memory.learning.profiles)
      ensures old(adapter.log) <= adapter.log && MatchesCapture(adapter.log[|old(adapter.log)|..], captured)
      ensures OnlyPlanned(cmd, base, captured, adapter.log, |old(adapter.log)|, |old(adapter.log)|)
      ensures !cmd.retries ==> !fellBack && Guarded(adapter.log[|old(adapter.log)|..], captured)
      ensures r.Reached? ==> PlacesAll(cmd, base, captured, adapter.log, |old(adapter.log)|, r.world)
      ensures r.Reached? ==> FocusHeard(FocusTarget(cmd, plan.draft, captured), focusing, adapter.log, |old(adapter.log)|)
      ensures fellBack ==> Hindered(cmd, base, captured, adapter.log, |old(adapter.log)|)
      ensures !r.Reached? ==> PlacingEnds(cmd, base, captured, adapter.log, |old(adapter.log)|, r)
    {
      hide Hindered, PlacingEnds, Written, SomeGivenUp, StaleSince, EndsInterrupted, AtTargets, RetriesEnd, Exhausted;
      hide Guarded, MatchesCapture, Expected, Leaves, PlansFrom, PlanAt, OnlyPlanned, OnlyWrites, PlacesAll, WindowsFollow, SeenLast,
           FocusTarget, FocusHeard;
      fellBack := false;
      ghost var start := |adapter.log|;
      var complete: bool;
      r, complete, focusing := FirstTry(cmd, base, plan, captured);
      ghost var tried := adapter.log;
      StartsPlanned(cmd, base, captured, tried, start);
      ghost var target := FocusTarget(cmd, plan.draft, captured);
      WritesArePlanned(cmd, base, captured, tried, start, start, 0, base.draft, target);
      GuardedMatches(tried[start..], captured);
      if !r.Reached? {
        EndedAtOnce(cmd, base, captured, tried, start, r);
        return;
      }
      if !complete {
        HinderedByWrite(cmd, base, captured, tried, start, plan);
      }
      if !cmd.retries {
        if complete {
          PlacedByNow(cmd, base, captured, tried, start, r.world, 0, base.draft);
        } else {
          r := Gave("geometry_rejected");
          EndedUnplaced(cmd, base, captured, tried, start);
        }
        return;
      }
      if complete {
        ghost var placed := r.world;
        r := Refresh(r.world, captured);
        MatchesAppend(tried, adapter.log, start, captured);
        ReadsArePlanned(cmd, base, captured, adapter.log, start, |tried|);
        OnlyPlannedGrows(cmd, base, captured, tried, adapter.log, start, start);
        if !r.Reached? {
          EndedAtOnce(cmd, base, captured, adapter.log, start, r) by { if r.Gave? { StaleLater(adapter.log, start, |tried|, captured); } }
          return;
        }
        LeavesRefreshed(cmd, base, 0, base.draft, tried, adapter.log, start, placed, r.world);
        StillHeard(target, focusing, tried, adapter.log, start);
        StartsPlanned(cmd, base, captured, adapter.log, start);
        var met := MeetsTargets(r.world, plan.targets);
        if met {
          WrittenGrows(tried, adapter.log, start, start, plan.writes);
          PlacedByNow(cmd, base, captured, adapter.log, start, r.world, 0, base.draft);
          return;
        }
        HinderedByTarget(cmd, base, captured, adapter.log, start, plan, r.world);
      }
      ghost var checked := adapter.log;
      fellBack := true;
      r := RetryPolicies(cmd, base, r.world, captured, start);
      HinderedStill(cmd, base, captured, checked, adapter.log, start);
      EndedFallingBack(cmd, base, captured, adapter.log, start, r);
      MatchesAppend(checked, adapter.log, start, captured);
      OnlyPlannedGrows(cmd, base, captured, checked, adapter.log, start, start);
      StillHeard(target, focusing, checked, adapter.log, start);
    }

    /** The window to focus, if it was captured. */
    method FindFocus(cmd: Command, draft: World, captured: seq<Captured>) returns (target: Option<WindowId>)
      ensures target == FocusTarget(cmd, draft, captured)
    {
      target := cmd.focus(draft);
      if target.Some? && Expected(captured, target.value).None? {
        target := None;
      }
    }

    /** Whether the answer leaves the window in front, and what to fail with where it does not. */
    method JudgeFocus(answer: Focusing, window: Observation) returns (satisfied: bool, code: string)
      ensures satisfied == Satisfied(answer, window) && code == FocusFailure(answer)
    {
      satisfied, code := false, "internal_error";
      match answer {
        case FocusInterrupted =>
        case FocusAnswer(fault, focused, frontmost, main) =>
          if fault == Some("rejected") {
            code := "geometry_rejected";
          } else if fault == Some("not_controllable") {
            code := "window_not_controllable";
          } else if fault == Some("stale") {
            code := "inventory_stale";
          }
          if fault.None? || fault == Some("rejected") || fault == Some("not_controllable") {
            satisfied := focused || (frontmost == Some(window.process) && main);
          }
      }
    }

    /** The window is meant from now on; if it is managed, its workspace remembers it. */
    method RememberFocus(placed: World, id: WindowId) returns (focused: World)
      ensures focused == WithFocus(placed, id)
    {
      focused := placed.(focusIntent := Some(id));
      if id in placed.windows && placed.windows[id].normal {
        var i := Home(placed.workspaces, id);
        if i < |placed.workspaces| {
          var ws := placed.workspaces[i];
          var tiles := Tiled(ws, id) && ws.mode == BspMode;
          focused := focused.(workspaces := placed.workspaces[i := ws.(lastFocused := Some(id),
                       lastFocusedTiled := if tiles then Some(id) else ws.lastFocusedTiled)]);
        }
      }
    }

    /** Place every window, then see to the command's own focus: when it was not obtained, the command fails. */
    method ApplyPlan(cmd: Command, base: Reduced, plan: Plan, captured: seq<Captured>) returns (r: Attempt, fellBack: bool)
      requires InSync() && DistinctIds(captured) && PlanAt(cmd, base, 0, base.draft) == Some(plan)
      requires forall i :: 0 <= i < |plan.writes| ==> Expected(captured, plan.writes[i].id).Some?
      modifies `world, `memory, adapter
      ensures InSync() && world == old(world).(profiles := memory.learning.profiles)
      ensures old(adapter.log) <= adapter.log && MatchesCapture(adapter.log[|old(adapter.log)|..], captured)
      ensures OnlyPlanned(cmd, base, captured, adapter.log, |old(adapter.log)|, |old(adapter.log)|)
      ensures !cmd.retries ==> !fellBack && Guarded(adapter.log[|old(adapter.log)|..], captured)
      ensures r.Reached? ==> Commits(cmd, base, captured, adapter.log, |old(adapter.log)|, r.world)
      ensures !r.Reached? ==>
                || PlacingEnds(cmd, base, captured, adapter.log, |old(adapter.log)|, r)
                || FocusFails(cmd, base, captured, adapter.log, |old(adapter.log)|, r)
    {
      hide PlacingEnds, Hindered;
      hide Guarded, MatchesCapture, Expected, PlanAt, OnlyPlanned, PlacesAll, Commits, FocusTarget, FocusAsked, WithFocus;
      ghost var start := |adapter.log|;
      var focusing;
      r, fellBack, focusing := PlaceWindows(cmd, base, plan, captured);
      if !r.Reached? {
        return;
      }
      var placed := r.world;
      var target := FindFocus(cmd, plan.draft, captured);
      if target.Some? {
        var id := target.value;
        if id in placed.windows {
          var satisfied, code := JudgeFocus(focusing.value, placed.windows[id]);
          if !satisfied {
            assert FocusMissed(cmd, base, captured, adapter.log, start, code, placed, focusing.value);
            r := Gave(code);
            return;
          }
        }
        assert FocusAsked(adapter.log, start, id, focusing.value);
        var remembered := RememberFocus(placed, id);
        r := Reached(remembered);
      }
      CommitsByNow(cmd, base, captured, adapter.log, start, placed, r.world);
    }

    // -------------------------------------------------------------- the whole command

    /** Everything between capture and exit. Nothing but learning changes the engine. A draft that is reached is
        what the attempts made of the reducer's draft on the current windows, verified and saved. */
    method Tentative(cmd: Command, captured: seq<Captured>)
      returns (r: Attempt, nothing: bool, fellBack: bool, events: seq<string>)
      requires InSync() && DistinctIds(captured)
      modifies this, adapter, store
      ensures InSync() && world == old(world).(profiles := memory.learning.profiles)
      ensures published == old(published) && recovering == old(recovering)
      ensures old(adapter.log) <= adapter.log && MatchesCapture(adapter.log[|old(adapter.log)|..], captured)
      ensures !cmd.retries ==> !fellBack && Guarded(adapter.log[|old(adapter.log)|..], captured)
      ensures nothing ==> !r.Reached? && adapter.log == old(adapter.log) && memory == old(memory) && health == old(health)
      ensures var working := Fresh(old(world), old(adapter.inventories));
              && (nothing <==> !old(recovering) && working.Some? && cmd.valid(working.value) && Idle(cmd, working.value))
              && (if working.Some? then
                    OnlyPlanned(cmd, cmd.reduce(working.value), captured, adapter.log, |old(adapter.log)|, |old(adapter.log)|)
                  else adapter.log == old(adapter.log))
              && (r.Reached? ==>
                    && !old(recovering) && Admitted(cmd, old(world), working) && !memory.dirty
                    && events == cmd.reduce(working.value).events
                    && Commits(cmd, cmd.reduce(working.value), captured, adapter.log, |old(adapter.log)|, r.world))
              && (!r.Reached? && !nothing ==>
                    Explained(cmd, old(world), old(recovering), working, captured, adapter.log, |old(adapter.log)|,
                              old(store.log), store.log, r))
    {
      hide Guarded, MatchesCapture, Expected, OnlyPlanned, Commits, GaveUp, NotSaved;
      nothing, fellBack, events := false, false, [];
      ghost var start := adapter.log;
      GuardedNothing(captured);
      GuardedMatches([], captured);
      assert adapter.log[|start|..] == [];
      ghost var working := Fresh(world, adapter.inventories);
      if working.Some? {
        NothingAsked(cmd, cmd.reduce(working.value), captured, start, |start|);
      }
      if recovering {
        return Gave("internal_error"), false, false, [];
      }
      var windows := adapter.Inventory();
      if windows.None? {
        return Gave("inventory_stale"), false, false, [];
      }
      var fresh' := world.(windows := windows.value);
      if !cmd.valid(fresh') {
        return Gave("rejected"), false, false, [];
      }
      var reduced := cmd.reduce(fresh');
      if reduced.draft == fresh' && reduced.intents == [] && reduced.events == [] {
        return Gave("nothing"), true, false, [];
      }
      var plan := cmd.plan(reduced.draft, reduced.intents, None);
      if plan.None? {
        return Gave("geometry_rejected"), false, false, [];
      }
      if world.paused && plan.value.writes != [] {
        return Gave("paused"), false, false, [];
      }
      if exists i :: 0 <= i < |plan.value.writes| && Expected(captured, plan.value.writes[i].id).None? {
        return Gave("defect"), false, false, [];
      }
      r, fellBack := ApplyPlan(cmd, reduced, plan.value, captured);
      events := reduced.events;
      if !r.Reached? {
        GaveUpWhy(cmd, reduced, captured, adapter.log, |start|, r);
      }
      if r.Reached? {
        ghost var calls;
        var saved;
        saved, calls := PersistLearning();
        if !saved {
          NotStored(old(store.log), calls);
          r := Gave("internal_error");
        }
      }
    }

    /** What follows the capture: one commit, or one rollback. */
    method Conclude(cmd: Command, captured: seq<Captured>) returns (outcome: Outcome)
      requires InSync() && DistinctIds(captured)
      modifies this, adapter, store
      ensures InSync() && old(adapter.log) <= adapter.log
      ensures outcome.Committed? ==>
                var working := Fresh(old(world), old(adapter.inventories));
                && !old(recovering) && Admitted(cmd, old(world), working)
                && Commits(cmd, cmd.reduce(working.value), captured, adapter.log, |old(adapter.log)|, outcome.final)
                && world == outcome.final.(profiles := memory.learning.profiles, epoch := outcome.final.epoch + 1)
                && published == old(published) + cmd.reduce(working.value).events + ["reconciliation"] && !memory.dirty
                && (KeepsEpoch(cmd) ==> world.epoch == old(world).epoch + 1)
      ensures !outcome.Committed? ==> world == old(world).(profiles := memory.learning.profiles) && published == old(published)
      ensures !outcome.Committed? && !cmd.retries ==> memory == old(memory) && world == old(world)
      ensures outcome.NothingToDo? ==>
                var working := Fresh(old(world), old(adapter.inventories));
                && working.Some? && cmd.valid(working.value) && Idle(cmd, working.value)
                && adapter.log == old(adapter.log) && health == old(health) && memory == old(memory)
      ensures outcome.Failed? || outcome.WasInterrupted? ==>
                || health.Degraded?
                || forall k :: 0 <= k < |captured| ==> ReadBack(adapter.log[|old(adapter.log)|..], captured[k])
      ensures outcome.Failed? || outcome.WasInterrupted? ==>
                Explained(cmd, old(world), old(recovering), Fresh(old(world), old(adapter.inventories)), captured, adapter.log,
                          |old(adapter.log)|, old(store.log), store.log, if outcome.Failed? then Gave(outcome.code) else CutShort)
      ensures !cmd.retries ==> Guarded(adapter.log[|old(adapter.log)|..], captured)
      ensures Accounted(cmd, Fresh(old(world), old(adapter.inventories)), captured, adapter.log, |old(adapter.log)|)
    {
      hide OnlyPlanned, Commits, Expected, OnlyPutsBack, Accounted, KeepsEpoch, Guarded, MatchesCapture, ReadBack, Idle, PlanAt,
           Explained;
      ghost var start, working := adapter.log, Fresh(world, adapter.inventories);
      var before := memory;
      var r, nothing, fellBack, events := Tentative(cmd, captured);
      ghost var tried, storedBy := adapter.log, store.log;
      NothingPutBack(captured, tried);
      if nothing || r.Reached? {
        AllAccounted(cmd, working, captured, tried, tried, |start|);
      }
      if nothing {
        return NothingToDo;
      }
      if r.Reached? {
        if KeepsEpoch(cmd) {
          CommitKeepsEpoch(cmd, working.value, captured, tried, |start|, r.world);
        }
        world := r.world.(profiles := memory.learning.profiles, epoch := r.world.epoch + 1);
        published := published + events + ["reconciliation"];
        return Committed(r.world);
      }
      Rollback(captured, before, fellBack);
      RolledBack(start, tried, adapter.log, captured, cmd.retries);
      ExplainedStill(cmd, old(world), old(recovering), working, captured, tried, adapter.log, |start|, old(store.log), storedBy,
                     store.log, r);
      AllAccounted(cmd, working, captured, tried, adapter.log, |start|);
      return if r.CutShort? then WasInterrupted else Failed(r.code);
    }

    /** A compound command. It installs, one epoch on, the verified draft its attempts made of what the reducer
        decided on the current windows, or else leaves trees, membership, visibility, parked intent and epoch as
        they were, with every captured window read back in its place or the engine's health degraded. */
    method Execute(cmd: Command) returns (outcome: Outcome, captured: seq<Captured>)
      requires InSync()
      requires forall i, j :: 0 <= i < j < |cmd.tracked| ==> cmd.tracked[i] != cmd.tracked[j]
      modifies this, adapter, store
      ensures InSync()
      ensures old(adapter.log) <= adapter.log && |old(adapter.log)| + |captured| <= |adapter.log|
      ensures outcome.Committed? ==>
                var working := Fresh(old(world), old(adapter.inventories));
                && !old(recovering) && Admitted(cmd, old(world), working)
                && Commits(cmd, cmd.reduce(working.value), captured, adapter.log, |old(adapter.log)| + |captured|, outcome.final)
                && world == outcome.final.(profiles := memory.learning.profiles, epoch := outcome.final.epoch + 1)
                && published == old(published) + cmd.reduce(working.value).events + ["reconciliation"] && !memory.dirty
      ensures outcome.Committed? && KeepsEpoch(cmd) ==> world.epoch == old(world).epoch + 1
      ensures !outcome.Committed? ==> world == old(world).(profiles := memory.learning.profiles) && published == old(published)
      ensures !outcome.Committed? && !cmd.retries ==> memory == old(memory) && world == old(world)
      ensures captured == [] || AsCaptured(adapter.log[|old(adapter.log)|..][..|captured|], captured, cmd.tracked)
      ensures outcome.NothingToDo? || (captured == [] && cmd.tracked != []) ==>
                OnlyReads(adapter.log[|old(adapter.log)|..]) && health == old(health) && memory == old(memory)
      ensures outcome.NothingToDo? ==>
                var working := Fresh(old(world), old(adapter.inventories));
                working.Some? && cmd.valid(working.value) && Idle(cmd, working.value)
      ensures outcome.Failed? || outcome.WasInterrupted? ==>
                health.Degraded? || forall k :: 0 <= k < |captured| ==> ReadBack(adapter.log[|old(adapter.log)|..], captured[k])
      ensures outcome.Failed? || outcome.WasInterrupted? ==>
                var r := if outcome.Failed? then Gave(outcome.code) else CutShort;
                || (captured == [] && NotCaptured(adapter.log, |old(adapter.log)|, cmd.tracked, r))
                || Explained(cmd, old(world), old(recovering), Fresh(old(world), old(adapter.inventories)), captured, adapter.log,
                             |old(adapter.log)| + |captured|, old(store.log), store.log, r)
      ensures !cmd.retries ==> Guarded(adapter.log[|old(adapter.log)|..], captured)
      ensures |captured| == |cmd.tracked| ==>
                Accounted(cmd, Fresh(old(world), old(adapter.inventories)), captured, adapter.log, |old(adapter.log)| + |captured|)
    {
      hide Commits, Expected, Accounted, KeepsEpoch, Guarded, ReadBack, Idle, Explained, NotCaptured, Admitted;
      ghost var start := adapter.log;
      var caps, cut := Capture(cmd.tracked);
      if caps.None? {
        ReadsAreGuarded(adapter.log[|start|..], []);
        return if cut then WasInterrupted else Failed("inventory_stale"), [];
      }
      captured := caps.value;
      ghost var taken := adapter.log;
      CapturedAreDistinct(taken[|start|..], captured, cmd.tracked);
      outcome := Conclude(cmd, captured);
      ConcludedLog(start, taken, adapter.log, captured, cmd.retries);
    }
  }
}
