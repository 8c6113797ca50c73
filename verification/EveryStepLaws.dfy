/** All steps of the engine: what each makes of every field of every workspace, of the focus and of what is remembered of
    windows that left. */
module EveryStepLaws {
  import opened Geometry
  import opened BspTree
  import opened Planner
  import opened Insertion
  import opened GeometricMove
  import opened Membership
  import opened MembershipInvariant
  import opened DisplayExclusivity
  import opened TombstoneReturns
  import opened FocusLaws
  import opened StepLaws
  import InitialLayout

  // ---------------------------------------------------------------- focus

  predicate IsNormal(w: World, focus: Option<WindowId>) {
    focus.Some? && focus.value in w.windows && w.windows[focus.value]
  }

  /** The workspace of a normal window in focus remembers it, also as its last tiled one if it is a tile and the
      workspace tiles. */
  ghost predicate Recorded(w: World, v: World, focus: Option<WindowId>) {
    SameRest(w, v) && forall j :: 0 <= j < |w.workspaces| ==>
      var ws := w.workspaces[j];
      if IsNormal(w, focus) && Holds(ws, focus.value)
      then v.workspaces[j] == ws.(lastFocused := focus,
                                  lastFocusedTiled := if Has(ws.tree, focus.value) && ws.mode == BspMode then focus else ws.lastFocusedTiled)
      else v.workspaces[j] == ws
  }

  lemma RecordingLaw(w: World, focus: Option<WindowId>)
    requires WellFormed(w)
    ensures Recorded(w, RecordFocused(w, focus), focus)
  {
    hide WellFormed, Sound;
    if IsNormal(w, focus) {
      var i := Home(w.workspaces, focus.value);
      if i < |w.workspaces| {
        HeldOnce(w, i, focus.value);
        RealHere(w.workspaces[i], focus.value);
      }
    }
  }

  lemma RealHere(ws: Workspace, id: WindowId)
    requires Sound(ws) && Holds(ws, id)
    ensures id != EMPTY_LEAF
  {
  }

  /** A focus signal: recorded, and the intent from now on. */
  ghost predicate SignalledStep(w: World, v: World, focus: Option<WindowId>) {
    v.focusIntent == focus && Recorded(w, v.(focusIntent := w.focusIntent), focus)
  }

  lemma SignallingLaw(w: World, focus: Option<WindowId>)
    requires WellFormed(w)
    ensures SignalledStep(w, Signal(w, focus), focus)
  {
    hide WellFormed, RecordFocused, Recorded;
    RecordingLaw(w, focus);
    RecordedRest(w, RecordFocused(w, focus), focus);
    var v := Signal(w, focus);
    assert v.(focusIntent := w.focusIntent) == RecordFocused(w, focus);
  }

  lemma RecordedRest(w: World, v: World, focus: Option<WindowId>)
    requires Recorded(w, v, focus)
    ensures v == w.(workspaces := v.workspaces)
  {
    hide Holds, Has;
  }

  /** Signals are taken up one after another. */
  ghost predicate SignalledAll(w: World, v: World, signals: seq<Option<WindowId>>)
    decreases |signals|
  {
    if signals == [] then v == w
    else exists mid :: SignalledStep(w, mid, signals[0]) && SignalledAll(mid, v, signals[1..])
  }

  lemma {:induction false} SignallingAllLaw(w: World, signals: seq<Option<WindowId>>)
    requires WellFormed(w)
    ensures SignalledAll(w, SignalAll(w, signals), signals) && WellFormed(SignalAll(w, signals))
    decreases |signals|
  {
    hide WellFormed, Signal, SignalledStep;
    if signals != [] {
      SignallingLaw(w, signals[0]);
      SignalKeeps(w, signals[0]);
      SignallingAllLaw(Signal(w, signals[0]), signals[1..]);
    }
  }

  /** An observation: the displays and windows there are, then the signals; an intent on a window that is gone is given up
      where the platform's own focus is steady, and what is intended is recorded. */
  ghost predicate ObservedStep(w: World, v: World, o: Sighting) {
    exists mid :: SignalledAll(w.(displays := o.displays, windows := o.windows), mid, o.signals)
      && var given := o.steady && mid.focusIntent.Some? && mid.focusIntent.value !in o.windows;
         Recorded(if given then mid.(focusIntent := None) else mid, v, if given then None else mid.focusIntent)
  }

  lemma ObservingLaw(w: World, o: Sighting)
    requires WellFormed(w)
    ensures ObservedStep(w, See(w, o), o)
  {
    hide WellFormed, RecordFocused, Recorded, SignalledAll, SignalAll;
    var looked := w.(displays := o.displays, windows := o.windows);
    SameWorkspaces(w, looked);
    SignallingAllLaw(looked, o.signals);
    var mid := SignalAll(looked, o.signals);
    SignalledSame(looked, mid, o.signals);
    var seen := Refocused(mid, o.steady);
    SameWorkspaces(mid, seen);
    RecordingLaw(seen, seen.focusIntent);
  }

  lemma {:induction false} SignalledSame(w: World, v: World, signals: seq<Option<WindowId>>)
    requires SignalledAll(w, v, signals)
    ensures v.windows == w.windows && v.displays == w.displays
    decreases |signals|
  {
    hide Recorded;
    if signals != [] {
      var mid :| SignalledStep(w, mid, signals[0]) && SignalledAll(mid, v, signals[1..]);
      RecordedRest(w, mid.(focusIntent := w.focusIntent), signals[0]);
      SignalledSame(mid, v, signals[1..]);
    }
  }

  // ---------------------------------------------------------------- leaving and coming back

  /** The window leaves where it was, and with it what a return would need is remembered; what is too old is forgotten. */
  ghost predicate RemovedStep(e: Engine, r: Engine, id: WindowId, now: int) {
    var w := e.world;
    && (Homeless(w, id) ==> r == e)
    && (!Homeless(w, id) ==>
          && SameRest(w, r.world)
          && (forall j :: 0 <= j < |w.workspaces| ==>
                if Holds(w.workspaces[j], id) then
                  && Parted(w.workspaces[j], r.world.workspaces[j], id, false)
                  && id in r.tombstones && r.tombstones[id] == GraveOf(w.workspaces[j], id, now)
                else r.world.workspaces[j] == w.workspaces[j])
          && forall x :: x != id ==>
               && (x in r.tombstones <==> x in e.tombstones && now - e.tombstones[x].at <= 5 * 60 * 1000)
               && (x in r.tombstones ==> r.tombstones[x] == e.tombstones[x]))
  }

  function GraveOf(ws: Workspace, id: WindowId, now: int): Tombstone {
    Tombstone(ws.name, id in ws.floating, ws.tree, if id in ws.parked then Some(ws.parked[id]) else None, now)
  }

  lemma RemovingLaw(e: Engine, id: WindowId, now: int)
    requires Valid(e)
    ensures RemovedStep(e, Remove(e, id, now), id, now)
  {
    hide WellFormed, Sound, Parted, RemoveFromMembership, Holds, Homeless;
    HomelessIffNoHome(e.world, id);
    var i := Home(e.world.workspaces, id);
    if i < |e.world.workspaces| {
      HeldOnce(e.world, i, id);
      RemovalLeaves(e.world.workspaces[i], id);
    }
  }

  /** What is remembered of the window still fits: same workspace, a tile, and the other tiles are just those there now. */
  ghost predicate Fits(e: Engine, ws: Workspace, id: WindowId) {
    && id in e.tombstones && id in e.world.windows && e.tombstones[id].workspace == ws.name && !e.tombstones[id].floating
    && forall x :: x != EMPTY_LEAF && x != id ==> (Has(e.tombstones[id].tree, x) <==> Has(ws.tree, x))
  }

  function ParkedWith(ws: Workspace, e: Engine, id: WindowId): map<WindowId, Frame> {
    if id in e.tombstones && e.tombstones[id].parked.Some? then ws.parked[id := e.tombstones[id].parked.value] else ws.parked
  }

  /** A window comes into the workspace: its remembered tree with it, or floating, or as a new tile. */
  ghost predicate ComesInto(settings: Settings, e: Engine, w: World, ws: Workspace, r: Workspace, id: WindowId, floating: bool,
                            beside: Option<WindowId>, axis: Option<Axis>)
  {
    if Fits(e, ws, id) then r == ws.(tree := e.tombstones[id].tree, parked := ParkedWith(ws, e, id))
    else if floating then r == ws.(floating := ws.floating + {id}, parked := ParkedWith(ws, e, id))
    else r == ws.(tree := r.tree) && Joins(settings, w, ws, id, beside, axis, r.tree)
  }

  /** A window without a place comes into the named workspace, provided if need be; then the intended focus is recorded,
      and nothing is remembered of the window any more. */
  ghost predicate InsertedStep(settings: Settings, e: Engine, r: Engine, id: WindowId, name: string, floating: bool,
                               beside: Option<WindowId>, axis: Option<Axis>)
  {
    if !Homeless(e.world, id) then r == e
    else
      && r.tombstones == e.tombstones - {id}
      && exists with, mid :: InsertedInto(settings, e, r.world, with, mid, id, name, floating, beside, axis)
  }

  ghost predicate InsertedInto(settings: Settings, e: Engine, v: World, with: World, mid: World, id: WindowId, name: string,
                               floating: bool, beside: Option<WindowId>, axis: Option<Axis>)
  {
    && Provided(e.world, name, with) && SameRest(with, mid) && Recorded(mid, v, mid.focusIntent)
    && forall j :: 0 <= j < |with.workspaces| ==>
         if with.workspaces[j].name == name
         then ComesInto(settings, e, with, with.workspaces[j], mid.workspaces[j], id, floating, beside, axis)
         else mid.workspaces[j] == with.workspaces[j]
  }

  lemma SurvivesIffFits(e: Engine, ws: Workspace, id: WindowId)
    requires id in e.tombstones && !Has(ws.tree, id)
    ensures (Survives(e.tombstones[id], id, ws.tree) && id in e.world.windows && e.tombstones[id].workspace == ws.name)
            <==> Fits(e, ws, id)
  {
    hide Has, TiledMembers;
    var t := e.tombstones[id];
    if Survives(t, id, ws.tree) {
      SurvivorsAreMembers(t, id, ws.tree);
    }
    if Fits(e, ws, id) {
      var rest, now := Others(TiledMembers(t.tree), id), TiledMembers(ws.tree);
      TiledMembersDiffer(t.tree);
      TiledMembersDiffer(ws.tree);
      WithoutDropsOne(TiledMembers(t.tree), id);
      forall x ensures x in rest <==> x in now {
        assert x in TiledMembers(t.tree) <==> Has(t.tree, x) && x != EMPTY_LEAF;
        assert x in now <==> Has(ws.tree, x) && x != EMPTY_LEAF;
      }
      SameMembersSameCount(rest, now);
    }
  }

  lemma InsertingLaw(settings: Settings, e: Engine, id: WindowId, name: string, floating: bool, beside: Option<WindowId>, axis: Option<Axis>)
    requires Valid(e) && id != EMPTY_LEAF
    ensures InsertedStep(settings, e, Insert(settings, e, id, name, floating, beside, axis), id, name, floating, beside, axis)
  {
    hide WellFormed, Sound, Joins, InsertedTree, InsertionFor, Holds, Homeless, RecordFocused, EnsureWorkspace, Provided, Recorded,
         ComesInto, TombstoneSound, Restores, InsertRestored, InsertFloating, InsertTiledInto, Insert;
    HomelessIffNoHome(e.world, id);
    if !Homeless(e.world, id) {
      HasHome(settings, e, id, name, floating, beside, axis);
    } else {
      EnsureKeeps(e.world, name);
      NamesDiffer(e.world);
      EnsureProvides(e.world, name);
      var with := EnsureWorkspace(e.world, name);
      var mid := if Restores(e, id, name) then InsertRestored(e, id, name)
                 else if floating then InsertFloating(e, id, name)
                 else InsertTiledInto(settings, e.world, name, id, beside, axis);
      var k := Named(with.workspaces, name);
      NameOnce(with, k);
      HomelessHere(with, k, id);
      ComingLaw(settings, e, with, k, mid, id, name, floating, beside, axis);
      MidKeeps(settings, e, id, name, floating, beside, axis);
      RecordingLaw(mid, mid.focusIntent);
      InsertIs(settings, e, id, name, floating, beside, axis, mid);
      assert InsertedInto(settings, e, RecordFocused(mid, mid.focusIntent), with, mid, id, name, floating, beside, axis);
    }
  }

  lemma HasHome(settings: Settings, e: Engine, id: WindowId, name: string, floating: bool, beside: Option<WindowId>, axis: Option<Axis>)
    requires !Homeless(e.world, id)
    ensures Insert(settings, e, id, name, floating, beside, axis) == e
  {
    hide Restores, InsertRestored, InsertFloating, InsertTiledInto, RecordFocused, Homeless;
    HomelessIffNoHome(e.world, id);
  }

  lemma InsertIs(settings: Settings, e: Engine, id: WindowId, name: string, floating: bool, beside: Option<WindowId>,
                 axis: Option<Axis>, mid: World)
    requires Homeless(e.world, id)
    requires mid == if Restores(e, id, name) then InsertRestored(e, id, name)
                    else if floating then InsertFloating(e, id, name)
                    else InsertTiledInto(settings, e.world, name, id, beside, axis)
    ensures Insert(settings, e, id, name, floating, beside, axis) == Engine(RecordFocused(mid, mid.focusIntent), e.tombstones - {id})
  {
    hide Restores, InsertRestored, InsertFloating, InsertTiledInto, RecordFocused, Homeless;
    HomelessIffNoHome(e.world, id);
  }

  /** Before the focus is recorded. */
  lemma MidKeeps(settings: Settings, e: Engine, id: WindowId, name: string, floating: bool, beside: Option<WindowId>, axis: Option<Axis>)
    requires Valid(e) && id != EMPTY_LEAF && Homeless(e.world, id)
    ensures WellFormed(if Restores(e, id, name) then InsertRestored(e, id, name)
                       else if floating then InsertFloating(e, id, name)
                       else InsertTiledInto(settings, e.world, name, id, beside, axis))
  {
    hide WellFormed, Restores, InsertRestored, InsertFloating, InsertTiledInto, Homeless;
    if Restores(e, id, name) {
      InsertRestoredKeeps(e, id, name);
    } else if floating {
      InsertFloatingKeeps(e, id, name);
    } else {
      InsertTiledKeeps(settings, e.world, name, id, beside, axis);
    }
  }

  lemma ComingLaw(settings: Settings, e: Engine, with: World, k: nat, mid: World, id: WindowId, name: string, floating: bool,
                  beside: Option<WindowId>, axis: Option<Axis>)
    requires with == EnsureWorkspace(e.world, name) && k == Named(with.workspaces, name) && k < |with.workspaces|
    requires Sound(with.workspaces[k]) && !Has(with.workspaces[k].tree, id) && id != EMPTY_LEAF
    requires mid == if Restores(e, id, name) then InsertRestored(e, id, name)
                    else if floating then InsertFloating(e, id, name)
                    else InsertTiledInto(settings, e.world, name, id, beside, axis)
    ensures SameRest(with, mid) && ComesInto(settings, e, with, with.workspaces[k], mid.workspaces[k], id, floating, beside, axis)
    ensures forall j :: 0 <= j < |with.workspaces| && j != k ==> mid.workspaces[j] == with.workspaces[j]
  {
    hide Sound, Joins, InsertedTree, InsertionFor, EnsureWorkspace, Survives, Has;
    var ws := with.workspaces[k];
    if id in e.tombstones {
      SurvivesIffFits(e, ws, id);
    }
    InsertedTreeJoins(settings, with, ws, id, beside, axis);
  }

  // ---------------------------------------------------------------- showing and parking

  /** The first other workspace on the display. */
  ghost predicate InTheWay(w: World, j: nat, name: string, display: DisplayId)
    requires j < |w.workspaces|
  {
    && w.workspaces[j].visibleOn == Some(display) && w.workspaces[j].name != name
    && forall i :: 0 <= i < j ==> w.workspaces[i].visibleOn != Some(display) || w.workspaces[i].name == name
  }

  /** The workspace is on the display, and the first other one that was is nowhere. */
  ghost predicate ShownStep(w: World, v: World, name: string, display: DisplayId) {
    SameRest(w, v) && forall j :: 0 <= j < |w.workspaces| ==>
      v.workspaces[j] == w.workspaces[j].(visibleOn := if w.workspaces[j].name == name then Some(display)
                                                       else if InTheWay(w, j, name, display) then None
                                                       else w.workspaces[j].visibleOn)
  }

  ghost predicate RevealedStep(w: World, v: World, name: string, display: DisplayId) {
    exists with :: Provided(w, name, with) && ShownStep(with, v, name, display)
  }

  lemma ShowingLaw(w: World, name: string, display: DisplayId)
    requires DistinctNames(w) && Named(w.workspaces, name) < |w.workspaces|
    ensures ShownStep(w, Show(HideOccupant(w, name, display), name, Some(display)), name, display)
  {
    var hidden := HideOccupant(w, name, display);
    var k := Named(w.workspaces, name);
    assert hidden.workspaces[k].name == name;
    ShowsExactly(hidden, name, display);
    var i := Occupant(w.workspaces, display, name);
    forall j | 0 <= j < |w.workspaces| ensures InTheWay(w, j, name, display) <==> j == i {
    }
  }

  lemma RevealingLaw(w: World, name: string, display: DisplayId)
    requires WellFormed(w)
    ensures RevealedStep(w, Reveal(w, name, display), name, display)
  {
    hide WellFormed, EnsureWorkspace, Provided, DistinctNames, ShownStep, HideOccupant, Show;
    NamesDiffer(w);
    EnsureProvides(w, name);
    EnsureKeeps(w, name);
    NamesDiffer(EnsureWorkspace(w, name));
    ShowingLaw(EnsureWorkspace(w, name), name, display);
  }

  function ParkedIn(ws: Workspace, frames: map<WindowId, Frame>): Workspace {
    ws.(parked := ws.parked + map id | id in frames && Holds(ws, id) :: frames[id])
  }

  /** The workspace in the way has the frames of its own windows read back; should that fail, nothing else happens. */
  ghost predicate RevealedParkingStep(w: World, v: World, name: string, display: DisplayId, frames: map<WindowId, Frame>, fails: bool) {
    exists with, mid :: Provided(w, name, with) && ParkedAside(with, mid, name, display, frames)
      && if fails && exists j :: 0 <= j < |with.workspaces| && InTheWay(with, j, name, display) then v == mid
         else ShownStep(mid, v, name, display)
  }

  ghost predicate ParkedAside(w: World, v: World, name: string, display: DisplayId, frames: map<WindowId, Frame>) {
    SameRest(w, v) && forall j :: 0 <= j < |w.workspaces| ==>
      v.workspaces[j] == if InTheWay(w, j, name, display) then ParkedIn(w.workspaces[j], frames) else w.workspaces[j]
  }

  ghost predicate ParkedStep(w: World, v: World, name: string, frames: map<WindowId, Frame>) {
    SameRest(w, v) && forall j :: 0 <= j < |w.workspaces| ==>
      v.workspaces[j] == if w.workspaces[j].name == name then ParkedIn(w.workspaces[j], frames) else w.workspaces[j]
  }

  lemma ParkingLaw(w: World, name: string, frames: map<WindowId, Frame>)
    requires WellFormed(w)
    ensures ParkedStep(w, Park(w, name, frames), name, frames)
    ensures ParkedIsEmptied(w, Unpark(w, name), name)
  {
    hide WellFormed, Holds, Sound;
    var i := Named(w.workspaces, name);
    if i < |w.workspaces| { NameOnce(w, i); }
  }

  /** Laid out again: nothing in it is parked. */
  ghost predicate ParkedIsEmptied(w: World, v: World, name: string) {
    SameRest(w, v) && forall j :: 0 <= j < |w.workspaces| ==>
      v.workspaces[j] == if w.workspaces[j].name == name then w.workspaces[j].(parked := map[]) else w.workspaces[j]
  }

  lemma RevealingParkingLaw(w: World, name: string, display: DisplayId, frames: map<WindowId, Frame>, fails: bool)
    requires WellFormed(w)
    ensures RevealedParkingStep(w, RevealParking(w, name, display, frames, fails), name, display, frames, fails)
  {
    hide WellFormed, EnsureWorkspace, Provided, DistinctNames, ShownStep, HideOccupant, Show, Park, ParkedIn;
    NamesDiffer(w);
    EnsureProvides(w, name);
    EnsureKeeps(w, name);
    var with := EnsureWorkspace(w, name);
    var i := Occupant(with.workspaces, display, name);
    var mid := if i < |with.workspaces| then Park(with, with.workspaces[i].name, frames) else with;
    AsideLaw(with, name, display, frames);
    if i < |with.workspaces| {
      ParkKeeps(with, with.workspaces[i].name, frames);
      ParkKeepsNames(with, with.workspaces[i].name, frames, name);
    }
    NamesDiffer(mid);
    if !(i < |with.workspaces| && fails) {
      ShowingLaw(mid, name, display);
    }
    assert ParkedAside(with, mid, name, display, frames);
    assert forall j :: 0 <= j < |with.workspaces| ==> (InTheWay(with, j, name, display) <==> j == i);
  }

  lemma AsideLaw(w: World, name: string, display: DisplayId, frames: map<WindowId, Frame>)
    requires WellFormed(w)
    ensures forall j :: 0 <= j < |w.workspaces| ==> (InTheWay(w, j, name, display) <==> j == Occupant(w.workspaces, display, name))
    ensures var i := Occupant(w.workspaces, display, name);
            ParkedAside(w, if i < |w.workspaces| then Park(w, w.workspaces[i].name, frames) else w, name, display, frames)
  {
    hide WellFormed, Park, ParkedIn, Sound;
    var i := Occupant(w.workspaces, display, name);
    if i < |w.workspaces| {
      ParkingLaw(w, w.workspaces[i].name, frames);
      NameOnce(w, i);
    }
    forall j | 0 <= j < |w.workspaces| ensures InTheWay(w, j, name, display) <==> j == i {
    }
  }

  /** Pinned to the display, and shown there. */
  ghost predicate PinnedStep(w: World, v: World, name: string, display: DisplayId) {
    exists with, mid :: Provided(w, name, with) && SameRest(with, mid) && ShownStep(mid, v, name, display)
      && forall j :: 0 <= j < |with.workspaces| ==>
           mid.workspaces[j] == if with.workspaces[j].name == name then with.workspaces[j].(pinned := Some(display)) else with.workspaces[j]
  }

  lemma PinningLaw(w: World, name: string, display: DisplayId)
    requires WellFormed(w)
    ensures PinnedStep(w, Reveal(Pin(w, name, display), name, display), name, display)
  {
    hide WellFormed, EnsureWorkspace, Provided, DistinctNames, ShownStep, HideOccupant, Show, Sound;
    NamesDiffer(w);
    EnsureProvides(w, name);
    EnsureKeeps(w, name);
    var with := EnsureWorkspace(w, name);
    NameOnce(with, Named(with.workspaces, name));
    PinKeeps(w, name, display);
    PinScreens(w, name, display);
    var mid := Pin(w, name, display);
    EnsureKnown(mid, name);
    NamesDiffer(mid);
    ShowingLaw(mid, name, display);
  }

  /** Focused, and shown on the display it belongs on. */
  ghost predicate FocusedStep(w: World, v: World, name: string) {
    exists with, display :: Provided(w, name, with) && FocusedOn(with, name, display)
      && var focused := with.(focusedWorkspace := Some(name));
         if display.Some? then ShownStep(focused, v, name, display.value) else v == focused
  }

  lemma FocusingLaw(w: World, name: string)
    requires WellFormed(w)
    ensures FocusedStep(w, FocusWorkspace(w, name), name)
  {
    hide WellFormed, EnsureWorkspace, Provided, DistinctNames, ShownStep, HideOccupant, Show, InsertionDisplay, BelongsOn;
    NamesDiffer(w);
    EnsureProvides(w, name);
    EnsureKeeps(w, name);
    var with := EnsureWorkspace(w, name);
    var focused := with.(focusedWorkspace := Some(name));
    SameWorkspaces(with, focused);
    NamesDiffer(focused);
    DisplayBelongs(with, with.workspaces[Named(with.workspaces, name)]);
    EnsureKnown(focused, name);
    assert FocusedOn(with, name, DesiredDisplay(with, name));
    if DesiredDisplay(with, name).Some? {
      ShowingLaw(focused, name, DesiredDisplay(with, name).value);
    }
  }

  // ---------------------------------------------------------------- configuration, moves and startup

  ghost predicate ConfiguredStep(w: World, v: World, name: string, mode: Mode, preferred: Option<DisplayId>) {
    exists with :: ProvidedHidden(w, name, with) && SameRest(with, v)
      && forall j :: 0 <= j < |with.workspaces| ==>
           v.workspaces[j] == if with.workspaces[j].name == name then with.workspaces[j].(mode := mode, preferred := preferred)
                              else with.workspaces[j]
  }

  lemma ConfiguringLaw(w: World, name: string, mode: Mode, preferred: Option<DisplayId>)
    requires WellFormed(w)
    ensures ConfiguredStep(w, Configure(w, name, mode, preferred), name, mode, preferred)
  {
    hide WellFormed, EnsureHidden, ProvidedHidden, Sound;
    EnsureHiddenProvides(w, name);
    EnsureKeeps(w, name);
    var with := EnsureHidden(w, name);
    NameOnce(with, Named(with.workspaces, name));
  }

  /** A tile of the workspace moved to where the layout has it go, and remembered; anything else changes nothing. */
  ghost predicate MovedStep(w: World, v: World, name: string, moved: WindowId, direction: Direction, frames: Frames, gap: int, groups: bool) {
    SameRest(w, v) && forall j :: 0 <= j < |w.workspaces| ==>
      var ws := w.workspaces[j];
      var tree := MoveGeometrically(MoveInput(ws.tree, moved, direction, frames, gap, groups));
      v.workspaces[j] == if ws.name == name && moved != EMPTY_LEAF && Has(ws.tree, moved) && tree != ws.tree
                         then ws.(tree := tree, lastFocused := Some(moved)) else ws
  }

  lemma MovingInDirectionLaw(w: World, name: string, moved: WindowId, direction: Direction, frames: Frames, gap: int, groups: bool)
    requires WellFormed(w)
    ensures MovedStep(w, MoveDirection(w, name, moved, direction, frames, gap, groups), name, moved, direction, frames, gap, groups)
  {
    hide WellFormed, MoveGeometrically, Sound;
    var i := Named(w.workspaces, name);
    if i < |w.workspaces| { NameOnce(w, i); }
  }

  /** An empty workspace takes in the windows found open, in the tree inferred from where they are. */
  ghost predicate AdmittedStep(w: World, v: World, name: string, members: seq<InitialLayout.FramedWindow>, content: Frame, gap: int,
                               mode: Mode, preferred: Option<DisplayId>, focused: Option<WindowId>)
  {
    SameRest(w, v) && forall j :: 0 <= j < |w.workspaces| ==>
      var ws, member := w.workspaces[j], focused.Some? && exists m :: m in members && m.id == focused.value;
      v.workspaces[j] ==
        if ws.name == name && ws.tree == Leaf(EMPTY_LEAF) && members != []
        then ws.(mode := mode, preferred := preferred, tree := InitialLayout.InferInitialTree(members, Some(content), gap).value,
                 lastFocused := if member then focused else ws.lastFocused,
                 lastFocusedTiled := if member then focused else ws.lastFocusedTiled)
        else ws
  }

  lemma AdmittingLaw(w: World, name: string, members: seq<InitialLayout.FramedWindow>, content: Frame, gap: int, mode: Mode,
                     preferred: Option<DisplayId>, focused: Option<WindowId>)
    requires WellFormed(w)
    ensures AdmittedStep(w, Admit(w, name, members, content, gap, mode, preferred, focused), name, members, content, gap, mode,
                         preferred, focused)
  {
    hide WellFormed, InitialLayout.InferTree, Sound;
    var i := Named(w.workspaces, name);
    if i < |w.workspaces| { NameOnce(w, i); }
    if focused.Some? {
      assert Listed(members, focused.value) <==> exists m :: m in members && m.id == focused.value;
    }
  }

  // ---------------------------------------------------------------- every step

  ghost predicate ForgetsTheOld(e: Engine, r: Engine, now: int) {
    forall x ::
      && (x in r.tombstones <==> x in e.tombstones && now - e.tombstones[x].at <= 5 * 60 * 1000)
      && (x in r.tombstones ==> r.tombstones[x] == e.tombstones[x])
  }

  /** What the step makes of the engine. */
  ghost predicate Makes(settings: Settings, e: Engine, event: Event, r: Engine) {
    var w, v := e.world, r.world;
    match event
    case Inserted(id, name, floating, beside, axis) => InsertedStep(settings, e, r, id, name, floating, beside, axis)
    case Removed(id, now) => RemovedStep(e, r, id, now)
    case Observed(o) => ObservedStep(w, v, o) && ForgetsTheOld(e, r, o.now)
    case _ =>
      r.tombstones == e.tombstones &&
      match event
      case Floated(id) => FloatedStep(w, v, id)
      case TiledAgain(id) => TiledStep(settings, w, v, id)
      case MovedBetween(id, name) => MovedBetweenStep(settings, w, v, id, name)
      case MovedInDirection(name, moved, direction, frames, gap, groups) => MovedStep(w, v, name, moved, direction, frames, gap, groups)
      case Configured(name, mode, preferred) => ConfiguredStep(w, v, name, mode, preferred)
      case Revealed(name, display) => RevealedStep(w, v, name, display)
      case RevealedParking(name, display, frames, fails) => RevealedParkingStep(w, v, name, display, frames, fails)
      case Pinned(name, display) => PinnedStep(w, v, name, display)
      case WorkspaceFocused(name) => FocusedStep(w, v, name)
      case Parked(name, frames) => ParkedStep(w, v, name, frames)
      case Retiled(name) => ParkedIsEmptied(w, v, name)
      case FocusSignalled(focus) => SignalledStep(w, v, focus)
      case AdmittedAtStartup(name, members, content, gap, mode, preferred, focused) =>
        AdmittedStep(w, v, name, members, content, gap, mode, preferred, focused)
      case _ => true
  }

  /** Every sensible step of a valid engine makes of every field exactly what it should, and leaves every other as it was. */
  lemma StepMakesExactly(settings: Settings, e: Engine, event: Event)
    requires Valid(e) && Sensible(e, event)
    ensures Makes(settings, e, event, Apply(settings, e, event))
  {
    hide WellFormed, TombstoneSound, MovesAstray, Insert, Remove, Float, Tile, MoveBetween, MoveDirection, Configure, Reveal,
         RevealParking, Pin, FocusWorkspace, Park, Unpark, RecordFocused, Signal, See, Admit, Newcomers,
         InsertedStep, RemovedStep, ObservedStep, FloatedStep, TiledStep, MovedBetweenStep, MovedStep, ConfiguredStep, RevealedStep,
         RevealedParkingStep, PinnedStep, FocusedStep, ParkedStep, ParkedIsEmptied, SignalledStep, AdmittedStep;
    var w := e.world;
    match event
    case Inserted(id, name, floating, beside, axis) => InsertingLaw(settings, e, id, name, floating, beside, axis);
    case Removed(id, now) => RemovingLaw(e, id, now);
    case Floated(id) => FloatingLaw(w, id);
    case TiledAgain(id) => TilingLaw(settings, w, id);
    case MovedBetween(id, name) => MovingLaw(settings, w, id, name);
    case MovedInDirection(name, moved, direction, frames, gap, groups) =>
      MovingInDirectionLaw(w, name, moved, direction, frames, gap, groups);
    case Configured(name, mode, preferred) => ConfiguringLaw(w, name, mode, preferred);
    case Revealed(name, display) => RevealingLaw(w, name, display);
    case RevealedParking(name, display, frames, fails) => RevealingParkingLaw(w, name, display, frames, fails);
    case Pinned(name, display) => PinningLaw(w, name, display);
    case WorkspaceFocused(name) => FocusingLaw(w, name);
    case Parked(name, frames) => ParkingLaw(w, name, frames);
    case Retiled(name) => ParkingLaw(w, name, map[]);
    case FocusSignalled(focus) => SignallingLaw(w, focus);
    case Observed(o) => ObservingLaw(w, o);
    case AdmittedAtStartup(name, members, content, gap, mode, preferred, focused) =>
      AdmittingLaw(w, name, members, content, gap, mode, preferred, focused);
  }
}
