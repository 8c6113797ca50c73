/** One visible workspace per display: which steps keep it, and exactly when one breaks it. */
module DisplayExclusivity {
  import opened Geometry
  import opened BspTree
  import opened Planner
  import opened Insertion
  import opened GeometricMove
  import opened Membership
  import opened MembershipInvariant
  import InitialLayout

  type Screens = seq<(string, Option<DisplayId>)>

  /** All that matters here of a list of workspaces. */
  function ScreensOf(all: seq<Workspace>): (r: Screens)
    ensures |r| == |all|
    ensures forall i :: 0 <= i < |all| ==> r[i] == (all[i].name, all[i].visibleOn)
  {
    seq(|all|, i requires 0 <= i < |all| => (all[i].name, all[i].visibleOn))
  }

  ghost predicate Exclusive(w: World) {
    forall i, j :: 0 <= i < j < |w.workspaces| && w.workspaces[i].visibleOn.Some? ==>
      w.workspaces[i].visibleOn != w.workspaces[j].visibleOn
  }

  /** Exclusive among the workspaces of other names. */
  ghost predicate ExclusiveBut(w: World, name: string) {
    forall i, j :: 0 <= i < j < |w.workspaces| && w.workspaces[i].name != name && w.workspaces[j].name != name ==>
      w.workspaces[i].visibleOn.Some? ==> w.workspaces[i].visibleOn != w.workspaces[j].visibleOn
  }

  ghost predicate DistinctNames(w: World) {
    forall i, j :: 0 <= i < j < |w.workspaces| ==> w.workspaces[i].name != w.workspaces[j].name
  }

  lemma NamesDiffer(w: World)
    requires WellFormed(w)
    ensures DistinctNames(w)
  {
    hide Sound;
    forall i, j | 0 <= i < j < |w.workspaces| ensures w.workspaces[i].name != w.workspaces[j].name {
      assert Apart(w.workspaces[i], w.workspaces[j]);
    }
  }

  lemma SameScreensSameAnswer(w: World, v: World)
    requires ScreensOf(w.workspaces) == ScreensOf(v.workspaces)
    ensures Exclusive(w) <==> Exclusive(v)
    ensures DistinctNames(w) <==> DistinctNames(v)
    ensures forall name :: ExclusiveBut(w, name) <==> ExclusiveBut(v, name)
  {
    var a, b := w.workspaces, v.workspaces;
    forall i | 0 <= i < |a| ensures a[i].name == b[i].name && a[i].visibleOn == b[i].visibleOn {
      assert ScreensOf(a)[i] == ScreensOf(b)[i];
    }
  }

  // ---------------------------------------------------------------- steps that leave the screens alone

  lemma PutLeavesScreens(w: World, i: nat, ws: Workspace)
    requires i < |w.workspaces| && ws.name == w.workspaces[i].name && ws.visibleOn == w.workspaces[i].visibleOn
    ensures ScreensOf(Put(w, i, ws).workspaces) == ScreensOf(w.workspaces)
  {
  }

  lemma RecordFocusedLeavesScreens(w: World, id: Option<WindowId>)
    ensures ScreensOf(RecordFocused(w, id).workspaces) == ScreensOf(w.workspaces)
  {
    hide Holds, Tiled, ScreensOf;
    if id.Some? {
      var i := Home(w.workspaces, id.value);
      if i < |w.workspaces| { PutLeavesScreens(w, i, Remembering(w.workspaces[i], id.value)); }
    }
  }

  lemma SignalLeavesScreens(w: World, focus: Option<WindowId>)
    ensures ScreensOf(Signal(w, focus).workspaces) == ScreensOf(w.workspaces)
  {
    hide ScreensOf, RecordFocused;
    RecordFocusedLeavesScreens(w, focus);
  }

  lemma {:induction false} SignalsLeaveScreens(w: World, signals: seq<Option<WindowId>>)
    ensures ScreensOf(SignalAll(w, signals).workspaces) == ScreensOf(w.workspaces)
    decreases |signals|
  {
    hide ScreensOf, Signal;
    if signals != [] {
      SignalLeavesScreens(w, signals[0]);
      SignalsLeaveScreens(Signal(w, signals[0]), signals[1..]);
    }
  }

  lemma SeeLeavesScreens(w: World, o: Sighting)
    ensures ScreensOf(See(w, o).workspaces) == ScreensOf(w.workspaces)
  {
    hide ScreensOf, RecordFocused, SignalAll;
    var looked := w.(displays := o.displays, windows := o.windows);
    SignalsLeaveScreens(looked, o.signals);
    var seen := Refocused(SignalAll(looked, o.signals), o.steady);
    RecordFocusedLeavesScreens(seen, seen.focusIntent);
  }

  lemma AdmitScreens(w: World, name: string, members: seq<InitialLayout.FramedWindow>, content: Frame, gap: int, mode: Mode,
                     preferred: Option<DisplayId>, focused: Option<WindowId>)
    ensures ScreensOf(Admit(w, name, members, content, gap, mode, preferred, focused).workspaces) == ScreensOf(w.workspaces)
  {
    hide InitialLayout.InferTree, Listed;
  }

  lemma RemovalLeavesScreen(id: WindowId, ws: Workspace)
    ensures RemoveFromMembership(id, ws).name == ws.name && RemoveFromMembership(id, ws).visibleOn == ws.visibleOn
  {
    hide RemoveLeaf, Others, TiledMembers;
  }

  lemma InsertTiledScreens(settings: Settings, w: World, name: string, id: WindowId, beside: Option<WindowId>,
                           axis: Option<Axis>)
    ensures ScreensOf(InsertTiledInto(settings, w, name, id, beside, axis).workspaces)
            == ScreensOf(EnsureWorkspace(w, name).workspaces)
  {
    hide InsertedTree, EnsureWorkspace, ScreensOf;
    var with := EnsureWorkspace(w, name);
    var i := Named(with.workspaces, name);
    var ws := with.workspaces[i];
    PutLeavesScreens(with, i, ws.(tree := InsertedTree(InsertionFor(settings, with, ws, id, beside, axis))));
  }

  lemma InsertScreens(settings: Settings, e: Engine, id: WindowId, name: string, floating: bool,
                      beside: Option<WindowId>, axis: Option<Axis>)
    ensures ScreensOf(Insert(settings, e, id, name, floating, beside, axis).world.workspaces)
            == if Home(e.world.workspaces, id) < |e.world.workspaces| then ScreensOf(e.world.workspaces)
               else ScreensOf(EnsureWorkspace(e.world, name).workspaces)
  {
    hide EnsureWorkspace, ScreensOf, Survives, Holds, RecordFocused, InsertTiledInto, ParkedAgain, Home;
    if Home(e.world.workspaces, id) == |e.world.workspaces| {
      var with := EnsureWorkspace(e.world, name);
      var i := Named(with.workspaces, name);
      InsertTiledScreens(settings, e.world, name, id, beside, axis);
      var inserted := if Restores(e, id, name) then InsertRestored(e, id, name)
                      else if floating then InsertFloating(e, id, name)
                      else InsertTiledInto(settings, e.world, name, id, beside, axis);
      if Restores(e, id, name) || floating {
        PutLeavesScreens(with, i, inserted.workspaces[i]);
      }
      RecordFocusedLeavesScreens(inserted, inserted.focusIntent);
    } else {
      assert Home(e.world.workspaces, id) < |e.world.workspaces|;
    }
  }

  lemma FloatScreens(w: World, id: WindowId)
    ensures ScreensOf(Float(w, id).workspaces) == ScreensOf(w.workspaces)
  {
    hide ScreensOf, RemoveFromMembership, Tiled;
    var i := TiledHome(w.workspaces, id);
    if i < |w.workspaces| {
      RemovalLeavesScreen(id, w.workspaces[i]);
      var removed := RemoveFromMembership(id, w.workspaces[i]);
      PutLeavesScreens(w, i, removed.(floating := removed.floating + {id}));
    }
  }

  lemma EnsureKnown(w: World, name: string)
    requires Named(w.workspaces, name) < |w.workspaces|
    ensures EnsureWorkspace(w, name) == w && EnsureHidden(w, name) == w
  {
  }

  lemma NamedIsThere(w: World, i: nat, ws: Workspace, name: string)
    requires i < |w.workspaces| && ws.name == w.workspaces[i].name && ws.name == name
    ensures Named(Put(w, i, ws).workspaces, name) < |w.workspaces|
  {
    assert Put(w, i, ws).workspaces[i].name == name;
  }

  lemma TileScreens(settings: Settings, w: World, id: WindowId)
    ensures ScreensOf(Tile(settings, w, id).workspaces) == ScreensOf(w.workspaces)
  {
    hide ScreensOf, RemoveFromMembership, InsertTiledInto, Named, EnsureWorkspace;
    var i := FloatingHome(w.workspaces, id);
    if i < |w.workspaces| {
      RemovalLeavesScreen(id, w.workspaces[i]);
      var removed := RemoveFromMembership(id, w.workspaces[i]);
      PutLeavesScreens(w, i, removed);
      NamedIsThere(w, i, removed, removed.name);
      EnsureKnown(Put(w, i, removed), removed.name);
      InsertTiledScreens(settings, Put(w, i, removed), removed.name, id, None, None);
    }
  }

  /** A move can only add a hidden workspace. */
  lemma MoveBetweenScreens(settings: Settings, w: World, id: WindowId, name: string)
    ensures ScreensOf(MoveBetween(settings, w, id, name).workspaces) == ScreensOf(w.workspaces)
         || ScreensOf(MoveBetween(settings, w, id, name).workspaces) == ScreensOf(w.workspaces) + [(name, None)]
  {
    hide ScreensOf, RemoveFromMembership, InsertTiledInto, EnsureHidden, EnsureWorkspace, Holds;
    var i := Home(w.workspaces, id);
    var left := if i < |w.workspaces| then Put(w, i, RemoveFromMembership(id, w.workspaces[i])) else w;
    if i < |w.workspaces| {
      RemovalLeavesScreen(id, w.workspaces[i]);
      PutLeavesScreens(w, i, RemoveFromMembership(id, w.workspaces[i]));
    }
    HiddenScreens(left, name);
    var arrived := EnsureHidden(left, name);
    var k := Named(arrived.workspaces, name);
    PutLeavesScreens(arrived, k, arrived.workspaces[k].(floating := arrived.workspaces[k].floating + {id}));
    EnsureKnown(arrived, name);
    InsertTiledScreens(settings, arrived, name, id, None, None);
  }

  lemma HiddenScreens(w: World, name: string)
    ensures ScreensOf(EnsureHidden(w, name).workspaces) == ScreensOf(w.workspaces)
         || ScreensOf(EnsureHidden(w, name).workspaces) == ScreensOf(w.workspaces) + [(name, None)]
  {
  }

  lemma HiddenKeepsExclusive(w: World, v: World, name: string)
    requires Exclusive(w)
    requires ScreensOf(v.workspaces) == ScreensOf(w.workspaces) || ScreensOf(v.workspaces) == ScreensOf(w.workspaces) + [(name, None)]
    ensures Exclusive(v)
  {
    var a, b := w.workspaces, v.workspaces;
    forall i | 0 <= i < |a| ensures b[i].visibleOn == a[i].visibleOn {
      assert ScreensOf(b)[i] == ScreensOf(a)[i];
    }
    if |b| > |a| {
      assert ScreensOf(b)[|a|] == (name, None);
    }
  }

  lemma ConfigureScreens(w: World, name: string, mode: Mode, preferred: Option<DisplayId>)
    ensures ScreensOf(Configure(w, name, mode, preferred).workspaces) == ScreensOf(EnsureHidden(w, name).workspaces)
  {
    hide ScreensOf, EnsureHidden;
    var known := EnsureHidden(w, name);
    var i := Named(known.workspaces, name);
    PutLeavesScreens(known, i, known.workspaces[i].(mode := mode, preferred := preferred));
  }

  lemma ParkScreens(w: World, name: string, frames: map<WindowId, Frame>)
    ensures ScreensOf(Park(w, name, frames).workspaces) == ScreensOf(w.workspaces)
    ensures ScreensOf(Unpark(w, name).workspaces) == ScreensOf(w.workspaces)
  {
    hide ScreensOf, Holds;
    var i := Named(w.workspaces, name);
    if i < |w.workspaces| {
      var ws := w.workspaces[i];
      PutLeavesScreens(w, i, ws.(parked := ws.parked + (map id | id in frames && Holds(ws, id) :: frames[id])));
      PutLeavesScreens(w, i, ws.(parked := map[]));
    }
  }

  lemma MoveDirectionScreens(w: World, name: string, moved: WindowId, direction: Direction, frames: Frames, gap: int,
                             groups: bool)
    ensures ScreensOf(MoveDirection(w, name, moved, direction, frames, gap, groups).workspaces) == ScreensOf(w.workspaces)
  {
    hide ScreensOf, Tiled, MoveGeometrically;
    var i := Named(w.workspaces, name);
    if i < |w.workspaces| {
      var ws := w.workspaces[i];
      var tree := MoveGeometrically(MoveInputFor(ws, moved, direction, frames, gap, groups));
      PutLeavesScreens(w, i, ws.(tree := tree, lastFocused := Some(moved)));
    }
  }

  // ---------------------------------------------------------------- creating a workspace on demand

  /** A workspace created now would appear on a display that already shows one. */
  predicate Crowds(w: World, name: string) {
    && Named(w.workspaces, name) == |w.workspaces|
    && HostForNew(w).Some?
    && exists i :: 0 <= i < |w.workspaces| && w.workspaces[i].visibleOn == HostForNew(w)
  }

  lemma EnsureExclusiveIff(w: World, name: string)
    requires Exclusive(w)
    ensures Exclusive(EnsureWorkspace(w, name)) <==> !Crowds(w, name)
    ensures ExclusiveBut(EnsureWorkspace(w, name), name)
  {
    hide HostForNew;
    var with := EnsureWorkspace(w, name);
    if Crowds(w, name) {
      var i :| 0 <= i < |w.workspaces| && w.workspaces[i].visibleOn == HostForNew(w);
      assert with.workspaces[i].visibleOn == with.workspaces[|w.workspaces|].visibleOn;
    }
  }

  /** A focused workspace that is on screen always crowds out a new one. */
  lemma FocusedWorkspaceCrowds(w: World, name: string)
    requires Named(w.workspaces, name) == |w.workspaces| && w.focusedWorkspace.Some?
    requires var k := Named(w.workspaces, w.focusedWorkspace.value);
             k < |w.workspaces| && w.workspaces[k].visibleOn.Some?
    ensures Crowds(w, name)
  {
    var k := Named(w.workspaces, w.focusedWorkspace.value);
    assert w.workspaces[k].visibleOn == HostForNew(w);
  }

  // ---------------------------------------------------------------- revealing

  lemma HideOccupantClears(w: World, name: string, display: DisplayId)
    requires ExclusiveBut(w, name)
    ensures var v := HideOccupant(w, name, display);
            && |v.workspaces| == |w.workspaces|
            && (forall i :: 0 <= i < |w.workspaces| ==> v.workspaces[i].name == w.workspaces[i].name)
            && (forall i :: 0 <= i < |w.workspaces| && v.workspaces[i].name != name ==> v.workspaces[i].visibleOn != Some(display))
            && ExclusiveBut(v, name)
  {
    var k := Occupant(w.workspaces, display, name);
    var v := HideOccupant(w, name, display);
    forall i | 0 <= i < |w.workspaces| && v.workspaces[i].name != name ensures v.workspaces[i].visibleOn != Some(display) {
      if w.workspaces[i].visibleOn == Some(display) {
        assert Showing(w.workspaces[i], display, name);
        assert k <= i;
        if k < i {
          assert false;
        }
      }
    }
  }

  /** Whatever the revealed workspace shared its display with before, afterwards every display shows one. */
  lemma RevealedIsExclusive(w: World, name: string, display: DisplayId)
    requires DistinctNames(w) && ExclusiveBut(w, name) && Named(w.workspaces, name) < |w.workspaces|
    ensures Exclusive(Show(HideOccupant(w, name, display), name, Some(display)))
  {
    hide HideOccupant;
    HideOccupantClears(w, name, display);
    var v := HideOccupant(w, name, display);
    assert v.workspaces[Named(w.workspaces, name)].name == name;
    var k := Named(v.workspaces, name);
    assert DistinctNames(v);
    var r := Show(v, name, Some(display));
    forall i, j | 0 <= i < j < |r.workspaces| && r.workspaces[i].visibleOn.Some?
      ensures r.workspaces[i].visibleOn != r.workspaces[j].visibleOn
    {
      assert i != k ==> v.workspaces[i].name != name;
      assert j != k ==> v.workspaces[j].name != name;
    }
  }

  lemma RevealExclusive(w: World, name: string, display: DisplayId)
    requires WellFormed(w) && ExclusiveBut(EnsureWorkspace(w, name), name)
    ensures Exclusive(Reveal(w, name, display))
  {
    hide WellFormed, EnsureWorkspace, HideOccupant, Show, ExclusiveBut;
    EnsureKeeps(w, name);
    NamesDiffer(EnsureWorkspace(w, name));
    RevealedIsExclusive(EnsureWorkspace(w, name), name, display);
  }

  /** What a reveal shows: the workspace on its display, the display's former occupant nowhere, and every other
      workspace where it was. */
  lemma RevealShowsExactly(w: World, name: string, display: DisplayId)
    requires WellFormed(w) && Exclusive(w)
    ensures var with, r := EnsureWorkspace(w, name), Reveal(w, name, display);
            && r == with.(workspaces := r.workspaces) && |r.workspaces| == |with.workspaces|
            && forall j :: 0 <= j < |r.workspaces| ==>
                 r.workspaces[j] == with.workspaces[j].(visibleOn := if with.workspaces[j].name == name then Some(display)
                                                                     else if with.workspaces[j].visibleOn == Some(display) then None
                                                                     else with.workspaces[j].visibleOn)
  {
    hide WellFormed, EnsureWorkspace, HideOccupant, Show, Exclusive, ExclusiveBut;
    EnsureKeeps(w, name);
    EnsureExclusiveIff(w, name);
    var with := EnsureWorkspace(w, name);
    NamesDiffer(with);
    var hidden := HideOccupant(with, name, display);
    HidesExactly(with, name, display);
    ShowsExactly(hidden, name, display);
  }

  lemma HidesExactly(w: World, name: string, display: DisplayId)
    requires ExclusiveBut(w, name)
    ensures var v := HideOccupant(w, name, display);
            && v == w.(workspaces := v.workspaces) && |v.workspaces| == |w.workspaces|
            && forall j :: 0 <= j < |w.workspaces| ==>
                 v.workspaces[j] == w.workspaces[j].(visibleOn := if Showing(w.workspaces[j], display, name) then None
                                                                  else w.workspaces[j].visibleOn)
  {
    var k := Occupant(w.workspaces, display, name);
    forall j | 0 <= j < |w.workspaces| && Showing(w.workspaces[j], display, name) ensures j == k {
      assert k <= j;
    }
  }

  lemma ShowsExactly(w: World, name: string, display: DisplayId)
    requires DistinctNames(w) && Named(w.workspaces, name) < |w.workspaces|
    ensures var v := Show(w, name, Some(display));
            && v == w.(workspaces := v.workspaces) && |v.workspaces| == |w.workspaces|
            && forall j :: 0 <= j < |w.workspaces| ==>
                 v.workspaces[j] == w.workspaces[j].(visibleOn := if w.workspaces[j].name == name then Some(display)
                                                                  else w.workspaces[j].visibleOn)
  {
  }

  lemma RevealParkingExclusiveIff(w: World, name: string, display: DisplayId, frames: map<WindowId, Frame>, fails: bool)
    requires WellFormed(w) && Exclusive(w)
    ensures Exclusive(RevealParking(w, name, display, frames, fails))
            <==> !(fails && Crowds(w, name) && Occupied(EnsureWorkspace(w, name), name, display))
  {
    hide WellFormed, EnsureWorkspace, HideOccupant, Show, ExclusiveBut, Exclusive, Park, Crowds, DistinctNames;
    EnsureKeeps(w, name);
    EnsureExclusiveIff(w, name);
    var with := EnsureWorkspace(w, name);
    NamesDiffer(with);
    var i := Occupant(with.workspaces, display, name);
    var parkedWorld := if i < |with.workspaces| then Park(with, with.workspaces[i].name, frames) else with;
    if i < |with.workspaces| {
      ParkScreens(with, with.workspaces[i].name, frames);
      SameScreensSameAnswer(with, parkedWorld);
      ParkKeepsNames(with, with.workspaces[i].name, frames, name);
    }
    if !(i < |with.workspaces| && fails) {
      RevealedIsExclusive(parkedWorld, name, display);
    }
  }

  lemma ParkKeepsNames(w: World, other: string, frames: map<WindowId, Frame>, name: string)
    requires Named(w.workspaces, name) < |w.workspaces|
    ensures Named(Park(w, other, frames).workspaces, name) < |Park(w, other, frames).workspaces|
  {
    hide Holds;
    var v := Park(w, other, frames);
    var k := Named(w.workspaces, name);
    assert v.workspaces[k].name == name;
  }

  /** Another workspace is on the display. */
  predicate Occupied(w: World, name: string, display: DisplayId) {
    Occupant(w.workspaces, display, name) < |w.workspaces|
  }

  lemma PinScreens(w: World, name: string, display: DisplayId)
    ensures ScreensOf(Pin(w, name, display).workspaces) == ScreensOf(EnsureWorkspace(w, name).workspaces)
    ensures Named(Pin(w, name, display).workspaces, name) < |Pin(w, name, display).workspaces|
  {
    hide ScreensOf, EnsureWorkspace;
    var with := EnsureWorkspace(w, name);
    var i := Named(with.workspaces, name);
    PutLeavesScreens(with, i, with.workspaces[i].(pinned := Some(display)));
    NamedIsThere(with, i, with.workspaces[i].(pinned := Some(display)), name);
  }

  lemma PinnedExclusive(w: World, name: string, display: DisplayId)
    requires WellFormed(w) && Exclusive(w)
    ensures Exclusive(Reveal(Pin(w, name, display), name, display))
  {
    hide WellFormed, EnsureWorkspace, Reveal, ExclusiveBut, Exclusive, Pin;
    EnsureExclusiveIff(w, name);
    PinScreens(w, name, display);
    SameScreensSameAnswer(EnsureWorkspace(w, name), Pin(w, name, display));
    PinKeeps(w, name, display);
    EnsureKnown(Pin(w, name, display), name);
    RevealExclusive(Pin(w, name, display), name, display);
  }

  lemma NoDisplayToFocus(w: World, name: string)
    requires Named(w.workspaces, name) < |w.workspaces|
    ensures DesiredDisplay(w, name).None? <==> w.displays == []
  {
  }

  lemma EnsureKeepsDisplays(w: World, name: string)
    ensures EnsureWorkspace(w, name).displays == w.displays
  {
  }

  lemma FocusExclusiveIff(w: World, name: string)
    requires WellFormed(w) && Exclusive(w)
    ensures Exclusive(FocusWorkspace(w, name)) <==> !(w.displays == [] && Crowds(w, name))
  {
    hide WellFormed, EnsureWorkspace, Reveal, ExclusiveBut, Exclusive, DesiredDisplay, Crowds;
    EnsureExclusiveIff(w, name);
    EnsureKeepsDisplays(w, name);
    EnsureKeeps(w, name);
    var with := EnsureWorkspace(w, name);
    NoDisplayToFocus(with, name);
    var focused := with.(focusedWorkspace := Some(name));
    SameScreensSameAnswer(with, focused);
    SameWorkspaces(with, focused);
    if DesiredDisplay(with, name).Some? {
      EnsureKnown(focused, name);
      RevealExclusive(focused, name, DesiredDisplay(with, name).value);
    }
  }

  // ---------------------------------------------------------------- every step, every run

  /** Of all steps one can imagine, those that put a second workspace on a display: a window inserted into a
      workspace that does not exist, a reveal of one whose parking fails half way, and focusing one with no display
      connected. The program's rules never ask for the first two. */
  predicate Doubles(e: Engine, event: Event) {
    match event
    case Inserted(id, name, _, _, _) => Home(e.world.workspaces, id) == |e.world.workspaces| && Crowds(e.world, name)
    case RevealedParking(name, display, _, fails) =>
      fails && Crowds(e.world, name) && Occupied(EnsureWorkspace(e.world, name), name, display)
    case WorkspaceFocused(name) => e.world.displays == [] && Crowds(e.world, name)
    case _ => false
  }

  /** Exactly those steps, and no other, break exclusivity. */
  lemma StepKeepsExclusiveIff(settings: Settings, e: Engine, event: Event)
    requires WellFormed(e.world) && Exclusive(e.world)
    ensures Exclusive(Apply(settings, e, event).world) <==> !Doubles(e, event)
  {
    hide WellFormed, Exclusive, ExclusiveBut, Crowds, Occupied, ScreensOf, Insert, Float, Tile, MoveBetween,
      MoveDirection,
      Configure, Reveal, RevealParking, Pin, FocusWorkspace, Park, Unpark, RecordFocused, EnsureWorkspace, EnsureHidden, Home,
      RemoveFromMembership, Holds, Signal, See, Admit;
    var w := e.world;
    var r := Apply(settings, e, event).world;
    match event
    case Inserted(id, name, floating, beside, axis) =>
      InsertScreens(settings, e, id, name, floating, beside, axis);
      EnsureExclusiveIff(w, name);
      SameScreensSameAnswer(if Home(w.workspaces, id) < |w.workspaces| then w else EnsureWorkspace(w, name), r);
    case Removed(id, now) => RemoveScreens(e, id, now); SameScreensSameAnswer(w, r);
    case Floated(id) => FloatScreens(w, id); SameScreensSameAnswer(w, r);
    case TiledAgain(id) => TileScreens(settings, w, id); SameScreensSameAnswer(w, r);
    case MovedBetween(id, name) => MoveBetweenScreens(settings, w, id, name); HiddenKeepsExclusive(w, r, name);
    case MovedInDirection(name, moved, direction, frames, gap, groups) =>
      MoveDirectionScreens(w, name, moved, direction, frames, gap, groups); SameScreensSameAnswer(w, r);
    case Configured(name, mode, preferred) =>
      ConfigureScreens(w, name, mode, preferred); HiddenScreens(w, name); HiddenKeepsExclusive(w, r, name);
    case Revealed(name, display) => EnsureExclusiveIff(w, name); RevealExclusive(w, name, display);
    case RevealedParking(name, display, frames, fails) => RevealParkingExclusiveIff(w, name, display, frames, fails);
    case Pinned(name, display) => PinnedExclusive(w, name, display);
    case WorkspaceFocused(name) => FocusExclusiveIff(w, name);
    case Parked(name, frames) => ParkScreens(w, name, frames); SameScreensSameAnswer(w, r);
    case Retiled(name) => ParkScreens(w, name, map[]); SameScreensSameAnswer(w, r);
    case FocusSignalled(focus) => SignalLeavesScreens(w, focus); SameScreensSameAnswer(w, r);
    case Observed(o) => SeeLeavesScreens(w, o); SameScreensSameAnswer(w, r);
    case AdmittedAtStartup(name, members, content, gap, mode, preferred, focused) =>
      AdmitScreens(w, name, members, content, gap, mode, preferred, focused); SameScreensSameAnswer(w, r);
  }

  lemma RemoveScreens(e: Engine, id: WindowId, now: int)
    ensures ScreensOf(Remove(e, id, now).world.workspaces) == ScreensOf(e.world.workspaces)
  {
    hide ScreensOf, RemoveFromMembership, Holds;
    var i := Home(e.world.workspaces, id);
    if i < |e.world.workspaces| {
      RemovalLeavesScreen(id, e.world.workspaces[i]);
      PutLeavesScreens(e.world, i, RemoveFromMembership(id, e.world.workspaces[i]));
    }
  }

  /** A run shows one workspace per display at every point. */
  ghost predicate ExclusiveThroughout(settings: Settings, e: Engine, events: seq<Event>)
    decreases |events|
  {
    Exclusive(e.world) && (events != [] ==> ExclusiveThroughout(settings, Apply(settings, e, events[0]), events[1..]))
  }

  lemma ValidWorld(e: Engine)
    requires Valid(e)
    ensures WellFormed(e.world)
  {
  }

  // ---------------------------------------------------------------- the program's own runs

  predicate Known(w: World, name: string) {
    Named(w.workspaces, name) < |w.workspaces|
  }

  /** The workspace a rule's action is about. The rules look it up before they ask for an insertion or a direct
      reveal; commands create theirs on demand. */
  function RuleTarget(event: Event): Option<string> {
    match event
    case Inserted(_, name, _, _, _) => Some(name)
    case RevealedParking(name, _, _, _) => Some(name)
    case _ => None
  }

  ghost predicate Emitted(e: Engine, event: Event) {
    Sensible(e, event) && (RuleTarget(event).Some? ==> Known(e.world, RuleTarget(event).value))
  }

  ghost predicate EmittedRun(settings: Settings, e: Engine, events: seq<Event>)
    decreases |events|
  {
    events != [] ==> Emitted(e, events[0]) && EmittedRun(settings, Apply(settings, e, events[0]), events[1..])
  }

  /** The focused workspace is, or was when a display was last connected, shown on one. */
  predicate FocusRemembersDisplay(w: World) {
    w.focusedWorkspace.Some?
    && var k := Named(w.workspaces, w.focusedWorkspace.value);
       k < |w.workspaces| && w.workspaces[k].visibleOn.Some?
  }

  /** Focusing a workspace that does not exist, with no display connected, while the focused one still remembers
      its display. */
  predicate FocusesBlindly(w: World, event: Event) {
    match event
    case WorkspaceFocused(name) => w.displays == [] && !Known(w, name) && FocusRemembersDisplay(w)
    case _ => false
  }

  lemma CrowdsWithoutDisplays(w: World, name: string)
    requires w.displays == []
    ensures Crowds(w, name) <==> !Known(w, name) && FocusRemembersDisplay(w)
  {
    if !Known(w, name) && FocusRemembersDisplay(w) {
      FocusedWorkspaceCrowds(w, name);
    }
  }

  /** Among the steps the program takes, blind focusing is the only one that breaks exclusivity. */
  lemma EmittedStepKeepsExclusiveIff(settings: Settings, e: Engine, event: Event)
    requires WellFormed(e.world) && Exclusive(e.world) && Emitted(e, event)
    ensures Exclusive(Apply(settings, e, event).world) <==> !FocusesBlindly(e.world, event)
  {
    hide WellFormed, Exclusive, Apply, HostForNew, FocusRemembersDisplay;
    StepKeepsExclusiveIff(settings, e, event);
    if event.WorkspaceFocused? && e.world.displays == [] {
      CrowdsWithoutDisplays(e.world, event.name);
    }
  }

  ghost predicate NeverBlind(settings: Settings, e: Engine, events: seq<Event>)
    decreases |events|
  {
    events != [] ==> !FocusesBlindly(e.world, events[0]) && NeverBlind(settings, Apply(settings, e, events[0]), events[1..])
  }

  lemma EmittedIsSensible(e: Engine, event: Event)
    requires Emitted(e, event)
    ensures Sensible(e, event)
  {
  }

  /** A run of the program shows one workspace per display at every point if and only if no step focuses blindly. */
  lemma {:induction false} ProgramRunIsExclusiveIff(settings: Settings, e: Engine, events: seq<Event>)
    requires Valid(e) && Exclusive(e.world) && EmittedRun(settings, e, events)
    ensures ExclusiveThroughout(settings, e, events) <==> NeverBlind(settings, e, events)
    decreases |events|
  {
    hide Valid, Apply, Emitted, Exclusive, FocusesBlindly;
    if events != [] {
      ValidWorld(e);
      EmittedIsSensible(e, events[0]);
      EmittedStepKeepsExclusiveIff(settings, e, events[0]);
      StepKeepsMembership(settings, e, events[0]);
      if !FocusesBlindly(e.world, events[0]) {
        ProgramRunIsExclusiveIff(settings, Apply(settings, e, events[0]), events[1..]);
      }
    }
  }

  lemma StartIsExclusive()
    ensures Valid(START) && Exclusive(START.world)
  {
    EmptyHoldsNothing();
    assert Sound(START.world.workspaces[0]);
    assert WellFormed(START.world);
  }

  /** From start-up every run of the program is exclusive throughout, unless it focuses blindly. */
  lemma StartedRunIsExclusiveIff(settings: Settings, events: seq<Event>)
    requires EmittedRun(settings, START, events)
    ensures ExclusiveThroughout(settings, START, events) <==> NeverBlind(settings, START, events)
  {
    StartIsExclusive();
    ProgramRunIsExclusiveIff(settings, START, events);
  }

  // ---------------------------------------------------------------- workspaces are never deleted

  /** Every workspace is still there, in its place in the order. */
  ghost predicate KeepsNames(w: World, v: World) {
    |w.workspaces| <= |v.workspaces| && forall i :: 0 <= i < |w.workspaces| ==> v.workspaces[i].name == w.workspaces[i].name
  }

  lemma SameScreensKeepNames(w: World, v: World)
    requires ScreensOf(w.workspaces) <= ScreensOf(v.workspaces)
    ensures KeepsNames(w, v)
  {
    forall i | 0 <= i < |w.workspaces| ensures v.workspaces[i].name == w.workspaces[i].name {
      assert ScreensOf(v.workspaces)[i] == ScreensOf(w.workspaces)[i];
    }
  }

  lemma KeepsNamesChain(a: World, b: World, c: World)
    requires KeepsNames(a, b) && KeepsNames(b, c)
    ensures KeepsNames(a, c)
  {
  }

  lemma EnsureKeepsNames(w: World, name: string)
    ensures KeepsNames(w, EnsureWorkspace(w, name))
  {
  }

  lemma ShowKeepsNames(w: World, name: string, display: DisplayId)
    ensures KeepsNames(w, Show(w, name, Some(display)))
  {
  }

  lemma HideKeepsNames(w: World, name: string, display: DisplayId)
    ensures KeepsNames(w, HideOccupant(w, name, display))
  {
  }

  lemma RevealKeepsNames(w: World, name: string, display: DisplayId)
    ensures KeepsNames(w, Show(HideOccupant(w, name, display), name, Some(display)))
    ensures KeepsNames(w, Reveal(w, name, display))
  {
    hide EnsureWorkspace, HideOccupant, Show, KeepsNames;
    EnsureKeepsNames(w, name);
    var with := EnsureWorkspace(w, name);
    HideKeepsNames(w, name, display);
    ShowKeepsNames(HideOccupant(w, name, display), name, display);
    KeepsNamesChain(w, HideOccupant(w, name, display), Show(HideOccupant(w, name, display), name, Some(display)));
    HideKeepsNames(with, name, display);
    ShowKeepsNames(HideOccupant(with, name, display), name, display);
    KeepsNamesChain(with, HideOccupant(with, name, display), Reveal(w, name, display));
    KeepsNamesChain(w, with, Reveal(w, name, display));
  }

  lemma RevealParkingKeepsNames(w: World, name: string, display: DisplayId, frames: map<WindowId, Frame>, fails: bool)
    ensures KeepsNames(w, RevealParking(w, name, display, frames, fails))
  {
    hide EnsureWorkspace, ScreensOf, Park, HideOccupant, Show, KeepsNames, Reveal;
    EnsureKeepsNames(w, name);
    var with := EnsureWorkspace(w, name);
    var i := Occupant(with.workspaces, display, name);
    var parkedWorld := if i < |with.workspaces| then Park(with, with.workspaces[i].name, frames) else with;
    if i < |with.workspaces| {
      ParkScreens(with, with.workspaces[i].name, frames);
    }
    SameScreensKeepNames(with, parkedWorld);
    KeepsNamesChain(w, with, parkedWorld);
    RevealKeepsNames(parkedWorld, name, display);
    KeepsNamesChain(w, parkedWorld, Show(HideOccupant(parkedWorld, name, display), name, Some(display)));
  }

  lemma FocusKeepsNames(w: World, name: string)
    ensures KeepsNames(w, FocusWorkspace(w, name))
  {
    hide EnsureWorkspace, Reveal, DesiredDisplay;
    EnsureKeepsNames(w, name);
    var with := EnsureWorkspace(w, name);
    var focused := with.(focusedWorkspace := Some(name));
    var display := DesiredDisplay(with, name);
    if display.Some? {
      RevealKeepsNames(focused, name, display.value);
      KeepsNamesChain(w, focused, Reveal(focused, name, display.value));
    }
  }

  lemma StepKeepsNames(settings: Settings, e: Engine, event: Event)
    ensures KeepsNames(e.world, Apply(settings, e, event).world)
  {
    hide KeepsNames, ScreensOf, Insert, Float, Tile, MoveBetween, MoveDirection, Configure, Reveal, RevealParking, Pin,
      FocusWorkspace, Park, Unpark, RecordFocused, EnsureWorkspace, EnsureHidden, Home, RemoveFromMembership, Holds, Signal,
      See, Admit;
    var w := e.world;
    var r := Apply(settings, e, event).world;
    match event
    case Inserted(id, name, floating, beside, axis) =>
      InsertScreens(settings, e, id, name, floating, beside, axis);
      var host := if Home(w.workspaces, id) < |w.workspaces| then w else EnsureWorkspace(w, name);
      SameScreensKeepNames(w, w);
      EnsureKeepsNames(w, name);
      SameScreensKeepNames(host, r);
      KeepsNamesChain(w, host, r);
    case Removed(id, now) => RemoveScreens(e, id, now); SameScreensKeepNames(w, r);
    case Floated(id) => FloatScreens(w, id); SameScreensKeepNames(w, r);
    case TiledAgain(id) => TileScreens(settings, w, id); SameScreensKeepNames(w, r);
    case MovedBetween(id, name) => MoveBetweenScreens(settings, w, id, name); SameScreensKeepNames(w, r);
    case MovedInDirection(name, moved, direction, frames, gap, groups) =>
      MoveDirectionScreens(w, name, moved, direction, frames, gap, groups); SameScreensKeepNames(w, r);
    case Configured(name, mode, preferred) =>
      ConfigureScreens(w, name, mode, preferred); HiddenScreens(w, name); SameScreensKeepNames(w, r);
    case Revealed(name, display) => RevealKeepsNames(w, name, display);
    case RevealedParking(name, display, frames, fails) => RevealParkingKeepsNames(w, name, display, frames, fails);
    case Pinned(name, display) =>
      EnsureKeepsNames(w, name);
      PinScreens(w, name, display);
      SameScreensKeepNames(EnsureWorkspace(w, name), Pin(w, name, display));
      KeepsNamesChain(w, EnsureWorkspace(w, name), Pin(w, name, display));
      RevealKeepsNames(Pin(w, name, display), name, display);
      KeepsNamesChain(w, Pin(w, name, display), r);
    case WorkspaceFocused(name) => FocusKeepsNames(w, name);
    case Parked(name, frames) => ParkScreens(w, name, frames); SameScreensKeepNames(w, r);
    case Retiled(name) => ParkScreens(w, name, map[]); SameScreensKeepNames(w, r);
    case FocusSignalled(focus) => SignalLeavesScreens(w, focus); SameScreensKeepNames(w, r);
    case Observed(o) => SeeLeavesScreens(w, o); SameScreensKeepNames(w, r);
    case AdmittedAtStartup(name, members, content, gap, mode, preferred, focused) =>
      AdmitScreens(w, name, members, content, gap, mode, preferred, focused); SameScreensKeepNames(w, r);
  }

  lemma KnownStays(w: World, v: World, name: string)
    requires KeepsNames(w, v) && Known(w, name)
    ensures Known(v, name)
  {
    assert v.workspaces[Named(w.workspaces, name)].name == name;
  }

  /** Rules look their workspaces up when a pass is planned. As none is ever deleted, whatever steps come between,
      every action of the pass still finds its workspace when its turn comes. */
  lemma {:induction false} PlannedPassIsEmitted(settings: Settings, e: Engine, events: seq<Event>)
    requires SensibleRun(settings, e, events)
    requires forall i :: 0 <= i < |events| && RuleTarget(events[i]).Some? ==> Known(e.world, RuleTarget(events[i]).value)
    ensures EmittedRun(settings, e, events)
    decreases |events|
  {
    hide Sensible, Apply, Known, KeepsNames;
    if events != [] {
      var next, rest := Apply(settings, e, events[0]), events[1..];
      StepKeepsNames(settings, e, events[0]);
      forall i | 0 <= i < |rest| && RuleTarget(rest[i]).Some? ensures Known(next.world, RuleTarget(rest[i]).value) {
        assert rest[i] == events[i + 1];
        KnownStays(e.world, next.world, RuleTarget(rest[i]).value);
      }
      PlannedPassIsEmitted(settings, next, rest);
    }
  }

  // ---------------------------------------------------------------- a run that focuses blindly

  /** A display is seen, the first workspace is focused on it, the display goes away, another workspace is focused. */
  function BlindRun(display: DisplayId, name: string): seq<Event> {
    [Observed(Empty([Display(display, true)], 0)), WorkspaceFocused("1"), Observed(Empty([], 1)), WorkspaceFocused(name)]
  }

  /** A look that finds no windows and no focus. */
  function Empty(displays: seq<Display>, now: int): Sighting {
    Sighting(displays, map[], now, [], true)
  }

  lemma AfterFour(settings: Settings, e: Engine, a: Event, b: Event, c: Event, d: Event)
    ensures var e1 := Apply(settings, e, a);
            var e2 := Apply(settings, e1, b);
            var e3 := Apply(settings, e2, c);
            && After(settings, e, [a, b, c, d]) == Apply(settings, e3, d)
            && (Emitted(e, a) && Emitted(e1, b) && Emitted(e2, c) && Emitted(e3, d) ==> EmittedRun(settings, e, [a, b, c, d]))
  {
    hide Apply, Emitted;
    var e1 := Apply(settings, e, a);
    var e2 := Apply(settings, e1, b);
    var e3 := Apply(settings, e2, c);
    assert [a, b, c, d][1..] == [b, c, d] && [b, c, d][1..] == [c, d] && [c, d][1..] == [d];
    assert [d][1..] == [];
    assert After(settings, e3, [d]) == Apply(settings, e3, d);
    assert After(settings, e2, [c, d]) == After(settings, e3, [d]);
    assert EmittedRun(settings, Apply(settings, e3, d), []);
    assert Emitted(e3, d) ==> EmittedRun(settings, e3, [d]);
    assert Emitted(e2, c) && Emitted(e3, d) ==> EmittedRun(settings, e2, [c, d]);
  }

  function OneShown(displays: seq<Display>, on: Option<DisplayId>): Engine {
    Engine(World(displays, map[], [NewWorkspace("1", on)], Some("1"), None), map[])
  }

  lemma FirstFocus(settings: Settings, display: DisplayId)
    ensures Apply(settings, OneShown([Display(display, true)], None), WorkspaceFocused("1"))
            == OneShown([Display(display, true)], Some(display))
  {
    var e := OneShown([Display(display, true)], None);
    assert Named(e.world.workspaces, "1") == 0;
    assert EnsureWorkspace(e.world, "1") == e.world;
    assert PrimaryDisplay(e.world.displays) == Some(Display(display, true));
    assert DesiredDisplay(e.world, "1") == Some(display);
    assert Occupant(e.world.workspaces, display, "1") == 1;
  }

  lemma LastFocus(settings: Settings, display: DisplayId, name: string)
    requires name != "1"
    ensures var e := OneShown([], Some(display));
            && FocusesBlindly(e.world, WorkspaceFocused(name))
            && Apply(settings, e, WorkspaceFocused(name)).world.workspaces
               == [NewWorkspace("1", Some(display)), NewWorkspace(name, Some(display))]
  {
    var e := OneShown([], Some(display));
    assert Named(e.world.workspaces, "1") == 0 && Named(e.world.workspaces, name) == 1;
    var with := EnsureWorkspace(e.world, name);
    assert with.workspaces == [NewWorkspace("1", Some(display)), NewWorkspace(name, Some(display))];
    NoDisplayToFocus(with, name);
  }

  /** A run from start-up that ends with two workspaces on the display that went away. */
  lemma BlindFocusDoubles(settings: Settings, display: DisplayId, name: string)
    requires name != "1"
    ensures EmittedRun(settings, START, BlindRun(display, name))
    ensures !Exclusive(After(settings, START, BlindRun(display, name)).world)
  {
    hide Apply, EnsureWorkspace, FocusesBlindly;
    var run := BlindRun(display, name);
    var e1 := OneShown([Display(display, true)], None);
    assert Apply(settings, START, run[0]) == e1 by { Noticed(settings, START, [Display(display, true)], 0); }
    FirstFocus(settings, display);
    var e2 := OneShown([Display(display, true)], Some(display));
    var e3 := OneShown([], Some(display));
    assert Apply(settings, e2, run[2]) == e3 by { Noticed(settings, e2, [], 1); }
    LastFocus(settings, display, name);
    AfterFour(settings, START, run[0], run[1], run[2], run[3]);
    assert run == [run[0], run[1], run[2], run[3]];
    var w := Apply(settings, e3, run[3]).world;
    assert w.workspaces[0].visibleOn == w.workspaces[1].visibleOn == Some(display);
  }

  lemma Noticed(settings: Settings, e: Engine, displays: seq<Display>, now: int)
    requires e.tombstones == map[] && e.world.focusIntent == None
    ensures Apply(settings, e, Observed(Empty(displays, now))) == Engine(e.world.(displays := displays, windows := map[]), map[])
  {
  }
}
