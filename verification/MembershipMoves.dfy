/** What every step does to every window: exactly the intended moves, and nothing else. */
module MembershipMoves {
  import opened Geometry
  import opened BspTree
  import opened Planner
  import opened Insertion
  import opened GeometricMove
  import opened GeometricMoveTheorems
  import opened Membership
  import opened MembershipInvariant
  import opened TombstoneReturns
  import InitialLayout

  datatype Spot = Nowhere | TiledIn(name: string) | FloatingIn(name: string)

  function SpotIn(ws: Workspace, x: WindowId): Spot {
    if x in ws.floating then FloatingIn(ws.name) else TiledIn(ws.name)
  }

  /** Where a window belongs. */
  function SpotOf(w: World, x: WindowId): Spot {
    var i := Home(w.workspaces, x);
    if i == |w.workspaces| then Nowhere else SpotIn(w.workspaces[i], x)
  }

  /** Where a window should belong after a step. */
  function SpotAfter(e: Engine, event: Event, x: WindowId): Spot {
    var spot := SpotOf(e.world, x);
    match event
    case Inserted(id, name, floating, _, _) =>
      if x != id || !spot.Nowhere? then spot
      else if floating && !Restores(e, id, name) then FloatingIn(name) else TiledIn(name)
    case Removed(id, _) => if x == id then Nowhere else spot
    case Floated(id) => if x == id && spot.TiledIn? then FloatingIn(spot.name) else spot
    case TiledAgain(id) => if x == id && spot.FloatingIn? then TiledIn(spot.name) else spot
    case MovedBetween(id, name) =>
      if x != id then spot else if spot.FloatingIn? then FloatingIn(name) else TiledIn(name)
    case AdmittedAtStartup(name, members, _, _, _, _, _) =>
      var i := Named(e.world.workspaces, name);
      if i < |e.world.workspaces| && IsEmptyTree(e.world.workspaces[i].tree) && Listed(members, x) then TiledIn(name) else spot
    case _ => spot
  }

  // ---------------------------------------------------------------- spots of edited worlds

  lemma SpotIs(w: World, i: nat, x: WindowId)
    requires WellFormed(w) && i < |w.workspaces| && Holds(w.workspaces[i], x)
    ensures SpotOf(w, x) == SpotIn(w.workspaces[i], x)
  {
    hide WellFormed, Holds;
    HomeIsUnique(w, i, x);
  }

  lemma SpotNowhere(w: World, x: WindowId)
    ensures SpotOf(w, x).Nowhere? <==> Homeless(w, x)
  {
    hide Holds;
    HomelessIffNoHome(w, x);
  }

  /** One workspace edited: its windows are where it says, the others where they were. */
  lemma PutSpot(w: World, i: nat, ws: Workspace, x: WindowId)
    requires WellFormed(w) && i < |w.workspaces| && WellFormed(Put(w, i, ws)) && ws.name == w.workspaces[i].name
    ensures SpotOf(Put(w, i, ws), x)
            == if Holds(ws, x) then SpotIn(ws, x) else if Holds(w.workspaces[i], x) then Nowhere else SpotOf(w, x)
  {
    hide WellFormed, Holds, SpotOf, Homeless;
    var v := Put(w, i, ws);
    if Holds(ws, x) {
      SpotIs(v, i, x);
    } else if Holds(w.workspaces[i], x) {
      OnlyHome(w, i, x);
      NowHomeless(w, i, ws, x);
      SpotNowhere(v, x);
    } else if Home(w.workspaces, x) < |w.workspaces| {
      var h := Home(w.workspaces, x);
      SpotIs(w, h, x);
      SpotIs(v, h, x);
    } else {
      HomelessIffNoHome(w, x);
      StillHomeless(w, i, ws, x);
      SpotNowhere(v, x);
      SpotNowhere(w, x);
    }
  }

  lemma OnlyHome(w: World, i: nat, x: WindowId)
    requires WellFormed(w) && i < |w.workspaces| && Holds(w.workspaces[i], x)
    ensures forall j :: 0 <= j < |w.workspaces| && j != i ==> !Holds(w.workspaces[j], x)
  {
    hide Sound, Holds;
    forall j | 0 <= j < |w.workspaces| && j != i ensures !Holds(w.workspaces[j], x) {
      if j < i {
        assert Apart(w.workspaces[j], w.workspaces[i]);
      } else {
        assert Apart(w.workspaces[i], w.workspaces[j]);
      }
    }
  }

  lemma NowHomeless(w: World, i: nat, ws: Workspace, x: WindowId)
    requires i < |w.workspaces| && !Holds(ws, x)
    requires forall j :: 0 <= j < |w.workspaces| && j != i ==> !Holds(w.workspaces[j], x)
    ensures Homeless(Put(w, i, ws), x)
  {
    hide Holds;
  }

  lemma StillHomeless(w: World, i: nat, ws: Workspace, x: WindowId)
    requires i < |w.workspaces| && !Holds(ws, x) && Homeless(w, x)
    ensures Homeless(Put(w, i, ws), x)
  {
    hide Holds;
  }

  /** Same windows in the same way: nothing has moved. */
  ghost predicate SameHolding(a: Workspace, b: Workspace, x: WindowId) {
    a.name == b.name && (Holds(a, x) <==> Holds(b, x)) && (x in a.floating <==> x in b.floating)
  }

  lemma PutSame(w: World, i: nat, ws: Workspace, x: WindowId)
    requires WellFormed(w) && i < |w.workspaces| && WellFormed(Put(w, i, ws)) && SameHolding(ws, w.workspaces[i], x)
    ensures SpotOf(Put(w, i, ws), x) == SpotOf(w, x)
  {
    hide WellFormed, Holds, SpotOf;
    PutSpot(w, i, ws, x);
    if Holds(ws, x) { SpotIs(w, i, x); }
  }

  lemma AppendSame(w: World, name: string, visibleOn: Option<DisplayId>, x: WindowId)
    requires WellFormed(w) && Named(w.workspaces, name) == |w.workspaces|
    ensures SpotOf(w.(workspaces := w.workspaces + [NewWorkspace(name, visibleOn)]), x) == SpotOf(w, x)
  {
    hide WellFormed, Holds, SpotOf, Homeless;
    AppendKeeps(w, name, visibleOn);
    var v := w.(workspaces := w.workspaces + [NewWorkspace(name, visibleOn)]);
    if Home(w.workspaces, x) < |w.workspaces| {
      var h := Home(w.workspaces, x);
      SpotIs(w, h, x);
      SpotIs(v, h, x);
    } else {
      HomelessIffNoHome(w, x);
      AppendedHomeless(w, NewWorkspace(name, visibleOn), x);
      SpotNowhere(v, x);
      SpotNowhere(w, x);
    }
  }

  lemma AppendedHomeless(w: World, ws: Workspace, x: WindowId)
    requires Homeless(w, x) && !Holds(ws, x)
    ensures Homeless(w.(workspaces := w.workspaces + [ws]), x)
  {
    hide Holds;
  }

  lemma EnsureSame(w: World, name: string, x: WindowId)
    requires WellFormed(w)
    ensures SpotOf(EnsureWorkspace(w, name), x) == SpotOf(w, x) && SpotOf(EnsureHidden(w, name), x) == SpotOf(w, x)
  {
    hide WellFormed, SpotOf, HostForNew;
    if Named(w.workspaces, name) == |w.workspaces| {
      AppendSame(w, name, HostForNew(w), x);
      AppendSame(w, name, None, x);
    }
  }

  // ---------------------------------------------------------------- the moves, one by one

  lemma InsertTiledSpot(settings: Settings, w: World, name: string, id: WindowId, beside: Option<WindowId>,
                        axis: Option<Axis>,
                        x: WindowId)
    requires WellFormed(w) && Homeless(w, id) && id != EMPTY_LEAF
    ensures SpotOf(InsertTiledInto(settings, w, name, id, beside, axis), x) == if x == id then TiledIn(name) else SpotOf(w, x)
  {
    hide WellFormed, Sound, Holds, SpotOf, InsertedTree, EnsureWorkspace, Homeless;
    EnsureKeeps(w, name);
    EnsureSame(w, name, x);
    var with := EnsureWorkspace(w, name);
    var i := Named(with.workspaces, name);
    var ws := with.workspaces[i];
    var input := InsertionFor(settings, with, ws, id, beside, axis);
    SoundAt(with, i);
    HomelessAt(with, i, id);
    InsertionSound(ws, input);
    InsertTiledKeeps(settings, w, name, id, beside, axis);
    PutSpot(with, i, ws.(tree := InsertedTree(input)), x);
    if x != id && Holds(ws, x) { SpotIs(with, i, x); }
    if x == id { HeldApart(ws, id); }
  }

  lemma HomelessAt(w: World, i: nat, id: WindowId)
    requires i < |w.workspaces| && Homeless(w, id)
    ensures !Holds(w.workspaces[i], id)
  {
  }

  lemma HeldApart(ws: Workspace, id: WindowId)
    requires !Holds(ws, id)
    ensures id !in ws.floating
  {
  }

  lemma RemovalSpot(w: World, i: nat, id: WindowId, x: WindowId)
    requires WellFormed(w) && i < |w.workspaces| && Holds(w.workspaces[i], id)
    ensures SpotOf(Put(w, i, RemoveFromMembership(id, w.workspaces[i])), x) == if x == id then Nowhere else SpotOf(w, x)
  {
    hide WellFormed, Sound, Holds, SpotOf, RemoveLeaf, Others, TiledMembers, Homeless;
    var ws := w.workspaces[i];
    RemovalKeeps(w, i, id);
    SoundAt(w, i);
    RemovalSound(ws, id);
    PutSpot(w, i, RemoveFromMembership(id, ws), x);
    if x != id && Holds(ws, x) { SpotIs(w, i, x); }
  }

  lemma RememberedSpot(w: World, focus: Option<WindowId>, x: WindowId)
    requires WellFormed(w)
    ensures SpotOf(RecordFocused(w, focus), x) == SpotOf(w, x)
  {
    hide WellFormed, Holds, SpotOf, Tiled;
    RecordFocusedKeeps(w, focus);
    if focus.Some? {
      var i := Home(w.workspaces, focus.value);
      if i < |w.workspaces| {
        RememberingHolds(w.workspaces[i], focus.value);
        if focus.value in w.windows && w.windows[focus.value] {
          PutSame(w, i, Remembering(w.workspaces[i], focus.value), x);
        }
      }
    }
  }

  lemma FloatSpot(w: World, id: WindowId, x: WindowId)
    requires WellFormed(w)
    ensures var spot := SpotOf(w, x);
            SpotOf(Float(w, id), x) == if x == id && spot.TiledIn? then FloatingIn(spot.name) else spot
  {
    hide WellFormed, Sound, Holds, SpotOf, RemoveFromMembership, Tiled;
    FloatKeeps(w, id);
    var i := TiledHome(w.workspaces, id);
    if i < |w.workspaces| {
      var ws := w.workspaces[i];
      HoldsTiled(ws, id);
      SoundAt(w, i);
      TiledIsNotFloating(ws, id);
      RemovalSound(ws, id);
      RemovalFloats(ws, id);
      var floated := RemoveFromMembership(id, ws).(floating := ws.floating - {id} + {id});
      FloatedHolds(RemoveFromMembership(id, ws), id, x);
      PutSpot(w, i, floated, x);
      SpotIs(w, i, id);
      if x != id && Holds(ws, x) { SpotIs(w, i, x); }
    } else if x == id {
      NotTiledAnywhere(w, id);
    }
  }

  lemma RemovalFloats(ws: Workspace, id: WindowId)
    ensures RemoveFromMembership(id, ws).floating == ws.floating - {id}
  {
    hide RemoveLeaf, Others, TiledMembers;
  }

  lemma FloatedHolds(ws: Workspace, id: WindowId, x: WindowId)
    ensures Holds(ws.(floating := ws.floating + {id}), x) <==> Holds(ws, x) || x == id
  {
  }

  lemma NotTiledAnywhere(w: World, id: WindowId)
    requires TiledHome(w.workspaces, id) == |w.workspaces|
    ensures !SpotOf(w, id).TiledIn?
  {
    var h := Home(w.workspaces, id);
    if h < |w.workspaces| {
      assert !Tiled(w.workspaces[h], id);
    }
  }

  lemma TileSpot(settings: Settings, w: World, id: WindowId, x: WindowId)
    requires WellFormed(w)
    ensures var spot := SpotOf(w, x);
            SpotOf(Tile(settings, w, id), x) == if x == id && spot.FloatingIn? then TiledIn(spot.name) else spot
  {
    hide WellFormed, Sound, Holds, SpotOf, RemoveFromMembership, Tiled, InsertTiledInto, Homeless;
    var i := FloatingHome(w.workspaces, id);
    if i < |w.workspaces| {
      HoldsFloating(w.workspaces[i], id);
      SpotIs(w, i, id);
      HomesAreRealWindows(w, i, id);
      RemovalKeeps(w, i, id);
      RemovalSpot(w, i, id, x);
      InsertTiledSpot(settings, Put(w, i, RemoveFromMembership(id, w.workspaces[i])), w.workspaces[i].name, id, None, None, x);
    } else if x == id {
      NotFloatingAnywhere(w, id);
    }
  }

  lemma HoldsFloating(ws: Workspace, id: WindowId)
    requires id in ws.floating
    ensures Holds(ws, id)
  {
  }

  lemma NotFloatingAnywhere(w: World, id: WindowId)
    requires FloatingHome(w.workspaces, id) == |w.workspaces|
    ensures !SpotOf(w, id).FloatingIn?
  {
    hide Holds;
    var h := Home(w.workspaces, id);
    if h < |w.workspaces| {
      assert id !in w.workspaces[h].floating;
    }
  }

  lemma ArrivalSpot(settings: Settings, w: World, id: WindowId, name: string, floats: bool, x: WindowId)
    requires WellFormed(w) && Homeless(w, id) && id != EMPTY_LEAF
    ensures var arrived := EnsureHidden(w, name);
            var k := Named(arrived.workspaces, name);
            var spot := SpotOf(w, x);
            && (floats ==> SpotOf(Put(arrived, k, arrived.workspaces[k].(floating := arrived.workspaces[k].floating + {id})), x)
                           == if x == id then FloatingIn(name) else spot)
            && (!floats ==> SpotOf(InsertTiledInto(settings, arrived, name, id, None, None), x)
                            == if x == id then TiledIn(name) else spot)
  {
    hide WellFormed, Sound, Holds, SpotOf, InsertTiledInto, EnsureHidden, Homeless;
    EnsureKeeps(w, name);
    EnsureSame(w, name, x);
    ArrivalKeeps(settings, w, id, name, floats);
    var arrived := EnsureHidden(w, name);
    var k := Named(arrived.workspaces, name);
    var ws := arrived.workspaces[k];
    if floats {
      FloatedHolds(ws, id, x);
      PutSpot(arrived, k, ws.(floating := ws.floating + {id}), x);
      if x != id && Holds(ws, x) { SpotIs(arrived, k, x); }
    } else {
      InsertTiledSpot(settings, arrived, name, id, None, None, x);
    }
  }

  lemma MoveBetweenSpot(settings: Settings, w: World, id: WindowId, name: string, x: WindowId)
    requires WellFormed(w) && id != EMPTY_LEAF
    ensures var spot := SpotOf(w, x);
            SpotOf(MoveBetween(settings, w, id, name), x)
            == if x != id then spot else if spot.FloatingIn? then FloatingIn(name) else TiledIn(name)
  {
    hide WellFormed, Sound, Holds, SpotOf, RemoveFromMembership, InsertTiledInto, EnsureHidden, Homeless;
    var i := Home(w.workspaces, id);
    if i < |w.workspaces| {
      SpotIs(w, i, id);
      RemovalKeeps(w, i, id);
      RemovalSpot(w, i, id, x);
      ArrivalSpot(settings, Put(w, i, RemoveFromMembership(id, w.workspaces[i])), id, name, id in w.workspaces[i].floating, x);
    } else {
      HomelessIffNoHome(w, id);
      SpotNowhere(w, id);
      ArrivalSpot(settings, w, id, name, false, x);
    }
  }

  lemma InsertFloatingSpot(e: Engine, id: WindowId, name: string, x: WindowId)
    requires WellFormed(e.world) && Homeless(e.world, id) && id != EMPTY_LEAF
    ensures SpotOf(InsertFloating(e, id, name), x) == if x == id then FloatingIn(name) else SpotOf(e.world, x)
  {
    hide WellFormed, Sound, Holds, SpotOf, EnsureWorkspace, Homeless, ParkedAgain;
    EnsureKeeps(e.world, name);
    EnsureSame(e.world, name, x);
    InsertFloatingKeeps(e, id, name);
    var with := EnsureWorkspace(e.world, name);
    var i := Named(with.workspaces, name);
    var ws := with.workspaces[i];
    var frame := if id in e.tombstones then e.tombstones[id].parked else None;
    FloatedHolds(ws, id, x);
    ParkingHolds(ws.(floating := ws.floating + {id}), ParkedAgain(ws, id, frame));
    PutSpot(with, i, ws.(floating := ws.floating + {id}, parked := ParkedAgain(ws, id, frame)), x);
    if x != id && Holds(ws, x) { SpotIs(with, i, x); }
  }

  lemma InsertRestoredSpot(e: Engine, id: WindowId, name: string, x: WindowId)
    requires Valid(e) && Homeless(e.world, id) && Restores(e, id, name)
    ensures SpotOf(InsertRestored(e, id, name), x) == if x == id then TiledIn(name) else SpotOf(e.world, x)
  {
    hide WellFormed, Sound, Holds, SpotOf, EnsureWorkspace, Homeless, ParkedAgain, Survives, TombstoneSound;
    EnsureKeeps(e.world, name);
    EnsureSame(e.world, name, x);
    InsertRestoredKeeps(e, id, name);
    var with := EnsureWorkspace(e.world, name);
    var i := Named(with.workspaces, name);
    var ws, t := with.workspaces[i], e.tombstones[id];
    SoundAt(with, i);
    HomelessAt(with, i, id);
    RestoreSound(ws, id, t);
    ParkingHolds(ws.(tree := t.tree), ParkedAgain(ws, id, t.parked));
    PutSpot(with, i, ws.(tree := t.tree, parked := ParkedAgain(ws, id, t.parked)), x);
    if x != id && Holds(ws, x) { SpotIs(with, i, x); }
    if x == id { HeldApart(ws, id); }
  }

  lemma InsertSpot(settings: Settings, e: Engine, id: WindowId, name: string, floating: bool, beside: Option<WindowId>,
                   axis: Option<Axis>, x: WindowId)
    requires Valid(e) && id != EMPTY_LEAF
    ensures SpotOf(Insert(settings, e, id, name, floating, beside, axis).world, x)
            == SpotAfter(e, Inserted(id, name, floating, beside, axis), x)
  {
    hide WellFormed, SpotOf, Restores, InsertRestored, InsertFloating, InsertTiledInto, RecordFocused, TombstoneSound,
      Homeless,
      Home;
    HomelessIffNoHome(e.world, id);
    SpotNowhere(e.world, id);
    if Homeless(e.world, id) {
      var inserted := if Restores(e, id, name) then InsertRestored(e, id, name)
                      else if floating then InsertFloating(e, id, name)
                      else InsertTiledInto(settings, e.world, name, id, beside, axis);
      if Restores(e, id, name) {
        InsertRestoredKeeps(e, id, name);
        InsertRestoredSpot(e, id, name, x);
      } else if floating {
        InsertFloatingKeeps(e, id, name);
        InsertFloatingSpot(e, id, name, x);
      } else {
        InsertTiledKeeps(settings, e.world, name, id, beside, axis);
        InsertTiledSpot(settings, e.world, name, id, beside, axis, x);
      }
      RememberedSpot(inserted, inserted.focusIntent, x);
    }
  }

  // ---------------------------------------------------------------- steps that move nobody

  lemma OutsideSame(w: World, i: nat, ws: Workspace, x: WindowId)
    requires WellFormed(w) && i < |w.workspaces|
    requires ws == w.workspaces[i].(visibleOn := ws.visibleOn, pinned := ws.pinned, preferred := ws.preferred, mode := ws.mode)
    ensures SpotOf(Put(w, i, ws), x) == SpotOf(w, x)
  {
    hide WellFormed, SpotOf;
    PutOutside(w, i, ws);
    PutSame(w, i, ws, x);
  }

  lemma RevealSame(w: World, name: string, display: DisplayId, x: WindowId)
    requires WellFormed(w)
    ensures SpotOf(Reveal(w, name, display), x) == SpotOf(w, x)
    ensures SpotOf(Show(HideOccupant(w, name, display), name, Some(display)), x) == SpotOf(w, x)
  {
    hide WellFormed, SpotOf, EnsureWorkspace;
    EnsureKeeps(w, name);
    EnsureSame(w, name, x);
    ShownSame(w, name, display, x);
    ShownSame(EnsureWorkspace(w, name), name, display, x);
  }

  lemma ShownSame(w: World, name: string, display: DisplayId, x: WindowId)
    requires WellFormed(w)
    ensures SpotOf(Show(HideOccupant(w, name, display), name, Some(display)), x) == SpotOf(w, x)
  {
    hide WellFormed, SpotOf;
    var i := Occupant(w.workspaces, display, name);
    if i < |w.workspaces| { OutsideSame(w, i, w.workspaces[i].(visibleOn := None), x); }
    HideOccupantKeeps(w, name, display);
    var v := HideOccupant(w, name, display);
    var k := Named(v.workspaces, name);
    if k < |v.workspaces| { OutsideSame(v, k, v.workspaces[k].(visibleOn := Some(display)), x); }
  }

  lemma ParkSame(w: World, name: string, frames: map<WindowId, Frame>, x: WindowId)
    requires WellFormed(w)
    ensures SpotOf(Park(w, name, frames), x) == SpotOf(w, x) && SpotOf(Unpark(w, name), x) == SpotOf(w, x)
  {
    hide WellFormed, SpotOf, Holds;
    ParkKeeps(w, name, frames);
    var i := Named(w.workspaces, name);
    if i < |w.workspaces| {
      var ws := w.workspaces[i];
      var parked := ws.parked + (map id | id in frames && Holds(ws, id) :: frames[id]);
      ParkingHolds(ws, parked);
      ParkingHolds(ws, map[]);
      PutSame(w, i, ws.(parked := parked), x);
      PutSame(w, i, ws.(parked := map[]), x);
    }
  }

  lemma RevealParkingSame(w: World, name: string, display: DisplayId, frames: map<WindowId, Frame>, fails: bool,
                          x: WindowId)
    requires WellFormed(w)
    ensures SpotOf(RevealParking(w, name, display, frames, fails), x) == SpotOf(w, x)
  {
    hide WellFormed, SpotOf, EnsureWorkspace, Park, HideOccupant, Show;
    EnsureKeeps(w, name);
    EnsureSame(w, name, x);
    var with := EnsureWorkspace(w, name);
    var i := Occupant(with.workspaces, display, name);
    if i < |with.workspaces| {
      ParkKeeps(with, with.workspaces[i].name, frames);
      ParkSame(with, with.workspaces[i].name, frames, x);
      ShownSame(Park(with, with.workspaces[i].name, frames), name, display, x);
    } else {
      ShownSame(with, name, display, x);
    }
  }

  lemma PinSame(w: World, name: string, display: DisplayId, x: WindowId)
    requires WellFormed(w)
    ensures SpotOf(Reveal(Pin(w, name, display), name, display), x) == SpotOf(w, x)
  {
    hide WellFormed, SpotOf, EnsureWorkspace, Reveal;
    EnsureKeeps(w, name);
    EnsureSame(w, name, x);
    PinKeeps(w, name, display);
    var with := EnsureWorkspace(w, name);
    var i := Named(with.workspaces, name);
    OutsideSame(with, i, with.workspaces[i].(pinned := Some(display)), x);
    RevealSame(Pin(w, name, display), name, display, x);
  }

  lemma ConfigureSame(w: World, name: string, mode: Mode, preferred: Option<DisplayId>, x: WindowId)
    requires WellFormed(w)
    ensures SpotOf(Configure(w, name, mode, preferred), x) == SpotOf(w, x)
  {
    hide WellFormed, SpotOf, EnsureHidden;
    EnsureKeeps(w, name);
    EnsureSame(w, name, x);
    var known := EnsureHidden(w, name);
    var i := Named(known.workspaces, name);
    OutsideSame(known, i, known.workspaces[i].(mode := mode, preferred := preferred), x);
  }

  lemma SameWorkspacesSameSpot(w: World, v: World, x: WindowId)
    requires w.workspaces == v.workspaces
    ensures SpotOf(w, x) == SpotOf(v, x)
  {
    hide Holds;
  }

  lemma FocusSame(w: World, name: string, x: WindowId)
    requires WellFormed(w)
    ensures SpotOf(FocusWorkspace(w, name), x) == SpotOf(w, x)
  {
    hide WellFormed, SpotOf, EnsureWorkspace, Reveal, DesiredDisplay;
    EnsureKeeps(w, name);
    EnsureSame(w, name, x);
    var with := EnsureWorkspace(w, name);
    var focused := with.(focusedWorkspace := Some(name));
    SameWorkspaces(with, focused);
    SameWorkspacesSameSpot(with, focused, x);
    if DesiredDisplay(with, name).Some? { RevealSame(focused, name, DesiredDisplay(with, name).value, x); }
  }

  lemma MoveDirectionSame(w: World, name: string, moved: WindowId, direction: Direction, frames: Frames, gap: int,
                          groups: bool,
                          x: WindowId)
    requires WellFormed(w) && !MovesAstray(w, name, moved, direction, frames, gap, groups)
    ensures SpotOf(MoveDirection(w, name, moved, direction, frames, gap, groups), x) == SpotOf(w, x)
  {
    hide WellFormed, SpotOf, Sound, Holds, MoveGeometrically, Misrotates, Bag, Distinct, Has;
    MoveDirectionKeeps(w, name, moved, direction, frames, gap, groups);
    var i := Named(w.workspaces, name);
    if i < |w.workspaces| && Tiled(w.workspaces[i], moved) {
      var ws := w.workspaces[i];
      var input := MoveInputFor(ws, moved, direction, frames, gap, groups);
      SoundAt(w, i);
      TiledTreeIsDistinct(ws, moved);
      MoveGeometricallyConservesIff(input);
      RearrangedSound(ws, MoveGeometrically(input), moved);
      if MoveGeometrically(input) != ws.tree {
        PutSame(w, i, ws.(tree := MoveGeometrically(input), lastFocused := Some(moved)), x);
      }
    }
  }

  lemma RemoveSpot(e: Engine, id: WindowId, now: int, x: WindowId)
    requires Valid(e)
    ensures SpotOf(Remove(e, id, now).world, x) == if x == id then Nowhere else SpotOf(e.world, x)
  {
    hide WellFormed, SpotOf, RemoveFromMembership, Holds, Homeless;
    var i := Home(e.world.workspaces, id);
    if i < |e.world.workspaces| {
      RemovalSpot(e.world, i, id, x);
    } else {
      HomelessIffNoHome(e.world, id);
      SpotNowhere(e.world, id);
    }
  }

  lemma SignalSame(w: World, focus: Option<WindowId>, x: WindowId)
    requires WellFormed(w)
    ensures SpotOf(Signal(w, focus), x) == SpotOf(w, x)
  {
    hide WellFormed, SpotOf, RecordFocused;
    RememberedSpot(w, focus, x);
    SameWorkspacesSameSpot(RecordFocused(w, focus), Signal(w, focus), x);
  }

  lemma {:induction false} SignalsSame(w: World, signals: seq<Option<WindowId>>, x: WindowId)
    requires WellFormed(w)
    ensures SpotOf(SignalAll(w, signals), x) == SpotOf(w, x)
    decreases |signals|
  {
    hide WellFormed, SpotOf, Signal;
    if signals != [] {
      SignalKeeps(w, signals[0]);
      SignalSame(w, signals[0], x);
      SignalsSame(Signal(w, signals[0]), signals[1..], x);
    }
  }

  lemma SeeSame(w: World, o: Sighting, x: WindowId)
    requires WellFormed(w)
    ensures SpotOf(See(w, o), x) == SpotOf(w, x)
  {
    hide WellFormed, SpotOf, RecordFocused, SignalAll;
    var looked := w.(displays := o.displays, windows := o.windows);
    SameWorkspaces(w, looked);
    SameWorkspacesSameSpot(w, looked, x);
    SignalsKeep(looked, o.signals);
    SignalsSame(looked, o.signals, x);
    var seen := Refocused(SignalAll(looked, o.signals), o.steady);
    SameWorkspaces(SignalAll(looked, o.signals), seen);
    SameWorkspacesSameSpot(SignalAll(looked, o.signals), seen, x);
    RememberedSpot(seen, seen.focusIntent, x);
  }

  lemma AdmitSpot(w: World, name: string, members: seq<InitialLayout.FramedWindow>, content: Frame, gap: int, mode: Mode,
                  preferred: Option<DisplayId>, focused: Option<WindowId>, x: WindowId)
    requires WellFormed(w) && Newcomers(w, members)
    ensures var i := Named(w.workspaces, name);
            SpotOf(Admit(w, name, members, content, gap, mode, preferred, focused), x)
            == if i < |w.workspaces| && IsEmptyTree(w.workspaces[i].tree) && Listed(members, x) then TiledIn(name) else SpotOf(w, x)
  {
    hide WellFormed, Holds, SpotOf, InitialLayout.InferTree, Homeless;
    var i := Named(w.workspaces, name);
    var v := Admit(w, name, members, content, gap, mode, preferred, focused);
    AdmitKeeps(w, name, members, content, gap, mode, preferred, focused);
    if i < |w.workspaces| && members != [] && IsEmptyTree(w.workspaces[i].tree) {
      SoundAt(w, i);
      AdmittedHolds(w, i, v.workspaces[i], members, content, gap);
      PutSpot(w, i, v.workspaces[i], x);
      if Listed(members, x) {
        AdmittedIsTiled(w, i, v.workspaces[i], members, x);
      } else if Holds(w.workspaces[i], x) {
        SpotIs(w, i, x);
      }
    }
  }

  lemma AdmittedHolds(w: World, i: nat, r: Workspace, members: seq<InitialLayout.FramedWindow>, content: Frame, gap: int)
    requires i < |w.workspaces| && Sound(w.workspaces[i]) && Newcomers(w, members) && members != []
    requires var ws := w.workspaces[i];
             && IsEmptyTree(ws.tree)
             && r == ws.(mode := r.mode, tree := InitialLayout.InferTree(members, Some(content), gap), preferred := r.preferred,
                         lastFocused := r.lastFocused, lastFocusedTiled := r.lastFocusedTiled)
    ensures forall x :: Holds(r, x) <==> Holds(w.workspaces[i], x) || Listed(members, x)
  {
    hide Sound, Holds, InitialLayout.InferTree;
    var ws := w.workspaces[i];
    var plain := r.(lastFocused := ws.lastFocused, lastFocusedTiled := ws.lastFocusedTiled);
    AdmittedSound(ws, plain, members, content, gap);
    FocusHoldsNothing(r, plain);
  }

  lemma FocusHoldsNothing(a: Workspace, b: Workspace)
    requires a.tree == b.tree && a.floating == b.floating
    ensures forall x :: Holds(a, x) <==> Holds(b, x)
  {
  }

  lemma AdmittedIsTiled(w: World, i: nat, r: Workspace, members: seq<InitialLayout.FramedWindow>, x: WindowId)
    requires i < |w.workspaces| && Newcomers(w, members) && Listed(members, x) && r.floating == w.workspaces[i].floating
    ensures x !in r.floating
  {
    var k :| 0 <= k < |members| && members[k].id == x;
    assert !Holds(w.workspaces[i], x);
  }

  // ---------------------------------------------------------------- every step, every window

  /** After any sensible step every window is exactly where the step should have put it: only the named window
      moves, to the named place and in the intended way, and most steps move nobody. */
  lemma StepMovesExactly(settings: Settings, e: Engine, event: Event, x: WindowId)
    requires Valid(e) && Sensible(e, event)
    ensures SpotOf(Apply(settings, e, event).world, x) == SpotAfter(e, event, x)
  {
    hide WellFormed, SpotOf, TombstoneSound, MovesAstray, Insert, Remove, Float, Tile, MoveBetween, MoveDirection,
      Configure, Reveal,
      RevealParking, Pin, FocusWorkspace, Park, Unpark, RecordFocused, Restores, Signal, See, Admit, Newcomers, Listed;
    var w := e.world;
    match event
    case Inserted(id, name, floating, beside, axis) => InsertSpot(settings, e, id, name, floating, beside, axis, x);
    case Removed(id, now) => RemoveSpot(e, id, now, x);
    case Floated(id) => FloatSpot(w, id, x);
    case TiledAgain(id) => TileSpot(settings, w, id, x);
    case MovedBetween(id, name) => MoveBetweenSpot(settings, w, id, name, x);
    case MovedInDirection(name, moved, direction, frames, gap, groups) =>
      MoveDirectionSame(w, name, moved, direction, frames, gap, groups, x);
    case Configured(name, mode, preferred) => ConfigureSame(w, name, mode, preferred, x);
    case Revealed(name, display) => RevealSame(w, name, display, x);
    case RevealedParking(name, display, frames, fails) => RevealParkingSame(w, name, display, frames, fails, x);
    case Pinned(name, display) => PinSame(w, name, display, x);
    case WorkspaceFocused(name) => FocusSame(w, name, x);
    case Parked(name, frames) => ParkSame(w, name, frames, x);
    case Retiled(name) => ParkSame(w, name, map[], x);
    case FocusSignalled(focus) => SignalSame(w, focus, x);
    case Observed(o) => SeeSame(w, o, x);
    case AdmittedAtStartup(name, members, content, gap, mode, preferred, focused) =>
      AdmitSpot(w, name, members, content, gap, mode, preferred, focused, x);
  }

  /** Focus memory after a window is focused: its workspace remembers it if it is a normal window, also as the
      last tiled one if it is tiled in a tiling workspace; nothing else changes anywhere. */
  lemma FocusIsRemembered(w: World, i: nat, id: WindowId)
    requires WellFormed(w) && i < |w.workspaces| && Holds(w.workspaces[i], id)
    ensures var r, ws := RecordFocused(w, Some(id)), w.workspaces[i];
            if id in w.windows && w.windows[id] then
              r == Put(w, i, ws.(lastFocused := Some(id),
                                 lastFocusedTiled := if id !in ws.floating && ws.mode == BspMode then Some(id) else ws.lastFocusedTiled))
            else r == w
  {
    hide WellFormed;
    HomeIsUnique(w, i, id);
    SoundAt(w, i);
  }
}
