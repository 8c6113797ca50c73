/** Workspaces and the windows in them: every step that changes who belongs where. */
module Membership {
  import opened Geometry
  import opened BspTree
  import opened Planner
  import opened Insertion
  import opened GeometricMove
  import InitialLayout

  type DisplayId = string

  datatype Display = Display(id: DisplayId, primary: bool)

  datatype Mode = BspMode | FloatingMode

  datatype Workspace = Workspace(
    name: string, mode: Mode, tree: Node, floating: set<WindowId>,
    visibleOn: Option<DisplayId>, preferred: Option<DisplayId>, pinned: Option<DisplayId>,
    parked: map<WindowId, Frame>, lastFocused: Option<WindowId>, lastFocusedTiled: Option<WindowId>)

  /** Workspaces in insertion order; a window is observed as normal or as something transient. */
  datatype World = World(displays: seq<Display>, windows: map<WindowId, bool>, workspaces: seq<Workspace>,
                         focusedWorkspace: Option<string>, focusIntent: Option<WindowId>)

  /** What is remembered of a window that left. */
  datatype Tombstone = Tombstone(workspace: string, floating: bool, tree: Node, parked: Option<Frame>, at: int)

  datatype Engine = Engine(world: World, tombstones: map<WindowId, Tombstone>)

  /** Configuration and learned constraints, fixed while a step runs. */
  datatype Settings = Settings(content: (string, Display) -> Frame, gap: (string, Option<DisplayId>) -> int,
                               resolve: Resolver)

  const TOMBSTONE_TTL := 300_000

  // ---------------------------------------------------------------- lookups

  predicate Tiled(ws: Workspace, id: WindowId) {
    Has(ws.tree, id) && id != EMPTY_LEAF
  }

  predicate Holds(ws: Workspace, id: WindowId) {
    Tiled(ws, id) || id in ws.floating
  }

  predicate Showing(ws: Workspace, display: DisplayId, except: string) {
    ws.visibleOn == Some(display) && ws.name != except
  }

  /** The first workspace of that name, or one past the end. */
  function Named(all: seq<Workspace>, name: string): (i: nat)
    ensures i <= |all|
    ensures i < |all| ==> all[i].name == name
    ensures forall j :: 0 <= j < i ==> all[j].name != name
  {
    if all == [] then 0 else if all[0].name == name then 0 else 1 + Named(all[1..], name)
  }

  function Home(all: seq<Workspace>, id: WindowId): (i: nat)
    ensures i <= |all|
    ensures i < |all| ==> Holds(all[i], id)
    ensures forall j :: 0 <= j < i ==> !Holds(all[j], id)
  {
    if all == [] then 0 else if Holds(all[0], id) then 0 else 1 + Home(all[1..], id)
  }

  function FloatingHome(all: seq<Workspace>, id: WindowId): (i: nat)
    ensures i <= |all|
    ensures i < |all| ==> id in all[i].floating
    ensures forall j :: 0 <= j < i ==> id !in all[j].floating
  {
    if all == [] then 0 else if id in all[0].floating then 0 else 1 + FloatingHome(all[1..], id)
  }

  function TiledHome(all: seq<Workspace>, id: WindowId): (i: nat)
    ensures i <= |all|
    ensures i < |all| ==> Tiled(all[i], id)
    ensures forall j :: 0 <= j < i ==> !Tiled(all[j], id)
  {
    if all == [] then 0 else if Tiled(all[0], id) then 0 else 1 + TiledHome(all[1..], id)
  }

  function Occupant(all: seq<Workspace>, display: DisplayId, except: string): (i: nat)
    ensures i <= |all|
    ensures i < |all| ==> Showing(all[i], display, except)
    ensures forall j :: 0 <= j < i ==> !Showing(all[j], display, except)
  {
    if all == [] then 0 else if Showing(all[0], display, except) then 0 else 1 + Occupant(all[1..], display, except)
  }

  function PrimaryDisplay(displays: seq<Display>): Option<Display> {
    if displays == [] then None
    else if displays[0].primary then Some(displays[0])
    else
      var later := PrimaryDisplay(displays[1..]);
      if later.Some? && later.value.primary then later else Some(displays[0])
  }

  function Connected(displays: seq<Display>, id: Option<DisplayId>): Option<Display> {
    if id.None? || displays == [] then None
    else if displays[0].id == id.value then Some(displays[0])
    else Connected(displays[1..], id)
  }

  function Else<T>(a: Option<T>, b: Option<T>): Option<T> { if a.Some? then a else b }

  /** The display a workspace is laid out on. */
  function InsertionDisplay(w: World, ws: Workspace): Option<Display> {
    Else(Connected(w.displays, ws.visibleOn),
         Else(Connected(w.displays, ws.pinned), Else(Connected(w.displays, ws.preferred), PrimaryDisplay(w.displays))))
  }

  function IdOf(display: Option<Display>): Option<DisplayId> {
    if display.Some? then Some(display.value.id) else None
  }

  // ---------------------------------------------------------------- pure edits of a world

  function Put(w: World, i: nat, ws: Workspace): World
    requires i < |w.workspaces|
  {
    w.(workspaces := w.workspaces[i := ws])
  }

  /** Where a workspace created on demand shows up: with the focused one, else on the primary display. */
  function HostForNew(w: World): Option<DisplayId> {
    var focused := if w.focusedWorkspace.Some? then Named(w.workspaces, w.focusedWorkspace.value) else |w.workspaces|;
    Else(if focused < |w.workspaces| then w.workspaces[focused].visibleOn else None, IdOf(PrimaryDisplay(w.displays)))
  }

  function NewWorkspace(name: string, visibleOn: Option<DisplayId>): Workspace {
    Workspace(name, BspMode, Leaf(EMPTY_LEAF), {}, visibleOn, None, None, map[], None, None)
  }

  function EnsureWorkspace(w: World, name: string): (r: World)
    ensures Named(r.workspaces, name) < |r.workspaces|
  {
    if Named(w.workspaces, name) < |w.workspaces| then w
    else
      var r := w.(workspaces := w.workspaces + [NewWorkspace(name, HostForNew(w))]);
      assert r.workspaces[|w.workspaces|].name == name;
      r
  }

  function Forget(id: WindowId, focus: Option<WindowId>): Option<WindowId> {
    if focus == Some(id) then None else focus
  }

  function Others(ids: seq<WindowId>, id: WindowId): (r: seq<WindowId>)
    ensures forall x :: x in r <==> x in ids && x != id
  {
    if ids == [] then [] else (if ids[0] == id then [] else [ids[0]]) + Others(ids[1..], id)
  }

  function RemoveFromMembership(id: WindowId, from: Workspace): Workspace {
    var remaining := Others(TiledMembers(from.tree), id);
    var removed := RemoveLeaf(from.tree, id);
    var tree := if removed.None? || remaining == [] then Leaf(EMPTY_LEAF) else removed.value;
    from.(tree := tree, floating := from.floating - {id}, parked := from.parked - {id},
          lastFocused := Forget(id, from.lastFocused), lastFocusedTiled := Forget(id, from.lastFocusedTiled))
  }

  function InsertionFor(settings: Settings, w: World, ws: Workspace, id: WindowId, beside: Option<WindowId>,
                        axis: Option<Axis>): InsertionInput
  {
    var host := InsertionDisplay(w, ws);
    InsertionInput(if host.Some? then Some(settings.content(ws.name, host.value)) else None,
                   ws.tree, Else(ws.lastFocusedTiled, ws.lastFocused), id,
                   settings.gap(ws.name, IdOf(host)), settings.resolve, beside, axis)
  }

  /** The tree with the new window in it; membership is kept even where no geometry is feasible. */
  function InsertedTree(input: InsertionInput): Node {
    var plan := PlanInsertion(input);
    if plan.Some? then plan.value.tree
    else if IsEmptyTree(input.tree) then Leaf(input.newId)
    else
      var split := InsertLeaf(input.tree, FirstLeaf(input.tree), input.newId, None, None);
      if split.Some? then split.value else input.tree
  }

  function InsertTiledInto(settings: Settings, w: World, name: string, id: WindowId, beside: Option<WindowId>,
                           axis: Option<Axis>): World
  {
    var withWs := EnsureWorkspace(w, name);
    var i := Named(withWs.workspaces, name);
    var ws := withWs.workspaces[i];
    Put(withWs, i, ws.(tree := InsertedTree(InsertionFor(settings, withWs, ws, id, beside, axis))))
  }

  function Remembering(ws: Workspace, id: WindowId): Workspace {
    ws.(lastFocused := Some(id),
        lastFocusedTiled := if Tiled(ws, id) && ws.mode == BspMode then Some(id) else ws.lastFocusedTiled)
  }

  /** Remember managed focus; dialogs and unassigned windows leave it alone. */
  function RecordFocused(w: World, id: Option<WindowId>): World {
    if id.None? || id.value !in w.windows || !w.windows[id.value] then w
    else
      var i := Home(w.workspaces, id.value);
      if i == |w.workspaces| then w else Put(w, i, Remembering(w.workspaces[i], id.value))
  }

  /** A focus signal: remembered, and from now on what the user means. */
  function Signal(w: World, focus: Option<WindowId>): World {
    RecordFocused(w, focus).(focusIntent := focus)
  }

  function SignalAll(w: World, signals: seq<Option<WindowId>>): World
    decreases |signals|
  {
    if signals == [] then w else SignalAll(Signal(w, signals[0]), signals[1..])
  }

  /** What one look at the platform brings: displays, windows, the focus signals to take up, and whether the
      platform's own focus is the one of the last look. */
  datatype Sighting = Sighting(displays: seq<Display>, windows: map<WindowId, bool>, now: int,
                               signals: seq<Option<WindowId>>, steady: bool)

  /** Focus on a window that is gone is given up where the platform reports no other. */
  function Refocused(w: World, steady: bool): World {
    if steady && w.focusIntent.Some? && w.focusIntent.value !in w.windows then w.(focusIntent := None) else w
  }

  function See(w: World, o: Sighting): World {
    var seen := Refocused(SignalAll(w.(displays := o.displays, windows := o.windows), o.signals), o.steady);
    RecordFocused(seen, seen.focusIntent)
  }

  predicate Listed(members: seq<InitialLayout.FramedWindow>, id: WindowId) {
    exists k :: 0 <= k < |members| && members[k].id == id
  }

  /** Windows found open at startup get the tree inferred from where they are, in a workspace that has none. */
  function Admit(w: World, name: string, members: seq<InitialLayout.FramedWindow>, content: Frame, gap: int, mode: Mode,
                 preferred: Option<DisplayId>, focused: Option<WindowId>): World
  {
    var i := Named(w.workspaces, name);
    if i == |w.workspaces| || members == [] || !IsEmptyTree(w.workspaces[i].tree) then w
    else
      var ws := w.workspaces[i];
      var member := focused.Some? && Listed(members, focused.value);
      Put(w, i, ws.(mode := mode, tree := InitialLayout.InferTree(members, Some(content), gap), preferred := preferred,
                    lastFocused := if member then focused else ws.lastFocused,
                    lastFocusedTiled := if member then focused else ws.lastFocusedTiled))
  }

  function Float(w: World, id: WindowId): World {
    var i := TiledHome(w.workspaces, id);
    if i == |w.workspaces| then w else
      var removed := RemoveFromMembership(id, w.workspaces[i]);
      Put(w, i, removed.(floating := removed.floating + {id}))
  }

  function Tile(settings: Settings, w: World, id: WindowId): World {
    var i := FloatingHome(w.workspaces, id);
    if i == |w.workspaces| then w else
      InsertTiledInto(settings, Put(w, i, RemoveFromMembership(id, w.workspaces[i])), w.workspaces[i].name, id, None, None)
  }

  /** Created on demand by a move or by configuration, a workspace is not shown. */
  function EnsureHidden(w: World, name: string): (r: World)
    ensures Named(r.workspaces, name) < |r.workspaces|
  {
    if Named(w.workspaces, name) < |w.workspaces| then w
    else
      var r := w.(workspaces := w.workspaces + [NewWorkspace(name, None)]);
      assert r.workspaces[|w.workspaces|].name == name;
      r
  }

  function Configure(w: World, name: string, mode: Mode, preferred: Option<DisplayId>): World {
    var known := EnsureHidden(w, name);
    var i := Named(known.workspaces, name);
    Put(known, i, known.workspaces[i].(mode := mode, preferred := preferred))
  }

  function MoveBetween(settings: Settings, w: World, id: WindowId, name: string): World {
    var i := Home(w.workspaces, id);
    if i < |w.workspaces| && w.workspaces[i].name == name then w
    else
      var wasFloating := i < |w.workspaces| && id in w.workspaces[i].floating;
      var left := if i < |w.workspaces| then Put(w, i, RemoveFromMembership(id, w.workspaces[i])) else w;
      var arrived := EnsureHidden(left, name);
      var k := Named(arrived.workspaces, name);
      if wasFloating
      then Put(arrived, k, arrived.workspaces[k].(floating := arrived.workspaces[k].floating + {id}))
      else InsertTiledInto(settings, arrived, name, id, None, None)
  }

  function Show(w: World, name: string, display: Option<DisplayId>): World {
    var i := Named(w.workspaces, name);
    if i == |w.workspaces| then w else Put(w, i, w.workspaces[i].(visibleOn := display))
  }

  function HideOccupant(w: World, name: string, display: DisplayId): World {
    var i := Occupant(w.workspaces, display, name);
    if i == |w.workspaces| then w else Put(w, i, w.workspaces[i].(visibleOn := None))
  }

  /** Reveal inside a draft: the occupant of the display steps aside. */
  function Reveal(w: World, name: string, display: DisplayId): World {
    Show(HideOccupant(EnsureWorkspace(w, name), name, display), name, Some(display))
  }

  function Pin(w: World, name: string, display: DisplayId): World {
    var with := EnsureWorkspace(w, name);
    var i := Named(with.workspaces, name);
    Put(with, i, with.workspaces[i].(pinned := Some(display)))
  }

  /** Frames read back while a workspace's windows are parked one after another; only members are parked. */
  function Park(w: World, name: string, frames: map<WindowId, Frame>): World {
    var i := Named(w.workspaces, name);
    if i == |w.workspaces| then w else
      var ws := w.workspaces[i];
      Put(w, i, ws.(parked := ws.parked + (map id | id in frames && Holds(ws, id) :: frames[id])))
  }

  /** The direct reveal. Parking the occupant can fail half way, and then nothing else happens. */
  function RevealParking(w: World, name: string, display: DisplayId, frames: map<WindowId, Frame>, parkingFails: bool): World {
    var with := EnsureWorkspace(w, name);
    var i := Occupant(with.workspaces, display, name);
    var parkedWorld := if i < |with.workspaces| then Park(with, with.workspaces[i].name, frames) else with;
    if i < |with.workspaces| && parkingFails then parkedWorld
    else Show(HideOccupant(parkedWorld, name, display), name, Some(display))
  }

  /** The display a workspace is focused on: where it is, else where it wants to be. */
  function DesiredDisplay(w: World, name: string): Option<DisplayId> {
    var i := Named(w.workspaces, name);
    IdOf(if i < |w.workspaces| then InsertionDisplay(w, w.workspaces[i]) else PrimaryDisplay(w.displays))
  }

  function FocusWorkspace(w: World, name: string): World {
    var with := EnsureWorkspace(w, name);
    var display := DesiredDisplay(with, name);
    var focused := with.(focusedWorkspace := Some(name));
    if display.Some? then Reveal(focused, name, display.value) else focused
  }

  /** A visible workspace was laid out again: nothing in it is parked any more. */
  function Unpark(w: World, name: string): World {
    var i := Named(w.workspaces, name);
    if i == |w.workspaces| then w else Put(w, i, w.workspaces[i].(parked := map[]))
  }

  function MoveInputFor(ws: Workspace, moved: WindowId, direction: Direction, frames: Frames, gap: int, groups: bool): MoveInput {
    MoveInput(ws.tree, moved, direction, frames, gap, groups)
  }

  /** A directional move of a tiled window; a move that leads nowhere changes nothing at all. */
  function MoveDirection(w: World, name: string, moved: WindowId, direction: Direction, frames: Frames, gap: int,
                         groups: bool): World
  {
    var i := Named(w.workspaces, name);
    if i == |w.workspaces| || !Tiled(w.workspaces[i], moved) then w
    else
      var ws := w.workspaces[i];
      var tree := MoveGeometrically(MoveInputFor(ws, moved, direction, frames, gap, groups));
      if tree == ws.tree then w else Put(w, i, ws.(tree := tree, lastFocused := Some(moved)))
  }

  // ---------------------------------------------------------------- steps with tombstones

  function Prune(tombstones: map<WindowId, Tombstone>, now: int): map<WindowId, Tombstone> {
    map id | id in tombstones && now - tombstones[id].at <= TOMBSTONE_TTL :: tombstones[id]
  }

  function Remove(e: Engine, id: WindowId, now: int): Engine {
    var i := Home(e.world.workspaces, id);
    if i == |e.world.workspaces| then e else
      var home := e.world.workspaces[i];
      var tombstone := Tombstone(home.name, id in home.floating, home.tree,
                                 if id in home.parked then Some(home.parked[id]) else None, now);
      Engine(Put(e.world, i, RemoveFromMembership(id, home)), Prune(e.tombstones[id := tombstone], now))
  }

  /** The rest of the tombstone's tree is exactly the workspace's present tree. */
  predicate Survives(t: Tombstone, id: WindowId, tree: Node) {
    && !t.floating
    && |Others(TiledMembers(t.tree), id)| == |TiledMembers(tree)|
    && forall x :: x in Others(TiledMembers(t.tree), id) ==> x in TiledMembers(tree)
  }

  predicate Restores(e: Engine, id: WindowId, name: string) {
    && id in e.tombstones && id in e.world.windows && e.tombstones[id].workspace == name
    && var with := EnsureWorkspace(e.world, name);
       Survives(e.tombstones[id], id, with.workspaces[Named(with.workspaces, name)].tree)
  }

  function ParkedAgain(ws: Workspace, id: WindowId, frame: Option<Frame>): map<WindowId, Frame> {
    if frame.Some? then ws.parked[id := frame.value] else ws.parked
  }

  function InsertRestored(e: Engine, id: WindowId, name: string): World
    requires Restores(e, id, name)
  {
    var with := EnsureWorkspace(e.world, name);
    var i := Named(with.workspaces, name);
    var ws := with.workspaces[i];
    Put(with, i, ws.(tree := e.tombstones[id].tree, parked := ParkedAgain(ws, id, e.tombstones[id].parked)))
  }

  function InsertFloating(e: Engine, id: WindowId, name: string): World {
    var with := EnsureWorkspace(e.world, name);
    var i := Named(with.workspaces, name);
    var ws := with.workspaces[i];
    Put(with, i, ws.(floating := ws.floating + {id},
                     parked := ParkedAgain(ws, id, if id in e.tombstones then e.tombstones[id].parked else None)))
  }

  function Insert(settings: Settings, e: Engine, id: WindowId, name: string, floating: bool,
                  beside: Option<WindowId>, axis: Option<Axis>): Engine
  {
    if Home(e.world.workspaces, id) < |e.world.workspaces| then e
    else
      var inserted := if Restores(e, id, name) then InsertRestored(e, id, name)
                      else if floating then InsertFloating(e, id, name)
                      else InsertTiledInto(settings, e.world, name, id, beside, axis);
      Engine(RecordFocused(inserted, inserted.focusIntent), e.tombstones - {id})
  }

  // ---------------------------------------------------------------- the state machine

  datatype Event =
    | Inserted(id: WindowId, name: string, floating: bool, beside: Option<WindowId>, axis: Option<Axis>)
    | Removed(id: WindowId, now: int)
    | Floated(id: WindowId)
    | TiledAgain(id: WindowId)
    | MovedBetween(id: WindowId, name: string)
    | MovedInDirection(name: string, moved: WindowId, direction: Direction, frames: Frames, gap: int, groups: bool)
    | Configured(name: string, mode: Mode, preferred: Option<DisplayId>)
    | Revealed(name: string, display: DisplayId)
    | RevealedParking(name: string, display: DisplayId, frames: map<WindowId, Frame>, parkingFails: bool)
    | Pinned(name: string, display: DisplayId)
    | WorkspaceFocused(name: string)
    | Parked(name: string, frames: map<WindowId, Frame>)
    | Retiled(name: string)
    | FocusSignalled(focus: Option<WindowId>)
    | Observed(sighting: Sighting)
    | AdmittedAtStartup(name: string, members: seq<InitialLayout.FramedWindow>, content: Frame, gap: int, mode: Mode,
               preferred: Option<DisplayId>, focused: Option<WindowId>)

  function Edited(e: Engine, world: World): Engine { e.(world := world) }

  function Apply(settings: Settings, e: Engine, event: Event): Engine {
    match event
    case Inserted(id, name, floating, beside, axis) => Insert(settings, e, id, name, floating, beside, axis)
    case Removed(id, now) => Remove(e, id, now)
    case Floated(id) => Edited(e, Float(e.world, id))
    case TiledAgain(id) => Edited(e, Tile(settings, e.world, id))
    case MovedBetween(id, name) => Edited(e, MoveBetween(settings, e.world, id, name))
    case MovedInDirection(name, moved, direction, frames, gap, groups) =>
      Edited(e, MoveDirection(e.world, name, moved, direction, frames, gap, groups))
    case Configured(name, mode, preferred) => Edited(e, Configure(e.world, name, mode, preferred))
    case Revealed(name, display) => Edited(e, Reveal(e.world, name, display))
    case RevealedParking(name, display, frames, fails) => Edited(e, RevealParking(e.world, name, display, frames, fails))
    case Pinned(name, display) => Edited(e, Reveal(Pin(e.world, name, display), name, display))
    case WorkspaceFocused(name) => Edited(e, FocusWorkspace(e.world, name))
    case Parked(name, frames) => Edited(e, Park(e.world, name, frames))
    case Retiled(name) => Edited(e, Unpark(e.world, name))
    case FocusSignalled(focus) => Edited(e, Signal(e.world, focus))
    case Observed(o) => Engine(See(e.world, o), Prune(e.tombstones, o.now))
    case AdmittedAtStartup(name, members, content, gap, mode, preferred, focused) =>
      Edited(e, Admit(e.world, name, members, content, gap, mode, preferred, focused))
  }

  /** An engine with one empty workspace and no observation yet. */
  const START := Engine(World([], map[], [NewWorkspace("1", None)], Some("1"), None), map[])
}
