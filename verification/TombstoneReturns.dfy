/** A window that comes back in time finds its workspace as it left it. */
module TombstoneReturns {
  import opened Geometry
  import opened BspTree
  import opened Membership
  import opened MembershipInvariant

  lemma SameMembersSameCount(a: seq<WindowId>, b: seq<WindowId>)
    requires NoDuplicates(a) && NoDuplicates(b) && forall x :: x in a <==> x in b
    ensures |a| == |b|
  {
    CountDistinct(a);
    CountDistinct(b);
    assert (set x | x in a) == (set x | x in b);
  }

  /** The tree a window left survives its removal. */
  lemma RemovedTreeSurvives(ws: Workspace, id: WindowId, t: Tombstone)
    requires Sound(ws) && Tiled(ws, id) && t.tree == ws.tree && !t.floating
    ensures Survives(t, id, RemoveFromMembership(id, ws).tree)
  {
    hide RemoveFromMembership, Bag, Has, TiledMembers, Others;
    RemovalSound(ws, id);
    var left := RemoveFromMembership(id, ws);
    var before, after := Others(TiledMembers(ws.tree), id), TiledMembers(left.tree);
    TiledMembersDiffer(ws.tree);
    TiledMembersDiffer(left.tree);
    WithoutDropsOne(TiledMembers(ws.tree), id);
    forall x ensures x in before <==> x in after {
      assert Tiled(left, x) <==> Tiled(ws, x) && x != id;
    }
    SameMembersSameCount(before, after);
  }

  lemma HomeIsUnique(w: World, i: nat, id: WindowId)
    requires WellFormed(w) && i < |w.workspaces| && Holds(w.workspaces[i], id)
    ensures Home(w.workspaces, id) == i
  {
    hide Sound, Holds;
    assert forall j :: 0 <= j < i ==> Apart(w.workspaces[j], w.workspaces[i]);
  }

  lemma NameIsUnique(w: World, i: nat)
    requires WellFormed(w) && i < |w.workspaces|
    ensures Named(w.workspaces, w.workspaces[i].name) == i
  {
    hide Sound, Holds;
    assert forall j :: 0 <= j < i ==> Apart(w.workspaces[j], w.workspaces[i]);
  }

  lemma ParkedFrameReturns(parked: map<WindowId, Frame>, id: WindowId)
    ensures (if id in parked then (parked - {id})[id := parked[id]] else parked - {id}) == parked
  {
  }

  lemma OthersAreRemembered(w: World, focus: Option<WindowId>, j: nat)
    requires j < |w.workspaces|
    ensures |RecordFocused(w, focus).workspaces| == |w.workspaces|
    ensures var ws := RecordFocused(w, focus).workspaces[j];
            ws == w.workspaces[j].(lastFocused := ws.lastFocused, lastFocusedTiled := ws.lastFocusedTiled)
  {
    hide Holds, Tiled;
  }

  /** What removal leaves behind. */
  lemma LeavingWorkspace(e: Engine, i: nat, id: WindowId, now: int)
    requires Valid(e) && i < |e.world.workspaces| && Tiled(e.world.workspaces[i], id)
    ensures var ws := e.world.workspaces[i];
            var r := Remove(e, id, now);
            && r.world == Put(e.world, i, RemoveFromMembership(id, ws))
            && id in r.tombstones
            && r.tombstones[id] == Tombstone(ws.name, false, ws.tree, if id in ws.parked then Some(ws.parked[id]) else None, now)
            && Homeless(r.world, id) && WellFormed(r.world)
  {
    hide WellFormed, RemoveFromMembership, Holds, Has, Bag;
    HoldsTiled(e.world.workspaces[i], id);
    HomeIsUnique(e.world, i, id);
    RemovalKeeps(e.world, i, id);
    SoundAt(e.world, i);
    TiledIsNotFloating(e.world.workspaces[i], id);
  }

  lemma HoldsTiled(ws: Workspace, id: WindowId)
    requires Tiled(ws, id)
    ensures Holds(ws, id)
  {
  }

  lemma TiledIsNotFloating(ws: Workspace, id: WindowId)
    requires Sound(ws) && Tiled(ws, id)
    ensures id !in ws.floating
  {
  }

  /** A tiled window that leaves and is reported again for its workspace brings back the very tree, ratios
      included, and its parked frame; no workspace differs from before in anything but its focus memory. */
  lemma ReturnRestoresWorkspace(settings: Settings, e: Engine, i: nat, id: WindowId, now: int, floating: bool,
                                beside: Option<WindowId>, axis: Option<Axis>)
    requires Valid(e) && i < |e.world.workspaces| && Tiled(e.world.workspaces[i], id) && id in e.world.windows
    ensures var r := Insert(settings, Remove(e, id, now), id, e.world.workspaces[i].name, floating, beside, axis);
            && |r.world.workspaces| == |e.world.workspaces| && id !in r.tombstones
            && forall j :: 0 <= j < |e.world.workspaces| ==>
                 r.world.workspaces[j] == e.world.workspaces[j].(lastFocused := r.world.workspaces[j].lastFocused,
                                                                 lastFocusedTiled := r.world.workspaces[j].lastFocusedTiled)
  {
    hide Valid, WellFormed, Remove, Survives, RecordFocused, Tiled, Holds, Home, Homeless, InsertRestored,
      RemoveFromMembership;
    var ws := e.world.workspaces[i];
    var gone := Remove(e, id, now);
    LeavingWorkspace(e, i, id, now);
    HomelessIffNoHome(gone.world, id);
    NameIsUnique(gone.world, i);
    ValidSound(e, i);
    RemovedTreeSurvives(ws, id, gone.tombstones[id]);
    LeftBehind(ws, id);
    RestoredInPlace(gone, i, id, ws);
    var restored := InsertRestored(gone, id, ws.name);
    forall j | 0 <= j < |e.world.workspaces|
      ensures |RecordFocused(restored, restored.focusIntent).workspaces| == |e.world.workspaces|
      ensures SameButFocus(RecordFocused(restored, restored.focusIntent).workspaces[j], e.world.workspaces[j])
    {
      OthersAreRemembered(restored, restored.focusIntent, j);
      assert SameButFocus(restored.workspaces[j], e.world.workspaces[j]);
    }
  }

  predicate SameButFocus(a: Workspace, b: Workspace) {
    a == b.(lastFocused := a.lastFocused, lastFocusedTiled := a.lastFocusedTiled)
  }

  lemma RestoredInPlace(gone: Engine, i: nat, id: WindowId, ws: Workspace)
    requires i < |gone.world.workspaces| && Restores(gone, id, ws.name) && Named(gone.world.workspaces, ws.name) == i
    requires gone.tombstones[id].tree == ws.tree
    requires gone.tombstones[id].parked == if id in ws.parked then Some(ws.parked[id]) else None
    requires var left := gone.world.workspaces[i];
             left == ws.(tree := left.tree, parked := ws.parked - {id}, lastFocused := left.lastFocused,
                         lastFocusedTiled := left.lastFocusedTiled)
    ensures var r := InsertRestored(gone, id, ws.name);
            && r == gone.world.(workspaces := r.workspaces) && |r.workspaces| == |gone.world.workspaces|
            && SameButFocus(r.workspaces[i], ws)
            && forall j :: 0 <= j < |r.workspaces| && j != i ==> r.workspaces[j] == gone.world.workspaces[j]
  {
    hide Survives;
    ParkedFrameReturns(ws.parked, id);
  }

  lemma ValidSound(e: Engine, i: nat)
    requires Valid(e) && i < |e.world.workspaces|
    ensures Sound(e.world.workspaces[i])
  {
  }

  lemma LeftBehind(ws: Workspace, id: WindowId)
    requires Sound(ws) && Tiled(ws, id)
    ensures var left := RemoveFromMembership(id, ws);
            left == ws.(tree := left.tree, parked := ws.parked - {id}, lastFocused := left.lastFocused,
                        lastFocusedTiled := left.lastFocusedTiled)
  {
    hide RemoveLeaf, Others, TiledMembers;
    TiledIsNotFloating(ws, id);
    assert ws.floating - {id} == ws.floating;
  }
}
