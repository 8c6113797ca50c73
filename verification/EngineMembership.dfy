/** The engine's mutable membership state and the actions that change it in place. */
module EngineMembership {
  import opened Geometry
  import opened BspTree
  import opened Planner
  import opened Insertion
  import opened Membership
  import opened MembershipInvariant
  import opened DisplayExclusivity

  class MembershipState {
    var world: World
    var tombstones: map<WindowId, Tombstone>
    const settings: Settings

    function Now(): Engine
      reads this
    {
      Engine(world, tombstones)
    }

    constructor (settings: Settings)
      ensures Now() == START && Valid(Now()) && this.settings == settings
    {
      this.settings := settings;
      world, tombstones := START.world, map[];
      new;
      assert SensibleRun(settings, START, []);
      ReachableWorldsAreWellFormed(settings, []);
    }

    /** Look a workspace up, creating it when it does not exist. */
    method Ensure(name: string) returns (i: nat)
      modifies `world
      ensures world == EnsureWorkspace(old(world), name)
      ensures i == Named(world.workspaces, name) && i < |world.workspaces|
    {
      i := FindNamed(name);
      if i == |world.workspaces| {
        world := world.(workspaces := world.workspaces + [NewWorkspace(name, HostForNew(world))]);
        i := FindNamed(name);
      }
    }

    method FindNamed(name: string) returns (i: nat)
      ensures i == Named(world.workspaces, name)
    {
      i := 0;
      while i < |world.workspaces|
        invariant 0 <= i <= |world.workspaces|
        invariant Named(world.workspaces, name) == i + Named(world.workspaces[i..], name)
      {
        assert world.workspaces[i..][1..] == world.workspaces[i + 1..];
        if world.workspaces[i].name == name {
          return;
        }
        i := i + 1;
      }
    }

    method Commit(i: nat, updated: Workspace)
      requires i < |world.workspaces|
      modifies `world
      ensures world == Put(old(world), i, updated)
    {
      world := world.(workspaces := world.workspaces[i := updated]);
    }

    method DoFloat(id: WindowId)
      requires Valid(Now())
      modifies `world
      ensures world == Float(old(world), id)
      ensures Valid(Now())
    {
      hide Valid, RemoveFromMembership, Tiled;
      StepKeepsMembership(settings, Now(), Floated(id));
      var home := TiledHome(world.workspaces, id);
      if home == |world.workspaces| {
        return;
      }
      var updated := RemoveFromMembership(id, world.workspaces[home]);
      Commit(home, updated.(floating := updated.floating + {id}));
    }

    method InsertTiled(name: string, id: WindowId, beside: Option<WindowId>, axis: Option<Axis>)
      modifies `world
      ensures world == InsertTiledInto(settings, old(world), name, id, beside, axis)
    {
      hide InsertedTree, InsertionFor, EnsureWorkspace;
      var i := Ensure(name);
      var ws := world.workspaces[i];
      Commit(i, ws.(tree := InsertedTree(InsertionFor(settings, world, ws, id, beside, axis))));
    }

    method DoTile(id: WindowId)
      requires Valid(Now())
      modifies `world
      ensures world == Tile(settings, old(world), id)
      ensures Valid(Now())
    {
      hide Valid, RemoveFromMembership, InsertTiledInto;
      StepKeepsMembership(settings, Now(), TiledAgain(id));
      var home := FloatingHome(world.workspaces, id);
      if home == |world.workspaces| {
        return;
      }
      var name := world.workspaces[home].name;
      Commit(home, RemoveFromMembership(id, world.workspaces[home]));
      InsertTiled(name, id, None, None);
    }

    method DoRemove(id: WindowId, now: int)
      requires Valid(Now())
      modifies this
      ensures Now() == Remove(old(Now()), id, now)
      ensures Valid(Now())
    {
      hide Valid, RemoveFromMembership, Holds;
      StepKeepsMembership(settings, Now(), Removed(id, now));
      var i := Home(world.workspaces, id);
      if i == |world.workspaces| {
        return;
      }
      var home := world.workspaces[i];
      Commit(i, RemoveFromMembership(id, home));
      tombstones := tombstones[id := Tombstone(home.name, id in home.floating, home.tree,
                                               if id in home.parked then Some(home.parked[id]) else None, now)];
      PruneExpired(now);
    }

    /** The deletion loop over the tombstones. */
    method PruneExpired(now: int)
      modifies `tombstones
      ensures tombstones == Prune(old(tombstones), now)
    {
      var todo := tombstones.Keys;
      while todo != {}
        invariant todo <= old(tombstones).Keys
        invariant forall id :: id in tombstones <==>
                    id in old(tombstones) && (id in todo || now - old(tombstones)[id].at <= TOMBSTONE_TTL)
        invariant forall id :: id in tombstones ==> tombstones[id] == old(tombstones)[id]
        decreases todo
      {
        var id :| id in todo;
        if now - tombstones[id].at > TOMBSTONE_TTL {
          tombstones := tombstones - {id};
        }
        todo := todo - {id};
      }
    }

    /** Insert a discovered window: bring an old tree back, float it, or tile it. The first committed membership
        of a window is preserved. */
    method InsertWindow(id: WindowId, name: string, floating: bool, beside: Option<WindowId>, axis: Option<Axis>)
      requires Valid(Now()) && id != EMPTY_LEAF
      modifies this
      ensures Now() == Insert(settings, old(Now()), id, name, floating, beside, axis)
      ensures Valid(Now())
    {
      hide Valid, Survives, RecordFocused, InsertTiledInto, Home, Holds, EnsureWorkspace, ParkedAgain;
      StepKeepsMembership(settings, Now(), Inserted(id, name, floating, beside, axis));
      if Home(world.workspaces, id) < |world.workspaces| {
        return;
      }
      ghost var before := Now();
      if Restores(Now(), id, name) {
        var i := Ensure(name);
        var ws := world.workspaces[i];
        Commit(i, ws.(tree := tombstones[id].tree, parked := ParkedAgain(ws, id, tombstones[id].parked)));
        assert world == InsertRestored(before, id, name);
      } else if floating {
        var i := Ensure(name);
        var ws := world.workspaces[i];
        var frame := if id in tombstones then tombstones[id].parked else None;
        Commit(i, ws.(floating := ws.floating + {id}, parked := ParkedAgain(ws, id, frame)));
        assert world == InsertFloating(before, id, name);
      } else {
        InsertTiled(name, id, beside, axis);
      }
      world := RecordFocused(world, world.focusIntent);
      tombstones := tombstones - {id};
    }

    /** Reveal a workspace: its display's occupant is parked and hidden first, and nothing is shown when parking
        fails. */
    method RevealWorkspace(name: string, display: DisplayId, frames: map<WindowId, Frame>, parkingFails: bool) returns (ok: bool)
      requires Valid(Now())
      modifies `world
      ensures world == RevealParking(old(world), name, display, frames, parkingFails)
      ensures Valid(Now())
      ensures ok <==> !(parkingFails && Occupied(EnsureWorkspace(old(world), name), name, display))
    {
      hide Valid, EnsureWorkspace, Park;
      StepKeepsMembership(settings, Now(), RevealedParking(name, display, frames, parkingFails));
      var _ := Ensure(name);
      var i := Occupant(world.workspaces, display, name);
      if i < |world.workspaces| {
        world := Park(world, world.workspaces[i].name, frames);
        if parkingFails {
          return false;
        }
      }
      world := HideOccupant(world, name, display);
      world := Show(world, name, Some(display));
      return true;
    }
  }
}
