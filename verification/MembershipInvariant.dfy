/** Membership is well formed in every reachable world. */
module MembershipInvariant {
  import opened Geometry
  import opened BspTree
  import opened Planner
  import opened Policies
  import opened Insertion
  import opened GeometricMove
  import opened GeometricMoveTheorems
  import opened Membership
  import InitialLayout

  // ---------------------------------------------------------------- the invariant

  /** The sentinel occurs only as a lone root, and every window has one pane. */
  ghost predicate TreeSound(tree: Node) {
    IsEmptyTree(tree) || (Distinct(tree) && !Has(tree, EMPTY_LEAF))
  }

  ghost predicate Sound(ws: Workspace) {
    && TreeSound(ws.tree)
    && EMPTY_LEAF !in ws.floating
    && (forall id :: id in ws.floating ==> !Has(ws.tree, id))
    && (ws.lastFocused.Some? ==> Holds(ws, ws.lastFocused.value))
    && (ws.lastFocusedTiled.Some? ==> Tiled(ws, ws.lastFocusedTiled.value))
    && (forall id :: id in ws.parked ==> Holds(ws, id))
  }

  ghost predicate Apart(a: Workspace, b: Workspace) {
    a.name != b.name && forall id :: !(Holds(a, id) && Holds(b, id))
  }

  ghost predicate WellFormed(w: World) {
    && (forall i :: 0 <= i < |w.workspaces| ==> Sound(w.workspaces[i]))
    && (forall i, j :: 0 <= i < j < |w.workspaces| ==> Apart(w.workspaces[i], w.workspaces[j]))
  }

  ghost predicate TombstoneSound(id: WindowId, t: Tombstone) {
    !t.floating ==> TreeSound(t.tree) && Has(t.tree, id) && id != EMPTY_LEAF
  }

  ghost predicate Valid(e: Engine) {
    WellFormed(e.world) && forall id :: id in e.tombstones ==> TombstoneSound(id, e.tombstones[id])
  }

  // ---------------------------------------------------------------- one workspace at a time

  lemma RemovedTree(tree: Node, id: WindowId)
    requires TreeSound(tree) && id != EMPTY_LEAF && Has(tree, id)
    ensures var removed := RemoveLeaf(tree, id);
            && (removed.None? <==> tree.Leaf?)
            && (removed.Some? ==> Distinct(removed.value) && !Has(removed.value, EMPTY_LEAF))
            && (removed.Some? ==> forall x :: Has(removed.value, x) <==> Has(tree, x) && x != id)
  {
    if tree.Split? {
      RemoveLeafConserves(tree, id);
      var removed := RemoveLeaf(tree, id).value;
      forall x ensures Has(removed, x) <==> Has(tree, x) && x != id {
        assert Bag(tree)[x] == Bag(removed)[x] + multiset{id}[x];
      }
    }
  }

  /** After a removal the workspace holds everything but the window. */
  lemma RemovalSound(ws: Workspace, id: WindowId)
    requires Sound(ws) && Holds(ws, id)
    ensures var r := RemoveFromMembership(id, ws);
            && Sound(r) && r.name == ws.name && r.visibleOn == ws.visibleOn
            && forall x :: (Holds(r, x) <==> Holds(ws, x) && x != id) && (Tiled(r, x) <==> Tiled(ws, x) && x != id)
  {
    hide Bag, Has, Distinct, RemoveLeaf, TiledMembers;
    var r := RemoveFromMembership(id, ws);
    if Tiled(ws, id) {
      RemovedTree(ws.tree, id);
      EmptyHoldsNothing();
      if RemoveLeaf(ws.tree, id).Some? {
        RemainingIsNotEmpty(ws.tree, id, RemoveLeaf(ws.tree, id).value);
      } else {
        LoneLeaf(ws.tree, id);
      }
    } else {
      assert !Has(ws.tree, id);
      if Others(TiledMembers(ws.tree), id) == [] {
        OnlySentinel(ws.tree, id);
      }
    }
  }

  lemma EmptyHoldsNothing()
    ensures forall x :: Has(Leaf(EMPTY_LEAF), x) <==> x == EMPTY_LEAF
  {
  }

  lemma LoneLeaf(tree: Node, id: WindowId)
    requires tree.Leaf? && Has(tree, id)
    ensures forall x :: Has(tree, x) <==> x == id
  {
  }

  lemma RemainingIsNotEmpty(tree: Node, id: WindowId, removed: Node)
    requires !Has(removed, EMPTY_LEAF) && forall x :: Has(removed, x) <==> Has(tree, x) && x != id
    ensures Others(TiledMembers(tree), id) != []
  {
    FirstLeafIsHeld(removed);
    assert FirstLeaf(removed) in Others(TiledMembers(tree), id);
  }

  lemma FirstLeafIsHeld(tree: Node)
    ensures Has(tree, FirstLeaf(tree))
  {
    BagCountsLeaves(tree);
    assert FirstLeaf(tree) in Leaves(tree);
  }

  lemma OnlySentinel(tree: Node, id: WindowId)
    requires TreeSound(tree) && !Has(tree, id) && Others(TiledMembers(tree), id) == []
    ensures tree == Leaf(EMPTY_LEAF)
  {
    FirstLeafIsHeld(tree);
    if !IsEmptyTree(tree) {
      NotTheSentinel(tree, id);
      assert false;
    }
  }

  lemma NotTheSentinel(tree: Node, id: WindowId)
    requires TreeSound(tree) && !IsEmptyTree(tree) && !Has(tree, id) && Has(tree, FirstLeaf(tree))
    ensures FirstLeaf(tree) in Others(TiledMembers(tree), id)
  {
  }

  /** Whatever the geometry allows, the new window is in the tree exactly once. */
  lemma {:induction false} TrialsAddOne(input: InsertionInput, base: Node, beside: WindowId, target: Frame,
                                        content: Frame,
                                        axes: seq<Axis>)
    ensures var r := TryAxes(input, base, beside, target, content, axes);
            r.Some? ==> Bag(r.value.tree) == Bag(base) + multiset{input.newId}
  {
    hide PlanLayout;
    if axes != [] {
      TrialsAddOne(input, base, beside, target, content, axes[1..]);
    }
  }

  lemma PlanAddsOne(input: InsertionInput)
    requires PlanInsertion(input).Some?
    ensures Bag(PlanInsertion(input).value.tree)
            == if IsEmptyTree(input.tree) then multiset{input.newId} else Bag(input.tree) + multiset{input.newId}
  {
    hide PlanLayout, RetainPathDividers, TryAxes, BesideOf;
    if !IsEmptyTree(input.tree) {
      var content, beside := input.content.value, BesideOf(input);
      var current := PlanLayout(LayoutOf(input, input.tree, content), DEFAULT_CHAIN);
      var target := PlannedFrame(current, beside).value;
      var preferred := if input.axis.Some? then input.axis.value else AxisForFrame(target);
      TrialsAddOne(input, InsertionBase(input, current, beside), beside, target, content, AxesToTry(preferred, input.axis));
    }
  }

  lemma InsertedTreeAddsOne(input: InsertionInput)
    ensures Bag(InsertedTree(input))
            == if IsEmptyTree(input.tree) then multiset{input.newId} else Bag(input.tree) + multiset{input.newId}
  {
    hide PlanInsertion, InsertLeaf;
    if PlanInsertion(input).Some? {
      PlanAddsOne(input);
    } else if !IsEmptyTree(input.tree) {
      BagCountsLeaves(input.tree);
      assert Has(input.tree, FirstLeaf(input.tree));
    }
  }

  lemma InsertedTreeSound(input: InsertionInput)
    requires TreeSound(input.tree) && !Has(input.tree, input.newId) && input.newId != EMPTY_LEAF
    ensures TreeSound(InsertedTree(input))
    ensures forall x :: x != EMPTY_LEAF ==> (Has(InsertedTree(input), x) <==> Has(input.tree, x) || x == input.newId)
  {
    hide InsertedTree, PlanInsertion;
    InsertedTreeAddsOne(input);
    var tree := InsertedTree(input);
    if IsEmptyTree(input.tree) {
      forall x ensures Bag(tree)[x] == multiset{input.newId}[x] {}
    } else {
      forall x ensures Bag(tree)[x] == Bag(input.tree)[x] + multiset{input.newId}[x] {}
    }
  }

  /** Putting one more window into a sound workspace. */
  lemma InsertionSound(ws: Workspace, input: InsertionInput)
    requires Sound(ws) && input.tree == ws.tree && !Holds(ws, input.newId) && input.newId != EMPTY_LEAF
    ensures var r := ws.(tree := InsertedTree(input));
            && Sound(r)
            && forall x :: (Holds(r, x) <==> Holds(ws, x) || x == input.newId)
  {
    hide InsertedTree, Bag, Has, Distinct, TreeSound;
    InsertedTreeSound(input);
  }

  lemma FloatingSound(ws: Workspace, id: WindowId)
    requires Sound(ws) && !Holds(ws, id) && id != EMPTY_LEAF
    ensures var r := ws.(floating := ws.floating + {id});
            Sound(r) && forall x :: (Holds(r, x) <==> Holds(ws, x) || x == id)
  {
    hide Bag, Has, Distinct, TreeSound;
  }

  lemma ParkedAgainSound(ws: Workspace, id: WindowId, frame: Option<Frame>)
    requires Sound(ws) && Holds(ws, id)
    ensures Sound(ws.(parked := ParkedAgain(ws, id, frame)))
  {
    hide Bag, Has, Distinct, TreeSound;
  }

  lemma RememberingSound(ws: Workspace, id: WindowId)
    requires Sound(ws) && Holds(ws, id)
    ensures Sound(Remembering(ws, id))
  {
    hide Bag, Has, Distinct, TreeSound;
  }

  // ---------------------------------------------------------------- a tree brought back by a tombstone

  lemma {:induction false} WithoutDropsOne(ids: seq<WindowId>, id: WindowId)
    requires NoDuplicates(ids)
    ensures NoDuplicates(Others(ids, id))
    ensures |Others(ids, id)| == |ids| - (if id in ids then 1 else 0)
  {
    if ids != [] {
      assert NoDuplicates(ids[1..]) by {
        forall i, j | 0 <= i < j < |ids[1..]| ensures ids[1..][i] != ids[1..][j] {
          assert ids[i + 1] != ids[j + 1];
        }
      }
      assert ids[0] !in ids[1..];
      WithoutDropsOne(ids[1..], id);
      assert ids == [ids[0]] + ids[1..];
    }
  }

  lemma {:induction false} CountDistinct(ids: seq<WindowId>)
    requires NoDuplicates(ids)
    ensures |set x | x in ids| == |ids|
  {
    if ids == [] {
      assert (set x | x in ids) == {};
    } else {
      var n := |ids| - 1;
      CountDistinct(ids[..n]);
      assert ids[n] !in ids[..n];
      assert ids == ids[..n] + [ids[n]];
      assert (set x | x in ids) == (set x | x in ids[..n]) + {ids[n]};
    }
  }

  /** Distinct ids, as many on both sides and one side within the other: the same ids. */
  lemma SameCountSameMembers(a: seq<WindowId>, b: seq<WindowId>)
    requires NoDuplicates(a) && NoDuplicates(b) && |a| == |b| && forall x :: x in a ==> x in b
    ensures forall x :: x in b ==> x in a
  {
    CountDistinct(a);
    CountDistinct(b);
    var s, t := set x | x in a, set x | x in b;
    assert s <= t;
    if s != t {
      assert s < t;
      SmallerSubset(s, t);
      assert false;
    }
    forall x | x in b ensures x in a {
      assert x in t;
    }
  }

  lemma SmallerSubset<T>(s: set<T>, t: set<T>)
    requires s < t
    ensures |s| < |t|
  {
    var extra :| extra in t && extra !in s;
    assert t == s + (t - s);
    assert |t| == |s| + |t - s|;
    assert t - s == {extra} + (t - s - {extra});
  }

  lemma TiledMembersDiffer(tree: Node)
    ensures NoDuplicates(TiledMembers(tree))
  {
    WithoutSentinelKeepsDistinct(Dedup(Leaves(tree)));
  }

  /** The survivors of the tombstone's tree are exactly the workspace's tiled members. */
  lemma SurvivorsAreMembers(t: Tombstone, id: WindowId, tree: Node)
    requires Survives(t, id, tree)
    ensures forall x :: x != id && x != EMPTY_LEAF ==> (Has(t.tree, x) <==> (Has(tree, x)))
    ensures !t.floating
  {
    hide Has;
    TiledMembersDiffer(t.tree);
    TiledMembersDiffer(tree);
    WithoutDropsOne(TiledMembers(t.tree), id);
    SameCountSameMembers(Others(TiledMembers(t.tree), id), TiledMembers(tree));
    forall x | x != id && x != EMPTY_LEAF ensures Has(t.tree, x) <==> Has(tree, x) {
      assert x in TiledMembers(tree) <==> Has(tree, x);
      assert x in TiledMembers(t.tree) <==> Has(t.tree, x);
      assert x in Others(TiledMembers(t.tree), id) <==> x in TiledMembers(t.tree);
    }
  }

  /** The old tree comes back with its one lost window and no other change of membership. */
  lemma RestoreSound(ws: Workspace, id: WindowId, t: Tombstone)
    requires Sound(ws) && !Holds(ws, id) && TombstoneSound(id, t) && Survives(t, id, ws.tree)
    ensures var r := ws.(tree := t.tree);
            && Sound(r)
            && forall x :: (Holds(r, x) <==> Holds(ws, x) || x == id)
  {
    hide Bag, Has, Distinct, Survives;
    SurvivorsAreMembers(t, id, ws.tree);
    var r := ws.(tree := t.tree);
    forall x ensures Tiled(r, x) <==> Tiled(ws, x) || x == id {}
    assert Sound(r) by {
      forall x | x in r.floating ensures !Has(r.tree, x) {
        assert !Has(ws.tree, x);
        assert x != id;
      }
    }
  }

  // ---------------------------------------------------------------- one world at a time

  lemma PutKeeps(w: World, i: nat, ws: Workspace)
    requires WellFormed(w) && i < |w.workspaces| && ws.name == w.workspaces[i].name && Sound(ws)
    requires forall j, id :: 0 <= j < |w.workspaces| && j != i && Holds(ws, id) ==> !Holds(w.workspaces[j], id)
    ensures WellFormed(Put(w, i, ws))
  {
    hide Sound, Holds;
    var v := Put(w, i, ws);
    forall a, b | 0 <= a < b < |v.workspaces| ensures Apart(v.workspaces[a], v.workspaces[b]) {
      assert Apart(w.workspaces[a], w.workspaces[b]);
    }
  }

  /** Same members as before: nothing can clash. */
  lemma PutSameMembers(w: World, i: nat, ws: Workspace)
    requires WellFormed(w) && i < |w.workspaces| && ws.name == w.workspaces[i].name && Sound(ws)
    requires forall id :: Holds(ws, id) ==> Holds(w.workspaces[i], id)
    ensures WellFormed(Put(w, i, ws))
  {
    hide Sound, Holds;
    forall j, id | 0 <= j < |w.workspaces| && j != i && Holds(ws, id) ensures !Holds(w.workspaces[j], id) {
      if j < i {
        assert Apart(w.workspaces[j], w.workspaces[i]);
      } else {
        assert Apart(w.workspaces[i], w.workspaces[j]);
      }
    }
    PutKeeps(w, i, ws);
  }

  ghost predicate Homeless(w: World, id: WindowId) {
    forall j :: 0 <= j < |w.workspaces| ==> !Holds(w.workspaces[j], id)
  }

  /** One homeless window joins a workspace. */
  lemma PutOneMore(w: World, i: nat, ws: Workspace, id: WindowId)
    requires WellFormed(w) && i < |w.workspaces| && ws.name == w.workspaces[i].name && Sound(ws) && Homeless(w, id)
    requires forall x :: Holds(ws, x) ==> Holds(w.workspaces[i], x) || x == id
    ensures WellFormed(Put(w, i, ws))
  {
    hide Sound, Holds;
    forall j, x | 0 <= j < |w.workspaces| && j != i && Holds(ws, x) ensures !Holds(w.workspaces[j], x) {
      if j < i {
        assert Apart(w.workspaces[j], w.workspaces[i]);
      } else {
        assert Apart(w.workspaces[i], w.workspaces[j]);
      }
    }
    PutKeeps(w, i, ws);
  }

  lemma AppendKeeps(w: World, name: string, visibleOn: Option<DisplayId>)
    requires WellFormed(w) && Named(w.workspaces, name) == |w.workspaces|
    ensures WellFormed(w.(workspaces := w.workspaces + [NewWorkspace(name, visibleOn)]))
    ensures forall id :: !Holds(NewWorkspace(name, visibleOn), id)
  {
    var fresh' := NewWorkspace(name, visibleOn);
    EmptyHoldsNothing();
    assert Sound(fresh');
    var v := w.(workspaces := w.workspaces + [fresh']);
    forall a, b | 0 <= a < b < |v.workspaces| ensures Apart(v.workspaces[a], v.workspaces[b]) {
      if b < |w.workspaces| {
        assert Apart(w.workspaces[a], w.workspaces[b]);
      }
    }
  }

  lemma EnsureKeeps(w: World, name: string)
    requires WellFormed(w)
    ensures WellFormed(EnsureWorkspace(w, name)) && WellFormed(EnsureHidden(w, name))
    ensures forall id :: Homeless(w, id) ==> Homeless(EnsureWorkspace(w, name), id) && Homeless(EnsureHidden(w, name), id)
  {
    hide WellFormed, HostForNew, Holds;
    if Named(w.workspaces, name) == |w.workspaces| {
      AppendKeeps(w, name, HostForNew(w));
      AppendKeeps(w, name, None);
    }
  }

  lemma HomelessIffNoHome(w: World, id: WindowId)
    ensures Homeless(w, id) <==> Home(w.workspaces, id) == |w.workspaces|
  {
    hide Holds;
  }

  lemma InsertTiledKeeps(settings: Settings, w: World, name: string, id: WindowId, beside: Option<WindowId>,
                         axis: Option<Axis>)
    requires WellFormed(w) && Homeless(w, id) && id != EMPTY_LEAF
    ensures WellFormed(InsertTiledInto(settings, w, name, id, beside, axis))
  {
    hide Sound, Holds, Apart, InsertedTree, EnsureWorkspace;
    EnsureKeeps(w, name);
    var with := EnsureWorkspace(w, name);
    var i := Named(with.workspaces, name);
    var ws := with.workspaces[i];
    var input := InsertionFor(settings, with, ws, id, beside, axis);
    InsertionSound(ws, input);
    PutOneMore(with, i, ws.(tree := InsertedTree(input)), id);
  }

  lemma RecordFocusedKeeps(w: World, id: Option<WindowId>)
    requires WellFormed(w)
    ensures WellFormed(RecordFocused(w, id))
  {
    hide Sound, Holds, Apart, Tiled;
    if id.Some? {
      var i := Home(w.workspaces, id.value);
      if i < |w.workspaces| {
        RememberingSound(w.workspaces[i], id.value);
        RememberingHolds(w.workspaces[i], id.value);
        PutSameMembers(w, i, Remembering(w.workspaces[i], id.value));
      }
    }
  }

  lemma RememberingHolds(ws: Workspace, id: WindowId)
    ensures forall x :: Holds(Remembering(ws, id), x) <==> Holds(ws, x)
  {
  }

  lemma RemovalKeeps(w: World, i: nat, id: WindowId)
    requires WellFormed(w) && i < |w.workspaces| && Holds(w.workspaces[i], id)
    ensures WellFormed(Put(w, i, RemoveFromMembership(id, w.workspaces[i])))
    ensures Homeless(Put(w, i, RemoveFromMembership(id, w.workspaces[i])), id)
  {
    hide Sound, Holds, RemoveFromMembership;
    var r := RemoveFromMembership(id, w.workspaces[i]);
    RemovalSound(w.workspaces[i], id);
    PutSameMembers(w, i, r);
    forall j | 0 <= j < |w.workspaces| && j != i ensures !Holds(w.workspaces[j], id) {
      if j < i {
        assert Apart(w.workspaces[j], w.workspaces[i]);
      } else {
        assert Apart(w.workspaces[i], w.workspaces[j]);
      }
    }
  }

  /** Where a member came from is found whichever way it is looked for. */
  lemma HomesAreRealWindows(w: World, i: nat, id: WindowId)
    requires WellFormed(w) && i < |w.workspaces| && Holds(w.workspaces[i], id)
    ensures id != EMPTY_LEAF
  {
    assert Sound(w.workspaces[i]);
  }

  lemma FloatKeeps(w: World, id: WindowId)
    requires WellFormed(w)
    ensures WellFormed(Float(w, id))
  {
    hide Sound, Apart, RemoveFromMembership, WellFormed;
    var i := TiledHome(w.workspaces, id);
    if i < |w.workspaces| {
      var removed := RemoveFromMembership(id, w.workspaces[i]);
      HomesAreRealWindows(w, i, id);
      RemovalKeeps(w, i, id);
      SoundAt(w, i);
      RemovalSound(w.workspaces[i], id);
      var left := Put(w, i, removed);
      assert !Holds(removed, id);
      FloatingSound(removed, id);
      PutOneMore(left, i, removed.(floating := removed.floating + {id}), id);
      assert Float(w, id).workspaces == left.workspaces[i := removed.(floating := removed.floating + {id})];
    }
  }

  lemma SoundAt(w: World, i: nat)
    requires WellFormed(w) && i < |w.workspaces|
    ensures Sound(w.workspaces[i])
  {
  }

  lemma TileKeeps(settings: Settings, w: World, id: WindowId)
    requires WellFormed(w)
    ensures WellFormed(Tile(settings, w, id))
  {
    hide Sound, Apart, RemoveFromMembership, WellFormed, InsertTiledInto;
    var i := FloatingHome(w.workspaces, id);
    if i < |w.workspaces| {
      HomesAreRealWindows(w, i, id);
      RemovalKeeps(w, i, id);
      InsertTiledKeeps(settings, Put(w, i, RemoveFromMembership(id, w.workspaces[i])), w.workspaces[i].name, id, None, None);
    }
  }

  lemma ArrivalKeeps(settings: Settings, w: World, id: WindowId, name: string, floats: bool)
    requires WellFormed(w) && Homeless(w, id) && id != EMPTY_LEAF
    ensures var arrived := EnsureHidden(w, name);
            var k := Named(arrived.workspaces, name);
            && (floats ==> WellFormed(Put(arrived, k, arrived.workspaces[k].(floating := arrived.workspaces[k].floating + {id}))))
            && (!floats ==> WellFormed(InsertTiledInto(settings, arrived, name, id, None, None)))
  {
    hide Sound, Apart, WellFormed, InsertTiledInto, EnsureHidden, Holds;
    EnsureKeeps(w, name);
    var arrived := EnsureHidden(w, name);
    var k := Named(arrived.workspaces, name);
    if floats {
      SoundAt(arrived, k);
      FloatingSound(arrived.workspaces[k], id);
      PutOneMore(arrived, k, arrived.workspaces[k].(floating := arrived.workspaces[k].floating + {id}), id);
    } else {
      InsertTiledKeeps(settings, arrived, name, id, None, None);
    }
  }

  lemma MoveBetweenKeeps(settings: Settings, w: World, id: WindowId, name: string)
    requires WellFormed(w) && id != EMPTY_LEAF
    ensures WellFormed(MoveBetween(settings, w, id, name))
  {
    hide Sound, Apart, RemoveFromMembership, WellFormed, InsertTiledInto, EnsureHidden, Holds;
    var i := Home(w.workspaces, id);
    if i < |w.workspaces| {
      RemovalKeeps(w, i, id);
      ArrivalKeeps(settings, Put(w, i, RemoveFromMembership(id, w.workspaces[i])), id, name, id in w.workspaces[i].floating);
    } else {
      HomelessIffNoHome(w, id);
      ArrivalKeeps(settings, w, id, name, false);
    }
  }

  lemma PutOutside(w: World, i: nat, ws: Workspace)
    requires WellFormed(w) && i < |w.workspaces|
    requires ws == w.workspaces[i].(visibleOn := ws.visibleOn, pinned := ws.pinned, preferred := ws.preferred, mode := ws.mode)
    ensures WellFormed(Put(w, i, ws))
  {
    hide Bag, Has, Distinct, TreeSound, Apart;
    PutSameMembers(w, i, ws);
  }

  lemma ShowKeeps(w: World, name: string, display: Option<DisplayId>)
    requires WellFormed(w)
    ensures WellFormed(Show(w, name, display))
  {
    hide WellFormed;
    var i := Named(w.workspaces, name);
    if i < |w.workspaces| { PutOutside(w, i, w.workspaces[i].(visibleOn := display)); }
  }

  lemma HideOccupantKeeps(w: World, name: string, display: DisplayId)
    requires WellFormed(w)
    ensures WellFormed(HideOccupant(w, name, display))
  {
    hide WellFormed;
    var i := Occupant(w.workspaces, display, name);
    if i < |w.workspaces| { PutOutside(w, i, w.workspaces[i].(visibleOn := None)); }
  }

  lemma RevealKeeps(w: World, name: string, display: DisplayId)
    requires WellFormed(w)
    ensures WellFormed(Reveal(w, name, display))
  {
    hide WellFormed, EnsureWorkspace, HideOccupant, Show;
    EnsureKeeps(w, name);
    HideOccupantKeeps(EnsureWorkspace(w, name), name, display);
    ShowKeeps(HideOccupant(EnsureWorkspace(w, name), name, display), name, Some(display));
  }

  lemma ParkKeeps(w: World, name: string, frames: map<WindowId, Frame>)
    requires WellFormed(w)
    ensures WellFormed(Park(w, name, frames)) && WellFormed(Unpark(w, name))
  {
    hide Bag, Has, Distinct, TreeSound, Apart;
    var i := Named(w.workspaces, name);
    if i < |w.workspaces| {
      var ws := w.workspaces[i];
      PutSameMembers(w, i, ws.(parked := ws.parked + (map id | id in frames && Holds(ws, id) :: frames[id])));
      PutSameMembers(w, i, ws.(parked := map[]));
    }
  }

  lemma RevealParkingKeeps(w: World, name: string, display: DisplayId, frames: map<WindowId, Frame>, fails: bool)
    requires WellFormed(w)
    ensures WellFormed(RevealParking(w, name, display, frames, fails))
  {
    hide WellFormed, EnsureWorkspace, HideOccupant, Show, Park;
    EnsureKeeps(w, name);
    var with := EnsureWorkspace(w, name);
    var i := Occupant(with.workspaces, display, name);
    var parkedWorld := if i < |with.workspaces| then Park(with, with.workspaces[i].name, frames) else with;
    if i < |with.workspaces| { ParkKeeps(with, with.workspaces[i].name, frames); }
    HideOccupantKeeps(parkedWorld, name, display);
    ShowKeeps(HideOccupant(parkedWorld, name, display), name, Some(display));
  }

  lemma PinKeeps(w: World, name: string, display: DisplayId)
    requires WellFormed(w)
    ensures WellFormed(Pin(w, name, display))
  {
    hide WellFormed, EnsureWorkspace;
    EnsureKeeps(w, name);
    var with := EnsureWorkspace(w, name);
    var i := Named(with.workspaces, name);
    PutOutside(with, i, with.workspaces[i].(pinned := Some(display)));
  }

  lemma ConfigureKeeps(w: World, name: string, mode: Mode, preferred: Option<DisplayId>)
    requires WellFormed(w)
    ensures WellFormed(Configure(w, name, mode, preferred))
  {
    hide WellFormed, EnsureHidden;
    EnsureKeeps(w, name);
    var known := EnsureHidden(w, name);
    var i := Named(known.workspaces, name);
    PutOutside(known, i, known.workspaces[i].(mode := mode, preferred := preferred));
  }

  lemma FocusWorkspaceKeeps(w: World, name: string)
    requires WellFormed(w)
    ensures WellFormed(FocusWorkspace(w, name))
  {
    hide Sound, Apart, EnsureWorkspace, DesiredDisplay, Reveal;
    EnsureKeeps(w, name);
    var with := EnsureWorkspace(w, name);
    var display := DesiredDisplay(with, name);
    var focused := with.(focusedWorkspace := Some(name));
    assert WellFormed(focused);
    if display.Some? { RevealKeeps(focused, name, display.value); }
  }

  /** The one directional move that loses or repeats a pane. */
  ghost predicate MovesAstray(w: World, name: string, moved: WindowId, direction: Direction, frames: Frames, gap: int,
                              groups: bool)
  {
    var i := Named(w.workspaces, name);
    i < |w.workspaces| && Misrotates(MoveInputFor(w.workspaces[i], moved, direction, frames, gap, groups))
  }

  lemma RearrangedSound(ws: Workspace, tree: Node, moved: WindowId)
    requires Sound(ws) && Tiled(ws, moved) && Bag(tree) == Bag(ws.tree)
    ensures Sound(ws.(tree := tree, lastFocused := Some(moved)))
    ensures forall x :: Holds(ws.(tree := tree, lastFocused := Some(moved)), x) <==> Holds(ws, x)
  {
    hide Bag;
    assert !IsEmptyTree(ws.tree) by { EmptyHoldsNothing(); }
  }

  lemma MoveDirectionKeeps(w: World, name: string, moved: WindowId, direction: Direction, frames: Frames, gap: int,
                           groups: bool)
    requires WellFormed(w) && !MovesAstray(w, name, moved, direction, frames, gap, groups)
    ensures WellFormed(MoveDirection(w, name, moved, direction, frames, gap, groups))
  {
    hide Sound, Apart, Holds, MoveGeometrically, Misrotates, Bag, Distinct, Has;
    var i := Named(w.workspaces, name);
    if i < |w.workspaces| && Tiled(w.workspaces[i], moved) {
      var ws := w.workspaces[i];
      var input := MoveInputFor(ws, moved, direction, frames, gap, groups);
      TiledTreeIsDistinct(ws, moved);
      MoveGeometricallyConservesIff(input);
      RearrangedSound(ws, MoveGeometrically(input), moved);
      PutSameMembers(w, i, ws.(tree := MoveGeometrically(input), lastFocused := Some(moved)));
    }
  }

  lemma TiledTreeIsDistinct(ws: Workspace, id: WindowId)
    requires Sound(ws) && Tiled(ws, id)
    ensures Distinct(ws.tree)
  {
  }

  // ---------------------------------------------------------------- steps with tombstones

  lemma RemoveKeeps(e: Engine, id: WindowId, now: int)
    requires Valid(e)
    ensures Valid(Remove(e, id, now))
  {
    hide WellFormed, RemoveFromMembership;
    var i := Home(e.world.workspaces, id);
    if i < |e.world.workspaces| {
      RemovalKeeps(e.world, i, id);
      SoundAt(e.world, i);
    }
  }

  lemma InsertFloatingKeeps(e: Engine, id: WindowId, name: string)
    requires WellFormed(e.world) && Homeless(e.world, id) && id != EMPTY_LEAF
    ensures WellFormed(InsertFloating(e, id, name))
  {
    hide Sound, Apart, WellFormed, EnsureWorkspace, Holds, ParkedAgain;
    EnsureKeeps(e.world, name);
    var with := EnsureWorkspace(e.world, name);
    var i := Named(with.workspaces, name);
    var ws := with.workspaces[i];
    var frame := if id in e.tombstones then e.tombstones[id].parked else None;
    SoundAt(with, i);
    FloatingSound(ws, id);
    var floated := ws.(floating := ws.floating + {id});
    assert Holds(floated, id);
    ParkedAgainSound(floated, id, frame);
    ParkingHolds(floated, ParkedAgain(floated, id, frame));
    ParkedAgainIgnoresMembers(ws, floated, id, frame);
    PutOneMore(with, i, floated.(parked := ParkedAgain(floated, id, frame)), id);
  }

  lemma ParkedAgainIgnoresMembers(a: Workspace, b: Workspace, id: WindowId, frame: Option<Frame>)
    requires a.parked == b.parked
    ensures ParkedAgain(a, id, frame) == ParkedAgain(b, id, frame)
  {
  }

  lemma ParkingHolds(ws: Workspace, parked: map<WindowId, Frame>)
    ensures forall x :: Holds(ws.(parked := parked), x) <==> Holds(ws, x)
  {
  }

  lemma InsertRestoredKeeps(e: Engine, id: WindowId, name: string)
    requires Valid(e) && Homeless(e.world, id) && Restores(e, id, name)
    ensures WellFormed(InsertRestored(e, id, name))
  {
    hide Sound, Apart, WellFormed, EnsureWorkspace, Holds, ParkedAgain, Survives, TombstoneSound;
    EnsureKeeps(e.world, name);
    var with := EnsureWorkspace(e.world, name);
    var i := Named(with.workspaces, name);
    var ws, t := with.workspaces[i], e.tombstones[id];
    SoundAt(with, i);
    RestoreSound(ws, id, t);
    var restored := ws.(tree := t.tree);
    assert Holds(restored, id);
    ParkedAgainSound(restored, id, t.parked);
    ParkingHolds(restored, ParkedAgain(restored, id, t.parked));
    ParkedAgainIgnoresMembers(ws, restored, id, t.parked);
    PutOneMore(with, i, restored.(parked := ParkedAgain(restored, id, t.parked)), id);
  }

  lemma InsertKeeps(settings: Settings, e: Engine, id: WindowId, name: string, floating: bool,
                    beside: Option<WindowId>, axis: Option<Axis>)
    requires Valid(e) && id != EMPTY_LEAF
    ensures Valid(Insert(settings, e, id, name, floating, beside, axis))
  {
    hide WellFormed, Restores, InsertRestored, InsertFloating, InsertTiledInto, RecordFocused, TombstoneSound;
    HomelessIffNoHome(e.world, id);
    if Homeless(e.world, id) {
      if Restores(e, id, name) {
        InsertRestoredKeeps(e, id, name);
        RecordFocusedKeeps(InsertRestored(e, id, name), InsertRestored(e, id, name).focusIntent);
      } else if floating {
        InsertFloatingKeeps(e, id, name);
        RecordFocusedKeeps(InsertFloating(e, id, name), InsertFloating(e, id, name).focusIntent);
      } else {
        InsertTiledKeeps(settings, e.world, name, id, beside, axis);
        var w := InsertTiledInto(settings, e.world, name, id, beside, axis);
        RecordFocusedKeeps(w, w.focusIntent);
      }
    }
  }

  lemma SignalKeeps(w: World, focus: Option<WindowId>)
    requires WellFormed(w)
    ensures WellFormed(Signal(w, focus))
  {
    hide WellFormed, RecordFocused;
    RecordFocusedKeeps(w, focus);
    SameWorkspaces(RecordFocused(w, focus), Signal(w, focus));
  }

  lemma {:induction false} SignalsKeep(w: World, signals: seq<Option<WindowId>>)
    requires WellFormed(w)
    ensures WellFormed(SignalAll(w, signals))
    decreases |signals|
  {
    hide WellFormed, Signal;
    if signals != [] {
      SignalKeeps(w, signals[0]);
      SignalsKeep(Signal(w, signals[0]), signals[1..]);
    }
  }

  lemma SeeKeeps(w: World, o: Sighting)
    requires WellFormed(w)
    ensures WellFormed(See(w, o))
  {
    hide WellFormed, RecordFocused, SignalAll;
    var looked := w.(displays := o.displays, windows := o.windows);
    SameWorkspaces(w, looked);
    SignalsKeep(looked, o.signals);
    var seen := Refocused(SignalAll(looked, o.signals), o.steady);
    SameWorkspaces(SignalAll(looked, o.signals), seen);
    RecordFocusedKeeps(seen, seen.focusIntent);
  }

  // ---------------------------------------------------------------- windows found at startup

  /** Different windows, none of them anywhere yet. */
  ghost predicate Newcomers(w: World, members: seq<InitialLayout.FramedWindow>) {
    && (forall k :: 0 <= k < |members| ==> members[k].id != EMPTY_LEAF && Homeless(w, members[k].id))
    && (forall k, m :: 0 <= k < m < |members| ==> members[k].id != members[m].id)
  }

  lemma {:induction false} DifferentIds(members: seq<InitialLayout.FramedWindow>, x: WindowId)
    requires forall k, m :: 0 <= k < m < |members| ==> members[k].id != members[m].id
    ensures InitialLayout.Ids(members)[x] == if Listed(members, x) then 1 else 0
    decreases |members|
  {
    if members != [] {
      var rest := members[1..];
      forall k, m | 0 <= k < m < |rest| ensures rest[k].id != rest[m].id {
        assert rest[k] == members[k + 1] && rest[m] == members[m + 1];
      }
      DifferentIds(rest, x);
      ListedFirst(members, x);
    }
  }

  lemma ListedFirst(members: seq<InitialLayout.FramedWindow>, x: WindowId)
    requires members != []
    ensures Listed(members, x) <==> members[0].id == x || Listed(members[1..], x)
  {
    if Listed(members, x) && members[0].id != x {
      var k :| 0 <= k < |members| && members[k].id == x;
      assert members[1..][k - 1].id == x;
    }
    if Listed(members[1..], x) {
      var k :| 0 <= k < |members[1..]| && members[1..][k].id == x;
      assert members[k + 1].id == x;
    }
  }

  lemma AdmittedSound(ws: Workspace, r: Workspace, members: seq<InitialLayout.FramedWindow>, content: Frame, gap: int)
    requires Sound(ws) && IsEmptyTree(ws.tree) && members != []
    requires forall k :: 0 <= k < |members| ==> members[k].id != EMPTY_LEAF && !Holds(ws, members[k].id)
    requires forall k, m :: 0 <= k < m < |members| ==> members[k].id != members[m].id
    requires r == ws.(mode := r.mode, tree := InitialLayout.InferTree(members, Some(content), gap), preferred := r.preferred,
                      lastFocused := r.lastFocused, lastFocusedTiled := r.lastFocusedTiled)
    requires r.lastFocused == ws.lastFocused || (r.lastFocused.Some? && Listed(members, r.lastFocused.value))
    requires r.lastFocusedTiled == ws.lastFocusedTiled || (r.lastFocusedTiled.Some? && Listed(members, r.lastFocusedTiled.value))
    ensures Sound(r) && forall x :: Holds(r, x) <==> Holds(ws, x) || Listed(members, x)
  {
    hide InitialLayout.InferTree, InitialLayout.Ids;
    InitialLayout.InferenceKeepsWindows(members, Some(content), gap);
    forall x ensures Bag(r.tree)[x] == if Listed(members, x) then 1 else 0 { DifferentIds(members, x); }
    EmptyHoldsNothing();
    assert forall x :: !Tiled(ws, x);
    assert forall x :: Tiled(r, x) <==> Listed(members, x);
  }

  lemma AdmitKeeps(w: World, name: string, members: seq<InitialLayout.FramedWindow>, content: Frame, gap: int, mode: Mode,
                   preferred: Option<DisplayId>, focused: Option<WindowId>)
    requires WellFormed(w) && Newcomers(w, members)
    ensures WellFormed(Admit(w, name, members, content, gap, mode, preferred, focused))
  {
    hide Sound, Holds, Apart, InitialLayout.InferTree, Listed;
    var i := Named(w.workspaces, name);
    var v := Admit(w, name, members, content, gap, mode, preferred, focused);
    if v != w {
      AdmittedSound(w.workspaces[i], v.workspaces[i], members, content, gap);
      AdmittedApart(w, i, v.workspaces[i], members);
      PutKeeps(w, i, v.workspaces[i]);
    }
  }

  lemma AdmittedApart(w: World, i: nat, ws: Workspace, members: seq<InitialLayout.FramedWindow>)
    requires WellFormed(w) && i < |w.workspaces| && Newcomers(w, members)
    requires forall x :: Holds(ws, x) <==> Holds(w.workspaces[i], x) || Listed(members, x)
    ensures forall j, x :: 0 <= j < |w.workspaces| && j != i && Holds(ws, x) ==> !Holds(w.workspaces[j], x)
  {
    hide Sound, Holds;
    forall j, x | 0 <= j < |w.workspaces| && j != i && Holds(ws, x) ensures !Holds(w.workspaces[j], x) {
      if j < i {
        assert Apart(w.workspaces[j], w.workspaces[i]);
      } else {
        assert Apart(w.workspaces[i], w.workspaces[j]);
      }
    }
  }

  // ---------------------------------------------------------------- every run

  /** The sentinel is no window, the one misrotating move is not asked for, and startup admits nobody twice. */
  ghost predicate Sensible(e: Engine, event: Event) {
    match event
    case Inserted(id, _, _, _, _) => id != EMPTY_LEAF
    case MovedBetween(id, _) => id != EMPTY_LEAF
    case MovedInDirection(name, moved, direction, frames, gap, groups) =>
      !MovesAstray(e.world, name, moved, direction, frames, gap, groups)
    case AdmittedAtStartup(_, members, _, _, _, _, _) => Newcomers(e.world, members)
    case _ => true
  }

  lemma StepKeepsMembership(settings: Settings, e: Engine, event: Event)
    requires Valid(e) && Sensible(e, event)
    ensures Valid(Apply(settings, e, event))
  {
    hide WellFormed, TombstoneSound, MovesAstray, Insert, Remove, Float, Tile, MoveBetween, MoveDirection, Configure,
      Reveal,
      RevealParking, Pin, FocusWorkspace, Park, Unpark, RecordFocused, Signal, See, Admit, Newcomers;
    var w := e.world;
    match event
    case Inserted(id, name, floating, beside, axis) => InsertKeeps(settings, e, id, name, floating, beside, axis);
    case Removed(id, now) => RemoveKeeps(e, id, now);
    case Floated(id) => FloatKeeps(w, id);
    case TiledAgain(id) => TileKeeps(settings, w, id);
    case MovedBetween(id, name) => MoveBetweenKeeps(settings, w, id, name);
    case MovedInDirection(name, moved, direction, frames, gap, groups) =>
      MoveDirectionKeeps(w, name, moved, direction, frames, gap, groups);
    case Configured(name, mode, preferred) => ConfigureKeeps(w, name, mode, preferred);
    case Revealed(name, display) => RevealKeeps(w, name, display);
    case RevealedParking(name, display, frames, fails) => RevealParkingKeeps(w, name, display, frames, fails);
    case Pinned(name, display) => PinKeeps(w, name, display); RevealKeeps(Pin(w, name, display), name, display);
    case WorkspaceFocused(name) => FocusWorkspaceKeeps(w, name);
    case Parked(name, frames) => ParkKeeps(w, name, frames);
    case Retiled(name) => ParkKeeps(w, name, map[]);
    case FocusSignalled(focus) => SignalKeeps(w, focus);
    case Observed(o) => SeeKeeps(w, o);
    case AdmittedAtStartup(name, members, content, gap, mode, preferred, focused) =>
      AdmitKeeps(w, name, members, content, gap, mode, preferred, focused);
  }

  lemma SameWorkspaces(w: World, v: World)
    requires WellFormed(w) && w.workspaces == v.workspaces
    ensures WellFormed(v)
  {
    hide Sound, Apart;
  }

  ghost predicate SensibleRun(settings: Settings, e: Engine, events: seq<Event>)
    decreases |events|
  {
    events != [] ==> Sensible(e, events[0]) && SensibleRun(settings, Apply(settings, e, events[0]), events[1..])
  }

  function After(settings: Settings, e: Engine, events: seq<Event>): Engine
    decreases |events|
  {
    if events == [] then e else After(settings, Apply(settings, e, events[0]), events[1..])
  }

  lemma {:induction false} RunKeepsMembership(settings: Settings, e: Engine, events: seq<Event>)
    requires Valid(e) && SensibleRun(settings, e, events)
    ensures Valid(After(settings, e, events))
    decreases |events|
  {
    hide Valid, Apply, Sensible;
    if events != [] {
      StepKeepsMembership(settings, e, events[0]);
      RunKeepsMembership(settings, Apply(settings, e, events[0]), events[1..]);
    }
  }

  /** In every reachable world a window is in at most one workspace, as one tile or floating but not both;
      the sentinel is only ever a lone root; focus memories and parked frames name members. */
  lemma ReachableWorldsAreWellFormed(settings: Settings, events: seq<Event>)
    requires SensibleRun(settings, START, events)
    ensures Valid(After(settings, START, events))
  {
    EmptyHoldsNothing();
    assert Sound(START.world.workspaces[0]);
    assert WellFormed(START.world);
    RunKeepsMembership(settings, START, events);
  }
}
