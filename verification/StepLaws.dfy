/** What every step makes of every field of every workspace, said of the workspaces alone. */
module StepLaws {
  import opened Geometry
  import opened BspTree
  import opened Planner
  import opened Insertion
  import opened GeometricMove
  import opened Membership
  import opened MembershipInvariant
  import opened DisplayExclusivity
  import opened TombstoneReturns
  import opened FocusLaws
  import InsertionLaws
  import InitialLayout

  // ---------------------------------------------------------------- one window leaves, one joins

  /** The tree without the window: the other half of its split takes the split's place, and every other divider stays. */
  predicate ClosesUp(tree: Node, later: Node, id: WindowId) {
    if !Has(tree, id) then later == tree
    else
      && tree.Split?
      && if tree.first == Leaf(id) then later == tree.second
         else if tree.second == Leaf(id) then later == tree.first
         else later.Split? && later.axis == tree.axis && later.ratio == tree.ratio
              && ClosesUp(tree.first, later.first, id) && ClosesUp(tree.second, later.second, id)
  }

  function Unless(focus: Option<WindowId>, id: WindowId): Option<WindowId> {
    if focus.Some? && focus.value == id then None else focus
  }

  /** A workspace once the window is no tile of it any more: nothing in it remembers the window, and all else stays. */
  predicate Parted(ws: Workspace, r: Workspace, id: WindowId, floats: bool) {
    && r == ws.(tree := r.tree, floating := if floats then ws.floating + {id} else ws.floating - {id}, parked := ws.parked - {id},
                lastFocused := Unless(ws.lastFocused, id), lastFocusedTiled := Unless(ws.lastFocusedTiled, id))
    && if ws.tree == Leaf(id) then r.tree == Leaf(EMPTY_LEAF) else ClosesUp(ws.tree, r.tree, id)
  }

  /** The tree with the window in it: as planned for the display the workspace belongs on, beside the last tiled one in
      focus, else the last one; where no plan is feasible, beside the first. */
  ghost predicate Joins(settings: Settings, w: World, ws: Workspace, id: WindowId, beside: Option<WindowId>, axis: Option<Axis>, tree: Node) {
    exists host: Option<Display> :: JoinsOn(settings, w, ws, host, id, beside, axis, tree)
  }

  ghost predicate JoinsOn(settings: Settings, w: World, ws: Workspace, host: Option<Display>, id: WindowId,
                          beside: Option<WindowId>, axis: Option<Axis>, tree: Node)
  {
    var display := if host.Some? then Some(host.value.id) else None;
    var plan := PlanInsertion(InsertionInput(if host.Some? then Some(settings.content(ws.name, host.value)) else None, ws.tree,
                                             if ws.lastFocusedTiled.Some? then ws.lastFocusedTiled else ws.lastFocused, id,
                                             settings.gap(ws.name, display), settings.resolve, beside, axis));
    && (host.Some? ==> host.value in w.displays) && (host.None? ==> w.displays == []) && BelongsOn(w, ws, display)
    && if plan.Some? then tree == plan.value.tree
       else if ws.tree == Leaf(EMPTY_LEAF) then tree == Leaf(id)
       else var first := Leaves(ws.tree)[0];
            InsertionLaws.JoinsAfter(Leaves(ws.tree), Leaves(tree), first, id)
            && InsertionLaws.SharesHalfAndHalf(tree, Vertical, first, id) && ClosesUp(tree, ws.tree, id)
  }

  lemma {:induction false} RemovalClosesUp(tree: Node, id: WindowId)
    requires Distinct(tree) && tree != Leaf(id)
    ensures RemoveLeaf(tree, id).Some? && ClosesUp(tree, RemoveLeaf(tree, id).value, id)
  {
    if tree.Split? {
      DistinctParts(tree);
      HasInParts(tree);
      assert Has(Leaf(id), id);
      if tree.first != Leaf(id) { RemovalClosesUp(tree.first, id); }
      if tree.second != Leaf(id) { RemovalClosesUp(tree.second, id); }
      ClosingStep(tree, id);
    }
  }

  lemma ClosingStep(tree: Node, id: WindowId)
    requires tree.Split? && Distinct(tree) && Distinct(tree.first) && Distinct(tree.second)
    requires forall x :: Has(tree, x) <==> Has(tree.first, x) || Has(tree.second, x)
    requires tree.first != Leaf(id) ==> RemoveLeaf(tree.first, id).Some? && ClosesUp(tree.first, RemoveLeaf(tree.first, id).value, id)
    requires tree.second != Leaf(id) ==> RemoveLeaf(tree.second, id).Some? && ClosesUp(tree.second, RemoveLeaf(tree.second, id).value, id)
    requires Has(Leaf(id), id)
    ensures RemoveLeaf(tree, id).Some? && ClosesUp(tree, RemoveLeaf(tree, id).value, id)
  {
    hide Has, Distinct;
  }

  lemma RemovalLeaves(ws: Workspace, id: WindowId)
    requires Sound(ws) && Holds(ws, id)
    ensures Parted(ws, RemoveFromMembership(id, ws), id, false)
  {
    hide Distinct, RemoveLeaf, ClosesUp;
    if Has(ws.tree, id) {
      if ws.tree != Leaf(id) {
        RemovalClosesUp(ws.tree, id);
        RemovedTree(ws.tree, id);
        var removed := RemoveLeaf(ws.tree, id).value;
        FirstLeafIsHeld(removed);
        assert Has(removed, FirstLeaf(removed));
        assert FirstLeaf(removed) in Others(TiledMembers(ws.tree), id);
      }
    } else {
      NothingToClose(ws.tree, id);
      if !IsEmptyTree(ws.tree) {
        FirstLeafIsHeld(ws.tree);
        assert FirstLeaf(ws.tree) in Others(TiledMembers(ws.tree), id);
      }
    }
  }

  lemma NothingToClose(tree: Node, id: WindowId)
    requires !Has(tree, id)
    ensures ClosesUp(tree, tree, id) && tree != Leaf(id)
  {
    assert Has(Leaf(id), id);
  }

  lemma InsertedTreeJoins(settings: Settings, w: World, ws: Workspace, id: WindowId, beside: Option<WindowId>, axis: Option<Axis>)
    requires Sound(ws) && id != EMPTY_LEAF && !Has(ws.tree, id)
    ensures Joins(settings, w, ws, id, beside, axis, InsertedTree(InsertionFor(settings, w, ws, id, beside, axis)))
  {
    hide PlanInsertion, BelongsOn, InsertLeaf, ClosesUp, Leaves, Distinct, InsertionDisplay, Has;
    DisplayBelongs(w, ws);
    var host := InsertionDisplay(w, ws);
    HostIsListed(w, ws);
    var input := InsertionFor(settings, w, ws, id, beside, axis);
    if PlanInsertion(input).None? && !IsEmptyTree(ws.tree) {
      FirstShares(ws.tree, id);
    }
    assert JoinsOn(settings, w, ws, host, id, beside, axis, InsertedTree(input));
  }

  lemma {:induction false} HostsAreListed(displays: seq<Display>, id: Option<DisplayId>)
    ensures Connected(displays, id).Some? ==> Connected(displays, id).value in displays
    ensures PrimaryDisplay(displays).Some? ==> PrimaryDisplay(displays).value in displays
  {
    if displays != [] {
      HostsAreListed(displays[1..], id);
    }
  }

  lemma HostIsListed(w: World, ws: Workspace)
    ensures var host := InsertionDisplay(w, ws);
            (host.Some? ==> host.value in w.displays) && (host.None? ==> w.displays == [])
  {
    hide Connected, PrimaryDisplay;
    HostsAreListed(w.displays, ws.visibleOn);
    HostsAreListed(w.displays, ws.pinned);
    HostsAreListed(w.displays, ws.preferred);
    DisplayBelongs(w, ws);
  }

  lemma FirstShares(tree: Node, id: WindowId)
    requires Distinct(tree) && !Has(tree, id)
    ensures var first, r := FirstLeaf(tree), InsertLeaf(tree, FirstLeaf(tree), id, None, None);
            && r.Some? && InsertionLaws.JoinsAfter(Leaves(tree), Leaves(r.value), first, id)
            && InsertionLaws.SharesHalfAndHalf(r.value, Vertical, first, id) && ClosesUp(r.value, tree, id)
  {
    hide ClosesUp, InsertLeaf;
    var first := FirstLeaf(tree);
    assert Has(tree, first) by { BagCountsLeaves(tree); }
    InsertionLaws.InsertedJoins(tree, first, id, None, Vertical);
    DefaultIsVertical(tree, first, id);
    RemoveUndoesInsert(tree, first, id, None, None);
    InsertKeepsDistinct(tree, first, id, None, None);
    var r := InsertLeaf(tree, first, id, None, None).value;
    assert r.Split?;
    RemovalClosesUp(r, id);
  }

  lemma {:induction false} DefaultIsVertical(tree: Node, target: WindowId, id: WindowId)
    ensures InsertLeaf(tree, target, id, None, None) == InsertLeaf(tree, target, id, None, Some(Vertical))
  {
    if tree.Split? {
      DefaultIsVertical(tree.first, target, id);
      DefaultIsVertical(tree.second, target, id);
    }
  }

  // ---------------------------------------------------------------- all workspaces at once

  ghost predicate IsNamed(w: World, name: string) { exists i :: 0 <= i < |w.workspaces| && w.workspaces[i].name == name }

  /** Workspace by workspace; nothing else of the world changes. */
  ghost predicate SameRest(w: World, v: World) { v == w.(workspaces := v.workspaces) && |v.workspaces| == |w.workspaces| }

  /** With the workspace in it: the world, or the world with that workspace behind the others, new and shown nowhere. */
  ghost predicate ProvidedHidden(w: World, name: string, with: World) {
    if IsNamed(w, name) then with == w
    else with == w.(workspaces := w.workspaces
                    + [Workspace(name, BspMode, Leaf(EMPTY_LEAF), {}, None, None, None, map[], None, None)])
  }

  lemma EnsureHiddenProvides(w: World, name: string)
    ensures ProvidedHidden(w, name, EnsureHidden(w, name))
  {
    if IsNamed(w, name) {
      assert Named(w.workspaces, name) < |w.workspaces|;
    } else {
      var k := Named(w.workspaces, name);
      assert k == |w.workspaces|;
    }
  }

  ghost predicate FloatedStep(w: World, v: World, id: WindowId) {
    SameRest(w, v) && forall j :: 0 <= j < |w.workspaces| ==>
      if Tiled(w.workspaces[j], id) then Parted(w.workspaces[j], v.workspaces[j], id, true) else v.workspaces[j] == w.workspaces[j]
  }

  lemma FloatingLaw(w: World, id: WindowId)
    requires WellFormed(w)
    ensures FloatedStep(w, Float(w, id), id)
  {
    hide WellFormed, Parted, RemoveFromMembership, Tiled;
    var i := TiledHome(w.workspaces, id);
    if i < |w.workspaces| {
      var ws := w.workspaces[i];
      TiledThere(w, i, id);
      RemovalLeaves(ws, id);
      LeftFloats(ws, RemoveFromMembership(id, ws), id);
    }
  }

  lemma TiledThere(w: World, i: nat, id: WindowId)
    requires WellFormed(w) && i < |w.workspaces| && Tiled(w.workspaces[i], id)
    ensures Sound(w.workspaces[i]) && Holds(w.workspaces[i], id)
    ensures forall j :: 0 <= j < |w.workspaces| && Tiled(w.workspaces[j], id) ==> j == i
  {
    hide Sound, Tiled;
    HeldOnce(w, i, id);
  }

  lemma HeldOnce(w: World, i: nat, id: WindowId)
    requires WellFormed(w) && i < |w.workspaces| && Holds(w.workspaces[i], id)
    ensures Sound(w.workspaces[i]) && Home(w.workspaces, id) == i
    ensures forall j :: 0 <= j < |w.workspaces| && Holds(w.workspaces[j], id) ==> j == i
  {
    hide Sound, Holds;
    HomeIsUnique(w, i, id);
    forall j | 0 <= j < |w.workspaces| && Holds(w.workspaces[j], id) ensures j == i {
      HomeIsUnique(w, j, id);
    }
  }

  lemma LeftFloats(ws: Workspace, r: Workspace, id: WindowId)
    requires Parted(ws, r, id, false)
    ensures Parted(ws, r.(floating := r.floating + {id}), id, true)
  {
    hide ClosesUp;
    assert ws.floating - {id} + {id} == ws.floating + {id};
  }

  ghost predicate TiledStep(settings: Settings, w: World, v: World, id: WindowId) {
    SameRest(w, v) && forall j :: 0 <= j < |w.workspaces| ==>
      if id in w.workspaces[j].floating then ComesDown(settings, w, w.workspaces[j], v.workspaces[j], id)
      else v.workspaces[j] == w.workspaces[j]
  }

  ghost predicate ComesDown(settings: Settings, w: World, ws: Workspace, r: Workspace, id: WindowId) {
    exists left :: Parted(ws, left, id, false) && Joins(settings, w, left, id, None, None, r.tree) && r == left.(tree := r.tree)
  }

  lemma TilingLaw(settings: Settings, w: World, id: WindowId)
    requires WellFormed(w)
    ensures TiledStep(settings, w, Tile(settings, w, id), id)
  {
    hide WellFormed, Sound, Parted, RemoveFromMembership, Joins, InsertedTree, InsertionFor;
    var i := FloatingHome(w.workspaces, id);
    if i < |w.workspaces| {
      var ws := w.workspaces[i];
      HeldOnce(w, i, id);
      RemovalLeaves(ws, id);
      var left := RemoveFromMembership(id, ws);
      RemovalSound(ws, id);
      FloatingIsReal(ws, id);
      InsertedTreeJoins(settings, Put(w, i, left), left, id, None, None);
      JoinsAnywhere(settings, Put(w, i, left), w, left, id, None, None, InsertedTree(InsertionFor(settings, Put(w, i, left), left, id, None, None)));
      LeftKeepsName(ws, left, id);
      NameIsUnique(w, i);
      PutKeepsName(w, i, left);
      assert ComesDown(settings, w, ws, Tile(settings, w, id).workspaces[i], id);
    }
  }

  lemma LeftKeepsName(ws: Workspace, r: Workspace, id: WindowId)
    requires Parted(ws, r, id, false)
    ensures r.name == ws.name && r.visibleOn == ws.visibleOn
  {
    hide ClosesUp;
  }

  lemma PutKeepsName(w: World, i: nat, ws: Workspace)
    requires i < |w.workspaces| && ws.name == w.workspaces[i].name && Named(w.workspaces, ws.name) == i
    ensures Named(Put(w, i, ws).workspaces, ws.name) == i && EnsureWorkspace(Put(w, i, ws), ws.name) == Put(w, i, ws)
  {
    assert Put(w, i, ws).workspaces[i].name == ws.name;
  }

  lemma FloatingIsReal(ws: Workspace, id: WindowId)
    requires Sound(ws) && id in ws.floating
    ensures id != EMPTY_LEAF && !Has(ws.tree, id)
    ensures Holds(ws, id)
  {
  }

  /** Where it joins depends on the displays alone. */
  lemma JoinsAnywhere(settings: Settings, w: World, v: World, ws: Workspace, id: WindowId, beside: Option<WindowId>,
                      axis: Option<Axis>, tree: Node)
    requires Joins(settings, w, ws, id, beside, axis, tree) && v.displays == w.displays
    ensures Joins(settings, v, ws, id, beside, axis, tree)
  {
    hide ClosesUp, PlanInsertion;
    var host :| JoinsOn(settings, w, ws, host, id, beside, axis, tree);
    assert JoinsOn(settings, v, ws, host, id, beside, axis, tree);
  }

  // ---------------------------------------------------------------- to another workspace

  ghost predicate FloatsSomewhere(w: World, id: WindowId) { exists i :: 0 <= i < |w.workspaces| && id in w.workspaces[i].floating }

  ghost predicate HeldIn(w: World, id: WindowId, name: string) {
    exists i :: 0 <= i < |w.workspaces| && w.workspaces[i].name == name && Holds(w.workspaces[i], id)
  }

  /** In its new workspace as it was in the old: floating, or as a tile. */
  ghost predicate Arrives(settings: Settings, w: World, ws: Workspace, r: Workspace, id: WindowId, floats: bool) {
    if floats then r == ws.(floating := ws.floating + {id})
    else Joins(settings, w, ws, id, None, None, r.tree) && r == ws.(tree := r.tree)
  }

  ghost predicate MovedBetweenStep(settings: Settings, w: World, v: World, id: WindowId, name: string) {
    if HeldIn(w, id, name) then v == w
    else exists with :: ProvidedHidden(w, name, with) && SameRest(with, v) && MovedAcross(settings, with, v, id, name)
  }

  ghost predicate MovedAcross(settings: Settings, w: World, v: World, id: WindowId, name: string)
    requires SameRest(w, v)
  {
    forall j :: 0 <= j < |w.workspaces| ==>
      var ws, r := w.workspaces[j], v.workspaces[j];
      if Holds(ws, id) then Parted(ws, r, id, false)
      else if ws.name == name then Arrives(settings, w, ws, r, id, FloatsSomewhere(w, id))
      else r == ws
  }

  lemma MovingLaw(settings: Settings, w: World, id: WindowId, name: string)
    requires WellFormed(w) && id != EMPTY_LEAF
    ensures MovedBetweenStep(settings, w, MoveBetween(settings, w, id, name), id, name)
  {
    hide WellFormed, Sound, Parted, RemoveFromMembership, Joins, InsertTiledInto, Holds, EnsureHidden, ProvidedHidden;
    var i := Home(w.workspaces, id);
    if i < |w.workspaces| {
      HeldOnce(w, i, id);
      if w.workspaces[i].name == name {
        assert HeldIn(w, id, name);
      } else {
        NotHeldThere(w, i, id, name);
        FloatsAtHome(w, i, id);
        LeavingArrives(settings, w, i, id, name);
      }
    } else {
      assert !HeldIn(w, id, name);
      NobodyFloats(w, id);
      HomelessIffNoHome(w, id);
      Arriving(settings, w, id, name, false);
      var with := EnsureHidden(w, name);
      EnsureHiddenProvides(w, name);
      EnsureKeeps(w, name);
      StillNobody(w, name, id);
      assert MovedAcross(settings, with, MoveBetween(settings, w, id, name), id, name);
    }
  }

  lemma NotHeldThere(w: World, i: nat, id: WindowId, name: string)
    requires WellFormed(w) && i < |w.workspaces| && Holds(w.workspaces[i], id) && w.workspaces[i].name != name
    ensures !HeldIn(w, id, name)
  {
    hide WellFormed, Holds;
    HeldOnce(w, i, id);
  }

  lemma FloatsAtHome(w: World, i: nat, id: WindowId)
    requires WellFormed(w) && i < |w.workspaces| && Holds(w.workspaces[i], id)
    ensures FloatsSomewhere(w, id) <==> id in w.workspaces[i].floating
  {
    hide WellFormed;
    HeldOnce(w, i, id);
  }

  lemma NobodyFloats(w: World, id: WindowId)
    requires Home(w.workspaces, id) == |w.workspaces|
    ensures !FloatsSomewhere(w, id)
  {
  }

  lemma StillNobody(w: World, name: string, id: WindowId)
    requires Homeless(w, id) && id != EMPTY_LEAF
    ensures var with := EnsureHidden(w, name);
            && !FloatsSomewhere(with, id) && forall j :: 0 <= j < |with.workspaces| ==> !Holds(with.workspaces[j], id)
  {
    EmptyHoldsNothing();
    var with := EnsureHidden(w, name);
    forall j | 0 <= j < |with.workspaces| ensures !Holds(with.workspaces[j], id) {
    }
  }

  /** Into the workspace, provided it is not there yet. */
  ghost predicate ArrivedOnly(settings: Settings, with: World, v: World, id: WindowId, name: string, floats: bool) {
    SameRest(with, v) && forall j :: 0 <= j < |with.workspaces| ==>
      if with.workspaces[j].name == name then Arrives(settings, with, with.workspaces[j], v.workspaces[j], id, floats)
      else v.workspaces[j] == with.workspaces[j]
  }

  function ArrivalOf(settings: Settings, w: World, id: WindowId, name: string, floats: bool): World {
    var arrived := EnsureHidden(w, name);
    var k := Named(arrived.workspaces, name);
    if floats then Put(arrived, k, arrived.workspaces[k].(floating := arrived.workspaces[k].floating + {id}))
    else InsertTiledInto(settings, arrived, name, id, None, None)
  }

  lemma Arriving(settings: Settings, w: World, id: WindowId, name: string, floats: bool)
    requires WellFormed(w) && Homeless(w, id) && id != EMPTY_LEAF
    ensures ArrivedOnly(settings, EnsureHidden(w, name), ArrivalOf(settings, w, id, name, floats), id, name, floats)
  {
    hide WellFormed, Sound, Joins, InsertedTree, InsertionFor, Holds, EnsureHidden, Homeless;
    EnsureKeeps(w, name);
    var with := EnsureHidden(w, name);
    var k := Named(with.workspaces, name);
    NameOnce(with, k);
    EnsureKnown(with, name);
    HomelessHere(with, k, id);
    InsertedTreeJoins(settings, with, with.workspaces[k], id, None, None);
  }

  lemma NameOnce(w: World, k: nat)
    requires WellFormed(w) && k < |w.workspaces|
    ensures forall j :: 0 <= j < |w.workspaces| && w.workspaces[j].name == w.workspaces[k].name ==> j == k
    ensures Sound(w.workspaces[k])
  {
    hide Sound;
    NameIsUnique(w, k);
    forall j | 0 <= j < |w.workspaces| && w.workspaces[j].name == w.workspaces[k].name ensures j == k {
      NameIsUnique(w, j);
    }
  }

  lemma HomelessHere(w: World, k: nat, id: WindowId)
    requires Homeless(w, id) && k < |w.workspaces| && id != EMPTY_LEAF
    ensures !Has(w.workspaces[k].tree, id) && !Holds(w.workspaces[k], id)
  {
    assert !Holds(w.workspaces[k], id);
  }

  lemma LeavingArrives(settings: Settings, w: World, i: nat, id: WindowId, name: string)
    requires WellFormed(w) && i < |w.workspaces| && Holds(w.workspaces[i], id) && Home(w.workspaces, id) == i
    requires w.workspaces[i].name != name && id != EMPTY_LEAF
    requires FloatsSomewhere(w, id) <==> id in w.workspaces[i].floating
    ensures var with := EnsureHidden(w, name);
            && ProvidedHidden(w, name, with) && SameRest(with, MoveBetween(settings, w, id, name))
            && MovedAcross(settings, with, MoveBetween(settings, w, id, name), id, name)
  {
    hide WellFormed, Sound, Parted, RemoveFromMembership, Joins, InsertTiledInto, Holds, EnsureHidden, ProvidedHidden, Homeless;
    var ws := w.workspaces[i];
    HeldOnce(w, i, id);
    RemovalLeaves(ws, id);
    RemovalKeeps(w, i, id);
    var gone := RemoveFromMembership(id, ws);
    LeftKeepsName(ws, gone, id);
    var left := Put(w, i, gone);
    Arriving(settings, left, id, name, id in ws.floating);
    EnsureHiddenProvides(w, name);
    ProvidedAlike(w, i, gone, name);
    EnsureKeeps(w, name);
    var with := EnsureHidden(w, name);
    HomeStays(w, i, id, name);
    HeldOnce(with, i, id);
    FloatsAtHome(with, i, id);
    assert MoveBetween(settings, w, id, name) == ArrivalOf(settings, left, id, name, id in ws.floating);
    forall j | 0 <= j < |with.workspaces|
      ensures var r := MoveBetween(settings, w, id, name).workspaces[j];
              if Holds(with.workspaces[j], id) then Parted(with.workspaces[j], r, id, false)
              else if with.workspaces[j].name == name then Arrives(settings, with, with.workspaces[j], r, id, FloatsSomewhere(with, id))
              else r == with.workspaces[j]
    {
      if j != i && with.workspaces[j].name == name && id !in ws.floating {
        JoinsAnywhere(settings, EnsureHidden(left, name), with, with.workspaces[j], id, None, None,
                      MoveBetween(settings, w, id, name).workspaces[j].tree);
      }
    }
  }

  lemma HomeStays(w: World, i: nat, id: WindowId, name: string)
    requires i < |w.workspaces|
    ensures var with := EnsureHidden(w, name); i < |with.workspaces| && with.workspaces[i] == w.workspaces[i]
  {
  }

  /** Providing a workspace and editing another one do not get in each other's way. */
  lemma ProvidedAlike(w: World, i: nat, gone: Workspace, name: string)
    requires i < |w.workspaces| && gone.name == w.workspaces[i].name && gone.name != name
    ensures var with, later := EnsureHidden(w, name), EnsureHidden(Put(w, i, gone), name);
            i < |with.workspaces| && later == Put(with, i, gone)
  {
    SameNamesSameSearch(w.workspaces, w.workspaces[i := gone], name);
    if Named(w.workspaces, name) == |w.workspaces| {
      var added := NewWorkspace(name, None);
      assert (w.workspaces + [added])[i := gone] == w.workspaces[i := gone] + [added];
    }
  }

  lemma SameNamesSameSearch(a: seq<Workspace>, b: seq<Workspace>, name: string)
    requires |a| == |b| && forall j :: 0 <= j < |a| ==> a[j].name == b[j].name
    ensures Named(a, name) == Named(b, name)
  {
    var i, k := Named(a, name), Named(b, name);
  }
}
