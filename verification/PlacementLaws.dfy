/** Where the rules place new windows and bring lost ones back, said of the world alone. */
module PlacementLaws {
  import opened Geometry
  import opened BspTree
  import opened Planner
  import opened Insertion
  import opened Membership
  import opened MembershipInvariant
  import opened FocusLaws
  import opened StepLaws
  import opened EveryStepLaws
  import A = AssignRule
  import C = RestoreCycle

  /** Not for the placing rule: kept out of management, in a workspace already, or to be brought back by the other rule. */
  ghost predicate LeftAlone(w: World, ctx: A.Context, id: WindowId) {
    || id in ctx.quarantined || id in ctx.ignored || id in ctx.transient
    || (exists i :: 0 <= i < |w.workspaces| && Holds(w.workspaces[i], id))
    || (id in ctx.tombstones && ctx.now - ctx.tombstones[id].at <= 5 * 60 * 1000 && IsNamed(w, ctx.tombstones[id].workspace))
  }

  /** A matching rule decides; else the focused workspace, if there is one; else "1", if there is one and nothing is shown. */
  ghost predicate IsFor(w: World, ctx: A.Context, id: WindowId, name: string) {
    if id in ctx.affinity then name == ctx.affinity[id]
    else if w.focusedWorkspace.Some? && IsNamed(w, w.focusedWorkspace.value) then name == w.focusedWorkspace.value
    else name == "1" && IsNamed(w, "1") && forall i :: 0 <= i < |w.workspaces| ==> w.workspaces[i].visibleOn.None?
  }

  /** Nothing is asked for, and nothing expected to change. */
  ghost predicate Unplaced(w: World, ctx: A.Context, p: World, id: WindowId) {
    LeftAlone(w, ctx, id) || forall name :: IsFor(w, ctx, id, name) ==> !IsNamed(p, name)
  }

  /** Placed on the display the workspace belongs on: what is planned there is asked for, frame first, and expected. */
  ghost predicate PlacedOn(settings: Settings, p: World, j: nat, host: Option<Display>, id: WindowId, actions: seq<A.Action>, v: World)
    requires j < |p.workspaces|
  {
    var ws := p.workspaces[j];
    var display := if host.Some? then Some(host.value.id) else None;
    && (host.Some? ==> host.value in p.displays) && (host.None? ==> p.displays == []) && BelongsOn(p, ws, display)
    && if host.None? then actions == [A.NoDisplay(id)] && v == p
       else
         var plan := PlanInsertion(InsertionInput(Some(settings.content(ws.name, host.value)), ws.tree,
                                                  if ws.lastFocusedTiled.Some? then ws.lastFocusedTiled else ws.lastFocused, id,
                                                  settings.gap(ws.name, display), settings.resolve, None, None));
         if plan.None? then actions == [A.NoFeasibleFrame(id, ws.name)] && v == p
         else actions == [A.SetFrame(id, plan.value.frame), A.InsertWindow(id, ws.name, plan.value.beside, plan.value.axis)]
              && Recorded(p.(workspaces := p.workspaces[j := ws.(tree := plan.value.tree)]), v, p.focusIntent)
  }

  ghost predicate PlacedAs(settings: Settings, w: World, ctx: A.Context, p: World, id: WindowId, actions: seq<A.Action>, v: World) {
    if Unplaced(w, ctx, p, id) then actions == [] && v == p
    else exists j, host :: 0 <= j < |p.workspaces| && IsFor(w, ctx, id, p.workspaces[j].name)
                           && PlacedOn(settings, p, j, host, id, actions, v)
  }

  lemma NamedIffExists(w: World, name: string)
    ensures IsNamed(w, name) <==> A.Exists(w, name)
  {
  }

  lemma EligibleIff(w: World, ctx: A.Context, id: WindowId)
    ensures A.Eligible(w, ctx, id) <==> !LeftAlone(w, ctx, id)
  {
    hide Holds;
    if id in ctx.tombstones {
      NamedIffExists(w, ctx.tombstones[id].workspace);
    }
  }

  lemma PickedIsFor(w: World, ctx: A.Context, id: WindowId, name: string)
    ensures A.PickWorkspace(w, ctx, id) == Some(name) <==> IsFor(w, ctx, id, name)
  {
    hide IsNamed, A.Exists;
    NamedIffExists(w, "1");
    if w.focusedWorkspace.Some? {
      NamedIffExists(w, w.focusedWorkspace.value);
    }
  }

  lemma PlacedThere(settings: Settings, p: World, j: nat, id: WindowId)
    requires WellFormed(p) && Homeless(p, id) && id != EMPTY_LEAF && j < |p.workspaces|
    ensures var ws := p.workspaces[j];
            var plan := PlanInsertion(InsertionFor(settings, p, ws, id, None, None));
            var v := if plan.Some? then RecordFocused(A.WithTree(p, j, plan.value.tree), p.focusIntent) else p;
            && WellFormed(v)
            && PlacedOn(settings, p, j, InsertionDisplay(p, ws), id,
                        if InsertionDisplay(p, ws).None? then [A.NoDisplay(id)]
                        else if plan.None? then [A.NoFeasibleFrame(id, ws.name)]
                        else [A.SetFrame(id, plan.value.frame), A.InsertWindow(id, ws.name, plan.value.beside, plan.value.axis)],
                        if InsertionDisplay(p, ws).None? then p else v)
  {
    hide WellFormed, PlanInsertion, BelongsOn, Homeless, Recorded, RecordFocused, InsertionDisplay, Has;
    var ws := p.workspaces[j];
    DisplayBelongs(p, ws);
    HostIsListed(p, ws);
    var input := InsertionFor(settings, p, ws, id, None, None);
    if PlanInsertion(input).Some? {
      PlannedKeeps(p, j, id, input);
      var later := A.WithTree(p, j, PlanInsertion(input).value.tree);
      RecordingLaw(later, p.focusIntent);
      RecordFocusedKeeps(later, p.focusIntent);
    }
  }

  lemma PlannedKeeps(p: World, j: nat, id: WindowId, input: InsertionInput)
    requires WellFormed(p) && Homeless(p, id) && id != EMPTY_LEAF && j < |p.workspaces|
    requires input.tree == p.workspaces[j].tree && input.newId == id && PlanInsertion(input).Some?
    ensures WellFormed(A.WithTree(p, j, PlanInsertion(input).value.tree))
  {
    hide Sound, Holds, Apart, PlanInsertion;
    InsertionSound(p.workspaces[j], input);
    PutOneMore(p, j, p.workspaces[j].(tree := InsertedTree(input)), id);
  }

  lemma PlacingOneLaw(settings: Settings, w: World, ctx: A.Context, p: World, id: WindowId)
    requires WellFormed(p) && id != EMPTY_LEAF && (A.Eligible(w, ctx, id) ==> Homeless(p, id))
    ensures var (actions, v) := A.PlaceOne(settings, w, ctx, p, id); PlacedAs(settings, w, ctx, p, id, actions, v) && WellFormed(v)
  {
    hide WellFormed, A.Eligible, LeftAlone, A.PickWorkspace, IsFor, IsNamed, A.Exists, InsertionDisplay, PlanInsertion, Homeless,
         RecordFocused, PlacedOn;
    EligibleIff(w, ctx, id);
    var picked := A.PickWorkspace(w, ctx, id);
    forall name ensures picked == Some(name) <==> IsFor(w, ctx, id, name) {
      PickedIsFor(w, ctx, id, name);
    }
    if picked.Some? {
      NamedIffExists(p, picked.value);
      if A.Exists(p, picked.value) && !LeftAlone(w, ctx, id) {
        ExistsThere(p, picked.value);
        PlacedThere(settings, p, Named(p.workspaces, picked.value), id);
      }
    }
  }

  lemma ExistsThere(p: World, name: string)
    requires A.Exists(p, name)
    ensures Named(p.workspaces, name) < |p.workspaces|
  {
  }

  /** One window after another, each over the world expected after those before it. */
  ghost predicate PlacedInTurn(settings: Settings, w: World, ctx: A.Context, p: World, order: seq<WindowId>, actions: seq<A.Action>, v: World)
    decreases |order|
  {
    if order == [] then actions == [] && v == p
    else exists n: nat, mid :: n <= |actions| && PlacedAs(settings, w, ctx, p, order[0], actions[..n], mid)
                               && PlacedInTurn(settings, w, ctx, mid, order[1..], actions[n..], v)
  }

  /** Each window the rule is for goes to its workspace, on the display that belongs on, beside its focused tile, at the frame
      asked for first; all others are left alone. */
  lemma {:induction false} WindowsArePlacedWhereTheyBelong(settings: Settings, w: World, ctx: A.Context, p: World, order: seq<WindowId>)
    requires WellFormed(p) && NoDuplicates(order) && A.Unplaced(w, ctx, p, order) && EMPTY_LEAF !in order
    ensures var (actions, v) := A.Place(settings, w, ctx, p, order); PlacedInTurn(settings, w, ctx, p, order, actions, v)
    decreases |order|
  {
    hide WellFormed, A.PlaceOne, PlacedAs, Homeless;
    if order != [] {
      var (first, mid) := A.PlaceOne(settings, w, ctx, p, order[0]);
      A.FirstIsUnplaced(w, ctx, p, order);
      PlacingOneLaw(settings, w, ctx, p, order[0]);
      A.UnplacedAfter(settings, w, ctx, p, order);
      WindowsArePlacedWhereTheyBelong(settings, w, ctx, mid, order[1..]);
      var (rest, v) := A.Place(settings, w, ctx, mid, order[1..]);
      assert (first + rest)[..|first|] == first && (first + rest)[|first|..] == rest;
    }
  }

  /** At the start of a pass nothing is placed yet. */
  lemma RunPlacesWhereTheyBelong(settings: Settings, w: World, ctx: A.Context, order: seq<WindowId>)
    requires WellFormed(w) && NoDuplicates(order) && EMPTY_LEAF !in order
    ensures var (actions, v) := A.Place(settings, w, ctx, w, order); PlacedInTurn(settings, w, ctx, w, order, actions, v)
  {
    hide WellFormed, Holds;
    forall k | 0 <= k < |order| && A.Eligible(w, ctx, order[k]) ensures Homeless(w, order[k]) {
      HomelessIffNoHome(w, order[k]);
    }
    WindowsArePlacedWhereTheyBelong(settings, w, ctx, w, order);
  }

  // ---------------------------------------------------------------- the restoring rule

  /** Remembered, seen again and in no workspace, while the one it left still exists. */
  ghost predicate ComesHome(w: World, ctx: A.Context, id: WindowId) {
    && id in ctx.tombstones && id in w.windows && IsNamed(w, ctx.tombstones[id].workspace)
    && forall i :: 0 <= i < |w.workspaces| ==> !Holds(w.workspaces[i], id)
  }

  /** Asked for in the order they are listed, the way they left: floating or not, beside the anchor there was. */
  ghost predicate AskedFor(w: World, ctx: A.Context, anchors: map<WindowId, WindowId>, listed: seq<WindowId>, actions: seq<C.Restoration>)
    decreases |listed|
  {
    if listed == [] then actions == []
    else if ComesHome(w, ctx, listed[0]) then
      && actions != []
      && actions[0] == C.Restoration(listed[0], ctx.tombstones[listed[0]].workspace, ctx.tombstones[listed[0]].floating,
                                     if listed[0] in anchors then Some(anchors[listed[0]]) else None)
      && AskedFor(w, ctx, anchors, listed[1..], actions[1..])
    else AskedFor(w, ctx, anchors, listed[1..], actions)
  }

  lemma {:induction false} LostWindowsAreAskedFor(w: World, ctx: A.Context, anchors: map<WindowId, WindowId>, listed: seq<WindowId>)
    ensures AskedFor(w, ctx, anchors, listed, C.Restorations(w, ctx, anchors, listed))
    decreases |listed|
  {
    hide Holds, IsNamed, A.Exists;
    if listed != [] {
      LostWindowsAreAskedFor(w, ctx, anchors, listed[1..]);
      if listed[0] in ctx.tombstones {
        NamedIffExists(w, ctx.tombstones[listed[0]].workspace);
      }
      var rest := C.Restorations(w, ctx, anchors, listed[1..]);
      assert C.ComesBack(w, ctx, listed[0]) <==> ComesHome(w, ctx, listed[0]);
      if C.ComesBack(w, ctx, listed[0]) {
        assert ([C.RestorationOf(ctx, anchors, listed[0])] + rest)[1..] == rest;
      } else {
        assert [] + rest == rest;
      }
    }
  }
}
