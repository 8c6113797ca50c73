/** One cycle in which lost windows come back and new ones are placed. Both rules plan over the same world, and what
    comes back is put in first: where that upsets the placement rule's plan, exactly. */
module RestoreCycle {
  import opened Geometry
  import opened BspTree
  import opened Planner
  import opened Insertion
  import opened Membership
  import opened MembershipInvariant
  import opened TombstoneReturns
  import opened MembershipMoves
  import opened AssignRule

  /** What the restoring rule asks for: a window back in its workspace, tiled beside an anchor or floating. */
  datatype Restoration = Restoration(id: WindowId, name: string, floating: bool, beside: Option<WindowId>)

  predicate ComesBack(w: World, ctx: Context, id: WindowId) {
    && id in ctx.tombstones && id in w.windows
    && Home(w.workspaces, id) == |w.workspaces| && Exists(w, ctx.tombstones[id].workspace)
  }

  function RestorationOf(ctx: Context, anchors: map<WindowId, WindowId>, id: WindowId): Restoration
    requires id in ctx.tombstones
  {
    Restoration(id, ctx.tombstones[id].workspace, ctx.tombstones[id].floating, if id in anchors then Some(anchors[id]) else None)
  }

  /** For the remembered windows in the order they are listed. */
  function Restorations(w: World, ctx: Context, anchors: map<WindowId, WindowId>, listed: seq<WindowId>): seq<Restoration> {
    if listed == [] then []
    else (if ComesBack(w, ctx, listed[0]) then [RestorationOf(ctx, anchors, listed[0])] else [])
         + Restorations(w, ctx, anchors, listed[1..])
  }

  /** The restoring rule's loop. */
  method RunRestore(w: World, ctx: Context, anchors: map<WindowId, WindowId>, listed: seq<WindowId>)
    returns (actions: seq<Restoration>)
    ensures actions == Restorations(w, ctx, anchors, listed)
  {
    hide ComesBack;
    actions := [];
    var i := 0;
    assert listed[0..] == listed;
    while i < |listed|
      invariant 0 <= i <= |listed|
      invariant actions + Restorations(w, ctx, anchors, listed[i..]) == Restorations(w, ctx, anchors, listed)
    {
      assert listed[i..][1..] == listed[i + 1..];
      if ComesBack(w, ctx, listed[i]) {
        ghost var rest := Restorations(w, ctx, anchors, listed[i + 1..]);
        assert listed[i] in ctx.tombstones by { BackIsRemembered(w, ctx, listed[i]); }
        assert actions + ([RestorationOf(ctx, anchors, listed[i])] + rest)
            == (actions + [RestorationOf(ctx, anchors, listed[i])]) + rest;
        actions := actions + [RestorationOf(ctx, anchors, listed[i])];
      }
      i := i + 1;
    }
  }

  lemma BackIsRemembered(w: World, ctx: Context, id: WindowId)
    requires ComesBack(w, ctx, id)
    ensures id in ctx.tombstones
  {
  }

  function Restore(settings: Settings, e: Engine, actions: seq<Restoration>): Engine
    decreases |actions|
  {
    if actions == [] then e
    else
      var a := actions[0];
      Restore(settings, Insert(settings, e, a.id, a.name, a.floating, a.beside, None), actions[1..])
  }

  // ---------------------------------------------------------------- one insertion, workspace by workspace

  /** A workspace once managed focus is recorded. */
  function Touched(w: World, ws: Workspace): Workspace {
    if w.focusIntent.Some? && w.focusIntent.value in w.windows && w.windows[w.focusIntent.value] && Holds(ws, w.focusIntent.value)
    then Remembering(ws, w.focusIntent.value) else ws
  }

  /** Focus has been recorded, as every observation leaves it. */
  ghost predicate Recorded(w: World) {
    forall j :: 0 <= j < |w.workspaces| ==> Touched(w, w.workspaces[j]) == w.workspaces[j]
  }

  lemma RecordTouches(w: World)
    requires WellFormed(w)
    ensures var r := RecordFocused(w, w.focusIntent);
            && |r.workspaces| == |w.workspaces|
            && r == w.(workspaces := r.workspaces)
            && forall j :: 0 <= j < |w.workspaces| ==> r.workspaces[j] == Touched(w, w.workspaces[j])
  {
    hide WellFormed, Holds, Remembering, Home;
    if w.focusIntent.Some? {
      var f := w.focusIntent.value;
      forall j | 0 <= j < |w.workspaces| && Holds(w.workspaces[j], f) ensures Home(w.workspaces, f) == j {
        HomeIsUnique(w, j, f);
      }
    }
  }

  lemma TouchedTwice(w: World, ws: Workspace)
    ensures Touched(w, Touched(w, ws)) == Touched(w, ws)
    ensures Touched(w, ws).name == ws.name
  {
  }

  /** The workspace a window joins, before focus is recorded. */
  function Joined(settings: Settings, e: Engine, id: WindowId, name: string, floating: bool, beside: Option<WindowId>,
                  axis: Option<Axis>): World
  {
    if Restores(e, id, name) then InsertRestored(e, id, name)
    else if floating then InsertFloating(e, id, name)
    else InsertTiledInto(settings, e.world, name, id, beside, axis)
  }

  lemma JoinedIsEdit(settings: Settings, e: Engine, id: WindowId, name: string, floating: bool, beside: Option<WindowId>,
                     axis: Option<Axis>)
    requires Exists(e.world, name)
    ensures var i, v := Named(e.world.workspaces, name), Joined(settings, e, id, name, floating, beside, axis);
            |v.workspaces| == |e.world.workspaces| && v == Put(e.world, i, v.workspaces[i]) && v.workspaces[i].name == name
  {
    hide Survives, InsertedTree, ParkedAgain;
  }

  lemma JoinedKeeps(settings: Settings, e: Engine, id: WindowId, name: string, floating: bool, beside: Option<WindowId>,
                    axis: Option<Axis>)
    requires Valid(e) && id != EMPTY_LEAF && Homeless(e.world, id)
    ensures WellFormed(Joined(settings, e, id, name, floating, beside, axis))
  {
    hide WellFormed, Restores, InsertRestored, InsertFloating, InsertTiledInto, TombstoneSound, Homeless;
    if Restores(e, id, name) {
      InsertRestoredKeeps(e, id, name);
    } else if floating {
      InsertFloatingKeeps(e, id, name);
    } else {
      InsertTiledKeeps(settings, e.world, name, id, beside, axis);
    }
  }

  /** An insertion, workspace by workspace: the joined one as it became, every other one as it was, and where managed
      focus is, remembered. */
  lemma InsertAt(settings: Settings, e: Engine, id: WindowId, name: string, floating: bool, beside: Option<WindowId>,
                 axis: Option<Axis>)
    requires Valid(e) && id != EMPTY_LEAF && Homeless(e.world, id) && Exists(e.world, name)
    ensures var i, v := Named(e.world.workspaces, name), Joined(settings, e, id, name, floating, beside, axis);
            var r := Insert(settings, e, id, name, floating, beside, axis);
            && |r.world.workspaces| == |v.workspaces| == |e.world.workspaces|
            && r.world == e.world.(workspaces := r.world.workspaces) && r.tombstones == e.tombstones - {id}
            && forall j :: 0 <= j < |v.workspaces| ==>
                 r.world.workspaces[j] == Touched(e.world, if j == i then v.workspaces[i] else e.world.workspaces[j])
  {
    hide WellFormed, Restores, InsertRestored, InsertFloating, InsertTiledInto, TombstoneSound, Homeless, RecordFocused, Touched;
    HomelessIffNoHome(e.world, id);
    JoinedIsEdit(settings, e, id, name, floating, beside, axis);
    JoinedKeeps(settings, e, id, name, floating, beside, axis);
    var v := Joined(settings, e, id, name, floating, beside, axis);
    RecordTouches(v);
    SameFocusTouches(v, e.world);
  }

  lemma SameFocusTouches(v: World, w: World)
    requires v.focusIntent == w.focusIntent && v.windows == w.windows
    ensures forall ws :: Touched(v, ws) == Touched(w, ws)
  {
  }

  lemma InsertKeepsRecorded(settings: Settings, e: Engine, id: WindowId, name: string, floating: bool, beside: Option<WindowId>,
                            axis: Option<Axis>)
    requires Valid(e) && id != EMPTY_LEAF && Homeless(e.world, id) && Exists(e.world, name)
    ensures Recorded(Insert(settings, e, id, name, floating, beside, axis).world)
  {
    hide WellFormed, Homeless, Insert, Joined, Touched, TombstoneSound;
    InsertAt(settings, e, id, name, floating, beside, axis);
    var i, v := Named(e.world.workspaces, name), Joined(settings, e, id, name, floating, beside, axis);
    var r := Insert(settings, e, id, name, floating, beside, axis).world;
    SameFocusTouches(r, e.world);
    forall j | 0 <= j < |r.workspaces| ensures Touched(r, r.workspaces[j]) == r.workspaces[j] {
      TouchedTwice(e.world, if j == i then v.workspaces[i] else e.world.workspaces[j]);
    }
  }

  // ---------------------------------------------------------------- two worlds apart in some workspaces only

  /** The same world, but for workspaces of these names. */
  ghost predicate AlikeBut(w: World, v: World, names: set<string>) {
    && |w.workspaces| == |v.workspaces| && v == w.(workspaces := v.workspaces)
    && forall j :: 0 <= j < |w.workspaces| ==>
         w.workspaces[j].name == v.workspaces[j].name && (w.workspaces[j].name !in names ==> w.workspaces[j] == v.workspaces[j])
  }

  lemma AlikeNames(w: World, v: World, names: set<string>, name: string)
    requires AlikeBut(w, v, names)
    ensures Named(w.workspaces, name) == Named(v.workspaces, name)
  {
    var a, b := Named(w.workspaces, name), Named(v.workspaces, name);
    if a < |w.workspaces| {
      assert v.workspaces[a].name == name;
    }
    if b < |v.workspaces| {
      assert w.workspaces[b].name == name;
    }
  }

  lemma AlikeChain(a: World, b: World, c: World, names: set<string>, more: set<string>)
    requires AlikeBut(a, b, names) && AlikeBut(b, c, more) && names <= more
    ensures AlikeBut(a, c, more)
  {
  }

  /** An insertion leaves a recorded world alike but for the joined workspace. */
  lemma InsertIsLocal(settings: Settings, e: Engine, id: WindowId, name: string, floating: bool, beside: Option<WindowId>,
                      axis: Option<Axis>)
    requires Valid(e) && id != EMPTY_LEAF && Homeless(e.world, id) && Exists(e.world, name) && Recorded(e.world)
    ensures AlikeBut(e.world, Insert(settings, e, id, name, floating, beside, axis).world, {name})
  {
    hide WellFormed, Homeless, Insert, Joined, Touched, TombstoneSound;
    InsertAt(settings, e, id, name, floating, beside, axis);
    JoinedIsEdit(settings, e, id, name, floating, beside, axis);
    var i, v := Named(e.world.workspaces, name), Joined(settings, e, id, name, floating, beside, axis);
    var r := Insert(settings, e, id, name, floating, beside, axis).world;
    forall j | 0 <= j < |r.workspaces|
      ensures e.world.workspaces[j].name == r.workspaces[j].name
      ensures e.world.workspaces[j].name != name ==> e.world.workspaces[j] == r.workspaces[j]
    {
      TouchedTwice(e.world, if j == i then v.workspaces[i] else e.world.workspaces[j]);
    }
  }

  /** Tiling one window into two worlds that are alike where it goes. */
  lemma TiledAlike(settings: Settings, q: Engine, r: Engine, names: set<string>, id: WindowId, name: string,
                   beside: Option<WindowId>, axis: Option<Axis>)
    requires AlikeBut(q.world, r.world, names) && Exists(q.world, name)
    requires !Restores(q, id, name) && !Restores(r, id, name)
    ensures var i := Named(q.world.workspaces, name);
            && |Joined(settings, q, id, name, false, beside, axis).workspaces| == |q.world.workspaces|
            && |Joined(settings, r, id, name, false, beside, axis).workspaces| == |q.world.workspaces|
            && (name !in names ==> Joined(settings, q, id, name, false, beside, axis).workspaces[i]
                                   == Joined(settings, r, id, name, false, beside, axis).workspaces[i])
  {
    hide Restores, InsertedTree;
    AlikeNames(q.world, r.world, names, name);
  }

  lemma InsertedAlike(settings: Settings, q: Engine, r: Engine, names: set<string>, id: WindowId, name: string,
                      beside: Option<WindowId>, axis: Option<Axis>)
    requires Valid(q) && Valid(r) && Recorded(q.world) && Recorded(r.world) && id != EMPTY_LEAF
    requires AlikeBut(q.world, r.world, names) && Exists(q.world, name) && Exists(r.world, name)
    requires Homeless(q.world, id) && Homeless(r.world, id) && !Restores(q, id, name) && !Restores(r, id, name)
    ensures AlikeBut(Insert(settings, q, id, name, false, beside, axis).world,
                     Insert(settings, r, id, name, false, beside, axis).world, names)
  {
    hide WellFormed, Homeless, Insert, Joined, Touched, TombstoneSound, Restores;
    InsertAt(settings, q, id, name, false, beside, axis);
    InsertAt(settings, r, id, name, false, beside, axis);
    InsertIsLocal(settings, q, id, name, false, beside, axis);
    InsertIsLocal(settings, r, id, name, false, beside, axis);
    TiledAlike(settings, q, r, names, id, name, beside, axis);
    AlikeNames(q.world, r.world, names, name);
    SameFocusTouches(q.world, r.world);
  }

  // ---------------------------------------------------------------- the restoring rule, executed

  ghost predicate Fit(e: Engine, id: WindowId, name: string) {
    id != EMPTY_LEAF && Exists(e.world, name) && Homeless(e.world, id)
  }

  /** The actions can all be carried out, one after the other. */
  ghost predicate Restorable(e: Engine, actions: seq<Restoration>) {
    && (forall k :: 0 <= k < |actions| ==> Fit(e, actions[k].id, actions[k].name))
    && (forall k, m :: 0 <= k < m < |actions| ==> actions[k].id != actions[m].id)
  }

  function NamesOf(actions: seq<Restoration>): set<string> {
    set k | 0 <= k < |actions| :: actions[k].name
  }

  ghost predicate Sane(e: Engine) { Valid(e) && Recorded(e.world) }

  ghost predicate FewerTombstones(e: Engine, r: Engine) {
    forall id :: id in r.tombstones ==> id in e.tombstones && r.tombstones[id] == e.tombstones[id]
  }

  lemma InsertSane(settings: Settings, e: Engine, id: WindowId, name: string, floating: bool, beside: Option<WindowId>,
                   axis: Option<Axis>)
    requires Sane(e) && Fit(e, id, name)
    ensures var r := Insert(settings, e, id, name, floating, beside, axis);
            Sane(r) && AlikeBut(e.world, r.world, {name}) && FewerTombstones(e, r)
  {
    hide Valid, Recorded, Homeless, Insert;
    InsertKeeps(settings, e, id, name, floating, beside, axis);
    InsertKeepsRecorded(settings, e, id, name, floating, beside, axis);
    InsertIsLocal(settings, e, id, name, floating, beside, axis);
    InsertAt(settings, e, id, name, floating, beside, axis);
  }

  /** Who joins is in the named workspace; everyone else stays where they are. */
  lemma InsertSpots(settings: Settings, e: Engine, id: WindowId, name: string, floating: bool, beside: Option<WindowId>,
                    axis: Option<Axis>, x: WindowId)
    requires Sane(e) && Fit(e, id, name)
    ensures var r := Insert(settings, e, id, name, floating, beside, axis);
            && (x != id ==> SpotOf(r.world, x) == SpotOf(e.world, x))
            && SpotOf(r.world, id) in {TiledIn(name), FloatingIn(name)}
  {
    hide Valid, Recorded, Homeless, Insert, Restores;
    SpotNowhere(e.world, id);
    InsertSpot(settings, e, id, name, floating, beside, axis, x);
    InsertSpot(settings, e, id, name, floating, beside, axis, id);
  }

  lemma StillFit(e: Engine, r: Engine, names: set<string>, id: WindowId, name: string)
    requires Fit(e, id, name) && AlikeBut(e.world, r.world, names) && SpotOf(r.world, id) == SpotOf(e.world, id)
    ensures Fit(r, id, name)
  {
    hide Homeless, SpotOf;
    AlikeNames(e.world, r.world, names, name);
    SpotNowhere(e.world, id);
    SpotNowhere(r.world, id);
  }

  lemma RestStaysRestorable(settings: Settings, e: Engine, actions: seq<Restoration>)
    requires Sane(e) && actions != [] && Restorable(e, actions)
    ensures var a := actions[0];
            Restorable(Insert(settings, e, a.id, a.name, a.floating, a.beside, None), actions[1..])
  {
    hide Sane, Fit, Insert, SpotOf;
    var a, rest := actions[0], actions[1..];
    var next := Insert(settings, e, a.id, a.name, a.floating, a.beside, None);
    InsertSane(settings, e, a.id, a.name, a.floating, a.beside, None);
    forall k | 0 <= k < |rest| ensures Fit(next, rest[k].id, rest[k].name) {
      assert rest[k] == actions[k + 1];
      InsertSpots(settings, e, a.id, a.name, a.floating, a.beside, None, rest[k].id);
      StillFit(e, next, {a.name}, rest[k].id, rest[k].name);
    }
  }

  lemma {:induction false} RestoreTouches(settings: Settings, e: Engine, actions: seq<Restoration>)
    requires Sane(e) && Restorable(e, actions)
    ensures var r := Restore(settings, e, actions);
            Sane(r) && AlikeBut(e.world, r.world, NamesOf(actions)) && FewerTombstones(e, r)
    decreases |actions|
  {
    hide Sane, Restorable, Insert, Recorded;
    if actions != [] {
      var a, rest := actions[0], actions[1..];
      var next := Insert(settings, e, a.id, a.name, a.floating, a.beside, None);
      assert Fit(e, a.id, a.name) by { FirstFits(e, actions); }
      InsertSane(settings, e, a.id, a.name, a.floating, a.beside, None);
      RestStaysRestorable(settings, e, actions);
      RestoreTouches(settings, next, rest);
      NamesOfRest(actions);
      AlikeMore(e.world, next.world, {a.name}, NamesOf(actions));
      AlikeMore(next.world, Restore(settings, next, rest).world, NamesOf(rest), NamesOf(actions));
      AlikeChain(e.world, next.world, Restore(settings, next, rest).world, NamesOf(actions), NamesOf(actions));
    }
  }

  lemma FirstFits(e: Engine, actions: seq<Restoration>)
    requires actions != [] && Restorable(e, actions)
    ensures Fit(e, actions[0].id, actions[0].name)
  {
  }

  lemma NamesOfRest(actions: seq<Restoration>)
    requires actions != []
    ensures actions[0].name in NamesOf(actions) && NamesOf(actions[1..]) <= NamesOf(actions)
  {
    forall name | name in NamesOf(actions[1..]) ensures name in NamesOf(actions) {
      var k :| 0 <= k < |actions[1..]| && actions[1..][k].name == name;
      assert actions[k + 1].name == name;
    }
  }

  lemma AlikeMore(w: World, v: World, names: set<string>, more: set<string>)
    requires AlikeBut(w, v, names) && names <= more
    ensures AlikeBut(w, v, more)
  {
  }

  /** Every restored window is in its workspace, every other one where it was. */
  lemma {:induction false} RestoreSpots(settings: Settings, e: Engine, actions: seq<Restoration>, x: WindowId)
    requires Sane(e) && Restorable(e, actions)
    ensures var r := Restore(settings, e, actions);
            && ((forall k :: 0 <= k < |actions| ==> actions[k].id != x) ==> SpotOf(r.world, x) == SpotOf(e.world, x))
            && (forall k :: 0 <= k < |actions| && actions[k].id == x ==>
                  SpotOf(r.world, x) in {TiledIn(actions[k].name), FloatingIn(actions[k].name)})
    decreases |actions|
  {
    hide Sane, Fit, Insert, SpotOf;
    if actions != [] {
      var a, rest := actions[0], actions[1..];
      var next := Insert(settings, e, a.id, a.name, a.floating, a.beside, None);
      InsertSane(settings, e, a.id, a.name, a.floating, a.beside, None);
      InsertSpots(settings, e, a.id, a.name, a.floating, a.beside, None, x);
      RestStaysRestorable(settings, e, actions);
      RestoreSpots(settings, next, rest, x);
      assert forall k :: 0 < k < |actions| ==> rest[k - 1] == actions[k];
    }
  }

  // ---------------------------------------------------------------- the placing rule, executed on both worlds

  /** No tombstone of this window can bring anything back into this workspace. */
  predicate Unrestorable(e: Engine, id: WindowId, name: string) {
    id in e.tombstones ==> e.tombstones[id].workspace != name
  }

  ghost predicate Placeable(e: Engine, actions: seq<Action>) {
    && (forall k :: 0 <= k < |actions| && actions[k].InsertWindow? ==>
          Fit(e, actions[k].id, actions[k].name) && Unrestorable(e, actions[k].id, actions[k].name))
    && (forall k, m :: 0 <= k < m < |actions| && actions[k].InsertWindow? && actions[m].InsertWindow? ==>
          actions[k].id != actions[m].id)
  }

  lemma RestStaysPlaceable(settings: Settings, e: Engine, actions: seq<Action>)
    requires Sane(e) && actions != [] && Placeable(e, actions)
    ensures Placeable(ExecuteOne(settings, e, actions[0]), actions[1..]) && Sane(ExecuteOne(settings, e, actions[0]))
  {
    hide Sane, Fit, Insert, SpotOf;
    var a, rest := actions[0], actions[1..];
    var next := ExecuteOne(settings, e, a);
    assert forall k :: 0 <= k < |rest| ==> rest[k] == actions[k + 1];
    if a.InsertWindow? {
      InsertSane(settings, e, a.id, a.name, false, a.beside, a.axis);
      forall k | 0 <= k < |rest| && rest[k].InsertWindow?
        ensures Fit(next, rest[k].id, rest[k].name) && Unrestorable(next, rest[k].id, rest[k].name)
      {
        assert rest[k] == actions[k + 1];
        InsertSpots(settings, e, a.id, a.name, false, a.beside, a.axis, rest[k].id);
        StillFit(e, next, {a.name}, rest[k].id, rest[k].name);
      }
    }
  }

  lemma UnrestorableNeverRestores(e: Engine, id: WindowId, name: string)
    requires Unrestorable(e, id, name)
    ensures !Restores(e, id, name)
  {
  }

  /** The same actions on two worlds alike but for some workspaces leave them alike but for these. */
  lemma {:induction false} ExecutedAlike(settings: Settings, q: Engine, r: Engine, names: set<string>, actions: seq<Action>)
    requires Sane(q) && Sane(r) && AlikeBut(q.world, r.world, names) && Placeable(q, actions) && Placeable(r, actions)
    ensures AlikeBut(Execute(settings, q, actions).world, Execute(settings, r, actions).world, names)
    ensures Sane(Execute(settings, q, actions)) && Sane(Execute(settings, r, actions))
    decreases |actions|
  {
    hide Valid, Recorded, Homeless, Insert, Restores, AlikeBut;
    if actions != [] {
      var a := actions[0];
      RestStaysPlaceable(settings, q, actions);
      RestStaysPlaceable(settings, r, actions);
      if a.InsertWindow? {
        UnrestorableNeverRestores(q, a.id, a.name);
        UnrestorableNeverRestores(r, a.id, a.name);
        InsertedAlike(settings, q, r, names, a.id, a.name, a.beside, a.axis);
      }
      ExecutedAlike(settings, ExecuteOne(settings, q, a), ExecuteOne(settings, r, a), names, actions[1..]);
    }
  }

  /** Windows that are not placed stay where they are. */
  lemma {:induction false} ExecutedSpots(settings: Settings, e: Engine, actions: seq<Action>, x: WindowId)
    requires Sane(e) && Placeable(e, actions) && forall k :: 0 <= k < |actions| && actions[k].InsertWindow? ==> actions[k].id != x
    ensures SpotOf(Execute(settings, e, actions).world, x) == SpotOf(e.world, x)
    decreases |actions|
  {
    hide Sane, Fit, Insert, SpotOf, Unrestorable;
    if actions != [] {
      var a, rest := actions[0], actions[1..];
      RestStaysPlaceable(settings, e, actions);
      if a.InsertWindow? {
        InsertSpots(settings, e, a.id, a.name, false, a.beside, a.axis, x);
      }
      assert forall k :: 0 <= k < |rest| ==> rest[k] == actions[k + 1];
      ExecutedSpots(settings, ExecuteOne(settings, e, a), rest, x);
    }
  }

  // ---------------------------------------------------------------- what the two rules ask for

  lemma PlaceOneEmits(settings: Settings, w: World, ctx: Context, prospective: World, id: WindowId)
    requires SameNames(w, prospective)
    ensures var actions := PlaceOne(settings, w, ctx, prospective, id).0;
            && (forall k :: 0 <= k < |actions| && actions[k].InsertWindow? ==>
                  actions[k].id == id && Eligible(w, ctx, id) && Exists(w, actions[k].name))
            && (forall k, m :: 0 <= k < m < |actions| ==> !(actions[k].InsertWindow? && actions[m].InsertWindow?))
  {
    hide PlanInsertion, InsertionFor, InsertionDisplay, RecordFocused, WithTree, Eligible;
    var target := PickWorkspace(w, ctx, id);
    if target.Some? {
      SameNamesSameExistence(w, prospective, target.value);
    }
  }

  ghost predicate Emits(w: World, ctx: Context, order: seq<WindowId>, actions: seq<Action>) {
    && (forall k :: 0 <= k < |actions| && actions[k].InsertWindow? ==>
          actions[k].id in order && Eligible(w, ctx, actions[k].id) && Exists(w, actions[k].name))
    && (forall k, m :: 0 <= k < m < |actions| && actions[k].InsertWindow? && actions[m].InsertWindow? ==>
          actions[k].id != actions[m].id)
  }

  lemma {:induction false} PlaceEmits(settings: Settings, w: World, ctx: Context, prospective: World, order: seq<WindowId>)
    requires SameNames(w, prospective) && NoDuplicates(order)
    ensures Emits(w, ctx, order, Place(settings, w, ctx, prospective, order).0)
    decreases |order|
  {
    hide PlaceOne, Eligible, Exists, SameNames;
    if order != [] {
      var (actions, next) := PlaceOne(settings, w, ctx, prospective, order[0]);
      PlaceOneEmits(settings, w, ctx, prospective, order[0]);
      PlaceOneKeepsNames(settings, w, ctx, prospective, order[0]);
      SameNamesChain(w, prospective, next);
      RestHasNoDuplicates(order);
      PlaceEmits(settings, w, ctx, next, order[1..]);
    }
  }

  lemma RestHasNoDuplicates(order: seq<WindowId>)
    requires order != [] && NoDuplicates(order)
    ensures NoDuplicates(order[1..]) && order[0] !in order[1..]
  {
    forall i, j | 0 <= i < j < |order[1..]| ensures order[1..][i] != order[1..][j] {
      assert order[i + 1] != order[j + 1];
    }
    forall k | 0 <= k < |order[1..]| ensures order[1..][k] != order[0] {
      assert order[k + 1] != order[0];
    }
  }

  ghost predicate Wanted(w: World, ctx: Context, listed: seq<WindowId>, actions: seq<Restoration>) {
    && (forall k :: 0 <= k < |actions| ==>
          && actions[k].id in listed && ComesBack(w, ctx, actions[k].id)
          && actions[k].name == ctx.tombstones[actions[k].id].workspace)
    && (forall k, m :: 0 <= k < m < |actions| ==> actions[k].id != actions[m].id)
  }

  lemma {:induction false} RestoreWants(w: World, ctx: Context, anchors: map<WindowId, WindowId>, listed: seq<WindowId>)
    requires NoDuplicates(listed)
    ensures Wanted(w, ctx, listed, Restorations(w, ctx, anchors, listed))
    decreases |listed|
  {
    hide Home;
    if listed != [] {
      RestHasNoDuplicates(listed);
      RestoreWants(w, ctx, anchors, listed[1..]);
    }
  }

  /** With no tombstone past its time the two rules never speak of the same window. */
  lemma RulesAreApart(w: World, ctx: Context, id: WindowId)
    requires Pruned(ctx) && ComesBack(w, ctx, id)
    ensures !Eligible(w, ctx, id)
  {
    hide Home;
  }

  lemma EligibleIsUnrestorable(w: World, e: Engine, ctx: Context, id: WindowId, name: string)
    requires Pruned(ctx) && Follows(e, ctx) && Eligible(w, ctx, id) && Exists(w, name)
    ensures Unrestorable(e, id, name)
  {
    hide Home;
  }

  lemma WantedIsRestorable(e: Engine, ctx: Context, listed: seq<WindowId>, actions: seq<Restoration>)
    requires Wanted(e.world, ctx, listed, actions) && EMPTY_LEAF !in listed
    ensures Restorable(e, actions)
  {
    hide Homeless;
    forall k | 0 <= k < |actions| ensures Fit(e, actions[k].id, actions[k].name) {
      HomelessIffNoHome(e.world, actions[k].id);
    }
  }

  lemma EmittedIsPlaceable(e: Engine, w: World, names: set<string>, ctx: Context, order: seq<WindowId>, actions: seq<Action>)
    requires Emits(w, ctx, order, actions) && EMPTY_LEAF !in order && Pruned(ctx) && Follows(e, ctx)
    requires AlikeBut(w, e.world, names)
    requires forall k :: 0 <= k < |actions| && actions[k].InsertWindow? ==> SpotOf(e.world, actions[k].id) == SpotOf(w, actions[k].id)
    ensures Placeable(e, actions)
  {
    hide Homeless, SpotOf, Pruned, Follows;
    forall k | 0 <= k < |actions| && actions[k].InsertWindow?
      ensures Fit(e, actions[k].id, actions[k].name) && Unrestorable(e, actions[k].id, actions[k].name)
    {
      HomelessIffNoHome(w, actions[k].id);
      SpotNowhere(w, actions[k].id);
      SpotNowhere(e.world, actions[k].id);
      AlikeNames(w, e.world, names, actions[k].name);
      EligibleIsUnrestorable(w, e, ctx, actions[k].id, actions[k].name);
    }
  }

  // ---------------------------------------------------------------- the whole cycle

  /** Both rules plan over the same world; then the restorations are executed, then the placements. */
  function Cycle(settings: Settings, e: Engine, ctx: Context, anchors: map<WindowId, WindowId>, listed: seq<WindowId>,
                 order: seq<WindowId>): Engine
  {
    Execute(settings, Restore(settings, e, Restorations(e.world, ctx, anchors, listed)),
            Place(settings, e.world, ctx, e.world, order).0)
  }

  lemma AlikeItself(w: World)
    ensures AlikeBut(w, w, {})
  {
  }

  lemma SameNamesItself(w: World)
    ensures SameNames(w, w)
  {
  }

  lemma ApartIsUnplaced(w: World, ctx: Context, order: seq<WindowId>, actions: seq<Action>, x: WindowId)
    requires Emits(w, ctx, order, actions) && !Eligible(w, ctx, x)
    ensures forall k :: 0 <= k < |actions| && actions[k].InsertWindow? ==> actions[k].id != x
  {
    hide Eligible;
  }

  /** A workspace that holds a window is told apart from one in a world where the window is homeless. */
  lemma HolderDiffers(w: World, v: World, j: nat, x: WindowId, name: string)
    requires WellFormed(w) && j < |w.workspaces| == |v.workspaces| && w.workspaces[j].name == name
    requires SpotOf(w, x) in {TiledIn(name), FloatingIn(name)} && SpotOf(v, x).Nowhere?
    ensures w.workspaces[j] != v.workspaces[j]
  {
    hide Sound, Holds;
    SpotNowhere(v, x);
    assert forall k :: 0 <= k < j ==> Apart(w.workspaces[k], w.workspaces[j]);
    assert forall k :: j < k < |w.workspaces| ==> Apart(w.workspaces[j], w.workspaces[k]);
  }

  lemma PlaceableAfterRestore(settings: Settings, e: Engine, ctx: Context, listed: seq<WindowId>, rs: seq<Restoration>,
                              order: seq<WindowId>, actions: seq<Action>)
    requires Sane(e) && ctx.tombstones == e.tombstones && Pruned(ctx) && EMPTY_LEAF !in order
    requires Wanted(e.world, ctx, listed, rs) && Restorable(e, rs) && Emits(e.world, ctx, order, actions)
    ensures Placeable(Restore(settings, e, rs), actions)
  {
    hide Sane, Restorable, Eligible, SpotOf, Fit, ComesBack, Pruned, Homeless, Restore;
    var r := Restore(settings, e, rs);
    RestoreTouches(settings, e, rs);
    forall k | 0 <= k < |actions| && actions[k].InsertWindow? ensures SpotOf(r.world, actions[k].id) == SpotOf(e.world, actions[k].id) {
      forall m | 0 <= m < |rs| ensures rs[m].id != actions[k].id {
        RulesAreApart(e.world, ctx, rs[m].id);
      }
      RestoreSpots(settings, e, rs, actions[k].id);
    }
    EmittedIsPlaceable(r, e.world, NamesOf(rs), ctx, order, actions);
  }

  /** After a cycle, a workspace is exactly as the placing rule foresaw if and only if the restoring rule put nothing
      into it. */
  lemma CycleAgreesIff(settings: Settings, e: Engine, ctx: Context, anchors: map<WindowId, WindowId>, listed: seq<WindowId>,
                       order: seq<WindowId>)
    requires Valid(e) && Recorded(e.world) && ctx.tombstones == e.tombstones && Pruned(ctx)
    requires NoDuplicates(order) && NoDuplicates(listed) && EMPTY_LEAF !in order && EMPTY_LEAF !in listed
    ensures var prospective := Place(settings, e.world, ctx, e.world, order).1;
            var r := Cycle(settings, e, ctx, anchors, listed, order).world;
            && |r.workspaces| == |prospective.workspaces|
            && forall j :: 0 <= j < |r.workspaces| ==>
                 (r.workspaces[j] == prospective.workspaces[j]
                  <==> prospective.workspaces[j].name !in NamesOf(Restorations(e.world, ctx, anchors, listed)))
  {
    hide Valid, Recorded, Pruned, NoDuplicates, Restorations, Place, Execute, Restore, Emits, Wanted, Restorable, Placeable,
      NamesOf, SpotOf;
    var rs := Restorations(e.world, ctx, anchors, listed);
    var (actions, prospective) := Place(settings, e.world, ctx, e.world, order);
    RestoreWants(e.world, ctx, anchors, listed);
    WantedIsRestorable(e, ctx, listed, rs);
    RestoreTouches(settings, e, rs);
    var back := Restore(settings, e, rs);
    SameNamesItself(e.world);
    PlaceEmits(settings, e.world, ctx, e.world, order);
    AlikeItself(e.world);
    EmittedIsPlaceable(e, e.world, {}, ctx, order, actions);
    PlaceableAfterRestore(settings, e, ctx, listed, rs, order, actions);
    ExecutedAlike(settings, e, back, NamesOf(rs), actions);
    RuleAgreesWithExecution(settings, e, ctx, order);
    var r := Cycle(settings, e, ctx, anchors, listed, order).world;
    forall j | 0 <= j < |r.workspaces| && prospective.workspaces[j].name in NamesOf(rs)
      ensures r.workspaces[j] != prospective.workspaces[j]
    {
      RestoredDiffers(settings, e, ctx, listed, rs, order, actions, j);
    }
  }

  lemma RestoredDiffers(settings: Settings, e: Engine, ctx: Context, listed: seq<WindowId>, rs: seq<Restoration>,
                        order: seq<WindowId>, actions: seq<Action>, j: nat)
    requires Sane(e) && Pruned(ctx) && Wanted(e.world, ctx, listed, rs) && Restorable(e, rs)
    requires Emits(e.world, ctx, order, actions) && Placeable(e, actions)
    requires Placeable(Restore(settings, e, rs), actions)
    requires var v := Execute(settings, e, actions).world;
             var w := Execute(settings, Restore(settings, e, rs), actions).world;
             && j < |w.workspaces| == |v.workspaces| && w.workspaces[j].name == v.workspaces[j].name
             && v.workspaces[j].name in NamesOf(rs)
    ensures Execute(settings, Restore(settings, e, rs), actions).world.workspaces[j]
         != Execute(settings, e, actions).world.workspaces[j]
  {
    hide Restorable, Placeable, Emits, SpotOf, Pruned, Restore, Execute, Homeless, Recorded, ComesBack;
    var back := Restore(settings, e, rs);
    var v, w := Execute(settings, e, actions).world, Execute(settings, back, actions).world;
    var k :| 0 <= k < |rs| && rs[k].name == v.workspaces[j].name;
    var x := rs[k].id;
    RulesAreApart(e.world, ctx, x);
    ApartIsUnplaced(e.world, ctx, order, actions, x);
    RestoreTouches(settings, e, rs);
    RestoreSpots(settings, e, rs, x);
    ExecutedSpots(settings, e, actions, x);
    ExecutedSpots(settings, back, actions, x);
    assert SpotOf(e.world, x).Nowhere? by { BackIsHomeless(e.world, ctx, x); }
    ExecutedSane(settings, back, actions);
    HolderDiffers(w, v, j, x, rs[k].name);
  }

  lemma BackIsHomeless(w: World, ctx: Context, x: WindowId)
    requires ComesBack(w, ctx, x)
    ensures SpotOf(w, x).Nowhere?
  {
  }

  lemma ExecutedSane(settings: Settings, e: Engine, actions: seq<Action>)
    requires Sane(e) && Placeable(e, actions)
    ensures Sane(Execute(settings, e, actions))
  {
    hide Sane, Placeable, Execute;
    AlikeItself(e.world);
    ExecutedAlike(settings, e, e, {}, actions);
  }

  /** What every observation leaves behind: recorded focus and no tombstone past its time. */
  lemma ObservedIsRecorded(settings: Settings, e: Engine, o: Sighting)
    requires Valid(e)
    ensures var seen := Apply(settings, e, Observed(o));
            Valid(seen) && Recorded(seen.world) && forall id :: id in seen.tombstones ==> o.now - seen.tombstones[id].at <= REMEMBERED_FOR
  {
    hide WellFormed, RecordFocused, Touched, TombstoneSound, SignalAll;
    var looked := e.world.(displays := o.displays, windows := o.windows);
    var before := Refocused(SignalAll(looked, o.signals), o.steady);
    StepKeepsMembership(settings, e, Observed(o));
    SameWorkspaces(e.world, looked);
    SignalsKeep(looked, o.signals);
    SameWorkspaces(SignalAll(looked, o.signals), before);
    RecordTouches(before);
    var after := RecordFocused(before, before.focusIntent);
    SameFocusTouches(after, before);
    forall j | 0 <= j < |after.workspaces| ensures Touched(after, after.workspaces[j]) == after.workspaces[j] {
      TouchedTwice(before, before.workspaces[j]);
    }
  }

  /** So a cycle that starts with an observation, as every cycle does, foresees exactly the workspaces nothing comes
      back into. */
  lemma ObservedCycleAgreesIff(settings: Settings, e: Engine, o: Sighting, ctx: Context, anchors: map<WindowId, WindowId>,
                               listed: seq<WindowId>, order: seq<WindowId>)
    requires Valid(e) && o.now == ctx.now && ctx.tombstones == Apply(settings, e, Observed(o)).tombstones
    requires NoDuplicates(order) && NoDuplicates(listed) && EMPTY_LEAF !in order && EMPTY_LEAF !in listed
    ensures var seen := Apply(settings, e, Observed(o));
            var prospective := Place(settings, seen.world, ctx, seen.world, order).1;
            var r := Cycle(settings, seen, ctx, anchors, listed, order).world;
            && |r.workspaces| == |prospective.workspaces|
            && forall j :: 0 <= j < |r.workspaces| ==>
                 (r.workspaces[j] == prospective.workspaces[j]
                  <==> prospective.workspaces[j].name !in NamesOf(Restorations(seen.world, ctx, anchors, listed)))
  {
    hide Valid, Recorded, Apply, Cycle, Place, Restorations, NamesOf, NoDuplicates;
    ObservedIsRecorded(settings, e, o);
    CycleAgreesIff(settings, Apply(settings, e, Observed(o)), ctx, anchors, listed, order);
  }
}
