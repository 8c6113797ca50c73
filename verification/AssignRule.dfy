/** Placing new windows: what the rule plans over a prospective world, and what executing its actions does. */
module AssignRule {
  import opened Geometry
  import opened BspTree
  import opened Partition
  import opened Planner
  import opened Policies
  import opened Insertion
  import opened Membership
  import opened MembershipInvariant

  datatype Action =
    | SetFrame(id: WindowId, frame: Frame)
    | InsertWindow(id: WindowId, name: string, beside: Option<WindowId>, axis: Option<Axis>)
    | NoDisplay(id: WindowId)
    | NoFeasibleFrame(id: WindowId, name: string)

  /** What the rule is told besides the world. */
  datatype Context = Context(quarantined: set<WindowId>, ignored: set<WindowId>, transient: set<WindowId>,
                             affinity: map<WindowId, string>, tombstones: map<WindowId, Tombstone>, now: int)

  const REMEMBERED_FOR := 5 * 60 * 1000

  predicate Exists(w: World, name: string) {
    Named(w.workspaces, name) < |w.workspaces|
  }

  function PickWorkspace(w: World, ctx: Context, id: WindowId): Option<string> {
    if id in ctx.affinity then Some(ctx.affinity[id])
    else if w.focusedWorkspace.Some? && Exists(w, w.focusedWorkspace.value) then w.focusedWorkspace
    else if (forall i :: 0 <= i < |w.workspaces| ==> w.workspaces[i].visibleOn.None?) && Exists(w, "1") then Some("1")
    else None
  }

  /** Left to another rule, which restores it. */
  predicate Remembered(w: World, ctx: Context, id: WindowId) {
    && id in ctx.tombstones
    && ctx.now - ctx.tombstones[id].at <= REMEMBERED_FOR
    && Exists(w, ctx.tombstones[id].workspace)
  }

  predicate Eligible(w: World, ctx: Context, id: WindowId) {
    && id !in ctx.quarantined && id !in ctx.ignored
    && Home(w.workspaces, id) == |w.workspaces|
    && !Remembered(w, ctx, id)
    && id !in ctx.transient
  }

  function WithTree(w: World, i: nat, tree: Node): World
    requires i < |w.workspaces|
  {
    Put(w, i, w.workspaces[i].(tree := tree))
  }

  /** One new window: the actions for it, and the world they are expected to lead to. */
  function PlaceOne(settings: Settings, w: World, ctx: Context, prospective: World, id: WindowId): (seq<Action>, World) {
    var target := PickWorkspace(w, ctx, id);
    if !Eligible(w, ctx, id) || target.None? || !Exists(prospective, target.value) then ([], prospective)
    else
      var i := Named(prospective.workspaces, target.value);
      var ws := prospective.workspaces[i];
      if InsertionDisplay(prospective, ws).None? then ([NoDisplay(id)], prospective)
      else
        var plan := PlanInsertion(InsertionFor(settings, prospective, ws, id, None, None));
        if plan.None? then ([NoFeasibleFrame(id, target.value)], prospective)
        else ([SetFrame(id, plan.value.frame), InsertWindow(id, target.value, plan.value.beside, plan.value.axis)],
              RecordFocused(WithTree(prospective, i, plan.value.tree), prospective.focusIntent))
  }

  /** All new windows in the order they are listed. */
  function Place(settings: Settings, w: World, ctx: Context, prospective: World, order: seq<WindowId>): (seq<Action>, World)
    decreases |order|
  {
    if order == [] then ([], prospective)
    else
      var (actions, next) := PlaceOne(settings, w, ctx, prospective, order[0]);
      var (later, last) := Place(settings, w, ctx, next, order[1..]);
      (actions + later, last)
  }

  /** The rule's loop over the observed windows. */
  method Run(settings: Settings, w: World, ctx: Context, order: seq<WindowId>) returns (actions: seq<Action>, prospective: World)
    ensures (actions, prospective) == Place(settings, w, ctx, w, order)
  {
    hide PlaceOne;
    actions, prospective := [], w;
    var i := 0;
    assert order[0..] == order;
    assert [] + Place(settings, w, ctx, w, order).0 == Place(settings, w, ctx, w, order).0;
    while i < |order|
      invariant 0 <= i <= |order|
      invariant var rest := Place(settings, w, ctx, prospective, order[i..]);
                (actions + rest.0, rest.1) == Place(settings, w, ctx, w, order)
    {
      assert order[i..][1..] == order[i + 1..];
      ghost var rest := Place(settings, w, ctx, PlaceOne(settings, w, ctx, prospective, order[i]).1, order[i + 1..]);
      var (more, next) := PlaceOne(settings, w, ctx, prospective, order[i]);
      assert actions + (more + rest.0) == actions + more + rest.0;
      actions, prospective := actions + more, next;
      i := i + 1;
    }
    assert actions + [] == actions;
  }

  /** What an executed action does to membership; frames and diagnostics do nothing. */
  function ExecuteOne(settings: Settings, e: Engine, action: Action): Engine {
    match action
    case InsertWindow(id, name, beside, axis) => Insert(settings, e, id, name, false, beside, axis)
    case _ => e
  }

  function Execute(settings: Settings, e: Engine, actions: seq<Action>): Engine
    decreases |actions|
  {
    if actions == [] then e else Execute(settings, ExecuteOne(settings, e, actions[0]), actions[1..])
  }

  lemma {:induction false} ExecuteAppend(settings: Settings, e: Engine, a: seq<Action>, b: seq<Action>)
    ensures Execute(settings, e, a + b) == Execute(settings, Execute(settings, e, a), b)
    decreases |a|
  {
    hide ExecuteOne;
    if a == [] {
      assert a + b == b;
    } else {
      assert (a + b)[1..] == a[1..] + b;
      ExecuteAppend(settings, ExecuteOne(settings, e, a[0]), a[1..], b);
    }
  }

  // ---------------------------------------------------------------- one window

  /** The executor asks for what the preflight decided, so it gets what the preflight got. */
  lemma ConfirmedInsertion(settings: Settings, w: World, i: nat, id: WindowId)
    requires i < |w.workspaces| && PlanInsertion(InsertionFor(settings, w, w.workspaces[i], id, None, None)).Some?
    ensures var plan := PlanInsertion(InsertionFor(settings, w, w.workspaces[i], id, None, None)).value;
            InsertedTree(InsertionFor(settings, w, w.workspaces[i], id, plan.beside, plan.axis)) == plan.tree
  {
    hide PlanInsertion, InsertionDisplay;
    var input := InsertionFor(settings, w, w.workspaces[i], id, None, None);
    ConfirmedPlanIsThePlan(input);
  }

  lemma ExecutedInsertion(settings: Settings, e: Engine, name: string, id: WindowId)
    requires Exists(e.world, name) && Home(e.world.workspaces, id) == |e.world.workspaces| && !Restores(e, id, name)
    requires var i := Named(e.world.workspaces, name);
             PlanInsertion(InsertionFor(settings, e.world, e.world.workspaces[i], id, None, None)).Some?
    ensures var i := Named(e.world.workspaces, name);
            var plan := PlanInsertion(InsertionFor(settings, e.world, e.world.workspaces[i], id, None, None)).value;
            Insert(settings, e, id, name, false, plan.beside, plan.axis)
            == Engine(RecordFocused(WithTree(e.world, i, plan.tree), e.world.focusIntent), e.tombstones - {id})
  {
    hide InsertedTree, InsertionFor, RecordFocused, PlanInsertion, Restores, Home;
    ConfirmedInsertion(settings, e.world, Named(e.world.workspaces, name), id);
  }

  /** No tombstone has outlived its time. */
  predicate Pruned(ctx: Context) {
    forall id :: id in ctx.tombstones ==> ctx.now - ctx.tombstones[id].at <= REMEMBERED_FOR
  }

  /** The executor's tombstones are the rule's, less those of windows already dealt with. */
  ghost predicate Follows(e: Engine, ctx: Context) {
    forall id :: id in e.tombstones ==> id in ctx.tombstones && ctx.tombstones[id] == e.tombstones[id]
  }

  lemma PrunedNeverRestores(w: World, e: Engine, ctx: Context, id: WindowId, name: string)
    requires Pruned(ctx) && Follows(e, ctx) && Eligible(w, ctx, id) && Exists(w, name)
    ensures !Restores(e, id, name)
  {
    hide Home, Survives, EnsureWorkspace;
  }

  /** Same workspaces by name, whatever is in them. */
  ghost predicate SameNames(w: World, v: World) {
    |w.workspaces| == |v.workspaces| && forall i :: 0 <= i < |w.workspaces| ==> w.workspaces[i].name == v.workspaces[i].name
  }

  lemma SameNamesSameExistence(w: World, v: World, name: string)
    requires SameNames(w, v)
    ensures Exists(w, name) <==> Exists(v, name)
  {
    var a, b := Named(w.workspaces, name), Named(v.workspaces, name);
    if a < |w.workspaces| {
      assert v.workspaces[a].name == name;
    }
    if b < |v.workspaces| {
      assert w.workspaces[b].name == name;
    }
  }

  lemma PlaceOneIsExecuted(settings: Settings, w: World, ctx: Context, e: Engine, id: WindowId)
    requires Pruned(ctx) && Follows(e, ctx) && SameNames(w, e.world)
    requires Eligible(w, ctx, id) ==> Home(e.world.workspaces, id) == |e.world.workspaces|
    ensures var (actions, next) := PlaceOne(settings, w, ctx, e.world, id);
            var r := Execute(settings, e, actions);
            r.world == next && Follows(r, ctx)
  {
    hide RecordFocused, Insert, PlanInsertion, InsertionFor, InsertionDisplay, Home, Eligible, Restores, WithTree,
      PickWorkspace, SameNames,
      Pruned;
    var (actions, next) := PlaceOne(settings, w, ctx, e.world, id);
    if |actions| == 2 {
      var name := PickWorkspace(w, ctx, id).value;
      SameNamesSameExistence(w, e.world, name);
      PrunedNeverRestores(w, e, ctx, id, name);
      ExecutedInsertion(settings, e, name, id);
      assert actions[1..] == [actions[1]] && actions[1..][1..] == [];
      assert Execute(settings, e, actions) == Execute(settings, e, [actions[1]]);
      assert Execute(settings, e, [actions[1]]) == ExecuteOne(settings, e, actions[1]);
    } else if |actions| == 1 {
      assert actions[1..] == [];
      assert Execute(settings, e, actions) == e;
    }
  }

  // ---------------------------------------------------------------- other new windows stay homeless

  lemma PlanLeavesOthersOut(input: InsertionInput, x: WindowId)
    requires PlanInsertion(input).Some? && x != input.newId && !Has(input.tree, x)
    ensures !Has(PlanInsertion(input).value.tree, x)
  {
    hide PlanInsertion;
    PlanAddsOne(input);
    var tree := PlanInsertion(input).value.tree;
    if IsEmptyTree(input.tree) {
      assert Bag(tree)[x] == multiset{input.newId}[x];
    } else {
      assert Bag(tree)[x] == Bag(input.tree)[x] + multiset{input.newId}[x];
    }
  }

  lemma RecordFocusedKeepsMembers(w: World, id: Option<WindowId>)
    ensures SameNames(w, RecordFocused(w, id))
    ensures forall x :: Homeless(w, x) ==> Homeless(RecordFocused(w, id), x)
  {
    hide Holds, Home;
    if id.Some? {
      var i := Home(w.workspaces, id.value);
      if i < |w.workspaces| { RememberingHolds(w.workspaces[i], id.value); }
    }
  }

  lemma WithTreeKeepsHomeless(w: World, i: nat, tree: Node, x: WindowId)
    requires i < |w.workspaces| && Homeless(w, x) && (x == EMPTY_LEAF || !Has(tree, x))
    ensures Homeless(WithTree(w, i, tree), x)
  {
    assert !Holds(w.workspaces[i], x);
  }

  lemma PlacedTreeLeavesOthersOut(settings: Settings, w: World, i: nat, id: WindowId, x: WindowId)
    requires i < |w.workspaces| && Homeless(w, x) && x != id
    requires PlanInsertion(InsertionFor(settings, w, w.workspaces[i], id, None, None)).Some?
    ensures Homeless(WithTree(w, i, PlanInsertion(InsertionFor(settings, w, w.workspaces[i], id, None, None)).value.tree), x)
  {
    hide PlanInsertion, InsertionDisplay, WithTree, Homeless, Has;
    var input := InsertionFor(settings, w, w.workspaces[i], id, None, None);
    HomelessHere(w, i, x);
    if x != EMPTY_LEAF { PlanLeavesOthersOut(input, x); }
    WithTreeKeepsHomeless(w, i, PlanInsertion(input).value.tree, x);
  }

  lemma HomelessHere(w: World, i: nat, x: WindowId)
    requires i < |w.workspaces| && Homeless(w, x)
    ensures x != EMPTY_LEAF ==> !Has(w.workspaces[i].tree, x)
  {
    assert !Holds(w.workspaces[i], x);
  }

  lemma PlaceOneLeavesOthersOut(settings: Settings, w: World, ctx: Context, prospective: World, id: WindowId, x: WindowId)
    requires Homeless(prospective, x) && x != id
    ensures var next := PlaceOne(settings, w, ctx, prospective, id).1;
            Homeless(next, x) && SameNames(prospective, next)
  {
    hide RecordFocused, PlanInsertion, InsertionFor, InsertionDisplay, Home, Eligible, PickWorkspace, Homeless, WithTree;
    PlaceOneKeepsNames(settings, w, ctx, prospective, id);
    var (actions, next) := PlaceOne(settings, w, ctx, prospective, id);
    if |actions| == 2 {
      var i := Named(prospective.workspaces, PickWorkspace(w, ctx, id).value);
      PlacedTreeLeavesOthersOut(settings, prospective, i, id, x);
      var plan := PlanInsertion(InsertionFor(settings, prospective, prospective.workspaces[i], id, None, None)).value;
      RecordFocusedKeepsMembers(WithTree(prospective, i, plan.tree), prospective.focusIntent);
    }
  }

  lemma PlaceOneKeepsNames(settings: Settings, w: World, ctx: Context, prospective: World, id: WindowId)
    ensures SameNames(prospective, PlaceOne(settings, w, ctx, prospective, id).1)
  {
    hide RecordFocused, PlanInsertion, InsertionFor, InsertionDisplay, Home, Eligible, PickWorkspace;
    var (actions, next) := PlaceOne(settings, w, ctx, prospective, id);
    if |actions| == 2 {
      var i := Named(prospective.workspaces, PickWorkspace(w, ctx, id).value);
      var plan := PlanInsertion(InsertionFor(settings, prospective, prospective.workspaces[i], id, None, None)).value;
      RecordFocusedKeepsMembers(WithTree(prospective, i, plan.tree), prospective.focusIntent);
    }
  }

  // ---------------------------------------------------------------- any number of windows

  /** Windows still to be placed have no home in the world reached so far. */
  ghost predicate Unplaced(w: World, ctx: Context, prospective: World, order: seq<WindowId>) {
    forall k :: 0 <= k < |order| && Eligible(w, ctx, order[k]) ==> Homeless(prospective, order[k])
  }

  lemma UnplacedAfter(settings: Settings, w: World, ctx: Context, prospective: World, order: seq<WindowId>)
    requires order != [] && NoDuplicates(order) && Unplaced(w, ctx, prospective, order)
    ensures Unplaced(w, ctx, PlaceOne(settings, w, ctx, prospective, order[0]).1, order[1..])
    ensures NoDuplicates(order[1..])
  {
    hide PlaceOne, Eligible, Homeless;
    forall k | 0 <= k < |order[1..]| && Eligible(w, ctx, order[1..][k])
      ensures Homeless(PlaceOne(settings, w, ctx, prospective, order[0]).1, order[1..][k])
    {
      assert order[1..][k] == order[k + 1];
      PlaceOneLeavesOthersOut(settings, w, ctx, prospective, order[0], order[k + 1]);
    }
    forall i, j | 0 <= i < j < |order[1..]| ensures order[1..][i] != order[1..][j] {
      assert order[i + 1] != order[j + 1];
    }
  }

  lemma SameNamesChain(a: World, b: World, c: World)
    requires SameNames(a, b) && SameNames(b, c)
    ensures SameNames(a, c)
  {
  }

  lemma {:induction false} PlacementIsExecuted(settings: Settings, w: World, ctx: Context, e: Engine,
                                               order: seq<WindowId>)
    requires Pruned(ctx) && Follows(e, ctx) && SameNames(w, e.world)
    requires NoDuplicates(order) && Unplaced(w, ctx, e.world, order)
    ensures Execute(settings, e, Place(settings, w, ctx, e.world, order).0).world == Place(settings, w, ctx, e.world, order).1
    decreases |order|
  {
    hide Pruned, Follows, SameNames, NoDuplicates, PlaceOne, Eligible, Homeless, ExecuteOne;
    if order != [] {
      var (actions, next) := PlaceOne(settings, w, ctx, e.world, order[0]);
      UnplacedAfter(settings, w, ctx, e.world, order);
      FirstIsUnplaced(w, ctx, e.world, order);
      PlaceOneIsExecuted(settings, w, ctx, e, order[0]);
      PlaceOneKeepsNames(settings, w, ctx, e.world, order[0]);
      SameNamesChain(w, e.world, next);
      var between := Execute(settings, e, actions);
      PlacementIsExecuted(settings, w, ctx, between, order[1..]);
      ExecuteAppend(settings, e, actions, Place(settings, w, ctx, next, order[1..]).0);
    }
  }

  lemma FirstIsUnplaced(w: World, ctx: Context, prospective: World, order: seq<WindowId>)
    requires order != [] && Unplaced(w, ctx, prospective, order)
    ensures Eligible(w, ctx, order[0]) ==> Home(prospective.workspaces, order[0]) == |prospective.workspaces|
  {
    hide Eligible;
    if Eligible(w, ctx, order[0]) { HomelessIffNoHome(prospective, order[0]); }
  }

  /** Preflight agrees with execution: over a store of unexpired tombstones, executing the emitted actions on
      the real world yields exactly the prospective world, for any number of new windows. */
  lemma RuleAgreesWithExecution(settings: Settings, e: Engine, ctx: Context, order: seq<WindowId>)
    requires ctx.tombstones == e.tombstones && Pruned(ctx) && NoDuplicates(order)
    ensures var (actions, prospective) := Place(settings, e.world, ctx, e.world, order);
            Execute(settings, e, actions).world == prospective
  {
    hide Home, Place, Execute;
    forall k | 0 <= k < |order| && Eligible(e.world, ctx, order[k]) ensures Homeless(e.world, order[k]) {
      HomelessIffNoHome(e.world, order[k]);
    }
    PlacementIsExecuted(settings, e.world, ctx, e, order);
  }

  /** The rule runs right after an observation, which drops expired tombstones: then its plan is what execution
      makes of it. */
  lemma ObservedThenPlannedAgrees(settings: Settings, e: Engine, o: Sighting, ctx: Context, order: seq<WindowId>)
    requires o.now == ctx.now && ctx.tombstones == Apply(settings, e, Observed(o)).tombstones
    requires NoDuplicates(order)
    ensures var seen := Apply(settings, e, Observed(o));
            var (actions, prospective) := Place(settings, seen.world, ctx, seen.world, order);
            Execute(settings, seen, actions).world == prospective
  {
    hide See, Place, Execute;
    var seen := Apply(settings, e, Observed(o));
    RuleAgreesWithExecution(settings, seen, ctx, order);
  }

  // ---------------------------------------------------------------- an expired tombstone

  /** A tombstone that restores its window brings the remembered tree back, whatever the preflight planned. */
  lemma TombstoneWins(settings: Settings, e: Engine, name: string, id: WindowId, beside: Option<WindowId>,
                             axis: Option<Axis>)
    requires Exists(e.world, name) && Home(e.world.workspaces, id) == |e.world.workspaces| && Restores(e, id, name)
    ensures var i := Named(e.world.workspaces, name);
            var r := Insert(settings, e, id, name, false, beside, axis).world;
            |r.workspaces| == |e.world.workspaces| && r.workspaces[i].tree == e.tombstones[id].tree
  {
    hide Survives, Home, Holds, Tiled;
  }

  /** For a window placed alone, plan and execution agree on the tree exactly when no tombstone restores it or
      the tombstone holds the planned tree. */
  lemma SinglePlacementAgreesIff(settings: Settings, e: Engine, name: string, id: WindowId)
    requires Exists(e.world, name) && Home(e.world.workspaces, id) == |e.world.workspaces|
    requires PlanInsertion(InsertionFor(settings, e.world, e.world.workspaces[Named(e.world.workspaces, name)], id, None, None)).Some?
    ensures var i := Named(e.world.workspaces, name);
            var plan := PlanInsertion(InsertionFor(settings, e.world, e.world.workspaces[i], id, None, None)).value;
            var r := Insert(settings, e, id, name, false, plan.beside, plan.axis).world;
            && |r.workspaces| == |e.world.workspaces|
            && (r.workspaces[i].tree == plan.tree <==> (Restores(e, id, name) ==> e.tombstones[id].tree == plan.tree))
  {
    hide PlanInsertion, InsertionFor, Insert, Restores, Home;
    var i := Named(e.world.workspaces, name);
    var plan := PlanInsertion(InsertionFor(settings, e.world, e.world.workspaces[i], id, None, None)).value;
    if Restores(e, id, name) {
      TombstoneWins(settings, e, name, id, plan.beside, plan.axis);
    } else {
      ExecutedInsertion(settings, e, name, id);
      RecordFocusedKeepsTrees(WithTree(e.world, i, plan.tree), e.world.focusIntent, i);
    }
  }

  lemma RecordFocusedKeepsTrees(w: World, id: Option<WindowId>, i: nat)
    requires i < |w.workspaces|
    ensures |RecordFocused(w, id).workspaces| == |w.workspaces| && RecordFocused(w, id).workspaces[i].tree == w.workspaces[i].tree
    ensures RecordFocused(w, id).workspaces[i].parked == w.workspaces[i].parked
  {
    hide Holds, Tiled;
  }

  // ---------------------------------------------------------------- exactly when the plan is executed

  predicate Expired(ctx: Context, id: WindowId) {
    id in ctx.tombstones && ctx.now - ctx.tombstones[id].at > REMEMBERED_FOR
  }

  /** The rule places the window in this workspace of its prospective world. */
  predicate Places(settings: Settings, w: World, ctx: Context, prospective: World, id: WindowId) {
    var target := PickWorkspace(w, ctx, id);
    && Eligible(w, ctx, id) && target.Some? && Exists(prospective, target.value)
    && var ws := prospective.workspaces[Named(prospective.workspaces, target.value)];
       InsertionDisplay(prospective, ws).Some? && PlanInsertion(InsertionFor(settings, prospective, ws, id, None, None)).Some?
  }

  /** Known from the rule's own pass, before anything is executed: the window it places has an expired tombstone of
      that very workspace, the tombstone's other tiles are the present ones, and it remembers another tree than the
      planned one, or a parked place. */
  predicate Overridden(settings: Settings, w: World, ctx: Context, prospective: World, id: WindowId) {
    && Places(settings, w, ctx, prospective, id) && Expired(ctx, id) && id in prospective.windows
    && var name := PickWorkspace(w, ctx, id).value;
       var ws := prospective.workspaces[Named(prospective.workspaces, name)];
       var t := ctx.tombstones[id];
       && t.workspace == name && Survives(t, id, ws.tree)
       && (t.tree != PlanInsertion(InsertionFor(settings, prospective, ws, id, None, None)).value.tree
           || ParkedAgain(ws, id, t.parked) != ws.parked)
  }

  predicate NoneOverridden(settings: Settings, w: World, ctx: Context, prospective: World, order: seq<WindowId>)
    decreases |order|
  {
    order != [] ==>
      && !Overridden(settings, w, ctx, prospective, order[0])
      && NoneOverridden(settings, w, ctx, PlaceOne(settings, w, ctx, prospective, order[0]).1, order[1..])
  }

  /** Executing the actions for one window after the other leads through exactly the worlds the rule foresaw. */
  predicate AgreesThroughout(settings: Settings, w: World, ctx: Context, e: Engine, order: seq<WindowId>)
    decreases |order|
  {
    order != [] ==>
      var (actions, next) := PlaceOne(settings, w, ctx, e.world, order[0]);
      var r := Execute(settings, e, actions);
      r.world == next && AgreesThroughout(settings, w, ctx, r, order[1..])
  }

  /** The executor remembers what the rule was told about the windows still to come. */
  ghost predicate Remembers(e: Engine, ctx: Context, order: seq<WindowId>) {
    forall k :: 0 <= k < |order| ==>
      (order[k] in e.tombstones <==> order[k] in ctx.tombstones)
      && (order[k] in ctx.tombstones ==> e.tombstones[order[k]] == ctx.tombstones[order[k]])
  }

  /** What restoring amounts to where the workspace exists. */
  lemma RestoredWorld(settings: Settings, e: Engine, name: string, id: WindowId, beside: Option<WindowId>, axis: Option<Axis>)
    requires Exists(e.world, name) && Home(e.world.workspaces, id) == |e.world.workspaces| && Restores(e, id, name)
    ensures var i := Named(e.world.workspaces, name);
            var ws := e.world.workspaces[i];
            Insert(settings, e, id, name, false, beside, axis)
            == Engine(RecordFocused(Put(e.world, i, ws.(tree := e.tombstones[id].tree,
                                                        parked := ParkedAgain(ws, id, e.tombstones[id].parked))),
                                    e.world.focusIntent), e.tombstones - {id})
  {
    hide Survives, Home, Holds, Tiled, RecordFocused, ParkedAgain;
  }

  /** Two edits of one workspace in its tree and parked frames come apart under the same focus record. */
  lemma EditsDiffer(w: World, i: nat, a: Workspace, b: Workspace, focus: Option<WindowId>)
    requires i < |w.workspaces|
    ensures RecordFocused(Put(w, i, a), focus) == RecordFocused(Put(w, i, b), focus) ==> a.tree == b.tree && a.parked == b.parked
  {
    hide RecordFocused;
    RecordFocusedKeepsTrees(Put(w, i, a), focus, i);
    RecordFocusedKeepsTrees(Put(w, i, b), focus, i);
  }

  lemma RestoresIffExpired(w: World, e: Engine, ctx: Context, id: WindowId, name: string)
    requires Eligible(w, ctx, id) && Exists(w, name) && Exists(e.world, name)
    requires id in e.tombstones <==> id in ctx.tombstones
    requires id in ctx.tombstones ==> e.tombstones[id] == ctx.tombstones[id]
    ensures Restores(e, id, name) <==>
            && Expired(ctx, id) && id in e.world.windows && ctx.tombstones[id].workspace == name
            && Survives(ctx.tombstones[id], id, e.world.workspaces[Named(e.world.workspaces, name)].tree)
    ensures Restores(e, id, name) ==> id in ctx.tombstones
  {
    hide Home, Survives;
  }

  lemma PlacedActions(settings: Settings, w: World, ctx: Context, e: Engine, id: WindowId)
    requires Places(settings, w, ctx, e.world, id)
    ensures var name := PickWorkspace(w, ctx, id).value;
            var i := Named(e.world.workspaces, name);
            var plan := PlanInsertion(InsertionFor(settings, e.world, e.world.workspaces[i], id, None, None)).value;
            var (actions, next) := PlaceOne(settings, w, ctx, e.world, id);
            && actions == [SetFrame(id, plan.frame), InsertWindow(id, name, plan.beside, plan.axis)]
            && next == RecordFocused(WithTree(e.world, i, plan.tree), e.world.focusIntent)
            && Execute(settings, e, actions) == Insert(settings, e, id, name, false, plan.beside, plan.axis)
  {
    hide PlanInsertion, InsertionFor, InsertionDisplay, RecordFocused, WithTree, Eligible, PickWorkspace, Insert;
    var actions := PlaceOne(settings, w, ctx, e.world, id).0;
    assert actions[1..] == [actions[1]] && [actions[1]][1..] == [];
    assert Execute(settings, e, actions) == Execute(settings, e, [actions[1]]);
    assert Execute(settings, e, [actions[1]]) == ExecuteOne(settings, e, actions[1]);
  }

  lemma UnplacedActions(settings: Settings, w: World, ctx: Context, e: Engine, id: WindowId)
    requires !Places(settings, w, ctx, e.world, id)
    ensures var (actions, next) := PlaceOne(settings, w, ctx, e.world, id);
            next == e.world && Execute(settings, e, actions) == e
  {
    hide PlanInsertion, InsertionFor, InsertionDisplay, RecordFocused, WithTree, Eligible, PickWorkspace, Insert;
    var actions := PlaceOne(settings, w, ctx, e.world, id).0;
    if |actions| == 1 {
      assert actions[1..] == [];
    }
  }

  /** One window is executed as planned exactly when it is not overridden. */
  lemma PlaceOneAgreesIff(settings: Settings, w: World, ctx: Context, e: Engine, id: WindowId)
    requires SameNames(w, e.world) && (Eligible(w, ctx, id) ==> Home(e.world.workspaces, id) == |e.world.workspaces|)
    requires id in e.tombstones <==> id in ctx.tombstones
    requires id in ctx.tombstones ==> e.tombstones[id] == ctx.tombstones[id]
    ensures var (actions, next) := PlaceOne(settings, w, ctx, e.world, id);
            var r := Execute(settings, e, actions);
            && (r.world == next <==> !Overridden(settings, w, ctx, e.world, id))
            && (r.tombstones == e.tombstones || r.tombstones == e.tombstones - {id})
  {
    hide PlanInsertion, InsertionFor, InsertionDisplay, RecordFocused, Eligible, PickWorkspace, Insert, Restores, Home, Survives,
      SameNames, ParkedAgain, PlaceOne, Execute, Exists, Expired;
    if !Places(settings, w, ctx, e.world, id) {
      UnplacedActions(settings, w, ctx, e, id);
    } else {
      PlacedActions(settings, w, ctx, e, id);
      var name := PickWorkspace(w, ctx, id).value;
      SameNamesSameExistence(w, e.world, name);
      RestoresIffExpired(w, e, ctx, id, name);
      var i := InRange(e.world, name);
      var ws := e.world.workspaces[i];
      var plan := PlanInsertion(InsertionFor(settings, e.world, ws, id, None, None)).value;
      if Restores(e, id, name) {
        RestoredWorld(settings, e, name, id, plan.beside, plan.axis);
        var restored := ws.(tree := e.tombstones[id].tree, parked := ParkedAgain(ws, id, e.tombstones[id].parked));
        EditsDiffer(e.world, i, restored, ws.(tree := plan.tree), e.world.focusIntent);
      } else {
        ExecutedInsertion(settings, e, name, id);
      }
    }
  }

  function InRange(w: World, name: string): (i: nat)
    requires Exists(w, name)
    ensures i == Named(w.workspaces, name) < |w.workspaces|
  {
    Named(w.workspaces, name)
  }

  lemma RemembersRest(e: Engine, r: Engine, ctx: Context, order: seq<WindowId>)
    requires order != [] && NoDuplicates(order) && Remembers(e, ctx, order)
    requires r.tombstones == e.tombstones || r.tombstones == e.tombstones - {order[0]}
    ensures Remembers(r, ctx, order[1..])
  {
    forall k | 0 <= k < |order[1..]|
      ensures (order[1..][k] in r.tombstones <==> order[1..][k] in ctx.tombstones)
      ensures order[1..][k] in ctx.tombstones ==> r.tombstones[order[1..][k]] == ctx.tombstones[order[1..][k]]
    {
      assert order[1..][k] == order[k + 1] && order[0] != order[k + 1];
    }
  }

  lemma {:induction false} AgreesIff(settings: Settings, w: World, ctx: Context, e: Engine, order: seq<WindowId>)
    requires SameNames(w, e.world) && Remembers(e, ctx, order)
    requires NoDuplicates(order) && Unplaced(w, ctx, e.world, order)
    ensures AgreesThroughout(settings, w, ctx, e, order) <==> NoneOverridden(settings, w, ctx, e.world, order)
    decreases |order|
  {
    hide SameNames, NoDuplicates, PlaceOne, Eligible, Homeless, Execute, Overridden, Remembers, Unplaced;
    if order != [] {
      var id := order[0];
      assert (id in e.tombstones <==> id in ctx.tombstones)
          && (id in ctx.tombstones ==> e.tombstones[id] == ctx.tombstones[id]) by { RemembersFirst(e, ctx, order); }
      var (actions, next) := PlaceOne(settings, w, ctx, e.world, id);
      var r := Execute(settings, e, actions);
      UnplacedAfter(settings, w, ctx, e.world, order);
      FirstIsUnplaced(w, ctx, e.world, order);
      PlaceOneAgreesIff(settings, w, ctx, e, id);
      RemembersRest(e, r, ctx, order);
      PlaceOneKeepsNames(settings, w, ctx, e.world, id);
      SameNamesChain(w, e.world, next);
      if r.world == next {
        AgreesIff(settings, w, ctx, r, order[1..]);
      }
    }
  }

  lemma RemembersFirst(e: Engine, ctx: Context, order: seq<WindowId>)
    requires order != [] && Remembers(e, ctx, order)
    ensures order[0] in e.tombstones <==> order[0] in ctx.tombstones
    ensures order[0] in ctx.tombstones ==> e.tombstones[order[0]] == ctx.tombstones[order[0]]
  {
  }

  /** Agreement throughout is agreement in the end. */
  lemma {:induction false} ThroughoutMeansInTheEnd(settings: Settings, w: World, ctx: Context, e: Engine, order: seq<WindowId>)
    requires AgreesThroughout(settings, w, ctx, e, order)
    ensures Execute(settings, e, Place(settings, w, ctx, e.world, order).0).world == Place(settings, w, ctx, e.world, order).1
    decreases |order|
  {
    hide PlaceOne, ExecuteOne;
    if order != [] {
      var (actions, next) := PlaceOne(settings, w, ctx, e.world, order[0]);
      ThroughoutMeansInTheEnd(settings, w, ctx, Execute(settings, e, actions), order[1..]);
      ExecuteAppend(settings, e, actions, Place(settings, w, ctx, next, order[1..]).0);
    }
  }

  /** The whole pass is executed as planned, window by window, if and only if the rule places no window with an
      expired tombstone of the same workspace that survives there and remembers something else. Then it ends in the
      prospective world. */
  lemma PlacementAgreesIff(settings: Settings, e: Engine, ctx: Context, order: seq<WindowId>)
    requires ctx.tombstones == e.tombstones && NoDuplicates(order)
    ensures AgreesThroughout(settings, e.world, ctx, e, order) <==> NoneOverridden(settings, e.world, ctx, e.world, order)
    ensures NoneOverridden(settings, e.world, ctx, e.world, order) ==>
              var (actions, prospective) := Place(settings, e.world, ctx, e.world, order);
              Execute(settings, e, actions).world == prospective
  {
    hide Home, AgreesThroughout, NoneOverridden, NoDuplicates, Place, Execute;
    forall k | 0 <= k < |order| && Eligible(e.world, ctx, order[k]) ensures Homeless(e.world, order[k]) {
      HomelessIffNoHome(e.world, order[k]);
    }
    AgreesIff(settings, e.world, ctx, e, order);
    if NoneOverridden(settings, e.world, ctx, e.world, order) {
      ThroughoutMeansInTheEnd(settings, e.world, ctx, e, order);
    }
  }

  // ---------------------------------------------------------------- a pass that is not executed as planned

  const SCREEN := Frame(0, 0, 1000, 800)
  const LEFT_HALF := Frame(0, 0, 500, 800)
  const RIGHT_HALF := Frame(500, 0, 500, 800)

  const PLAIN := Settings((name: string, display: Display) => SCREEN, (name: string, display: Option<DisplayId>) => 0, NO_BOUNDS)

  /** One workspace on one display, with one window in it. */
  const SHOWN := Workspace("1", BspMode, Leaf("b"), {}, Some("d"), None, None, map[], None, None)

  /** The window that left was the first of the two. */
  const FIRST_OF_TWO := Split(Vertical, 0.5, Leaf("a"), Leaf("b"))

  const RETURNED := Engine(World([Display("d", true)], map["a" := true, "b" := true], [SHOWN], Some("1"), None),
                           map["a" := Tombstone("1", false, FIRST_OF_TWO, None, 0)])

  /** Six minutes later the tombstone is past its time, but no observation has dropped it yet. */
  const LATE := Context({}, {}, {}, map[], RETURNED.tombstones, 360_000)

  const NEXT_TO_B := InsertionInput(Some(SCREEN), Leaf("b"), None, "a", 0, NO_BOUNDS, None, None)

  lemma Halves(first: WindowId, second: WindowId)
    requires first != second
    ensures Solve(Split(Vertical, 0.5, Leaf(first), Leaf(second)), SCREEN, 0, NO_BOUNDS)
            == Some(map[second := RIGHT_HALF, first := LEFT_HALF])
  {
    FreePartition(1000, 0, 0.5);
    assert Preferred(1000, 0.5) == 500;
    var node := Split(Vertical, 0.5, Leaf(first), Leaf(second));
    assert Halve(node, SCREEN, 0, NO_BOUNDS) == Lengths(500, 500, true);
    assert Solve(Leaf(first), LEFT_HALF, 0, NO_BOUNDS) == Some(map[first := LEFT_HALF]);
    assert Solve(Leaf(second), RIGHT_HALF, 0, NO_BOUNDS) == Some(map[second := RIGHT_HALF]);
    assert map[second := RIGHT_HALF] + map[first := LEFT_HALF] == map[second := RIGHT_HALF, first := LEFT_HALF];
  }

  lemma BesideB()
    ensures BesideOf(NEXT_TO_B) == "b" && Has(NEXT_TO_B.tree, "b") && !Has(NEXT_TO_B.tree, "a")
    ensures !IsEmptyTree(NEXT_TO_B.tree) && Distinct(NEXT_TO_B.tree)
    ensures Solve(NEXT_TO_B.tree, SCREEN, 0, NO_BOUNDS) == Some(map["b" := SCREEN])
  {
    assert TiledMembers(Leaf("b")) == ["b"];
  }

  lemma SharedWithB()
    ensures SharedAxis(NEXT_TO_B, map["b" := SCREEN], "b") == Some(Vertical)
    ensures Solve(Pair(Vertical, "b", "a"), SCREEN, 0, NO_BOUNDS) == Some(map["a" := RIGHT_HALF, "b" := LEFT_HALF])
  {
    hide Solve;
    Halves("b", "a");
    assert Pair(Vertical, "b", "a") == Split(Vertical, 0.5, Leaf("b"), Leaf("a"));
    assert AxisForFrame(SCREEN) == Vertical;
  }

  lemma PlannedToTheRight()
    ensures var plan := PlanInsertion(NEXT_TO_B);
            plan.Some? && plan.value.beside == Some("b") && plan.value.axis == Some(Vertical) && plan.value.frame == RIGHT_HALF
    ensures var plan := PlanInsertion(NEXT_TO_B).value;
            Solve(plan.tree, SCREEN, 0, NO_BOUNDS) == Some(map["a" := RIGHT_HALF, "b" := LEFT_HALF])
  {
    hide Solve, PlanInsertion, Distinct, Has, Bag, BesideOf, SharedAxis, Pair, IsEmptyTree, RemoveLeaf, AxisForFrame;
    BesideB();
    SharedWithB();
    var frames: Frames := map["b" := SCREEN];
    InsertionDisturbsOnlyItsPane(NEXT_TO_B, frames);
    assert frames + map["a" := RIGHT_HALF, "b" := LEFT_HALF] == map["a" := RIGHT_HALF, "b" := LEFT_HALF];
  }

  lemma NothingInTheWay()
    ensures Named(RETURNED.world.workspaces, "1") == 0 && Home(RETURNED.world.workspaces, "a") == 1
    ensures Eligible(RETURNED.world, LATE, "a") && Expired(LATE, "a")
    ensures PickWorkspace(RETURNED.world, LATE, "a") == Some("1")
    ensures InsertionDisplay(RETURNED.world, SHOWN) == Some(Display("d", true))
    ensures InsertionFor(PLAIN, RETURNED.world, SHOWN, "a", None, None) == NEXT_TO_B
  {
    assert !Holds(SHOWN, "a");
  }

  lemma TwoSurvive()
    ensures Survives(Tombstone("1", false, FIRST_OF_TWO, None, 0), "a", Leaf("b"))
    ensures Solve(FIRST_OF_TWO, SCREEN, 0, NO_BOUNDS) == Some(map["b" := RIGHT_HALF, "a" := LEFT_HALF])
  {
    hide Solve;
    assert TiledMembers(Leaf("b")) == ["b"];
    assert TiledMembers(FIRST_OF_TWO) == ["a", "b"];
    assert Others(["a", "b"], "a") == ["b"];
    Halves("a", "b");
  }

  lemma PassOfOne(settings: Settings, e: Engine, ctx: Context, id: WindowId)
    ensures var (actions, next) := PlaceOne(settings, e.world, ctx, e.world, id);
            Place(settings, e.world, ctx, e.world, [id]) == (actions, next)
  {
    hide PlaceOne;
    var (actions, next) := PlaceOne(settings, e.world, ctx, e.world, id);
    assert [id][1..] == [];
    assert Place(settings, e.world, ctx, next, []) == ([], next);
    assert actions + [] == actions;
  }

  /** The rule verifies the returning window in the right half and asks for it beside the other one; execution
      brings back the expired tombstone's tree, where its place is the left half. */
  lemma ExpiredTombstoneMisplaces()
    ensures RETURNED.tombstones == LATE.tombstones && Expired(LATE, "a")
    ensures var (actions, prospective) := Place(PLAIN, RETURNED.world, LATE, RETURNED.world, ["a"]);
            var r := Execute(PLAIN, RETURNED, actions).world;
            && actions == [SetFrame("a", RIGHT_HALF), InsertWindow("a", "1", Some("b"), Some(Vertical))]
            && |prospective.workspaces| == 1 && |r.workspaces| == 1
            && Solve(prospective.workspaces[0].tree, SCREEN, 0, NO_BOUNDS) == Some(map["a" := RIGHT_HALF, "b" := LEFT_HALF])
            && r.workspaces[0].tree == FIRST_OF_TWO
            && Solve(r.workspaces[0].tree, SCREEN, 0, NO_BOUNDS) == Some(map["b" := RIGHT_HALF, "a" := LEFT_HALF])
            && r != prospective
  {
    hide Solve, PlanInsertion, InsertionFor, InsertionDisplay, Survives, Home, Named, Insert, PlaceOne, Execute, Eligible,
      RecordFocused, PickWorkspace, EnsureWorkspace;
    NothingInTheWay();
    PlannedToTheRight();
    TwoSurvive();
    PassOfOne(PLAIN, RETURNED, LATE, "a");
    assert Places(PLAIN, RETURNED.world, LATE, RETURNED.world, "a");
    PlacedActions(PLAIN, RETURNED.world, LATE, RETURNED, "a");
    var plan := PlanInsertion(NEXT_TO_B).value;
    RecordFocusedKeepsTrees(WithTree(RETURNED.world, 0, plan.tree), None, 0);
    RestoresIffExpired(RETURNED.world, RETURNED, LATE, "a", "1");
    TombstoneWins(PLAIN, RETURNED, "1", "a", Some("b"), Some(Vertical));
    assert map["a" := RIGHT_HALF, "b" := LEFT_HALF]["a"] != map["b" := RIGHT_HALF, "a" := LEFT_HALF]["a"];
  }
}
