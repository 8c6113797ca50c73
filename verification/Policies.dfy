/** The policy chain: greedy, then overlap, stack and overflow. */
module Policies {
  import opened Geometry
  import opened BspTree
  import opened Partition
  import opened Planner

  const DEFAULT_GAP := 8

  datatype Policy = GreedyPolicy | OverlapPolicy | StackPolicy | OverflowPolicy | RejectPolicy

  const DEFAULT_CHAIN: seq<Policy> := [GreedyPolicy, OverlapPolicy, StackPolicy, OverflowPolicy]

  datatype LayoutInput = LayoutInput(tree: Node, content: Frame, gap: Option<int>, resolve: Resolver) {
    function Gap(): int {
      if gap.Some? then gap.value else DEFAULT_GAP
    }
  }

  datatype LayoutPlan = Infeasible | Feasible(policy: Policy, frames: Frames)

  // ---------------------------------------------------------------- overlap

  /** A nominal frame grown or shrunk into its bounds, then pulled back inside the content. */
  function OverlapFrame(nominal: Frame, content: Frame, p: PaneBounds): (r: Option<Frame>)
    ensures r.Some? ==> Positive(r.value) && Inside(r.value, content) && FitsPane(r.value, p)
  {
    if !Ordered(p.width) || !Ordered(p.height) then None else
      var width := Clamp(nominal.width, p.width);
      var height := Clamp(nominal.height, p.height);
      if width <= 0 || height <= 0 || width > content.width || height > content.height then None
      else Some(Frame(Min(Max(nominal.x, content.x), content.x + content.width - width),
                      Min(Max(nominal.y, content.y), content.y + content.height - height),
                      width, height))
  }

  function OverlapPlan(input: LayoutInput): (r: Option<Frames>)
    ensures r.Some? ==> forall id :: id in r.value <==> Has(input.tree, id)
  {
    var nominal := Solve(input.tree, input.content, input.Gap(), NO_BOUNDS);
    if nominal.None? then None
    else if exists id :: id in nominal.value
                         && OverlapFrame(nominal.value[id], input.content, input.resolve(id)).None? then None
    else Some(map id | id in nominal.value ::
                OverlapFrame(nominal.value[id], input.content, input.resolve(id)).value)
  }

  method SolveGreedy(tree: Node, content: Frame, gap: int, resolve: Resolver) returns (r: Option<Frames>)
    requires Positive(content)
    ensures r == Solve(tree, content, gap, resolve)
  {
    var table := new FrameTable();
    var ok := table.AssignFrames(tree, content, gap, resolve);
    AssignIsSolve(tree, content, gap, resolve, map[]);
    if !ok {
      return None;
    }
    r := Some(table.frames);
    var plan := Solve(tree, content, gap, resolve).value;
    assert plan + map[] == plan;
  }

  method SolveOverlap(input: LayoutInput) returns (r: Option<Frames>)
    requires Positive(input.content)
    ensures r == OverlapPlan(input)
  {
    var nominal := SolveGreedy(input.tree, input.content, input.Gap(), NO_BOUNDS);
    if nominal.None? {
      return None;
    }
    var ids := MemberIds(input.tree);
    BagCountsLeaves(input.tree);
    r := PlaceAll(ids, nominal.value, input.content, input.resolve);
  }

  /** The in-order pass of the overlap policy over the nominal frames. */
  method PlaceAll(ids: seq<WindowId>, nominal: Frames, content: Frame, resolve: Resolver)
    returns (r: Option<Frames>)
    requires forall id :: id in ids <==> id in nominal
    ensures r.None? <==> exists id :: id in nominal && OverlapFrame(nominal[id], content, resolve(id)).None?
    ensures r.Some? ==> r.value == map id | id in nominal :: OverlapFrame(nominal[id], content, resolve(id)).value
  {
    var frames: Frames := map[];
    for i := 0 to |ids|
      invariant forall id :: id in frames <==> id in ids[..i]
      invariant forall id :: id in frames ==>
                  id in nominal && OverlapFrame(nominal[id], content, resolve(id)) == Some(frames[id])
    {
      var placed := OverlapFrame(nominal[ids[i]], content, resolve(ids[i]));
      if placed.None? {
        assert ids[i] in nominal;
        return None;
      }
      frames := frames[ids[i] := placed.value];
      assert ids[..i + 1] == ids[..i] + [ids[i]];
    }
    assert ids[..|ids|] == ids;
    r := Some(frames);
  }

  /** Overlap plans may cover one another but never leave the content or a window's bounds. */
  lemma OverlapStaysInside(input: LayoutInput, id: WindowId)
    requires OverlapPlan(input).Some? && Has(input.tree, id)
    ensures var f := OverlapPlan(input).value[id];
            Positive(f) && Inside(f, input.content) && FitsPane(f, input.resolve(id))
  {
    var nominal := Solve(input.tree, input.content, input.Gap(), NO_BOUNDS).value;
    assert id in nominal;
  }

  // ---------------------------------------------------------------- stack

  predicate StackFits(content: Frame, p: PaneBounds) {
    && (p.width.min.None? || content.width >= p.width.min.value)
    && (p.height.min.None? || content.height >= p.height.min.value)
  }

  function StackPlan(input: LayoutInput): Option<Frames> {
    var members := TiledMembers(input.tree);
    if exists id :: id in members && !StackFits(input.content, input.resolve(id)) then None
    else Some(map id | id in members :: input.content)
  }

  /** The first members all fit, and each of them has the content as its frame. */
  ghost predicate Stacked(input: LayoutInput, members: seq<WindowId>, frames: Frames) {
    && (forall id :: id in frames <==> id in members)
    && (forall id :: id in frames ==> frames[id] == input.content)
    && (forall id :: id in members ==> StackFits(input.content, input.resolve(id)))
  }

  lemma StackOneMore(input: LayoutInput, members: seq<WindowId>, frames: Frames, i: nat)
    requires i < |members| && Stacked(input, members[..i], frames) && StackFits(input.content, input.resolve(members[i]))
    ensures Stacked(input, members[..i + 1], frames[members[i] := input.content])
  {
    hide StackFits;
    assert members[..i + 1] == members[..i] + [members[i]];
  }

  lemma StackedIsPlan(input: LayoutInput, frames: Frames)
    requires Stacked(input, TiledMembers(input.tree), frames)
    ensures StackPlan(input) == Some(frames)
  {
    hide StackFits, TiledMembers;
    assert frames == (map id | id in TiledMembers(input.tree) :: input.content);
  }

  method SolveStack(input: LayoutInput) returns (r: Option<Frames>)
    ensures r == StackPlan(input)
  {
    hide StackFits, Stacked, TiledMembers;
    var members := TiledMembers(input.tree);
    var frames: Frames := map[];
    NothingStacked(input);
    assert members[..0] == [];
    for i := 0 to |members|
      invariant Stacked(input, members[..i], frames)
    {
      if !StackFits(input.content, input.resolve(members[i])) {
        assert members[i] in members;
        return None;
      }
      StackOneMore(input, members, frames, i);
      frames := frames[members[i] := input.content];
    }
    assert members[..|members|] == members;
    StackedIsPlan(input, frames);
    r := Some(frames);
  }

  lemma NothingStacked(input: LayoutInput)
    ensures Stacked(input, [], map[])
  {
  }

  // ---------------------------------------------------------------- overflow

  /** Widen the rectangle of a split to the least length its panes add up to. */
  function Grow(rect: Frame, node: Node, gap: int, resolve: Resolver): Frame
    requires node.Split?
  {
    var required := AggregateBounds(node, node.axis, gap, resolve).min;
    if required.Some? && Length(rect, node.axis) < required.value then Shrink(rect, node.axis, required.value)
    else rect
  }

  function Overflow(node: Node, rect: Frame, gap: int, resolve: Resolver, table: Frames): (bool, Frames) {
    match node
    case Leaf(id) =>
      if id in table then (true, table) else
        var p := resolve(id);
        var f := rect.(width := Clamp(rect.width, p.width), height := Clamp(rect.height, p.height));
        if Positive(f) && FitsPane(f, p) then (true, table[id := f]) else (false, table)
    case Split(axis, _, first, second) =>
      var expanded := Grow(rect, node, gap, resolve);
      var r := Halve(node, expanded, gap, resolve);
      if r.first <= 0 || r.second <= 0 then (false, table) else
        var (ok, filled) := Overflow(first, FirstRect(expanded, axis, r.first), gap, resolve, table);
        if !ok then (false, filled)
        else Overflow(second, SecondRect(expanded, axis, r.first, r.second, gap), gap, resolve, filled)
  }

  class OverflowTable {
    var frames: Frames

    constructor ()
      ensures frames == map[]
    {
      frames := map[];
    }

    method Walk(node: Node, rect: Frame, gap: int, resolve: Resolver) returns (ok: bool)
      modifies this
      ensures (ok, frames) == Overflow(node, rect, gap, resolve, old(frames))
      decreases node
    {
      match node
      case Leaf(id) =>
        if id in frames {
          return true;
        }
        var p := resolve(id);
        var f := rect.(width := Clamp(rect.width, p.width), height := Clamp(rect.height, p.height));
        if !Positive(f) || !FitsPane(f, p) {
          return false;
        }
        frames := frames[id := f];
        return true;
      case Split(axis, ratio, first, second) =>
        var expanded := Grow(rect, node, gap, resolve);
        var r := SolvePartition(Length(expanded, axis), gap, ratio,
                                AggregateBounds(first, axis, gap, resolve),
                                AggregateBounds(second, axis, gap, resolve));
        if r.first <= 0 || r.second <= 0 {
          return false;
        }
        ok := Walk(first, FirstRect(expanded, axis, r.first), gap, resolve);
        if ok {
          ok := Walk(second, SecondRect(expanded, axis, r.first, r.second, gap), gap, resolve);
        }
    }
  }

  function OverflowPlan(input: LayoutInput): Option<Frames> {
    var (ok, frames) := Overflow(input.tree, input.content, input.Gap(), input.resolve, map[]);
    if ok then Some(frames) else None
  }

  /** The overflow walk refines the greedy one: where greedy succeeds nothing has to grow, and
      both hand out the same frames. */
  lemma {:induction false} OverflowAgreesWithGreedy(node: Node, rect: Frame, gap: int, resolve: Resolver,
                                                    table: Frames)
    requires Solve(node, rect, gap, resolve).Some?
    ensures Overflow(node, rect, gap, resolve, table)
            == (true, Solve(node, rect, gap, resolve).value + table)
  {
    match node
    case Leaf(id) =>
      MergeOne(id, rect, table);
    case Split(axis, _, first, second) =>
      BoundsPropagate(node, rect, gap, resolve, axis);
      assert Grow(rect, node, gap, resolve) == rect;
      var r := Halve(node, rect, gap, resolve);
      var firstRect := FirstRect(rect, axis, r.first);
      var secondRect := SecondRect(rect, axis, r.first, r.second, gap);
      OverflowAgreesWithGreedy(first, firstRect, gap, resolve, table);
      var a := Solve(first, firstRect, gap, resolve).value;
      var b := Solve(second, secondRect, gap, resolve).value;
      OverflowAgreesWithGreedy(second, secondRect, gap, resolve, a + table);
      MergeAssociates(b, a, table);
  }

  /** Overflow plans give every window a positive frame within its own bounds. */
  lemma {:induction false} OverflowFits(node: Node, rect: Frame, gap: int, resolve: Resolver, table: Frames,
                                        id: WindowId)
    requires Overflow(node, rect, gap, resolve, table).0
    requires id in table ==> Positive(table[id]) && FitsPane(table[id], resolve(id))
    ensures var filled := Overflow(node, rect, gap, resolve, table).1;
            && (id in filled <==> id in table || Has(node, id))
            && (id in filled ==> Positive(filled[id]) && FitsPane(filled[id], resolve(id)))
  {
    match node
    case Leaf(_) =>
    case Split(axis, _, first, second) =>
      var expanded := Grow(rect, node, gap, resolve);
      var r := Halve(node, expanded, gap, resolve);
      var firstRect := FirstRect(expanded, axis, r.first);
      OverflowFits(first, firstRect, gap, resolve, table, id);
      var filled := Overflow(first, firstRect, gap, resolve, table).1;
      OverflowFits(second, SecondRect(expanded, axis, r.first, r.second, gap), gap, resolve, filled, id);
  }

  // ---------------------------------------------------------------- the chain

  function PolicyPlan(policy: Policy, input: LayoutInput): Option<Frames> {
    match policy
    case GreedyPolicy => Solve(input.tree, input.content, input.Gap(), input.resolve)
    case OverlapPolicy => OverlapPlan(input)
    case StackPolicy => StackPlan(input)
    case OverflowPolicy => OverflowPlan(input)
    case RejectPolicy => None
  }

  method TryPolicy(policy: Policy, input: LayoutInput) returns (r: Option<Frames>)
    requires Positive(input.content)
    ensures r == PolicyPlan(policy, input)
  {
    match policy
    case GreedyPolicy => r := SolveGreedy(input.tree, input.content, input.Gap(), input.resolve);
    case OverlapPolicy => r := SolveOverlap(input);
    case StackPolicy => r := SolveStack(input);
    case OverflowPolicy =>
      var table := new OverflowTable();
      var ok := table.Walk(input.tree, input.content, input.Gap(), input.resolve);
      r := if ok then Some(table.frames) else None;
    case RejectPolicy => r := None;
  }

  function ChainPlan(input: LayoutInput, policies: seq<Policy>): LayoutPlan {
    if policies == [] then Infeasible else
      var frames := PolicyPlan(policies[0], input);
      if frames.Some? then Feasible(policies[0], frames.value) else ChainPlan(input, policies[1..])
  }

  function PlanLayout(input: LayoutInput, policies: seq<Policy>): LayoutPlan {
    if Positive(input.content) then ChainPlan(input, policies) else Infeasible
  }

  method SolveLayout(input: LayoutInput, policies: seq<Policy>) returns (plan: LayoutPlan)
    ensures plan == PlanLayout(input, policies)
  {
    if !Positive(input.content) {
      return Infeasible;
    }
    for i := 0 to |policies|
      invariant ChainPlan(input, policies) == ChainPlan(input, policies[i..])
    {
      var frames := TryPolicy(policies[i], input);
      if frames.Some? {
        return Feasible(policies[i], frames.value);
      }
    }
    plan := Infeasible;
  }

  /** The chosen policy is the first of the chain that yields a plan. */
  lemma {:induction false} FirstPolicyWins(input: LayoutInput, policies: seq<Policy>)
    requires Positive(input.content)
    ensures match PlanLayout(input, policies)
            case Infeasible => forall i :: 0 <= i < |policies| ==> PolicyPlan(policies[i], input).None?
            case Feasible(policy, frames) =>
              exists i :: 0 <= i < |policies| && policies[i] == policy
                          && PolicyPlan(policies[i], input) == Some(frames)
                          && forall j :: 0 <= j < i ==> PolicyPlan(policies[j], input).None?
  {
    if policies != [] && PolicyPlan(policies[0], input).None? {
      var rest := policies[1..];
      FirstPolicyWins(input, rest);
      assert forall i :: 0 <= i < |rest| ==> rest[i] == policies[i + 1];
      match PlanLayout(input, policies)
      case Infeasible =>
      case Feasible(policy, frames) =>
        var i :| 0 <= i < |rest| && rest[i] == policy && PolicyPlan(rest[i], input) == Some(frames)
                 && forall j :: 0 <= j < i ==> PolicyPlan(rest[j], input).None?;
        assert policies[i + 1] == policy;
    }
  }

  /** The default chain is greedy exactly when the greedy plan exists. */
  lemma GreedyWhenItFits(input: LayoutInput)
    requires Positive(input.content)
    ensures var plan := PlanLayout(input, DEFAULT_CHAIN);
            var greedy := Solve(input.tree, input.content, input.Gap(), input.resolve);
            (plan.Feasible? && plan.policy == GreedyPolicy <==> greedy.Some?)
            && (greedy.Some? ==> plan == Feasible(GreedyPolicy, greedy.value))
  {
    FirstPolicyWins(input, DEFAULT_CHAIN);
    assert DEFAULT_CHAIN[0] == GreedyPolicy;
  }
}
