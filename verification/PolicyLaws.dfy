/** What the policies after the greedy one promise, in terms of lengths and places alone. */
module PolicyLaws {
  import opened Geometry
  import opened BspTree
  import opened Partition
  import opened Planner
  import opened Subtrees
  import opened Policies

  // ---------------------------------------------------------------- overlap: nearest lengths, nearest places

  /** No length within the bounds is nearer to the nominal one. */
  ghost predicate NearestLength(length: int, nominal: int, bounds: AxisBounds) {
    Within(length, bounds) && forall other :: Within(other, bounds) ==> Abs(length - nominal) <= Abs(other - nominal)
  }

  predicate LiesWithin(start: int, length: int, from: int, to: int) {
    from <= start && start + length <= to
  }

  /** It lies inside the content, and no other place that does is nearer to the nominal one. */
  ghost predicate NearestStart(start: int, length: int, nominal: int, from: int, to: int) {
    && LiesWithin(start, length, from, to)
    && forall other :: LiesWithin(other, length, from, to) ==> Abs(start - nominal) <= Abs(other - nominal)
  }

  ghost predicate NearestFrame(f: Frame, nominal: Frame, content: Frame, p: PaneBounds) {
    && NearestLength(f.width, nominal.width, p.width)
    && NearestLength(f.height, nominal.height, p.height)
    && NearestStart(f.x, f.width, nominal.x, content.x, content.x + content.width)
    && NearestStart(f.y, f.height, nominal.y, content.y, content.y + content.height)
  }

  /** A window can be shown inside the content at positive lengths nearest to the nominal ones. */
  ghost predicate CanBeShown(nominal: Frame, content: Frame, p: PaneBounds) {
    && (exists width :: NearestLength(width, nominal.width, p.width) && 0 < width <= content.width)
    && (exists height :: NearestLength(height, nominal.height, p.height) && 0 < height <= content.height)
  }

  lemma ClampIsNearest(nominal: int, bounds: AxisBounds)
    ensures Ordered(bounds) ==> NearestLength(Clamp(nominal, bounds), nominal, bounds)
    ensures forall length :: NearestLength(length, nominal, bounds) ==> Ordered(bounds) && length == Clamp(nominal, bounds)
  {
    forall length | NearestLength(length, nominal, bounds) ensures Ordered(bounds) && length == Clamp(nominal, bounds) {
      assert Within(length, bounds);
      assert Within(Clamp(nominal, bounds), bounds);
    }
  }

  lemma PlacedIsNearest(nominal: Frame, content: Frame, p: PaneBounds)
    ensures OverlapFrame(nominal, content, p).Some? <==> CanBeShown(nominal, content, p)
    ensures OverlapFrame(nominal, content, p).Some? ==> NearestFrame(OverlapFrame(nominal, content, p).value, nominal, content, p)
  {
    hide Clamp, NearestLength, NearestStart;
    ClampIsNearest(nominal.width, p.width);
    ClampIsNearest(nominal.height, p.height);
    var placed := OverlapFrame(nominal, content, p);
    if placed.Some? {
      PulledInIsNearest(placed.value.width, nominal.x, content.x, content.x + content.width);
      PulledInIsNearest(placed.value.height, nominal.y, content.y, content.y + content.height);
    }
  }

  lemma PulledInIsNearest(length: int, nominal: int, from: int, to: int)
    requires length <= to - from
    ensures NearestStart(Min(Max(nominal, from), to - length), length, nominal, from, to)
  {
  }

  /** The overlap policy takes the plan there would be without bounds and moves each frame no more than it must: every
      window has the length nearest to its nominal one that its bounds allow, at the place nearest to its nominal one
      that is inside the content. The plan exists exactly when every window can be shown like that. */
  lemma OverlapMovesNoMoreThanItMust(input: LayoutInput)
    ensures var gap := if input.gap.Some? then input.gap.value else 8;
            var nominal := Solve(input.tree, input.content, gap, NO_BOUNDS);
            var plan := PolicyPlan(OverlapPolicy, input);
            && (plan.Some? <==> nominal.Some? && forall id :: id in nominal.value ==>
                                  CanBeShown(nominal.value[id], input.content, input.resolve(id)))
            && (plan.Some? ==> forall id :: Has(input.tree, id) ==>
                  id in plan.value && id in nominal.value
                  && NearestFrame(plan.value[id], nominal.value[id], input.content, input.resolve(id)))
  {
    hide OverlapFrame, NearestFrame, CanBeShown, Solve, Has;
    var nominal := Solve(input.tree, input.content, input.Gap(), NO_BOUNDS);
    if nominal.Some? {
      forall id | id in nominal.value
        ensures OverlapFrame(nominal.value[id], input.content, input.resolve(id)).Some?
                <==> CanBeShown(nominal.value[id], input.content, input.resolve(id))
        ensures OverlapFrame(nominal.value[id], input.content, input.resolve(id)).Some? ==>
                  NearestFrame(OverlapFrame(nominal.value[id], input.content, input.resolve(id)).value,
                               nominal.value[id], input.content, input.resolve(id))
      {
        PlacedIsNearest(nominal.value[id], input.content, input.resolve(id));
      }
    }
  }

  lemma SuitingFrameStays(f: Frame, content: Frame, p: PaneBounds)
    requires Positive(f) && Inside(f, content) && FitsPane(f, p)
    ensures OverlapFrame(f, content, p) == Some(f)
  {
  }

  /** Windows that suit their nominal frames are not moved at all. */
  lemma SuitingPlanStays(input: LayoutInput, nominal: Frames)
    requires input.Gap() >= 0 && Solve(input.tree, input.content, input.Gap(), NO_BOUNDS) == Some(nominal)
    requires forall id :: Has(input.tree, id) ==> id in nominal && FitsPane(nominal[id], input.resolve(id))
    ensures PolicyPlan(OverlapPolicy, input) == Some(nominal)
  {
    hide OverlapFrame, Solve, Has, FitsPane;
    forall id | id in nominal ensures OverlapFrame(nominal[id], input.content, input.resolve(id)) == Some(nominal[id]) {
      SolvedFrameFits(input.tree, input.content, input.Gap(), NO_BOUNDS, id);
      SuitingFrameStays(nominal[id], input.content, input.resolve(id));
    }
    assert (map id | id in nominal :: OverlapFrame(nominal[id], input.content, input.resolve(id)).value) == nominal;
  }

  // ---------------------------------------------------------------- stack: everyone has it all

  /** The stack policy shows every window on the whole content, when no window needs more than that. */
  lemma StackIsWholeContent(input: LayoutInput)
    ensures var plan := PolicyPlan(StackPolicy, input);
            && (plan.Some? <==> forall id :: Has(input.tree, id) && id != EMPTY_LEAF ==>
                  var p := input.resolve(id);
                  && (p.width.min.Some? ==> p.width.min.value <= input.content.width)
                  && (p.height.min.Some? ==> p.height.min.value <= input.content.height))
            && (plan.Some? ==>
                  (forall id :: id in plan.value <==> Has(input.tree, id) && id != EMPTY_LEAF)
                  && forall id :: id in plan.value ==> plan.value[id] == input.content)
  {
    hide StackFits;
    forall id ensures StackFits(input.content, input.resolve(id)) <==>
        (var p := input.resolve(id);
         && (p.width.min.Some? ==> p.width.min.value <= input.content.width)
         && (p.height.min.Some? ==> p.height.min.value <= input.content.height))
    {
      StackFitsIs(input.content, input.resolve(id));
    }
  }

  lemma StackFitsIs(content: Frame, p: PaneBounds)
    ensures StackFits(content, p)
            <==> (p.width.min.Some? ==> p.width.min.value <= content.width)
                 && (p.height.min.Some? ==> p.height.min.value <= content.height)
  {
  }

  lemma ChainStep(input: LayoutInput, first: Policy, rest: seq<Policy>)
    ensures var frames := PolicyPlan(first, input);
            ChainPlan(input, [first] + rest) == if frames.Some? then Feasible(first, frames.value) else ChainPlan(input, rest)
  {
    assert ([first] + rest)[1..] == rest;
  }

  /** By default: the tiling, else windows pulled in over one another, else all of them stacked, else a layout that runs
      over the content's edge; nothing only if none of them works, or the content is empty. */
  lemma DefaultChainInOrder(input: LayoutInput)
    ensures var tiled, pulledIn := Solve(input.tree, input.content, input.Gap(), input.resolve), OverlapPlan(input);
            var stacked, over := StackPlan(input), OverflowPlan(input);
            PlanLayout(input, DEFAULT_CHAIN) ==
              if input.content.width <= 0 || input.content.height <= 0 then Infeasible
              else if tiled.Some? then Feasible(GreedyPolicy, tiled.value)
              else if pulledIn.Some? then Feasible(OverlapPolicy, pulledIn.value)
              else if stacked.Some? then Feasible(StackPolicy, stacked.value)
              else if over.Some? then Feasible(OverflowPolicy, over.value)
              else Infeasible
  {
    hide ChainPlan, Solve, OverlapPlan, StackPlan, OverflowPlan;
    ChainStep(input, GreedyPolicy, [OverlapPolicy, StackPolicy, OverflowPolicy]);
    ChainStep(input, OverlapPolicy, [StackPolicy, OverflowPolicy]);
    ChainStep(input, StackPolicy, [OverflowPolicy]);
    ChainStep(input, OverflowPolicy, []);
    assert DEFAULT_CHAIN == [GreedyPolicy] + [OverlapPolicy, StackPolicy, OverflowPolicy];
    assert [OverlapPolicy, StackPolicy, OverflowPolicy] == [OverlapPolicy] + [StackPolicy, OverflowPolicy];
    assert [StackPolicy, OverflowPolicy] == [StackPolicy] + [OverflowPolicy] && [OverflowPolicy] == [OverflowPolicy] + [];
    NothingTried(input);
  }

  lemma NothingTried(input: LayoutInput)
    ensures ChainPlan(input, []) == Infeasible
  {
  }
}
