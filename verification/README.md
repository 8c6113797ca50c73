# Paneform layout, verified

A Dafny model of the window-management core of Paneform: the binary split trees that tile windows, the
planner that turns them into rectangles, the edits that insert, move and re-infer windows, and the state
machines around them (workspace membership, compound commands, the reconcile loop, the command queue, the
learned-constraint store and its file). Each module is named after the part of the program it models.

- **Trees and plans** (`Geometry`, `BspTree`, `Partition`, `Planner`, `GreedyCompleteness`, `Policies`, `PolicyLaws`,
  `OverflowLaws`, `Insertion`, `InsertionLaws`): the two-pane solve, the greedy plan, its exact tiling and the tilings
  it misses, where each fallback policy puts every window, whose pane a new window shares, and insertion that disturbs
  only the pane it splits.
- **Geometric moves** (`Subtrees`, `GeometricMove`, `GeometricMoveProofs`, `GeometricEdgeProofs`,
  `GeometricMoveTheorems`, `MisrotationCases`, `GeometricMoveLoops`, `SwapTheorems`, `RunBounds`, `SwapInTree`,
  `ForwardTargets`, `MoveBack`, `MoveTargets`, `MoveLanding`, `GridMoves`, `GridOfFour`, `EdgeTargets`, `EdgeMoves`):
  every branch of the directional move over arbitrary observed frames, what it heads for and where it lands, the one
  branch that loses windows, and moving back.
- **Inference** (`InitialLayout`, `InferLaws`, `InferRoundTrip`, `InferTheorems`, `InferGapCase`, `InitialWorkspaces`):
  trees from rectangles, where they divide, when that undoes planning, and the world a described layout gives.
- **Membership** (`Membership`, `MembershipInvariant`, `TombstoneReturns`, `MembershipMoves`,
  `DisplayExclusivity`, `FocusLaws`, `StepLaws`, `EveryStepLaws`, `EngineMembership`, `StartupAdmission`, `AssignRule`,
  `PlacementLaws`, `RestoreCycle`): who belongs where in every reachable world, what every step makes of every field,
  one workspace per display, where new windows go, and when the placement rule's preflight agrees with execution, alone
  and next to the restoring rule.
- **Protocols** (`CompoundCommands`, `ReconcileLoop`, `TransactionSteps`, `TransactionQueue`, `PumpLoss`):
  commit or rollback against an adapter that may answer anything, the reconcile scheduler in any
  interleaving, and the serialized queue with coalescing, recovery, compensation and lost pumps.
- **Learned constraints** (`Learning`, `LearningLaws`, `ObservationStore`, `StorageLimits`, `MergeChanges`, `ObservationFile`,
  `ObservationCommits`, `ObservationDirectory`): evidence and promotion, storage round trips and limits, three-way
  merge, and the lock and revision protocol between processes.
- **Small cores** (`CommandSyntax`, `CommandGrammar`, `Parking`): quoting, tokenizing and the language it reads, and the
  parking search from bisection over rounding to the verified visibility.

Lengths, gaps and bounds are integers and ratios are reals. A set of distinct window ids makes equality of
subtrees coincide with the program's identity of nodes. Adapters, stores, clocks and file systems are
adversaries: scripts of answers nobody constrains, or events that may come in any order. Code between two
suspension points is one step.

## Where the program falls short of its promise

These are properties that fail, each with the exact condition and a concrete or general witness:

- A directional move at the leading edge takes an index of -1 when the paired panes split along the run
  (`MisrotationCases.DriftedMoveLosesWindows`); planner-made frames with wide enough panes rule it out.
- A two-pane solve can fail although a split with two positive panes exists
  (`Partition.ThinRatioStarvesAPane`).
- With a positive gap, inference misplaces windows when a strip of another width is the most balanced cut
  (`InferGapCase.NarrowStripMisplacesWindows`).
- The greedy plan can miss a tiling, because across a split a maximum that only one side has is dropped
  (`GreedyCompleteness.DroppedMaximumMissesATiling`, exactly when: `GreedyFindsIff`).
- The overflow policy can put one pane on another where, at some divider, one side's aggregated minimum is above
  its aggregated maximum (`OverflowLaws.ContradictionsOverlap`; where none is, `OverflowKeepsDistance`).
- Focusing a name that has no workspace, with no display connected and the focused workspace still
  remembering one, puts two workspaces on that display (`DisplayExclusivity.BlindFocusDoubles`); nothing else
  the program does breaks one workspace per display (`StartedRunIsExclusiveIff`).
- A tombstone that is past its time when the placement rule runs overrides what the rule planned
  (`AssignRule.ExpiredTombstoneMisplaces`, exactly when: `PlacementAgreesIff`). Observations drop such
  tombstones, but the rule reads the clock again.
- The placement rule plans as if nothing came back in the same cycle; it foresees exactly the workspaces into
  which nothing is restored (`RestoreCycle.CycleAgreesIff`).
- A bound learned across its opposite makes the whole learned store unwritable
  (`ObservationStore.CrossedBoundsCannotBeStored`, exactly which updates do: `StorageLimits.UpdateKeepsStorableIff`).
- A pump that is interrupted or dies inside an entry leaves that entry's submitter waiting for ever, and
  possibly other entries without a pump (`PumpLoss.StallsIff`, `PumpLoss.LostPumpStrandsWaiters`).
- A nested submission that coalesces with a waiting entry waits for itself until the deadline
  (`TransactionQueue.NestedJoinCanStall`).
- A rerun wanted while no cycle runs waits for the next request (`ReconcileLoop.RerunIsTakenUpIff`).
- A slow load quarantines outside the lock and can discard another process's commit
  (`ObservationCommits.SlowLoadLosesACommit`), and a save turned away is told success when the last
  commit happened to write its document (`ObservationCommits.TurnedAwayAnswerIsLastCommit`).

## Model

| member | source | states |
|---|---|---|
| BspTree.MemberIds | packages/layout/src/layout/bsp.ts:50-66 | The loop over the leaves yields every window id once, in order of first appearance. |
| BspTree.RemoveLeafConserves | packages/layout/src/layout/bsp.ts:98-106 | Removing a window takes exactly that window out and leaves all others, once each. |
| BspTree.RemoveUndoesInsert | packages/layout/src/layout/bsp.ts:74-106 | Removing a window that was just inserted gives back the very tree, ratios included. |
| BspTree.InsertKeepsDistinct | packages/layout/src/layout/bsp.ts:74-96 | Inserting a new window leaves every window with exactly one pane. |
| BspTree.SwapLeavesInvolution | packages/layout/src/layout/bsp.ts:118-128 | Swapping two windows twice restores the tree; dividers never move. |
| BspTree.MoveLeafConserves | packages/layout/src/layout/bsp.ts:136-226 | A directional leaf move neither loses nor repeats a window. With more than two panes the moved one lands beside its target on the side the direction names; two panes come to lie along the direction, the moved one on that side unless it was there already, when the two change places. |
| Partition.SolvePartition | packages/layout/src/layout/bsp.ts:337-365 | The clamping loop computes the two-pane solve. |
| Partition.PartitionIsNearestAdmissible | packages/layout/src/layout/bsp.ts:337-365 | The two lengths fill the space; both panes are within bounds if and only if some split is, and then the divider is as near to its preferred place as any admissible split; feasible if and only if moreover neither pane is empty. |
| Partition.SettlesInOneRound | packages/layout/src/layout/bsp.ts:346-355 | The four-round loop is at its fixed point after one round: the preferred divider clamped to the interval both panes allow. |
| Partition.AdmissiblePreferenceIsKept | packages/layout/src/layout/bsp.ts:337-365 | A divider that suits both panes stays where it is preferred. |
| Partition.ThinRatioStarvesAPane | packages/layout/src/layout/bsp.ts:356-363 | A case where a split with two positive panes exists and the solve still fails, because a thin ratio floors the first pane to nothing. |
| Partition.RatioForLengthIsExact | packages/layout/src/layout/bsp.ts:20-25 | A length stored as a ratio is read back as the same length. |
| Planner.FrameTable.AssignFrames | packages/layout/src/layout/bsp.ts:397-432 | The in-place solve, half-finished failures included, leaves the table its specification says. |
| Planner.AssignIsSolve | packages/layout/src/layout/bsp.ts:397-432 | On distinct windows the in-place solve succeeds exactly when the recursive plan exists and then fills in exactly that plan. |
| Planner.BoundsPropagate | packages/layout/src/layout/bsp.ts:281-312 | If a rectangle can be planned, its length is within the aggregated bounds of the tree on both axes. |
| GreedyCompleteness.TileableIff | packages/layout/src/layout/bsp.ts:281-312 | A tree can be tiled in a rectangle at all if and only if nothing in it contradicts itself and the rectangle is within its exact bounds on both axes. |
| GreedyCompleteness.GreedyFindsIff | packages/layout/src/layout/bsp.ts:281-424 | The greedy solve finds a tiling if and only if there is one and no divider it chooses on its way down leaves a side a length that side cannot take. |
| GreedyCompleteness.GreedyIsComplete | packages/layout/src/layout/bsp.ts:281-424 | Where every window has positive minimums and maxima across each split come in pairs or not at all, the greedy solve finds a tiling if and only if there is one. |
| GreedyCompleteness.DroppedMaximumMissesATiling | packages/layout/src/layout/bsp.ts:303-312 | A layout it misses, because a stack drops the maximum only one of its windows has. |
| Planner.SolvedFrameFits | packages/layout/src/layout/bsp.ts:397-432 | Every window of a greedy plan has a positive frame inside the content and within its own bounds. |
| Planner.SolvedFramesSeparate | packages/layout/src/layout/bsp.ts:397-432 | Any two windows of a greedy plan are at least the gap apart on some axis. |
| Planner.SolvedTilesExactly | packages/layout/src/layout/bsp.ts:397-432 | Every point of the content lies in exactly one window frame or gap strip and no outside point in any; the areas add up to the content's. |
| Planner.PaneAt | packages/layout/src/layout/bsp.ts:397-432 | The tiles spoken of by the tiling theorem are the planned frames of the leaves, in order. |
| Policies.SolveOverlap | packages/layout/src/layout/bsp.ts:461-501 | The overlap policy's passes compute its specification, whose frames PolicyLaws.OverlapMovesNoMoreThanItMust describes. |
| Policies.PlaceAll | packages/layout/src/layout/bsp.ts:466-500 | The overlap pass fails if and only if some window cannot be placed; otherwise it places each window independently of the others. |
| Policies.OverlapStaysInside | packages/layout/src/layout/bsp.ts:461-501 | Overlap plans never leave the content or a window's bounds. |
| Policies.SolveStack | packages/layout/src/layout/bsp.ts:443-459 | The stack policy's loop computes its specification. |
| Policies.OverflowTable.Walk | packages/layout/src/layout/bsp.ts:519-551 | The growing walk fills the table its specification says. |
| Policies.OverflowAgreesWithGreedy | packages/layout/src/layout/bsp.ts:503-553 | Where the greedy plan exists the overflow policy hands out the same frames. |
| Policies.OverflowFits | packages/layout/src/layout/bsp.ts:503-553 | Overflow plans cover exactly the tree's windows with positive frames within their bounds. |
| Policies.SolveLayout | packages/layout/src/layout/bsp.ts:581-593 | The loop over the policy chain computes the chain's plan. |
| Policies.FirstPolicyWins | packages/layout/src/layout/bsp.ts:581-593 | The chosen policy is the first in the chain that yields a plan; infeasible means none does. |
| Policies.GreedyWhenItFits | packages/layout/src/layout/bsp.ts:581-593 | The default chain is greedy if and only if the greedy plan exists. |
| PolicyLaws.DefaultChainInOrder | packages/layout/src/layout/bsp.ts:581-593 | By default the tiling is taken, else the overlap plan, else the stack, else the overflow plan; nothing only where none exists or the content is empty. |
| PolicyLaws.OverlapMovesNoMoreThanItMust | packages/layout/src/layout/bsp.ts:461-501 | Every window of the overlap plan has the length nearest to its nominal one within its bounds, at the start nearest to its nominal one inside the content; the plan exists if and only if there is a nominal plan and every window can be shown like that. |
| PolicyLaws.SuitingPlanStays | packages/layout/src/layout/bsp.ts:461-501 | Where every nominal frame suits its window the overlap plan is the nominal plan. |
| PolicyLaws.StackIsWholeContent | packages/layout/src/layout/bsp.ts:443-459 | The stack shows every window on the whole content, and exists if and only if no minimum exceeds the content. |
| OverflowLaws.OverflowExistsIff | packages/layout/src/layout/bsp.ts:503-553 | For windows that all have positive minimums the overflow plan exists, however small the content, if and only if no window's bounds contradict themselves. |
| OverflowLaws.OverflowKeepsDistance | packages/layout/src/layout/bsp.ts:503-553 | Overflowing panes keep at least the gap from one another and leave the content only at its far edges, by no more than the aggregated minimums need, where the windows of no divider's side contradict each other. |
| OverflowLaws.ContradictionsOverlap | packages/layout/src/layout/bsp.ts:503-553 | Where they do, panes can overlap: a wide window beside a capped one reaches into the next column. |
| Insertion.SubtreeLengthIsRectLength | packages/layout/src/insertion-frame.ts:130-144 | The length read off a plan's frames is the length of the rectangle that was planned, on either axis. |
| Insertion.RetainedPlanUnchanged | packages/layout/src/insertion-frame.ts:103-128 | Rewriting the dividers on the path to a window leaves every planned frame as it was. |
| Insertion.InsertedPlanIsLocal | packages/layout/src/insertion-frame.ts:76-93 | If the target's own frame can be shared, the whole tree can be planned with the new window: the two share the target's frame and every other frame is unchanged. |
| Insertion.InsertionDisturbsOnlyItsPane | packages/layout/src/insertion-frame.ts:41-101 | For a greedily laid out workspace whose target pane can be shared, the planner returns exactly that local plan on the first axis that works, and closing the new window later restores every frame. |
| Insertion.ConfirmedPlanIsThePlan | packages/layout/src/insertion-frame.ts:54-101 | Planning again with the neighbour and axis a plan settled on gives that same plan, whichever branch it came from. |
| InsertionLaws.InsertionJoinsTheNeighbour | packages/layout/src/insertion-frame.ts:54-101 | Whichever branch the plan comes from, the new window shares, half and half and right behind it, the pane of the window asked for if that is a tile; with none asked for, of the remembered one if that is a tile; else of the first. Nothing else moves in the tree's order, an axis asked for is the one used, and the promised frame is the one the new tree gives. |
| InsertionLaws.FirstWindowHasTheTree | packages/layout/src/insertion-frame.ts:47-52 | The first window of an empty workspace becomes its whole tree, exactly when the default layout shows it. |
| InsertionLaws.InsertionSplitsTheLongerSide | packages/layout/src/insertion-frame.ts:73-93 | In a greedy layout, with no axis asked for, the divider goes across the neighbour's longer side, or the other where that cannot be shared; the neighbour keeps the first half of its frame, the new window gets the second, and no other frame changes. |
| GeometricMoveTheorems.MoveGeometricallyConservesIff | packages/layout/src/layout/geometric-move.ts:560-574 | For arbitrary observed frames a move keeps the windows, with multiplicity, if and only if it does not take the rotation whose ancestor splits along the run. |
| GeometricMoveTheorems.MoveAtEdgeConserves | packages/layout/src/layout/geometric-move.ts:526-558 | The same for moves at the outer edge: conservation fails in exactly one branch. |
| MisrotationCases.PlannedMoveConserves | packages/layout/src/layout/geometric-move.ts:560-574 | On planner-made frames with panes wider than the border tolerance every move conserves windows. |
| MisrotationCases.DriftedMoveLosesWindows | packages/layout/src/layout/geometric-move.ts:485-524 | Three windows whose frames drifted, and a move that loses one of them. |
| GeometricEdgeProofs.RotateConserves | packages/layout/src/layout/geometric-move.ts:485-524 | The rotation of an outer pair conserves windows when the pair splits across the run. |
| GeometricMoveTheorems.RotateLosesAPane | packages/layout/src/layout/geometric-move.ts:507-522 | When the pair splits along the run the splice at position -1 changes the windows. |
| GeometricMoveProofs.SwapAlongAxisConserves | packages/layout/src/layout/geometric-move.ts:165-203 | Refilling a run with two panes swapped conserves windows. |
| GeometricEdgeProofs.SwapAlignedConserves | packages/layout/src/layout/geometric-move.ts:227-270 | Re-slicing displaced regions conserves windows, including when slicing or the plan check fails. |
| GeometricEdgeProofs.MoveDirectConserves | packages/layout/src/layout/geometric-move.ts:272-324 | Every branch of the direct move conserves windows. |
| GeometricMoveProofs.MoveDiagonalConserves | packages/layout/src/layout/geometric-move.ts:326-341 | The diagonal move conserves windows. |
| GeometricEdgeProofs.RemoveForEdgeConserves | packages/layout/src/layout/geometric-move.ts:375-399 | Taking the moved window out while keeping lengths removes exactly it. |
| GeometricEdgeProofs.EdgePairConserves | packages/layout/src/layout/geometric-move.ts:401-428 | Pairing at the edge conserves the ancestor's windows; where it puts them is EdgeMoves.EdgeMoveLands. |
| GeometricEdgeProofs.PairAdjacentConserves | packages/layout/src/layout/geometric-move.ts:430-467 | Merging two adjacent panes of a run conserves windows. |
| GeometricMoveLoops.RegionList.Collect | packages/layout/src/layout/geometric-move.ts:54-79 | Pushing regions while recursing yields the specified list and reports whether the whole subtree is visible. |
| GeometricMoveLoops.PaneCursor.Refill | packages/layout/src/layout/geometric-move.ts:183-201 | Refilling by an advancing index uses exactly the panes of its run, in order. |
| GeometricMoveLoops.SliceRegions | packages/layout/src/layout/geometric-move.ts:205-225 | The slicing recursion with its advancing border computes the specification. |
| GeometricMoveLoops.SliceOrdered | packages/layout/src/layout/geometric-move.ts:212-222 | The scan for a border no region crosses finds the first usable one. |
| SwapTheorems.SwapCarriesLengths | packages/layout/src/layout/geometric-move.ts:165-203 | Re-planning a swapped run succeeds in the same rectangle, every pane keeps its length in its new place, and swapping again restores every frame. |
| RunBounds.ExchangedRunIsInterchangeable | packages/layout/src/layout/bsp.ts:281-312 | Exchanging two panes of a planned run changes the bounds aggregated for it at most in a minimum that does not bind, though minimums add up differently in another order when some pane has none. |
| SwapInTree.ReplacePlansInPlace | packages/layout/src/layout/bsp.ts:281-424 | A pane exchanged, in place, for one with the same windows and the same bounds where they bind: every divider around it stays and all other windows keep their frames. |
| SwapInTree.SwapIsUndoneBySwap | packages/layout/src/layout/geometric-move.ts:165-203 | The same inside a whole tree, whatever the windows are constrained to: windows outside the run keep their frames and the same swap twice restores all of them. |
| SwapInTree.SwapAlongAxisIsSwapped | packages/layout/src/layout/geometric-move.ts:165-203 | On planner-made frames the move code's swap is the swap these theorems speak of. |
| ForwardTargets.TargetIsNearest | packages/layout/src/layout/geometric-move.ts:121-149 | As soon as some pane lies ahead there is a target; it lies ahead itself, and no pane ahead is better placed. |
| MoveTargets.TargetIsHeadedFor | packages/layout/src/layout/geometric-move.ts:114-152 | The window a move heads for is ahead on screen, facing before not facing, then nearer, then more nearly in line, then earlier in the layout; there is none if and only if nothing lies ahead. |
| MoveLanding.RunMoveLands | packages/layout/src/layout/geometric-move.ts:165-203 | Toward a facing window of the same run: the run's panes are as before but for the two, which have changed places. |
| GridMoves.GridMoveLands | packages/layout/src/layout/geometric-move.ts:227-270 | Toward a facing window in line with it but not in its run: nothing changes, or the pane that holds both is laid out anew with the two exchanged and everyone else in it where they were, within two points. |
| GridOfFour.GridMoveGoesThrough | packages/layout/src/layout/geometric-move.ts:227-270 | In a grid of two columns of any sizes it does go through: the grid comes to be in rows, and planned again exactly the two in the moved one's row have changed places. |
| MoveLanding.CarriedMoveLands | packages/layout/src/layout/geometric-move.ts:313-316 | Toward a facing window not in line, from a pair across the move: the moved window takes its divider along and pairs up with the other, in that one's place, on the side it had. |
| EdgeMoves.CarriedMoveLandsOnItsSide | packages/layout/src/layout/geometric-move.ts:313-316 | So the result has a divider on that pair's axis with the moved window on the side it had and the target on the other. |
| MoveLanding.TradedMoveLands | packages/layout/src/layout/geometric-move.ts:317-322 | From a pair along the move to one across it: as if the two changed places and the pair the moved one came into was turned round; a pair it is in already stays. |
| EdgeMoves.TradedMoveLandsOnItsSide | packages/layout/src/layout/geometric-move.ts:317-322 | So the moved window lies beside the target's old partner, on that partner's old side. |
| MoveLanding.StuckMoveStays | packages/layout/src/layout/geometric-move.ts:302-324 | Both in pairs along the move but in different runs: nothing changes. |
| EdgeMoves.DiagonalMoveLandsOnItsSide | packages/layout/src/layout/geometric-move.ts:326-341 | Toward a window that does not face it: a half-and-half pair across the move in the target's place, the moved window on the side it came from. |
| EdgeTargets.RankedFirstMatchesBest | packages/layout/src/layout/geometric-move.ts:343-373 | At the outer edge the best match is the pane at that edge, not behind another, nearest to the moved window in area; there is a tie if and only if the second is nearly as good. |
| EdgeMoves.EdgeMoveLands | packages/layout/src/layout/geometric-move.ts:401-558 | With nothing ahead: with no pane to match nothing changes; with a tie the moved window takes half of everything on the side the direction names and the rest close up, in proportion, in the other half; else the result divides along the move with the moved window on the side the direction names and the best match on the other. |
| EdgeMoves.EdgeMoveLandsOnItsSide | packages/layout/src/layout/geometric-move.ts:526-558 | Planned again, the moved window lies wholly on that side of every window it was matched with, at least a gap away. |
| MoveLanding.UnseenStays | packages/layout/src/layout/geometric-move.ts:560-574 | A layout not completely seen, or a window alone or not in it, stays as it is. |
| MoveBack.TargetIsNeighbour | packages/layout/src/layout/geometric-move.ts:121-149 | In such a layout the pane a swapping move heads for is the very next one of the run, on the side the direction names. |
| MoveBack.MoveIsUndoneByMovingBack | packages/layout/src/layout/geometric-move.ts:272-324 | On a planned layout, whatever its windows are constrained to, all of them longer than the border tolerance along the move: whenever the move takes the branch that exchanges two panes of a run, the move in the opposite direction on the new plan's frames takes it too, and every window is where it was. |
| InitialLayout.FindSeparatingPartition | packages/layout/src/initial-layout.ts:50-78 | The candidate loops find the specified cut. |
| InitialLayout.ScanCuts | packages/layout/src/initial-layout.ts:54-73 | The border scan along one axis collects every cut no window crosses. |
| InitialLayout.InferenceKeepsWindows | packages/layout/src/initial-layout.ts:101-142 | Inference ends and puts every window into the tree exactly as often as it was given, for arbitrary rectangles; where it divides them is stated in InferLaws. |
| InferLaws.UnseparatedWindowsDivideByCenters | packages/layout/src/initial-layout.ts:80-99 | Where no line runs between the windows the root divides, in equal halves of space, along the axis their centers spread furthest on, upright on a tie; no center of the first half lies beyond one of the second, level ones being ordered across and then by name, and the first half has as many windows or one more; each half is inferred likewise in its part. |
| InferLaws.SeparatedWindowsDivideByLine | packages/layout/src/initial-layout.ts:50-142 | Where a line does, for windows with area, the root divides along the one that divides the windows most evenly, the first of those, upright before level; the divider's center stays midway between the two sides, in proportion for windows outside the content, as far as each side keeps a point. |
| InferLaws.StringLessIff | packages/layout/src/initial-layout.ts:29 | Names are compared character by character, a prefix first. |
| InferRoundTrip.ThroughCutClips | packages/layout/src/initial-layout.ts:50-78 | Either side of a cut through a slicing plan is again a slicing plan holding that side's rooms. |
| InferTheorems.InferUndoesPlanIff | packages/layout/src/initial-layout.ts:101-142 | From the frames of a plan, in any order, inference finds a tree that plans back to the same frames if and only if every cut it accepts is exactly the gap wide. |
| InferTheorems.GaplessInferUndoesPlan | packages/layout/src/initial-layout.ts:101-142 | Without gaps inference undoes every plan. |
| InferGapCase.NarrowStripMisplacesWindows | packages/layout/src/initial-layout.ts:50-142 | A plan with gaps that inference does not restore, because a narrower strip is the most balanced cut. |
| InitialWorkspaces.Resolve | packages/layout/src/initial-layout.ts:144-200 | The gathering loops reject a description with its first problem or resolve every workspace it mentions, in order of mention. |
| InitialWorkspaces.GatherWindows | packages/layout/src/initial-layout.ts:153-166 | The loop over windows reports the first duplicate or unknown window, otherwise collects each workspace's tiled and floating members. |
| InitialWorkspaces.GatherDisplays | packages/layout/src/initial-layout.ts:168-183 | The loop over displays reports the first duplicate, unknown or doubly used display, otherwise who is shown where. |
| InitialWorkspaces.AcceptedIff | packages/layout/src/initial-layout.ts:144-188 | A description is accepted if and only if windows and displays are known and named once, no workspace is on two displays, and the focused workspace is mentioned. |
| InitialWorkspaces.AdoptedWorldIsWellFormed | packages/layout/src/engine.ts:4826-4853 | The world adopted from an accepted description is well formed and shows one workspace per display. |
| EngineMembership.MembershipState.DoFloat | packages/layout/src/engine.ts:702-709 | Floating a tiled window moves it, in place, as specified and keeps the invariant. |
| EngineMembership.MembershipState.DoTile | packages/layout/src/engine.ts:711-717 | Tiling a floating window moves it, in place, as specified and keeps the invariant. |
| EngineMembership.MembershipState.DoRemove | packages/layout/src/engine.ts:719-736 | Removing a window leaves its tombstone, drops the expired ones, and keeps the invariant. |
| EngineMembership.MembershipState.PruneExpired | packages/layout/src/engine.ts:733-735 | The deletion loop keeps exactly the tombstones within their time. |
| EngineMembership.MembershipState.InsertWindow | packages/layout/src/engine.ts:1102-1158 | Inserting a window: a window with a home is left alone, a fitting tombstone brings its tree back, else it floats or is tiled; the invariant is kept. |
| EngineMembership.MembershipState.RevealWorkspace | packages/layout/src/engine.ts:1015-1037 | Revealing parks and hides the display's occupant first and shows nothing when parking fails. |
| MembershipInvariant.RemovalSound | packages/layout/src/engine.ts:667-685 | After a removal a workspace holds everything but the window, and no focus memory or parked frame names it. |
| MembershipInvariant.InsertedTreeAddsOne | packages/layout/src/engine.ts:1731-1771 | Whatever geometry allows, the inserted tree holds the old windows and the new one once. |
| MembershipInvariant.RestoreSound | packages/layout/src/engine.ts:1109-1138 | Bringing a tombstone's tree back adds the lost window and changes no other membership. |
| MembershipInvariant.StepKeepsMembership | packages/layout/src/engine.ts:1102-1178 | Every membership step keeps the invariant: a window in at most one workspace, as one tile or floating but not both; the sentinel only a lone root; focus memories and parked frames name members. |
| MembershipInvariant.RunKeepsMembership | packages/layout/src/engine.ts:1731-1850 | The same over every run from any world that satisfies it. |
| MembershipInvariant.ReachableWorldsAreWellFormed | packages/layout/src/engine.ts:667-736 | Every world reachable from start-up, admission of the windows already open among the steps, is well formed, provided no move takes the one rotation that loses a pane. |
| DisplayExclusivity.StepKeepsExclusiveIff | packages/layout/src/engine.ts:1015-1037 | Of all steps with any arguments, emitted by the program or not, exactly three break one workspace per display: inserting into a workspace that does not exist, a direct reveal of one whose parking fails, and focusing one with no display connected, each only when the new workspace's display is taken. |
| DisplayExclusivity.EnsureExclusiveIff | packages/layout/src/engine.ts:1705-1723 | Creating a workspace on demand keeps exclusivity if and only if the display it appears on is free. |
| DisplayExclusivity.FocusedWorkspaceCrowds | packages/layout/src/engine.ts:1707-1715 | While the focused workspace remembers a display, a workspace created on demand would share it. |
| DisplayExclusivity.RevealedIsExclusive | packages/layout/src/engine.ts:1819-1850 | After a reveal every display shows one workspace, even if the revealed one shared its display before. |
| DisplayExclusivity.RevealShowsExactly | packages/layout/src/engine.ts:1819-1850 | A reveal shows the workspace on its display, the former occupant nowhere, and changes nothing else of any workspace. |
| FocusLaws.FocusShowsWhereItBelongs | packages/layout/src/engine.ts:4113-4137 | A focused workspace shown on a connected display stays there, and then nothing changes but which one is focused; otherwise it is shown where it is pinned if connected, else where it prefers if connected, else on the first primary display, else the first, and what was there steps aside; without displays everyone stays. |
| DisplayExclusivity.EmittedStepKeepsExclusiveIff | packages/layout/src/rules/restore-membership.ts:22-44 | Among the steps the program takes, whose rules look their workspace up first, only one breaks one workspace per display: focusing a name that has no workspace while no display is connected and the focused workspace still remembers one. |
| DisplayExclusivity.ProgramRunIsExclusiveIff | packages/layout/src/engine.ts:1015-1037 | A run of the program from any well-formed world with one workspace per display keeps it throughout if and only if no step is such a focus. |
| DisplayExclusivity.StartedRunIsExclusiveIff | packages/layout/src/engine.ts:4089-4160 | A run from start-up keeps one workspace per display throughout if and only if no step is such a focus; which display a focus shows a workspace on is FocusLaws.FocusShowsWhereItBelongs. |
| InitialWorkspaces.AdoptedRunIsExclusiveIff | packages/layout/src/engine.ts:4826-4853 | The same for every run from a world adopted from an accepted description. |
| StartupAdmission.GroupWindows | packages/layout/src/engine.ts:4603-4623 | The grouping loop puts every window that can be arranged into its workspace's group, in order of first mention. |
| StartupAdmission.AdmissionsAreEmitted | packages/layout/src/engine.ts:4625-4798 | The admissions of one look at the open windows are all steps the invariant allows: nobody is admitted twice, and no admission names a window that has a home. |
| StartupAdmission.StartupIsEmitted | packages/layout/src/engine.ts:4591-4798 | Starting up over whatever windows are open, however they lie and whatever becomes of moving them, is a run of allowed steps. |
| StartupAdmission.StartedWorldsAreSound | packages/layout/src/engine.ts:4591-4798 | Every world the program reaches after that is well formed, and it has one workspace per display throughout if and only if no later step is a blind focus. |
| DisplayExclusivity.PlannedPassIsEmitted | packages/layout/src/rules/assign-new-windows.ts:65-70 | Workspaces are never deleted, so every action of a rule pass still finds the workspace it was planned for, whatever steps come between. |
| DisplayExclusivity.BlindFocusDoubles | packages/layout/src/engine.ts:4130-4139 | A run from start-up that ends with two workspaces on one display: it is seen and shown on, it goes away, and a new name is focused. |
| MembershipMoves.StepMovesExactly | packages/layout/src/engine.ts:1731-1850 | After every step every window is exactly where the step should have put it: only the named window moves, to the named workspace, tiled or floating as intended. |
| MembershipMoves.FocusIsRemembered | packages/layout/src/world.ts:115-126 | Focusing a normal member updates its workspace's focus memory, the tiled one only for a tile of a tiling workspace; dialogs and unassigned windows change nothing. |
| EveryStepLaws.StepMakesExactly | packages/layout/src/engine.ts:667-1178 | What every membership step makes of every field of every workspace, of the focus and of the tombstones: trees closing up and joining, floating members, parked places, focus memories, modes, pins and displays; everything it does not name stays. |
| TombstoneReturns.ReturnRestoresWorkspace | packages/layout/src/engine.ts:719-736 | A tiled window that leaves and is reported again brings back the very tree and its parked frame; nothing else differs but focus memory. |
| AssignRule.Run | packages/layout/src/rules/assign-new-windows.ts:47-111 | The rule's loop emits the specified actions and reaches the specified prospective world. |
| PlacementLaws.RunPlacesWhereTheyBelong | packages/layout/src/rules/assign-new-windows.ts:47-137 | Each observed window that is neither kept out, placed already nor about to be restored goes to the workspace its affinity names, else the focused one if it exists, else 1 if that exists and nothing is shown; there it is planned beside the focused tile on the display the workspace belongs on, its frame asked for before its insertion; where no display or no feasible plan is found that is reported, and all others are left alone. |
| AssignRule.RuleAgreesWithExecution | packages/layout/src/rules/assign-new-windows.ts:47-111 | With constraints fixed and no expired tombstone left, executing the rule's own actions on the real world yields the prospective world, for any number of new windows. |
| AssignRule.ObservedThenPlannedAgrees | packages/layout/src/engine.ts:1376-1378 | Run at the very time of an observation, which drops expired tombstones, the rule's plan is what executing its actions makes of it. |
| AssignRule.ConfirmedInsertion | packages/layout/src/engine.ts:1731-1771 | The executor, asked for the neighbour and axis the preflight chose, builds the preflight's tree. |
| AssignRule.SinglePlacementAgreesIff | packages/layout/src/engine.ts:1107-1141 | For one window, plan and execution agree on the tree if and only if no tombstone restores it or the tombstone holds the planned tree. |
| AssignRule.PlacementAgreesIff | packages/layout/src/rules/assign-new-windows.ts:47-111 | Window after window, execution goes through exactly the worlds the rule foresaw, and so ends in the one it foresaw, if and only if the rule places no window whose tombstone is past its time, is of the same workspace, has the present tiles as its survivors, and remembers another tree than the planned one or a parked place. |
| AssignRule.ExpiredTombstoneMisplaces | packages/layout/src/engine.ts:1107-1138 | A concrete pass with a six-minute-old tombstone: the rule verifies the window in the right half and asks for it there, execution brings back a tree whose place for it is the left half. |
| RestoreCycle.RunRestore | packages/layout/src/rules/restore-membership.ts:22-44 | The restoring rule's loop asks for every remembered window that is seen, has no home and whose workspace exists. |
| PlacementLaws.LostWindowsAreAskedFor | packages/layout/src/rules/restore-membership.ts:22-44 | Exactly the remembered windows that are seen again, in no workspace, and whose workspace exists are asked for, in order, floating as they were and beside their anchor. |
| RestoreCycle.CycleAgreesIff | packages/layout/src/engine.ts:1200-1213 | Both rules plan over the same world and what comes back is executed first: afterwards a workspace is exactly as the placing rule foresaw if and only if nothing was restored into it. |
| RestoreCycle.ObservedCycleAgreesIff | packages/layout/src/engine.ts:1370-1413 | The same for every cycle that starts with an observation, from any well-formed engine. |
| CompoundCommands.CompoundEngine.Capture | packages/layout/src/engine.ts:2128-2155 | Capture reads every tracked window once, in order, and writes nothing; it ends early exactly where a window cannot be read. |
| CompoundCommands.CompoundEngine.Accept | packages/layout/src/engine.ts:2480-2690 | A write of the batch that settled is accepted without another call; one that was refused is not; any other is tried exactly once more, a window that went to its parking place has the place it settled at as its parked one, and what an accepted write taught is believed from then on. |
| CompoundCommands.CompoundEngine.RestoreOne | packages/layout/src/engine.ts:2074-2102 | A captured window counts as restored if and only if its last answer shows the same identity within tolerance; it is read first, and written, once, if and only if it is the same window out of place. |
| CompoundCommands.CompoundEngine.RestoreAll | packages/layout/src/engine.ts:2073-2103 | The compensation pass is complete if and only if every captured window was read back in its place; every write is guarded by the captured identity. |
| CompoundCommands.CompoundEngine.Rollback | packages/layout/src/engine.ts:2063-2106 | Rollback restores what was learned and either reads every captured window back or degrades health; without fallbacks it degrades health only then. |
| CompoundCommands.CompoundEngine.PersistLearning | packages/layout/src/engine.ts:450-539 | At most four saves; each offers what is held by then, a conflict is followed by fetching the other document and merging it three ways under the local changes, a busy store by the same offer; it succeeds exactly when the last call stored the document, and then what is believed is what the store holds; it gives up only after the fourth offer, a failed save or an unreadable document. |
| CompoundCommands.CompoundEngine.RetryPolicies | packages/layout/src/engine.ts:2270-2385 | Every fallback plans, with the next policy, from what the attempt before left with all captured windows read again; one that succeeds has its own plan's draft, every write settled, was read back last and met every target. It gives up only when a window is gone or unknown, an answer cuts it short, or every fallback there is was tried and fell short: no plan, a write that did not settle, or a window off its target. |
| CompoundCommands.CompoundEngine.ApplyPlan | packages/layout/src/engine.ts:2388-2770 | Batch, acceptance and fallback either reach a draft that some attempt planned, on the way from the given reducer's draft, and that was verified, or give up for a reason the answers show: a window gone or unknown, an interruption, a first attempt with a write given up or a target missed and then no fallback left, or a focus not obtained, each with its code. A command with a focus of its own asks for it once, under the captured identity; only if it was obtained is the draft reached, and then it means that window and its workspace remembers it. |
| CompoundCommands.CompoundEngine.Tentative | packages/layout/src/engine.ts:2175-2787 | A reached draft is what the attempts made of the reducer's draft on the current world with freshly listed windows, verified and saved; a command with nothing to do is told apart exactly and does nothing; one that is neither was turned away, gave up or could not be saved, each for a stated reason and with its code. |
| CompoundCommands.CompoundEngine.Execute | packages/layout/src/engine.ts:2111-2815 | A commit installs, one epoch on, the verified draft its attempts made of the reducer's on the current world, and publishes the reducer's events; otherwise trees, membership, visibility, parked intent and epoch are unchanged, every captured window is read back within tolerance with its identity or health is degraded, and the failure and its code are explained: a tracked window could not be read, the command was turned away, its windows or focus could not be had, or learning could not be saved. Every write was planned by an attempt or puts a captured window back; only fallbacks write to windows that were not captured. |
| CompoundCommands.CommitHasTheReducersLayout | packages/layout/src/engine.ts:2747-2770 | With a planner that only finds places, whatever failed on the way, a commit has the trees, members, visibility and focus the reducer decided on; a command that focuses a captured window of its own leaves focus intent and focus memory as focusing that window in the reducer's layout does. |
| ReconcileLoop.NothingIsLost | packages/layout/src/engine.ts:1595-1649 | In every interleaving a pending cycle has a running loop while not stopping, every completion is pending, in flight or settled and only one of these, and until shutdown every reported removal is pending, in flight or in a cycle that succeeded. |
| ReconcileLoop.SettledOnce | packages/layout/src/engine.ts:1619-1624 | A completion is settled once; its result stands whatever happens later. |
| ReconcileLoop.PendingCycleSettles | packages/layout/src/engine.ts:1602-1649 | The loop's own next steps settle a pending completion, and a success reconciles every removal reported so far. |
| ReconcileLoop.ShutdownSettlesEverything | packages/layout/src/engine.ts:5022-5041 | Stopping, interrupting and closing leave no completion unsettled. |
| ReconcileLoop.RerunIsTakenUpIff | packages/layout/src/engine.ts:1621-1624 | The flag for another run is acted on by the loop itself if and only if a cycle is in flight or pending; otherwise it waits for the next request. |
| ReconcileLoop.FailureWaitsForNextRequest | packages/layout/src/engine.ts:1618-1625 | A failed cycle keeps its removals and starts no new cycle by itself. |
| ReconcileLoop.Scheduler.RequestReconcile | packages/layout/src/engine.ts:1637-1647 | Requesters share the pending completion; none is handed out once stopping. |
| ReconcileLoop.Scheduler.EnterLoop | packages/layout/src/engine.ts:1604-1608 | The loop takes the pending completion and batch, or leaves and clears its flag in one step. |
| ReconcileLoop.Scheduler.FinishCycle | packages/layout/src/engine.ts:1618-1625 | A cycle's end merges a failed batch back, settles its completion and takes up a wanted rerun. |
| ReconcileLoop.Scheduler.WindowRemoved | packages/layout/src/engine.ts:4981-4990 | A removal event joins the pending batch and requests a cycle. |
| ReconcileLoop.Scheduler.Stop | packages/layout/src/engine.ts:5022-5041 | Stopping settles every completion ever handed out. |
| TransactionSteps.RunSteps | packages/layout/src/transactions.ts:99-145 | The step loop with its list of compensations and reverse pass ends in the state of the nested specification; the receipt names exactly the steps that succeeded. |
| TransactionSteps.RunStopsAtTheFirstRefusal | packages/layout/src/transactions.ts:99-145 | A run goes on until a step refuses, fails with what that step said, or as unexpected where it said nothing, and is unwound from what that step left, the latest compensation first; without a refusal it ends where the steps lead. |
| TransactionSteps.FailedUnitRestoresState | packages/layout/src/transactions.ts:106-131 | A failed unit whose compensations invert their steps leaves the state where it began. |
| TransactionSteps.UncompensatedStepSurvives | packages/layout/src/transactions.ts:124-134 | In a unit of any length, a failure after an applied step without compensation unwinds the steps before it from the state that step made; where the others are undoable and their compensations injective, the start is restored if and only if that step changed nothing. |
| TransactionSteps.InternalMessagesStayInside | packages/layout/src/transactions.ts:106-131 | Units that differ only in what their internal failures say leave the same state and the same receipt, wherever in the run they fail. |
| TransactionSteps.BatchRunsUnitsInOrder | packages/layout/src/transactions.ts:283-286 | A batch stops on the same first failure as its units run one after another, and on success ends in the same state. |
| TransactionSteps.BatchIsAllOrNothing | packages/layout/src/transactions.ts:265-292 | A failing batch also undoes the units that had completed before the failing one. |
| TransactionQueue.EveryRunIsSafe | packages/layout/src/transactions.ts:207-263 | Over every run in which the pump is not lost: at most 256 pending or running, entries leave in the order accepted, a waiting entry outside recovery has a pump, at most one entry waits per key, every ticket is waiting, running, inline or settled, and history is the newest 512 receipts in order. |
| PumpLoss.EveryLossyRunIsSound | packages/layout/src/transactions.ts:189-225 | Over every run in which pumps may be interrupted or die inside an entry any number of times, all of that holds but the pump for waiting entries, every ticket being in one place more: lost. |
| PumpLoss.StallsIff | packages/layout/src/transactions.ts:207-225 | The queue comes to wait without a pump exactly when one is lost while other entries wait outside recovery. |
| PumpLoss.StallEndsIff | packages/layout/src/transactions.ts:227-298 | It is set going again exactly by a submission whose key does not wait, a batch, or a switch of recovery, with the oldest entry; equivalent submissions join the stall. |
| PumpLoss.LostIsNeverSettled | packages/layout/src/transactions.ts:189-205 | Whatever happens later, the submitter of an entry whose pump was lost is never answered. |
| PumpLoss.LostPumpStrandsWaiters | packages/layout/src/transactions.ts:207-255 | A reachable run that strands a waiting entry, and an equivalent submission that only joins it. |
| PumpLoss.LossyReceiptsStand | packages/layout/src/transactions.ts:200-205 | Settled deferreds keep their receipts in these runs, too. |
| TransactionQueue.OneAtATime | packages/layout/src/transactions.ts:207-225 | An entry is taken only when nothing runs or the running one's receipt arrives, and then it is the oldest. |
| TransactionQueue.ReceiptsStand | packages/layout/src/transactions.ts:200-205 | A settled deferred keeps its receipt for ever. |
| TransactionQueue.CoalescedSubmittersShare | packages/layout/src/transactions.ts:245-255 | A submission whose key is waiting changes nothing and waits on the very deferred of the submitter that put it there. |
| TransactionQueue.QueueFullOnlyInRecovery | packages/layout/src/transactions.ts:227-235 | A submission is refused if and only if recovery has built a full backlog with no running entry and no equivalent one. |
| TransactionQueue.BacklogDrains | packages/layout/src/transactions.ts:207-225 | Outside recovery as many receipts as entries empty the queue, and the k-th receipt answers the k-th entry. |
| TransactionQueue.NestedSubmissionProgress | packages/layout/src/transactions.ts:247-260 | A submission from inside a running entry can be answered before that entry ends if and only if no waiting entry has its key. |
| TransactionQueue.NestedJoinCanStall | packages/layout/src/transactions.ts:247-254 | A reachable state in which such a submission waits for an entry that waits for it. |
| TransactionQueue.EscalatesIff | packages/layout/src/transactions.ts:193-199 | An entry escalates as it is taken if and only if its key was counted three times since it last escalated; then counting starts over. |
| TransactionQueue.Queue.SubmitUnit | packages/layout/src/transactions.ts:245-263 | Submission joins, runs inline or enqueues as specified, in place, keeping the invariant. |
| TransactionQueue.Queue.SubmitUnits | packages/layout/src/transactions.ts:265-292 | Batches over 64 are invalid, empty ones complete at once without touching the queue, others enter as one unit. |
| TransactionQueue.Queue.Complete | packages/layout/src/transactions.ts:189-225 | A finished entry is recorded and answered before the loop takes the next. |
| TransactionQueue.Queue.CompleteInline | packages/layout/src/transactions.ts:182-187 | A nested unit's receipt is recorded and answered at once; the queue and the running entry stay as they are. |
| TransactionQueue.Queue.SwitchRecovery | packages/layout/src/transactions.ts:295-298 | Leaving recovery starts the pump. |
| TransactionQueue.Queue.RecordHistory | packages/layout/src/transactions.ts:92-97 | The history keeps the newest receipts up to its limit. |
| Learning.FeedBuckets | packages/layout/src/learn.ts:258-279 | The loop over candidates fills, thins or promotes each bucket as specified. |
| Learning.PromotionOnlyTightens | packages/layout/src/learn.ts:175-207 | Promotion never loosens or drops a learned bound, whatever the evidence. |
| Learning.ContradictionsAreResolved | packages/layout/src/learn.ts:329-388 | After an exact observation no contradicted bound is left standing. |
| Learning.ReachableIsFiled | packages/layout/src/learn.ts:250-417 | Every store reachable from empty by the four updates files each profile under its own key string and holds fewer samples per bucket than a promotion takes. |
| LearningLaws.CandidatesAreJudgedInTurn | packages/layout/src/learn.ts:258-279 | Candidates are judged one after another: three or more samples of a bound that agree within a point promote it and are spent, otherwise the latest two wait for a third; other bounds are untouched. |
| LearningLaws.RecordingPromotes | packages/layout/src/learn.ts:250-302 | Each promotion counts three samples and tightens its bound to the tightest of what was known and promoted; confidence follows the count; other keys, cooperation and corrections stay. |
| LearningLaws.ExactSizeReplacesWhatItContradicts | packages/layout/src/learn.ts:329-388 | An exact size replaces exactly the bounds it contradicts, empties their waiting samples, and counts one sample for each. |
| LearningLaws.VerifiedReplaces | packages/layout/src/learn.ts:304-323 | Verified limits replace all four bounds at once, are strong, and leave waiting samples alone. |
| LearningLaws.CooperationIsNoted | packages/layout/src/learn.ts:390-417 | Corrective attempts are counted and mark the window cooperative; anything else is left as it was. |
| ObservationStore.DecodeDocument | packages/layout/src/observation-store.ts:136-191 | The validating loops accept or reject a document as specified, naming the first fault. |
| ObservationStore.KeyRoundTrip | packages/layout/src/observation-store.ts:193-221 | A valid key is recovered from its NUL-joined string. |
| ObservationStore.KeyStringInjective | packages/layout/src/learn.ts:113-116 | Different valid keys have different strings. |
| ObservationStore.LoadLearning | packages/layout/src/observation-store.ts:247-260 | The filing loops rebuild the specified store. |
| ObservationStore.StoreRoundTrip | packages/layout/src/observation-store.ts:223-260 | A well-filed store whose numbers fit the schema is written and read back unchanged, in whatever order its entries are written. |
| ObservationStore.WrittenIffStorable | packages/layout/src/observation-store.ts:223-245 | A well-filed store can be written, in whatever order, if and only if its numbers are within the document's limits and its bounds in order. |
| ObservationStore.LearningSurvivesStorageIff | packages/layout/src/observation-store.ts:223-260 | What was learned through valid keys can be stored if and only if that holds of it, and then it is read back unchanged. |
| StorageLimits.UpdateKeepsStorableIff | packages/layout/src/learn.ts:250-417 | For each of the four updates with numbers within the limits: a storable store stays storable if and only if, before the update, there is room for what it adds, its counters stay exact, and no minimum it establishes is above a maximum that stands or that it establishes. |
| StorageLimits.StaysStorableIff | packages/layout/src/observation-store.ts:223-260 | Over a whole run: learning can be stored at every moment if and only if every update was admissible in that sense when it came. |
| StorageLimits.AdmissibleLearningSurvives | packages/layout/src/observation-store.ts:223-260 | After updates admissible at their turn the store is written, in any order of its entries, and read back unchanged. |
| ObservationStore.CrossedBoundsCannotBeStored | packages/layout/src/learn.ts:250-302 | A minimum learned above a maximum learned later crosses the bounds of one profile, and the whole store can no longer be written. |
| MergeChanges.MergeProfiles | packages/layout/src/observation-store.ts:322-345 | The merging loop over changed profiles computes, key by key, the three-way merge. |
| MergeChanges.UnchangedYieldsRemote | packages/layout/src/observation-store.ts:322-367 | With no local change the merge is the remote store. |
| MergeChanges.UnchangedRemoteYieldsLocal | packages/layout/src/observation-store.ts:322-367 | With no remote change the merge is the local store. |
| MergeChanges.MergedConstraintsLaws | packages/layout/src/observation-store.ts:265-290 | Local changes survive; bounds left alone follow the remote unless that would cross a local change; ordered local bounds never merge into crossed ones. |
| MergeChanges.MergeKeepsStoreSound | packages/layout/src/observation-store.ts:322-367 | Merging well-filed stores with ordered bounds gives one again. |
| ObservationFile.MutualExclusion | apps/wm/src/observation-file.ts:150-231 | Under every interleaving, crash, refused removal, orphan reclaim and operator clean-up at most one process is in the critical section, and the lock is its own. |
| ObservationCommits.NoLostUpdates | apps/wm/src/observation-file.ts:104-148 | Undamaged, the commits form a chain in which each replaced the revision it expected, and a save told it was committed is in it. |
| ObservationCommits.StepKeepsChecksIff | apps/wm/src/observation-file.ts:124-131 | A passed revision check stands until exactly an unguarded change of the file while someone has checked. |
| ObservationCommits.StepKeepsChainIff | apps/wm/src/observation-file.ts:88-102 | The chain goes on with every step except exactly moving a file that is there into quarantine, or damage. |
| ObservationCommits.SlowLoadLosesACommit | apps/wm/src/observation-file.ts:247-263 | A run in which a slow load quarantines another process's committed document and a later save does not replace it. |
| ObservationCommits.TurnedAwayAnswerIsLastCommit | apps/wm/src/observation-file.ts:281-300 | In every undamaged run a save turned away by a conflict or a busy lock is told success if and only if the last commit, by whichever process, wrote its document, or nothing was committed and the file held it from the start; it commits nothing itself. |
| ObservationCommits.UncontendedSaveCommits | apps/wm/src/observation-file.ts:266-281 | A save nobody contends with commits when the file is at the revision it expects. |
| ObservationDirectory.Directory.Acquire | apps/wm/src/observation-file.ts:154-203 | Taking the lock, call by call: held and identified, or refused as busy or by an I/O error; an orphan of this process is reclaimed once. |
| ObservationDirectory.Directory.WriteAtomically | apps/wm/src/observation-file.ts:104-148 | The file changes exactly when the result says written, and then it held the expected revision. |
| ObservationDirectory.Directory.Save | apps/wm/src/observation-file.ts:266-303 | A whole save commits what it reports and is always a run of the interleaved protocol. |
| CommandSyntax.Tokenize | packages/layout/src/command-syntax.ts:451-492 | The index loop computes the tokenizer's specification, errors included. |
| CommandSyntax.TokenizeUndoesQuote | packages/layout/src/command-syntax.ts:447-492 | Tokenizing the space-joined quoted tokens returns the list, for every list of strings. |
| CommandGrammar.TokenizeReadsTheGrammar | packages/layout/src/command-syntax.ts:451-492 | A text is accepted if and only if it can be spelled as blanks, plain characters, escapes and quoted stretches, and gives the words their unbroken runs make; it is rejected if and only if such a spelling breaks off at a line end, a shell character, an open quote or a last backslash, and for that. |
| CommandSyntax.QuotingIsInjective | packages/layout/src/command-syntax.ts:447-450 | Different lists of strings never quote to the same text. |
| Parking.ParkedSliver | packages/layout/src/parking.ts:51-69 | A parked window shows exactly the asked-for sliver of itself on its display at every corner, and that visibility is read back from its frame. |
| Parking.VerifyWithNudge | packages/layout/src/parking.ts:531-558 | The nested nudging loops return the first granted attempt in their order, or none when none within four points is granted. |
| Parking.SettleVisibility | packages/layout/src/parking.ts:488-558 | From limits at most a point below their thresholds rounding and nudging always succeed, with an accepted visibility that is the rounded limit or less than a point above the threshold on either axis. |
| Parking.DiscoverLimits | packages/layout/src/parking.ts:385-509 | Against a window manager that keeps some least part visible along each axis, clamping, both searches (the second holding the first one's rounded limit), rounding and nudging always settle on a granted visibility less than a point above that least on either axis, whatever the probes of one axis make of the other. |
| Parking.RoundingUndercuts | packages/layout/src/parking.ts:207-215 | At a right-hand corner rounding alone can fall below the threshold. |
| Parking.SearchAxisLimit | packages/layout/src/parking.ts:291-328 | The bisection never ends above its start, and on something accepted unless it ends at its start; from a rejected and an accepted end within the display's extent it stops on its resolution, never on its budget, at most the resolution above the threshold. |
| Parking.BudgetSuffices | packages/layout/src/parking.ts:198-201 | Even the halved budget outlasts every search within the display's extent. |

## Left out

- Fractional lengths: window frames, gaps and bounds are integers here; the program allows fractional points.
- Floating-point rounding: ratios are exact reals, so the second branch of the length-to-ratio encoding is modelled but only matters for rounding.
- Partition.RatioForLengthIsExact: a zero space divides by zero in the program; 0.0 stands for the number no ratio test accepts.
- Distances between panes are compared by their squares instead of by the hypotenuse.
- CompoundCommands.CompoundEngine.Execute: a window outside the captured ones that a fallback moved, as it may without an identity guard, is not put back, nor is the focus a failed command had already obtained.
- CompoundCommands.CompoundEngine.ApplyPlan: reducer and planner are parameters, except that CommitHasTheReducersLayout takes the planner to change workspaces in parked places alone; the classification of a write as exact, constrained or clamped is one yes-or-no answer of the adapter, a geometry attempt is one write, and a refused write has one code.
- CompoundCommands.CompoundEngine.PersistLearning: decoding failures of saved or loaded documents count as a failed save.
- TransactionQueue.EveryRunIsSafe: losing the pump is a separate kind of step (module PumpLoss); the fifteen-second deadline and its timeout receipts are not modelled beyond a receipt that may arrive at any time.
- ReconcileLoop.NothingIsLost: focus signals travel in their own list and are left out; what a cycle does inside is one answer.
- MergeChanges.MergedConstraintsLaws: values are compared as values, while the program compares their JSON text and so also the order of properties.
- ObservationStore.StoreRoundTrip: the locale's sort order is a parameter, and JSON text and schema decoding are abstract validity conditions.
- ObservationCommits.NoLostUpdates: revisions are the contents themselves, standing for an injective digest; directory permissions and temporary-file names are left out.
- StartupAdmission.StartupIsEmitted: whether moving an admitted group succeeded is an answer; a group that failed is left to per-window admission.
- RestoreCycle.CycleAgreesIff: the frames written before each insertion, and the rules for transient windows, are left out.
- AssignRule.RuleAgreesWithExecution: affinity matching, ignored surfaces, quarantine and window classes are parameters, and constraints do not change between plan and execution.
- Parking.SearchAxisLimit: acceptance is a predicate of the visibility; probing through the adapter, choosing and restoring the seed window, and retries from other starting points are left out.
- Parking.DiscoverLimits: the window manager clamps each axis by itself to a fixed least visibility; the other two bases are tried only where the first fails, which it then never does.
- The live change stream of the observation file, limit probing, shutdown restoration and reports, key bindings, configuration merging, snapshots and the remaining rules are left out.
- The user interface, the platform adapters, the socket server and the command-line program are left out.
