/** Starting from a described layout: which descriptions are accepted, and the world they give. */
module InitialWorkspaces {
  import opened Geometry
  import opened BspTree
  import opened InitialLayout
  import opened Membership
  import opened MembershipInvariant
  import opened DisplayExclusivity

  datatype WindowEntry = WindowEntry(id: WindowId, workspace: Option<string>, floating: bool)

  datatype DisplayEntry = DisplayEntry(id: DisplayId, workspace: Option<string>)

  datatype Description = Description(windows: seq<WindowEntry>, displays: seq<DisplayEntry>, focused: Option<string>)

  datatype Problem = DuplicateWindow(id: WindowId) | UnknownWindow(id: WindowId) | DuplicateDisplay(display: DisplayId)
                   | UnknownDisplay(display: DisplayId) | ShownTwice(name: string) | UnknownFocus(name: string)

  datatype Resolved = Resolved(name: string, tree: Option<Node>, floating: set<WindowId>, visibleOn: Option<DisplayId>)

  datatype Resolution = Workspaces(all: seq<Resolved>) | Rejected(problem: Problem)

  /** Content and gap to infer a workspace's tree with. */
  type SettingsFor = (string, Option<DisplayId>) -> (Option<Frame>, int)

  // ---------------------------------------------------------------- what a description says

  function Noted(names: seq<string>, name: Option<string>): seq<string> {
    if name.None? || name.value in names then names else names + [name.value]
  }

  /** Workspaces in the order they are first mentioned. */
  function WindowNames(entries: seq<WindowEntry>): seq<string> {
    if entries == [] then [] else Noted(WindowNames(entries[..|entries| - 1]), entries[|entries| - 1].workspace)
  }

  function AllNames(entries: seq<WindowEntry>, displays: seq<DisplayEntry>): seq<string> {
    if displays == [] then WindowNames(entries)
    else Noted(AllNames(entries, displays[..|displays| - 1]), displays[|displays| - 1].workspace)
  }

  function TiledIn(entries: seq<WindowEntry>, frames: map<WindowId, Frame>, name: string): seq<FramedWindow> {
    if entries == [] then [] else
      var e := entries[|entries| - 1];
      var before := TiledIn(entries[..|entries| - 1], frames, name);
      if e.workspace == Some(name) && !e.floating && e.id in frames then before + [FramedWindow(e.id, frames[e.id])] else before
  }

  function FloatingIn(entries: seq<WindowEntry>, name: string): set<WindowId> {
    if entries == [] then {} else
      var e := entries[|entries| - 1];
      FloatingIn(entries[..|entries| - 1], name) + (if e.workspace == Some(name) && e.floating then {e.id} else {})
  }

  function ShownOn(displays: seq<DisplayEntry>, name: string): Option<DisplayId> {
    if displays == [] then None
    else if displays[|displays| - 1].workspace == Some(name) then Some(displays[|displays| - 1].id)
    else ShownOn(displays[..|displays| - 1], name)
  }

  // ---------------------------------------------------------------- which descriptions are accepted

  function WindowProblem(entries: seq<WindowEntry>, frames: map<WindowId, Frame>): Option<Problem> {
    if entries == [] then None else
      var before, e := entries[..|entries| - 1], entries[|entries| - 1];
      var earlier := WindowProblem(before, frames);
      if earlier.Some? then earlier
      else if exists i :: 0 <= i < |before| && before[i].id == e.id then Some(DuplicateWindow(e.id))
      else if e.id !in frames then Some(UnknownWindow(e.id))
      else None
  }

  function DisplayProblem(entries: seq<DisplayEntry>, known: set<DisplayId>): Option<Problem> {
    if entries == [] then None else
      var before, e := entries[..|entries| - 1], entries[|entries| - 1];
      var earlier := DisplayProblem(before, known);
      if earlier.Some? then earlier
      else if exists i :: 0 <= i < |before| && before[i].id == e.id then Some(DuplicateDisplay(e.id))
      else if e.id !in known then Some(UnknownDisplay(e.id))
      else if e.workspace.Some? && ShownOn(before, e.workspace.value).Some? then Some(ShownTwice(e.workspace.value))
      else None
  }

  /** The first thing wrong with a description. */
  function FirstProblem(d: Description, frames: map<WindowId, Frame>, known: set<DisplayId>): Option<Problem> {
    var windows := WindowProblem(d.windows, frames);
    var displays := DisplayProblem(d.displays, known);
    if windows.Some? then windows
    else if displays.Some? then displays
    else if d.focused.Some? && d.focused.value !in AllNames(d.windows, d.displays) then Some(UnknownFocus(d.focused.value))
    else None
  }

  ghost predicate WindowsFine(entries: seq<WindowEntry>, frames: map<WindowId, Frame>) {
    && (forall i, j :: 0 <= i < j < |entries| ==> entries[i].id != entries[j].id)
    && (forall i :: 0 <= i < |entries| ==> entries[i].id in frames)
  }

  ghost predicate DisplaysFine(entries: seq<DisplayEntry>, known: set<DisplayId>) {
    && (forall i, j :: 0 <= i < j < |entries| ==> entries[i].id != entries[j].id)
    && (forall i :: 0 <= i < |entries| ==> entries[i].id in known)
    && (forall i, j :: 0 <= i < j < |entries| && entries[i].workspace.Some? ==> entries[i].workspace != entries[j].workspace)
  }

  ghost predicate Mentioned(d: Description, name: string) {
    || (exists i :: 0 <= i < |d.windows| && d.windows[i].workspace == Some(name))
    || (exists i :: 0 <= i < |d.displays| && d.displays[i].workspace == Some(name))
  }

  lemma {:induction false} WindowProblemIff(entries: seq<WindowEntry>, frames: map<WindowId, Frame>)
    ensures WindowProblem(entries, frames).None? <==> WindowsFine(entries, frames)
  {
    if entries != [] {
      var n := |entries| - 1;
      WindowProblemIff(entries[..n], frames);
      if WindowsFine(entries, frames) {
        forall i, j | 0 <= i < j < n ensures entries[..n][i].id != entries[..n][j].id {
          assert entries[i].id != entries[j].id;
        }
      } else if WindowsFine(entries[..n], frames) {
        assert forall i :: 0 <= i < n ==> entries[..n][i] == entries[i];
      }
    }
  }

  lemma {:induction false} ShownOnFinds(displays: seq<DisplayEntry>, name: string)
    ensures ShownOn(displays, name).Some? <==> exists i :: 0 <= i < |displays| && displays[i].workspace == Some(name)
    ensures ShownOn(displays, name).Some? ==>
              exists i :: 0 <= i < |displays| && displays[i] == DisplayEntry(ShownOn(displays, name).value, Some(name))
  {
    if displays != [] {
      var n := |displays| - 1;
      ShownOnFinds(displays[..n], name);
      if displays[n].workspace == Some(name) {
        assert displays[n] == DisplayEntry(ShownOn(displays, name).value, Some(name));
      } else {
        assert forall i :: 0 <= i < n ==> displays[..n][i] == displays[i];
      }
    }
  }

  lemma {:induction false} DisplayProblemIff(entries: seq<DisplayEntry>, known: set<DisplayId>)
    ensures DisplayProblem(entries, known).None? <==> DisplaysFine(entries, known)
  {
    hide ShownOn;
    if entries != [] {
      var n := |entries| - 1;
      var before := entries[..n];
      DisplayProblemIff(before, known);
      assert forall i :: 0 <= i < n ==> before[i] == entries[i];
      if entries[n].workspace.Some? { ShownOnFinds(before, entries[n].workspace.value); }
      if DisplaysFine(entries, known) {
        forall i, j | 0 <= i < j < n && before[i].workspace.Some? ensures before[i].workspace != before[j].workspace {
          assert entries[i].workspace != entries[j].workspace;
        }
        forall i, j | 0 <= i < j < n ensures before[i].id != before[j].id {
          assert entries[i].id != entries[j].id;
        }
      }
    }
  }

  lemma {:induction false} NamesAreMentioned(windows: seq<WindowEntry>, displays: seq<DisplayEntry>, name: string)
    ensures name in AllNames(windows, displays) <==>
            || (exists i :: 0 <= i < |windows| && windows[i].workspace == Some(name))
            || (exists i :: 0 <= i < |displays| && displays[i].workspace == Some(name))
    ensures NoDuplicates(AllNames(windows, displays))
    decreases |displays|
  {
    if displays == [] {
      WindowNamesAreMentioned(windows, name);
    } else {
      var n := |displays| - 1;
      NamesAreMentioned(windows, displays[..n], name);
      assert forall i :: 0 <= i < n ==> displays[..n][i] == displays[i];
    }
  }

  lemma {:induction false} WindowNamesAreMentioned(windows: seq<WindowEntry>, name: string)
    ensures name in WindowNames(windows) <==> exists i :: 0 <= i < |windows| && windows[i].workspace == Some(name)
    ensures NoDuplicates(WindowNames(windows))
  {
    if windows != [] {
      var n := |windows| - 1;
      WindowNamesAreMentioned(windows[..n], name);
      assert forall i :: 0 <= i < n ==> windows[..n][i] == windows[i];
    }
  }

  /** A description is accepted exactly when windows and displays are known and named once, no workspace is put
      on two displays, and the focused workspace is one it mentions. */
  lemma AcceptedIff(d: Description, frames: map<WindowId, Frame>, known: set<DisplayId>)
    ensures FirstProblem(d, frames, known).None? <==>
            && WindowsFine(d.windows, frames) && DisplaysFine(d.displays, known)
            && (d.focused.Some? ==> Mentioned(d, d.focused.value))
  {
    hide WindowProblem, DisplayProblem, AllNames, WindowsFine, DisplaysFine;
    WindowProblemIff(d.windows, frames);
    DisplayProblemIff(d.displays, known);
    if d.focused.Some? { NamesAreMentioned(d.windows, d.displays, d.focused.value); }
  }

  // ---------------------------------------------------------------- resolving

  function ResolvedAs(d: Description, frames: map<WindowId, Frame>, settings: SettingsFor, name: string): Resolved {
    var display := ShownOn(d.displays, name);
    var (content, gap) := settings(name, display);
    Resolved(name, InferInitialTree(TiledIn(d.windows, frames, name), content, gap), FloatingIn(d.windows, name), display)
  }

  function ResolveAll(d: Description, frames: map<WindowId, Frame>, settings: SettingsFor, names: seq<string>): (r: seq<Resolved>)
    ensures |r| == |names| && forall i :: 0 <= i < |names| ==> r[i] == ResolvedAs(d, frames, settings, names[i])
  {
    if names == [] then []
    else ResolveAll(d, frames, settings, names[..|names| - 1]) + [ResolvedAs(d, frames, settings, names[|names| - 1])]
  }

  /** What the loop over the windows has gathered: each workspace's tiled and floating members. */
  ghost predicate Gathered(names: seq<string>, tiled: map<string, seq<FramedWindow>>, floating: map<string,
                           set<WindowId>>,
                           entries: seq<WindowEntry>, frames: map<WindowId, Frame>)
  {
    && tiled.Keys == floating.Keys
    && (forall name :: name in tiled <==> name in names)
    && (forall name :: name in names ==> tiled[name] == TiledIn(entries, frames, name) && floating[name] == FloatingIn(entries, name))
    && (forall name :: name !in names ==> TiledIn(entries, frames, name) == [] && FloatingIn(entries, name) == {})
  }

  /** Whether one more window makes a problem. */
  lemma WindowProblemStep(entries: seq<WindowEntry>, i: nat, frames: map<WindowId, Frame>)
    requires i < |entries| && WindowProblem(entries[..i], frames).None?
    ensures WindowProblem(entries[..i + 1], frames)
            == if entries[i].id in (set k | 0 <= k < i :: entries[k].id) then Some(DuplicateWindow(entries[i].id))
               else if entries[i].id !in frames then Some(UnknownWindow(entries[i].id)) else None
  {
    var before, e := entries[..i], entries[i];
    assert entries[..i + 1][..i] == before;
    assert (exists k :: 0 <= k < |before| && before[k].id == e.id) <==> e.id in (set k | 0 <= k < i :: entries[k].id) by {
      assert forall k :: 0 <= k < i ==> before[k] == entries[k];
    }
  }

  lemma NamesStep(entries: seq<WindowEntry>, i: nat)
    requires i < |entries|
    ensures WindowNames(entries[..i + 1]) == Noted(WindowNames(entries[..i]), entries[i].workspace)
  {
    assert entries[..i + 1][..i] == entries[..i];
  }

  lemma MembersStep(entries: seq<WindowEntry>, i: nat, frames: map<WindowId, Frame>, name: string)
    requires i < |entries|
    ensures var e := entries[i];
            && TiledIn(entries[..i + 1], frames, name)
               == TiledIn(entries[..i], frames, name)
                + (if e.workspace == Some(name) && !e.floating && e.id in frames then [FramedWindow(e.id, frames[e.id])] else [])
            && FloatingIn(entries[..i + 1], name)
               == FloatingIn(entries[..i], name) + (if e.workspace == Some(name) && e.floating then {e.id} else {})
  {
    assert entries[..i + 1][..i] == entries[..i];
  }

  lemma GatheredUnassigned(names: seq<string>, tiled: map<string, seq<FramedWindow>>, floating: map<string,
                           set<WindowId>>,
                           entries: seq<WindowEntry>, i: nat, frames: map<WindowId, Frame>)
    requires i < |entries| && entries[i].workspace.None? && Gathered(names, tiled, floating, entries[..i], frames)
    ensures Gathered(names, tiled, floating, entries[..i + 1], frames)
  {
    hide TiledIn, FloatingIn;
    forall name ensures TiledIn(entries[..i + 1], frames, name) == TiledIn(entries[..i], frames, name)
                     && FloatingIn(entries[..i + 1], name) == FloatingIn(entries[..i], name) {
      MembersStep(entries, i, frames, name);
    }
  }

  method GatherWindows(entries: seq<WindowEntry>, frames: map<WindowId, Frame>)
    returns (names: seq<string>, tiled: map<string, seq<FramedWindow>>, floating: map<string, set<WindowId>>, problem: Option<Problem>)
    ensures problem == WindowProblem(entries, frames)
    ensures problem.None? ==> names == WindowNames(entries) && Gathered(names, tiled, floating, entries, frames)
  {
    names, tiled, floating := [], map[], map[];
    var seen: set<WindowId> := {};
    var i := 0;
    NothingGathered(entries, frames);
    hide WindowProblem, WindowNames, Gathered;
    while i < |entries|
      invariant 0 <= i <= |entries|
      invariant WindowProblem(entries[..i], frames).None?
      invariant seen == set k | 0 <= k < i :: entries[k].id
      invariant names == WindowNames(entries[..i]) && Gathered(names, tiled, floating, entries[..i], frames)
    {
      var e := entries[i];
      WindowProblemStep(entries, i, frames);
      WindowProblemExtends(entries, i, frames);
      NamesStep(entries, i);
      if e.id in seen {
        return names, tiled, floating, Some(DuplicateWindow(e.id));
      }
      seen := seen + {e.id};
      if e.id !in frames {
        return names, tiled, floating, Some(UnknownWindow(e.id));
      }
      if e.workspace.Some? {
        names, tiled, floating := AddMember(names, tiled, floating, entries, i, frames);
      } else {
        GatheredUnassigned(names, tiled, floating, entries, i, frames);
      }
      i := i + 1;
    }
    assert entries[..i] == entries;
    problem := None;
  }

  lemma NothingGathered(entries: seq<WindowEntry>, frames: map<WindowId, Frame>)
    ensures WindowProblem(entries[..0], frames).None? && WindowNames(entries[..0]) == []
    ensures Gathered([], map[], map[], entries[..0], frames)
  {
  }

  /** A problem among the first entries is the problem of them all. */
  lemma {:induction false} WindowProblemExtends(entries: seq<WindowEntry>, i: nat, frames: map<WindowId, Frame>)
    requires i < |entries|
    ensures WindowProblem(entries[..i + 1], frames).Some? ==>
              WindowProblem(entries, frames) == WindowProblem(entries[..i + 1], frames)
    decreases |entries|
  {
    var n := |entries| - 1;
    if i == n {
      assert entries[..i + 1] == entries;
    } else {
      assert entries[..n][..i + 1] == entries[..i + 1];
      WindowProblemExtends(entries[..n], i, frames);
    }
  }

  method AddMember(names: seq<string>, tiled: map<string, seq<FramedWindow>>, floating: map<string, set<WindowId>>,
                   entries: seq<WindowEntry>, i: nat, frames: map<WindowId, Frame>)
    returns (names': seq<string>, tiled': map<string, seq<FramedWindow>>, floating': map<string, set<WindowId>>)
    requires i < |entries| && entries[i].workspace.Some? && entries[i].id in frames
    requires Gathered(names, tiled, floating, entries[..i], frames)
    ensures names' == Noted(names, entries[i].workspace)
    ensures Gathered(names', tiled', floating', entries[..i + 1], frames)
  {
    hide TiledIn, FloatingIn;
    var e, name := entries[i], entries[i].workspace.value;
    var inTiles := if name in tiled then tiled[name] else [];
    var inAir := if name in floating then floating[name] else {};
    forall other | other != name
      ensures TiledIn(entries[..i + 1], frames, other) == TiledIn(entries[..i], frames, other)
      ensures FloatingIn(entries[..i + 1], other) == FloatingIn(entries[..i], other)
    {
      MembersStep(entries, i, frames, other);
    }
    MembersStep(entries, i, frames, name);
    if e.floating {
      inAir := inAir + {e.id};
    } else {
      inTiles := inTiles + [FramedWindow(e.id, frames[e.id])];
    }
    names' := if name in names then names else names + [name];
    tiled' := tiled[name := inTiles];
    floating' := floating[name := inAir];
  }

  lemma {:induction false} DisplayProblemExtends(entries: seq<DisplayEntry>, i: nat, known: set<DisplayId>)
    requires i < |entries|
    ensures DisplayProblem(entries[..i + 1], known).Some? ==>
              DisplayProblem(entries, known) == DisplayProblem(entries[..i + 1], known)
    decreases |entries|
  {
    hide ShownOn;
    var n := |entries| - 1;
    if i == n {
      assert entries[..i + 1] == entries;
    } else {
      assert entries[..n][..i + 1] == entries[..i + 1];
      DisplayProblemExtends(entries[..n], i, known);
    }
  }

  lemma DisplayProblemStep(entries: seq<DisplayEntry>, i: nat, known: set<DisplayId>)
    requires i < |entries| && DisplayProblem(entries[..i], known).None?
    ensures DisplayProblem(entries[..i + 1], known)
            == if entries[i].id in (set k | 0 <= k < i :: entries[k].id) then Some(DuplicateDisplay(entries[i].id))
               else if entries[i].id !in known then Some(UnknownDisplay(entries[i].id))
               else if entries[i].workspace.Some? && ShownOn(entries[..i], entries[i].workspace.value).Some?
               then Some(ShownTwice(entries[i].workspace.value)) else None
  {
    hide ShownOn;
    var before, e := entries[..i], entries[i];
    assert entries[..i + 1][..i] == before;
    assert (exists k :: 0 <= k < |before| && before[k].id == e.id) <==> e.id in (set k | 0 <= k < i :: entries[k].id) by {
      assert forall k :: 0 <= k < i ==> before[k] == entries[k];
    }
  }

  lemma ShownOnStep(entries: seq<DisplayEntry>, i: nat, name: string)
    requires i < |entries|
    ensures ShownOn(entries[..i + 1], name)
            == if entries[i].workspace == Some(name) then Some(entries[i].id) else ShownOn(entries[..i], name)
  {
    assert entries[..i + 1][..i] == entries[..i];
  }

  lemma AllNamesStep(windows: seq<WindowEntry>, entries: seq<DisplayEntry>, i: nat)
    requires i < |entries|
    ensures AllNames(windows, entries[..i + 1]) == Noted(AllNames(windows, entries[..i]), entries[i].workspace)
  {
    assert entries[..i + 1][..i] == entries[..i];
  }

  method GatherDisplays(windows: seq<WindowEntry>, entries: seq<DisplayEntry>, known: set<DisplayId>,
                        mentioned: seq<string>)
    returns (names: seq<string>, visible: map<string, DisplayId>, problem: Option<Problem>)
    requires mentioned == WindowNames(windows)
    ensures problem == DisplayProblem(entries, known)
    ensures problem.None? ==> names == AllNames(windows, entries)
    ensures problem.None? ==> forall name :: ShownOn(entries, name) == Display(visible, name)
  {
    names, visible := mentioned, map[];
    var seen: set<DisplayId> := {};
    var i := 0;
    assert entries[..0] == [];
    assert DisplayProblem([], known).None? && AllNames(windows, []) == names && forall name :: ShownOn([], name).None?;
    hide DisplayProblem, AllNames, ShownOn;
    while i < |entries|
      invariant 0 <= i <= |entries|
      invariant DisplayProblem(entries[..i], known).None?
      invariant seen == set k | 0 <= k < i :: entries[k].id
      invariant names == AllNames(windows, entries[..i])
      invariant forall name :: ShownOn(entries[..i], name) == Display(visible, name)
    {
      var e := entries[i];
      DisplayProblemStep(entries, i, known);
      DisplayProblemExtends(entries, i, known);
      AllNamesStep(windows, entries, i);
      forall name { ShownOnStep(entries, i, name); }
      if e.id in seen {
        return names, visible, Some(DuplicateDisplay(e.id));
      }
      seen := seen + {e.id};
      if e.id !in known {
        return names, visible, Some(UnknownDisplay(e.id));
      }
      if e.workspace.Some? {
        if e.workspace.value in visible {
          return names, visible, Some(ShownTwice(e.workspace.value));
        }
        visible := visible[e.workspace.value := e.id];
        names := if e.workspace.value in names then names else names + [e.workspace.value];
      }
      i := i + 1;
    }
    assert entries[..i] == entries;
    problem := None;
  }

  function Found<T>(m: map<string, T>, name: string, absent: T): T {
    if name in m then m[name] else absent
  }

  function Display(visible: map<string, DisplayId>, name: string): Option<DisplayId> {
    if name in visible then Some(visible[name]) else None
  }

  /** One tree a workspace, from what was gathered. */
  method InferAll(d: Description, frames: map<WindowId, Frame>, settings: SettingsFor, all: seq<string>,
                  ghost names: seq<string>,
                  tiled: map<string, seq<FramedWindow>>, floating: map<string, set<WindowId>>, visible: map<string, DisplayId>)
    returns (out: seq<Resolved>)
    requires Gathered(names, tiled, floating, d.windows, frames)
    requires forall name :: ShownOn(d.displays, name) == Display(visible, name)
    ensures out == ResolveAll(d, frames, settings, all)
  {
    hide Gathered, ResolvedAs, Display, Found, InferInitialTree;
    out := [];
    var i := 0;
    while i < |all|
      invariant 0 <= i <= |all| && |out| == i
      invariant forall k :: 0 <= k < i ==> out[k] == ResolvedAs(d, frames, settings, all[k])
    {
      var name := all[i];
      var display := Display(visible, name);
      var (content, gap) := settings(name, display);
      ResolvedFrom(d, frames, settings, names, tiled, floating, visible, name);
      out := out + [Resolved(name, InferInitialTree(Found(tiled, name, []), content, gap), Found(floating, name, {}), display)];
      i := i + 1;
    }
  }

  lemma ResolvedFrom(d: Description, frames: map<WindowId, Frame>, settings: SettingsFor, names: seq<string>,
                     tiled: map<string, seq<FramedWindow>>, floating: map<string, set<WindowId>>, visible: map<string, DisplayId>,
                     name: string)
    requires Gathered(names, tiled, floating, d.windows, frames)
    requires ShownOn(d.displays, name) == Display(visible, name)
    ensures var (content, gap) := settings(name, Display(visible, name));
            ResolvedAs(d, frames, settings, name)
            == Resolved(name, InferInitialTree(Found(tiled, name, []), content, gap), Found(floating, name, {}), Display(visible, name))
  {
    hide TiledIn, FloatingIn, ShownOn, InferInitialTree;
  }

  /** Gather, check, and infer one tree a workspace. */
  method Resolve(d: Description, frames: map<WindowId, Frame>, known: set<DisplayId>, settings: SettingsFor)
    returns (r: Resolution)
    ensures r == match FirstProblem(d, frames, known)
                 case Some(problem) => Rejected(problem)
                 case None => Workspaces(ResolveAll(d, frames, settings, AllNames(d.windows, d.displays)))
  {
    var names, tiled, floating, inWindows := GatherWindows(d.windows, frames);
    if inWindows.Some? {
      return Rejected(inWindows.value);
    }
    var all, visible, inDisplays := GatherDisplays(d.windows, d.displays, known, names);
    if inDisplays.Some? {
      return Rejected(inDisplays.value);
    }
    if d.focused.Some? && d.focused.value !in all {
      return Rejected(UnknownFocus(d.focused.value));
    }
    var out := InferAll(d, frames, settings, all, names, tiled, floating, visible);
    return Workspaces(out);
  }

  // ---------------------------------------------------------------- the world it gives

  /** A resolved workspace as the engine adopts it; the focused window is remembered where it is a member. */
  function Adopt(r: Resolved, mode: Mode, preferred: Option<DisplayId>, focused: Option<WindowId>): Workspace {
    var tree := if r.tree.Some? then r.tree.value else Leaf(EMPTY_LEAF);
    var tiled := focused.Some? && focused.value in TiledMembers(tree);
    var member := tiled || (focused.Some? && focused.value in r.floating);
    Workspace(r.name, mode, tree, r.floating, r.visibleOn, preferred, None, map[],
              if member then focused else None, if tiled then focused else None)
  }

  function AdoptAll(all: seq<Resolved>, mode: string -> Mode, preferred: string -> Option<DisplayId>,
                    focused: Option<WindowId>)
    : (r: seq<Workspace>)
    ensures |r| == |all|
    ensures forall i :: 0 <= i < |all| ==> r[i] == Adopt(all[i], mode(all[i].name), preferred(all[i].name), focused)
  {
    seq(|all|, i requires 0 <= i < |all| => Adopt(all[i], mode(all[i].name), preferred(all[i].name), focused))
  }

  ghost predicate Entered(entries: seq<WindowEntry>, id: WindowId, name: string, floating: bool) {
    exists i :: 0 <= i < |entries| && entries[i] == WindowEntry(id, Some(name), floating)
  }

  lemma EnteredOnce(entries: seq<WindowEntry>, frames: map<WindowId, Frame>, id: WindowId, a: string, b: string,
                    f: bool, g: bool)
    requires WindowsFine(entries, frames) && Entered(entries, id, a, f) && Entered(entries, id, b, g)
    ensures a == b && f == g && id in frames
  {
  }

  lemma EnteredStep(entries: seq<WindowEntry>, id: WindowId, name: string, floating: bool)
    requires entries != []
    ensures var n := |entries| - 1;
            Entered(entries, id, name, floating) <==>
            Entered(entries[..n], id, name, floating) || entries[n] == WindowEntry(id, Some(name), floating)
  {
    var n := |entries| - 1;
    assert forall i :: 0 <= i < n ==> entries[..n][i] == entries[i];
  }

  lemma FineFront(entries: seq<WindowEntry>, frames: map<WindowId, Frame>)
    requires entries != [] && WindowsFine(entries, frames)
    ensures WindowsFine(entries[..|entries| - 1], frames)
    ensures NobodyIs(entries[..|entries| - 1], entries[|entries| - 1].id)
  {
  }

  ghost predicate NobodyIs(entries: seq<WindowEntry>, id: WindowId) {
    forall i :: 0 <= i < |entries| ==> entries[i].id != id
  }

  /** A tiled entry is in its workspace's list once, and in no other list. */
  lemma {:induction false} TiledInCounts(entries: seq<WindowEntry>, frames: map<WindowId, Frame>, name: string,
                                         x: WindowId)
    requires WindowsFine(entries, frames)
    ensures Ids(TiledIn(entries, frames, name))[x] == if Entered(entries, x, name, false) then 1 else 0
  {
    hide Ids, WindowsFine, Entered;
    IdsStep(TiledIn(entries, frames, name));
    if entries == [] {
      NothingEntered(x, name, false);
    } else {
      var n := |entries| - 1;
      var e := entries[n];
      FineFront(entries, frames);
      TiledInCounts(entries[..n], frames, name, x);
      EnteredStep(entries, x, name, false);
      LastIsKnown(entries, frames);
      if e == WindowEntry(x, Some(name), false) { NotEnteredBefore(entries[..n], x, name, false); }
      if e.workspace == Some(name) && !e.floating {
        OneMoreId(TiledIn(entries[..n], frames, name), FramedWindow(e.id, frames[e.id]));
      }
    }
  }

  lemma NothingEntered(id: WindowId, name: string, floating: bool)
    ensures !Entered([], id, name, floating)
  {
  }

  lemma LastIsKnown(entries: seq<WindowEntry>, frames: map<WindowId, Frame>)
    requires entries != [] && WindowsFine(entries, frames)
    ensures entries[|entries| - 1].id in frames
  {
  }

  lemma NotEnteredBefore(entries: seq<WindowEntry>, id: WindowId, name: string, floating: bool)
    requires NobodyIs(entries, id)
    ensures !Entered(entries, id, name, floating)
  {
  }

  lemma OneMoreId(windows: seq<FramedWindow>, w: FramedWindow)
    ensures Ids(windows + [w]) == Ids(windows) + multiset{w.id}
  {
    IdsOfConcat(windows, [w]);
    assert [w][1..] == [];
    assert Ids([w]) == multiset{w.id} + Ids([]);
  }

  lemma {:induction false} FloatingInMembers(entries: seq<WindowEntry>, name: string, x: WindowId)
    ensures x in FloatingIn(entries, name) <==> Entered(entries, x, name, true)
  {
    hide Entered;
    if entries == [] {
      NothingEntered(x, name, true);
    } else {
      FloatingInMembers(entries[..|entries| - 1], name, x);
      EnteredStep(entries, x, name, true);
    }
  }

  /** An adopted tree holds exactly the tiled entries of its workspace, once each. */
  lemma AdoptedTree(d: Description, frames: map<WindowId, Frame>, settings: SettingsFor, name: string)
    requires WindowsFine(d.windows, frames) && EMPTY_LEAF !in frames
    ensures var r := ResolvedAs(d, frames, settings, name);
            var tree := if r.tree.Some? then r.tree.value else Leaf(EMPTY_LEAF);
            && TreeSound(tree)
            && forall x :: Has(tree, x) && x != EMPTY_LEAF <==> Entered(d.windows, x, name, false)
  {
    hide InferTree, TiledIn, FloatingIn, ShownOn, WindowsFine, Entered, Ids;
    var tiled := TiledIn(d.windows, frames, name);
    var r := ResolvedAs(d, frames, settings, name);
    var tree := if r.tree.Some? then r.tree.value else Leaf(EMPTY_LEAF);
    forall x ensures Ids(tiled)[x] == if Entered(d.windows, x, name, false) then 1 else 0 { TiledInCounts(d.windows, frames, name, x); }
    forall x | Entered(d.windows, x, name, false) ensures x != EMPTY_LEAF { EnteredOnce(d.windows, frames, x, name, name, false, false); }
    if tiled == [] {
      IdsStep(tiled);
      EmptyHoldsNothing();
      forall x ensures !Entered(d.windows, x, name, false) { assert Ids(tiled)[x] == 0; }
    } else {
      var (content, gap) := settings(name, ShownOn(d.displays, name));
      InferenceKeepsWindows(tiled, content, gap);
      assert tree == InferTree(tiled, content, gap);
    }
  }

  /** What an adopted workspace holds. */
  lemma AdoptedSound(d: Description, frames: map<WindowId, Frame>, settings: SettingsFor, name: string,
                     mode: Mode, preferred: Option<DisplayId>, focused: Option<WindowId>)
    requires WindowsFine(d.windows, frames) && EMPTY_LEAF !in frames
    ensures var ws := Adopt(ResolvedAs(d, frames, settings, name), mode, preferred, focused);
            && Sound(ws) && ws.name == name && ws.visibleOn == ShownOn(d.displays, name)
            && forall x :: Holds(ws, x) <==> Entered(d.windows, x, name, false) || Entered(d.windows, x, name, true)
  {
    hide InferInitialTree, TiledIn, FloatingIn, ShownOn, WindowsFine, Entered, Has, Bag, Distinct;
    AdoptedTree(d, frames, settings, name);
    var ws := Adopt(ResolvedAs(d, frames, settings, name), mode, preferred, focused);
    forall x ensures x in ws.floating <==> Entered(d.windows, x, name, true) { FloatingInMembers(d.windows, name, x); }
    forall x | x in ws.floating ensures x != EMPTY_LEAF && !Has(ws.tree, x) {
      EnteredOnce(d.windows, frames, x, name, name, true, true);
      if Has(ws.tree, x) {
        EnteredOnce(d.windows, frames, x, name, name, true, false);
        assert false;
      }
    }
  }

  lemma ShownOnce(displays: seq<DisplayEntry>, known: set<DisplayId>, a: string, b: string)
    requires DisplaysFine(displays, known) && ShownOn(displays, a).Some? && ShownOn(displays, a) == ShownOn(displays, b)
    ensures a == b
  {
    ShownOnFinds(displays, a);
    ShownOnFinds(displays, b);
  }

  /** The world adopted from an accepted description is well formed and shows one workspace per display. */
  lemma AdoptedWorldIsWellFormed(d: Description, frames: map<WindowId, Frame>, known: set<DisplayId>,
                                 settings: SettingsFor,
                                 mode: string -> Mode, preferred: string -> Option<DisplayId>, focused: Option<WindowId>, w: World)
    requires FirstProblem(d, frames, known).None? && EMPTY_LEAF !in frames
    requires w.workspaces == AdoptAll(ResolveAll(d, frames, settings, AllNames(d.windows, d.displays)), mode, preferred, focused)
    ensures WellFormed(w) && Exclusive(w)
    ensures forall name :: Mentioned(d, name) <==> exists i :: 0 <= i < |w.workspaces| && w.workspaces[i].name == name
  {
    hide FirstProblem, AllNames, ShownOn, WindowsFine, DisplaysFine, Sound, ResolvedAs, Adopt, Holds, Entered, Mentioned;
    AcceptedIff(d, frames, known);
    var names := AllNames(d.windows, d.displays);
    NamesAreMentioned(d.windows, d.displays, "");
    forall i | 0 <= i < |names|
      ensures w.workspaces[i].name == names[i] && w.workspaces[i].visibleOn == ShownOn(d.displays, names[i]) && Sound(w.workspaces[i])
      ensures forall x :: Holds(w.workspaces[i], x) <==> Entered(d.windows, x, names[i], false) || Entered(d.windows, x, names[i], true)
    {
      AdoptedSound(d, frames, settings, names[i], mode(ResolvedAs(d, frames, settings, names[i]).name),
                   preferred(ResolvedAs(d, frames, settings, names[i]).name), focused);
    }
    forall i, j | 0 <= i < j < |names| ensures Apart(w.workspaces[i], w.workspaces[j]) {
      forall x ensures !(Holds(w.workspaces[i], x) && Holds(w.workspaces[j], x)) {
        if Holds(w.workspaces[i], x) && Holds(w.workspaces[j], x) {
          var f := Entered(d.windows, x, names[i], true);
          var g := Entered(d.windows, x, names[j], true);
          EnteredOnce(d.windows, frames, x, names[i], names[j], f, g);
          assert false;
        }
      }
    }
    forall i, j | 0 <= i < j < |names| && w.workspaces[i].visibleOn.Some? ensures w.workspaces[i].visibleOn != w.workspaces[j].visibleOn {
      if w.workspaces[i].visibleOn == w.workspaces[j].visibleOn {
        ShownOnce(d.displays, known, names[i], names[j]);
        assert false;
      }
    }
    forall name ensures Mentioned(d, name) <==> exists i :: 0 <= i < |w.workspaces| && w.workspaces[i].name == name {
      MentionedIffNamed(d, name);
    }
  }

  /** So every run of the program from an adopted world shows one workspace per display throughout, unless a
      workspace that does not exist is focused with no display connected while the focused one remembers its own. */
  lemma AdoptedRunIsExclusiveIff(d: Description, frames: map<WindowId, Frame>, known: set<DisplayId>,
                                 settings: SettingsFor, mode: string -> Mode, preferred: string -> Option<DisplayId>,
                                 focused: Option<WindowId>, w: World, layout: Settings, events: seq<Event>)
    requires FirstProblem(d, frames, known).None? && EMPTY_LEAF !in frames
    requires w.workspaces == AdoptAll(ResolveAll(d, frames, settings, AllNames(d.windows, d.displays)), mode, preferred, focused)
    requires EmittedRun(layout, Engine(w, map[]), events)
    ensures ExclusiveThroughout(layout, Engine(w, map[]), events) <==> NeverBlind(layout, Engine(w, map[]), events)
  {
    hide WellFormed, Exclusive, EmittedRun, ExclusiveThroughout, NeverBlind, FirstProblem, AllNames, ResolveAll, AdoptAll;
    AdoptedWorldIsWellFormed(d, frames, known, settings, mode, preferred, focused, w);
    ProgramRunIsExclusiveIff(layout, Engine(w, map[]), events);
  }

  lemma MentionedIffNamed(d: Description, name: string)
    ensures Mentioned(d, name) <==> name in AllNames(d.windows, d.displays)
  {
    hide AllNames;
    NamesAreMentioned(d.windows, d.displays, name);
  }
}
