/** Where focusing a workspace shows it, and what else that changes, said of the world alone. */
module FocusLaws {
  import opened Geometry
  import opened BspTree
  import opened Membership
  import opened MembershipInvariant
  import opened DisplayExclusivity

  ghost predicate IsConnected(w: World, display: Option<DisplayId>) {
    display.Some? && exists i :: 0 <= i < |w.displays| && w.displays[i].id == display.value
  }

  /** The first display that is primary, else the first there is; nothing without displays. */
  ghost predicate IsPrimary(displays: seq<Display>, display: Option<DisplayId>) {
    if displays == [] then display.None?
    else if exists i :: 0 <= i < |displays| && displays[i].primary then
      exists i :: 0 <= i < |displays| && displays[i].primary && display == Some(displays[i].id)
                  && forall j :: 0 <= j < i ==> !displays[j].primary
    else display == Some(displays[0].id)
  }

  /** Where it is shown already, if that is connected; else where it is pinned, else where it would rather be, as long
      as that is connected; else the primary display. */
  ghost predicate BelongsOn(w: World, ws: Workspace, display: Option<DisplayId>) {
    if IsConnected(w, ws.visibleOn) then display == ws.visibleOn
    else if IsConnected(w, ws.pinned) then display == ws.pinned
    else if IsConnected(w, ws.preferred) then display == ws.preferred
    else IsPrimary(w.displays, display)
  }

  /** A workspace created on demand, empty and without wishes, shows up where the focused one remembers to be, else on
      the primary display. */
  ghost predicate IsNew(w: World, ws: Workspace, name: string) {
    && ws == Workspace(name, BspMode, Leaf(EMPTY_LEAF), {}, ws.visibleOn, None, None, map[], None, None)
    && (forall i :: 0 <= i < |w.workspaces| && w.focusedWorkspace == Some(w.workspaces[i].name) && w.workspaces[i].visibleOn.Some? ==>
          ws.visibleOn == w.workspaces[i].visibleOn)
    && ((forall i :: 0 <= i < |w.workspaces| && w.focusedWorkspace == Some(w.workspaces[i].name) ==> w.workspaces[i].visibleOn.None?) ==>
          IsPrimary(w.displays, ws.visibleOn))
  }

  lemma {:induction false} PrimaryIsPrimary(displays: seq<Display>)
    ensures IsPrimary(displays, IdOf(PrimaryDisplay(displays)))
    ensures displays != [] && PrimaryDisplay(displays).value.primary ==> exists i :: 0 <= i < |displays| && displays[i].primary
    ensures (exists i :: 0 <= i < |displays| && displays[i].primary) ==> PrimaryDisplay(displays).value.primary
  {
    if displays != [] && !displays[0].primary {
      var rest := displays[1..];
      PrimaryIsPrimary(rest);
      assert forall i :: 0 <= i < |rest| ==> rest[i] == displays[i + 1];
      assert forall i :: 0 < i < |displays| ==> displays[i] == rest[i - 1];
      if exists i :: 0 <= i < |rest| && rest[i].primary {
        var k :| 0 <= k < |rest| && rest[k].primary && IdOf(PrimaryDisplay(rest)) == Some(rest[k].id)
                 && forall j :: 0 <= j < k ==> !rest[j].primary;
        assert displays[k + 1].primary;
      }
    }
  }

  lemma {:induction false} ConnectedIsFound(displays: seq<Display>, id: Option<DisplayId>)
    ensures Connected(displays, id).Some? <==> id.Some? && exists i :: 0 <= i < |displays| && displays[i].id == id.value
    ensures Connected(displays, id).Some? ==> IdOf(Connected(displays, id)) == id
  {
    if id.Some? && displays != [] && displays[0].id != id.value {
      ConnectedIsFound(displays[1..], id);
      assert forall i :: 0 < i < |displays| ==> displays[i] == displays[1..][i - 1];
    }
  }

  lemma DisplayBelongs(w: World, ws: Workspace)
    ensures BelongsOn(w, ws, IdOf(InsertionDisplay(w, ws)))
    ensures IdOf(InsertionDisplay(w, ws)).None? ==> w.displays == []
    ensures IdOf(InsertionDisplay(w, ws)).Some? ==> exists i :: 0 <= i < |w.displays| && Some(w.displays[i].id) == IdOf(InsertionDisplay(w, ws))
  {
    hide Connected, PrimaryDisplay;
    ConnectedIsFound(w.displays, ws.visibleOn);
    ConnectedIsFound(w.displays, ws.pinned);
    ConnectedIsFound(w.displays, ws.preferred);
    PrimaryIsPrimary(w.displays);
  }

  lemma HostIsFocused(w: World)
    requires DistinctNames(w)
    ensures IsNew(w, NewWorkspace("", HostForNew(w)), "")
  {
    hide PrimaryDisplay, IsPrimary;
    PrimaryIsPrimary(w.displays);
    if w.focusedWorkspace.Some? {
      var k := Named(w.workspaces, w.focusedWorkspace.value);
      forall i | 0 <= i < |w.workspaces| && w.workspaces[i].name == w.focusedWorkspace.value ensures i == k {
        assert k <= i;
      }
    }
  }

  lemma NamedIsNew(w: World, name: string)
    requires IsNew(w, NewWorkspace("", HostForNew(w)), "")
    ensures IsNew(w, NewWorkspace(name, HostForNew(w)), name)
  {
    hide HostForNew, IsPrimary;
  }

  lemma EnsureProvides(w: World, name: string)
    requires DistinctNames(w)
    ensures Provided(w, name, EnsureWorkspace(w, name))
  {
    hide HostForNew, IsNew;
    HostIsFocused(w);
    NamedIsNew(w, name);
  }

  /** The world with the workspace in it. */
  ghost predicate Provided(w: World, name: string, with: World) {
    if exists i :: 0 <= i < |w.workspaces| && w.workspaces[i].name == name then with == w
    else with == w.(workspaces := with.workspaces) && |with.workspaces| == |w.workspaces| + 1
         && with.workspaces[..|w.workspaces|] == w.workspaces && IsNew(w, with.workspaces[|w.workspaces|], name)
  }

  ghost predicate FocusedOn(w: World, name: string, display: Option<DisplayId>) {
    exists i :: 0 <= i < |w.workspaces| && w.workspaces[i].name == name && BelongsOn(w, w.workspaces[i], display)
  }

  /** A workspace after that one was shown on a display. */
  function Seen(ws: Workspace, name: string, display: Option<DisplayId>): Workspace {
    if display.None? then ws
    else if ws.name == name then ws.(visibleOn := display)
    else if ws.visibleOn == display then ws.(visibleOn := None)
    else ws
  }

  lemma RevealKnown(w: World, name: string, display: DisplayId)
    requires DistinctNames(w) && ExclusiveBut(w, name) && Named(w.workspaces, name) < |w.workspaces|
    ensures var v := Reveal(w, name, display);
            && v == w.(workspaces := v.workspaces) && |v.workspaces| == |w.workspaces|
            && forall j :: 0 <= j < |w.workspaces| ==> v.workspaces[j] == Seen(w.workspaces[j], name, Some(display))
  {
    hide DistinctNames, ExclusiveBut, HideOccupant, Show;
    var hidden := HideOccupant(w, name, display);
    HidesExactly(w, name, display);
    NamesStay(w, hidden, name);
    ShowsExactly(hidden, name, display);
  }

  lemma NamesStay(w: World, v: World, name: string)
    requires DistinctNames(w) && |v.workspaces| == |w.workspaces| && Named(w.workspaces, name) < |w.workspaces|
    requires forall j :: 0 <= j < |w.workspaces| ==> v.workspaces[j].name == w.workspaces[j].name
    ensures DistinctNames(v) && Named(v.workspaces, name) < |v.workspaces|
  {
    var k := Named(w.workspaces, name);
    assert v.workspaces[k].name == name;
  }

  /** Focusing a workspace: a known one, or a new one put behind the others, is shown on the display it belongs on; what
      was there steps aside; nothing else of any workspace changes, and nobody's window moves. With no display connected
      everyone stays as they are. A workspace shown on a connected display stays there, and then nothing changes at all
      but which one is focused. */
  lemma FocusShowsWhereItBelongs(w: World, name: string)
    requires WellFormed(w) && Exclusive(w)
    ensures var v := FocusWorkspace(w, name);
            && v == w.(workspaces := v.workspaces, focusedWorkspace := Some(name))
            && (exists i :: 0 <= i < |v.workspaces| && v.workspaces[i].name == name)
            && ((exists i :: 0 <= i < |w.workspaces| && w.workspaces[i].name == name && IsConnected(w, w.workspaces[i].visibleOn)) ==>
                  v.workspaces == w.workspaces)
            && exists with: World, display ::
                 && Provided(w, name, with) && FocusedOn(with, name, display)
                 && |v.workspaces| == |with.workspaces|
                 && forall j :: 0 <= j < |v.workspaces| ==> v.workspaces[j] == Seen(with.workspaces[j], name, display)
  {
    hide WellFormed, EnsureWorkspace, Exclusive, ExclusiveBut, InsertionDisplay, BelongsOn, IsConnected, IsNew, Reveal,
         DistinctNames, Provided;
    NamesDiffer(w);
    EnsureProvides(w, name);
    EnsureKeeps(w, name);
    EnsureExclusiveIff(w, name);
    var with := EnsureWorkspace(w, name);
    NamesDiffer(with);
    var k := Named(with.workspaces, name);
    var display := DesiredDisplay(with, name);
    DisplayBelongs(with, with.workspaces[k]);
    var focused := with.(focusedWorkspace := Some(name));
    SameScreensSameAnswer(with, focused);
    if display.Some? {
      RevealKnown(focused, name, display.value);
    }
    var v := FocusWorkspace(w, name);
    assert v.workspaces[k].name == name;
    assert FocusedOn(with, name, display);
    ProvidedKeepsRest(w, name, with);
    AlreadyThere(w, v, name, display);
  }

  lemma ProvidedKeepsRest(w: World, name: string, with: World)
    requires Provided(w, name, with)
    ensures with == w.(workspaces := with.workspaces)
    ensures (exists i :: 0 <= i < |w.workspaces| && w.workspaces[i].name == name) ==> with == w
  {
    hide IsNew;
  }

  /** A workspace on a connected display is alone there, and stays. */
  lemma AlreadyThere(w: World, v: World, name: string, display: Option<DisplayId>)
    requires Exclusive(w) && DistinctNames(w)
    requires (exists i :: 0 <= i < |w.workspaces| && w.workspaces[i].name == name) ==>
               && FocusedOn(w, name, display) && |v.workspaces| == |w.workspaces|
               && forall j :: 0 <= j < |w.workspaces| ==> v.workspaces[j] == Seen(w.workspaces[j], name, display)
    ensures (exists i :: 0 <= i < |w.workspaces| && w.workspaces[i].name == name && IsConnected(w, w.workspaces[i].visibleOn)) ==>
              v.workspaces == w.workspaces
  {
    hide IsConnected, IsPrimary;
    if i :| 0 <= i < |w.workspaces| && w.workspaces[i].name == name && IsConnected(w, w.workspaces[i].visibleOn) {
      var k :| 0 <= k < |w.workspaces| && w.workspaces[k].name == name && BelongsOn(w, w.workspaces[k], display);
      assert k == i;
    }
  }
}
