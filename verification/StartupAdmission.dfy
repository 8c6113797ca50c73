/** Windows that are open when the program starts: grouped by workspace, each group admitted with the tree inferred
    from where its windows are. From here every run begins. */
module StartupAdmission {
  import opened Geometry
  import opened BspTree
  import opened Planner
  import opened Policies
  import opened InitialLayout
  import opened Membership
  import opened MembershipInvariant
  import opened MembershipMoves
  import opened DisplayExclusivity

  /** A window that is open, and the tiling workspace it belongs to, if it is one to be admitted. */
  datatype Found = Found(window: FramedWindow, target: Option<string>)

  /** The windows found for one workspace, in the order they are listed. */
  function GroupOf(found: seq<Found>, name: string): (r: seq<FramedWindow>)
    ensures forall w :: w in r ==> Found(w, Some(name)) in found
  {
    if found == [] then [] else
      var n := |found| - 1;
      GroupOf(found[..n], name) + (if found[n].target == Some(name) then [found[n].window] else [])
  }

  /** The workspaces that get windows, by first mention. */
  function TargetsOf(found: seq<Found>): (r: seq<string>)
    ensures forall i, j :: 0 <= i < j < |r| ==> r[i] != r[j]
  {
    if found == [] then [] else
      var n := |found| - 1;
      var before := TargetsOf(found[..n]);
      if found[n].target.Some? && found[n].target.value !in before then before + [found[n].target.value] else before
  }

  lemma {:induction false} TargetsHaveWindows(found: seq<Found>, name: string)
    ensures name in TargetsOf(found) <==> GroupOf(found, name) != []
  {
    if found != [] {
      TargetsHaveWindows(found[..|found| - 1], name);
    }
  }

  /** The grouping loop. */
  method GroupWindows(found: seq<Found>) returns (names: seq<string>, groups: map<string, seq<FramedWindow>>)
    ensures names == TargetsOf(found)
    ensures forall name :: name in groups <==> name in names
    ensures forall name :: name in groups ==> groups[name] == GroupOf(found, name)
  {
    names, groups := [], map[];
    for i := 0 to |found|
      invariant names == TargetsOf(found[..i])
      invariant forall name :: name in groups <==> name in names
      invariant forall name :: name in groups ==> groups[name] == GroupOf(found[..i], name)
    {
      assert found[..i + 1][..i] == found[..i];
      if found[i].target.Some? {
        var name := found[i].target.value;
        TargetsHaveWindows(found[..i], name);
        if name !in groups {
          names := names + [name];
        }
        groups := groups[name := (if name in groups then groups[name] else []) + [found[i].window]];
      }
    }
    assert found[..|found|] == found;
  }

  // ---------------------------------------------------------------- admitting one group

  predicate Overlapping(members: seq<FramedWindow>) {
    exists i, j :: 0 <= i < j < |members| && Meet(members[i].frame, members[j].frame, Vertical)
                   && Meet(members[i].frame, members[j].frame, Horizontal)
  }

  predicate Meet(a: Frame, b: Frame, axis: Axis) {
    Min(End(a, axis), End(b, axis)) > Max(Start(a, axis), Start(b, axis))
  }

  /** What else startup goes by: how a workspace tiles, where it wants to be, and whether the group's windows could be
      moved to their places and were found there. */
  datatype Startup = Startup(mode: string -> Mode, preferred: string -> Option<DisplayId>, settles: string -> bool,
                             focused: Option<WindowId>)

  /** A group that does not overlap is admitted into an empty workspace with a display if its tree can be laid out and
      its windows settle. Windows are only assigned to workspaces there are. */
  function AdmissionOf(settings: Settings, s: Startup, w: World, name: string, members: seq<FramedWindow>): Option<Event> {
    var i := Named(w.workspaces, name);
    if i == |w.workspaces| || !IsEmptyTree(w.workspaces[i].tree) || members == [] || Overlapping(members) then None
    else
      var host := InsertionDisplay(w, w.workspaces[i]);
      if host.None? then None else
        var content, gap := settings.content(name, host.value), settings.gap(name, IdOf(host));
        var tree := InferTree(members, Some(content), gap);
        if PlanLayout(LayoutInput(tree, content, Some(gap), settings.resolve), DEFAULT_CHAIN).Infeasible? || !s.settles(name)
        then None
        else Some(AdmittedAtStartup(name, members, content, gap, s.mode(name), s.preferred(name), s.focused))
  }

  /** One group after the other, each on the world the ones before left. */
  function Admissions(settings: Settings, s: Startup, e: Engine, found: seq<Found>, names: seq<string>): seq<Event>
    decreases |names|
  {
    if names == [] then []
    else
      var admission := AdmissionOf(settings, s, e.world, names[0], GroupOf(found, names[0]));
      if admission.None? then Admissions(settings, s, e, found, names[1..])
      else [admission.value] + Admissions(settings, s, Apply(settings, e, admission.value), found, names[1..])
  }

  /** Different windows, none the sentinel. */
  predicate Different(found: seq<Found>) {
    && (forall k :: 0 <= k < |found| ==> found[k].window.id != EMPTY_LEAF)
    && (forall k, m :: 0 <= k < m < |found| ==> found[k].window.id != found[m].window.id)
  }

  predicate AllDiffer(members: seq<FramedWindow>) {
    forall k, m :: 0 <= k < m < |members| ==> members[k].id != members[m].id
  }

  lemma {:induction false} GroupsAreDifferent(found: seq<Found>, name: string)
    requires Different(found)
    ensures AllDiffer(GroupOf(found, name))
  {
    if found != [] {
      var n := |found| - 1;
      GroupsAreDifferent(found[..n], name);
      var before := GroupOf(found[..n], name);
      forall k | 0 <= k < |before| ensures before[k].id != found[n].window.id {
        assert before[k] in before;
        var m :| 0 <= m < n && found[..n][m] == Found(before[k], Some(name));
        assert found[m].window == before[k];
      }
    }
  }

  /** Nobody is in two groups. */
  lemma GroupsAreApart(found: seq<Found>, a: string, b: string, x: FramedWindow, y: FramedWindow)
    requires Different(found) && a != b && x in GroupOf(found, a) && y in GroupOf(found, b)
    ensures x.id != y.id
  {
    var i :| 0 <= i < |found| && found[i] == Found(x, Some(a));
    var j :| 0 <= j < |found| && found[j] == Found(y, Some(b));
  }

  /** The windows of these groups are nowhere yet. */
  ghost predicate Waiting(w: World, found: seq<Found>, names: seq<string>) {
    forall i, x :: 0 <= i < |names| && x in GroupOf(found, names[i]) ==> Homeless(w, x.id)
  }

  lemma GroupIsNew(w: World, found: seq<Found>, names: seq<string>)
    requires Different(found) && names != [] && Waiting(w, found, names)
    ensures Newcomers(w, GroupOf(found, names[0]))
  {
    hide Homeless;
    var g := GroupOf(found, names[0]);
    GroupsAreDifferent(found, names[0]);
    forall k | 0 <= k < |g| ensures g[k].id != EMPTY_LEAF && Homeless(w, g[k].id) {
      assert g[k] in g;
    }
  }

  lemma OthersStillWait(settings: Settings, e: Engine, found: seq<Found>, names: seq<string>, event: Event)
    requires Valid(e) && Different(found) && names != [] && Waiting(e.world, found, names)
    requires forall i, j :: 0 <= i < j < |names| ==> names[i] != names[j]
    requires event.AdmittedAtStartup? && event.name == names[0] && event.members == GroupOf(found, names[0])
    ensures Waiting(Apply(settings, e, event).world, found, names[1..])
  {
    hide Valid, Homeless, Apply, GroupOf, SpotOf, Newcomers;
    GroupIsNew(e.world, found, names);
    var next := Apply(settings, e, event);
    forall i, x | 0 <= i < |names[1..]| && x in GroupOf(found, names[1..][i]) ensures Homeless(next.world, x.id) {
      assert names[1..][i] == names[i + 1];
      StepMovesExactly(settings, e, event, x.id);
      if Listed(event.members, x.id) {
        var k :| 0 <= k < |event.members| && event.members[k].id == x.id;
        GroupsAreApart(found, names[0], names[i + 1], event.members[k], x);
        assert false;
      }
      SpotNowhere(e.world, x.id);
      SpotNowhere(next.world, x.id);
    }
  }

  /** Startup admits nobody twice: its steps are all ones the invariant allows. */
  lemma {:induction false} AdmissionsAreEmitted(settings: Settings, s: Startup, e: Engine, found: seq<Found>, names: seq<string>)
    requires Valid(e) && Different(found) && Waiting(e.world, found, names)
    requires forall i, j :: 0 <= i < j < |names| ==> names[i] != names[j]
    ensures EmittedRun(settings, e, Admissions(settings, s, e, found, names))
    ensures NeverBlind(settings, e, Admissions(settings, s, e, found, names))
    decreases |names|
  {
    hide Valid, Homeless, Apply, GroupOf, Newcomers, Waiting, InferTree, PlanLayout;
    if names != [] {
      var rest := names[1..];
      forall i, j | 0 <= i < j < |rest| ensures rest[i] != rest[j] {
        assert rest[i] == names[i + 1] && rest[j] == names[j + 1];
      }
      var admission := AdmissionOf(settings, s, e.world, names[0], GroupOf(found, names[0]));
      if admission.None? {
        RestWaits(e.world, found, names);
        AdmissionsAreEmitted(settings, s, e, found, rest);
      } else {
        var event := admission.value;
        GroupIsNew(e.world, found, names);
        StepKeepsMembership(settings, e, event);
        OthersStillWait(settings, e, found, names, event);
        var next := Apply(settings, e, event);
        AdmissionsAreEmitted(settings, s, next, found, rest);
        assert ([event] + Admissions(settings, s, next, found, rest))[1..] == Admissions(settings, s, next, found, rest);
      }
    }
  }

  lemma RestWaits(w: World, found: seq<Found>, names: seq<string>)
    requires names != [] && Waiting(w, found, names)
    ensures Waiting(w, found, names[1..])
  {
    hide Homeless, GroupOf;
    forall i, x | 0 <= i < |names[1..]| && x in GroupOf(found, names[1..][i]) ensures Homeless(w, x.id) {
      assert names[1..][i] == names[i + 1];
    }
  }

  // ---------------------------------------------------------------- how the program starts

  predicate Configures(events: seq<Event>) {
    forall i :: 0 <= i < |events| ==> events[i].Configured?
  }

  /** The configured workspaces, one look at the platform, and the admissions. */
  function StartupRun(settings: Settings, s: Startup, configured: seq<Event>, o: Sighting, found: seq<Found>): seq<Event> {
    var looked := configured + [Observed(o)];
    looked + Admissions(settings, s, After(settings, START, looked), found, TargetsOf(found))
  }

  lemma {:induction false} AfterAppend(settings: Settings, e: Engine, a: seq<Event>, b: seq<Event>)
    ensures After(settings, e, a + b) == After(settings, After(settings, e, a), b)
    decreases |a|
  {
    hide Apply;
    if a == [] {
      assert a + b == b;
    } else {
      assert (a + b)[1..] == a[1..] + b;
      AfterAppend(settings, Apply(settings, e, a[0]), a[1..], b);
    }
  }

  lemma {:induction false} RunsAppend(settings: Settings, e: Engine, a: seq<Event>, b: seq<Event>)
    ensures EmittedRun(settings, e, a + b) <==> EmittedRun(settings, e, a) && EmittedRun(settings, After(settings, e, a), b)
    ensures NeverBlind(settings, e, a + b) <==> NeverBlind(settings, e, a) && NeverBlind(settings, After(settings, e, a), b)
    decreases |a|
  {
    hide Apply, Emitted, FocusesBlindly;
    if a == [] {
      assert a + b == b;
    } else {
      assert (a + b)[1..] == a[1..] + b;
      RunsAppend(settings, Apply(settings, e, a[0]), a[1..], b);
    }
  }

  /** Configuring moves nobody. */
  lemma {:induction false} ConfiguringIsEmpty(settings: Settings, e: Engine, events: seq<Event>, x: WindowId)
    requires Valid(e) && Configures(events) && Homeless(e.world, x)
    ensures EmittedRun(settings, e, events) && NeverBlind(settings, e, events)
    ensures Valid(After(settings, e, events)) && Homeless(After(settings, e, events).world, x)
    decreases |events|
  {
    hide Valid, Homeless, Apply, SpotOf;
    if events != [] {
      assert Sensible(e, events[0]);
      StepKeepsMembership(settings, e, events[0]);
      StepMovesExactly(settings, e, events[0], x);
      SpotNowhere(e.world, x);
      SpotNowhere(Apply(settings, e, events[0]).world, x);
      ConfiguringIsEmpty(settings, Apply(settings, e, events[0]), events[1..], x);
    }
  }

  lemma NobodyAtStart(x: WindowId)
    ensures Homeless(START.world, x)
  {
    EmptyHoldsNothing();
  }

  lemma LookingIsEmpty(settings: Settings, configured: seq<Event>, o: Sighting, x: WindowId)
    requires Configures(configured)
    ensures var looked := configured + [Observed(o)];
            && EmittedRun(settings, START, looked) && NeverBlind(settings, START, looked)
            && Valid(After(settings, START, looked)) && Homeless(After(settings, START, looked).world, x)
  {
    hide Valid, Homeless, Apply, SpotOf;
    StartIsExclusive();
    NobodyAtStart(x);
    ConfiguringIsEmpty(settings, START, configured, x);
    var e := After(settings, START, configured);
    assert [Observed(o)][1..] == [];
    StepKeepsMembership(settings, e, Observed(o));
    StepMovesExactly(settings, e, Observed(o), x);
    SpotNowhere(e.world, x);
    SpotNowhere(Apply(settings, e, Observed(o)).world, x);
    RunsAppend(settings, START, configured, [Observed(o)]);
    AfterAppend(settings, START, configured, [Observed(o)]);
    assert After(settings, e, [Observed(o)]) == Apply(settings, e, Observed(o));
  }

  /** Whatever windows are open, however they lie and whatever becomes of moving them: starting up is a run of allowed
      steps that never focuses. */
  lemma StartupIsEmitted(settings: Settings, s: Startup, configured: seq<Event>, o: Sighting, found: seq<Found>)
    requires Configures(configured) && Different(found)
    ensures var run := StartupRun(settings, s, configured, o, found);
            EmittedRun(settings, START, run) && NeverBlind(settings, START, run)
  {
    hide Valid, Homeless, After, EmittedRun, NeverBlind, Admissions, TargetsOf, GroupOf;
    var looked := configured + [Observed(o)];
    var e := After(settings, START, looked);
    forall x ensures Homeless(e.world, x) { LookingIsEmpty(settings, configured, o, x); }
    LookingIsEmpty(settings, configured, o, EMPTY_LEAF);
    AdmissionsAreEmitted(settings, s, e, found, TargetsOf(found));
    RunsAppend(settings, START, looked, Admissions(settings, s, e, found, TargetsOf(found)));
  }

  lemma {:induction false} EmittedRunIsSensible(settings: Settings, e: Engine, events: seq<Event>)
    requires EmittedRun(settings, e, events)
    ensures SensibleRun(settings, e, events)
    decreases |events|
  {
    hide Apply, Emitted, Sensible;
    if events != [] {
      EmittedIsSensible(e, events[0]);
      EmittedRunIsSensible(settings, Apply(settings, e, events[0]), events[1..]);
    }
  }

  /** Every world the program reaches, from starting up over whatever windows are open: well formed, and with one
      workspace per display at every point if and only if no later step focuses blindly. */
  lemma StartedWorldsAreSound(settings: Settings, s: Startup, configured: seq<Event>, o: Sighting, found: seq<Found>,
                              later: seq<Event>)
    requires Configures(configured) && Different(found)
    requires EmittedRun(settings, After(settings, START, StartupRun(settings, s, configured, o, found)), later)
    ensures var run := StartupRun(settings, s, configured, o, found);
            && Valid(After(settings, START, run + later))
            && (ExclusiveThroughout(settings, START, run + later)
                <==> NeverBlind(settings, After(settings, START, run), later))
  {
    hide Valid, After, EmittedRun, NeverBlind, ExclusiveThroughout, StartupRun, Exclusive;
    var run := StartupRun(settings, s, configured, o, found);
    StartupIsEmitted(settings, s, configured, o, found);
    RunsAppend(settings, START, run, later);
    EmittedRunIsSensible(settings, START, run + later);
    ReachableWorldsAreWellFormed(settings, run + later);
    StartedRunIsExclusiveIff(settings, run + later);
  }
}
