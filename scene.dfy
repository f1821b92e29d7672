/**
  The scene the add-on edits in place: its timeline markers and its marker
  groups, with the two property-update callbacks of a group and the execute
  step of the four operators. Every callback and operator states the whole
  new state as a function of the old one (module MarkerGroups), and each
  operator cancels with nothing changed or applies completely.
*/
module Scenes {
  import opened MarkerGroups
  import GroupProperties

  class Scene {
    var markers: seq<Marker>
    var groups: seq<Group>

    /**
      Every group's old name equals its name. The add-on restores this after
      each rename and sets both names together when it creates a group; a
      rename callback relies on it to know which markers belong to the group.
    */
    ghost predicate NamesTracked()
      reads this
    {
      forall g :: 0 <= g < |groups| ==> groups[g].oldName == groups[g].name
    }

    /** A scene holding the host's markers and no groups yet. */
    constructor (markers: seq<Marker>)
      ensures this.markers == markers && groups == []
      ensures NamesTracked()
    {
      this.markers := markers;
      groups := [];
    }

    /**
      Rewrites in place, with `f`, each marker listed in `idx` (a list of
      marker indices in collection order), as the add-on's
      `for m in <filtered list>:` loops do; every other marker is untouched.
    */
    method RewriteMarkers(idx: seq<nat>, f: Marker -> Marker)
      requires Increasing(idx)
      requires forall i :: i in idx ==> i < |markers|
      modifies this
      ensures groups == old(groups)
      ensures |markers| == |old(markers)|
      ensures forall i :: 0 <= i < |markers| ==>
        markers[i] == if i in idx then f(old(markers)[i]) else old(markers)[i]
    {
      var k := 0;
      while k < |idx|
        invariant 0 <= k <= |idx|
        invariant groups == old(groups)
        invariant |markers| == |old(markers)|
        invariant forall i :: 0 <= i < |markers| ==>
          markers[i] == if i in idx[..k] then f(old(markers)[i]) else old(markers)[i]
      {
        var j := idx[k];
        assert j in idx;
        assert idx[..k + 1] == idx[..k] + [j];
        assert j !in idx[..k];
        markers := markers[j := f(markers[j])];
        k := k + 1;
      }
      assert idx[..k] == idx;
    }

    // -------------------------------------------------------------------------
    // Property-update callbacks of a group
    // -------------------------------------------------------------------------

    /**
      update_group_name, run after group `g`'s name field was written: every
      marker tagged with the group's previous name takes the new name, and the
      previous name is brought up to date.
    */
    method UpdateGroupName(g: nat)
      requires g < |groups|
      modifies this
      ensures markers == RenameTags(old(markers), old(groups[g].oldName), old(groups[g].name))
      ensures groups == old(groups)[g := old(groups[g]).(oldName := old(groups[g].name))]
      ensures old(NamesTracked()) ==> NamesTracked()
    {
      var oldName := groups[g].oldName;
      var newName := groups[g].name;
      var i := 0;
      while i < |markers|
        invariant 0 <= i <= |markers|
        invariant groups == old(groups)
        invariant |markers| == |old(markers)|
        invariant forall j :: 0 <= j < i ==> markers[j] == Retagged(old(markers)[j], oldName, newName)
        invariant forall j :: i <= j < |markers| ==> markers[j] == old(markers)[j]
      {
        if InGroup(markers[i], oldName) {
          markers := markers[i := markers[i].(group := Some(newName))];
        }
        i := i + 1;
      }
      groups := groups[g := groups[g].(oldName := newName)];
    }

    /** Editing group `g`'s name field: write it, then run the rename callback. */
    method SetName(g: nat, newName: string)
      requires g < |groups|
      modifies this
      ensures markers == RenameTags(old(markers), old(groups[g].oldName), newName)
      ensures groups == old(groups)[g := old(groups[g]).(name := newName, oldName := newName)]
      ensures old(groups[g].oldName) == newName ==> markers == old(markers)
      ensures old(NamesTracked()) && old(groups[g].name) == newName ==> markers == old(markers)
      ensures old(NamesTracked()) ==> NamesTracked()
    {
      groups := groups[g := groups[g].(name := newName)];
      UpdateGroupName(g);
      GroupProperties.RenameSameNameNoOp(old(markers), newName);
    }

    /**
      update_group_visibility, run after group `g`'s eye toggle was written:
      with no members nothing happens; otherwise the members are shown or
      hidden according to the toggle.
    */
    method UpdateGroupVisibility(g: nat)
      requires g < |groups|
      modifies this
      ensures groups == old(groups)
      ensures markers == ToggleVisibility(old(markers), groups[g].name, groups[g].visible)
      ensures GroupMarkers(old(markers), groups[g].name) == [] ==> markers == old(markers)
    {
      var name := groups[g].name;
      var members := GroupMarkers(markers, name);
      if members == [] {
        GroupProperties.EmptyGroupToggleNoOp(markers, name, groups[g].visible);
        return;
      }
      if groups[g].visible {
        RewriteMarkers(members, Shown);
        assert markers == ShowGroup(old(markers), name);
      } else {
        RewriteMarkers(members, Hidden);
        assert markers == HideGroup(old(markers), name);
      }
    }

    /** Clicking group `g`'s eye toggle: write it, then run the visibility callback. */
    method SetVisible(g: nat, visible: bool)
      requires g < |groups|
      modifies this
      ensures groups == old(groups)[g := old(groups[g]).(visible := visible)]
      ensures markers == ToggleVisibility(old(markers), old(groups[g].name), visible)
      ensures old(NamesTracked()) ==> NamesTracked()
    {
      groups := groups[g := groups[g].(visible := visible)];
      UpdateGroupVisibility(g);
    }

    // -------------------------------------------------------------------------
    // Operators
    // -------------------------------------------------------------------------

    /**
      Make New Group: cancelled when a group of that name exists; otherwise one
      visible group with that name (and old name) is appended.
    */
    method MakeGroup(groupName: string) returns (status: Status)
      modifies this
      ensures markers == old(markers)
      ensures groups == AddGroup(old(groups), groupName)
      ensures status == if HasGroup(old(groups), groupName) then Cancelled else Finished(1)
      ensures UniqueNames(old(groups)) ==> UniqueNames(groups)
      ensures old(NamesTracked()) ==> NamesTracked()
    {
      if HasGroup(groups, groupName) {
        return Cancelled;
      }
      groups := groups + [NewGroup(groupName)];
      status := Finished(1);
    }

    /**
      Assign Selected Markers: cancelled when nothing is selected; otherwise
      every selected marker is tagged `groupName` and caches its current frame,
      and the count is the number of selected markers.
    */
    method AssignSelected(groupName: string) returns (status: Status)
      modifies this
      ensures groups == old(groups)
      ensures SelectedMarkers(old(markers)) == [] ==> status == Cancelled && markers == old(markers)
      ensures SelectedMarkers(old(markers)) != [] ==>
        status == Finished(|SelectedMarkers(old(markers))|) && markers == AssignSelection(old(markers), groupName)
    {
      var selected := SelectedMarkers(markers);
      if selected == [] {
        return Cancelled;
      }
      RewriteMarkers(selected, m => Assigned(m, groupName));
      assert markers == AssignSelection(old(markers), groupName);
      status := Finished(|selected|);
    }

    /**
      Remove Selected Markers from Group: cancelled when no selected marker is
      tagged `groupName`; otherwise those markers lose their tag (their cached
      frame stays), and the count is their number.
    */
    method RemoveSelected(groupName: string) returns (status: Status)
      modifies this
      ensures groups == old(groups)
      ensures SelectedInGroup(old(markers), groupName) == [] ==> status == Cancelled && markers == old(markers)
      ensures SelectedInGroup(old(markers), groupName) != [] ==>
        status == Finished(|SelectedInGroup(old(markers), groupName)|)
        && markers == RemoveSelection(old(markers), groupName)
    {
      var selected := SelectedInGroup(markers, groupName);
      if selected == [] {
        return Cancelled;
      }
      RewriteMarkers(selected, Released);
      assert markers == RemoveSelection(old(markers), groupName);
      status := Finished(|selected|);
    }

    /**
      Update Stored Positions: cancelled when the group has no members;
      otherwise every member caches its current frame, and the count is the
      number of members.
    */
    method UpdateOrigFrames(groupName: string) returns (status: Status)
      modifies this
      ensures groups == old(groups)
      ensures GroupMarkers(old(markers), groupName) == [] ==> status == Cancelled && markers == old(markers)
      ensures GroupMarkers(old(markers), groupName) != [] ==>
        status == Finished(|GroupMarkers(old(markers), groupName)|)
        && markers == StoreGroup(old(markers), groupName)
    {
      var members := GroupMarkers(markers, groupName);
      if members == [] {
        return Cancelled;
      }
      RewriteMarkers(members, Stored);
      assert markers == StoreGroup(old(markers), groupName);
      status := Finished(|members|);
    }
  }

  // ---------------------------------------------------------------------------
  // Client scenarios: what a caller can conclude from the contracts alone
  // ---------------------------------------------------------------------------

  /** Make-group twice with the same name: the second call is cancelled and one group remains. */
  method IntroScenario()
  {
    var s := new Scene([]);
    var first := s.MakeGroup("Intro");
    assert first == Finished(1) && s.groups == [Group("Intro", "Intro", true)];
    assert s.groups[0].name == "Intro";
    var second := s.MakeGroup("Intro");
    assert second == Cancelled && |s.groups| == 1;
  }

  /**
    Three selected markers at frames 10, 20 and 30 are assigned to a new
    group, hidden, and shown again: they come back to 10, 20 and 30.
  */
  method HideShowScenario()
  {
    var ms := [Marker(10, true, None, None), Marker(20, true, None, None), Marker(30, true, None, None)];
    var s := new Scene(ms);
    var made := s.MakeGroup("A");
    assert s.groups == [Group("A", "A", true)];

    GroupProperties.IncreasingUnique(SelectedMarkers(ms), [0, 1, 2]);
    var assignResult := s.AssignSelected("A");
    assert assignResult == Finished(3);
    var tagged := [Marker(10, true, Some("A"), Some(10)), Marker(20, true, Some("A"), Some(20)),
                   Marker(30, true, Some("A"), Some(30))];
    assert s.markers == tagged;

    s.SetVisible(0, false);
    assert s.markers == [Marker(HiddenFrame, true, Some("A"), Some(10)), Marker(HiddenFrame, true, Some("A"), Some(20)),
                         Marker(HiddenFrame, true, Some("A"), Some(30))];

    s.SetVisible(0, true);
    assert s.markers == tagged;
  }

  /** Two markers of group "A": renaming the group to "B" moves both, and renaming back restores them. */
  method RenameScenario()
  {
    var tagged := [Marker(10, false, Some("A"), None), Marker(20, false, Some("A"), None), Marker(30, false, None, None)];
    var s := new Scene(tagged);
    var made := s.MakeGroup("A");
    assert s.groups == [Group("A", "A", true)];

    s.SetName(0, "B");
    assert s.markers == [Marker(10, false, Some("B"), None), Marker(20, false, Some("B"), None), Marker(30, false, None, None)];
    assert s.groups == [Group("B", "B", true)];
    s.SetName(0, "A");
    assert s.markers == tagged;
  }
}
