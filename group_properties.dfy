/**
  What the operations of the Marker Groups add-on guarantee, proved about the
  table-level functions of module MarkerGroups: which markers each operation
  touches, what it leaves alone, and how the operations compose (idempotence,
  the hide/show round trip, reversible renames, unique names under creation).
*/
module GroupProperties {
  import opened MarkerGroups

  // ---------------------------------------------------------------------------
  // Filters
  // ---------------------------------------------------------------------------

  /** Two increasing index lists holding the same indices are the same list. */
  lemma {:induction false} IncreasingUnique(r1: seq<nat>, r2: seq<nat>)
    requires Increasing(r1) && Increasing(r2)
    requires forall x :: x in r1 <==> x in r2
    ensures r1 == r2
    decreases |r1|
  {
    if r1 == [] {
      assert forall k :: 0 <= k < |r2| ==> r2[k] in r2;
    } else {
      assert r1[0] in r2;
      assert r2[0] in r1;
      assert r1[0] == r2[0] by {
        forall x | x in r1 ensures r1[0] <= x {
          var k :| 0 <= k < |r1| && r1[k] == x;
        }
        forall x | x in r2 ensures r2[0] <= x {
          var k :| 0 <= k < |r2| && r2[k] == x;
        }
      }
      forall x ensures x in r1[1..] <==> x in r2[1..] {
        TailMembers(r1, x);
        TailMembers(r2, x);
      }
      IncreasingUnique(r1[1..], r2[1..]);
    }
  }

  /** The tail of an increasing list holds exactly the indices other than the head. */
  lemma TailMembers(r: seq<nat>, x: int)
    requires Increasing(r) && r != []
    ensures Increasing(r[1..])
    ensures x in r[1..] <==> x in r && x != r[0]
  {
    if x in r && x != r[0] {
      var k :| 0 <= k < |r| && r[k] == x;
      assert r[1..][k - 1] == x;
    }
  }

  /** Group membership depends on the markers' tags alone. */
  lemma SameTagsSameMembers(ms: seq<Marker>, ms': seq<Marker>, name: string)
    requires |ms| == |ms'|
    requires forall i :: 0 <= i < |ms| ==> ms[i].group == ms'[i].group
    ensures GroupMarkers(ms, name) == GroupMarkers(ms', name)
  {
    IncreasingUnique(GroupMarkers(ms, name), GroupMarkers(ms', name));
  }

  // ---------------------------------------------------------------------------
  // Visibility toggle
  // ---------------------------------------------------------------------------

  /** Hiding parks every member, caches its frame unless a cache exists, and touches nothing else. */
  lemma HideEffect(ms: seq<Marker>, name: string)
    ensures |HideGroup(ms, name)| == |ms|
    ensures forall i :: 0 <= i < |ms| && InGroup(ms[i], name) ==>
      var h := HideGroup(ms, name)[i];
      && h.frame == HiddenFrame
      && h.origFrame == (if ms[i].origFrame.None? then Some(ms[i].frame) else ms[i].origFrame)
      && h.select == ms[i].select && h.group == ms[i].group
    ensures forall i :: 0 <= i < |ms| && !InGroup(ms[i], name) ==> HideGroup(ms, name)[i] == ms[i]
  {
  }

  /** Showing moves each member with a cached frame back to it; every other marker is untouched. */
  lemma ShowEffect(ms: seq<Marker>, name: string)
    ensures |ShowGroup(ms, name)| == |ms|
    ensures forall i :: 0 <= i < |ms| && InGroup(ms[i], name) && ms[i].origFrame.Some? ==>
      ShowGroup(ms, name)[i] == ms[i].(frame := ms[i].origFrame.value)
    ensures forall i :: 0 <= i < |ms| && (!InGroup(ms[i], name) || ms[i].origFrame.None?) ==>
      ShowGroup(ms, name)[i] == ms[i]
  {
  }

  /** Neither toggle changes which markers belong to the group. */
  lemma ToggleKeepsMembers(ms: seq<Marker>, name: string, visible: bool)
    ensures GroupMarkers(ToggleVisibility(ms, name, visible), name) == GroupMarkers(ms, name)
  {
    SameTagsSameMembers(ToggleVisibility(ms, name, visible), ms, name);
  }

  /** On a group with no members, either toggle changes nothing. */
  lemma EmptyGroupToggleNoOp(ms: seq<Marker>, name: string, visible: bool)
    requires GroupMarkers(ms, name) == []
    ensures ToggleVisibility(ms, name, visible) == ms
  {
  }

  /** Hiding twice gives the same table as hiding once. */
  lemma HideIdempotent(ms: seq<Marker>, name: string)
    ensures HideGroup(HideGroup(ms, name), name) == HideGroup(ms, name)
  {
  }

  /** Showing twice gives the same table as showing once. */
  lemma ShowIdempotent(ms: seq<Marker>, name: string)
    ensures ShowGroup(ShowGroup(ms, name), name) == ShowGroup(ms, name)
  {
  }

  /**
    Hide then show puts each member at its cached frame when it had one
    before hiding, and back at its own frame otherwise.
  */
  lemma ShowAfterHide(ms: seq<Marker>, name: string)
    ensures |ShowGroup(HideGroup(ms, name), name)| == |ms|
    ensures forall i :: 0 <= i < |ms| ==>
      ShowGroup(HideGroup(ms, name), name)[i].frame ==
        if InGroup(ms[i], name) && ms[i].origFrame.Some? then ms[i].origFrame.value else ms[i].frame
  {
  }

  /**
    The hide/show round trip: when no member's cache disagrees with its frame,
    hiding then showing returns every member to its frame, with that frame
    now cached: the same table as updating the stored positions.
  */
  lemma HideShowRoundTrip(ms: seq<Marker>, name: string)
    requires forall i :: 0 <= i < |ms| && InGroup(ms[i], name) ==>
      ms[i].origFrame.None? || ms[i].origFrame == Some(ms[i].frame)
    ensures ShowGroup(HideGroup(ms, name), name) == StoreGroup(ms, name)
    ensures forall i :: 0 <= i < |ms| ==> ShowGroup(HideGroup(ms, name), name)[i].frame == ms[i].frame
  {
    var back := ShowGroup(HideGroup(ms, name), name);
    assert |back| == |StoreGroup(ms, name)|;
    forall i | 0 <= i < |ms| ensures back[i] == StoreGroup(ms, name)[i] {
      if InGroup(ms[i], name) {
        assert HideGroup(ms, name)[i] == Hidden(ms[i]);
      }
    }
  }

  // ---------------------------------------------------------------------------
  // Rename
  // ---------------------------------------------------------------------------

  /** Rename re-tags exactly the markers tagged `from`; positions, caches and selection are untouched. */
  lemma RenameEffect(ms: seq<Marker>, from: string, to: string)
    ensures |RenameTags(ms, from, to)| == |ms|
    ensures forall i :: 0 <= i < |ms| ==>
      var m := RenameTags(ms, from, to)[i];
      && m.group == (if ms[i].group == Some(from) then Some(to) else ms[i].group)
      && m.frame == ms[i].frame && m.origFrame == ms[i].origFrame && m.select == ms[i].select
  {
  }

  /** A rename to the name the group already had changes nothing. */
  lemma RenameSameNameNoOp(ms: seq<Marker>, name: string)
    ensures RenameTags(ms, name, name) == ms
  {
  }

  /**
    After renaming `from` to a different `to`, no marker is left in `from`, and
    the members of `to` are the old members of `from` together with those `to`
    already had: the rename merges the two when `to` was in use.
  */
  lemma RenameMergesMembers(ms: seq<Marker>, from: string, to: string)
    requires from != to
    ensures forall i :: i !in GroupMarkers(RenameTags(ms, from, to), from)
    ensures forall i :: i in GroupMarkers(RenameTags(ms, from, to), to) <==>
      i in GroupMarkers(ms, from) || i in GroupMarkers(ms, to)
  {
  }

  /** A rename to a name no marker carries is undone by renaming back. */
  lemma RenameReversible(ms: seq<Marker>, from: string, to: string)
    requires GroupMarkers(ms, to) == []
    ensures RenameTags(RenameTags(ms, from, to), to, from) == ms
  {
  }

  /**
    Between two distinct names, a rename is not undone by renaming back once
    some marker already carried the new name: that marker ends up under the
    old name.
  */
  lemma RenameNotReversible(ms: seq<Marker>, from: string, to: string)
    requires from != to && GroupMarkers(ms, to) != []
    ensures RenameTags(RenameTags(ms, from, to), to, from) != ms
  {
    var i := GroupMarkers(ms, to)[0];
    assert i in GroupMarkers(ms, to);
    assert RenameTags(RenameTags(ms, from, to), to, from)[i].group == Some(from);
  }

  // ---------------------------------------------------------------------------
  // Assign selected
  // ---------------------------------------------------------------------------

  /** Assign tags and caches every selected marker at its current frame and leaves the rest alone. */
  lemma AssignEffect(ms: seq<Marker>, name: string)
    ensures |AssignSelection(ms, name)| == |ms|
    ensures forall i :: 0 <= i < |ms| && ms[i].select ==>
      AssignSelection(ms, name)[i] == ms[i].(group := Some(name), origFrame := Some(ms[i].frame))
    ensures forall i :: 0 <= i < |ms| && !ms[i].select ==> AssignSelection(ms, name)[i] == ms[i]
  {
  }

  /** After assigning, the group's members are its old members together with the selected markers. */
  lemma AssignJoinsGroup(ms: seq<Marker>, name: string)
    ensures forall i :: i in GroupMarkers(AssignSelection(ms, name), name) <==>
      i in SelectedMarkers(ms) || i in GroupMarkers(ms, name)
  {
  }

  /**
    Showing the group straight after an assign moves no assigned marker, since
    each one's cache is its current frame; in particular a marker assigned
    while parked at the hidden frame stays parked.
  */
  lemma ShowAfterAssignKeepsSelected(ms: seq<Marker>, name: string)
    ensures forall i :: 0 <= i < |ms| && ms[i].select ==>
      ShowGroup(AssignSelection(ms, name), name)[i].frame == ms[i].frame
  {
  }

  /** With nothing selected, assign leaves the table as it was. */
  lemma NoSelectionNoAssign(ms: seq<Marker>, name: string)
    requires SelectedMarkers(ms) == []
    ensures AssignSelection(ms, name) == ms
  {
  }

  // ---------------------------------------------------------------------------
  // Remove selected
  // ---------------------------------------------------------------------------

  /** Remove drops the tag of the selected members only; frames and caches stay. */
  lemma RemoveEffect(ms: seq<Marker>, name: string)
    ensures |RemoveSelection(ms, name)| == |ms|
    ensures forall i :: 0 <= i < |ms| && ms[i].select && InGroup(ms[i], name) ==>
      RemoveSelection(ms, name)[i] == ms[i].(group := None)
    ensures forall i :: 0 <= i < |ms| && !(ms[i].select && InGroup(ms[i], name)) ==>
      RemoveSelection(ms, name)[i] == ms[i]
  {
  }

  /** After removing, the group's members are its old members that were not selected. */
  lemma RemoveLeavesGroup(ms: seq<Marker>, name: string)
    ensures forall i :: i in GroupMarkers(RemoveSelection(ms, name), name) <==>
      i in GroupMarkers(ms, name) && i !in SelectedMarkers(ms)
  {
  }

  /** Removing from one group does not change the members of any other. */
  lemma RemoveKeepsOtherGroups(ms: seq<Marker>, name: string, other: string)
    requires other != name
    ensures GroupMarkers(RemoveSelection(ms, name), other) == GroupMarkers(ms, other)
  {
    IncreasingUnique(GroupMarkers(RemoveSelection(ms, name), other), GroupMarkers(ms, other));
  }

  /** With no selected member, remove leaves the table as it was. */
  lemma NothingToRemove(ms: seq<Marker>, name: string)
    requires SelectedInGroup(ms, name) == []
    ensures RemoveSelection(ms, name) == ms
  {
  }

  // ---------------------------------------------------------------------------
  // Update stored positions
  // ---------------------------------------------------------------------------

  /** Every member caches its current frame; non-members and all frames are untouched. */
  lemma StoreEffect(ms: seq<Marker>, name: string)
    ensures |StoreGroup(ms, name)| == |ms|
    ensures forall i :: 0 <= i < |ms| && InGroup(ms[i], name) ==>
      StoreGroup(ms, name)[i] == ms[i].(origFrame := Some(ms[i].frame))
    ensures forall i :: 0 <= i < |ms| && !InGroup(ms[i], name) ==> StoreGroup(ms, name)[i] == ms[i]
  {
  }

  /** Updating the stored positions twice gives the same table as doing it once. */
  lemma StoreIdempotent(ms: seq<Marker>, name: string)
    ensures StoreGroup(StoreGroup(ms, name), name) == StoreGroup(ms, name)
  {
  }

  /** After updating the stored positions, a hide/show cycle returns every member to where it was. */
  lemma StoredRoundTrip(ms: seq<Marker>, name: string)
    ensures ShowGroup(HideGroup(StoreGroup(ms, name), name), name) == StoreGroup(ms, name)
  {
    HideShowRoundTrip(StoreGroup(ms, name), name);
    StoreIdempotent(ms, name);
  }

  // ---------------------------------------------------------------------------
  // Make group
  // ---------------------------------------------------------------------------

  /**
    Make-group keeps every existing record, and afterwards a group of that name
    exists; it appends exactly one record when the name was free and none otherwise.
  */
  lemma AddGroupEffect(gs: seq<Group>, name: string)
    ensures HasGroup(AddGroup(gs, name), name)
    ensures AddGroup(gs, name)[..|gs|] == gs
    ensures HasGroup(gs, name) ==> AddGroup(gs, name) == gs
    ensures !HasGroup(gs, name) ==> |AddGroup(gs, name)| == |gs| + 1 && AddGroup(gs, name)[|gs|] == Group(name, name, true)
  {
    if !HasGroup(gs, name) {
      assert AddGroup(gs, name)[|gs|].name == name;
    }
  }

  /** Make-group never introduces a second group of the same name. */
  lemma AddGroupKeepsNamesUnique(gs: seq<Group>, name: string)
    requires UniqueNames(gs)
    ensures UniqueNames(AddGroup(gs, name))
  {
  }

  /** The group table after make-group was run with each name of `names` in turn. */
  function AddGroups(gs: seq<Group>, names: seq<string>): seq<Group>
    decreases |names|
  {
    if names == [] then gs else AddGroups(AddGroup(gs, names[0]), names[1..])
  }

  /** Group names stay unique under any sequence of creations. */
  lemma {:induction false} CreationKeepsNamesUnique(gs: seq<Group>, names: seq<string>)
    requires UniqueNames(gs)
    ensures UniqueNames(AddGroups(gs, names))
    decreases |names|
  {
    if names != [] {
      AddGroupKeepsNamesUnique(gs, names[0]);
      CreationKeepsNamesUnique(AddGroup(gs, names[0]), names[1..]);
    }
  }
}
