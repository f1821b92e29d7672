/**
  The data the Marker Groups add-on works on, the marker filters it uses, and
  the effect of each of its operations on the marker and group tables, stated
  as pure functions of the tables before the operation.

  Markers are kept in collection order; a marker is referred to by its index
  in that order, which plays the part of the object reference the add-on holds
  while it loops over a filtered list.
*/
module MarkerGroups {

  datatype Option<T> = None | Some(value: T)

  /** The frame a hidden marker is parked at. */
  const HiddenFrame: int := -999999

  /**
    A timeline marker. `group` and `origFrame` are the two keys the add-on
    keeps in the marker's custom-property bag ("group" and "orig_frame");
    `None` means the key is absent.
  */
  datatype Marker = Marker(frame: int, select: bool, group: Option<string>, origFrame: Option<int>)

  /** A MarkerGroupItem: its display name, the name before the last rename, and its eye toggle. */
  datatype Group = Group(name: string, oldName: string, visible: bool)

  /** The result of an operator: cancelled with nothing changed, or finished having changed `count` records. */
  datatype Status = Cancelled | Finished(count: nat)

  /** The marker's "group" key is present and equal to `name`. */
  predicate InGroup(m: Marker, name: string)
  {
    m.group == Some(name)
  }

  ghost predicate Increasing(r: seq<nat>)
  {
    forall k, l :: 0 <= k < l < |r| ==> r[k] < r[l]
  }

  // ---------------------------------------------------------------------------
  // Filters
  // ---------------------------------------------------------------------------

  /** The indices of the markers `keep` accepts, in collection order. */
  function Where(ms: seq<Marker>, keep: Marker -> bool): (r: seq<nat>)
    ensures Increasing(r)
    ensures forall i :: i in r <==> 0 <= i < |ms| && keep(ms[i])
  {
    if ms == [] then []
    else
      var last := |ms| - 1;
      var front := Where(ms[..last], keep);
      assert forall i :: 0 <= i < last ==> ms[..last][i] == ms[i];
      assert forall k :: 0 <= k < |front| ==> front[k] in front;
      assert forall k :: 0 <= k < |front| ==> front[k] < last;
      front + (if keep(ms[last]) then [last] else [])
  }

  /** The members of group `name` (get_group_markers): every marker tagged `name`, in order, and no other. */
  function GroupMarkers(ms: seq<Marker>, name: string): (r: seq<nat>)
    ensures Increasing(r)
    ensures forall i :: i in r <==> 0 <= i < |ms| && ms[i].group == Some(name)
  {
    Where(ms, m => InGroup(m, name))
  }

  /** The selected markers, in order (the filter of the assign operator). */
  function SelectedMarkers(ms: seq<Marker>): (r: seq<nat>)
    ensures Increasing(r)
    ensures forall i :: i in r <==> 0 <= i < |ms| && ms[i].select
  {
    Where(ms, (m: Marker) => m.select)
  }

  /** The selected members of group `name`, in order (the filter of the remove operator). */
  function SelectedInGroup(ms: seq<Marker>, name: string): (r: seq<nat>)
    ensures Increasing(r)
    ensures forall i :: i in r <==> 0 <= i < |ms| && ms[i].select && ms[i].group == Some(name)
  {
    Where(ms, (m: Marker) => m.select && InGroup(m, name))
  }

  // ---------------------------------------------------------------------------
  // What each operation does to one marker
  // ---------------------------------------------------------------------------

  /** Rename: a marker tagged `from` is re-tagged `to`. */
  function Retagged(m: Marker, from: string, to: string): Marker
  {
    if InGroup(m, from) then m.(group := Some(to)) else m
  }

  /** Hide: cache the frame unless a cached frame exists, then park the marker. */
  function Hidden(m: Marker): Marker
  {
    m.(frame := HiddenFrame, origFrame := if m.origFrame.None? then Some(m.frame) else m.origFrame)
  }

  /** Show: move the marker back to its cached frame, if it has one. */
  function Shown(m: Marker): Marker
  {
    if m.origFrame.Some? then m.(frame := m.origFrame.value) else m
  }

  /** Assign: tag the marker and cache its current frame, overwriting any earlier cache. */
  function Assigned(m: Marker, name: string): Marker
  {
    m.(group := Some(name), origFrame := Some(m.frame))
  }

  /** Remove: delete the "group" key; the cached frame stays. */
  function Released(m: Marker): Marker
  {
    m.(group := None)
  }

  /** Update stored position: cache the current frame. */
  function Stored(m: Marker): Marker
  {
    m.(origFrame := Some(m.frame))
  }

  // ---------------------------------------------------------------------------
  // What each operation does to the marker table
  // ---------------------------------------------------------------------------

  function RenameTags(ms: seq<Marker>, from: string, to: string): seq<Marker>
  {
    seq(|ms|, i requires 0 <= i < |ms| => Retagged(ms[i], from, to))
  }

  function HideGroup(ms: seq<Marker>, name: string): seq<Marker>
  {
    seq(|ms|, i requires 0 <= i < |ms| => if InGroup(ms[i], name) then Hidden(ms[i]) else ms[i])
  }

  function ShowGroup(ms: seq<Marker>, name: string): seq<Marker>
  {
    seq(|ms|, i requires 0 <= i < |ms| => if InGroup(ms[i], name) then Shown(ms[i]) else ms[i])
  }

  /** The visibility callback of group `name` after its eye toggle was set to `visible`. */
  function ToggleVisibility(ms: seq<Marker>, name: string, visible: bool): seq<Marker>
  {
    if visible then ShowGroup(ms, name) else HideGroup(ms, name)
  }

  function AssignSelection(ms: seq<Marker>, name: string): seq<Marker>
  {
    seq(|ms|, i requires 0 <= i < |ms| => if ms[i].select then Assigned(ms[i], name) else ms[i])
  }

  function RemoveSelection(ms: seq<Marker>, name: string): seq<Marker>
  {
    seq(|ms|, i requires 0 <= i < |ms| =>
      if ms[i].select && InGroup(ms[i], name) then Released(ms[i]) else ms[i])
  }

  function StoreGroup(ms: seq<Marker>, name: string): seq<Marker>
  {
    seq(|ms|, i requires 0 <= i < |ms| => if InGroup(ms[i], name) then Stored(ms[i]) else ms[i])
  }

  // ---------------------------------------------------------------------------
  // The group table
  // ---------------------------------------------------------------------------

  /** Some group in the table is called `name`. */
  predicate HasGroup(gs: seq<Group>, name: string)
  {
    exists i | 0 <= i < |gs| :: gs[i].name == name
  }

  /** The record make-group appends: old name equal to the name, and visible. */
  function NewGroup(name: string): Group
  {
    Group(name, name, true)
  }

  /** The group table after make-group: unchanged when the name is taken, else one record appended. */
  function AddGroup(gs: seq<Group>, name: string): seq<Group>
  {
    if HasGroup(gs, name) then gs else gs + [NewGroup(name)]
  }

  ghost predicate UniqueNames(gs: seq<Group>)
  {
    forall i, j :: 0 <= i < j < |gs| ==> gs[i].name != gs[j].name
  }
}
