# Marker Groups, modelled in Dafny

The Marker Groups add-on organises a scene's timeline markers into named groups.
Each group can be renamed and its visibility toggled. The add-on keeps two tables:

- the scene's markers, in collection order, each with a frame, a selection flag, and two optional
  keys in its custom-property bag: `group` (the name of the group it belongs to) and
  `orig_frame` (the frame cached for hide/show);
- the scene's marker groups, in creation order, each with `name`, `old_name` and `visible`.

This project models the part of the add-on that changes these tables:

- the membership filter `get_group_markers`;
- the two property-update callbacks of a group: rename, which re-tags the group's markers,
  and the visibility toggle, which parks members at frame -999999 and restores them from
  `orig_frame`;
- the `execute` step of the four operators: make group, assign selected, remove selected and
  update stored positions.

Layout:

- `marker_groups.dfy` (module `MarkerGroups`): the records (`Marker`, `Group`, `Status`) and the
  filters. A filter returns the indices of the markers it keeps, in collection order. The index
  stands for the reference the add-on holds while it loops over a filtered list. The module also
  gives the effect of every operation as a pure function of the tables before it (`RenameTags`,
  `HideGroup`, `ShowGroup`, `AssignSelection`, `RemoveSelection`, `StoreGroup`, `AddGroup`).
- `group_properties.dfy` (module `GroupProperties`): lemmas about those functions. They cover
  which markers each operation changes and how, what it leaves alone, idempotence, the hide/show
  round trip, renames that merge or can be undone, and name uniqueness under creation.
- `scene.dfy` (module `Scenes`): class `Scene`, whose `markers` and `groups` fields the methods
  update in place with loops. The postcondition of every callback and operator gives the whole
  new state as one of the functions above applied to the old state. The shared loop
  `RewriteMarkers` states its effect marker by marker. Each operator either returns `Cancelled`
  and changes nothing, or returns `Finished(count)` and applies completely. The ghost predicate
  `NamesTracked` (every group's old name equals its name) holds for a new scene and every
  callback and operator preserves it. Three client methods replay the make-group, hide/show and
  rename scenarios from the contracts alone.

`Finished(count)` carries the number the add-on reports: the selected markers for assign, the
selected members for remove, and the members for update. Make group reports no number, and the
model returns `Finished(1)` for the one group it appends.

## Model

| member | source | states |
|---|---|---|
| MarkerGroups.Where | Marker_Groups.py:21 | a list-comprehension filter yields, in collection order, the index of every marker the condition accepts and of no other |
| MarkerGroups.GroupMarkers | Marker_Groups.py:20-21 | the members of a group are exactly the markers whose `group` key equals the name, in collection order; untagged markers are never members |
| MarkerGroups.SelectedMarkers | Marker_Groups.py:111 | the assign operator works on exactly the selected markers, in order |
| MarkerGroups.SelectedInGroup | Marker_Groups.py:133 | the remove operator works on exactly the markers that are both selected and tagged with the group, in order |
| GroupProperties.SameTagsSameMembers | Marker_Groups.py:20-21 | group membership depends only on the markers' tags, so an edit that keeps every tag keeps every group's member list |
| Scenes.Scene.RewriteMarkers | Marker_Groups.py:45-52 | the shared form of the `for m in <filtered list>:` loops (also at lines 117-119, 139-140 and 160-161): each listed marker is rewritten in place and every other marker is unchanged |
| Scenes.Scene.UpdateGroupName | Marker_Groups.py:24-33 | the rename callback re-tags every marker tagged with the old name to the current name and sets `old_name` to the name; nothing else changes |
| Scenes.Scene.SetName | Marker_Groups.py:60-64 | writing the name field and running the callback renames the group's markers; while every group's old name equals its name, writing back the name the group already had changes no marker; that invariant is preserved |
| GroupProperties.RenameEffect | Marker_Groups.py:29-31 | rename re-tags exactly the markers tagged with the old name; other tags, frames, caches and selection are unchanged |
| GroupProperties.RenameSameNameNoOp | Marker_Groups.py:24-33 | once `old_name` equals the name, a rename changes nothing |
| GroupProperties.RenameMergesMembers | Marker_Groups.py:29-31 | after a rename to a different name no marker is left under the old name, and the new name's members are the old group's members together with any markers already carrying the new name; there is no collision check |
| GroupProperties.RenameReversible | Marker_Groups.py:29-31 | a rename to a name no marker carries is undone by renaming back |
| GroupProperties.RenameNotReversible | Marker_Groups.py:29-31 | between two distinct names, once some marker already carried the new name, renaming back does not restore the markers |
| Scenes.Scene.UpdateGroupVisibility | Marker_Groups.py:36-52 | the visibility callback shows or hides the group's members according to `visible`; with no members it changes nothing; the group table is unchanged |
| Scenes.Scene.SetVisible | Marker_Groups.py:65-69 | writing the eye toggle and running the callback sets `visible` and applies show or hide to the group's markers |
| GroupProperties.HideEffect | Marker_Groups.py:48-52 | hiding sets every member's frame to -999999, caches its previous frame when no cache exists, keeps an existing cache, and changes no other marker |
| GroupProperties.ShowEffect | Marker_Groups.py:44-47 | showing moves each member that has a cache to the cached frame; members without one and all non-members are unchanged |
| GroupProperties.ToggleKeepsMembers | Marker_Groups.py:36-52 | neither toggle changes which markers belong to the group |
| GroupProperties.EmptyGroupToggleNoOp | Marker_Groups.py:41-42 | on a group with no members either toggle leaves the markers as they were |
| GroupProperties.HideIdempotent | Marker_Groups.py:48-52 | hiding twice gives the same markers as hiding once |
| GroupProperties.ShowIdempotent | Marker_Groups.py:44-47 | showing twice gives the same markers as showing once |
| GroupProperties.ShowAfterHide | Marker_Groups.py:44-52 | after hiding then showing, each member is at the frame it had cached before hiding if it had one, and at its own pre-hide frame otherwise |
| GroupProperties.HideShowRoundTrip | Marker_Groups.py:44-52 | when every member has no cache or a cache equal to its frame, hiding then showing restores every frame and leaves the same markers as updating the stored positions |
| Scenes.Scene.MakeGroup | Marker_Groups.py:84-97 | cancelled with both tables unchanged when a group of that name exists; otherwise exactly one group with name and old name equal to the given name, visible, is appended; unique names stay unique |
| GroupProperties.AddGroupEffect | Marker_Groups.py:87-94 | make group keeps every existing group and afterwards a group of that name exists; it appends one record when the name was free and none when it was taken |
| GroupProperties.AddGroupKeepsNamesUnique | Marker_Groups.py:87-94 | make group never creates a second group with an existing name |
| GroupProperties.CreationKeepsNamesUnique | Marker_Groups.py:84-97 | group names stay unique under any sequence of make-group calls |
| Scenes.Scene.AssignSelected | Marker_Groups.py:109-122 | cancelled with nothing changed when no marker is selected; otherwise every selected marker is tagged and caches its current frame, and the count is the number of selected markers |
| GroupProperties.AssignEffect | Marker_Groups.py:117-119 | each selected marker gets the tag and a cache equal to its current frame, overwriting any earlier cache; its frame is kept, and unselected markers are untouched |
| GroupProperties.AssignJoinsGroup | Marker_Groups.py:117-119 | after assigning, the group's members are its earlier members together with the selected markers |
| GroupProperties.ShowAfterAssignKeepsSelected | Marker_Groups.py:117-119 | showing the group straight after an assign moves no assigned marker, so a marker assigned while parked at -999999 stays parked |
| GroupProperties.NoSelectionNoAssign | Marker_Groups.py:113-115 | with nothing selected, assigning would change nothing |
| Scenes.Scene.RemoveSelected | Marker_Groups.py:131-143 | cancelled with nothing changed when no selected marker carries the tag; otherwise exactly those markers lose their tag, and the count is their number |
| GroupProperties.RemoveEffect | Marker_Groups.py:139-140 | only markers that are both selected and tagged lose the tag; their frame and cache stay, and every other marker is unchanged |
| GroupProperties.RemoveLeavesGroup | Marker_Groups.py:133-140 | after removing, the group's members are its earlier members that were not selected |
| GroupProperties.RemoveKeepsOtherGroups | Marker_Groups.py:133-140 | removing from one group leaves the member list of every other group unchanged |
| GroupProperties.NothingToRemove | Marker_Groups.py:135-137 | when no selected marker carries the tag, removing would change nothing |
| Scenes.Scene.UpdateOrigFrames | Marker_Groups.py:152-164 | cancelled with nothing changed when the group has no members; otherwise every member caches its current frame, and the count is the number of members |
| GroupProperties.StoreEffect | Marker_Groups.py:160-161 | each member's cache becomes its current frame; frames and non-members are untouched |
| GroupProperties.StoreIdempotent | Marker_Groups.py:160-161 | updating the stored positions twice with no frame edits gives the same markers as doing it once |
| GroupProperties.StoredRoundTrip | Marker_Groups.py:152-164 | after updating the stored positions, a hide/show cycle returns every member to where it was |

## Left out

- The add-on metadata, registration and unregistration, and the scene field they add (Marker_Groups.py:1-9, 220-242). These are host plugin plumbing with no behaviour on the tables.
- The three panels and their shared `draw` (Marker_Groups.py:171-213). They are UI layout only.
- `invoke` and its property dialog (Marker_Groups.py:99-100). This is host dialog plumbing; the model starts from `execute` with the name already filled in.
- The text of the warning and info reports. Only the `Cancelled`/`Finished(count)` outcome is modelled.
- The host fires `update=` callbacks implicitly when a field is assigned. The model calls the callbacks explicitly (`SetName`, `SetVisible`). The field writes inside make group (Marker_Groups.py:92-94) are modelled as a plain append, so the model does not capture what the host's callbacks might do to markers at that point.
- Frames are unbounded integers. The host's integer width and any clamping of the -999999 frame are not modelled.
- The `group` key is modelled as a string or absent. A property bag can hold a value of another type under that key, and the model does not cover that.
- The host creates and deletes markers, and the model does not. The number of markers stays fixed across every operation.
- Group names are not kept unique under rename, because the add-on does not check for collisions. The model proves uniqueness under creation only, and `RenameMergesMembers` states the merge a colliding rename causes.
- For distinct names A and B, a rename from A to B and back restores the markers if and only if no marker was already tagged B (`RenameReversible` and `RenameNotReversible`).
