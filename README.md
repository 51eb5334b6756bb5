# Floor-map wayfinding editor — a Dafny model

A browser tool for drawing an indoor navigation graph over a floor-plan image. The
dashboard keeps an index of projects. The editor of a project places nodes on the image,
connects them, renames, retypes and deletes them, and pans and zooms the view. The floor
plan, the view and the index live in `localStorage`.

This project models, in Dafny:

- `Graph` — the floor plan's node list and the three pure transformations of it: connect
  two nodes, update a node, delete a node with all connections to it. It also covers
  appending the node a canvas click creates. The graph invariant the editor means to keep
  is `WellFormed`: connections are symmetric, there are no self-edges, no connection list
  names a target twice, and node ids are unique. Each operation's effect is proved, and
  so is the invariant it keeps.
- `Edges` — the connection lines drawn over the plan. `EnumerateEdges` loops over every
  stored connection with a set of seen keys, as the code does. It is proved to draw each
  unordered pair at most once, to draw a line for every connection whose target exists,
  and to draw nothing else.
- `Viewport` — the transform `{x, y, scale}` over the reals. It covers wheel zoom anchored
  at the cursor, the zoom and reset buttons, dragging, and the unprojection, bounds check
  and rounding of a click that places a node.
- `Persist` — `localStorage` as a class over a map. It defines the three key families,
  the project record, and the list and store functions behind creating and deleting a
  project and refreshing an index record.
- `Editor` — the editor component as a class. Each handler is a method that states the
  whole new state in terms of the functions above. Every handler keeps the scale at or
  above 0.1 (`Valid`). The node-changing handlers keep `WellFormed`.
- `Dashboard` — the dashboard component as a class, with `String.prototype.trim` written
  out over the ECMAScript white-space characters.

Where the code does something a reader may not expect, the model follows the code:

- `createConnection(a, a)` itself does not reject equal ids. It appends a connection from
  the node to itself (`Graph.CreateConnectionSameIdStoresSelfEdge`). Only the `===` guard
  in `handleNodeClick` keeps clicks from doing that.
- `deleteNode` clears the selection when it names the deleted node. It does not clear the
  pending connection start.
- The zoom-in button has no upper bound, so only `scale >= 0.1` is an invariant, not
  `scale <= 10` (`Viewport.ZoomInExceedsWheelRange`).

## Model

| member | source | states |
|---|---|---|
| Graph.FindIndex | src/Editor.jsx:317-318 | the index of the first node with the id; None exactly when no node has it |
| Graph.Find | src/Editor.jsx:317-319 | `find` gives a node exactly when some node has the id, and the node it gives is the first with that id |
| Graph.SymmetricBothWays | src/Editor.jsx:321-345 | in a symmetric plan, a is linked to b exactly when b is linked to a |
| Graph.WellFormedOnlyByShape | src/Editor.jsx:401-408 | the invariant depends only on ids and connections, so editing names and types cannot break it |
| Graph.AddIfAbsent | src/Editor.jsx:327-336 | afterwards the node connects to the target; a node that already did is returned unchanged, one that did not gains exactly one entry, `{target, 0}`, at the end of its list; id, name, type and coordinates are kept |
| Graph.LinkNode | src/Editor.jsx:326-340 | the `map` callback: a node with id a connects to b, one with id b to a, any other node is returned as it is; fields and old entries are kept and at most one entry, naming the other end with distance 0, is added |
| Graph.CreateConnection | src/Editor.jsx:316-346 | with either id missing the plan is unchanged; otherwise the length and order of nodes are kept, as are every node's id, name, type and coordinates, and every connection list only grows |
| Graph.CreateConnectionEffect | src/Editor.jsx:321-345 | with both ends present, a node with id a connects to b and one with id b connects to a; nodes with other ids are untouched; a node gains at most one entry, `{other end, 0}` where the other end is b for a node with id a and a otherwise, and only if it had none for that end |
| Graph.LinkNodeIdempotent | src/Editor.jsx:325-343 | the `map` callback applied twice gives what it gives once |
| Graph.ConnectedKeepsEnds | src/Editor.jsx:316-346 | both ends are still present after connecting them |
| Graph.RelinkChangesNothing | src/Editor.jsx:316-346 | connecting again, with both ends present, changes nothing |
| Graph.CreateConnectionIdempotent | src/Editor.jsx:316-346 | connecting the same two ids twice is the same as once |
| Graph.AddIfAbsentKeepsDistinct | src/Editor.jsx:327-336 | the `some` check keeps a node's connection targets distinct |
| Graph.LinkNodeKeepsNodeInvariant | src/Editor.jsx:325-343 | for distinct ends, a mapped node has no self-edge and no repeated target if it had none before |
| Graph.ConnectsToExtended | src/Editor.jsx:327-336 | extending a connection list keeps every connection it had |
| Graph.OldConnectionStillLinked | src/Editor.jsx:321-345 | every connection stored before connecting is still matched by a reverse connection after it |
| Graph.NewConnectionLinked | src/Editor.jsx:321-345 | every connection that connecting adds is matched by a reverse connection |
| Graph.CreateConnectionKeepsSymmetric | src/Editor.jsx:316-346 | if every connection had its reverse before, it has one after |
| Graph.CreateConnectionKeepsNoSelfEdges | src/Editor.jsx:316-346 | connecting two distinct ids never creates a self-edge |
| Graph.CreateConnectionSameIdStoresSelfEdge | src/Editor.jsx:316-346 | called with the same id for both ends, the node gets a connection to itself |
| Graph.CreateConnectionKeepsWellFormed | src/Editor.jsx:316-346 | connecting two distinct ids keeps the whole graph invariant |
| Graph.RemoveConnectionsTo | src/Editor.jsx:417 | the filtered list is no longer, and holds exactly the old entries that do not name the id |
| Graph.RemoveConnectionsToAppend | src/Editor.jsx:417 | the filter distributes over concatenation, so the kept connections stay in their order |
| Graph.RemoveConnectionsToKeepsDistinct | src/Editor.jsx:417 | filtering keeps connection targets distinct |
| Graph.RemoveConnectionsToAbsent | src/Editor.jsx:417 | filtering out an id no entry names changes nothing |
| Graph.Detach | src/Editor.jsx:415-418 | a surviving node keeps id, name, type and coordinates, and its connections are exactly its old entries with the deleted id filtered out, in order and with their distances; it connects to t exactly when it did and t is not the deleted id |
| Graph.DeleteNode | src/Editor.jsx:410-421 | no remaining node has the id or a connection to it, and the list does not grow |
| Graph.DeleteNodeAppend | src/Editor.jsx:413-418 | deleting distributes over concatenation, so the survivors keep their relative order |
| Graph.DeleteNodeMembers | src/Editor.jsx:413-418 | a node is in the result exactly when it is a detached copy of a node with another id |
| Graph.DeleteNodeAbsent | src/Editor.jsx:410-421 | deleting an id that no node has and no connection names changes nothing |
| Graph.DeleteNodeAbsentWellFormed | src/Editor.jsx:410-421 | in a well-formed plan, deleting an id no node has changes nothing |
| Graph.DeleteNodeIdempotent | src/Editor.jsx:410-421 | deleting twice is deleting once |
| Graph.DeleteNodeKeepsUniqueIds | src/Editor.jsx:413-418 | distinct ids stay distinct |
| Graph.DeleteNodeKeepsWellFormed | src/Editor.jsx:410-421 | deleting keeps the whole graph invariant |
| Graph.UpdateNode | src/Editor.jsx:401-408 | every node keeps its position, id, connections and coordinates |
| Graph.ApplyEdit | src/Editor.jsx:405 | `{ ...node, [field]: value }` changes the named field only: a rename sets the name and keeps the type, a retype sets the type and keeps the name; id, coordinates and connections are kept |
| Graph.UpdateNodeEffect | src/Editor.jsx:404-406 | a node with the id gets the new name or type; every other node is unchanged |
| Graph.UpdateNodeAbsent | src/Editor.jsx:401-408 | updating an id no node has changes nothing |
| Graph.UpdateNodeIdempotent | src/Editor.jsx:401-408 | applying the same edit twice is applying it once |
| Graph.UpdateNodeKeepsWellFormed | src/Editor.jsx:401-408 | updating keeps the graph invariant |
| Graph.NatToString | src/Editor.jsx:271 | the decimal text of a number is non-empty, all digits, and has no leading zero |
| Graph.NatToStringRoundTrip | src/Editor.jsx:271 | the decimal text reads back as the number |
| Graph.DefaultName | src/Editor.jsx:271 | a new node is named `Node ` followed by decimal digits, without a leading zero, that read back as the new node count |
| Graph.DefaultNameExample | src/Editor.jsx:271 | with six nodes on the plan the next one is named `Node 7` |
| Graph.AddNode | src/Editor.jsx:269-284 | the new node is appended after the unchanged old ones, with the fresh id, the name `Node ` and the new count, type room, no connections, the stored position and the floor's id |
| Graph.AddNodeKeepsWellFormed | src/Editor.jsx:269-284 | appending a node with a fresh id keeps the graph invariant |
| Edges.Before | src/Editor.jsx:370 | the comparison `.sort()` applies to two ids, character by character; its meaning is stated by `Edges.BeforeIsLexicographic` |
| Edges.BeforeIsLexicographic | src/Editor.jsx:370 | the order of `.sort()` is lexicographic by character code: a proper prefix comes first, otherwise the smaller character at the first difference decides |
| Edges.BeforeIrreflexive | src/Editor.jsx:370 | no id sorts before itself |
| Edges.BeforeTotal | src/Editor.jsx:370 | of two distinct ids exactly one sorts first |
| Edges.BeforeAsymmetric | src/Editor.jsx:370 | two ids never sort before each other |
| Edges.SortKey | src/Editor.jsx:370 | the key holds the two ids, the earlier one first |
| Edges.SortKeyCommutes | src/Editor.jsx:370 | the key does not depend on which end stores the connection |
| Edges.LineBetween | src/Editor.jsx:377-395 | the line runs from the node's coordinates to the target's, and its key holds the two ids, the earlier one first |
| Edges.EnumerateEdges | src/Editor.jsx:362-399 | no two lines share a key; every line runs from a node to the target of one of its connections; every connection whose target exists has a line with its key |
| Edges.DrawConnectionsOf | src/Editor.jsx:367-396 | the inner loop keeps the loop invariant: visited keys recorded, drawn keys distinct, each line justified by a connection |
| Edges.VisitedStep | src/Editor.jsx:368-370 | recording the key of the connection just visited extends the visited prefix |
| Edges.SkipMissingKeepsDrawn | src/Editor.jsx:372-375 | a key recorded for a missing target keeps the loop invariant without a line |
| Edges.DrawLineKeepsDrawn | src/Editor.jsx:369-395 | drawing the line of a new key with an existing target keeps the loop invariant |
| Edges.MutualConnectionDrawnOnce | src/Editor.jsx:365-375 | two nodes that store each other give exactly one line, keyed `A`, `B` |
| Viewport.ClampWheelScale | src/Editor.jsx:156 | the result lies in `[0.1, 10]` and is the input when the input already does |
| Viewport.Unproject | src/Editor.jsx:243-244 | the image point shown at the click: scaling it and adding the offset gives the click |
| Viewport.Project | src/Editor.jsx:528-533 | the point at which an image point is shown; unprojecting it gives the image point back |
| Viewport.UnprojectProject | src/Editor.jsx:243-244 | unprojecting a shown point gives back the image point |
| Viewport.ProjectUnproject | src/Editor.jsx:528-533 | showing an unprojected point gives back the container point |
| Viewport.WheelZoom | src/Editor.jsx:153-173 | the new scale is the clamped `scale - deltaY * 0.001 * scale`, within `[0.1, 10]` |
| Viewport.AnchorCoordinate | src/Editor.jsx:165-167 | one coordinate of the anchoring identity |
| Viewport.WheelZoomKeepsCursorPoint | src/Editor.jsx:153-173 | the image point under the cursor is the same before and after a wheel zoom |
| Viewport.WheelZoomDirection | src/Editor.jsx:156 | within the wheel's range, scrolling up never zooms out and scrolling down never zooms in |
| Viewport.ZoomIn | src/Editor.jsx:469 | the scale grows, the offset is kept |
| Viewport.ZoomOut | src/Editor.jsx:470 | the scale is 0.1 or 0.2 less, never below 0.1, never above the old one; the offset is kept |
| Viewport.ZoomOutUndoesZoomIn | src/Editor.jsx:469-470 | zoom out after zoom in restores the transform |
| Viewport.ZoomInUndoesZoomOut | src/Editor.jsx:469-470 | zoom in after zoom out restores the transform unless the floor 0.1 was hit |
| Viewport.ZoomInExceedsWheelRange | src/Editor.jsx:469 | the zoom-in button can leave the wheel's range |
| Viewport.DragOrigin | src/Editor.jsx:175-180 | the recorded origin plus the offset is the pointer |
| Viewport.PanTo | src/Editor.jsx:182-190 | the scale is kept and the new offset plus the origin is the pointer |
| Viewport.PanBackRestores | src/Editor.jsx:175-190 | moving the pointer back to where the drag began restores the offset |
| Viewport.PanForgetsPath | src/Editor.jsx:182-190 | only the latest pointer position of a drag matters |
| Viewport.PanKeepsGrabbedPoint | src/Editor.jsx:175-190 | the image point grabbed at the start stays under the pointer |
| Viewport.RoundHalfUp | src/Editor.jsx:262-266 | `Math.round` gives the integer within half a unit, halves rounded up |
| Viewport.RoundHalfUpOfInteger | src/Editor.jsx:265-266 | rounding an integer gives it back |
| Viewport.RoundHalfUpMonotone | src/Editor.jsx:262-266 | rounding is monotone |
| Viewport.InImage | src/Editor.jsx:250 | the bounds check: the unprojected click lies in `[0, w] x [0, h]`, edges included; `Viewport.Placement` states where it decides |
| Viewport.StoredCoordinate | src/Editor.jsx:252-267 | a percentage within 0.005 of the exact one that is a whole number of hundredths, or a whole pixel within 0.5 of the exact one |
| Viewport.Placement | src/Editor.jsx:239-267 | a position exactly when the unprojected click lies in `[0, w] x [0, h]`, edges included; then each coordinate is the stored value of the unprojected one |
| Viewport.PercentageInRange | src/Editor.jsx:259-263 | a percentage coordinate of a point in the image lies in `[0, 100]` |
| Viewport.PlacementPercentageInRange | src/Editor.jsx:239-267 | every node placed in percentage mode has coordinates in `[0, 100]` |
| Viewport.PlacementShownAtClick | src/Editor.jsx:239-267 | in pixel mode a click on a whole image pixel places a node that is shown at the click |
| Viewport.PlacementCentreExample | src/Editor.jsx:239-267 | a click in the middle of a 1000 x 500 image at the identity view is stored as 50 %, 50 % |
| Viewport.PlacementOutsideExample | src/Editor.jsx:250 | a click left of the image places nothing |
| Persist.LocalStorage.constructor | src/Editor.jsx:24 | the store starts with the given entries |
| Persist.LocalStorage.SetItem | src/Dashboard.jsx:33 | the key maps to the value, every other key is kept |
| Persist.LocalStorage.RemoveItem | src/Dashboard.jsx:50-51 | the key is gone, every other key is kept |
| Persist.DataKey | src/Editor.jsx:32 | the floor-plan key is `floor_map_data_` followed by the id, which can be read back from it |
| Persist.TransformKey | src/Editor.jsx:65 | the transform key is `floor_map_transform_` followed by the id, which can be read back from it |
| Persist.KeysDistinct | src/Editor.jsx:24-32 | the index key, a data key and a transform key never coincide |
| Persist.KeysInjective | src/Dashboard.jsx:50-51 | different projects have different data keys and different transform keys |
| Persist.ReadProjectsAfterWrite | src/Dashboard.jsx:13-18 | the index written under the projects key is what a later read of it gives back |
| Persist.ReadProjectsAfterDelete | src/Dashboard.jsx:45-51 | after a delete the index reads back as the remaining records |
| Persist.ReadProjectsAfterClear | src/Editor.jsx:117-119 | removing a project's floor plan and transform leaves the index as it was |
| Persist.FindProjectIndex | src/Editor.jsx:88 | the first index with the id, None exactly when no record has it |
| Persist.RemoveProject | src/Dashboard.jsx:45 | the result holds exactly the records with another id, and is no longer |
| Persist.RemoveProjectAppend | src/Dashboard.jsx:45 | the filter distributes over concatenation, so kept records stay in order |
| Persist.RemoveProjectAbsent | src/Dashboard.jsx:45 | removing an id no record has changes nothing |
| Persist.RemoveProjectIdempotent | src/Dashboard.jsx:45 | removing twice is removing once |
| Persist.RefreshMetadata | src/Editor.jsx:86-98 | same length, ids, names and creation times; the only record that can change is the first with the id, and it gets the time and the count; with no such record nothing changes |
| Persist.RefreshMetadataRecords | src/Editor.jsx:86-98 | the matching record carries the new time and count, is still the first match, and a second refresh changes nothing |
| Persist.FindProjectIndexSameIds | src/Editor.jsx:88 | `findIndex` looks only at ids |
| Persist.ClearProjectData | src/Editor.jsx:117-119 | the project's data and transform keys are gone; every other key is kept with its value |
| Persist.AfterDelete | src/Dashboard.jsx:42-54 | the index key holds the remaining records, the project's data and transform keys are gone, every other key is kept with its value |
| Persist.AfterDeleteKeepsOtherProjects | src/Dashboard.jsx:50-51 | another project's data and transform keys survive a delete unchanged |
| Editor.Truthy | src/Editor.jsx:294-306 | a nullable id counts as set exactly when it is present and not the empty string, as `!connectionStartNodeId` tests it |
| Editor.DefaultFloor | src/Editor.jsx:33-39 | a fresh floor plan has the given id, belongs to the project, is named "Ground floor", is level 0 and has no nodes |
| Editor.LoadFloor | src/Editor.jsx:31-40 | the saved floor plan, or the fresh one when none is saved |
| Editor.LoadTransform | src/Editor.jsx:64-67 | the saved transform, or the identity when none is saved |
| Editor.ProjectTitle | src/Editor.jsx:20-29 | the name of the first index record with the project's id, as `find` takes it, or "Untitled Project" when there is none |
| Editor.LoadAfterClear | src/Editor.jsx:115-134 | after clearing, loading the project gives the fresh floor plan and the identity view |
| Editor.Editor.constructor | src/Editor.jsx:20-72 | floor plan and transform loaded from the store; select mode, no selection, no connection start, not dragging, percentage coordinates, no image |
| Editor.Editor.SetMode | src/Editor.jsx:442-464 | only the mode changes |
| Editor.Editor.SetUsePercentage | src/Editor.jsx:497 | only the flag changes; stored coordinates are not converted |
| Editor.Editor.HandleWheel | src/Editor.jsx:153-173 | only the transform changes, to the wheel zoom of the old one, and the image point under the cursor is kept |
| Editor.Editor.StartPan | src/Editor.jsx:175-180 | in pan mode, with button 1 or with shift, dragging starts with the pointer's origin recorded; otherwise nothing changes |
| Editor.Editor.DoPan | src/Editor.jsx:182-190 | while dragging only the offset changes, to follow the pointer; otherwise nothing changes |
| Editor.Editor.EndPan | src/Editor.jsx:227-229 | only dragging stops |
| Editor.Editor.HandleContainerClick | src/Editor.jsx:233-290 | not dragging, in node mode, with an image shown and the click inside it: the new node is appended and selected and the mode is kept; otherwise nothing changes; the graph invariant is kept |
| Editor.Editor.HandleNodeClick | src/Editor.jsx:292-312 | connect mode: the first click sets the start, the same node again clears it, another node is connected to the start and the start cleared, the selection untouched; any other mode: select the node, clear the start; no self-edge and the graph invariant are kept |
| Editor.Editor.UpdateNode | src/Editor.jsx:401-408 | only the node list changes, by the update; the graph invariant is kept |
| Editor.Editor.DeleteNode | src/Editor.jsx:410-421 | the node list is the deletion; the selection is cleared only when it was the deleted id; the connection start is kept; the graph invariant is kept |
| Editor.Editor.SetFloorName | src/Editor.jsx:582 | only the floor plan's name changes |
| Editor.Editor.SetFloorLevel | src/Editor.jsx:590 | only the floor plan's level changes, to the parsed number or 0 |
| Editor.Editor.ZoomInButton | src/Editor.jsx:469 | only the scale changes, by zoom-in |
| Editor.Editor.ZoomOutButton | src/Editor.jsx:470 | only the scale changes, by zoom-out |
| Editor.Editor.ResetView | src/Editor.jsx:471 | only the transform changes, to the identity |
| Editor.Editor.ImageLoaded | src/Editor.jsx:139-149 | the image is shown and the view reset to the identity |
| Editor.Editor.ImageRestored | src/Editor.jsx:45-57 | the image is shown and the view kept |
| Editor.Editor.ClearStorage | src/Editor.jsx:115-134 | the project's data and transform keys are removed; a fresh floor plan, no image, the identity view, no selection and no connection start; mode and drag state kept |
| Editor.Editor.SyncMetadata | src/Editor.jsx:86-98 | when the project is indexed, its record gets the time and the node count in the stored index; otherwise the store is unchanged |
| Dashboard.IsJsWhiteSpace | src/Dashboard.jsx:22 | the characters `trim` removes: the ECMAScript white-space and line-terminator code points |
| Dashboard.TrimStart | src/Dashboard.jsx:22 | a suffix of the input; what it drops is all white space and what it keeps does not start with white space |
| Dashboard.TrimEnd | src/Dashboard.jsx:22 | a prefix of the input; what it drops is all white space and what it keeps does not end with white space |
| Dashboard.Trim | src/Dashboard.jsx:22 | a slice of the input such that everything before and after it is white space, and that neither starts nor ends with white space |
| Dashboard.TrimStartOfBlank | src/Dashboard.jsx:22 | a blank string loses all of its characters |
| Dashboard.TrimEmptyIffBlank | src/Dashboard.jsx:21-22 | a name trims to the empty string exactly when all its characters are white space |
| Dashboard.TrimIdempotent | src/Dashboard.jsx:22 | trimming twice is trimming once |
| Dashboard.BlankNameExample | src/Dashboard.jsx:22 | a space, a tab and a newline count as a blank name |
| Dashboard.TrimNameExample | src/Dashboard.jsx:22 | surrounding spaces are dropped, inner characters kept |
| Dashboard.Dashboard.constructor | src/Dashboard.jsx:8-18 | the index is read from the store; the form is closed and empty |
| Dashboard.Dashboard.OpenCreateForm | src/Dashboard.jsx:74 | the form opens; nothing else changes |
| Dashboard.Dashboard.CancelCreate | src/Dashboard.jsx:89-94 | the form closes and keeps what was typed |
| Dashboard.Dashboard.EditName | src/Dashboard.jsx:87 | only the typed name changes |
| Dashboard.Dashboard.HandleCreateProject | src/Dashboard.jsx:20-40 | a blank name changes nothing and opens nothing; otherwise exactly one record is appended after the old ones, with the new id, the name as typed, the two times and node count 0; the new list is stored under the index key and reads back as the in-memory list; the form is closed and emptied, and the new id is returned to be opened |
| Dashboard.Dashboard.HandleDeleteProject | src/Dashboard.jsx:42-54 | the records with the id are dropped, the rest kept in order; the new list is stored and reads back as the in-memory list; the project's data and transform keys are removed; every other key is kept |

## Left out

- `src/db.js` (IndexedDB). Its functions ignore the project id and use one fixed key, so there is no per-project image store to model. The editor's image is only the flag `hasImage`. `clearImageFromDB`, `saveImageToDB` and the write effect at `src/Editor.jsx:101-109` are left out.
- `src/App.jsx`: theme and screen switching only.
- JSX rendering, CSS position strings and DOM measurement. `getNodePositionStyle`, the SVG markup of lines and the status bar are left out. The cursor position relative to the container and the image size are parameters.
- The write-through effects that save the floor plan and the transform on every change (`src/Editor.jsx:76-83`, `111-113`). They are JSON writes with no logic. `Editor.Editor.constructor` requires the saved transform's scale to be at least 0.1, which holds for every transform the editor itself produces.
- IEEE-754 doubles. All arithmetic is over the reals. `Math.round` is floor of value plus one half; `toFixed` appears only in the status bar. Full zoom-anchoring and the zoom-button round trips hold over the reals and only approximately over doubles.
- UUID generation. Fresh node, floor and project ids are parameters, and fresh node and project ids are required not to be in use.
- Clock reads. `createdAt` and `updatedAt` (`src/Dashboard.jsx:27-28`) are two separate reads, so they are two parameters. SyncMetadata takes the time as a parameter.
- `window.confirm` is taken as answered yes. The FileReader of an upload is taken as having loaded a file.
- The project name read at mount is a constant, because the effect at `src/Editor.jsx:23-29` runs once per project.
- JSON parsing. Stored values are typed entries. A key that holds a value of the wrong kind reads like an absent key.
- React batching and effect ordering. Each handler runs to completion on the current state.
- Edges.SortKey: the key string `[a, b].sort().join('-')` is modelled as a pair. For ids that themselves contain `-` two different pairs could give the same string in the code; the pair model does not show that collision. Sorting is by character code, as `Array.prototype.sort` without a comparator does for characters of the Basic Multilingual Plane.
- Edges.EnumerateEdges returns the lines' endpoints and keys. The `%`/pixel unit and stroke styling of the SVG line are left out.
- Viewport.Placement: in percentage mode the image width and height must be non-zero, where the code would store NaN.
- Graph.DeleteNodeAbsent: deleting an id no node has still strips dangling connections to it in the code. So "nothing changes" also needs no connection to name the id, and the lemma requires both.
- Dashboard.Dashboard.HandleCreateProject: `createdAt` and `updatedAt` are equal only when the two clock reads are. The model does not claim they are equal.
