# Loft scene editor — a Dafny model of its editing engine

Loft is a browser-based 3D floor-plan editor built on three.js. A user places
walls on a grid, drops furniture (chairs, tables, sofas, round tables) into the
room, drags and rotates it, removes it again, saves the scene to a server and
loads it back. A scene can also be opened read-only, in which case a click books
a chair or a table. This project models the engine behind those actions. It
proves what each action does to the scene graph, to the list of walls and to the
pointer state.

The model is split into one module per source file. The three `managers/`
files reference each other, so they share one module.

| module | file | models |
|---|---|---|
| `SceneGraph` | `scene_graph.dfy` | the part of three.js the engine relies on. Nodes live in a map from id to record. `scene.add` attaches a fresh node. `scene.remove` detaches a direct child of the root and does nothing otherwise. `dispose` is a multiset of released geometry and material ids. Ancestor walks and `traverse` are the functions `Nearest` and `Preorder`. |
| `WallPlacement` | `wall_manager.dfy` | `src/scripts/wallManager.js`: grid snapping with JavaScript's `Math.round`, the preview wall, the strict occupancy test and committing a wall |
| `PointerRules` | `pointer_rules.dfy` | the rules both controllers share: the ancestor walks as loops, the drag rule, the rotation rule, and the two ways of choosing what a click selects |
| `SceneRecords` | `scene_records.dfy` | the pure side of `src/scripts/managers/FileManager.js`: records, the save document, the factory dispatch, restoring one record, restoring a document, and clearing the scene |
| `Editor` | `managers.dfy` | `src/scripts/managers/UIManager.js`, `DragManager.js` and `FileManager.js` as classes over the shared scene |
| `WiredEditor` | `monolith.dfy` | `src/scripts/UIManager.js`, the controller that `main.js` actually wires up |
| `Doors` | `door_manager.dfy` | `src/scripts/managers/DoorManager.js`: doors hung under walls and the door preview |

Several modelling choices apply throughout:

- **Raycasts are inputs.** A click or move carries the ordered list of hits (nearest first), whether the floor was hit and where, and the point on the ground plane, if any.
- **Clocks and loaders are inputs.** The booking time is a parameter. An asset load is a parameter saying whether the model loaded and how many meshes it has.
- **Coordinates are reals, not floating point.** `Math.PI / 2` is its double value written in decimal.
- **A direction is an enumeration.** A wall's yaw is 0 for a horizontal wall and π/2 for a vertical one.
- **Nodes are never deleted.** JavaScript objects survive `scene.remove`, so a removed node stays in the map with no parent.

Where the design and the code disagree, the model follows the code:

- **No version check on load.** The design says a document older than version 2 is rejected. `loadScene` never reads the version (`SceneRecords.LoadIgnoresVersion`).
- **Wall records carry no placement.** The design says wall records hold the direction and endpoints. `saveScene` writes the same record for a wall as for furniture, and `recreateObject` rebuilds a wall from position, rotation and scale alone.
- **Doors are not saved or restored.** The design says a restore re-attaches doors to their walls. `FileManager` has no door path at all. `DoorManager.createDoorFromSave` and `createDoorFromData` exist, but nothing in the core calls them. They are modelled as operations on their own.

The engine's quirks are modelled as written. Each one has a lemma or scenario that shows it:

- **Remove mode can turn wall mode on.** Turning remove mode on calls `toggleAddWallMode(false)`, which ignores its argument and flips the flag (`WiredEditor.RemoveToggleTurnsWallModeOn`).
- **A second click can duplicate a wall.** A commit neither re-checks occupancy nor hides the preview, so a second click without moving commits the same wall again (`WallPlacement.DuplicateWallScenario`).
- **The rotation order is lost on restore** (`SceneRecords.RotationOrderLost`).
- **The two controllers choose removals differently.** The managers' removal scans every hit, while the wired controller looks only at the first one (`WiredEditor.RemovalScansDiffer`).
- **The two controllers select differently.** The wired controller drags a fixed-rotation object on a rotate gesture, while the split one does nothing (`PointerRules.RotationOnFixedObject`).
- **A drag over the horizon jumps.** When the pointer ray misses the ground plane, a dragged object goes to its stored offset (`PointerRules.DragOverHorizonJumps`; see "## Findings").
- **Removal disposes only the removed node itself.** Its geometry and materials are released, but nothing in its subtree is.

## Model

| member | source | states |
|---|---|---|
| SceneGraph.Nearest | src/scripts/managers/DragManager.js:61-70 | the nearest ancestor-or-self carrying a capability: None exactly when no node of the parent chain carries it, otherwise a carrier with no carrier before it on the chain |
| SceneGraph.PreorderIsSubtree | src/scripts/managers/FileManager.js:42 | `traverse` from a node visits exactly the nodes that have it on their parent chain |
| SceneGraph.SpliceIsFilter | src/scripts/managers/UIManager.js:115-118 | on a duplicate-free wall list, splicing out a wall at its `indexOf` gives the same list as filtering it out by identity (src/scripts/UIManager.js:268-269) |
| SceneGraph.NotInIsFilterIdentity | src/scripts/UIManager.js:268-269 | filtering out an object that is not in a duplicate-free list leaves the list unchanged |
| SceneGraph.IndexOf | src/scripts/managers/UIManager.js:115 | `indexOf` returns the first position of the element, or -1 exactly when it is absent |
| SceneGraph.RemoveS | src/scripts/managers/UIManager.js:120-128 | `scene.remove` plus disposal: only the removed node's own geometry and materials are disposed; its parent is cleared only if it hung directly under the scene; no other parent link changes; the graph stays a valid forest |
| SceneGraph.Scene.Remove | src/scripts/UIManager.js:266 | `scene.remove` detaches a direct child of the scene and keeps the scene valid |
| SceneGraph.Scene.Create | src/scripts/wallManager.js:101 | `scene.add` of a fresh object: the object gets the next id, becomes the last child of its parent, and nothing else changes |
| SceneGraph.Preorder | src/scripts/managers/FileManager.js:42 | `traverse` visits the node first, then only nodes of the graph |
| SceneGraph.Detach | src/scripts/managers/UIManager.js:120 | three.js `remove` clears the child's parent and drops it from the parent's children only if it is a child there; otherwise nothing changes |
| SceneGraph.CreateS | src/scripts/wallManager.js:101 | adding a fresh object keeps the scene valid, issues the next id and appends it to its parent's children, changing nothing else |
| SceneGraph.Scene.Put | src/scripts/managers/DragManager.js:163 | an in-place update of one object's fields other than its links keeps the scene valid and changes only that object |
| SceneGraph.PutS | src/scripts/managers/DragManager.js:163 | an update of one object keeps the node set, the id counter and the disposed resources; no other object changes; with the object's links kept, the scene stays valid |
| SceneGraph.LoadModelS | src/scripts/asset.js:4-29 | a load keeps the scene valid, only adds nodes, disposes nothing and changes no node but the scene; a loaded model is a fresh untagged group; a failed load changes nothing |
| SceneGraph.Scene.LoadModel | src/scripts/asset.js:4-29 | the scene becomes `LoadModelS` of the old one, and the new group's id is returned exactly when the load succeeded |
| SceneGraph.Scene.Dispose | src/scripts/UIManager.js:288-295 | `dispose` adds the released resources to the disposed multiset and changes nothing else |
| WallPlacement.JsRound | src/scripts/wallManager.js:51 | `Math.round` returns the integer within half a unit of its argument, rounding halves up |
| WallPlacement.Snap | src/scripts/wallManager.js:51-52 | a snapped coordinate is a whole multiple of the grid size within half a grid cell of the pointer, so the nearest multiple; at exactly half a cell it goes to the larger one, as `Math.round` does |
| WallPlacement.SnapOfMultiple | src/scripts/wallManager.js:51-52 | a multiple of the grid size snaps to itself |
| WallPlacement.SnapIdempotent | src/scripts/wallManager.js:51-52 | snapping a snapped coordinate changes nothing |
| WallPlacement.SnapHalfCell | src/scripts/wallManager.js:51-70 | the half-cell offset of a preview snaps to the next grid line |
| WallPlacement.PreviewPosition | src/scripts/wallManager.js:54-70 | the preview's centre is at height 1, half a cell from the snapped point along the wall's own axis (x for horizontal, z for vertical), with the other coordinate kept |
| WallPlacement.YawOf | src/scripts/wallManager.js:56 | the yaw is 0 exactly for a horizontal wall, and π/2 otherwise |
| WallPlacement.Near | src/scripts/wallManager.js:121-124 | a wall at the point itself is near it; near means strictly within 0.1 on both x and z, whatever the height |
| WallPlacement.OccupiedIffSameCell | src/scripts/wallManager.js:58-124 | for a grid of at least 0.2, two preview positions fall within 0.1 of each other on both x and z exactly when they come from the same cell and the same direction |
| WallPlacement.AnyNear | src/scripts/wallManager.js:120-124 | the occupancy test is true exactly when some wall in the list is strictly within 0.1 on both x and z |
| WallPlacement.PreviewUpdate | src/scripts/wallManager.js:47-80 | a preview update does nothing when wall mode is off. Otherwise the preview is visible exactly when the target is unoccupied. When visible, it sits at the snapped point offset by half a cell in the direction, with yaw 0 or π/2. When hidden, its position is unchanged, and with wall mode on it differs from the old preview only in being hidden. Whatever happens, the preview keeps every field except its position, its yaw and its visibility. No other node changes. |
| WallPlacement.PreviewOnGridEdge | src/scripts/wallManager.js:51-70 | a shown preview sits on the cell edge of the rounded grid cell under the pointer |
| WallPlacement.WallNode | src/scripts/wallManager.js:106-118 | a committed wall is a mesh tagged `isWall` at height 1 with the preview's rotation, owning one geometry and one material |
| WallPlacement.SwitchDirectionShiftsPreview | src/scripts/wallManager.js:27-30 | re-placing a shown preview after switching direction moves it to the neighbouring cell edge in the new direction |
| WallPlacement.WallManager.constructor | src/scripts/wallManager.js:4-45 | no walls, wall mode off, horizontal; one hidden preview mesh added to the scene |
| WallPlacement.WallManager.ToggleAddWallMode | src/scripts/wallManager.js:21-25 | the mode flips whatever the caller passes, the preview's visibility becomes the new mode, and the new mode is returned |
| WallPlacement.WallManager.WallExists | src/scripts/wallManager.js:120-125 | true exactly when some wall lies strictly within 0.1 of the point on both x and z |
| WallPlacement.WallManager.UpdatePreviewWall | src/scripts/wallManager.js:47-80 | the scene becomes `PreviewUpdate` of the old scene |
| WallPlacement.WallManager.SwitchDirection | src/scripts/wallManager.js:27-30 | the direction alternates and the preview is re-placed from its own position |
| WallPlacement.WallManager.HandleMouseDown | src/scripts/wallManager.js:82-104 | a commit happens exactly when the button is 0, wall mode is on, the preview is visible and the floor is hit. It appends one new wall at the preview's x and z, without re-checking occupancy. Otherwise the walls and the scene are unchanged. |
| WallPlacement.DuplicateWallScenario | src/scripts/wallManager.js:82-104 | two clicks without a move commit two walls at the same position |
| WallPlacement.SnapOnGridOfTwo | src/scripts/wallManager.js:51-52 | on a grid of 2, the points 2 and 0 snap to themselves |
| WallPlacement.CommitAtPointScenario | src/scripts/wallManager.js:47-104 | on an empty grid of 2, a move to (2, 0, 0) and a click commit a horizontal wall at (3, 1, 0) |
| WallPlacement.OccupiedRefusedScenario | src/scripts/wallManager.js:73-83 | a move onto an occupied cell hides the preview, so the following click adds nothing |
| WallPlacement.PlacementScenario | src/scripts/wallManager.js:47-124 | from an empty scene on a grid of 2: the first wall is placed, a second one at the same point is refused, and the manager ends with one wall |
| PointerRules.ClimbWhileCurrent | src/scripts/managers/DragManager.js:61-70 | the `while (current)` walk returns the nearest ancestor-or-self with the capability |
| PointerRules.ClimbUntilTagged | src/scripts/UIManager.js:190-195 | the walk that stops at the first tagged object, then re-tests it, returns the same nearest ancestor-or-self |
| PointerRules.NearestWeaker | src/scripts/managers/DragManager.js:122-148 | when the nearest object with the weaker tag set has the stronger one, it is also the nearest with the stronger; when some object has the stronger tag, one has the weaker |
| PointerRules.IsRotationGesture | src/scripts/managers/DragManager.js:44 | button 2 or a held shift key is a rotation gesture; a plain left click is not (also src/scripts/UIManager.js:146) |
| PointerRules.Pinned | src/scripts/managers/DragManager.js:163 | pinning keeps x and z and puts y at the drag height 0.1 |
| PointerRules.StartOffset | src/scripts/managers/DragManager.js:163-164 | the hit point plus the offset is the object's pinned position |
| PointerRules.DragTarget | src/scripts/managers/DragManager.js:167-178 | with a ground point, the object moves to that point plus the offset, with y pinned to 0.1; with none, it does not move |
| PointerRules.DragStartsInPlace | src/scripts/managers/DragManager.js:158-177 | the first move over the start point leaves the object where the start pinned it |
| PointerRules.DragIsTranslation | src/scripts/managers/DragManager.js:174-177 | two drag moves differ by exactly the ground points' difference in x and z, and both sit at y 0.1 |
| PointerRules.DragOverHorizonJumps | src/scripts/managers/DragManager.js:170-178 | as written, a pointer above the horizon moves the object to the offset itself |
| PointerRules.DragTargetAsWritten | src/scripts/managers/DragManager.js:170-177 | the target is at y 0.1; with a ground point its x and z are the point's plus the offset's; with none it is the offset itself, pinned |
| PointerRules.RotateStep | src/scripts/managers/DragManager.js:191-192 | no horizontal travel leaves the yaw alone; travel to the right increases it and travel to the left decreases it |
| PointerRules.DragAsWrittenAgreesOnHits | src/scripts/UIManager.js:218-225 | when the ray meets the ground, the code as written and the corrected rule agree |
| PointerRules.RotateAll | src/scripts/managers/DragManager.js:188-194 | after a run of rotation moves, the yaw has changed by 0.01 times the last x minus the starting x, without wrapping; no moves leave it unchanged |
| PointerRules.DragMove | src/scripts/managers/DragManager.js:167-178 | the drag move as written: while a drag is under way only the selected object moves, to y 0.1; with a ground point it goes to that point plus the offset on x and z, and when the ray misses the ground it goes to the offset itself; with no drag under way nothing changes |
| PointerRules.DragMoveFollowsIntended | src/scripts/managers/DragManager.js:170-177 | whenever the ray meets the ground, the drag move as written puts the object where the corrected rule `DragTarget` does |
| PointerRules.RotationMove | src/scripts/managers/DragManager.js:188-194 | a rotation move keeps the graph's shape and the selection |
| PointerRules.RotationMoves | src/scripts/managers/DragManager.js:188-194 | a run of rotation moves keeps the graph's shape and the selection |
| PointerRules.RotationMovesTurn | src/scripts/UIManager.js:235-241 | a run of rotation moves changes only the selected object's yaw, by the telescoped amount, and remembers the last pointer position |
| PointerRules.SplitSelection | src/scripts/managers/DragManager.js:142-156 | the target is the nearest movable-or-furniture ancestor of the first hit, and a gesture starts exactly when that object is movable and is not a rotation gesture over something that cannot rotate; a rotation gesture over a rotatable object starts its rotation, no gesture starts a drag from the first hit's point, and a drag never starts on a rotation gesture |
| PointerRules.WiredSelection | src/scripts/UIManager.js:167-188 | the target is the nearest movable ancestor of the first hit, and a gesture starts exactly when one exists; a rotation gesture over a rotatable target starts its rotation, and everything else starts a drag from the first hit's point |
| PointerRules.SelectionsAgreeOnDrags | src/scripts/UIManager.js:178-186 | without a rotation gesture, over an object the split controller would drag, both controllers start the same drag |
| PointerRules.RotationOnFixedObject | src/scripts/UIManager.js:181-185 | a rotation gesture over a movable, non-rotatable object drags it in the wired controller and does nothing in the split one |
| SceneRecords.RecordsOf | src/scripts/managers/FileManager.js:42-58 | at most one record per traversed node |
| SceneRecords.RecordOf | src/scripts/managers/FileManager.js:44-55 | a node gets a wall record exactly when it is tagged `isWall`; its position, rotation, scale and userData are copied into the record |
| SceneRecords.SavedNodes | src/scripts/managers/FileManager.js:43 | the saved nodes are exactly the traversed nodes tagged movable or wall |
| SceneRecords.RecordsFollowSavedNodes | src/scripts/managers/FileManager.js:42-58 | the records are, in traversal order, exactly the records of the nodes tagged movable or wall |
| SceneRecords.SaveDocument | src/scripts/managers/FileManager.js:33-38 | the document is version 2 |
| SceneRecords.SaveDocumentComplete | src/scripts/managers/FileManager.js:42-58 | every saved node in the scene has its record in the document, and every record comes from such a node |
| SceneRecords.KindTags | src/scripts/managers/UIManager.js:145-191 | every factory tags its model movable, rotatable and saveable, never a wall |
| SceneRecords.FactoryFor | src/scripts/managers/FileManager.js:253-261 | the factory is chosen by first match: chair, then furniture, then sofa, then table, and none without a match |
| SceneRecords.FactoryS | src/scripts/managers/UIManager.js:145-191 | a loaded model is a new group carrying its kind's tags; a failed load changes nothing |
| SceneRecords.Restored | src/scripts/managers/FileManager.js:264-297 | applying a record keeps the model's links and mesh flag |
| SceneRecords.RestoredColor | src/scripts/managers/FileManager.js:282-297 | only a furniture record applied to a mesh changes the colour: red when booked, else green for a chair or a table |
| SceneRecords.RecreatedWall | src/scripts/managers/FileManager.js:238-247 | a wall record starts a detached, childless mesh tagged `isWall`, not movable, interactable unless view-only, owning one geometry and one material |
| SceneRecords.RestoreModel | src/scripts/managers/FileManager.js:264-297 | applying a record to a new model keeps the world valid and changes neither the walls nor the node set |
| SceneRecords.RecreateW | src/scripts/managers/FileManager.js:233-305 | recreating one record keeps the world valid, only adds nodes and disposes nothing |
| SceneRecords.RecreateRestoresRecord | src/scripts/managers/FileManager.js:264-275 | a recreated model has the record's position and scale, its x/y/z angles with the default order, and the saved userData with `isInteractable` set to the opposite of view-only |
| SceneRecords.RecreateWalls | src/scripts/managers/FileManager.js:236-251 | a wall record appends exactly the new wall to `walls`; a furniture record leaves `walls` alone |
| SceneRecords.RecreateNothing | src/scripts/managers/FileManager.js:253-264 | a furniture record with no matching tag, or whose model fails to load, changes nothing |
| SceneRecords.RestoredFurnitureNotPainted | src/scripts/managers/FileManager.js:283-297 | a restored furniture model keeps the colour the factory gave it, because only a mesh is painted and a factory returns a group |
| SceneRecords.SaveRestoreRoundTrip | src/scripts/managers/FileManager.js:264-275 | saving a node and restoring its record gives back its position, scale and x/y/z angles, and its userData with `isInteractable` set |
| SceneRecords.RotationOrderLost | src/scripts/managers/FileManager.js:266-270 | a node saved with order "YXZ" is not restored with its rotation |
| SceneRecords.RestoreAll | src/scripts/managers/FileManager.js:179-181 | recreating the records in document order keeps the world valid and only adds nodes |
| SceneRecords.RestoreAllStep | src/scripts/managers/FileManager.js:179-181 | restoring one more record is recreating it after the earlier ones |
| SceneRecords.RestoreAllWalls | src/scripts/managers/FileManager.js:236-251 | a restore appends one wall per wall record and keeps the walls it had, in order |
| SceneRecords.RecreateKeepsOthers | src/scripts/managers/FileManager.js:233-275 | recreating a record changes no node it found other than the scene, whose child list may grow |
| SceneRecords.RestoreAllStepKeeps | src/scripts/managers/FileManager.js:179-181 | record i changes no node of the restore before it other than the scene |
| SceneRecords.RestoreAllKeepsPrefix | src/scripts/managers/FileManager.js:179-181 | a later record never changes a model an earlier record made: a partial restore's nodes other than the scene come out of a longer one unchanged |
| SceneRecords.RestoreAllRecreatesEach | src/scripts/managers/FileManager.js:179-181 | every record that makes a model (a wall record, or a furniture record whose factory exists and whose asset loads) is carried, after the whole restore, by the fresh node its turn created |
| SceneRecords.Collect | src/scripts/managers/FileManager.js:309-315 | the objects to remove are exactly the traversed meshes other than the floor |
| SceneRecords.RemoveAll | src/scripts/managers/FileManager.js:318-328 | removing the collected objects one by one keeps the scene valid and its node set |
| SceneRecords.RemoveAllDisposes | src/scripts/managers/FileManager.js:318-328 | the removals dispose exactly the removed objects' own geometry and materials |
| SceneRecords.RemoveAllKeepsFields | src/scripts/managers/FileManager.js:318-319 | the removals change only parent links and the scene's child list |
| SceneRecords.RemoveAllParents | src/scripts/managers/FileManager.js:318-319 | after the removals, a node's parent is cleared exactly when it was removed while hanging directly under the scene |
| SceneRecords.DirectMeshesCollected | src/scripts/managers/FileManager.js:310-315 | every mesh hanging directly under the scene, other than the floor, is collected |
| SceneRecords.ClearW | src/scripts/managers/FileManager.js:307-334 | clearing keeps the world valid and leaves `walls` empty |
| SceneRecords.ClearDisposes | src/scripts/managers/FileManager.js:307-334 | clearing disposes the resources of every mesh except the floor, including the preview wall |
| SceneRecords.ClearKeepsUncollected | src/scripts/managers/FileManager.js:312 | non-meshes and the floor come out of a clear unchanged |
| SceneRecords.ClearParents | src/scripts/managers/FileManager.js:318-319 | every mesh other than the floor that hung directly under the scene is detached. Nodes hanging under anything else, such as the meshes of a furniture group, keep their parent. |
| SceneRecords.LoadSceneW | src/scripts/managers/FileManager.js:164-196 | a load keeps the world valid, and a failed response leaves it unchanged |
| SceneRecords.LoadSceneWalls | src/scripts/managers/FileManager.js:176-181 | after a load, `walls` holds exactly one entry per wall record |
| SceneRecords.LoadIgnoresVersion | src/scripts/managers/FileManager.js:173-181 | the document's version has no effect on the load |
| SceneRecords.LoadRecreatesEach | src/scripts/managers/FileManager.js:164-181 | after a load, every record of the document that makes a model is carried by a fresh node of the loaded scene |
| SceneRecords.SaveLoadRoundTrip | src/scripts/managers/FileManager.js:30-181 | saving a scene and loading the document back gives the i-th saved node of the traversal back as a fresh node with its position, scale, x/y/z angles in the default order and userData with `isInteractable` set, whenever it is a wall or a furniture kind a factory knows whose asset loads |
| SceneRecords.LoadKeepsUncollected | src/scripts/managers/FileManager.js:164-181 | what the clear keeps (non-mesh furniture groups and the floor) stays unchanged through the restore, so restored models come in beside the old groups |
| Editor.PaintAll | src/scripts/managers/DragManager.js:79-89 | painting keeps the set of nodes |
| Editor.Booked | src/scripts/managers/DragManager.js:72-89 | booking keeps the set of nodes |
| Editor.PaintAllPaints | src/scripts/managers/DragManager.js:79-89 | painting red touches exactly the visited meshes that have materials |
| Editor.BookedTags | src/scripts/managers/DragManager.js:74-75 | booking sets `isBooked` and the booking time and keeps every other tag |
| Editor.BookedSpec | src/scripts/managers/DragManager.js:72-89 | booking tags the object and paints red every mesh with materials in its subtree, and nothing else |
| Editor.BookedFrame | src/scripts/managers/DragManager.js:72-89 | booking changes only tags and colours, only the booked object's tags, and never the colour of a node without materials |
| Editor.BookingIdempotent | src/scripts/managers/DragManager.js:53-57 | a second booking attempt on the same hits changes nothing, whatever the time |
| Editor.BookedStaysNearest | src/scripts/managers/DragManager.js:53-57 | after booking, the same object is still the nearest bookable one and is marked booked |
| Editor.BookingStep | src/scripts/managers/DragManager.js:49-59 | a booking click keeps the set of nodes, and a click that hits nothing changes nothing |
| Editor.BookingStepFrame | src/scripts/managers/DragManager.js:49-59 | a booking click keeps the graph's shape and changes no node that is neither a mesh nor bookable |
| Editor.BookingKeepsValid | src/scripts/managers/DragManager.js:49-59 | a booking click keeps the world valid |
| Editor.RemovalFrom | src/scripts/managers/UIManager.js:111-131 | the object found by the scan is movable or a wall |
| Editor.RemovalFromSpec | src/scripts/managers/UIManager.js:111-131 | the scan finds nothing exactly when no hit has a movable-or-wall ancestor-or-self; otherwise it returns that ancestor for the first such hit |
| Editor.FirstRemovable | src/scripts/managers/UIManager.js:111-113 | the object the scan settles on is movable or a wall; when the scan starts at that hit it is that hit's nearest removable ancestor-or-self |
| Editor.RemoveW | src/scripts/managers/UIManager.js:107-132 | with nothing removable under the pointer the world is unchanged, and the wall list never grows |
| Editor.FilterOutNoDup | src/scripts/UIManager.js:268-269 | filtering keeps the wall list free of duplicates |
| Editor.RemoveWKeepsValid | src/scripts/managers/UIManager.js:107-132 | a removal click keeps the world valid and its node set, and changes nothing when no hit leads to a removable object |
| Editor.RemoveWEffect | src/scripts/managers/UIManager.js:111-131 | the found object is not the scene. A wall leaves `walls`, other walls stay and none are added. Exactly its own resources are disposed. Only its parent link can change. |
| Editor.WallClickW | src/scripts/wallManager.js:82-104 | the new wall is appended to `walls` exactly when the button is 0, wall mode is on, the preview is shown and the floor is hit; otherwise nothing changes |
| Editor.Select | src/scripts/managers/DragManager.js:142-186 | the wall list is untouched; without a gesture nothing changes; a gesture switches the controls off and selects the target the split rule chose |
| Editor.WallClickKeepsValid | src/scripts/wallManager.js:82-104 | a wall click keeps the world valid and either changes nothing or appends one new wall under the scene |
| Editor.SelectSpec | src/scripts/managers/DragManager.js:142-186 | a selection keeps the world valid and the walls. With no gesture it changes nothing. With one, controls are disabled and a movable object other than the scene is selected. |
| Editor.DragFollowsPointer | src/scripts/managers/DragManager.js:158-178 | after a drag starts, a move puts the object at the ground point plus its start position minus the hit point; over the start point it does not move |
| Editor.RotationFollowsPointer | src/scripts/managers/DragManager.js:181-194 | after a rotation starts, its yaw tracks 0.01 times the pointer's horizontal travel from the press |
| Editor.EditClick | src/scripts/managers/DragManager.js:38-46 | a removal or wall click leaves the drag state and the controls alone, and only a removal disposes anything |
| Editor.DragManagerClick | src/scripts/managers/DragManager.js:30-47 | a view-only click leaves the drag state, the controls, the walls and the set of nodes alone |
| Editor.CanvasClick | src/scripts/managers/UIManager.js:77-85 | a click in remove or wall mode leaves the drag state and the controls alone; a view-only click in neither mode leaves the walls and the drag state alone |
| Editor.EditClickKeepsValid | src/scripts/managers/DragManager.js:38-46 | an editing click keeps the world valid and only adds nodes |
| Editor.ClicksKeepValid | src/scripts/managers/DragManager.js:30-47 | every click keeps the world valid; in view-only mode the drag manager's click leaves drag state, controls and walls alone |
| Editor.ViewModeRemovalGetsThrough | src/scripts/managers/UIManager.js:77-85 | the canvas tests remove mode before the view-only check, so a view-only click in remove mode removes; without view-only, the canvas and the drag manager dispatch alike |
| Editor.PointerMove | src/scripts/managers/UIManager.js:65-75 | a move keeps the set of nodes and the selection; outside wall mode, with no drag or rotation under way, it changes nothing |
| Editor.PointerMoveFrame | src/scripts/managers/UIManager.js:65-75 | in wall mode a move touches only the preview and not the drag state; otherwise it touches only the selected object |
| Editor.AutoLoadTarget | src/scripts/managers/UIManager.js:19-42 | a scene loads at start-up exactly when the mode is `view` and a non-empty scene id is given |
| Editor.WorldOf | src/scripts/managers/UIManager.js:9-46 | the scene a wall manager draws in and its wall list form a valid world; both controllers edit this world |
| Editor.UIManager.constructor | src/scripts/managers/UIManager.js:9-46 | view-only exactly when the mode is `view`; remove and wall modes off; drag state idle; one hidden preview added |
| Editor.UIManager.FinishStartupLoad | src/scripts/managers/UIManager.js:38-42 | the start-up load runs in view-only mode exactly when an auto-load target exists |
| Editor.UIManager.FindRemovableParent | src/scripts/managers/UIManager.js:134-143 | returns the nearest movable-or-wall ancestor-or-self, never the scene |
| Editor.UIManager.HandleRemoveObject | src/scripts/managers/UIManager.js:107-132 | the world becomes `RemoveW` of the old world |
| Editor.UIManager.RemoveFound | src/scripts/managers/UIManager.js:113-129 | the object is detached and its own resources disposed; a wall is spliced out of `walls` |
| Editor.UIManager.CreateFurniture | src/scripts/managers/UIManager.js:145-191 | the factory's model is returned with its kind's tags, or nothing if the load failed |
| Editor.UIManager.ToggleRemoveMode | src/scripts/managers/UIManager.js:193-201 | remove mode flips; when it turns on, wall mode flips as well, and the preview follows it |
| Editor.UIManager.HandleCanvasMouseMove | src/scripts/managers/UIManager.js:65-75 | the scene and drag state become `PointerMove` of the old ones: wall preview in wall mode, otherwise the drag move as written (to the offset when the ray misses the ground), otherwise the rotation |
| Editor.UIManager.HandleCanvasMouseDown | src/scripts/managers/UIManager.js:77-85 | the outcome is remove, then wall click, then the drag manager's click |
| Editor.UIManager.HandleCanvasMouseUp | src/scripts/managers/UIManager.js:87-89 | stops a drag or rotation and re-enables controls; otherwise nothing |
| Editor.DragManager.constructor | src/scripts/managers/DragManager.js:5-18 | starts idle |
| Editor.DragManager.HandleMouseMove | src/scripts/managers/DragManager.js:20-28 | wall preview first, then the drag move as written (to the offset when the ray misses the ground), then rotation, as `PointerMove` |
| Editor.DragManager.HandleMouseDown | src/scripts/managers/DragManager.js:30-47 | view-only clicks only book; otherwise remove, then wall, then selection with a rotation gesture being button 2 or shift |
| Editor.DragManager.HandleEditClick | src/scripts/managers/DragManager.js:38-46 | the editing branch of a click, as `EditClick` |
| Editor.DragManager.HandleBooking | src/scripts/managers/DragManager.js:49-59 | the first hit's nearest chair-or-furniture is booked if not yet booked |
| Editor.DragManager.FindBookableParent | src/scripts/managers/DragManager.js:61-70 | returns the nearest chair-or-furniture ancestor-or-self |
| Editor.DragManager.BookObject | src/scripts/managers/DragManager.js:72-89 | the scene's nodes become `Booked` of the old ones |
| Editor.DragManager.FindMovableParent | src/scripts/managers/DragManager.js:122-131 | returns the nearest ancestor-or-self that is movable, a chair or furniture |
| Editor.DragManager.UpdateWallPreview | src/scripts/managers/DragManager.js:133-140 | with a floor hit the preview is updated; without one nothing changes |
| Editor.DragManager.HandleObjectSelection | src/scripts/managers/DragManager.js:142-156 | the outcome is `Select` of the old state |
| Editor.DragManager.StartDragging | src/scripts/managers/DragManager.js:158-165 | dragging on, object selected, controls off, y pinned to 0.1, offset from the pinned position to the hit |
| Editor.DragManager.HandleDrag | src/scripts/managers/DragManager.js:167-179 | while a drag is under way the selected object is put, unconditionally, at the as-written target: the ground point (the origin when the ray misses) plus the offset, at y 0.1; the scene becomes `DragMove` of the old scene |
| Editor.DragManager.StartRotation | src/scripts/managers/DragManager.js:181-186 | rotating on, object selected, controls off, pointer remembered |
| Editor.DragManager.HandleRotation | src/scripts/managers/DragManager.js:188-194 | scene and drag state become `RotationMove` of the old ones |
| Editor.DragManager.StopDragging | src/scripts/managers/DragManager.js:196-203 | clears both flags and the selection and re-enables controls; a no-op when neither flag is set |
| Editor.FileManager.constructor | src/scripts/managers/FileManager.js:4-8 | keeps its UI manager |
| Editor.FileManager.SaveScene | src/scripts/managers/FileManager.js:30-59 | returns `SaveDocument` of the scene |
| Editor.FileManager.LoadScene | src/scripts/managers/FileManager.js:164-196 | the world becomes `LoadSceneW` of the old one |
| Editor.FileManager.RecreateAll | src/scripts/managers/FileManager.js:179-181 | the world becomes `RestoreAll` of the records in order |
| Editor.FileManager.CollectMeshes | src/scripts/managers/FileManager.js:309-315 | returns `Collect` over the traversal, all of them scene nodes other than the scene |
| Editor.FileManager.RecreateObject | src/scripts/managers/FileManager.js:233-305 | the world becomes `RecreateW` of the old one; a model is returned exactly when one was made |
| Editor.FileManager.RecreateWall | src/scripts/managers/FileManager.js:236-251 | a new wall mesh tagged `isWall` is added to the scene and appended to `walls` |
| Editor.FileManager.ApplyRecord | src/scripts/managers/FileManager.js:264-297 | the world becomes `RestoreModel` of the old one |
| Editor.FileManager.ClearScene | src/scripts/managers/FileManager.js:307-334 | the world becomes `ClearW` of the old one |
| Editor.FileManager.DiscardAll | src/scripts/managers/FileManager.js:318-333 | the collected objects are removed and `walls` is emptied |
| Editor.FileManager.ForgetWalls | src/scripts/managers/FileManager.js:330-333 | `walls` becomes empty and nothing else changes |
| Editor.FileManager.RemoveMeshes | src/scripts/managers/FileManager.js:318-328 | the scene becomes `RemoveAll` of the objects in order |
| WiredEditor.WiredRemoveEffect | src/scripts/UIManager.js:252-286 | only the first hit counts. A removed object is a wall, chair or furniture other than the scene, and only its own resources are disposed. A wall leaves `walls`, which otherwise keeps its walls and gains none. Nothing changes when the first hit has no such ancestor. |
| WiredEditor.FirstHitRemoval | src/scripts/UIManager.js:263-264 | a found object needs a hit and is a wall, chair or furniture; a first hit that is one itself is the object found |
| WiredEditor.WiredRemoveW | src/scripts/UIManager.js:252-274 | with nothing found the world is unchanged, and the wall list never grows |
| WiredEditor.RemovalSeesFirstHitOnly | src/scripts/UIManager.js:263-264 | the hits after the first make no difference to a removal |
| WiredEditor.RemovalScansDiffer | src/scripts/UIManager.js:263-273 | when only the second hit leads to a removable object, the wired controller removes nothing while the managers' scan removes that object |
| WiredEditor.WiredSelect | src/scripts/UIManager.js:167-188 | the wall list is untouched; without a gesture nothing changes; a gesture switches the controls off and selects the target the wired rule chose |
| WiredEditor.WiredSelectSpec | src/scripts/UIManager.js:167-188 | a selection keeps the world valid and the walls. With no gesture nothing changes. Over a movable object, without a rotation gesture on a rotatable one, a drag starts with y at 0.1. |
| WiredEditor.WiredClick | src/scripts/UIManager.js:139-149 | in remove mode the world becomes `WiredRemoveW` of the old one; in any other mode nothing is disposed |
| WiredEditor.WiredClickKeepsValid | src/scripts/UIManager.js:139-149 | a click keeps the world valid, only adds nodes, and in remove or wall mode leaves the drag state and controls alone |
| WiredEditor.UIManager.constructor | src/scripts/UIManager.js:6-33 | remove mode off, idle, a new wall manager with one hidden preview |
| WiredEditor.UIManager.WallToolAction | src/scripts/UIManager.js:87-92 | wall mode flips and remove mode is forced off |
| WiredEditor.UIManager.ToggleRemove | src/scripts/UIManager.js:111-116 | remove mode flips; when it turns on, wall mode flips too |
| WiredEditor.UIManager.HandleMouseMove | src/scripts/UIManager.js:129-137 | wall preview first, then the drag move as written (to the offset when the ray misses the ground), then rotation, as `PointerMove` |
| WiredEditor.UIManager.UpdateWallPreview | src/scripts/UIManager.js:151-165 | with a floor hit the preview is updated; otherwise nothing changes |
| WiredEditor.UIManager.HandleMouseDown | src/scripts/UIManager.js:139-149 | remove first, then wall click, then selection with the rotation gesture |
| WiredEditor.UIManager.HandleObjectSelection | src/scripts/UIManager.js:167-188 | the outcome is `WiredSelect` of the old state |
| WiredEditor.UIManager.FindMovableParent | src/scripts/UIManager.js:190-195 | returns the nearest movable ancestor-or-self |
| WiredEditor.UIManager.StartDragging | src/scripts/UIManager.js:197-205 | dragging on, object selected, controls off, y pinned, offset stored |
| WiredEditor.UIManager.HandleDrag | src/scripts/UIManager.js:207-226 | while a drag is under way the selected object is put, unconditionally, at the as-written target: the ground point (the origin when the ray misses) plus the offset, at y 0.1; the scene becomes `DragMove` of the old scene |
| WiredEditor.UIManager.StartRotation | src/scripts/UIManager.js:228-233 | rotating on, object selected, controls off, pointer remembered |
| WiredEditor.UIManager.HandleRotation | src/scripts/UIManager.js:235-241 | scene and state become `RotationMove` of the old ones |
| WiredEditor.UIManager.StopDragging | src/scripts/UIManager.js:243-250 | clears both flags and the selection and re-enables controls; a no-op when neither is set |
| WiredEditor.UIManager.HandleRemoveObject | src/scripts/UIManager.js:252-274 | the world becomes `WiredRemoveW` of the old one |
| WiredEditor.UIManager.RemoveFound | src/scripts/UIManager.js:266-271 | the object is detached, a wall is filtered out of `walls`, and its own resources are disposed |
| WiredEditor.UIManager.FindRemovableParent | src/scripts/UIManager.js:276-286 | returns the nearest wall, chair or furniture ancestor-or-self, never the scene |
| WiredEditor.UIManager.DisposeObject | src/scripts/UIManager.js:287-296 | exactly the object's own geometry and materials are disposed |
| WiredEditor.RemoveToggleTurnsWallModeOn | src/scripts/UIManager.js:115 | turning remove mode on while wall mode is off turns wall mode on and shows the preview |
| Doors.CreateDoorEffect | src/scripts/managers/DoorManager.js:76-94 | a new door is the wall's last child, at the given local position, tagged `isDoor` with the wall's id and interactable; nothing else changes but the wall's child list |
| Doors.DoorTags | src/scripts/managers/DoorManager.js:86-91 | a door is tagged `isDoor` with its wall's id and is interactable; it is neither removable nor bookable |
| Doors.CreateDoorS | src/scripts/managers/DoorManager.js:76-94 | creating a door adds exactly one node, under the wall, carrying the wall's id |
| Doors.WithOpening | src/scripts/managers/DoorManager.js:69-72 | the openings list is created if absent and the door is appended to it; no other tag changes |
| Doors.PlaceDoorEffect | src/scripts/managers/DoorManager.js:52-74 | without a hit nothing changes. With one, the object hit gains the door as its last child and last opening, the door carries the door tags, and no other node changes. |
| Doors.PlaceDoorS | src/scripts/managers/DoorManager.js:52-74 | without a hit nothing changes; with one, exactly one node is added |
| Doors.PlaceDoorOpenings | src/scripts/managers/DoorManager.js:63-73 | placing a door appends exactly that door to the hit wall's openings |
| Doors.OpeningsAccumulate | src/scripts/managers/DoorManager.js:69-72 | two doors placed on one wall are listed in placement order after its earlier openings |
| Doors.RestoredDoorsEffect | src/scripts/managers/DoorManager.js:96-116 | a door made from data hangs under its wall at the local position, with the given angles in the default order. A door made from a save carries the saved rotation. |
| Doors.DoorFromSaveS | src/scripts/managers/DoorManager.js:96-100 | one node is added, at the saved position with the saved rotation |
| Doors.DoorFromDataS | src/scripts/managers/DoorManager.js:102-116 | one node is added, at the local position, with the given angles in the default order |
| Doors.DoorPreviewSpec | src/scripts/managers/DoorManager.js:26-50 | the preview is hidden when nothing is hit. When the first hit is a wall, it is shown at the hit point with the wall's rotation. Any other hit changes nothing. When hidden or shown, the preview keeps every other field, and only the preview ever changes. |
| Doors.DoorPreview | src/scripts/managers/DoorManager.js:26-50 | the node set is kept; afterwards the preview is shown exactly when something is hit and either the first hit is a wall or the preview was already shown |
| Doors.CreatePreviewDoor | src/scripts/managers/DoorManager.js:12-24 | one hidden mesh is added under the scene |
| Doors.DoorManager.constructor | src/scripts/managers/DoorManager.js:4-10 | placement mode off and a hidden preview door added |
| Doors.DoorManager.UpdatePreview | src/scripts/managers/DoorManager.js:26-50 | the scene's nodes become `DoorPreview` of the old ones |
| Doors.DoorManager.PlaceDoor | src/scripts/managers/DoorManager.js:52-74 | the scene becomes `PlaceDoorS` of the old one |
| Doors.DoorManager.CreateDoor | src/scripts/managers/DoorManager.js:76-94 | the scene becomes `CreateDoorS` of the old one and the door gets the next id |
| Doors.DoorManager.CreateDoorFromSave | src/scripts/managers/DoorManager.js:96-100 | the scene becomes `DoorFromSaveS` of the old one |
| Doors.DoorManager.CreateDoorFromData | src/scripts/managers/DoorManager.js:102-116 | the scene becomes `DoorFromDataS`, with the local position taken from the array's first three entries |

## Left out

- Raycasting, pointer-to-device coordinates and `getBoundingClientRect` are left out. Each event carries its hits, its floor hit and its ground point as inputs.
- Rendering, lights, shadows, opacity and geometry sizes are left out. Of the materials, only the red and green paint of booked or free furniture is kept.
- `fetch`, the scene list, modals, alerts, the loading overlay and `setupViewOnlyMode`'s DOM changes are left out. A load takes the parsed response, or None for a failed fetch.
- SceneRecords.SaveDocument: the document's `name`, `Scene ${Date.now()}` (src/scripts/managers/FileManager.js:34), is left out with the clock it reads. The model keeps only the `data` part, its objects and its version. The same holds for `Editor.FileManager.SaveScene`.
- SceneRecords.LoadSceneW: only documents of the shape `saveScene` writes are modelled: a `data.objects` list of records that each have a type, a position, a rotation, a scale and a userData. The server stores `data` as any object, so the source can get other responses, and then it fails part-way. `clearScene()` has already run (src/scripts/managers/FileManager.js:176).
  - A missing `data.objects` makes the `for…of` at line 179 throw before any record is restored.
  - A furniture record without `userData` throws at line 253.
  - A record without `position`, `rotation` or `scale` throws at lines 265-271. A wall record's mesh is already in `walls` and in the scene by then (lines 250-251), so it stays there at the origin.
  - In each case `recreateObject` rethrows (line 303), and the catch at line 190 ends the load. The scene is left cleared, with only the records before the faulty one restored. `Editor.FileManager.LoadScene` shares this limit.
- `setupViewOnlyMode` also sets the orbit controls' `enableRotate` and `enablePan` to false and `enableZoom` to true (src/scripts/managers/FileManager.js:198-202). The model keeps only the controls' `enabled` flag, so these three settings are left out.
- The server (`server/routes/scenes.js`, `server/models/Scene.js`) is not part of this model: it only stores and returns documents.
- `src/scripts/main.js` is not part of this model: it sets up the renderer, the camera, the animation loop and resizing.
- `src/scripts/asset.js` is not part of this model. A load is a parameter that says whether the model arrived and how many meshes it has. Its tags are overwritten by the factories.
- The sofa and round-table factories cannot work as shipped. src/scripts/managers/UIManager.js:5 imports `sofa` and `roundTable`, but src/scripts/asset.js exports only `chair` and `table`, so that import fails to resolve. The model gives these two kinds factories of their own, like the chair and the table, so `SceneRecords.FactoryFor` and `Editor.UIManager.CreateFurniture` describe the code as its authors meant it.
- `SidebarManager.js` builds the DOM. Its wall-tool action is the same transition as `WiredEditor.UIManager.WallToolAction`.
- The wired controller's own library buttons for a chair and a table (src/scripts/UIManager.js:52-83) are left out. They place the model at (0, 0.5, 0) and tag it as the factories do.
- The booking confirmation popup and its `setTimeout` are left out. So are scale mode and its panel, and the sidebar toggle.
- `async`/`await` is left out. Each operation runs to completion as one step, and concurrent loads are not modelled.
- The direction-switch buttons are not modelled as handlers of their own. They call `WallPlacement.WallManager.SwitchDirection`.
- `worldToLocal` and quaternion arithmetic are left out. `Doors.DoorManager.PlaceDoor` takes the hit point already expressed in the wall's frame.
- Doors.DoorPreview: copying the wall's quaternion is modelled as copying its Euler rotation, and the hit point is taken as given.
- Doors.DoorTags: the `parentWall` object reference in a door's userData is not modelled. The model keeps the wall's id, `parentWallId`, and a node's parent link already leads to the same wall. The reference matters only to saving, which the next line covers.
- Doors.DoorManager.CreateDoorFromData: requires at least three entries in the position array. `fromArray` on a shorter array yields undefined coordinates, which reals cannot represent.
- Doors.DoorManager: the constructor's `wallManager` argument is not kept, because the raycast over its walls is an input to `UpdatePreview` and `PlaceDoor`.
- WallPlacement.WallManager.constructor: states the new preview node and the root's child list, but not that every other node is unchanged.
- Editor.UIManager.constructor: states the same preview facts as the wall manager's constructor, not that every other node is unchanged.
- WiredEditor.UIManager.constructor: states the same preview facts as the wall manager's constructor, not that every other node is unchanged.
- SceneRecords.SaveLoadRoundTrip: a wall that carries doors cannot be saved in the source. The wall's `userData.openings` holds the door objects (src/scripts/managers/DoorManager.js:71-72), and each door's `userData.parentWall` holds the wall (src/scripts/managers/DoorManager.js:88). The saved record copies the wall's userData (src/scripts/managers/FileManager.js:54), so `JSON.stringify` (src/scripts/managers/FileManager.js:67) meets a reference cycle and throws. `saveScene` catches the error and saves nothing (src/scripts/managers/FileManager.js:86-90). The model's userData holds `openings` as a list of node ids, which has no cycle, so in the model the round trip also covers a wall with doors, which the source fails to save. No file in the core creates a `DoorManager`, so in the shipped program no wall has doors.
- SceneRecords.SaveLoadRoundTrip: covers saved nodes that are walls, or furniture of a known kind whose asset loads. A movable node of no known kind, or one whose load fails, does not come back (`SceneRecords.RecreateNothing`).
- Editor.DragManager.BookObject: the booking time is a parameter standing for `new Date().toISOString()`.
- Numbers are reals, so floating-point rounding is not modelled. `Math.round` is `floor(v + 1/2)` over the reals.

## Findings

| source | as written | input that shows it | evidently intended | confidence | as-written member | corrected member |
|---|---|---|---|---|---|---|
| src/scripts/managers/DragManager.js:170-178 (also src/scripts/UIManager.js:218-225) | `intersectPlane` returns null when the ray misses the ground plane and leaves `intersection` at (0, 0, 0). `if (intersection)` tests the vector itself, which is always truthy, so the object moves to the offset. | start a drag at hit (2, 0, 2) on an object at (3, 0.1, 3), then move the pointer above the horizon: the object jumps to (1, 0.1, 1) | skip the move when the ray does not meet the plane | not executed; high | PointerRules.DragTargetAsWritten, shown by PointerRules.DragOverHorizonJumps; PointerRules.DragMove and both controllers' HandleDrag follow it | PointerRules.DragTarget, proved by PointerRules.DragIsTranslation and PointerRules.DragStartsInPlace; PointerRules.DragMoveFollowsIntended shows the controllers agree with it whenever the ray meets the ground |
