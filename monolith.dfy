/** The controller `src/scripts/main.js` wires up: one class that keeps the
    remove flag, the drag state and the wall manager together. Its rules
    differ from the split controller's in three places: selection climbs to
    the nearest movable node only and drags it when it cannot rotate,
    removal looks at the first hit only and climbs to the nearest wall,
    chair or furniture, and a removed wall is filtered out of the wall list. */
module WiredEditor {
  import opened SceneGraph
  import opened WallPlacement
  import opened PointerRules
  import opened SceneRecords
  import opened Editor

  // ---------------------------------------------------------------------------
  // Removal

  /** The object a removal click takes: the nearest wall, chair or furniture
      ancestor-or-self of the first hit; the other hits are never looked at. */
  ghost function FirstHitRemoval(g: Graph, hits: seq<Hit>): (r: Option<NodeId>)
    requires WellFormed(g) && HitsIn(g, hits)
    ensures r.Some? ==> |hits| > 0 && r.value in g && Has(g[r.value].userData, WallOrFurniture)
    ensures |hits| > 0 && Has(g[hits[0].node].userData, WallOrFurniture) ==> r == Some(hits[0].node)
  {
    if |hits| == 0 then None else Nearest(g, hits[0].node, WallOrFurniture)
  }

  /** `handleRemoveObject` on the scene and the wall list: the object found
      leaves the scene when it hangs directly under it, its own resources are
      disposed, and a wall is filtered out of `walls`. */
  ghost function WiredRemoveW(w: World, root: NodeId, hits: seq<Hit>): (v: World)
    requires ValidWorld(w, root) && HitsIn(w.scene.nodes, hits)
    ensures FirstHitRemoval(w.scene.nodes, hits).None? ==> v == w
    ensures |v.walls| <= |w.walls|
  {
    match FirstHitRemoval(w.scene.nodes, hits)
    case None => w
    case Some(o) =>
      NearestNotRoot(w.scene, root, hits[0].node, WallOrFurniture);
      var walls: seq<NodeId> := if w.scene.nodes[o].userData.isWall then FilterOut<NodeId>(w.walls, o) else w.walls;
      World(RemoveS(w.scene, root, o), walls)
  }

  /** What a removal click does: with nothing removable under the first hit
      it changes nothing; otherwise the object found is a wall, chair or
      furniture other than the root, only its own geometry and materials are
      disposed, it alone can change parent, a wall leaves the wall list and
      every other wall stays, and the scene stays valid. */
  lemma WiredRemoveEffect(w: World, root: NodeId, hits: seq<Hit>)
    requires ValidWorld(w, root) && HitsIn(w.scene.nodes, hits)
    ensures var v := WiredRemoveW(w, root, hits);
            && ValidWorld(v, root)
            && v.scene.nodes.Keys == w.scene.nodes.Keys && v.scene.nextId == w.scene.nextId
            && (FirstHitRemoval(w.scene.nodes, hits).None? ==> v == w)
    ensures FirstHitRemoval(w.scene.nodes, hits).Some? ==>
              var g := w.scene.nodes;
              var o := FirstHitRemoval(g, hits).value;
              var v := WiredRemoveW(w, root, hits);
              && o in g && o != root && Has(g[o].userData, WallOrFurniture)
              && v.scene.disposed == w.scene.disposed + multiset(OwnResources(g[o]))
              && (forall y | y in g && y != o :: v.scene.nodes[y].parent == g[y].parent)
              && (g[o].userData.isWall ==> o !in v.walls)
              && (!g[o].userData.isWall ==> v.walls == w.walls)
              && (forall x | x in w.walls && x != o :: x in v.walls)
              && (forall x | x in v.walls :: x in w.walls)
  {
    var r := FirstHitRemoval(w.scene.nodes, hits);
    if r.Some? {
      NearestNotRoot(w.scene, root, hits[0].node, WallOrFurniture);
      FilterOutNoDup<NodeId>(w.walls, r.value);
    }
  }

  /** Only the first hit decides a removal. */
  lemma RemovalSeesFirstHitOnly(w: World, root: NodeId, hits: seq<Hit>)
    requires ValidWorld(w, root) && HitsIn(w.scene.nodes, hits) && |hits| > 0
    ensures WiredRemoveW(w, root, hits) == WiredRemoveW(w, root, hits[..1])
  {
    assert hits[..1][0] == hits[0];
  }

  /** A click whose first hit belongs to nothing removable while a later hit
      does: the split controller's scan removes the later hit's object, the
      wired controller removes nothing. */
  lemma {:induction false} RemovalScansDiffer(w: World, root: NodeId, hits: seq<Hit>)
    requires ValidWorld(w, root) && HitsIn(w.scene.nodes, hits) && |hits| >= 2
    requires Nearest(w.scene.nodes, hits[0].node, MovableOrWall).None?
    requires Nearest(w.scene.nodes, hits[0].node, WallOrFurniture).None?
    requires Nearest(w.scene.nodes, hits[1].node, MovableOrWall).Some?
    ensures WiredRemoveW(w, root, hits) == w
    ensures RemovalFrom(w.scene.nodes, hits, 0) == Nearest(w.scene.nodes, hits[1].node, MovableOrWall)
  {
    var g := w.scene.nodes;
    var o := Nearest(g, hits[1].node, MovableOrWall);
    assert RemovalFrom(g, hits, 1) == o;
  }

  // ---------------------------------------------------------------------------
  // Selection and clicks

  /** `handleObjectSelection` with the wired rule: a drag pins the nearest
      movable object to the drag height and remembers its offset from the hit
      point; a rotation remembers the pointer; either switches the orbit
      controls off. */
  ghost function WiredSelect(w: World, root: NodeId, d: DragState, enabled: bool, e: MouseEvent,
                             hits: seq<Hit>, isRotation: bool): (r: Outcome)
    requires ValidWorld(w, root) && HitsIn(w.scene.nodes, hits)
    ensures r.world.walls == w.walls
    ensures WiredSelection(w.scene.nodes, hits, isRotation).NoGesture? ==> r == Outcome(w, d, enabled)
    ensures !WiredSelection(w.scene.nodes, hits, isRotation).NoGesture? ==>
              && !r.controlsEnabled
              && r.drag.selectedObject == Some(WiredSelection(w.scene.nodes, hits, isRotation).target)
  {
    var g := w.scene.nodes;
    match WiredSelection(g, hits, isRotation)
    case NoGesture => Outcome(w, d, enabled)
    case StartRotate(o) =>
      Outcome(w, d.(isRotating := true, selectedObject := Some(o), previousX := e.clientX, previousY := e.clientY), false)
    case StartDrag(o, p) =>
      assert o != root;
      var s := PutS(w.scene, root, o, g[o].(position := Pinned(g[o].position)));
      Outcome(w.(scene := s),
              d.(isDragging := true, selectedObject := Some(o), offset := StartOffset(g[o].position, p)), false)
  }

  /** A selection keeps the scene valid and its shape and the wall list; it
      selects a movable object other than the root and switches the orbit
      controls off, or changes nothing; a rotation gesture on a movable
      object that cannot rotate starts a drag of it. */
  lemma WiredSelectSpec(w: World, root: NodeId, d: DragState, enabled: bool, e: MouseEvent,
                        hits: seq<Hit>, isRotation: bool)
    requires ValidWorld(w, root) && HitsIn(w.scene.nodes, hits)
    ensures var r := WiredSelect(w, root, d, enabled, e, hits, isRotation);
            && ValidWorld(r.world, root) && r.world.walls == w.walls
            && SameShape(w.scene.nodes, r.world.scene.nodes)
            && (WiredSelection(w.scene.nodes, hits, isRotation).NoGesture? ==> r == Outcome(w, d, enabled))
            && (!WiredSelection(w.scene.nodes, hits, isRotation).NoGesture? ==>
                  && !r.controlsEnabled && r.drag.selectedObject.Some?
                  && r.drag.selectedObject.value != root
                  && r.drag.selectedObject.value in r.world.scene.nodes
                  && r.world.scene.nodes[r.drag.selectedObject.value].userData.isMovable)
    ensures var o := if |hits| > 0 then Nearest(w.scene.nodes, hits[0].node, Movable) else None;
            var r := WiredSelect(w, root, d, enabled, e, hits, isRotation);
            o.Some? && !(isRotation && w.scene.nodes[o.value].userData.isRotatable) ==>
              && r.drag.isDragging && r.drag.selectedObject == o
              && r.world.scene.nodes[o.value].position.y == DragHeight
  {
    var g := w.scene.nodes;
    var r := WiredSelect(w, root, d, enabled, e, hits, isRotation);
    match WiredSelection(g, hits, isRotation)
    case NoGesture =>
    case StartRotate(o) =>
    case StartDrag(o, p) =>
      SameShapeWellFormed(g, r.world.scene.nodes);
  }

  /** `handleMouseDown`: remove mode, then wall mode, then selection, with a
      right button or shift as the rotation gesture. */
  ghost function WiredClick(w: World, root: NodeId, preview: NodeId, d: DragState, enabled: bool,
                            removeMode: bool, wallMode: bool, e: MouseEvent, hits: seq<Hit>,
                            floorHit: bool): (r: Outcome)
    requires ValidWorld(w, root) && HitsIn(w.scene.nodes, hits) && preview in w.scene.nodes
    ensures removeMode ==> r.world == WiredRemoveW(w, root, hits)
    ensures !removeMode ==> r.world.scene.disposed == w.scene.disposed
  {
    if removeMode then Outcome(WiredRemoveW(w, root, hits), d, enabled)
    else if wallMode then Outcome(WallClickW(w, root, preview, true, e.button, floorHit), d, enabled)
    else WiredSelect(w, root, d, enabled, e, hits, IsRotationGesture(e))
  }

  /** Every click keeps the scene valid and never forgets a node; a removal
      or wall click leaves the drag state and the controls alone. */
  lemma WiredClickKeepsValid(w: World, root: NodeId, preview: NodeId, d: DragState, enabled: bool,
                             removeMode: bool, wallMode: bool, e: MouseEvent, hits: seq<Hit>, floorHit: bool)
    requires ValidWorld(w, root) && HitsIn(w.scene.nodes, hits) && preview in w.scene.nodes
    ensures var r := WiredClick(w, root, preview, d, enabled, removeMode, wallMode, e, hits, floorHit);
            && ValidWorld(r.world, root) && r.world.scene.nodes.Keys >= w.scene.nodes.Keys
            && (removeMode || wallMode ==> r.drag == d && r.controlsEnabled == enabled)
  {
    if removeMode {
      WiredRemoveEffect(w, root, hits);
    } else if wallMode {
      WallClickKeepsValid(w, root, preview, true, e.button, floorHit);
    } else {
      WiredSelectSpec(w, root, d, enabled, e, hits, IsRotationGesture(e));
    }
  }

  // ---------------------------------------------------------------------------
  // The controller

  class UIManager {
    const scene: Scene
    const floor: NodeId
    const gridSize: real
    const controls: OrbitControls
    const wallManager: WallManager
    var isRemoveMode: bool
    var isDragging: bool
    var isRotating: bool
    var selectedObject: Option<NodeId>
    var offset: Vec3
    var previousX: real
    var previousY: real

    ghost function State(): DragState
      reads this
    {
      DragState(isDragging, isRotating, selectedObject, offset, previousX, previousY)
    }

    ghost predicate Valid()
      reads this, scene, wallManager
    {
      && wallManager.scene == scene && wallManager.Valid()
      && wallManager.floor == floor && wallManager.gridSize == gridSize
      && (selectedObject.Some? ==> selectedObject.value in scene.nodes && selectedObject.value != scene.root)
    }

    /** Every flag off, nothing selected, and a wall manager with its hidden
      preview. */
    constructor (scene: Scene, floor: NodeId, gridSize: real, controls: OrbitControls)
      requires scene.Valid() && floor in scene.nodes && gridSize > 0.0
      modifies scene
      ensures Valid() && this.scene == scene && this.floor == floor && this.gridSize == gridSize
      ensures this.controls == controls && fresh(wallManager)
      ensures !isRemoveMode && State() == Idle
      ensures !wallManager.isAddWallMode && wallManager.direction == Horizontal && wallManager.walls == []
      ensures wallManager.previewWall == old(scene.nextId)
      ensures scene.nodes.Keys == old(scene.nodes.Keys) + {wallManager.previewWall}
      ensures scene.nodes[wallManager.previewWall]
              == NewMesh(wallManager.previewWall).(visible := false, parent := Some(scene.root))
    {
      this.scene := scene;
      this.floor := floor;
      this.gridSize := gridSize;
      this.controls := controls;
      isRemoveMode := false;
      isDragging := false;
      isRotating := false;
      selectedObject := None;
      offset := Origin;
      previousX := 0.0;
      previousY := 0.0;
      wallManager := new WallManager(scene, floor, gridSize);
    }

    /** The Wall button of the object library: flip wall mode and switch
      remove mode off. */
    method WallToolAction()
      requires Valid()
      modifies this, scene, wallManager
      ensures Valid() && !isRemoveMode && State() == old(State())
      ensures wallManager.isAddWallMode == !old(wallManager.isAddWallMode)
      ensures wallManager.walls == old(wallManager.walls) && wallManager.direction == old(wallManager.direction)
      ensures var p := wallManager.previewWall;
              scene.State() == old(scene.State()).(nodes := old(scene.nodes)[p :=
                                 old(scene.nodes)[p].(visible := wallManager.isAddWallMode)])
    {
      var on := wallManager.ToggleAddWallMode();
      isRemoveMode := false;
    }

    /** The remove button: flip remove mode; turning it on flips wall mode
      too, whatever wall mode was. */
    method ToggleRemove()
      requires Valid()
      modifies this, scene, wallManager
      ensures Valid() && isRemoveMode == !old(isRemoveMode) && State() == old(State())
      ensures wallManager.walls == old(wallManager.walls) && wallManager.direction == old(wallManager.direction)
      ensures wallManager.isAddWallMode == (if isRemoveMode then !old(wallManager.isAddWallMode)
                                            else old(wallManager.isAddWallMode))
      ensures var p := wallManager.previewWall;
              scene.State() == (if isRemoveMode
                                then old(scene.State()).(nodes := old(scene.nodes)[p :=
                                       old(scene.nodes)[p].(visible := wallManager.isAddWallMode)])
                                else old(scene.State()))
    {
      isRemoveMode := !isRemoveMode;
      if isRemoveMode {
        var on := wallManager.ToggleAddWallMode();
      }
    }

    /** `handleMouseMove`: wall preview, else drag, else rotation. */
    method HandleMouseMove(e: MouseEvent, floorPoint: Option<Vec3>, ground: Option<Vec3>)
      requires Valid()
      modifies this, scene
      ensures Valid() && isRemoveMode == old(isRemoveMode)
      ensures var wm := wallManager;
              var r := PointerMove(old(scene.nodes), wm.walls, wm.previewWall, wm.isAddWallMode,
                                   wm.direction, gridSize, old(State()), e, floorPoint, ground);
              scene.State() == old(scene.State()).(nodes := r.0) && State() == r.1
    {
      if wallManager.isAddWallMode {
        UpdateWallPreview(floorPoint);
      } else if isDragging {
        HandleDrag(ground);
      } else if isRotating {
        HandleRotation(e);
      }
    }

    /** `updateWallPreview`: a floor hit moves the wall preview. */
    method UpdateWallPreview(floorPoint: Option<Vec3>)
      requires Valid()
      modifies scene
      ensures Valid()
      ensures var wm := wallManager;
              scene.State() == (if floorPoint.Some?
                then old(scene.State()).(nodes := PreviewUpdate(old(scene.nodes), wm.walls, wm.previewWall,
                       wm.isAddWallMode, wm.direction, gridSize, floorPoint.value))
                else old(scene.State()))
    {
      if floorPoint.Some? {
        wallManager.UpdatePreviewWall(floorPoint.value);
      }
    }

    /** `handleMouseDown`: remove mode, then wall mode, then selection. */
    method HandleMouseDown(e: MouseEvent, hits: seq<Hit>, floorPoint: Option<Vec3>)
      requires Valid() && HitsIn(scene.nodes, hits)
      modifies this, scene, wallManager, controls
      ensures Valid() && isRemoveMode == old(isRemoveMode)
      ensures wallManager.isAddWallMode == old(wallManager.isAddWallMode)
      ensures wallManager.direction == old(wallManager.direction)
      ensures Outcome(WorldOf(wallManager), State(), controls.enabled)
              == WiredClick(old(WorldOf(wallManager)), scene.root, wallManager.previewWall, old(State()),
                            old(controls.enabled), isRemoveMode, wallManager.isAddWallMode,
                            e, hits, floorPoint.Some?)
    {
      ghost var w := WorldOf(wallManager);
      if isRemoveMode {
        HandleRemoveObject(hits);
      } else if wallManager.isAddWallMode {
        wallManager.HandleMouseDown(e.button, floorPoint.Some?);
        assert WorldOf(wallManager) == WallClickW(w, scene.root, wallManager.previewWall, true, e.button, floorPoint.Some?);
      } else {
        HandleObjectSelection(e, hits, IsRotationGesture(e));
      }
    }

    /** `handleObjectSelection`. */
    method HandleObjectSelection(e: MouseEvent, hits: seq<Hit>, isRotation: bool)
      requires Valid() && HitsIn(scene.nodes, hits)
      modifies this, scene, controls
      ensures Valid() && isRemoveMode == old(isRemoveMode)
      ensures Outcome(WorldOf(wallManager), State(), controls.enabled)
              == WiredSelect(old(WorldOf(wallManager)), scene.root, old(State()), old(controls.enabled), e, hits, isRotation)
    {
      if |hits| > 0 {
        var found := FindMovableParent(hits[0].node);
        if found.Some? {
          NearestNotRoot(scene.State(), scene.root, hits[0].node, Movable);
          if isRotation && scene.nodes[found.value].userData.isRotatable {
            StartRotation(found.value, e);
          } else {
            StartDragging(found.value, hits[0].point);
          }
        }
      }
    }

    /** `findMovableParent`: the nearest movable ancestor-or-self. */
    method FindMovableParent(obj: NodeId) returns (r: Option<NodeId>)
      requires Valid() && obj in scene.nodes
      ensures r == Nearest(scene.nodes, obj, Movable)
      ensures r.Some? ==> r.value in scene.nodes && scene.nodes[r.value].userData.isMovable
    {
      r := ClimbUntilTagged(scene.nodes, obj, Movable);
    }

    /** `startDragging`: pin the object to the drag height and remember its
      offset from the hit point. */
    method StartDragging(obj: NodeId, intersectPoint: Vec3)
      requires Valid() && obj in scene.nodes && obj != scene.root
      modifies this, scene, controls
      ensures Valid() && !controls.enabled && isRemoveMode == old(isRemoveMode)
      ensures var n := old(scene.nodes)[obj];
              && State() == old(State()).(isDragging := true, selectedObject := Some(obj),
                                          offset := StartOffset(n.position, intersectPoint))
              && scene.State() == PutS(old(scene.State()), scene.root, obj, n.(position := Pinned(n.position)))
    {
      isDragging := true;
      selectedObject := Some(obj);
      controls.enabled := false;
      var n := scene.nodes[obj];
      scene.Put(obj, n.(position := Pinned(n.position)));
      offset := StartOffset(n.position, intersectPoint);
    }

    /** `handleDrag`, given where the pointer ray meets the ground plane
      (None when it does not). */
    method HandleDrag(ground: Option<Vec3>)
      requires Valid()
      modifies scene
      ensures Valid()
      ensures scene.State() == old(scene.State()).(nodes := DragMove(old(scene.nodes), State(), ground))
    {
      if !isDragging || selectedObject.None? {
        return;
      }
      var o := selectedObject.value;
      scene.Put(o, scene.nodes[o].(position := DragTargetAsWritten(ground, offset)));
    }

    /** `startRotation`: remember where the pointer is. */
    method StartRotation(obj: NodeId, e: MouseEvent)
      requires Valid() && obj in scene.nodes && obj != scene.root
      modifies this, controls
      ensures Valid() && !controls.enabled && isRemoveMode == old(isRemoveMode)
      ensures State() == old(State()).(isRotating := true, selectedObject := Some(obj),
                                       previousX := e.clientX, previousY := e.clientY)
    {
      isRotating := true;
      selectedObject := Some(obj);
      controls.enabled := false;
      previousX := e.clientX;
      previousY := e.clientY;
    }

    /** `handleRotation`. */
    method HandleRotation(e: MouseEvent)
      requires Valid()
      modifies this, scene
      ensures Valid() && isRemoveMode == old(isRemoveMode)
      ensures var r := RotationMove(old(scene.nodes), old(State()), e);
              State() == r.1 && scene.State() == old(scene.State()).(nodes := r.0)
    {
      if !isRotating || selectedObject.None? {
        return;
      }
      var o := selectedObject.value;
      var n := scene.nodes[o];
      scene.Put(o, n.(rotation := n.rotation.(y := RotateStep(n.rotation.y, previousX, e.clientX))));
      previousX := e.clientX;
      previousY := e.clientY;
    }

    /** `stopDragging` (the window's `mouseup`): ends a drag or a rotation and
      gives the camera its controls back; a no-op when neither is under way. */
    method StopDragging()
      requires Valid()
      modifies this, controls
      ensures Valid() && isRemoveMode == old(isRemoveMode)
      ensures var d := old(State());
              if d.isDragging || d.isRotating then
                && State() == d.(isDragging := false, isRotating := false, selectedObject := None)
                && controls.enabled
              else State() == d && controls.enabled == old(controls.enabled)
    {
      if isDragging || isRotating {
        isDragging := false;
        isRotating := false;
        selectedObject := None;
        controls.enabled := true;
      }
    }

    /** `handleRemoveObject`: only the first hit is looked at; its removable
      ancestor leaves the scene, is filtered out of the wall list when it is a
      wall, and has its own resources disposed. */
    method HandleRemoveObject(hits: seq<Hit>)
      requires Valid() && HitsIn(scene.nodes, hits)
      modifies scene, wallManager
      ensures Valid()
      ensures wallManager.isAddWallMode == old(wallManager.isAddWallMode)
      ensures wallManager.direction == old(wallManager.direction)
      ensures WorldOf(wallManager) == WiredRemoveW(old(WorldOf(wallManager)), scene.root, hits)
    {
      if |hits| > 0 {
        var found := FindRemovableParent(hits[0].node);
        if found.Some? {
          RemoveFound(found.value);
        }
      }
    }

    /** The removal once the object is found. */
    method RemoveFound(o: NodeId)
      requires Valid() && o in scene.nodes && o != scene.root
      modifies scene, wallManager
      ensures Valid()
      ensures wallManager.isAddWallMode == old(wallManager.isAddWallMode)
      ensures wallManager.direction == old(wallManager.direction)
      ensures scene.State() == RemoveS(old(scene.State()), scene.root, o)
      ensures wallManager.walls ==
                if old(scene.nodes[o].userData.isWall) then FilterOut<NodeId>(old(wallManager.walls), o)
                else old(wallManager.walls)
    {
      scene.Remove(scene.root, o);
      if scene.nodes[o].userData.isWall {
        FilterOutNoDup<NodeId>(wallManager.walls, o);
        wallManager.walls := FilterOut<NodeId>(wallManager.walls, o);
      }
      DisposeObject(o);
    }

    /** `findRemovableParent`: the nearest wall, chair or furniture
      ancestor-or-self. */
    method FindRemovableParent(obj: NodeId) returns (r: Option<NodeId>)
      requires Valid() && obj in scene.nodes
      ensures r == Nearest(scene.nodes, obj, WallOrFurniture)
      ensures r.Some? ==> r.value in scene.nodes && r.value != scene.root
    {
      NearestNotRoot(scene.State(), scene.root, obj, WallOrFurniture);
      r := ClimbUntilTagged(scene.nodes, obj, WallOrFurniture);
    }

    /** `disposeObject`: the object's own geometry and materials, and nothing
      of its children. */
    method DisposeObject(o: NodeId)
      requires scene.Valid() && o in scene.nodes
      modifies scene
      ensures scene.Valid()
      ensures scene.State() == old(scene.State()).(disposed := old(scene.disposed) + multiset(OwnResources(old(scene.nodes)[o])))
    {
      scene.Dispose(OwnResources(scene.nodes[o]));
    }
  }

  /** The remove button pressed with both modes off turns remove mode and
      wall mode on together: the two modes are not kept exclusive. */
  method RemoveToggleTurnsWallModeOn(ui: UIManager)
    requires ui.Valid() && !ui.isRemoveMode && !ui.wallManager.isAddWallMode
    modifies ui, ui.scene, ui.wallManager
    ensures ui.Valid() && ui.isRemoveMode && ui.wallManager.isAddWallMode
    ensures ui.scene.nodes[ui.wallManager.previewWall].visible
  {
    ui.ToggleRemove();
  }
}
