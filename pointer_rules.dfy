/** The pointer rules both editor controllers share: what a raycast yields, the
    ancestor walks that turn a hit mesh into the object it belongs to, and the
    drag and rotation arithmetic. */
module PointerRules {
  import opened SceneGraph

  /** One raycast intersection: the object hit and the world point. */
  datatype Hit = Hit(node: NodeId, point: Vec3)

  /** The fields of a DOM mouse event the engine reads. */
  datatype MouseEvent = MouseEvent(button: int, shiftKey: bool, clientX: real, clientY: real)

  /** Right button or shift: the gesture rotates rather than drags. */
  predicate IsRotationGesture(e: MouseEvent)
    ensures e.button == 2 || e.shiftKey ==> IsRotationGesture(e)
    ensures e.button == 0 && !e.shiftKey ==> !IsRotationGesture(e)
  {
    e.button == 2 || e.shiftKey
  }

  /** Hits are ordered nearest first and name nodes of the scene. */
  ghost predicate HitsIn(g: Graph, hits: seq<Hit>) {
    forall i | 0 <= i < |hits| :: hits[i].node in g
  }

  // ---------------------------------------------------------------------------
  // Ancestor walks

  /** `let current = object; while (current) { if (test) return current;
      current = current.parent; } return null;` */
  method ClimbWhileCurrent(g: Graph, start: NodeId, c: Capability) returns (r: Option<NodeId>)
    requires WellFormed(g) && start in g
    ensures r == Nearest(g, start, c)
  {
    var current := Some(start);
    while current.Some?
      invariant current.Some? ==> current.value in g && Nearest(g, current.value, c) == Nearest(g, start, c)
      invariant current.None? ==> Nearest(g, start, c) == None
      decreases if current.Some? then Rank(g, current.value) + 1 else 0
    {
      var n := g[current.value];
      if Has(n.userData, c) {
        return current;
      }
      current := n.parent;
    }
    return None;
  }

  /** `while (object && !test) object = object.parent; return test ? object : null;` */
  method ClimbUntilTagged(g: Graph, start: NodeId, c: Capability) returns (r: Option<NodeId>)
    requires WellFormed(g) && start in g
    ensures r == Nearest(g, start, c)
  {
    var o := Some(start);
    while o.Some? && !Has(g[o.value].userData, c)
      invariant o.Some? ==> o.value in g && Nearest(g, o.value, c) == Nearest(g, start, c)
      invariant o.None? ==> Nearest(g, start, c) == None
      decreases if o.Some? then Rank(g, o.value) + 1 else 0
    {
      o := g[o.value].parent;
    }
    r := if o.Some? && Has(g[o.value].userData, c) then o else None;
  }

  /** A capability that implies another finds a match no farther up: the
      wired editor's movable walk never ends above the split editor's
      movable-or-furniture walk. */
  lemma {:induction false} NearestWeaker(g: Graph, id: NodeId, strong: Capability, weak: Capability)
    requires WellFormed(g) && id in g
    requires forall u: UserData :: Has(u, strong) ==> Has(u, weak)
    ensures Nearest(g, id, strong).Some? ==> Nearest(g, id, weak).Some?
    ensures (Nearest(g, id, weak).Some? && Has(g[Nearest(g, id, weak).value].userData, strong))
              ==> Nearest(g, id, strong) == Nearest(g, id, weak)
    decreases Rank(g, id)
  {
    if !Has(g[id].userData, weak) && g[id].parent.Some? {
      NearestWeaker(g, g[id].parent.value, strong, weak);
    }
  }

  // ---------------------------------------------------------------------------
  // Dragging

  /** The drag height every dragged object is pinned to. */
  const DragHeight: real := 0.1

  /** The point lifted or lowered to the drag height, x and z kept. */
  function Pinned(p: Vec3): (r: Vec3)
    ensures r.x == p.x && r.y == DragHeight && r.z == p.z
  {
    p.(y := DragHeight)
  }

  /** `offset.copy(position).sub(hit)` after the position's y was pinned. */
  function StartOffset(position: Vec3, hit: Vec3): (r: Vec3)
    ensures hit.Plus(r) == Pinned(position)
  {
    Pinned(position).Minus(hit)
  }

  /** Where a drag move puts the object: the ground point plus the offset,
      pinned; nothing when the pointer ray misses the ground plane. */
  function DragTarget(ground: Option<Vec3>, offset: Vec3): (r: Option<Vec3>)
    ensures r.Some? <==> ground.Some?
    ensures r.Some? ==> r.value.y == DragHeight
    ensures r.Some? ==> r.value.x == ground.value.x + offset.x && r.value.z == ground.value.z + offset.z
  {
    if ground.Some? then Some(Pinned(ground.value.Plus(offset))) else None
  }

  /** The drag move as written: `intersectPlane` leaves its target at the
      origin when the ray misses the plane, and the `if (intersection)` guard
      tests the target vector, which is always truthy. */
  function DragTargetAsWritten(ground: Option<Vec3>, offset: Vec3): (r: Vec3)
    ensures r.y == DragHeight
    ensures ground.Some? ==> r.x == ground.value.x + offset.x && r.z == ground.value.z + offset.z
    ensures ground.None? ==> r == Pinned(offset)
  {
    Pinned(ground.GetOr(Origin).Plus(offset))
  }

  /** The first move over the point that started the drag leaves the object
      where the start pinned it: a drag never jumps at its start. */
  lemma DragStartsInPlace(position: Vec3, hit: Vec3)
    ensures DragTarget(Some(hit), StartOffset(position, hit)) == Some(Pinned(position))
  {
  }

  /** Moving the ground point by d moves the dragged object by d on x and z. */
  lemma DragIsTranslation(g1: Vec3, g2: Vec3, offset: Vec3)
    ensures var a := DragTarget(Some(g1), offset).value;
            var b := DragTarget(Some(g2), offset).value;
            b.x - a.x == g2.x - g1.x && b.z - a.z == g2.z - g1.z && a.y == b.y == DragHeight
  {
  }

  /** The code as written moves a dragged object off the pointer when the ray
      misses the ground: an object at (3, 0.1, 3) grabbed at (2, 0, 2) jumps
      to (1, 0.1, 1), while the intended rule leaves it in place. */
  lemma DragOverHorizonJumps()
    ensures var offset := StartOffset(Vec3(3.0, 0.1, 3.0), Vec3(2.0, 0.0, 2.0));
            && DragTargetAsWritten(None, offset) == Vec3(1.0, 0.1, 1.0)
            && DragTarget(None, offset) == None
  {
  }

  /** Both agree whenever the ray meets the plane. */
  lemma DragAsWrittenAgreesOnHits(ground: Vec3, offset: Vec3)
    ensures DragTarget(Some(ground), offset) == Some(DragTargetAsWritten(Some(ground), offset))
  {
  }

  // ---------------------------------------------------------------------------
  // Rotating

  const RotationSpeed: real := 0.01

  /** One rotation move: yaw grows by 0.01 per pixel of horizontal travel. */
  function RotateStep(yaw: real, previousX: real, x: real): (r: real)
    ensures x == previousX ==> r == yaw
    ensures x > previousX ==> r > yaw
    ensures x < previousX ==> r < yaw
  {
    yaw + (x - previousX) * RotationSpeed
  }

  /** The yaw after a run of rotation moves at the horizontal positions `xs`.
      The change telescopes: it depends only on where the pointer started and
      where it ended, and it is never wrapped. */
  function RotateAll(yaw: real, previousX: real, xs: seq<real>): (r: real)
    ensures |xs| == 0 ==> r == yaw
    ensures |xs| > 0 ==> r == yaw + (xs[|xs| - 1] - previousX) * RotationSpeed
    decreases |xs|
  {
    if |xs| == 0 then yaw
    else RotateAll(RotateStep(yaw, previousX, xs[0]), xs[0], xs[1..])
  }

  // ---------------------------------------------------------------------------
  // The drag controller's state

  /** The fields both controllers keep between pointer events. */
  datatype DragState = DragState(isDragging: bool, isRotating: bool, selectedObject: Option<NodeId>,
                                 offset: Vec3, previousX: real, previousY: real)

  const Idle := DragState(false, false, None, Origin, 0.0, 0.0)

  /** `handleDrag` as written: while a drag is under way the selected object
      goes to the ground point plus the offset, pinned; when the ray misses
      the ground plane the ground point is the origin `intersectPlane` left
      behind, so the object lands on the offset itself. */
  function DragMove(g: Graph, d: DragState, ground: Option<Vec3>): (h: Graph)
    requires d.selectedObject.Some? ==> d.selectedObject.value in g
    ensures SameShape(g, h)
    ensures forall x | x in g && Some(x) != d.selectedObject :: h[x] == g[x]
    ensures d.isDragging && d.selectedObject.Some? ==>
              var o := d.selectedObject.value;
              && h[o] == g[o].(position := h[o].position)
              && h[o].position.y == DragHeight
    ensures d.isDragging && d.selectedObject.Some? && ground.Some? ==>
              var o := d.selectedObject.value;
              && h[o].position.x == ground.value.x + d.offset.x
              && h[o].position.z == ground.value.z + d.offset.z
    ensures d.isDragging && d.selectedObject.Some? && ground.None? ==>
              var o := d.selectedObject.value;
              h[o].position.x == d.offset.x && h[o].position.z == d.offset.z
    ensures !(d.isDragging && d.selectedObject.Some?) ==> h == g
  {
    if d.isDragging && d.selectedObject.Some? then
      var o := d.selectedObject.value;
      g[o := g[o].(position := DragTargetAsWritten(ground, d.offset))]
    else g
  }

  /** Whenever the ray meets the ground, the drag move as written puts the
      object where the intended rule does. */
  lemma DragMoveFollowsIntended(g: Graph, d: DragState, ground: Vec3)
    requires d.selectedObject.Some? && d.selectedObject.value in g && d.isDragging
    ensures DragMove(g, d, Some(ground))[d.selectedObject.value].position
              == DragTarget(Some(ground), d.offset).value
  {
    DragAsWrittenAgreesOnHits(ground, d.offset);
  }

  /** `handleRotation`: the selected object turns by the pointer's horizontal
      travel and the pointer position is remembered; nothing happens when no
      rotation is under way. */
  function RotationMove(g: Graph, d: DragState, e: MouseEvent): (r: (Graph, DragState))
    requires d.selectedObject.Some? ==> d.selectedObject.value in g
    ensures SameShape(g, r.0) && r.1.selectedObject == d.selectedObject
  {
    if d.isRotating && d.selectedObject.Some? then
      var o := d.selectedObject.value;
      var n := g[o];
      (g[o := n.(rotation := n.rotation.(y := RotateStep(n.rotation.y, d.previousX, e.clientX)))],
       d.(previousX := e.clientX, previousY := e.clientY))
    else (g, d)
  }

  /** A run of rotation moves. */
  function RotationMoves(g: Graph, d: DragState, es: seq<MouseEvent>): (r: (Graph, DragState))
    requires d.selectedObject.Some? ==> d.selectedObject.value in g
    ensures SameShape(g, r.0) && r.1.selectedObject == d.selectedObject
    decreases |es|
  {
    if |es| == 0 then (g, d)
    else
      var r1 := RotationMove(g, d, es[0]);
      RotationMoves(r1.0, r1.1, es[1..])
  }

  function ClientXs(es: seq<MouseEvent>): (xs: seq<real>)
    ensures |xs| == |es| && forall i | 0 <= i < |es| :: xs[i] == es[i].clientX
  {
    if |es| == 0 then [] else [es[0].clientX] + ClientXs(es[1..])
  }

  /** A rotation gesture turns the selected object by RotateAll over the
      pointer's horizontal positions, and touches nothing else. */
  lemma {:induction false} RotationMovesTurn(g: Graph, d: DragState, es: seq<MouseEvent>)
    requires d.isRotating && d.selectedObject.Some? && d.selectedObject.value in g
    ensures var o := d.selectedObject.value;
            var r := RotationMoves(g, d, es);
            && r.0[o] == g[o].(rotation := g[o].rotation.(y := RotateAll(g[o].rotation.y, d.previousX, ClientXs(es))))
            && (forall x | x in g && x != o :: r.0[x] == g[x])
            && r.1 == (if |es| == 0 then d else d.(previousX := es[|es| - 1].clientX, previousY := es[|es| - 1].clientY))
    decreases |es|
  {
    if |es| > 0 {
      var r1 := RotationMove(g, d, es[0]);
      RotationMovesTurn(r1.0, r1.1, es[1..]);
      assert ClientXs(es) == [es[0].clientX] + ClientXs(es[1..]);
      if |es| > 1 {
        assert es[1..][|es[1..]| - 1] == es[|es| - 1];
      }
    }
  }

  // ---------------------------------------------------------------------------
  // Selection

  /** What a mouse-down on scene objects starts. */
  datatype Gesture = StartRotate(target: NodeId) | StartDrag(target: NodeId, point: Vec3) | NoGesture

  /** The split editor: the nearest movable-or-furniture ancestor must itself
      be movable; a rotation gesture on a node that cannot rotate does nothing. */
  ghost function SplitSelection(g: Graph, hits: seq<Hit>, isRotation: bool): (r: Gesture)
    requires WellFormed(g) && HitsIn(g, hits)
    ensures !r.NoGesture? ==> |hits| > 0 && r.target in g && g[r.target].userData.isMovable
    ensures r.StartRotate? ==> isRotation && g[r.target].userData.isRotatable
    ensures r.StartDrag? ==> r.point == hits[0].point && !isRotation
    ensures !r.NoGesture? ==> Nearest(g, hits[0].node, MovableOrFurniture) == Some(r.target)
    ensures r.NoGesture? <==>
              || |hits| == 0
              || var o := Nearest(g, hits[0].node, MovableOrFurniture);
                 o.None? || !g[o.value].userData.isMovable || (isRotation && !g[o.value].userData.isRotatable)
    ensures |hits| > 0 ==>
              var o := Nearest(g, hits[0].node, MovableOrFurniture);
              o.Some? && g[o.value].userData.isMovable ==>
                && (isRotation && g[o.value].userData.isRotatable ==> r == StartRotate(o.value))
                && (!isRotation ==> r == StartDrag(o.value, hits[0].point))
  {
    if |hits| == 0 then NoGesture
    else
      var o := Nearest(g, hits[0].node, MovableOrFurniture);
      if o.None? || !g[o.value].userData.isMovable then NoGesture
      else if isRotation && g[o.value].userData.isRotatable then StartRotate(o.value)
      else if !isRotation then StartDrag(o.value, hits[0].point)
      else NoGesture
  }

  /** The wired editor: the nearest movable ancestor; a rotation gesture on a
      node that cannot rotate drags it instead. */
  ghost function WiredSelection(g: Graph, hits: seq<Hit>, isRotation: bool): (r: Gesture)
    requires WellFormed(g) && HitsIn(g, hits)
    ensures !r.NoGesture? ==> |hits| > 0 && r.target in g && g[r.target].userData.isMovable
    ensures r.StartRotate? ==> isRotation && g[r.target].userData.isRotatable
    ensures r.StartDrag? ==> r.point == hits[0].point && !(isRotation && g[r.target].userData.isRotatable)
    ensures !r.NoGesture? ==> Nearest(g, hits[0].node, Movable) == Some(r.target)
    ensures r.NoGesture? <==> |hits| == 0 || Nearest(g, hits[0].node, Movable).None?
    ensures |hits| > 0 ==>
              var o := Nearest(g, hits[0].node, Movable);
              o.Some? && isRotation && g[o.value].userData.isRotatable ==> r == StartRotate(o.value)
  {
    if |hits| == 0 then NoGesture
    else
      var o := Nearest(g, hits[0].node, Movable);
      if o.None? then NoGesture
      else if isRotation && g[o.value].userData.isRotatable then StartRotate(o.value)
      else StartDrag(o.value, hits[0].point)
  }

  /** The two controllers disagree only on rotation gestures over nodes that
      cannot rotate and on furniture tagged without `isMovable`; for a plain
      drag over a movable object whose nearest tagged ancestor is movable
      they start the same drag. */
  lemma {:induction false} SelectionsAgreeOnDrags(g: Graph, hits: seq<Hit>)
    requires WellFormed(g) && HitsIn(g, hits) && |hits| > 0
    requires var o := Nearest(g, hits[0].node, MovableOrFurniture);
             o.Some? && g[o.value].userData.isMovable
    ensures SplitSelection(g, hits, false) == WiredSelection(g, hits, false)
    ensures SplitSelection(g, hits, false).StartDrag?
  {
    NearestWeaker(g, hits[0].node, Movable, MovableOrFurniture);
  }

  /** A rotation gesture on a movable object that cannot rotate: the wired
      editor drags it, the split editor leaves it alone. */
  lemma {:induction false} RotationOnFixedObject(g: Graph, hits: seq<Hit>)
    requires WellFormed(g) && HitsIn(g, hits) && |hits| > 0
    requires var o := Nearest(g, hits[0].node, MovableOrFurniture);
             o.Some? && g[o.value].userData.isMovable && !g[o.value].userData.isRotatable
    ensures WiredSelection(g, hits, true) == StartDrag(Nearest(g, hits[0].node, Movable).value, hits[0].point)
    ensures SplitSelection(g, hits, true) == NoGesture
  {
    NearestWeaker(g, hits[0].node, Movable, MovableOrFurniture);
  }
}
