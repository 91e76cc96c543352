/** The split editor of `managers/`: the canvas controller (UIManager), the
    drag, rotation and booking controller (DragManager) and the save/restore
    controller (FileManager). The three hold references to one another and
    share the scene, the wall manager and the orbit controls. */
module Editor {
  import opened SceneGraph
  import opened WallPlacement
  import opened PointerRules
  import opened SceneRecords

  // ---------------------------------------------------------------------------
  // Booking

  /** A mesh with a material: what `bookObject` paints. */
  predicate Paintable(n: Node) {
    n.isMesh && |n.materials| > 0
  }

  /** The nodes `xs` visited in order, each paintable one painted red. */
  function PaintAll(g: Graph, xs: seq<NodeId>): (h: Graph)
    requires forall x | x in xs :: x in g
    ensures h.Keys == g.Keys
    decreases |xs|
  {
    if |xs| == 0 then g
    else
      var h := PaintAll(g, xs[..|xs| - 1]);
      var x := xs[|xs| - 1];
      if Paintable(h[x]) then h[x := h[x].(color := Red)] else h
  }

  /** One more step of the painting traversal. */
  lemma PaintAllStep(g: Graph, xs: seq<NodeId>, i: nat)
    requires i < |xs| && forall x | x in xs :: x in g
    ensures var h := PaintAll(g, xs[..i]);
            PaintAll(g, xs[..i + 1]) == if Paintable(h[xs[i]]) then h[xs[i] := h[xs[i]].(color := Red)] else h
  {
    assert xs[..i + 1][..i] == xs[..i];
  }

  /** Painting turns exactly the paintable nodes of `xs` red and changes
      nothing else. */
  lemma {:induction false} PaintAllPaints(g: Graph, xs: seq<NodeId>)
    requires forall x | x in xs :: x in g
    ensures forall y | y in g ::
              PaintAll(g, xs)[y] == (if y in xs && Paintable(g[y]) then g[y].(color := Red) else g[y])
    decreases |xs|
  {
    if |xs| > 0 {
      var n := |xs| - 1;
      PaintAllPaints(g, xs[..n]);
      forall y | y in g
        ensures PaintAll(g, xs)[y] == (if y in xs && Paintable(g[y]) then g[y].(color := Red) else g[y])
      {
        InPrefixOrLast(xs, y);
      }
    }
  }

  /** The userData of a booked object. */
  function BookedTags(u: UserData, now: string): (v: UserData)
    ensures v.isBooked && v.bookingTime == Some(now)
    ensures v.(isBooked := u.isBooked, bookingTime := u.bookingTime) == u
  {
    u.(isBooked := true, bookingTime := Some(now))
  }

  /** `bookObject(o)`: o is marked booked at `now`, then its subtree is
      traversed and every paintable node of it painted red. */
  function Booked(g: Graph, o: NodeId, now: string): (h: Graph)
    requires WellFormed(g) && o in g
    ensures h.Keys == g.Keys
  {
    PaintAll(g[o := g[o].(userData := BookedTags(g[o].userData, now))], Preorder(g, o))
  }

  /** A booking changes the booked object's tags and paints red the
      paintable nodes of its subtree (itself included); nothing else
      changes. */
  lemma BookedSpec(g: Graph, o: NodeId, now: string)
    requires WellFormed(g) && o in g
    ensures var h := Booked(g, o, now);
            forall y | y in g ::
              h[y] == (if y == o then g[y].(userData := BookedTags(g[y].userData, now)) else g[y])
                        .(color := if o in Chain(g, y) && Paintable(g[y]) then Red else g[y].color)
  {
    var b := g[o := g[o].(userData := BookedTags(g[o].userData, now))];
    PaintAllPaints(b, Preorder(g, o));
    forall y | y in g
      ensures y in Preorder(g, o) <==> o in Chain(g, y)
    {
      PreorderIsSubtree(g, o, y);
    }
  }

  /** The part of `BookedSpec` that does not depend on the subtree: only
      tags and colours change. */
  lemma BookedFrame(g: Graph, o: NodeId, now: string)
    requires WellFormed(g) && o in g
    ensures var h := Booked(g, o, now);
            && SameShape(g, h)
            && forall y | y in g ::
                 && h[y] == g[y].(userData := h[y].userData, color := h[y].color)
                 && h[y].userData == (if y == o then BookedTags(g[y].userData, now) else g[y].userData)
                 && (!Paintable(g[y]) ==> h[y].color == g[y].color)
  {
    var h := Booked(g, o, now);
    var b := g[o := g[o].(userData := BookedTags(g[o].userData, now))];
    PaintAllPaints(b, Preorder(g, o));
    forall y | y in g
      ensures && h[y] == g[y].(userData := h[y].userData, color := h[y].color)
              && h[y].userData == (if y == o then BookedTags(g[y].userData, now) else g[y].userData)
              && (!Paintable(g[y]) ==> h[y].color == g[y].color)
    {
      assert Paintable(b[y]) == Paintable(g[y]);
      assert h[y] == if y in Preorder(g, o) && Paintable(b[y]) then b[y].(color := Red) else b[y];
    }
    assert SameShape(g, h) by {
      forall y | y in g ensures SameLinks(g[y], h[y]) {
        assert h[y] == g[y].(userData := h[y].userData, color := h[y].color);
      }
    }
  }

  /** The traversal of a node other than the root never reaches the root. */
  lemma SubtreeAvoidsRoot(s: SceneState, root: NodeId, o: NodeId)
    requires ValidState(s, root) && o in s.nodes && o != root
    ensures forall x | x in Preorder(s.nodes, o) :: x != root
  {
    forall x | x in Preorder(s.nodes, o) ensures x != root {
      PreorderOnlyDescendants(s.nodes, o, x);
    }
  }

  /** `handleBooking`: the nearest chair or furniture above the first hit is
      booked unless it already is; anything else changes nothing. Untagged
      groups (the scene root) are never touched. */
  ghost function BookingStep(g: Graph, hits: seq<Hit>, now: string): (h: Graph)
    requires WellFormed(g) && HitsIn(g, hits)
    ensures h.Keys == g.Keys
    ensures |hits| == 0 ==> h == g
  {
    if |hits| == 0 then g
    else
      var o := Nearest(g, hits[0].node, Bookable);
      if o.None? || g[o.value].userData.isBooked then g
      else Booked(g, o.value, now)
  }

  /** A booking click keeps the scene's shape and never touches a group
      that is neither chair nor furniture (the scene root among them). */
  lemma BookingStepFrame(g: Graph, hits: seq<Hit>, now: string)
    requires WellFormed(g) && HitsIn(g, hits)
    ensures var h := BookingStep(g, hits, now);
            && SameShape(g, h)
            && forall y | y in g && !g[y].isMesh && !Has(g[y].userData, Bookable) :: h[y] == g[y]
  {
    if |hits| > 0 {
      var o := Nearest(g, hits[0].node, Bookable);
      if o.Some? && !g[o.value].userData.isBooked {
        var h := Booked(g, o.value, now);
        BookedFrame(g, o.value, now);
        forall y | y in g && !g[y].isMesh && !Has(g[y].userData, Bookable)
          ensures h[y] == g[y]
        {
          assert y != o.value && !Paintable(g[y]);
          assert h[y] == g[y].(userData := h[y].userData, color := h[y].color);
        }
      }
    }
  }

  /** A second booking click on the same place changes nothing: the first
      booking time is kept. */
  lemma BookingIdempotent(g: Graph, hits: seq<Hit>, now1: string, now2: string)
    requires WellFormed(g) && HitsIn(g, hits)
    ensures var h := BookingStep(g, hits, now1);
            WellFormed(h) && HitsIn(h, hits) && BookingStep(h, hits, now2) == h
  {
    var h := BookingStep(g, hits, now1);
    if |hits| > 0 {
      var o := Nearest(g, hits[0].node, Bookable);
      if o.Some? && !g[o.value].userData.isBooked {
        assert h == Booked(g, o.value, now1);
        BookedStaysNearest(g, o.value, now1, hits[0].node);
        assert HitsIn(h, hits);
        assert Nearest(h, hits[0].node, Bookable) == o && h[o.value].userData.isBooked;
      } else {
        assert h == g;
      }
    }
  }

  /** After a booking, the booked object is still the nearest bookable
      ancestor of the same node, and it is booked. */
  lemma BookedStaysNearest(g: Graph, o: NodeId, now: string, x: NodeId)
    requires WellFormed(g) && x in g && Nearest(g, x, Bookable) == Some(o)
    ensures var h := Booked(g, o, now);
            && SameShape(g, h) && WellFormed(h)
            && Nearest(h, x, Bookable) == Some(o) && h[o].userData.isBooked
  {
    var h := Booked(g, o, now);
    BookedFrame(g, o, now);
    forall y | y in g
      ensures Has(g[y].userData, Bookable) == Has(h[y].userData, Bookable)
    {
      var u := g[y].userData;
      assert h[y].userData == if y == o then BookedTags(u, now) else u;
      var v := h[y].userData;
      assert v.isChair == u.isChair && v.isFurniture == u.isFurniture;
      assert Has(u, Bookable) == (u.isChair || u.isFurniture);
      assert Has(v, Bookable) == (v.isChair || v.isFurniture);
    }
    SameShapeNearest(g, h, x, Bookable);
  }

  /** A booking click keeps the scene valid. */
  lemma BookingKeepsValid(w: World, root: NodeId, hits: seq<Hit>, now: string)
    requires ValidWorld(w, root) && HitsIn(w.scene.nodes, hits)
    ensures ValidWorld(w.(scene := w.scene.(nodes := BookingStep(w.scene.nodes, hits, now))), root)
  {
    BookingStepFrame(w.scene.nodes, hits, now);
    SameShapeWellFormed(w.scene.nodes, BookingStep(w.scene.nodes, hits, now));
  }

  // ---------------------------------------------------------------------------
  // Removal

  /** Hit j is the first from hit i on with a removable ancestor, `r`. */
  ghost predicate FirstRemovable(g: Graph, hits: seq<Hit>, i: nat, j: nat, r: Option<NodeId>)
    requires WellFormed(g) && HitsIn(g, hits) && i <= j < |hits|
    ensures FirstRemovable(g, hits, i, j, r) ==> r.Some? ==> r.value in g && Has(g[r.value].userData, MovableOrWall)
    ensures FirstRemovable(g, hits, i, i, r) <==> r == Nearest(g, hits[i].node, MovableOrWall)
  {
    && r == Nearest(g, hits[j].node, MovableOrWall)
    && forall k | i <= k < j :: Nearest(g, hits[k].node, MovableOrWall).None?
  }

  /** The split editor's removal scan from hit i on: the removable ancestor
      of the first hit that has one. */
  ghost function RemovalFrom(g: Graph, hits: seq<Hit>, i: nat): (r: Option<NodeId>)
    requires WellFormed(g) && HitsIn(g, hits) && i <= |hits|
    ensures r.Some? ==> r.value in g && Has(g[r.value].userData, MovableOrWall)
    decreases |hits| - i
  {
    if i == |hits| then None
    else
      var o := Nearest(g, hits[i].node, MovableOrWall);
      if o.Some? then o else RemovalFrom(g, hits, i + 1)
  }

  /** The scan finds nothing exactly when no hit from i on has a removable
      ancestor, and what it finds belongs to the first hit that has one. */
  lemma {:induction false} RemovalFromSpec(g: Graph, hits: seq<Hit>, i: nat)
    requires WellFormed(g) && HitsIn(g, hits) && i <= |hits|
    ensures RemovalFrom(g, hits, i).None? <==>
              forall j | i <= j < |hits| :: Nearest(g, hits[j].node, MovableOrWall).None?
    ensures RemovalFrom(g, hits, i).Some? ==>
              exists j | i <= j < |hits| :: FirstRemovable(g, hits, i, j, RemovalFrom(g, hits, i))
    decreases |hits| - i
  {
    if i < |hits| {
      var o := Nearest(g, hits[i].node, MovableOrWall);
      if o.Some? {
        assert FirstRemovable(g, hits, i, i, o);
      } else {
        RemovalFromSpec(g, hits, i + 1);
        var r := RemovalFrom(g, hits, i + 1);
        if r.Some? {
          var j :| i + 1 <= j < |hits| && FirstRemovable(g, hits, i + 1, j, r);
          assert FirstRemovable(g, hits, i, j, r);
        }
      }
    }
  }

  /** Appending an element not yet in a list keeps it free of duplicates. */
  lemma AppendFreshNoDup<T>(s: seq<T>, x: T)
    requires NoDup(s) && x !in s
    ensures NoDup(s + [x])
  {
  }

  /** `filter` keeps a list free of duplicates. */
  lemma {:induction false} FilterOutNoDup<T>(s: seq<T>, x: T)
    requires NoDup(s)
    ensures NoDup(FilterOut(s, x))
    decreases |s|
  {
    if |s| > 0 {
      assert NoDup(s[1..]) by {
        forall i, j | 0 <= i < j < |s[1..]| ensures s[1..][i] != s[1..][j] {
          assert s[1..][i] == s[i + 1] && s[1..][j] == s[j + 1];
        }
      }
      FilterOutNoDup(s[1..], x);
      if s[0] != x {
        var r := FilterOut(s[1..], x);
        assert s[0] !in s[1..] by {
          forall j | 0 <= j < |s[1..]| ensures s[1..][j] != s[0] {
            assert s[1..][j] == s[j + 1];
          }
        }
        var t := [s[0]] + r;
        assert FilterOut(s, x) == t;
        forall i, j | 0 <= i < j < |t| ensures t[i] != t[j] {
          assert t[j] == r[j - 1] && t[j] in r;
          if i > 0 {
            assert t[i] == r[i - 1];
          }
        }
      }
    }
  }

  /** `handleRemoveObject` on the scene and the wall list: the first
      removable object found along the hits is taken out of the scene (when
      it hangs directly under it) and disposed, and out of `walls` when it is
      a wall. */
  ghost function RemoveW(w: World, root: NodeId, hits: seq<Hit>): (v: World)
    requires ValidWorld(w, root) && HitsIn(w.scene.nodes, hits)
    ensures RemovalFrom(w.scene.nodes, hits, 0).None? ==> v == w
    ensures |v.walls| <= |w.walls|
  {
    match RemovalFrom(w.scene.nodes, hits, 0)
    case None => w
    case Some(o) =>
      var walls: seq<NodeId> := if w.scene.nodes[o].userData.isWall then FilterOut<NodeId>(w.walls, o) else w.walls;
      World(RemoveS(w.scene, root, o), walls)
  }

  /** A removal click keeps the scene valid and its ids; with nothing
      removable under the pointer it changes nothing. */
  lemma RemoveWKeepsValid(w: World, root: NodeId, hits: seq<Hit>)
    requires ValidWorld(w, root) && HitsIn(w.scene.nodes, hits)
    ensures var v := RemoveW(w, root, hits);
            && ValidWorld(v, root)
            && v.scene.nodes.Keys == w.scene.nodes.Keys && v.scene.nextId == w.scene.nextId
            && (RemovalFrom(w.scene.nodes, hits, 0).None? ==> v == w)
  {
    var r := RemovalFrom(w.scene.nodes, hits, 0);
    if r.Some? {
      FilterOutNoDup<NodeId>(w.walls, r.value);
    }
  }

  /** What a removal click does: the removed object releases its resources
      and is detached when it hung under the root, and no other node changes
      parent; a wall leaves the wall list, and no other entry does. */
  lemma RemoveWEffect(w: World, root: NodeId, hits: seq<Hit>)
    requires ValidWorld(w, root) && HitsIn(w.scene.nodes, hits)
    requires RemovalFrom(w.scene.nodes, hits, 0).Some?
    ensures var o := RemovalFrom(w.scene.nodes, hits, 0).value;
            var g := w.scene.nodes;
            var v := RemoveW(w, root, hits);
            && o != root
            && (g[o].userData.isWall ==> o !in v.walls)
            && (forall x | x in w.walls && x != o :: x in v.walls)
            && (forall x | x in v.walls :: x in w.walls)
            && v.scene.disposed == w.scene.disposed + multiset(OwnResources(g[o]))
            && v.scene.nodes[o].parent == (if g[o].parent == Some(root) then None else g[o].parent)
            && (forall y | y in g && y != o :: v.scene.nodes[y].parent == g[y].parent)
  {
    var g := w.scene.nodes;
    var o := RemovalFrom(g, hits, 0).value;
    assert o != root by {
      assert Has(g[o].userData, MovableOrWall) && g[root].userData == NoTags;
    }
    var walls: seq<NodeId> := if g[o].userData.isWall then FilterOut<NodeId>(w.walls, o) else w.walls;
    assert RemoveW(w, root, hits) == World(RemoveS(w.scene, root, o), walls);
  }

  // ---------------------------------------------------------------------------
  // Clicks and moves

  /** `WallManager.handleMouseDown` on the scene and the wall list: a left
      click with wall mode on, a shown preview and the floor under the
      pointer commits a wall where the preview is. */
  function WallClickW(w: World, root: NodeId, preview: NodeId, on: bool, button: int, floorHit: bool): (v: World)
    requires Issued(w.scene) && root in w.scene.nodes && preview in w.scene.nodes
    ensures (v.walls == w.walls + [w.scene.nextId]) <==> (button == 0 && on && w.scene.nodes[preview].visible && floorHit)
    ensures !(button == 0 && on && w.scene.nodes[preview].visible && floorHit) ==> v == w
  {
    var p := w.scene.nodes[preview];
    if button == 0 && on && p.visible && floorHit then
      var s := CreateS(w.scene, root, Some(root), WallNode(w.scene.nextId, p.position.x, p.position.z, p.rotation));
      World(s, w.walls + [w.scene.nextId])
    else w
  }

  /** A wall click keeps the scene valid; it either changes nothing or adds
      one new wall node, under the root, at the end of the wall list. */
  lemma WallClickKeepsValid(w: World, root: NodeId, preview: NodeId, on: bool, button: int, floorHit: bool)
    requires ValidWorld(w, root) && preview in w.scene.nodes
    ensures var v := WallClickW(w, root, preview, on, button, floorHit);
            && ValidWorld(v, root)
            && v.scene.nodes.Keys >= w.scene.nodes.Keys
            && (v == w || (&& v.walls == w.walls + [w.scene.nextId]
                           && w.scene.nextId in v.scene.nodes
                           && v.scene.nodes[w.scene.nextId].userData.isWall
                           && v.scene.nodes[w.scene.nextId].parent == Some(root)))
  {
    var id := w.scene.nextId;
    assert id !in w.walls;
    assert NoDup(w.walls + [id]);
  }

  /** What a click hands back: the scene with its wall list, the drag state
      and whether the orbit controls are on. */
  datatype Outcome = Outcome(world: World, drag: DragState, controlsEnabled: bool)

  /** `handleObjectSelection` with the split rule: a drag pins the object to
      the drag height and remembers its offset from the hit point; a rotation
      remembers the pointer; either switches the orbit controls off. */
  ghost function Select(w: World, root: NodeId, d: DragState, enabled: bool, e: MouseEvent,
                        hits: seq<Hit>, isRotation: bool): (r: Outcome)
    requires ValidWorld(w, root) && HitsIn(w.scene.nodes, hits)
    ensures r.world.walls == w.walls
    ensures SplitSelection(w.scene.nodes, hits, isRotation).NoGesture? ==> r == Outcome(w, d, enabled)
    ensures !SplitSelection(w.scene.nodes, hits, isRotation).NoGesture? ==>
              && !r.controlsEnabled
              && r.drag.selectedObject == Some(SplitSelection(w.scene.nodes, hits, isRotation).target)
  {
    var g := w.scene.nodes;
    match SplitSelection(g, hits, isRotation)
    case NoGesture => Outcome(w, d, enabled)
    case StartRotate(o) =>
      Outcome(w, d.(isRotating := true, selectedObject := Some(o), previousX := e.clientX, previousY := e.clientY), false)
    case StartDrag(o, p) =>
      assert o != root;
      var s := PutS(w.scene, root, o, g[o].(position := Pinned(g[o].position)));
      Outcome(w.(scene := s),
              d.(isDragging := true, selectedObject := Some(o), offset := StartOffset(g[o].position, p)), false)
  }

  /** A selection keeps the scene valid and its shape; it selects a movable
      object other than the root and switches the orbit controls off, or
      changes nothing. */
  lemma SelectSpec(w: World, root: NodeId, d: DragState, enabled: bool, e: MouseEvent,
                   hits: seq<Hit>, isRotation: bool)
    requires ValidWorld(w, root) && HitsIn(w.scene.nodes, hits)
    ensures var r := Select(w, root, d, enabled, e, hits, isRotation);
            && ValidWorld(r.world, root) && r.world.walls == w.walls
            && SameShape(w.scene.nodes, r.world.scene.nodes)
            && (SplitSelection(w.scene.nodes, hits, isRotation).NoGesture? ==> r == Outcome(w, d, enabled))
            && (!SplitSelection(w.scene.nodes, hits, isRotation).NoGesture? ==>
                  && !r.controlsEnabled && r.drag.selectedObject.Some?
                  && r.drag.selectedObject.value != root
                  && r.drag.selectedObject.value in r.world.scene.nodes
                  && r.world.scene.nodes[r.drag.selectedObject.value].userData.isMovable)
  {
    var g := w.scene.nodes;
    var r := Select(w, root, d, enabled, e, hits, isRotation);
    match SplitSelection(g, hits, isRotation)
    case NoGesture =>
    case StartRotate(o) =>
    case StartDrag(o, p) =>
      SameShapeWellFormed(g, r.world.scene.nodes);
  }

  /** A drag started by a click follows the pointer over the ground by the
      click's offset, and a first move over the clicked point leaves the
      object where the click pinned it. */
  lemma DragFollowsPointer(w: World, root: NodeId, d: DragState, enabled: bool, e: MouseEvent,
                           hits: seq<Hit>, ground: Vec3)
    requires ValidWorld(w, root) && HitsIn(w.scene.nodes, hits)
    requires SplitSelection(w.scene.nodes, hits, false).StartDrag?
    ensures var o := SplitSelection(w.scene.nodes, hits, false).target;
            var r := Select(w, root, d, enabled, e, hits, false);
            var pos := w.scene.nodes[o].position;
            var h := DragMove(r.world.scene.nodes, r.drag, Some(ground));
            && h[o].position == Pinned(ground.Plus(pos.Minus(hits[0].point)))
            && (ground == hits[0].point ==> h[o].position == Pinned(pos))
  {
    var o := SplitSelection(w.scene.nodes, hits, false).target;
    DragStartsInPlace(w.scene.nodes[o].position, hits[0].point);
  }

  /** A rotation started by a click turns the object by the pointer's
      horizontal travel from the click on. */
  lemma RotationFollowsPointer(w: World, root: NodeId, d: DragState, enabled: bool, e: MouseEvent,
                               hits: seq<Hit>, es: seq<MouseEvent>)
    requires ValidWorld(w, root) && HitsIn(w.scene.nodes, hits)
    requires SplitSelection(w.scene.nodes, hits, true).StartRotate?
    ensures var o := SplitSelection(w.scene.nodes, hits, true).target;
            var r := Select(w, root, d, enabled, e, hits, true);
            var g := w.scene.nodes;
            RotationMoves(r.world.scene.nodes, r.drag, es).0[o].rotation.y
              == RotateAll(g[o].rotation.y, e.clientX, ClientXs(es))
  {
    var r := Select(w, root, d, enabled, e, hits, true);
    RotationMovesTurn(r.world.scene.nodes, r.drag, es);
  }

  /** The editing dispatch of a mouse-down: remove mode, then wall mode, then
      object selection. */
  ghost function EditClick(w: World, root: NodeId, preview: NodeId, d: DragState, enabled: bool,
                           removeMode: bool, wallMode: bool, e: MouseEvent, hits: seq<Hit>,
                           floorHit: bool): (r: Outcome)
    requires ValidWorld(w, root) && HitsIn(w.scene.nodes, hits) && preview in w.scene.nodes
    ensures removeMode || wallMode ==> r.drag == d && r.controlsEnabled == enabled
    ensures !removeMode ==> r.world.scene.disposed == w.scene.disposed
  {
    if removeMode then Outcome(RemoveW(w, root, hits), d, enabled)
    else if wallMode then Outcome(WallClickW(w, root, preview, true, e.button, floorHit), d, enabled)
    else Select(w, root, d, enabled, e, hits, IsRotationGesture(e))
  }

  /** `DragManager.handleMouseDown`: in view mode only a booking is tried. */
  ghost function DragManagerClick(w: World, root: NodeId, preview: NodeId, d: DragState, enabled: bool,
                                  viewOnly: bool, removeMode: bool, wallMode: bool, e: MouseEvent,
                                  hits: seq<Hit>, floorHit: bool, now: string): (r: Outcome)
    requires ValidWorld(w, root) && HitsIn(w.scene.nodes, hits) && preview in w.scene.nodes
    ensures viewOnly ==> r.drag == d && r.controlsEnabled == enabled && r.world.walls == w.walls
    ensures viewOnly ==> r.world.scene.nodes.Keys == w.scene.nodes.Keys
  {
    if viewOnly then
      Outcome(w.(scene := w.scene.(nodes := BookingStep(w.scene.nodes, hits, now))), d, enabled)
    else EditClick(w, root, preview, d, enabled, removeMode, wallMode, e, hits, floorHit)
  }

  /** The canvas `mousedown` listener: remove mode, then wall mode, then the
      drag manager. */
  ghost function CanvasClick(w: World, root: NodeId, preview: NodeId, d: DragState, enabled: bool,
                             viewOnly: bool, removeMode: bool, wallMode: bool, e: MouseEvent,
                             hits: seq<Hit>, floorHit: bool, now: string): (r: Outcome)
    requires ValidWorld(w, root) && HitsIn(w.scene.nodes, hits) && preview in w.scene.nodes
    ensures removeMode || wallMode ==> r.drag == d && r.controlsEnabled == enabled
    ensures viewOnly && !removeMode && !wallMode ==> r.world.walls == w.walls && r.drag == d
  {
    if removeMode || wallMode then EditClick(w, root, preview, d, enabled, removeMode, wallMode, e, hits, floorHit)
    else DragManagerClick(w, root, preview, d, enabled, viewOnly, removeMode, wallMode, e, hits, floorHit, now)
  }

  /** Every editing click keeps the scene valid and never forgets a node. */
  lemma EditClickKeepsValid(w: World, root: NodeId, preview: NodeId, d: DragState, enabled: bool,
                            removeMode: bool, wallMode: bool, e: MouseEvent, hits: seq<Hit>, floorHit: bool)
    requires ValidWorld(w, root) && HitsIn(w.scene.nodes, hits) && preview in w.scene.nodes
    ensures var r := EditClick(w, root, preview, d, enabled, removeMode, wallMode, e, hits, floorHit);
            ValidWorld(r.world, root) && r.world.scene.nodes.Keys >= w.scene.nodes.Keys
  {
    if removeMode {
      RemoveWKeepsValid(w, root, hits);
    } else if wallMode {
      WallClickKeepsValid(w, root, preview, true, e.button, floorHit);
    } else {
      SelectSpec(w, root, d, enabled, e, hits, IsRotationGesture(e));
    }
  }

  /** Every mouse-down keeps the scene valid and never forgets a node; a
      view-mode click that reaches the drag manager only books. */
  lemma ClicksKeepValid(w: World, root: NodeId, preview: NodeId, d: DragState, enabled: bool,
                        viewOnly: bool, removeMode: bool, wallMode: bool, e: MouseEvent,
                        hits: seq<Hit>, floorHit: bool, now: string)
    requires ValidWorld(w, root) && HitsIn(w.scene.nodes, hits) && preview in w.scene.nodes
    ensures var r := DragManagerClick(w, root, preview, d, enabled, viewOnly, removeMode, wallMode, e, hits, floorHit, now);
            && ValidWorld(r.world, root) && r.world.scene.nodes.Keys >= w.scene.nodes.Keys
            && (viewOnly ==> r.drag == d && r.controlsEnabled == enabled && r.world.walls == w.walls)
    ensures var r := CanvasClick(w, root, preview, d, enabled, viewOnly, removeMode, wallMode, e, hits, floorHit, now);
            ValidWorld(r.world, root) && r.world.scene.nodes.Keys >= w.scene.nodes.Keys
  {
    EditClickKeepsValid(w, root, preview, d, enabled, removeMode, wallMode, e, hits, floorHit);
    if viewOnly {
      BookingKeepsValid(w, root, hits, now);
      BookingStepFrame(w.scene.nodes, hits, now);
    }
  }

  /** The canvas listener tests remove and wall mode before the drag
      manager's view-mode guard: in view mode with remove mode on, a click
      removes an object where the drag manager alone would only book. */
  lemma ViewModeRemovalGetsThrough(w: World, root: NodeId, preview: NodeId, d: DragState, enabled: bool,
                                   viewOnly: bool, removeMode: bool, wallMode: bool, e: MouseEvent, hits: seq<Hit>, floorHit: bool, now: string)
    requires ValidWorld(w, root) && HitsIn(w.scene.nodes, hits) && preview in w.scene.nodes
    ensures CanvasClick(w, root, preview, d, enabled, true, true, wallMode, e, hits, floorHit, now).world
              == RemoveW(w, root, hits)
    ensures !viewOnly ==> CanvasClick(w, root, preview, d, enabled, viewOnly, removeMode, wallMode, e, hits, floorHit, now)
                          == EditClick(w, root, preview, d, enabled, removeMode, wallMode, e, hits, floorHit)
    ensures DragManagerClick(w, root, preview, d, enabled, true, true, wallMode, e, hits, floorHit, now).world
              == w.(scene := w.scene.(nodes := BookingStep(w.scene.nodes, hits, now)))
  {
  }

  /** A pointer move: in wall mode a floor hit moves the preview; otherwise a
      drag under way moves the selected object and a rotation under way
      turns it. */
  function PointerMove(g: Graph, walls: seq<NodeId>, preview: NodeId, wallMode: bool, direction: Direction,
                       grid: real, d: DragState, e: MouseEvent, floorPoint: Option<Vec3>,
                       ground: Option<Vec3>): (r: (Graph, DragState))
    requires grid > 0.0 && preview in g && (forall x | x in walls :: x in g)
    requires d.selectedObject.Some? ==> d.selectedObject.value in g
    ensures r.0.Keys == g.Keys && r.1.selectedObject == d.selectedObject
    ensures !wallMode && !d.isDragging && !d.isRotating ==> r == (g, d)
  {
    if wallMode then
      (if floorPoint.Some? then PreviewUpdate(g, walls, preview, true, direction, grid, floorPoint.value) else g, d)
    else if d.isDragging then (DragMove(g, d, ground), d)
    else if d.isRotating then RotationMove(g, d, e)
    else (g, d)
  }

  /** A pointer move keeps the scene's shape and the selection; in wall mode
      only the preview changes, otherwise only the selected object. */
  lemma PointerMoveFrame(g: Graph, walls: seq<NodeId>, preview: NodeId, wallMode: bool, direction: Direction,
                         grid: real, d: DragState, e: MouseEvent, floorPoint: Option<Vec3>, ground: Option<Vec3>)
    requires grid > 0.0 && preview in g && (forall x | x in walls :: x in g)
    requires d.selectedObject.Some? ==> d.selectedObject.value in g
    ensures var r := PointerMove(g, walls, preview, wallMode, direction, grid, d, e, floorPoint, ground);
            && SameShape(g, r.0) && r.1.selectedObject == d.selectedObject
            && (wallMode ==> r.1 == d && forall x | x in g && x != preview :: r.0[x] == g[x])
            && (!wallMode ==> forall x | x in g && Some(x) != d.selectedObject :: r.0[x] == g[x])
  {
  }

  // ---------------------------------------------------------------------------
  // Start-up

  /** The scene id the constructor loads at start-up: a non-empty `scene`
      parameter, and only in view mode. */
  function AutoLoadTarget(mode: Option<string>, sceneParam: Option<string>): (r: Option<string>)
    ensures r.Some? <==> mode == Some("view") && sceneParam.Some? && sceneParam.value != ""
    ensures r.Some? ==> r == sceneParam
  {
    if sceneParam.Some? && sceneParam.value != "" && mode == Some("view") then sceneParam else None
  }

  // ---------------------------------------------------------------------------
  // The controllers

  /** The scene a wall manager draws in, together with its list of walls:
      the world both controllers edit. */
  ghost function WorldOf(wm: WallManager): (w: World)
    reads wm, wm.scene
    requires wm.Valid()
    ensures ValidWorld(w, wm.scene.root) && w.scene == wm.scene.State() && w.walls == wm.walls
  {
    World(wm.scene.State(), wm.walls)
  }

  class UIManager {
    const scene: Scene
    const floor: NodeId
    const gridSize: real
    const controls: OrbitControls
    const isViewOnly: bool
    const wallManager: WallManager
    /** The scene whose load the constructor starts without awaiting it. */
    const startupScene: Option<string>
    var isRemoveMode: bool
    var dragManager: DragManager?
    var fileManager: FileManager?

    ghost predicate Valid()
      reads this, scene, wallManager, dragManager
    {
      && wallManager.scene == scene && wallManager.Valid()
      && wallManager.floor == floor && wallManager.gridSize == gridSize
      && dragManager != null && dragManager.ui == this
      && fileManager != null && fileManager.ui == this
      && (dragManager.selectedObject.Some? ==>
            dragManager.selectedObject.value in scene.nodes && dragManager.selectedObject.value != scene.root)
    }

    /** Reads the view flag from the `mode` URL parameter, creates the wall
      manager (and its preview) and the other controllers, and with a scene
      id in view mode starts loading that scene. */
    constructor (scene: Scene, floor: NodeId, gridSize: real, controls: OrbitControls,
                 mode: Option<string>, sceneParam: Option<string>)
      requires scene.Valid() && floor in scene.nodes && gridSize > 0.0
      modifies scene
      ensures Valid() && this.scene == scene && this.floor == floor && this.gridSize == gridSize
      ensures this.controls == controls && fresh(wallManager)
      ensures isViewOnly <==> mode == Some("view")
      ensures startupScene == AutoLoadTarget(mode, sceneParam)
      ensures !isRemoveMode && !wallManager.isAddWallMode && wallManager.direction == Horizontal
      ensures dragManager.State() == Idle
      ensures wallManager.walls == [] && wallManager.previewWall == old(scene.nextId)
      ensures scene.nodes.Keys == old(scene.nodes.Keys) + {wallManager.previewWall}
      ensures scene.nodes[wallManager.previewWall]
              == NewMesh(wallManager.previewWall).(visible := false, parent := Some(scene.root))
    {
      this.scene := scene;
      this.floor := floor;
      this.gridSize := gridSize;
      this.controls := controls;
      isRemoveMode := false;
      isViewOnly := mode == Some("view");
      wallManager := new WallManager(scene, floor, gridSize);
      startupScene := AutoLoadTarget(mode, sceneParam);
      new;
      dragManager := new DragManager(this);
      fileManager := new FileManager(this);
    }

    /** The start-up load once the server's `response` and the model `loads`
      have arrived: a view-only `loadScene` when the constructor started one,
      nothing otherwise. */
    method FinishStartupLoad(response: Option<SceneData>, loads: seq<AssetLoad>)
      requires Valid()
      requires response.Some? ==> |loads| == |response.value.objects|
      modifies scene, wallManager
      ensures Valid()
      ensures wallManager.isAddWallMode == old(wallManager.isAddWallMode)
      ensures wallManager.direction == old(wallManager.direction)
      ensures WorldOf(wallManager) == if startupScene.Some?
                                then LoadSceneW(old(WorldOf(wallManager)), scene.root, floor, response, loads, true)
                                else old(WorldOf(wallManager))
    {
      if startupScene.Some? {
        fileManager.LoadScene(response, loads, true);
      }
    }

    /** `findRemovableParent`: the nearest movable or wall ancestor-or-self. */
    method FindRemovableParent(obj: NodeId) returns (r: Option<NodeId>)
      requires Valid() && obj in scene.nodes
      ensures r == Nearest(scene.nodes, obj, MovableOrWall)
      ensures r != Some(scene.root)
    {
      NearestNotRoot(scene.State(), scene.root, obj, MovableOrWall);
      r := ClimbWhileCurrent(scene.nodes, obj, MovableOrWall);
    }

    /** `handleRemoveObject`: the hits are scanned in order and the first
      removable ancestor found is removed: spliced out of the wall list when
      it is a wall, taken out of the scene when it hangs directly under it,
      and its own geometry and materials disposed. Then the scan stops. */
    method HandleRemoveObject(hits: seq<Hit>)
      requires Valid() && HitsIn(scene.nodes, hits)
      modifies scene, wallManager
      ensures Valid()
      ensures wallManager.isAddWallMode == old(wallManager.isAddWallMode)
      ensures wallManager.direction == old(wallManager.direction)
      ensures WorldOf(wallManager) == RemoveW(old(WorldOf(wallManager)), scene.root, hits)
    {
      ghost var w := WorldOf(wallManager);
      ghost var g := scene.nodes;
      var i := 0;
      var found: Option<NodeId> := None;
      while i < |hits| && found.None?
        invariant 0 <= i <= |hits|
        invariant found.None? ==> RemovalFrom(g, hits, i) == RemovalFrom(g, hits, 0)
        invariant found.Some? ==> found == RemovalFrom(g, hits, 0)
        modifies {}
      {
        found := FindRemovableParent(hits[i].node);
        i := i + 1;
      }
      if found.Some? {
        RemoveFound(found.value);
      }
    }

    /** The removal itself, once the scan found `o`: a wall is spliced out of
      the wall list, then `o` leaves the scene and its resources are
      disposed. */
    method RemoveFound(o: NodeId)
      requires Valid() && o in scene.nodes && o != scene.root
      modifies scene, wallManager
      ensures Valid()
      ensures wallManager.isAddWallMode == old(wallManager.isAddWallMode)
      ensures wallManager.direction == old(wallManager.direction)
      ensures scene.State() == RemoveS(old(scene.State()), scene.root, o)
      ensures wallManager.walls ==
                if old(scene.nodes[o].userData.isWall) then FilterOut<NodeId>(old(wallManager.walls), o)
                else old(wallManager.walls)
    {
      var walls := wallManager.walls;
      if scene.nodes[o].userData.isWall {
        var index := IndexOf<NodeId>(walls, o);
        if index != -1 {
          SpliceIsFilter<NodeId>(walls, o);
          wallManager.walls := RemoveAt<NodeId>(walls, index);
        } else {
          NotInIsFilterIdentity<NodeId>(walls, o);
        }
        FilterOutNoDup<NodeId>(walls, o);
      }
      var resources := OwnResources(scene.nodes[o]);
      scene.Remove(scene.root, o);
      scene.Dispose(resources);
    }

    /** The four furniture factories: load the model and, when the loader
      gave a group, replace its userData with the factory's tags. */
    method CreateFurniture(k: FurnitureKind, a: AssetLoad) returns (model: Option<NodeId>)
      requires Valid()
      modifies scene
      ensures Valid()
      ensures scene.State() == FactoryS(old(scene.State()), scene.root, k, a)
      ensures model == (if a.Loaded? then Some(old(scene.nextId)) else None)
    {
      model := scene.LoadModel(a);
      if model.Some? {
        var m := model.value;
        scene.Put(m, scene.nodes[m].(userData := KindTags(k)));
      }
    }

    /** `toggleRemoveMode`: flip remove mode; turning it on flips wall mode
      too, whatever wall mode was. */
    method ToggleRemoveMode()
      requires Valid()
      modifies this, scene, wallManager
      ensures Valid() && isRemoveMode == !old(isRemoveMode)
      ensures dragManager == old(dragManager) && fileManager == old(fileManager)
      ensures wallManager.walls == old(wallManager.walls) && wallManager.direction == old(wallManager.direction)
      ensures wallManager.isAddWallMode == (if isRemoveMode then !old(wallManager.isAddWallMode)
                                            else old(wallManager.isAddWallMode))
      ensures var p := wallManager.previewWall;
              scene.State() == (if isRemoveMode
                                then old(scene.State()).(nodes := old(scene.nodes)[p :=
                                       old(scene.nodes)[p].(visible := wallManager.isAddWallMode)])
                                else old(scene.State()))
    {
      isRemoveMode := !isRemoveMode;
      if isRemoveMode {
        var on := wallManager.ToggleAddWallMode();
      }
    }

    /** The canvas `mousemove` listener. */
    method HandleCanvasMouseMove(e: MouseEvent, floorPoint: Option<Vec3>, ground: Option<Vec3>)
      requires Valid()
      modifies scene, dragManager
      ensures Valid()
      ensures var r := PointerMove(old(scene.nodes), wallManager.walls, wallManager.previewWall,
                                   wallManager.isAddWallMode, wallManager.direction, gridSize,
                                   old(dragManager.State()), e, floorPoint, ground);
              scene.State() == old(scene.State()).(nodes := r.0) && dragManager.State() == r.1
    {
      if wallManager.isAddWallMode {
        if floorPoint.Some? {
          wallManager.UpdatePreviewWall(floorPoint.value);
        }
      } else {
        dragManager.HandleMouseMove(e, floorPoint, ground);
      }
    }

    /** The canvas `mousedown` listener. */
    method HandleCanvasMouseDown(e: MouseEvent, hits: seq<Hit>, floorPoint: Option<Vec3>, now: string)
      requires Valid() && HitsIn(scene.nodes, hits)
      modifies scene, wallManager, dragManager, controls
      ensures Valid()
      ensures wallManager.isAddWallMode == old(wallManager.isAddWallMode)
      ensures wallManager.direction == old(wallManager.direction)
      ensures Outcome(WorldOf(wallManager), dragManager.State(), controls.enabled) ==
              CanvasClick(old(WorldOf(wallManager)), scene.root, wallManager.previewWall,
                          old(dragManager.State()), old(controls.enabled), isViewOnly,
                          isRemoveMode, wallManager.isAddWallMode, e, hits, floorPoint.Some?, now)
    {
      ghost var w := WorldOf(wallManager);
      ghost var d := dragManager.State();
      ghost var on := controls.enabled;
      if isRemoveMode {
        HandleRemoveObject(hits);
        assert CanvasClick(w, scene.root, wallManager.previewWall, d, on, isViewOnly, true,
                           wallManager.isAddWallMode, e, hits, floorPoint.Some?, now)
               == Outcome(RemoveW(w, scene.root, hits), d, on);
      } else if wallManager.isAddWallMode {
        wallManager.HandleMouseDown(e.button, floorPoint.Some?);
        assert WorldOf(wallManager) == WallClickW(w, scene.root, wallManager.previewWall, true, e.button, floorPoint.Some?);
        assert CanvasClick(w, scene.root, wallManager.previewWall, d, on, isViewOnly, false,
                           true, e, hits, floorPoint.Some?, now)
               == Outcome(WallClickW(w, scene.root, wallManager.previewWall, true, e.button, floorPoint.Some?), d, on);
      } else {
        dragManager.HandleMouseDown(e, hits, floorPoint, now);
      }
    }

    /** The canvas `mouseup` listener. */
    method HandleCanvasMouseUp()
      requires Valid()
      modifies dragManager, controls
      ensures Valid()
      ensures var d := old(dragManager.State());
              if d.isDragging || d.isRotating then
                && dragManager.State() == d.(isDragging := false, isRotating := false, selectedObject := None)
                && controls.enabled
              else dragManager.State() == d && controls.enabled == old(controls.enabled)
    {
      dragManager.StopDragging();
    }
  }

  class DragManager {
    const ui: UIManager
    var isDragging: bool
    var isRotating: bool
    var selectedObject: Option<NodeId>
    var offset: Vec3
    var previousX: real
    var previousY: real

    ghost function State(): DragState
      reads this
    {
      DragState(isDragging, isRotating, selectedObject, offset, previousX, previousY)
    }

    /** The drag manager is the one its controller holds. */
    ghost predicate Valid()
      reads this, ui, ui.scene, ui.wallManager, ui.dragManager
    {
      ui.Valid() && ui.dragManager == this
    }

    constructor (ui: UIManager)
      ensures this.ui == ui && State() == Idle
    {
      this.ui := ui;
      isDragging := false;
      isRotating := false;
      selectedObject := None;
      offset := Origin;
      previousX := 0.0;
      previousY := 0.0;
    }

    /** `handleMouseMove`: wall preview, else drag, else rotation. */
    method HandleMouseMove(e: MouseEvent, floorPoint: Option<Vec3>, ground: Option<Vec3>)
      requires Valid()
      modifies this, ui.scene
      ensures Valid()
      ensures var wm := ui.wallManager;
              var r := PointerMove(old(ui.scene.nodes), wm.walls, wm.previewWall, wm.isAddWallMode,
                                   wm.direction, ui.gridSize, old(State()), e, floorPoint, ground);
              ui.scene.State() == old(ui.scene.State()).(nodes := r.0) && State() == r.1
    {
      if ui.wallManager.isAddWallMode {
        UpdateWallPreview(floorPoint);
      } else if isDragging {
        HandleDrag(ground);
      } else if isRotating {
        HandleRotation(e);
      }
    }

    /** `handleMouseDown`: in view mode only a booking is tried; otherwise
      remove mode, then wall mode, then object selection. */
    method HandleMouseDown(e: MouseEvent, hits: seq<Hit>, floorPoint: Option<Vec3>, now: string)
      requires Valid() && HitsIn(ui.scene.nodes, hits)
      modifies this, ui.scene, ui.wallManager, ui.controls
      ensures Valid()
      ensures ui.wallManager.isAddWallMode == old(ui.wallManager.isAddWallMode)
      ensures ui.wallManager.direction == old(ui.wallManager.direction)
      ensures var r := DragManagerClick(old(WorldOf(ui.wallManager)), ui.scene.root, ui.wallManager.previewWall,
                                        old(State()), old(ui.controls.enabled), ui.isViewOnly, ui.isRemoveMode,
                                        ui.wallManager.isAddWallMode, e, hits, floorPoint.Some?, now);
              WorldOf(ui.wallManager) == r.world && State() == r.drag && ui.controls.enabled == r.controlsEnabled
    {
      if ui.isViewOnly {
        HandleBooking(hits, now);
      } else {
        HandleEditClick(e, hits, floorPoint);
      }
    }

    /** The editing part of `handleMouseDown`: remove mode, then wall mode,
      then selection. */
    method HandleEditClick(e: MouseEvent, hits: seq<Hit>, floorPoint: Option<Vec3>)
      requires Valid() && HitsIn(ui.scene.nodes, hits)
      modifies this, ui.scene, ui.wallManager, ui.controls
      ensures Valid()
      ensures ui.wallManager.isAddWallMode == old(ui.wallManager.isAddWallMode)
      ensures ui.wallManager.direction == old(ui.wallManager.direction)
      ensures Outcome(WorldOf(ui.wallManager), State(), ui.controls.enabled)
              == EditClick(old(WorldOf(ui.wallManager)), ui.scene.root, ui.wallManager.previewWall, old(State()),
                           old(ui.controls.enabled), ui.isRemoveMode, ui.wallManager.isAddWallMode,
                           e, hits, floorPoint.Some?)
    {
      ghost var w := WorldOf(ui.wallManager);
      if ui.isRemoveMode {
        ui.HandleRemoveObject(hits);
        assert WorldOf(ui.wallManager) == RemoveW(w, ui.scene.root, hits);
      } else if ui.wallManager.isAddWallMode {
        ui.wallManager.HandleMouseDown(e.button, floorPoint.Some?);
        assert WorldOf(ui.wallManager) == WallClickW(w, ui.scene.root, ui.wallManager.previewWall, true, e.button, floorPoint.Some?);
      } else {
        HandleObjectSelection(e, hits, IsRotationGesture(e));
      }
    }

    /** `handleBooking`. */
    method HandleBooking(hits: seq<Hit>, now: string)
      requires Valid() && HitsIn(ui.scene.nodes, hits)
      modifies ui.scene
      ensures Valid()
      ensures ui.scene.State() == old(ui.scene.State()).(nodes := BookingStep(old(ui.scene.nodes), hits, now))
    {
      if |hits| > 0 {
        var found := FindBookableParent(hits[0].node);
        if found.Some? && !ui.scene.nodes[found.value].userData.isBooked {
          NearestNotRoot(ui.scene.State(), ui.scene.root, hits[0].node, Bookable);
          BookObject(found.value, now);
        }
      }
    }

    /** `findBookableParent`: the nearest chair or furniture ancestor-or-self. */
    method FindBookableParent(obj: NodeId) returns (r: Option<NodeId>)
      requires Valid() && obj in ui.scene.nodes
      ensures r == Nearest(ui.scene.nodes, obj, Bookable)
    {
      r := ClimbWhileCurrent(ui.scene.nodes, obj, Bookable);
    }

    /** `bookObject`: mark the object booked at `now`, then walk its subtree
      and paint every mesh that has a material red. */
    method BookObject(obj: NodeId, now: string)
      requires ui.scene.Valid() && obj in ui.scene.nodes && obj != ui.scene.root
      modifies ui.scene
      ensures ui.scene.Valid()
      ensures ui.scene.State() == old(ui.scene.State()).(nodes := Booked(old(ui.scene.nodes), obj, now))
    {
      var scene := ui.scene;
      ghost var g := scene.nodes;
      var order := Preorder(scene.nodes, obj);
      SubtreeAvoidsRoot(scene.State(), scene.root, obj);
      scene.Put(obj, scene.nodes[obj].(userData := BookedTags(scene.nodes[obj].userData, now)));
      ghost var b := scene.nodes;
      ghost var s1 := scene.State();
      var i := 0;
      while i < |order|
        invariant 0 <= i <= |order| && scene.Valid()
        invariant scene.State() == s1.(nodes := PaintAll(b, order[..i]))
      {
        var x := order[i];
        PaintAllStep(b, order, i);
        if Paintable(scene.nodes[x]) {
          scene.Put(x, scene.nodes[x].(color := Red));
        }
        i := i + 1;
      }
      Prefixes(order, i);
    }

    /** `findMovableParent`: the nearest ancestor-or-self that is movable, a
      chair or furniture. */
    method FindMovableParent(obj: NodeId) returns (r: Option<NodeId>)
      requires Valid() && obj in ui.scene.nodes
      ensures r == Nearest(ui.scene.nodes, obj, MovableOrFurniture)
    {
      r := ClimbWhileCurrent(ui.scene.nodes, obj, MovableOrFurniture);
    }

    /** `updateWallPreview`: a floor hit moves the wall preview. */
    method UpdateWallPreview(floorPoint: Option<Vec3>)
      requires Valid()
      modifies ui.scene
      ensures Valid()
      ensures var wm := ui.wallManager;
              ui.scene.State() == (if floorPoint.Some?
                then old(ui.scene.State()).(nodes := PreviewUpdate(old(ui.scene.nodes), wm.walls, wm.previewWall,
                       wm.isAddWallMode, wm.direction, ui.gridSize, floorPoint.value))
                else old(ui.scene.State()))
    {
      if floorPoint.Some? {
        ui.wallManager.UpdatePreviewWall(floorPoint.value);
      }
    }

    /** `handleObjectSelection`. */
    method HandleObjectSelection(e: MouseEvent, hits: seq<Hit>, isRotation: bool)
      requires Valid() && HitsIn(ui.scene.nodes, hits)
      modifies this, ui.scene, ui.controls
      ensures Valid()
      ensures var r := Select(old(WorldOf(ui.wallManager)), ui.scene.root, old(State()), old(ui.controls.enabled),
                              e, hits, isRotation);
              WorldOf(ui.wallManager) == r.world && State() == r.drag && ui.controls.enabled == r.controlsEnabled
    {
      if |hits| > 0 {
        var found := FindMovableParent(hits[0].node);
        if found.Some? && ui.scene.nodes[found.value].userData.isMovable {
          NearestNotRoot(ui.scene.State(), ui.scene.root, hits[0].node, MovableOrFurniture);
          if isRotation && ui.scene.nodes[found.value].userData.isRotatable {
            StartRotation(found.value, e);
          } else if !isRotation {
            StartDragging(found.value, hits[0].point);
          }
        }
      }
    }

    /** `startDragging`: pin the object to the drag height and remember its
      offset from the hit point. */
    method StartDragging(obj: NodeId, intersectPoint: Vec3)
      requires Valid() && obj in ui.scene.nodes && obj != ui.scene.root
      modifies this, ui.scene, ui.controls
      ensures Valid() && !ui.controls.enabled
      ensures var n := old(ui.scene.nodes)[obj];
              && State() == old(State()).(isDragging := true, selectedObject := Some(obj),
                                          offset := StartOffset(n.position, intersectPoint))
              && ui.scene.State() == PutS(old(ui.scene.State()), ui.scene.root, obj,
                                          n.(position := Pinned(n.position)))
    {
      isDragging := true;
      selectedObject := Some(obj);
      ui.controls.enabled := false;
      var n := ui.scene.nodes[obj];
      ui.scene.Put(obj, n.(position := Pinned(n.position)));
      offset := StartOffset(n.position, intersectPoint);
    }

    /** `handleDrag`, given where the pointer ray meets the ground plane
      (None when it does not). */
    method HandleDrag(ground: Option<Vec3>)
      requires Valid()
      modifies ui.scene
      ensures Valid()
      ensures ui.scene.State() == old(ui.scene.State()).(nodes := DragMove(old(ui.scene.nodes), State(), ground))
    {
      if !isDragging || selectedObject.None? {
        return;
      }
      var o := selectedObject.value;
      ui.scene.Put(o, ui.scene.nodes[o].(position := DragTargetAsWritten(ground, offset)));
    }

    /** `startRotation`: remember where the pointer is. */
    method StartRotation(obj: NodeId, e: MouseEvent)
      requires Valid() && obj in ui.scene.nodes && obj != ui.scene.root
      modifies this, ui.controls
      ensures Valid() && !ui.controls.enabled
      ensures State() == old(State()).(isRotating := true, selectedObject := Some(obj),
                                       previousX := e.clientX, previousY := e.clientY)
    {
      isRotating := true;
      selectedObject := Some(obj);
      ui.controls.enabled := false;
      previousX := e.clientX;
      previousY := e.clientY;
    }

    /** `handleRotation`. */
    method HandleRotation(e: MouseEvent)
      requires Valid()
      modifies this, ui.scene
      ensures Valid()
      ensures var r := RotationMove(old(ui.scene.nodes), old(State()), e);
              State() == r.1 && ui.scene.State() == old(ui.scene.State()).(nodes := r.0)
    {
      if !isRotating || selectedObject.None? {
        return;
      }
      var o := selectedObject.value;
      var n := ui.scene.nodes[o];
      ui.scene.Put(o, n.(rotation := n.rotation.(y := RotateStep(n.rotation.y, previousX, e.clientX))));
      previousX := e.clientX;
      previousY := e.clientY;
    }

    /** `stopDragging`: ends a drag or a rotation and gives the camera its
      controls back; a no-op when neither is under way. */
    method StopDragging()
      requires Valid()
      modifies this, ui.controls
      ensures Valid()
      ensures var d := old(State());
              if d.isDragging || d.isRotating then
                && State() == d.(isDragging := false, isRotating := false, selectedObject := None)
                && ui.controls.enabled
              else State() == d && ui.controls.enabled == old(ui.controls.enabled)
    {
      if isDragging || isRotating {
        isDragging := false;
        isRotating := false;
        selectedObject := None;
        ui.controls.enabled := true;
      }
    }
  }

  class FileManager {
    const ui: UIManager

    constructor (ui: UIManager)
      ensures this.ui == ui
    {
      this.ui := ui;
    }

    /** `saveScene` without the upload: the document built by traversing the
      scene and keeping a record for every movable node and every wall. */
    method SaveScene() returns (data: SceneData)
      requires ui.Valid()
      ensures data == SaveDocument(ui.scene.nodes, ui.scene.root)
    {
      var g := ui.scene.nodes;
      var order := Preorder(g, ui.scene.root);
      var objects: seq<Record> := [];
      var i := 0;
      while i < |order|
        invariant 0 <= i <= |order|
        invariant objects == RecordsOf(g, order[..i])
      {
        var n := g[order[i]];
        if Saved(n.userData) {
          objects := objects + [RecordOf(n)];
        }
        assert order[..i + 1][..i] == order[..i];
        i := i + 1;
      }
      assert order[..|order|] == order;
      data := SceneData(objects, SceneVersion);
    }

    /** `loadScene`, given the server's answer (None when the fetch fails)
      and the outcome of each model load, one per record. */
    method LoadScene(response: Option<SceneData>, loads: seq<AssetLoad>, isViewOnly: bool)
      requires ui.Valid()
      requires response.Some? ==> |loads| == |response.value.objects|
      modifies ui.scene, ui.wallManager
      ensures ui.Valid()
      ensures ui.wallManager.isAddWallMode == old(ui.wallManager.isAddWallMode)
      ensures ui.wallManager.direction == old(ui.wallManager.direction)
      ensures WorldOf(ui.wallManager) == LoadSceneW(old(WorldOf(ui.wallManager)), ui.scene.root, ui.floor,
                                              response, loads, isViewOnly)
    {
      if response.None? {
        return;
      }
      ClearScene();
      RecreateAll(response.value.objects, loads, isViewOnly);
    }

    /** The loop of `loadScene`: every saved record recreated, in order. */
    method RecreateAll(objects: seq<Record>, loads: seq<AssetLoad>, isViewOnly: bool)
      requires ui.Valid() && |loads| == |objects|
      modifies ui.scene, ui.wallManager
      ensures ui.Valid()
      ensures ui.wallManager.isAddWallMode == old(ui.wallManager.isAddWallMode)
      ensures ui.wallManager.direction == old(ui.wallManager.direction)
      ensures WorldOf(ui.wallManager) == RestoreAll(old(WorldOf(ui.wallManager)), ui.scene.root, objects, loads, isViewOnly)
    {
      ghost var w0 := WorldOf(ui.wallManager);
      var i := 0;
      while i < |objects|
        invariant 0 <= i <= |objects| && ui.Valid()
        invariant ui.wallManager.isAddWallMode == old(ui.wallManager.isAddWallMode)
        invariant ui.wallManager.direction == old(ui.wallManager.direction)
        invariant WorldOf(ui.wallManager) == RestoreAll(w0, ui.scene.root, objects[..i], loads[..i], isViewOnly)
      {
        var model := RecreateObject(objects[i], loads[i], isViewOnly);
        RestoreAllStep(w0, ui.scene.root, objects, loads, i, isViewOnly);
        i := i + 1;
      }
      Prefixes(objects, 0);
      Prefixes(loads, 0);
    }

    /** The traversal of `clearScene`: every mesh other than the floor, in
      traversal order. */
    method CollectMeshes() returns (objectsToRemove: seq<NodeId>)
      requires ui.Valid()
      ensures objectsToRemove == Collect(ui.scene.nodes, Preorder(ui.scene.nodes, ui.scene.root), ui.floor)
      ensures forall x | x in objectsToRemove :: x in ui.scene.nodes && x != ui.scene.root
    {
      var g, floor := ui.scene.nodes, ui.floor;
      var order := Preorder(g, ui.scene.root);
      objectsToRemove := [];
      var i := 0;
      while i < |order|
        invariant 0 <= i <= |order|
        invariant objectsToRemove == Collect(g, order[..i], floor)
      {
        var x := order[i];
        CollectStep(g, order, i, floor);
        if x != floor && g[x].isMesh {
          objectsToRemove := objectsToRemove + [x];
        }
        i := i + 1;
      }
      Prefixes(order, 0);
    }

    /** `recreateObject`: the model a record yields, if any. */
    method RecreateObject(data: Record, a: AssetLoad, isViewOnly: bool) returns (model: Option<NodeId>)
      requires ui.Valid()
      modifies ui.scene, ui.wallManager
      ensures ui.Valid()
      ensures ui.wallManager.isAddWallMode == old(ui.wallManager.isAddWallMode)
      ensures ui.wallManager.direction == old(ui.wallManager.direction)
      ensures WorldOf(ui.wallManager) == RecreateW(old(WorldOf(ui.wallManager)), ui.scene.root, data, a, isViewOnly)
      ensures model == (if data.kind == WallRecord || (FactoryFor(data.userData).Some? && a.Loaded?)
                        then Some(old(ui.scene.nextId)) else None)
    {
      model := None;
      if data.kind == WallRecord {
        var id := RecreateWall(isViewOnly);
        ApplyRecord(id, data, isViewOnly);
        model := Some(id);
      } else {
        var k := FactoryFor(data.userData);
        if k.Some? {
          model := ui.CreateFurniture(k.value, a);
          if model.Some? {
            ApplyRecord(model.value, data, isViewOnly);
          }
        }
      }
    }

    /** The wall branch of `recreateObject`: a grey wall mesh, pushed onto
      the wall list and added to the scene. */
    method RecreateWall(isViewOnly: bool) returns (id: NodeId)
      requires ui.Valid()
      modifies ui.scene, ui.wallManager
      ensures ui.Valid()
      ensures ui.wallManager.isAddWallMode == old(ui.wallManager.isAddWallMode)
      ensures ui.wallManager.direction == old(ui.wallManager.direction)
      ensures id == old(ui.scene.nextId)
      ensures WorldOf(ui.wallManager) == World(CreateS(old(ui.scene.State()), ui.scene.root, Some(ui.scene.root),
                                                 RecreatedWall(id, isViewOnly)),
                                         old(ui.wallManager.walls) + [id])
    {
      var scene := ui.scene;
      var walls := ui.wallManager.walls;
      assert scene.nextId !in walls;
      id := scene.Create(Some(scene.root), RecreatedWall(scene.nextId, isViewOnly));
      AppendFreshNoDup<NodeId>(walls, id);
      ui.wallManager.walls := walls + [id];
    }

    /** The tail of `recreateObject`: the record's transform and userData
      copied onto the model. */
    method ApplyRecord(id: NodeId, data: Record, isViewOnly: bool)
      requires ui.Valid() && id in ui.scene.nodes && id != ui.scene.root
      modifies ui.scene
      ensures ui.Valid()
      ensures ui.wallManager.isAddWallMode == old(ui.wallManager.isAddWallMode)
      ensures ui.wallManager.direction == old(ui.wallManager.direction)
      ensures WorldOf(ui.wallManager) == RestoreModel(old(WorldOf(ui.wallManager)), ui.scene.root, id, data, isViewOnly)
    {
      ui.scene.Put(id, Restored(ui.scene.nodes[id], data, isViewOnly));
    }

    /** `clearScene`: every mesh but the floor is collected by a traversal,
      then taken out of the scene (when it hangs directly under it) and
      disposed; the wall list is emptied. */
    method ClearScene()
      requires ui.Valid()
      modifies ui.scene, ui.wallManager
      ensures ui.Valid()
      ensures ui.wallManager.isAddWallMode == old(ui.wallManager.isAddWallMode)
      ensures ui.wallManager.direction == old(ui.wallManager.direction)
      ensures WorldOf(ui.wallManager) == ClearW(old(WorldOf(ui.wallManager)), ui.scene.root, ui.floor)
    {
      var objectsToRemove := CollectMeshes();
      DiscardAll(objectsToRemove);
    }

    /** The removal loop and the emptied wall list of `clearScene`. */
    method DiscardAll(objectsToRemove: seq<NodeId>)
      requires ui.Valid()
      requires forall x | x in objectsToRemove :: x in ui.scene.nodes && x != ui.scene.root
      modifies ui.scene, ui.wallManager
      ensures ui.Valid()
      ensures ui.wallManager.isAddWallMode == old(ui.wallManager.isAddWallMode)
      ensures ui.wallManager.direction == old(ui.wallManager.direction)
      ensures WorldOf(ui.wallManager) == World(RemoveAll(old(ui.scene.State()), ui.scene.root, objectsToRemove), [])
    {
      RemoveMeshes(objectsToRemove);
      ForgetWalls();
    }

    /** The last line of `clearScene`: the wall list is emptied. */
    method ForgetWalls()
      requires ui.Valid()
      modifies ui.wallManager
      ensures ui.Valid()
      ensures ui.wallManager.isAddWallMode == old(ui.wallManager.isAddWallMode)
      ensures ui.wallManager.direction == old(ui.wallManager.direction)
      ensures WorldOf(ui.wallManager) == World(ui.scene.State(), [])
    {
      ui.wallManager.walls := [];
    }

    /** The removal loop of `clearScene`: each collected node leaves the
      scene (when it hangs directly under it) and is disposed, in order. */
    method RemoveMeshes(objectsToRemove: seq<NodeId>)
      requires ui.Valid()
      requires forall x | x in objectsToRemove :: x in ui.scene.nodes && x != ui.scene.root
      modifies ui.scene
      ensures ui.Valid()
      ensures ui.scene.State() == RemoveAll(old(ui.scene.State()), ui.scene.root, objectsToRemove)
    {
      var scene := ui.scene;
      ghost var s0 := scene.State();
      var j := 0;
      while j < |objectsToRemove|
        invariant 0 <= j <= |objectsToRemove|
        invariant scene.Valid() && scene.State() == RemoveAll(s0, scene.root, objectsToRemove[..j])
      {
        var o := objectsToRemove[j];
        RemoveAllStep(s0, scene.root, objectsToRemove, j);
        var resources := OwnResources(scene.nodes[o]);
        scene.Remove(scene.root, o);
        scene.Dispose(resources);
        j := j + 1;
      }
      Prefixes(objectsToRemove, 0);
    }
  }
}
