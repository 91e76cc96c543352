/** Wall placement: grid snapping, the preview wall, the occupancy test and the
    commit of a wall on click. */
module WallPlacement {
  import opened SceneGraph

  datatype Direction = Horizontal | Vertical

  function Flip(d: Direction): Direction {
    if d == Horizontal then Vertical else Horizontal
  }

  /** `Math.PI / 2` as a double, written out in decimal. */
  const HalfPi: real := 1.5707963267948966

  /** Centre height of a 2-unit-high wall. */
  const WallY: real := 1.0

  /** Two walls closer than this on both x and z occupy the same place. */
  const Epsilon: real := 0.1

  function Abs(r: real): real { if r < 0.0 then -r else r }

  /** JavaScript's `Math.round`: halves round up. */
  function JsRound(v: real): (k: int)
    ensures v - 0.5 < k as real <= v + 0.5
  {
    (v + 0.5).Floor
  }

  /** `Math.round(v / g) * g`: the multiple of the grid size nearest to v, a
      tie going to the larger one. */
  function Snap(v: real, g: real): (r: real)
    requires g > 0.0
    ensures -g / 2.0 <= v - r < g / 2.0
    ensures (r / g).Floor as real == r / g
  {
    var k := JsRound(v / g);
    RoundedWithinHalfCell(v, g, k);
    WholeQuotient(k, g);
    k as real * g
  }

  /** Dividing a multiple of g by g gives the factor back. */
  lemma MulDiv(a: real, g: real)
    requires g > 0.0
    ensures (a * g) / g == a
  {
  }

  /** A multiple of g divided by g is a whole number. */
  lemma WholeQuotient(k: int, g: real)
    requires g > 0.0
    ensures ((k as real * g) / g).Floor as real == (k as real * g) / g
  {
    MulDiv(k as real, g);
    assert (k as real).Floor == k;
  }

  lemma RoundedWithinHalfCell(v: real, g: real, k: int)
    requires g > 0.0 && k == JsRound(v / g)
    ensures -g / 2.0 <= v - k as real * g < g / 2.0
  {
    var q := v / g;
    var d := q - k as real;
    assert -0.5 <= d < 0.5;
    assert v == q * g;
    assert v - k as real * g == d * g;
    assert (d + 0.5) * g >= 0.0;
    assert (0.5 - d) * g > 0.0;
  }

  lemma SnapOfMultiple(k: int, g: real)
    requires g > 0.0
    ensures Snap(k as real * g, g) == k as real * g
  {
    MulDiv(k as real, g);
    assert JsRound(k as real) == k;
  }

  /** Snapping is idempotent. */
  lemma SnapIdempotent(v: real, g: real)
    requires g > 0.0
    ensures Snap(Snap(v, g), g) == Snap(v, g)
  {
    var k := JsRound(v / g);
    assert Snap(v, g) == k as real * g;
    SnapOfMultiple(k, g);
  }

  /** A point half a cell past a grid line snaps to the next grid line. */
  lemma SnapHalfCell(k: int, g: real)
    requires g > 0.0
    ensures Snap(k as real * g + g / 2.0, g) == (k + 1) as real * g
  {
    var v := k as real * g + g / 2.0;
    var a := k as real + 0.5;
    assert v == a * g;
    MulDiv(a, g);
    assert v / g == a;
    assert JsRound(v / g) == k + 1;
    assert Snap(v, g) == (k + 1) as real * g;
  }

  /** Where a wall of direction `d` goes for the snapped point (sx, sz): centred
      on a grid edge, half a cell along x (horizontal) or along z (vertical). */
  function PreviewPosition(sx: real, sz: real, d: Direction, g: real): (r: Vec3)
    ensures r.y == WallY
    ensures (r.x - sx) + (r.z - sz) == g / 2.0
    ensures if d == Horizontal then r.z == sz else r.x == sx
  {
    if d == Horizontal then Vec3(sx + g / 2.0, WallY, sz)
    else Vec3(sx, WallY, sz + g / 2.0)
  }

  /** The wall's yaw: none along x, a quarter turn along z. */
  function YawOf(d: Direction): (r: real)
    ensures r == 0.0 <==> d == Horizontal
    ensures r == 0.0 || r == HalfPi
  {
    if d == Horizontal then 0.0 else HalfPi
  }

  /** The placement for grid cell (i, j). */
  function CellPosition(i: int, j: int, d: Direction, g: real): Vec3 {
    PreviewPosition(i as real * g, j as real * g, d, g)
  }

  /** Occupancy: an open square 0.2 wide around (x, z), whatever the height. */
  predicate Near(p: Vec3, x: real, z: real)
    ensures p.x == x && p.z == z ==> Near(p, x, z)
    ensures Near(p, x, z) ==> -Epsilon < p.x - x < Epsilon && -Epsilon < p.z - z < Epsilon
  {
    Abs(p.x - x) < Epsilon && Abs(p.z - z) < Epsilon
  }

  lemma MultipleApart(m: int, g: real)
    requires g > 0.0 && m != 0
    ensures Abs(m as real * g) >= g
  {
    if m > 0 {
      assert (m - 1) as real * g >= 0.0;
    } else {
      assert (-m - 1) as real * g >= 0.0;
    }
  }

  lemma OddHalfApart(m: int, g: real)
    requires g > 0.0
    ensures Abs(m as real * g + g / 2.0) >= g / 2.0
  {
    if m >= 0 {
      assert m as real * g >= 0.0;
    } else {
      assert (-m - 1) as real * g >= 0.0;
    }
  }

  lemma ScaledDifference(m: int, n: int, g: real)
    ensures m as real * g - n as real * g == (m - n) as real * g
  {
  }

  lemma NearSymmetric(p: Vec3, q: Vec3)
    ensures Near(p, q.x, q.z) <==> Near(q, p.x, p.z)
  {
    assert Abs(p.x - q.x) == Abs(q.x - p.x);
    assert Abs(p.z - q.z) == Abs(q.z - p.z);
  }

  /** Two placements in the same direction coincide only for the same cell. */
  lemma SameDirectionApart(i1: int, j1: int, i2: int, j2: int, d: Direction, g: real)
    requires g >= 0.2
    ensures var p := CellPosition(i2, j2, d, g);
            Near(CellPosition(i1, j1, d, g), p.x, p.z) <==> (i1, j1) == (i2, j2)
  {
    var a := CellPosition(i1, j1, d, g);
    var b := CellPosition(i2, j2, d, g);
    ScaledDifference(i1, i2, g);
    ScaledDifference(j1, j2, g);
    assert a.x - b.x == (i1 - i2) as real * g;
    assert a.z - b.z == (j1 - j2) as real * g;
    if i1 != i2 { MultipleApart(i1 - i2, g); }
    if j1 != j2 { MultipleApart(j1 - j2, g); }
  }

  /** A horizontal placement is never near a vertical one: their x
      coordinates differ by an odd multiple of half a cell. */
  lemma CrossDirectionApart(i1: int, j1: int, i2: int, j2: int, g: real)
    requires g >= 0.2
    ensures var p := CellPosition(i2, j2, Vertical, g);
            !Near(CellPosition(i1, j1, Horizontal, g), p.x, p.z)
  {
    var a := CellPosition(i1, j1, Horizontal, g);
    var b := CellPosition(i2, j2, Vertical, g);
    ScaledDifference(i1, i2, g);
    assert a.x - b.x == (i1 - i2) as real * g + g / 2.0;
    OddHalfApart(i1 - i2, g);
    assert !(Abs(a.x - b.x) < Epsilon);
  }

  /** On a grid of at least 0.2 (the editor uses 2), two placements occupy the
      same place exactly when they are for the same cell and the same
      direction: a horizontal and a vertical wall never block each other. */
  lemma OccupiedIffSameCell(i1: int, j1: int, d1: Direction,
                            i2: int, j2: int, d2: Direction, g: real)
    requires g >= 0.2
    ensures var p := CellPosition(i2, j2, d2, g);
            Near(CellPosition(i1, j1, d1, g), p.x, p.z) <==> (i1, j1, d1) == (i2, j2, d2)
  {
    if d1 == d2 {
      SameDirectionApart(i1, j1, i2, j2, d1, g);
    } else if d1 == Horizontal {
      CrossDirectionApart(i1, j1, i2, j2, g);
    } else {
      CrossDirectionApart(i2, j2, i1, j1, g);
      NearSymmetric(CellPosition(i1, j1, d1, g), CellPosition(i2, j2, d2, g));
    }
  }

  /** `walls.some(...)`: some wall lies within Epsilon of (x, z) on both axes. */
  function AnyNear(g: Graph, walls: seq<NodeId>, x: real, z: real): (b: bool)
    requires forall w | w in walls :: w in g
    ensures b <==> exists i | 0 <= i < |walls| :: Near(g[walls[i]].position, x, z)
  {
    if |walls| == 0 then false
    else if Near(g[walls[0]].position, x, z) then true
    else
      var rest := AnyNear(g, walls[1..], x, z);
      assert forall i | 1 <= i < |walls| :: walls[i] == walls[1..][i - 1];
      rest
  }

  /** The preview after `updatePreviewWall(mouse)`: moved, turned and shown on
      a free place, hidden (and left where it was) on an occupied one, and
      untouched while wall mode is off. */
  function PreviewUpdate(g: Graph, walls: seq<NodeId>, preview: NodeId, on: bool,
                         d: Direction, grid: real, mouse: Vec3): (h: Graph)
    requires grid > 0.0 && preview in g && forall w | w in walls :: w in g
    ensures SameShape(g, h) && forall x | x in g && x != preview :: h[x] == g[x]
    ensures !on ==> h == g
    ensures var target := PreviewPosition(Snap(mouse.x, grid), Snap(mouse.z, grid), d, grid);
            on ==> (h[preview].visible <==> !AnyNear(g, walls, target.x, target.z))
    ensures var target := PreviewPosition(Snap(mouse.x, grid), Snap(mouse.z, grid), d, grid);
            on && h[preview].visible ==>
              h[preview].position == target && h[preview].rotation.y == YawOf(d)
    ensures !h[preview].visible ==> h[preview].position == g[preview].position
    ensures on && !h[preview].visible ==> h[preview] == g[preview].(visible := false)
    ensures h[preview] == g[preview].(position := h[preview].position,
                                      rotation := g[preview].rotation.(y := h[preview].rotation.y),
                                      visible := h[preview].visible)
  {
    if !on then g
    else
      var target := PreviewPosition(Snap(mouse.x, grid), Snap(mouse.z, grid), d, grid);
      var n := g[preview];
      if !AnyNear(g, walls, target.x, target.z) then
        g[preview := n.(position := target, rotation := n.rotation.(y := YawOf(d)), visible := true)]
      else
        g[preview := n.(visible := false)]
  }

  /** A shown preview sits on the placement of the cell the pointer snapped to. */
  lemma PreviewOnGridEdge(g: Graph, walls: seq<NodeId>, preview: NodeId, d: Direction,
                          grid: real, mouse: Vec3)
    requires grid > 0.0 && preview in g && forall w | w in walls :: w in g
    ensures var h := PreviewUpdate(g, walls, preview, true, d, grid, mouse);
            h[preview].visible ==>
              h[preview].position == CellPosition(JsRound(mouse.x / grid), JsRound(mouse.z / grid), d, grid)
  {
  }

  /** `createWall(x, z)`: a grey mesh at (x, 1, z) turned like the preview and
      tagged as a wall. */
  function WallNode(id: NodeId, x: real, z: real, rotation: Euler): (n: Node)
    ensures n.isMesh && n.userData.isWall && !n.userData.isMovable
    ensures n.position == Vec3(x, WallY, z) && n.rotation == rotation
    ensures OwnResources(n) == [Geometry(id), Material(id, 0)]
  {
    NewMesh(id).(position := Vec3(x, WallY, z), rotation := rotation,
                 userData := NoTags.(isWall := true))
  }

  /** A switch of direction re-snaps the preview's own position, whose x (or z)
      lies half a cell past a grid line: the preview moves one cell on. */
  lemma {:induction false} SwitchDirectionShiftsPreview(i: int, j: int, d: Direction, grid: real)
    requires grid > 0.0
    ensures var p := CellPosition(i, j, d, grid);
            var q := PreviewPosition(Snap(p.x, grid), Snap(p.z, grid), Flip(d), grid);
            q == (if d == Horizontal then CellPosition(i + 1, j, Vertical, grid)
                  else CellPosition(i, j + 1, Horizontal, grid))
  {
    var p := CellPosition(i, j, d, grid);
    if d == Horizontal {
      SnapHalfCell(i, grid);
      SnapOfMultiple(j, grid);
    } else {
      SnapOfMultiple(i, grid);
      SnapHalfCell(j, grid);
    }
  }

  class WallManager {
    const scene: Scene
    const floor: NodeId
    const gridSize: real
    const previewWall: NodeId
    var walls: seq<NodeId>
    var isAddWallMode: bool
    var direction: Direction

    ghost predicate Valid()
      reads this, scene
    {
      && scene.Valid() && gridSize > 0.0
      && floor in scene.nodes
      && previewWall in scene.nodes && previewWall != scene.root
      && (forall w | w in walls :: w in scene.nodes)
      && NoDup(walls)
    }

    constructor (scene: Scene, floor: NodeId, gridSize: real)
      requires scene.Valid() && floor in scene.nodes && gridSize > 0.0
      modifies scene
      ensures Valid() && this.scene == scene && this.floor == floor && this.gridSize == gridSize
      ensures walls == [] && !isAddWallMode && direction == Horizontal
      ensures previewWall == old(scene.nextId) && scene.nextId == old(scene.nextId) + 1
      ensures scene.nodes.Keys == old(scene.nodes.Keys) + {previewWall}
      ensures scene.nodes[previewWall] == NewMesh(previewWall).(visible := false, parent := Some(scene.root))
      ensures scene.nodes[scene.root].children == old(scene.nodes[scene.root].children) + [previewWall]
      ensures scene.disposed == old(scene.disposed)
    {
      this.scene := scene;
      this.floor := floor;
      this.gridSize := gridSize;
      var id := scene.Create(Some(scene.root), NewMesh(scene.nextId).(visible := false));
      previewWall := id;
      walls := [];
      isAddWallMode := false;
      direction := Horizontal;
    }

    /** Flip wall mode and show the preview exactly while it is on. */
    method ToggleAddWallMode() returns (on: bool)
      requires Valid()
      modifies this, scene
      ensures Valid() && isAddWallMode == !old(isAddWallMode) && on == isAddWallMode
      ensures walls == old(walls) && direction == old(direction)
      ensures scene.State() == old(scene.State()).(nodes :=
                old(scene.nodes)[previewWall := old(scene.nodes)[previewWall].(visible := on)])
    {
      isAddWallMode := !isAddWallMode;
      scene.Put(previewWall, scene.nodes[previewWall].(visible := isAddWallMode));
      on := isAddWallMode;
    }

    /** `wallExists(x, z)`. */
    function WallExists(x: real, z: real): (b: bool)
      reads this, scene
      requires Valid()
      ensures b <==> exists i | 0 <= i < |walls| :: Near(scene.nodes[walls[i]].position, x, z)
    {
      AnyNear(scene.nodes, walls, x, z)
    }

    method UpdatePreviewWall(mouse: Vec3)
      requires Valid()
      modifies scene
      ensures Valid()
      ensures scene.State() == old(scene.State()).(nodes := PreviewUpdate(old(scene.nodes), walls,
                previewWall, isAddWallMode, direction, gridSize, mouse))
    {
      if !isAddWallMode {
        return;
      }
      var snappedX := Snap(mouse.x, gridSize);
      var snappedZ := Snap(mouse.z, gridSize);
      var position := PreviewPosition(snappedX, snappedZ, direction, gridSize);
      var n := scene.nodes[previewWall];
      if !WallExists(position.x, position.z) {
        scene.Put(previewWall, n.(position := position, rotation := n.rotation.(y := YawOf(direction)),
                                  visible := true));
      } else {
        scene.Put(previewWall, n.(visible := false));
      }
    }

    /** Alternate the direction and re-place the preview at its own position. */
    method SwitchDirection()
      requires Valid()
      modifies this, scene
      ensures Valid() && direction == Flip(old(direction))
      ensures walls == old(walls) && isAddWallMode == old(isAddWallMode)
      ensures scene.State() == old(scene.State()).(nodes := PreviewUpdate(old(scene.nodes), walls,
                previewWall, isAddWallMode, direction, gridSize, old(scene.nodes)[previewWall].position))
    {
      direction := Flip(direction);
      UpdatePreviewWall(scene.nodes[previewWall].position);
    }

    /** A click in wall mode on a shown preview with the floor under the
      pointer commits a wall where the preview is; nothing is re-checked and
      the preview stays shown. */
    method HandleMouseDown(button: int, floorHit: bool)
      requires Valid()
      modifies this, scene
      ensures Valid() && isAddWallMode == old(isAddWallMode) && direction == old(direction)
      ensures var commit := button == 0 && isAddWallMode
                            && old(scene.nodes)[previewWall].visible && floorHit;
              var p := old(scene.nodes)[previewWall];
              if commit then
                && walls == old(walls) + [old(scene.nextId)]
                && scene.State() == CreateS(old(scene.State()), scene.root, Some(scene.root),
                     WallNode(old(scene.nextId), p.position.x, p.position.z, p.rotation))
              else
                walls == old(walls) && scene.State() == old(scene.State())
    {
      if button != 0 || !isAddWallMode || !scene.nodes[previewWall].visible {
        return;
      }
      if floorHit {
        var p := scene.nodes[previewWall];
        var wall := scene.Create(Some(scene.root), WallNode(scene.nextId, p.position.x, p.position.z, p.rotation));
        walls := walls + [wall];
      }
    }
  }

  /** Two clicks without a pointer move in between commit two walls at the
      same place. */
  method DuplicateWallScenario(wm: WallManager)
    requires wm.Valid() && wm.isAddWallMode && wm.scene.nodes[wm.previewWall].visible
    modifies wm, wm.scene
    ensures wm.Valid() && |wm.walls| == |old(wm.walls)| + 2
    ensures var a := wm.scene.nodes[wm.walls[|wm.walls| - 2]];
            var b := wm.scene.nodes[wm.walls[|wm.walls| - 1]];
            a.position == b.position && a.userData.isWall && b.userData.isWall
  {
    ghost var p := wm.scene.nodes[wm.previewWall];
    wm.HandleMouseDown(0, true);
    assert wm.scene.nodes[wm.previewWall] == p;
    var first := wm.walls[|wm.walls| - 1];
    assert wm.scene.nodes[first].position == Vec3(p.position.x, WallY, p.position.z);
    wm.HandleMouseDown(0, true);
    assert wm.walls[|wm.walls| - 2] == first && first != wm.scene.root;
  }

  lemma SnapOnGridOfTwo()
    ensures Snap(2.0, 2.0) == 2.0 && Snap(0.0, 2.0) == 0.0
  {
    SnapOfMultiple(1, 2.0);
    SnapOfMultiple(0, 2.0);
  }

  /** On a grid of 2, a horizontal wall for the point (2, 0) goes to (3, 1, 0)
      with yaw 0. */
  method CommitAtPointScenario(wm: WallManager)
    requires wm.Valid() && wm.isAddWallMode && wm.direction == Horizontal
    requires wm.gridSize == 2.0 && wm.walls == []
    modifies wm, wm.scene
    ensures wm.Valid() && |wm.walls| == 1 && wm.isAddWallMode && wm.direction == Horizontal
    ensures var w := wm.scene.nodes[wm.walls[0]];
            w.position == Vec3(3.0, 1.0, 0.0) && w.rotation.y == 0.0 && w.userData.isWall
  {
    SnapOnGridOfTwo();
    wm.UpdatePreviewWall(Vec3(2.0, 0.0, 0.0));
    var p := wm.scene.nodes[wm.previewWall];
    assert p.visible && p.position == Vec3(3.0, 1.0, 0.0) && p.rotation.y == 0.0;
    wm.HandleMouseDown(0, true);
  }

  /** Pointing at an occupied place hides the preview, so the click after it
      commits nothing. */
  method OccupiedRefusedScenario(wm: WallManager, mouse: Vec3)
    requires wm.Valid() && wm.isAddWallMode
    requires var target := PreviewPosition(Snap(mouse.x, wm.gridSize), Snap(mouse.z, wm.gridSize),
                                           wm.direction, wm.gridSize);
             wm.WallExists(target.x, target.z)
    modifies wm, wm.scene
    ensures wm.Valid() && wm.walls == old(wm.walls) && !wm.scene.nodes[wm.previewWall].visible
  {
    wm.UpdatePreviewWall(mouse);
    wm.HandleMouseDown(0, true);
  }

  /** The design's placement scenario from an empty scene: the first wall is
      placed, a second one at the same point is refused, and the manager ends
      with that one wall. */
  method PlacementScenario() returns (wm: WallManager)
    ensures wm.Valid() && |wm.walls| == 1
  {
    var scene := new Scene();
    wm := new WallManager(scene, scene.root, 2.0);
    var on := wm.ToggleAddWallMode();
    CommitAtPointScenario(wm);
    SnapOnGridOfTwo();
    assert PreviewPosition(Snap(2.0, 2.0), Snap(0.0, 2.0), Horizontal, 2.0) == Vec3(3.0, 1.0, 0.0);
    var first := wm.scene.nodes[wm.walls[0]];
    assert first.position == Vec3(3.0, 1.0, 0.0);
    assert Near(first.position, 3.0, 0.0);
    assert wm.WallExists(3.0, 0.0);
    OccupiedRefusedScenario(wm, Vec3(2.0, 0.0, 0.0));
    assert |wm.walls| == 1;
  }
}
