/** The save/restore mapping of the editor: the record a saved node becomes,
    the document a save produces, and what clearing and reloading do to the
    scene and the wall list. */
module SceneRecords {
  import opened SceneGraph

  // ---------------------------------------------------------------------------
  // Saving

  /** `type: 'wall' | 'furniture'`. */
  datatype RecordType = WallRecord | FurnitureRecord

  /** One saved object: its type, transform and userData. */
  datatype Record = Record(kind: RecordType, position: Vec3, rotation: Euler, scale: Vec3,
                           userData: UserData)

  /** The `data` part of a saved scene. */
  datatype SceneData = SceneData(objects: seq<Record>, version: int)

  const SceneVersion := 2

  /** The nodes a save keeps: movable ones and walls. */
  predicate Saved(u: UserData) {
    u.isMovable || u.isWall
  }

  /** The record for one node: a wall whenever it is tagged as a wall, even
      when it is also movable. */
  function RecordOf(n: Node): (r: Record)
    ensures r.kind == WallRecord <==> n.userData.isWall
    ensures r.position == n.position && r.rotation == n.rotation && r.scale == n.scale
    ensures r.userData == n.userData
  {
    Record(if n.userData.isWall then WallRecord else FurnitureRecord,
           n.position, n.rotation, n.scale, n.userData)
  }

  /** The records of the saved nodes of `order`, in that order. */
  function RecordsOf(g: Graph, order: seq<NodeId>): (rs: seq<Record>)
    requires forall x | x in order :: x in g
    ensures |rs| <= |order|
  {
    if |order| == 0 then []
    else
      var last := order[|order| - 1];
      RecordsOf(g, order[..|order| - 1]) + (if Saved(g[last].userData) then [RecordOf(g[last])] else [])
  }

  /** The saved nodes of `order`, in that order. */
  function SavedNodes(g: Graph, order: seq<NodeId>): (r: seq<NodeId>)
    requires forall x | x in order :: x in g
    ensures forall x | x in r :: x in order && Saved(g[x].userData)
    ensures forall x | x in order && Saved(g[x].userData) :: x in r
  {
    if |order| == 0 then []
    else
      var last := order[|order| - 1];
      SavedNodes(g, order[..|order| - 1]) + (if Saved(g[last].userData) then [last] else [])
  }

  /** Record i is the record of the i-th saved node: one record per saved
      node, in traversal order, and nothing else. */
  lemma {:induction false} RecordsFollowSavedNodes(g: Graph, order: seq<NodeId>)
    requires forall x | x in order :: x in g
    ensures |RecordsOf(g, order)| == |SavedNodes(g, order)|
    ensures forall i | 0 <= i < |RecordsOf(g, order)| ::
              RecordsOf(g, order)[i] == RecordOf(g[SavedNodes(g, order)[i]])
  {
    if |order| > 0 {
      RecordsFollowSavedNodes(g, order[..|order| - 1]);
    }
  }

  /** The document a save sends: every saved node of the traversal from the
      root, with version 2. */
  function SaveDocument(g: Graph, root: NodeId): (d: SceneData)
    requires WellFormed(g) && root in g
    ensures d.version == SceneVersion
  {
    SceneData(RecordsOf(g, Preorder(g, root)), SceneVersion)
  }

  /** Every saved node of the scene has its record in the document, and every
      record of the document comes from a saved node of the scene. */
  lemma SaveDocumentComplete(g: Graph, root: NodeId)
    requires WellFormed(g) && root in g
    ensures forall x | x in g && root in Chain(g, x) && Saved(g[x].userData) ::
              RecordOf(g[x]) in SaveDocument(g, root).objects
    ensures forall r | r in SaveDocument(g, root).objects ::
              exists x | x in g && root in Chain(g, x) && Saved(g[x].userData) :: r == RecordOf(g[x])
  {
    var order := Preorder(g, root);
    RecordsFollowSavedNodes(g, order);
    var saved := SavedNodes(g, order);
    forall x | x in g && root in Chain(g, x) && Saved(g[x].userData)
      ensures RecordOf(g[x]) in SaveDocument(g, root).objects
    {
      PreorderIsSubtree(g, root, x);
      var i :| 0 <= i < |saved| && saved[i] == x;
      assert RecordsOf(g, order)[i] == RecordOf(g[x]);
    }
    forall r | r in SaveDocument(g, root).objects
      ensures exists x | x in g && root in Chain(g, x) && Saved(g[x].userData) :: r == RecordOf(g[x])
    {
      var i :| 0 <= i < |RecordsOf(g, order)| && RecordsOf(g, order)[i] == r;
      var x := saved[i];
      PreorderIsSubtree(g, root, x);
    }
  }

  // ---------------------------------------------------------------------------
  // Restoring

  datatype FurnitureKind = Chair | Table | Sofa | RoundTable

  /** The userData each factory gives the model it loaded. */
  function KindTags(k: FurnitureKind): (u: UserData)
    ensures u.isMovable && u.isRotatable && !u.isWall && Saved(u)
  {
    match k
    case Chair => NoTags.(isChair := true, isMovable := true, isRotatable := true)
    case Table => NoTags.(isFurniture := true, isMovable := true, isRotatable := true)
    case Sofa => NoTags.(isSofa := true, isMovable := true, isRotatable := true)
    case RoundTable => NoTags.(isTable := true, isMovable := true, isRotatable := true)
  }

  /** The factory a furniture record is rebuilt with: the first of isChair,
      isFurniture, isSofa, isTable that is set. */
  function FactoryFor(u: UserData): (k: Option<FurnitureKind>)
    ensures k == Some(Chair) <==> u.isChair
    ensures k == Some(Table) <==> !u.isChair && u.isFurniture
    ensures k == Some(Sofa) <==> !u.isChair && !u.isFurniture && u.isSofa
    ensures k == Some(RoundTable) <==> !u.isChair && !u.isFurniture && !u.isSofa && u.isTable
    ensures k.None? <==> !(u.isChair || u.isFurniture || u.isSofa || u.isTable)
  {
    if u.isChair then Some(Chair)
    else if u.isFurniture then Some(Table)
    else if u.isSofa then Some(Sofa)
    else if u.isTable then Some(RoundTable)
    else None
  }

  /** A factory: load the model and, when the load gave a group, tag it. */
  function FactoryS(s: SceneState, root: NodeId, k: FurnitureKind, a: AssetLoad): (t: SceneState)
    requires Issued(s) && root in s.nodes
    ensures ValidState(s, root) ==> ValidState(t, root)
    ensures Issued(t) && s.nodes.Keys <= t.nodes.Keys && t.nextId >= s.nextId
    ensures t.disposed == s.disposed
    ensures a.Loaded? ==>
              && s.nextId in t.nodes && s.nextId !in s.nodes
              && t.nodes[s.nextId] == NewGroup().(parent := t.nodes[s.nextId].parent,
                                                  children := t.nodes[s.nextId].children,
                                                  userData := KindTags(k))
    ensures a.LoadFailed? ==> t == s
    ensures forall x | x in s.nodes && x != root :: t.nodes[x] == s.nodes[x]
  {
    var s1 := LoadModelS(s, root, a);
    if a.LoadFailed? then s1
    else
      var m := s.nextId;
      assert m !in s.nodes && m != root;
      PutS(s1, root, m, s1.nodes[m].(userData := KindTags(k)))
  }

  /** The colour a restore gives a model: only something with a material (a
      mesh) of a furniture record is painted, red when booked, green when it
      is a bookable chair or table. */
  function RestoredColor(n: Node, r: Record): (c: Color)
    ensures c != n.color ==> r.kind == FurnitureRecord && n.isMesh
    ensures r.kind == FurnitureRecord && n.isMesh && r.userData.isBooked ==> c == Red
    ensures (r.kind == FurnitureRecord && n.isMesh && !r.userData.isBooked
             && (r.userData.isChair || r.userData.isFurniture)) ==> c == Green
  {
    if r.kind == FurnitureRecord && n.isMesh then
      if r.userData.isBooked then Red
      else if r.userData.isChair || r.userData.isFurniture then Green
      else n.color
    else n.color
  }

  /** The model after `recreateObject` applies a record: position, rotation
      x/y/z and scale copied, the rotation order kept, userData replaced by the
      saved one with `isInteractable` set to the opposite of view-only. */
  function Restored(n: Node, r: Record, viewOnly: bool): (m: Node)
    ensures SameLinks(n, m) && m.isMesh == n.isMesh
  {
    n.(position := r.position,
       rotation := Euler(r.rotation.x, r.rotation.y, r.rotation.z, n.rotation.order),
       scale := r.scale,
       userData := r.userData.(isInteractable := Some(!viewOnly)),
       color := RestoredColor(n, r))
  }

  /** The scene together with the wall manager's list of walls. */
  datatype World = World(scene: SceneState, walls: seq<NodeId>)

  ghost predicate ValidWorld(w: World, root: NodeId) {
    && ValidState(w.scene, root)
    && (forall x | x in w.walls :: x in w.scene.nodes)
    && NoDup(w.walls)
  }

  /** The fresh mesh a wall record starts from. */
  function RecreatedWall(id: NodeId, viewOnly: bool): (m: Node)
    ensures m.isMesh && m.parent == None && m.children == []
    ensures m.userData.isWall && !m.userData.isMovable && m.userData.isInteractable == Some(!viewOnly)
    ensures OwnResources(m) == [Geometry(id), Material(id, 0)]
  {
    NewMesh(id).(userData := NoTags.(isWall := true, isInteractable := Some(!viewOnly)))
  }

  /** The tail of `recreateObject`: the model `id` takes the record's
      transform and userData. */
  function RestoreModel(w: World, root: NodeId, id: NodeId, r: Record, viewOnly: bool): (v: World)
    requires id in w.scene.nodes
    ensures ValidWorld(w, root) && id != root ==> ValidWorld(v, root)
    ensures v.scene.nodes.Keys == w.scene.nodes.Keys && v.walls == w.walls
    ensures v.scene.nextId == w.scene.nextId && v.scene.disposed == w.scene.disposed
  {
    World(PutS(w.scene, root, id, Restored(w.scene.nodes[id], r, viewOnly)), w.walls)
  }

  /** `recreateObject(record)`: a wall record adds a wall to the scene and to
      `walls`; a furniture record runs its factory; whatever model results is
      then restored from the record. */
  function RecreateW(w: World, root: NodeId, r: Record, a: AssetLoad, viewOnly: bool): (v: World)
    requires Issued(w.scene) && root in w.scene.nodes
    ensures ValidWorld(w, root) ==> ValidWorld(v, root)
    ensures Issued(v.scene) && w.scene.nodes.Keys <= v.scene.nodes.Keys && v.scene.nextId >= w.scene.nextId
    ensures v.scene.disposed == w.scene.disposed
  {
    var id := w.scene.nextId;
    if r.kind == WallRecord then
      var s1 := CreateS(w.scene, root, Some(root), RecreatedWall(id, viewOnly));
      RestoreModel(World(s1, w.walls + [id]), root, id, r, viewOnly)
    else
      match FactoryFor(r.userData)
      case None => w
      case Some(k) =>
        if a.LoadFailed? then w
        else RestoreModel(World(FactoryS(w.scene, root, k, a), w.walls), root, id, r, viewOnly)
  }

  /** Recreating a record touches no node it found other than the root,
      whose child list may grow. */
  lemma RecreateKeepsOthers(w: World, root: NodeId, r: Record, a: AssetLoad, viewOnly: bool)
    requires Issued(w.scene) && root in w.scene.nodes
    ensures KeptBesides(w.scene.nodes, RecreateW(w, root, r, a, viewOnly).scene.nodes, root)
  {
    var id := w.scene.nextId;
    if r.kind == WallRecord {
      var s1 := CreateS(w.scene, root, Some(root), RecreatedWall(id, viewOnly));
      var v := RestoreModel(World(s1, w.walls + [id]), root, id, r, viewOnly);
      assert v.scene == PutS(s1, root, id, Restored(s1.nodes[id], r, viewOnly));
    } else if FactoryFor(r.userData).Some? && a.Loaded? {
      var s1 := FactoryS(w.scene, root, FactoryFor(r.userData).value, a);
      var v := RestoreModel(World(s1, w.walls), root, id, r, viewOnly);
      assert v.scene == PutS(s1, root, id, Restored(s1.nodes[id], r, viewOnly));
    }
  }

  /** Whatever model a record produces carries the record's position, the
      record's rotation angles in the default order, its scale, and its
      userData with `isInteractable` set from the view-only flag. */
  lemma RecreateRestoresRecord(w: World, root: NodeId, r: Record, a: AssetLoad, viewOnly: bool)
    requires Issued(w.scene) && root in w.scene.nodes
    requires r.kind == WallRecord || (FactoryFor(r.userData).Some? && a.Loaded?)
    ensures var v := RecreateW(w, root, r, a, viewOnly);
            var m := v.scene.nodes[w.scene.nextId];
            && w.scene.nextId !in w.scene.nodes
            && m.position == r.position && m.scale == r.scale
            && m.rotation == Euler(r.rotation.x, r.rotation.y, r.rotation.z, DefaultOrder)
            && m.userData == r.userData.(isInteractable := Some(!viewOnly))
  {
  }

  /** A wall record appends exactly the new wall to `walls`; a furniture
      record leaves `walls` alone. */
  lemma RecreateWalls(w: World, root: NodeId, r: Record, a: AssetLoad, viewOnly: bool)
    requires Issued(w.scene) && root in w.scene.nodes
    ensures RecreateW(w, root, r, a, viewOnly).walls
              == (if r.kind == WallRecord then w.walls + [w.scene.nextId] else w.walls)
  {
  }

  /** A furniture record that no factory matches, or whose load fails,
      changes nothing. */
  lemma RecreateNothing(w: World, root: NodeId, r: Record, a: AssetLoad, viewOnly: bool)
    requires Issued(w.scene) && root in w.scene.nodes && r.kind == FurnitureRecord
    requires FactoryFor(r.userData).None? || a.LoadFailed?
    ensures RecreateW(w, root, r, a, viewOnly) == w
  {
  }

  /** A restored furniture model is a group, which has no material of its
      own, so the booked/available colouring never reaches it. */
  lemma RestoredFurnitureNotPainted(w: World, root: NodeId, r: Record, a: AssetLoad, viewOnly: bool)
    requires Issued(w.scene) && root in w.scene.nodes && r.kind == FurnitureRecord
    requires FactoryFor(r.userData).Some? && a.Loaded?
    ensures var v := RecreateW(w, root, r, a, viewOnly);
            var k := FactoryFor(r.userData).value;
            v.scene.nodes[w.scene.nextId].color
              == FactoryS(w.scene, root, k, a).nodes[w.scene.nextId].color
  {
  }

  /** Saving a node and restoring its record into a new model gives back
      the node's position, rotation angles, scale and userData (up to
      `isInteractable`); the rotation order falls back to the default. */
  lemma SaveRestoreRoundTrip(n: Node, model: Node, viewOnly: bool)
    requires Saved(n.userData) && model.rotation.order == DefaultOrder
    ensures var m := Restored(model, RecordOf(n), viewOnly);
            && m.position == n.position && m.scale == n.scale
            && m.rotation.x == n.rotation.x && m.rotation.y == n.rotation.y
            && m.rotation.z == n.rotation.z && m.rotation.order == DefaultOrder
            && m.userData == n.userData.(isInteractable := Some(!viewOnly))
  {
  }

  /** The rotation order does not survive a save and a restore. */
  lemma RotationOrderLost(n: Node, model: Node)
    requires Saved(n.userData) && n.rotation.order == "YXZ" && model.rotation.order == DefaultOrder
    ensures Restored(model, RecordOf(n), false).rotation != n.rotation
  {
  }

  /** The records of a document recreated one after another, in order. */
  function RestoreAll(w: World, root: NodeId, rs: seq<Record>, loads: seq<AssetLoad>, viewOnly: bool): (v: World)
    requires Issued(w.scene) && root in w.scene.nodes && |loads| == |rs|
    ensures ValidWorld(w, root) ==> ValidWorld(v, root)
    ensures Issued(v.scene) && w.scene.nodes.Keys <= v.scene.nodes.Keys && v.scene.disposed == w.scene.disposed
    decreases |rs|
  {
    if |rs| == 0 then w
    else
      var n := |rs| - 1;
      RecreateW(RestoreAll(w, root, rs[..n], loads[..n], viewOnly), root, rs[n], loads[n], viewOnly)
  }

  /** Restoring one more record is one more `RecreateW`. */
  lemma RestoreAllStep(w: World, root: NodeId, rs: seq<Record>, loads: seq<AssetLoad>, i: nat, viewOnly: bool)
    requires Issued(w.scene) && root in w.scene.nodes && |loads| == |rs| && i < |rs|
    ensures RestoreAll(w, root, rs[..i + 1], loads[..i + 1], viewOnly)
            == RecreateW(RestoreAll(w, root, rs[..i], loads[..i], viewOnly), root, rs[i], loads[i], viewOnly)
  {
    assert rs[..i + 1][..i] == rs[..i];
    assert loads[..i + 1][..i] == loads[..i];
  }

  /** A record makes a model when it is a wall record, or a furniture record
      whose factory exists and whose asset loads. */
  predicate MakesModel(r: Record, a: AssetLoad) {
    r.kind == WallRecord || (FactoryFor(r.userData).Some? && a.Loaded?)
  }

  /** A model carries a record: the record's position and scale, its
      rotation angles in the default order, and its userData with
      `isInteractable` set from the view-only flag. */
  predicate CarriesRecord(m: Node, r: Record, viewOnly: bool) {
    && m.position == r.position && m.scale == r.scale
    && m.rotation == Euler(r.rotation.x, r.rotation.y, r.rotation.z, DefaultOrder)
    && m.userData == r.userData.(isInteractable := Some(!viewOnly))
  }

  /** Later records never touch a model an earlier record made: every node of
      a partial restore other than the root comes out of a longer one
      unchanged. */
  lemma {:induction false} RestoreAllKeepsPrefix(w: World, root: NodeId, rs: seq<Record>,
                                                 loads: seq<AssetLoad>, k: nat, m: nat, viewOnly: bool)
    requires Issued(w.scene) && root in w.scene.nodes && |loads| == |rs| && k <= m <= |rs|
    ensures KeptBesides(RestoreAll(w, root, rs[..k], loads[..k], viewOnly).scene.nodes,
                        RestoreAll(w, root, rs[..m], loads[..m], viewOnly).scene.nodes, root)
    decreases m - k
  {
    if k < m {
      RestoreAllKeepsPrefix(w, root, rs, loads, k, m - 1, viewOnly);
      RestoreAllStepKeeps(w, root, rs, loads, m - 1, viewOnly);
      KeptTransitive(RestoreAll(w, root, rs[..k], loads[..k], viewOnly).scene.nodes,
                     RestoreAll(w, root, rs[..m - 1], loads[..m - 1], viewOnly).scene.nodes,
                     RestoreAll(w, root, rs[..m], loads[..m], viewOnly).scene.nodes, root);
    }
  }

  /** Record i touches no node of the restore before it but the root. */
  lemma RestoreAllStepKeeps(w: World, root: NodeId, rs: seq<Record>, loads: seq<AssetLoad>, i: nat, viewOnly: bool)
    requires Issued(w.scene) && root in w.scene.nodes && |loads| == |rs| && i < |rs|
    ensures KeptBesides(RestoreAll(w, root, rs[..i], loads[..i], viewOnly).scene.nodes,
                        RestoreAll(w, root, rs[..i + 1], loads[..i + 1], viewOnly).scene.nodes, root)
  {
    RestoreAllStep(w, root, rs, loads, i, viewOnly);
    RecreateKeepsOthers(RestoreAll(w, root, rs[..i], loads[..i], viewOnly), root, rs[i], loads[i], viewOnly);
  }

  /** Every node of `g` other than `root` is in `h`, unchanged. */
  ghost predicate KeptBesides(g: Graph, h: Graph, root: NodeId) {
    forall x | x in g && x != root :: x in h && h[x] == g[x]
  }

  lemma KeptTransitive(p: Graph, u: Graph, v: Graph, root: NodeId)
    requires KeptBesides(p, u, root) && KeptBesides(u, v, root)
    ensures KeptBesides(p, v, root)
  {
  }

  /** Every record that makes a model is carried, in the restored world, by
      the fresh node its turn created. */
  lemma RestoreAllRecreatesEach(w: World, root: NodeId, rs: seq<Record>, loads: seq<AssetLoad>,
                                i: nat, viewOnly: bool)
    requires Issued(w.scene) && root in w.scene.nodes && |loads| == |rs| && i < |rs|
    requires MakesModel(rs[i], loads[i])
    ensures var id := RestoreAll(w, root, rs[..i], loads[..i], viewOnly).scene.nextId;
            var v := RestoreAll(w, root, rs, loads, viewOnly);
            && id !in w.scene.nodes && id in v.scene.nodes
            && CarriesRecord(v.scene.nodes[id], rs[i], viewOnly)
  {
    var u := RestoreAll(w, root, rs[..i], loads[..i], viewOnly);
    RestoreAllStep(w, root, rs, loads, i, viewOnly);
    RecreateRestoresRecord(u, root, rs[i], loads[i], viewOnly);
    RestoreAllKeepsPrefix(w, root, rs, loads, i + 1, |rs|, viewOnly);
    Prefixes(rs, 0);
    Prefixes(loads, 0);
  }

  function CountWalls(rs: seq<Record>): nat {
    if |rs| == 0 then 0
    else CountWalls(rs[..|rs| - 1]) + (if rs[|rs| - 1].kind == WallRecord then 1 else 0)
  }

  /** A restore adds one wall to `walls` per wall record, and keeps the walls
      it had. */
  lemma {:induction false} RestoreAllWalls(w: World, root: NodeId, rs: seq<Record>,
                                           loads: seq<AssetLoad>, viewOnly: bool)
    requires Issued(w.scene) && root in w.scene.nodes && |loads| == |rs|
    ensures var v := RestoreAll(w, root, rs, loads, viewOnly);
            |v.walls| == |w.walls| + CountWalls(rs) && v.walls[..|w.walls|] == w.walls
    decreases |rs|
  {
    if |rs| > 0 {
      var n := |rs| - 1;
      var u := RestoreAll(w, root, rs[..n], loads[..n], viewOnly);
      RestoreAllWalls(w, root, rs[..n], loads[..n], viewOnly);
      RecreateWalls(u, root, rs[n], loads[n], viewOnly);
      var vw := RecreateW(u, root, rs[n], loads[n], viewOnly).walls;
      assert RestoreAll(w, root, rs, loads, viewOnly).walls == vw;
      assert CountWalls(rs) == CountWalls(rs[..n]) + (if rs[n].kind == WallRecord then 1 else 0);
      GrowKeepsPrefix(w.walls, u.walls, vw, u.scene.nextId);
    }
  }

  /** Appending at most one element keeps a prefix. */
  lemma GrowKeepsPrefix(p: seq<NodeId>, a: seq<NodeId>, b: seq<NodeId>, x: NodeId)
    requires |p| <= |a| && a[..|p|] == p
    requires b == a || b == a + [x]
    ensures |p| <= |b| && b[..|p|] == p
  {
    assert b[..|p|] == a[..|p|];
  }

  // ---------------------------------------------------------------------------
  // Clearing

  /** The nodes `clearScene` collects from a traversal: every mesh but the
      floor. */
  function Collect(g: Graph, order: seq<NodeId>, floor: NodeId): (r: seq<NodeId>)
    requires forall x | x in order :: x in g
    ensures forall x | x in r :: x in order && x != floor && g[x].isMesh
    ensures forall x | x in order && x != floor && g[x].isMesh :: x in r
  {
    if |order| == 0 then []
    else
      var last := order[|order| - 1];
      Collect(g, order[..|order| - 1], floor) + (if last != floor && g[last].isMesh then [last] else [])
  }

  /** Scanning one more node of the traversal. */
  lemma CollectStep(g: Graph, order: seq<NodeId>, i: nat, floor: NodeId)
    requires forall x | x in order :: x in g
    requires i < |order|
    ensures Collect(g, order[..i + 1], floor)
            == Collect(g, order[..i], floor) + (if order[i] != floor && g[order[i]].isMesh then [order[i]] else [])
  {
    assert order[..i + 1][..i] == order[..i];
  }

  /** The own resources of the nodes `xs`, in order. */
  function ResourcesOf(g: Graph, xs: seq<NodeId>): seq<ResId>
    requires forall x | x in xs :: x in g
  {
    if |xs| == 0 then []
    else ResourcesOf(g, xs[..|xs| - 1]) + OwnResources(g[xs[|xs| - 1]])
  }

  /** `scene.remove` and dispose for each of `xs`, in order. */
  function RemoveAll(s: SceneState, root: NodeId, xs: seq<NodeId>): (t: SceneState)
    requires root in s.nodes && forall x | x in xs :: x in s.nodes && x != root
    ensures ValidState(s, root) ==> ValidState(t, root)
    ensures t.nodes.Keys == s.nodes.Keys && t.nextId == s.nextId
    decreases |xs|
  {
    if |xs| == 0 then s
    else
      var n := |xs| - 1;
      var u := RemoveAll(s, root, xs[..n]);
      RemoveS(u, root, xs[n])
  }

  /** Removing one more node of the list. */
  lemma RemoveAllStep(s: SceneState, root: NodeId, xs: seq<NodeId>, j: nat)
    requires root in s.nodes && forall x | x in xs :: x in s.nodes && x != root
    requires j < |xs|
    ensures RemoveAll(s, root, xs[..j + 1]) == RemoveS(RemoveAll(s, root, xs[..j]), root, xs[j])
  {
    assert xs[..j + 1][..j] == xs[..j];
  }

  /** A run of removals changes no node's own fields: only parents, and the
      root's children. */
  lemma {:induction false} RemoveAllKeepsFields(s: SceneState, root: NodeId, xs: seq<NodeId>)
    requires root in s.nodes && forall x | x in xs :: x in s.nodes && x != root
    ensures var t := RemoveAll(s, root, xs);
            && t.nodes[root] == s.nodes[root].(children := t.nodes[root].children)
            && forall y | y in s.nodes && y != root :: t.nodes[y] == s.nodes[y].(parent := t.nodes[y].parent)
    decreases |xs|
  {
    if |xs| > 0 {
      var n := |xs| - 1;
      RemoveAllKeepsFields(s, root, xs[..n]);
      assert RemoveAll(s, root, xs) == RemoveS(RemoveAll(s, root, xs[..n]), root, xs[n]);
    }
  }

  /** A run of removals disposes exactly the own resources of the nodes it
      names, in order. */
  lemma {:induction false} RemoveAllDisposes(s: SceneState, root: NodeId, xs: seq<NodeId>)
    requires root in s.nodes && forall x | x in xs :: x in s.nodes && x != root
    ensures RemoveAll(s, root, xs).disposed == s.disposed + multiset(ResourcesOf(s.nodes, xs))
    decreases |xs|
  {
    if |xs| > 0 {
      var n := |xs| - 1;
      var u := RemoveAll(s, root, xs[..n]);
      RemoveAllDisposes(s, root, xs[..n]);
      RemoveAllKeepsFields(s, root, xs[..n]);
      assert RemoveAll(s, root, xs) == RemoveS(u, root, xs[n]);
      assert OwnResources(u.nodes[xs[n]]) == OwnResources(s.nodes[xs[n]]);
      assert ResourcesOf(s.nodes, xs) == ResourcesOf(s.nodes, xs[..n]) + OwnResources(s.nodes[xs[n]]);
    }
  }

  /** The parent a run of removals leaves a node other than the root with. */
  function ParentAfterRemovals(g: Graph, root: NodeId, xs: seq<NodeId>, y: NodeId): Option<NodeId>
    requires y in g
  {
    if y in xs && g[y].parent == Some(root) then None else g[y].parent
  }

  lemma InPrefixOrLast<T>(xs: seq<T>, y: T)
    requires |xs| > 0
    ensures y in xs <==> y in xs[..|xs| - 1] || y == xs[|xs| - 1]
  {
    assert xs == xs[..|xs| - 1] + [xs[|xs| - 1]];
  }

  /** In a valid scene a run of removals detaches exactly the named nodes
      that were direct children of the root; every other node, nested meshes
      among them, keeps its parent. */
  lemma {:induction false} RemoveAllParents(s: SceneState, root: NodeId, xs: seq<NodeId>)
    requires ValidState(s, root) && forall x | x in xs :: x in s.nodes && x != root
    ensures forall y | y in s.nodes && y != root ::
              RemoveAll(s, root, xs).nodes[y].parent == ParentAfterRemovals(s.nodes, root, xs, y)
    decreases |xs|
  {
    if |xs| > 0 {
      var n := |xs| - 1;
      var u := RemoveAll(s, root, xs[..n]);
      RemoveAllParents(s, root, xs[..n]);
      var t := RemoveS(u, root, xs[n]);
      assert RemoveAll(s, root, xs) == t;
      ParentsStep(s.nodes, u.nodes, t.nodes, root, xs);
    }
  }

  /** One more removal after a run: the parents the run left, updated for
      the last node, are the parents the longer run leaves. */
  lemma ParentsStep(g: Graph, gu: Graph, gt: Graph, root: NodeId, xs: seq<NodeId>)
    requires |xs| > 0 && xs[|xs| - 1] in g && xs[|xs| - 1] in gu && xs[|xs| - 1] in gt
    requires forall y | y in g && y != root ::
               y in gu && gu[y].parent == ParentAfterRemovals(g, root, xs[..|xs| - 1], y)
    requires forall y | y in g && y != root && y != xs[|xs| - 1] :: y in gt && gt[y].parent == gu[y].parent
    requires var x := xs[|xs| - 1];
             gt[x].parent == (if gu[x].parent == Some(root) then None else gu[x].parent)
    ensures forall y | y in g && y != root :: gt[y].parent == ParentAfterRemovals(g, root, xs, y)
  {
    forall y | y in g && y != root
      ensures gt[y].parent == ParentAfterRemovals(g, root, xs, y)
    {
      InPrefixOrLast(xs, y);
    }
  }

  /** `clearScene`: collect every mesh but the floor from a traversal, remove
      and dispose each, and empty `walls`. */
  function ClearW(w: World, root: NodeId, floor: NodeId): (v: World)
    requires ValidWorld(w, root)
    ensures ValidWorld(v, root) && v.walls == []
    ensures v.scene.nodes.Keys == w.scene.nodes.Keys && v.scene.nextId == w.scene.nextId
  {
    var xs := Collect(w.scene.nodes, Preorder(w.scene.nodes, root), floor);
    World(RemoveAll(w.scene, root, xs), [])
  }

  /** A clear disposes the own resources of every collected mesh. */
  lemma ClearDisposes(w: World, root: NodeId, floor: NodeId)
    requires ValidWorld(w, root)
    ensures var g := w.scene.nodes;
            ClearW(w, root, floor).scene.disposed
              == w.scene.disposed + multiset(ResourcesOf(g, Collect(g, Preorder(g, root), floor)))
  {
    var g := w.scene.nodes;
    RemoveAllDisposes(w.scene, root, Collect(g, Preorder(g, root), floor));
  }

  /** Non-meshes (furniture groups among them) and the floor come out of a
      clear untouched. */
  lemma ClearKeepsUncollected(w: World, root: NodeId, floor: NodeId)
    requires ValidWorld(w, root)
    ensures var g := w.scene.nodes;
            forall y | y in g && y != root && (!g[y].isMesh || y == floor) ::
              ClearW(w, root, floor).scene.nodes[y] == g[y]
  {
    var g := w.scene.nodes;
    var xs := Collect(g, Preorder(g, root), floor);
    var t := RemoveAll(w.scene, root, xs);
    assert ClearW(w, root, floor).scene == t;
    RemoveAllKeepsFields(w.scene, root, xs);
    RemoveAllParents(w.scene, root, xs);
    UncollectedKept(g, t.nodes, root, xs, floor);
  }

  /** Map-level core of `ClearKeepsUncollected`: a node outside `xs` whose
      other fields are kept keeps its parent too, so it is kept whole. */
  lemma UncollectedKept(g: Graph, h: Graph, root: NodeId, xs: seq<NodeId>, floor: NodeId)
    requires h.Keys == g.Keys
    requires forall x | x in xs :: x in g && g[x].isMesh && x != floor
    requires forall y | y in g && y != root :: h[y] == g[y].(parent := h[y].parent)
    requires forall y | y in g && y != root :: h[y].parent == ParentAfterRemovals(g, root, xs, y)
    ensures forall y | y in g && y != root && (!g[y].isMesh || y == floor) :: h[y] == g[y]
  {
  }

  /** Every mesh but the floor that hangs directly under the root is in the
      clear's collection. */
  lemma DirectMeshesCollected(g: Graph, root: NodeId, floor: NodeId)
    requires WellFormed(g) && root in g
    ensures forall y | y in g && y != floor && g[y].isMesh && g[y].parent == Some(root) ::
              y in Collect(g, Preorder(g, root), floor)
  {
    forall y | y in g && y != floor && g[y].isMesh && g[y].parent == Some(root)
      ensures y in Preorder(g, root)
    {
      assert root in Chain(g, y) by { assert Chain(g, y) == [y] + Chain(g, root); }
      PreorderIsSubtree(g, root, y);
    }
  }

  /** A clear detaches the meshes hanging directly under the root (the walls,
      the wall preview) and leaves every nested node, the meshes of a
      furniture model among them, under its parent. */
  lemma ClearParents(w: World, root: NodeId, floor: NodeId)
    requires ValidWorld(w, root)
    ensures var g := w.scene.nodes;
            var v := ClearW(w, root, floor);
            && (forall y | y in g && y != floor && g[y].isMesh && g[y].parent == Some(root) ::
                  v.scene.nodes[y].parent.None?)
            && (forall y | y in g && g[y].parent.Some? && g[y].parent != Some(root) ::
                  v.scene.nodes[y].parent == g[y].parent)
  {
    var g := w.scene.nodes;
    var xs := Collect(g, Preorder(g, root), floor);
    var t := RemoveAll(w.scene, root, xs);
    assert ClearW(w, root, floor).scene == t;
    RemoveAllParents(w.scene, root, xs);
    DirectMeshesCollected(g, root, floor);
    ParentsAfterClear(g, t.nodes, root, xs, floor);
  }

  /** Map-level core of `ClearParents`. */
  lemma ParentsAfterClear(g: Graph, h: Graph, root: NodeId, xs: seq<NodeId>, floor: NodeId)
    requires h.Keys == g.Keys && root in g && g[root].parent.None?
    requires forall y | y in g && y != root :: h[y].parent == ParentAfterRemovals(g, root, xs, y)
    requires forall y | y in g && y != floor && g[y].isMesh && g[y].parent == Some(root) :: y in xs
    ensures forall y | y in g && y != floor && g[y].isMesh && g[y].parent == Some(root) ::
              h[y].parent.None?
    ensures forall y | y in g && g[y].parent.Some? && g[y].parent != Some(root) ::
              h[y].parent == g[y].parent
  {
  }

  /** `loadScene`: a failed fetch changes nothing; otherwise the scene is
      cleared and every record recreated in order. The version is not read. */
  function LoadSceneW(w: World, root: NodeId, floor: NodeId, response: Option<SceneData>,
                      loads: seq<AssetLoad>, viewOnly: bool): (v: World)
    requires ValidWorld(w, root)
    requires response.Some? ==> |loads| == |response.value.objects|
    ensures ValidWorld(v, root)
    ensures response.None? ==> v == w
  {
    match response
    case None => w
    case Some(d) => RestoreAll(ClearW(w, root, floor), root, d.objects, loads, viewOnly)
  }

  /** After a load, `walls` holds exactly one new wall per wall record. */
  lemma LoadSceneWalls(w: World, root: NodeId, floor: NodeId, d: SceneData,
                       loads: seq<AssetLoad>, viewOnly: bool)
    requires ValidWorld(w, root) && |loads| == |d.objects|
    ensures |LoadSceneW(w, root, floor, Some(d), loads, viewOnly).walls| == CountWalls(d.objects)
  {
    RestoreAllWalls(ClearW(w, root, floor), root, d.objects, loads, viewOnly);
  }

  /** The node record i of a load turns into: the next id once the scene is
      cleared and the records before it are recreated. */
  ghost function LoadedId(w: World, root: NodeId, floor: NodeId, rs: seq<Record>, loads: seq<AssetLoad>,
                          i: nat, viewOnly: bool): NodeId
    requires ValidWorld(w, root) && |loads| == |rs| && i <= |rs|
  {
    RestoreAll(ClearW(w, root, floor), root, rs[..i], loads[..i], viewOnly).scene.nextId
  }

  /** Every record of a loaded document that makes a model is carried by a
      fresh node of the loaded scene. */
  lemma LoadRecreatesEach(w: World, root: NodeId, floor: NodeId, d: SceneData, loads: seq<AssetLoad>,
                          i: nat, viewOnly: bool)
    requires ValidWorld(w, root) && |loads| == |d.objects| && i < |d.objects|
    requires MakesModel(d.objects[i], loads[i])
    ensures var id := LoadedId(w, root, floor, d.objects, loads, i, viewOnly);
            var v := LoadSceneW(w, root, floor, Some(d), loads, viewOnly);
            && id !in w.scene.nodes && id in v.scene.nodes
            && CarriesRecord(v.scene.nodes[id], d.objects[i], viewOnly)
  {
    RestoreAllRecreatesEach(ClearW(w, root, floor), root, d.objects, loads, i, viewOnly);
  }

  /** Saving a scene and loading the document back: the i-th saved node of
      the traversal comes back as a fresh node with its position, scale,
      rotation angles (in the default order) and userData (with
      `isInteractable` set from the view-only flag), whenever it is a wall,
      or a furniture kind a factory knows whose asset loads. */
  lemma SaveLoadRoundTrip(g: Graph, root: NodeId, w: World, floor: NodeId, loads: seq<AssetLoad>,
                          i: nat, viewOnly: bool)
    requires WellFormed(g) && root in g && ValidWorld(w, root)
    requires |loads| == |SaveDocument(g, root).objects|
    requires var saved := SavedNodes(g, Preorder(g, root));
             i < |saved| && i < |loads| &&
             var u := g[saved[i]].userData;
             u.isWall || (FactoryFor(u).Some? && loads[i].Loaded?)
    ensures var n := g[SavedNodes(g, Preorder(g, root))[i]];
            var d := SaveDocument(g, root);
            var id := LoadedId(w, root, floor, d.objects, loads, i, viewOnly);
            var v := LoadSceneW(w, root, floor, Some(d), loads, viewOnly);
            && id !in w.scene.nodes && id in v.scene.nodes
            && v.scene.nodes[id].position == n.position && v.scene.nodes[id].scale == n.scale
            && v.scene.nodes[id].rotation == Euler(n.rotation.x, n.rotation.y, n.rotation.z, DefaultOrder)
            && v.scene.nodes[id].userData == n.userData.(isInteractable := Some(!viewOnly))
  {
    var d := SaveDocument(g, root);
    RecordsFollowSavedNodes(g, Preorder(g, root));
    LoadRecreatesEach(w, root, floor, d, loads, i, viewOnly);
  }

  /** What a clear keeps, the non-mesh furniture groups among it, stays in
      the scene unchanged by the load that follows: a load of a saved scene
      puts the restored models beside the old groups rather than in their
      place. */
  lemma LoadKeepsUncollected(w: World, root: NodeId, floor: NodeId, d: SceneData, loads: seq<AssetLoad>,
                             viewOnly: bool)
    requires ValidWorld(w, root) && |loads| == |d.objects|
    ensures var g := w.scene.nodes;
            var v := LoadSceneW(w, root, floor, Some(d), loads, viewOnly);
            forall y | y in g && y != root && (!g[y].isMesh || y == floor) ::
              y in v.scene.nodes && v.scene.nodes[y] == g[y]
  {
    var c := ClearW(w, root, floor);
    ClearKeepsUncollected(w, root, floor);
    RestoreAllKeepsPrefix(c, root, d.objects, loads, 0, |d.objects|, viewOnly);
    Prefixes(d.objects, 0);
    Prefixes(loads, 0);
  }

  /** A document of any version loads like a version 2 document. */
  lemma LoadIgnoresVersion(w: World, root: NodeId, floor: NodeId, objects: seq<Record>, version: int,
                           loads: seq<AssetLoad>, viewOnly: bool)
    requires ValidWorld(w, root) && |loads| == |objects|
    ensures LoadSceneW(w, root, floor, Some(SceneData(objects, version)), loads, viewOnly)
            == LoadSceneW(w, root, floor, Some(SceneData(objects, SceneVersion)), loads, viewOnly)
  {
  }
}
