/** Door bookkeeping: a door is a mesh hung under the wall it is placed on,
    positioned in that wall's own frame, tagged with the wall's id and listed
    in the wall's `openings`; a translucent preview door follows the pointer
    over walls. */
module Doors {
  import opened SceneGraph
  import opened PointerRules

  /** The userData `createDoor` gives a door on `wall`. */
  function DoorTags(wall: NodeId): (u: UserData)
    ensures u.isDoor && u.parentWallId == Some(wall) && u.isInteractable == Some(true)
    ensures !Has(u, MovableOrWall) && !Has(u, WallOrFurniture)
  {
    NoTags.(isDoor := true, parentWallId := Some(wall), isInteractable := Some(true))
  }

  /** `createDoor`: a fresh mesh added under `wall`, then placed at `local`
      in the wall's frame and given the door tags. */
  function CreateDoorS(s: SceneState, root: NodeId, wall: NodeId, local: Vec3): (t: SceneState)
    requires Issued(s) && wall in s.nodes
    ensures t.nextId == s.nextId + 1 && t.nodes.Keys == s.nodes.Keys + {s.nextId}
    ensures t.nodes[s.nextId].parent == Some(wall) && t.nodes[s.nextId].userData.parentWallId == Some(wall)
  {
    var s1 := CreateS(s, root, Some(wall), NewMesh(s.nextId));
    PutS(s1, root, s.nextId, s1.nodes[s.nextId].(position := local, userData := DoorTags(wall)))
  }

  /** A new door is the wall's last child, sits at the given local position,
      carries the door tags with the wall's id, and is the only new node;
      apart from the wall's child list nothing else changes. */
  lemma CreateDoorEffect(s: SceneState, root: NodeId, wall: NodeId, local: Vec3)
    requires ValidState(s, root) && wall in s.nodes
    ensures var t := CreateDoorS(s, root, wall, local);
            var d := s.nextId;
            && ValidState(t, root)
            && d !in s.nodes && t.nodes.Keys == s.nodes.Keys + {d}
            && t.nextId == s.nextId + 1 && t.disposed == s.disposed
            && t.nodes[d].parent == Some(wall) && t.nodes[d].children == [] && t.nodes[d].isMesh
            && t.nodes[d].position == local
            && t.nodes[d].userData.isDoor && t.nodes[d].userData.parentWallId == Some(wall)
            && t.nodes[d].userData.isInteractable == Some(true)
            && t.nodes[wall] == s.nodes[wall].(children := s.nodes[wall].children + [d])
            && (forall x | x in s.nodes && x != wall :: t.nodes[x] == s.nodes[x])
  {
    var s1 := CreateS(s, root, Some(wall), NewMesh(s.nextId));
    assert s.nextId != root;
    assert SameLinks(s1.nodes[s.nextId], s1.nodes[s.nextId].(position := local, userData := DoorTags(wall)));
  }

  /** `wall.userData.openings = wall.userData.openings || []` followed by
      `push(door)`. */
  function WithOpening(u: UserData, door: NodeId): (v: UserData)
    ensures v == u.(openings := v.openings) && v.openings.Some?
    ensures v.openings.value == u.openings.GetOr([]) + [door]
  {
    u.(openings := Some(u.openings.GetOr([]) + [door]))
  }

  /** `placeDoor`, given the hits of a raycast over the walls and the first
      hit's point in its object's frame: with a hit, a door is created on
      the object hit and appended to its openings. */
  function PlaceDoorS(s: SceneState, root: NodeId, hits: seq<Hit>, local: Vec3): (t: SceneState)
    requires Issued(s) && HitsIn(s.nodes, hits)
    ensures |hits| == 0 ==> t == s
    ensures |hits| > 0 ==> t.nextId == s.nextId + 1 && t.nodes.Keys == s.nodes.Keys + {s.nextId}
  {
    if |hits| == 0 then s
    else
      var wall := hits[0].node;
      var t := CreateDoorS(s, root, wall, local);
      assert wall in t.nodes;
      PutS(t, root, wall, t.nodes[wall].(userData := WithOpening(t.nodes[wall].userData, s.nextId)))
  }

  /** Placing a door: without a hit nothing changes; with one, the wall hit
      gains the new door as its last child and its last opening, the door
      sits at the local point with the door tags, and every other node is
      unchanged. */
  lemma PlaceDoorEffect(s: SceneState, root: NodeId, hits: seq<Hit>, local: Vec3)
    requires ValidState(s, root) && HitsIn(s.nodes, hits)
    requires |hits| > 0 ==> hits[0].node != root
    ensures |hits| == 0 ==> PlaceDoorS(s, root, hits, local) == s
    ensures |hits| > 0 ==>
              var t := PlaceDoorS(s, root, hits, local);
              var wall := hits[0].node;
              var d := s.nextId;
              && ValidState(t, root)
              && t.nodes.Keys == s.nodes.Keys + {d}
              && t.nodes[wall] == s.nodes[wall].(children := s.nodes[wall].children + [d],
                                                 userData := WithOpening(s.nodes[wall].userData, d))
              && t.nodes[wall].userData.openings == Some(s.nodes[wall].userData.openings.GetOr([]) + [d])
              && t.nodes[d].parent == Some(wall) && t.nodes[d].position == local
              && t.nodes[d].userData == DoorTags(wall)
              && (forall x | x in s.nodes && x != wall :: t.nodes[x] == s.nodes[x])
  {
    if |hits| > 0 {
      CreateDoorEffect(s, root, hits[0].node, local);
    }
  }

  /** Two doors placed on the same wall are listed in the order they were
      placed, after the openings the wall already had. */
  lemma OpeningsAccumulate(s: SceneState, root: NodeId, hits1: seq<Hit>, hits2: seq<Hit>,
                           local1: Vec3, local2: Vec3)
    requires ValidState(s, root) && HitsIn(s.nodes, hits1) && HitsIn(s.nodes, hits2)
    requires |hits1| > 0 && |hits2| > 0 && hits1[0].node == hits2[0].node != root
    ensures var t := PlaceDoorS(s, root, hits1, local1);
            HitsIn(t.nodes, hits2)
            && var u := PlaceDoorS(t, root, hits2, local2);
            var wall := hits1[0].node;
            u.nodes[wall].userData.openings
              == Some(s.nodes[wall].userData.openings.GetOr([]) + [s.nextId] + [s.nextId + 1])
  {
    var wall := hits1[0].node;
    var before := s.nodes[wall].userData.openings.GetOr([]);
    var t := PlaceDoorS(s, root, hits1, local1);
    PlaceDoorOpenings(s, root, hits1, local1);
    assert t.nodes[wall].userData.openings.GetOr([]) == before + [s.nextId];
    PlaceDoorOpenings(t, root, hits2, local2);
  }

  /** The openings part of `PlaceDoorEffect`, kept apart for chaining. */
  lemma PlaceDoorOpenings(s: SceneState, root: NodeId, hits: seq<Hit>, local: Vec3)
    requires ValidState(s, root) && HitsIn(s.nodes, hits) && |hits| > 0 && hits[0].node != root
    ensures var t := PlaceDoorS(s, root, hits, local);
            && ValidState(t, root) && t.nextId == s.nextId + 1 && t.nodes.Keys == s.nodes.Keys + {s.nextId}
            && t.nodes[hits[0].node].userData.openings
                 == Some(s.nodes[hits[0].node].userData.openings.GetOr([]) + [s.nextId])
  {
    PlaceDoorEffect(s, root, hits, local);
    CreateDoorEffect(s, root, hits[0].node, local);
  }

  /** `createDoorFromSave`: a door whose rotation is then copied from the save. */
  function DoorFromSaveS(s: SceneState, root: NodeId, wall: NodeId, position: Vec3, rotation: Euler): (t: SceneState)
    requires Issued(s) && wall in s.nodes
    ensures t.nextId == s.nextId + 1 && t.nodes.Keys == s.nodes.Keys + {s.nextId}
    ensures t.nodes[s.nextId].rotation == rotation && t.nodes[s.nextId].position == position
  {
    var t := CreateDoorS(s, root, wall, position);
    assert s.nextId in t.nodes;
    PutS(t, root, s.nextId, t.nodes[s.nextId].(rotation := rotation))
  }

  /** `createDoorFromData`: a door at the array's local position, its
      rotation angles set (keeping its rotation order), and its position set
      again from the same array. */
  function DoorFromDataS(s: SceneState, root: NodeId, wall: NodeId, local: Vec3, angles: Vec3): (t: SceneState)
    requires Issued(s) && wall in s.nodes
    ensures t.nextId == s.nextId + 1 && t.nodes.Keys == s.nodes.Keys + {s.nextId}
    ensures t.nodes[s.nextId].position == local
    ensures t.nodes[s.nextId].rotation == Euler(angles.x, angles.y, angles.z, DefaultOrder)
  {
    var t := CreateDoorS(s, root, wall, local);
    assert s.nextId in t.nodes;
    var n := t.nodes[s.nextId];
    var t1 := PutS(t, root, s.nextId, n.(rotation := Euler(angles.x, angles.y, angles.z, n.rotation.order)));
    PutS(t1, root, s.nextId, t1.nodes[s.nextId].(position := local))
  }

  /** A restored door hangs under its wall at the saved local position with
      the saved angles and the default rotation order; `createDoorFromSave`
      copies the whole saved rotation instead. */
  lemma RestoredDoorsEffect(s: SceneState, root: NodeId, wall: NodeId, local: Vec3, angles: Vec3, rotation: Euler)
    requires ValidState(s, root) && wall in s.nodes
    ensures var t := DoorFromDataS(s, root, wall, local, angles);
            var d := t.nodes[s.nextId];
            && ValidState(t, root)
            && d.parent == Some(wall) && d.position == local
            && d.rotation == Euler(angles.x, angles.y, angles.z, DefaultOrder)
            && d.userData == DoorTags(wall)
            && t.nodes[wall].children == s.nodes[wall].children + [s.nextId]
    ensures var t := DoorFromSaveS(s, root, wall, local, rotation);
            var d := t.nodes[s.nextId];
            && ValidState(t, root)
            && d.parent == Some(wall) && d.position == local && d.rotation == rotation
            && d.userData == DoorTags(wall)
  {
    CreateDoorEffect(s, root, wall, local);
  }

  /** `updatePreview`, given the hits of a raycast over the walls: with no
      hit the preview is hidden; when the first object hit is a wall the
      preview moves to the hit point, takes the wall's orientation and is
      shown; any other first hit leaves it as it was. */
  function DoorPreview(g: Graph, preview: NodeId, hits: seq<Hit>): (h: Graph)
    requires preview in g && HitsIn(g, hits)
    ensures h.Keys == g.Keys && preview in h
    ensures h[preview].visible <==> |hits| > 0 && (g[hits[0].node].userData.isWall || g[preview].visible)
  {
    if |hits| == 0 then g[preview := g[preview].(visible := false)]
    else if g[hits[0].node].userData.isWall then
      g[preview := g[preview].(position := hits[0].point, rotation := g[hits[0].node].rotation, visible := true)]
    else g
  }

  /** The preview is shown exactly when the first hit is a wall, and then
      sits at the hit point with the wall's rotation; it is hidden, and
      otherwise left as it was, when nothing is hit; no other field of the
      preview and no other node ever changes. */
  lemma DoorPreviewSpec(g: Graph, preview: NodeId, hits: seq<Hit>)
    requires preview in g && HitsIn(g, hits)
    ensures var h := DoorPreview(g, preview, hits);
            && SameShape(g, h) && (forall x | x in g && x != preview :: h[x] == g[x])
            && (|hits| == 0 ==> h[preview] == g[preview].(visible := false))
            && (|hits| > 0 && g[hits[0].node].userData.isWall ==>
                  h[preview] == g[preview].(position := hits[0].point,
                                            rotation := g[hits[0].node].rotation, visible := true))
            && (|hits| > 0 && !g[hits[0].node].userData.isWall ==> h == g)
  {
  }

  /** `createPreviewDoor`: a hidden mesh added to the scene. */
  method CreatePreviewDoor(scene: Scene) returns (door: NodeId)
    requires scene.Valid()
    modifies scene
    ensures scene.Valid() && door == old(scene.nextId) && door != scene.root
    ensures scene.State() == CreateS(old(scene.State()), scene.root, Some(scene.root), NewMesh(door).(visible := false))
  {
    door := scene.Create(Some(scene.root), NewMesh(scene.nextId).(visible := false));
  }

  class DoorManager {
    const scene: Scene
    const previewDoor: NodeId
    var isPlacementMode: bool

    ghost predicate Valid()
      reads this, scene
    {
      scene.Valid() && previewDoor in scene.nodes && previewDoor != scene.root
    }

    /** Placement mode off and a hidden preview door in the scene. */
    constructor (scene: Scene)
      requires scene.Valid()
      modifies scene
      ensures Valid() && this.scene == scene && !isPlacementMode && previewDoor == old(scene.nextId)
      ensures scene.State() == CreateS(old(scene.State()), scene.root, Some(scene.root),
                                       NewMesh(previewDoor).(visible := false))
    {
      this.scene := scene;
      isPlacementMode := false;
      var door := CreatePreviewDoor(scene);
      previewDoor := door;
    }

    /** `updatePreview`. */
    method UpdatePreview(hits: seq<Hit>)
      requires Valid() && HitsIn(scene.nodes, hits)
      modifies scene
      ensures Valid()
      ensures scene.State() == old(scene.State()).(nodes := DoorPreview(old(scene.nodes), previewDoor, hits))
    {
      var n := scene.nodes[previewDoor];
      if |hits| > 0 {
        var wall := hits[0].node;
        if scene.nodes[wall].userData.isWall {
          scene.Put(previewDoor, n.(position := hits[0].point, rotation := scene.nodes[wall].rotation, visible := true));
        }
      } else {
        scene.Put(previewDoor, n.(visible := false));
      }
    }

    /** `placeDoor`; `local` is the first hit's point in the frame of the
      object hit. */
    method PlaceDoor(hits: seq<Hit>, local: Vec3)
      requires Valid() && HitsIn(scene.nodes, hits)
      requires |hits| > 0 ==> hits[0].node != scene.root
      modifies scene
      ensures Valid()
      ensures scene.State() == PlaceDoorS(old(scene.State()), scene.root, hits, local)
    {
      if |hits| > 0 {
        var wall := hits[0].node;
        var door := CreateDoor(wall, local);
        var n := scene.nodes[wall];
        scene.Put(wall, n.(userData := WithOpening(n.userData, door)));
      }
    }

    /** `createDoor`. */
    method CreateDoor(parentWall: NodeId, localPosition: Vec3) returns (door: NodeId)
      requires Valid() && parentWall in scene.nodes
      modifies scene
      ensures Valid() && door == old(scene.nextId)
      ensures scene.State() == CreateDoorS(old(scene.State()), scene.root, parentWall, localPosition)
    {
      door := scene.Create(Some(parentWall), NewMesh(scene.nextId));
      var n := scene.nodes[door];
      scene.Put(door, n.(position := localPosition, userData := DoorTags(parentWall)));
    }

    /** `createDoorFromSave`. */
    method CreateDoorFromSave(wall: NodeId, position: Vec3, rotation: Euler) returns (door: NodeId)
      requires Valid() && wall in scene.nodes
      modifies scene
      ensures Valid() && door == old(scene.nextId)
      ensures scene.State() == DoorFromSaveS(old(scene.State()), scene.root, wall, position, rotation)
    {
      door := CreateDoor(wall, position);
      scene.Put(door, scene.nodes[door].(rotation := rotation));
    }

    /** `createDoorFromData`: the local position comes from the first three
      entries of `positionArray`. */
    method CreateDoorFromData(positionArray: seq<real>, rotationData: Vec3, parentWall: NodeId) returns (door: NodeId)
      requires Valid() && parentWall in scene.nodes && |positionArray| >= 3
      modifies scene
      ensures Valid() && door == old(scene.nextId)
      ensures scene.State() == DoorFromDataS(old(scene.State()), scene.root, parentWall,
                                             Vec3(positionArray[0], positionArray[1], positionArray[2]), rotationData)
    {
      var localPosition := Vec3(positionArray[0], positionArray[1], positionArray[2]);
      door := CreateDoor(parentWall, localPosition);
      var n := scene.nodes[door];
      scene.Put(door, n.(rotation := Euler(rotationData.x, rotationData.y, rotationData.z, n.rotation.order)));
      scene.Put(door, scene.nodes[door].(position := localPosition));
    }
  }
}
