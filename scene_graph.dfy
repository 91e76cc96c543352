/** The scene graph every manager of the editor works on: three.js Object3D
    nodes reduced to the fields the editing engine reads and writes.

    Nodes live in a map from id to record. A node that `remove` detaches stays
    in the map (the JavaScript object outlives its place in the scene), it
    merely loses its parent. GPU resources are named after the mesh that owns
    them, so a geometry or material is never shared between two nodes. */
module SceneGraph {

  datatype Option<+T> = None | Some(value: T) {
    function GetOr(default: T): T { if Some? then value else default }
  }

  type NodeId = nat

  /** A geometry or material buffer, named after its owning mesh. */
  datatype ResId = Geometry(owner: NodeId) | Material(owner: NodeId, slot: nat)

  datatype Vec3 = Vec3(x: real, y: real, z: real) {
    function Plus(o: Vec3): Vec3 { Vec3(x + o.x, y + o.y, z + o.z) }
    function Minus(o: Vec3): Vec3 { Vec3(x - o.x, y - o.y, z - o.z) }
  }

  const Origin := Vec3(0.0, 0.0, 0.0)
  const UnitScale := Vec3(1.0, 1.0, 1.0)

  /** Euler angles in radians with their axis order, as three.js keeps them. */
  datatype Euler = Euler(x: real, y: real, z: real, order: string)

  const DefaultOrder := "XYZ"
  const NoRotation := Euler(0.0, 0.0, 0.0, DefaultOrder)

  /** The colour the engine paints a mesh's materials with, if any. */
  datatype Color = Original | Red | Green

  /** The keys of `userData` the engine reads or writes. An absent boolean key
      reads as false, an absent value key as None. */
  datatype UserData = UserData(
    isMovable: bool,
    isRotatable: bool,
    isWall: bool,
    isChair: bool,
    isFurniture: bool,
    isSofa: bool,
    isTable: bool,
    isBooked: bool,
    bookingTime: Option<string>,
    isDoor: bool,
    parentWallId: Option<NodeId>,
    openings: Option<seq<NodeId>>,
    isInteractable: Option<bool>)

  const NoTags := UserData(false, false, false, false, false, false, false,
                           false, None, false, None, None, None)

  datatype Node = Node(
    parent: Option<NodeId>,
    children: seq<NodeId>,
    isMesh: bool,
    geometry: Option<ResId>,
    materials: seq<ResId>,
    position: Vec3,
    rotation: Euler,
    scale: Vec3,
    userData: UserData,
    visible: bool,
    color: Color)

  /** A fresh, empty Object3D/Group. */
  function NewGroup(): Node {
    Node(None, [], false, None, [], Origin, NoRotation, UnitScale, NoTags, true, Original)
  }

  /** A fresh mesh with its own geometry and one material. */
  function NewMesh(id: NodeId): Node {
    Node(None, [], true, Some(Geometry(id)), [Material(id, 0)], Origin, NoRotation,
         UnitScale, NoTags, true, Original)
  }

  /** What `geometry.dispose()` and `material.dispose()` release for one node. */
  function OwnResources(n: Node): (rs: seq<ResId>)
    ensures forall r | r in rs :: r == n.geometry.GetOr(r) || r in n.materials
    ensures |rs| == |n.materials| + (if n.geometry.Some? then 1 else 0)
  {
    (if n.geometry.Some? then [n.geometry.value] else []) + n.materials
  }

  /** The tag tests the ancestor walks of the editor look for. */
  datatype Capability =
    | Movable             // isMovable
    | MovableOrFurniture  // isMovable || isChair || isFurniture
    | Bookable            // isChair || isFurniture
    | MovableOrWall       // isMovable || isWall
    | WallOrFurniture     // isWall || isChair || isFurniture

  predicate Has(u: UserData, c: Capability) {
    match c
    case Movable => u.isMovable
    case MovableOrFurniture => u.isMovable || u.isChair || u.isFurniture
    case Bookable => u.isChair || u.isFurniture
    case MovableOrWall => u.isMovable || u.isWall
    case WallOrFurniture => u.isWall || u.isChair || u.isFurniture
  }

  // ---------------------------------------------------------------------------
  // Sequences

  predicate NoDup<T(==)>(s: seq<T>) {
    forall i, j | 0 <= i < j < |s| :: s[i] != s[j]
  }

  /** The prefixes a left-to-right loop over `s` goes through. */
  lemma Prefixes<T>(s: seq<T>, i: nat)
    requires i <= |s|
    ensures s[..|s|] == s
    ensures i < |s| ==> s[..i + 1][..i] == s[..i]
  {
  }

  /** `Array.prototype.indexOf`. */
  function IndexOf<T(==)>(s: seq<T>, x: T): (i: int)
    ensures -1 <= i < |s|
    ensures i >= 0 ==> s[i] == x && x !in s[..i]
    ensures i < 0 <==> x !in s
  {
    if |s| == 0 then -1
    else if s[0] == x then 0
    else
      var k := IndexOf(s[1..], x);
      if k < 0 then -1
      else
        assert s[..k + 1] == [s[0]] + s[1..][..k];
        k + 1
  }

  /** `splice(i, 1)`. */
  function RemoveAt<T>(s: seq<T>, i: nat): (r: seq<T>)
    requires i < |s|
    ensures |r| == |s| - 1
  {
    s[..i] + s[i + 1..]
  }

  /** `filter(e => e !== x)`. */
  function FilterOut<T(==)>(s: seq<T>, x: T): (r: seq<T>)
    ensures x !in r && |r| <= |s|
    ensures forall e | e in s && e != x :: e in r
    ensures forall e | e in r :: e in s
  {
    if |s| == 0 then []
    else if s[0] == x then FilterOut(s[1..], x)
    else [s[0]] + FilterOut(s[1..], x)
  }

  /** On a sequence without duplicates, splicing out the first occurrence of
      `x` (the split editor's wall removal) is the same as filtering `x` out
      (the wired editor's wall removal). */
  lemma {:induction false} SpliceIsFilter<T>(s: seq<T>, x: T)
    requires NoDup(s) && x in s
    ensures RemoveAt(s, IndexOf(s, x)) == FilterOut(s, x)
  {
    if s[0] == x {
      NotInIsFilterIdentity(s[1..], x);
    } else {
      assert NoDup(s[1..]) by {
        forall i, j | 0 <= i < j < |s[1..]| ensures s[1..][i] != s[1..][j] {
          assert s[1..][i] == s[i + 1] && s[1..][j] == s[j + 1];
        }
      }
      SpliceIsFilter(s[1..], x);
      var k := IndexOf(s[1..], x);
      assert IndexOf(s, x) == k + 1;
      assert RemoveAt(s, k + 1) == [s[0]] + RemoveAt(s[1..], k);
    }
  }

  lemma {:induction false} NotInIsFilterIdentity<T>(s: seq<T>, x: T)
    requires NoDup(s) && x !in s
    ensures FilterOut(s, x) == s
  {
    if |s| > 0 {
      assert NoDup(s[1..]) by {
        forall i, j | 0 <= i < j < |s[1..]| ensures s[1..][i] != s[1..][j] {
          assert s[1..][i] == s[i + 1] && s[1..][j] == s[j + 1];
        }
      }
      NotInIsFilterIdentity(s[1..], x);
      assert s == [s[0]] + s[1..];
    }
  }

  // ---------------------------------------------------------------------------
  // Well-formed graphs

  type Graph = map<NodeId, Node>

  /** Parent and child pointers agree, and no node lists a child twice. */
  ghost predicate Linked(g: Graph) {
    ParentsLinked(g) && ChildrenLinked(g) && ChildrenDistinct(g)
  }

  ghost predicate ParentsLinked(g: Graph) {
    forall id {:trigger g[id].parent} | id in g && g[id].parent.Some? ::
      g[id].parent.value in g && id in g[g[id].parent.value].children
  }

  ghost predicate ChildrenLinked(g: Graph) {
    forall id, c {:trigger c in g[id].children} | id in g && c in g[id].children ::
      c in g && g[c].parent == Some(id)
  }

  ghost predicate ChildrenDistinct(g: Graph) {
    forall id | id in g :: NoDup(g[id].children)
  }

  /** `r` ranks every node below the number of nodes and every parent below
      its children: the parent chains are acyclic. */
  ghost predicate RankedBy(g: Graph, r: map<NodeId, nat>) {
    && (forall id | id in g :: id in r && r[id] < |g|)
    && (forall id {:trigger g[id].parent} | id in g && g[id].parent.Some? ::
          g[id].parent.value in r && r[g[id].parent.value] < r[id])
  }

  ghost predicate WellFormed(g: Graph) {
    Linked(g) && exists r :: RankedBy(g, r)
  }

  ghost function RankOf(g: Graph): (r: map<NodeId, nat>)
    requires exists r :: RankedBy(g, r)
    ensures RankedBy(g, r)
  {
    var r :| RankedBy(g, r); r
  }

  ghost function Rank(g: Graph, id: NodeId): nat
    requires WellFormed(g) && id in g
  {
    RankOf(g)[id]
  }

  /** The node and its ancestors, nearest first: the nodes a `while (current)
      { ...; current = current.parent }` loop visits. */
  ghost function Chain(g: Graph, id: NodeId): (ch: seq<NodeId>)
    requires WellFormed(g) && id in g
    ensures |ch| >= 1 && ch[0] == id
    ensures forall x | x in ch :: x in g
    decreases Rank(g, id)
  {
    match g[id].parent
    case None => [id]
    case Some(p) => [id] + Chain(g, p)
  }

  /** No node of `s` carries capability `c`. */
  ghost predicate NoneHas(g: Graph, s: seq<NodeId>, c: Capability) {
    forall j | 0 <= j < |s| && s[j] in g :: !Has(g[s[j]].userData, c)
  }

  /** The nearest ancestor-or-self of `id` that carries `c`. */
  ghost function Nearest(g: Graph, id: NodeId, c: Capability): (r: Option<NodeId>)
    requires WellFormed(g) && id in g
    ensures r.None? <==> NoneHas(g, Chain(g, id), c)
    ensures r.Some? ==> r.value in g && Has(g[r.value].userData, c)
    ensures r.Some? ==> exists k | 0 <= k < |Chain(g, id)| ::
              Chain(g, id)[k] == r.value && NoneHas(g, Chain(g, id)[..k], c)
    decreases Rank(g, id)
  {
    if Has(g[id].userData, c) then
      assert Chain(g, id)[0] == id && Chain(g, id)[..0] == [];
      Some(id)
    else
      match g[id].parent
      case None => None
      case Some(p) =>
        var r := Nearest(g, p, c);
        var ch := Chain(g, id);
        assert ch == [id] + Chain(g, p);
        if r.Some? then
          var k :| 0 <= k < |Chain(g, p)| && Chain(g, p)[k] == r.value
                   && NoneHas(g, Chain(g, p)[..k], c);
          assert ch[..k + 1] == [id] + Chain(g, p)[..k];
          assert ch[k + 1] == r.value;
          r
        else
          r
  }

  lemma {:induction false} ChainSuffix(g: Graph, x: NodeId, j: nat)
    requires WellFormed(g) && x in g && j < |Chain(g, x)|
    ensures Chain(g, x)[j] in g && Chain(g, x)[j..] == Chain(g, Chain(g, x)[j])
    decreases j
  {
    if j > 0 {
      var p := g[x].parent.value;
      assert Chain(g, x) == [x] + Chain(g, p);
      ChainSuffix(g, p, j - 1);
      assert Chain(g, x)[j..] == Chain(g, p)[j - 1..];
    }
  }

  /** A three.js `traverse`: the node, then each child's traversal in order. */
  function Preorder(g: Graph, id: NodeId): (r: seq<NodeId>)
    requires WellFormed(g) && id in g
    ensures |r| >= 1 && r[0] == id
    ensures forall x | x in r :: x in g
    decreases |g| - Rank(g, id), |g[id].children| + 1
  {
    [id] + Forest(g, id, 0)
  }

  function Forest(g: Graph, id: NodeId, i: nat): (r: seq<NodeId>)
    requires WellFormed(g) && id in g && i <= |g[id].children|
    ensures forall x | x in r :: x in g
    decreases |g| - Rank(g, id), |g[id].children| - i
  {
    if i == |g[id].children| then []
    else
      var c := g[id].children[i];
      assert c in g[id].children;
      Preorder(g, c) + Forest(g, id, i + 1)
  }

  lemma {:induction false} ForestContains(g: Graph, id: NodeId, i: nat, j: nat, x: NodeId)
    requires WellFormed(g) && id in g && i <= j < |g[id].children|
    requires g[id].children[j] in g && x in Preorder(g, g[id].children[j])
    ensures x in Forest(g, id, i)
    decreases j - i
  {
    if i < j {
      ForestContains(g, id, i + 1, j, x);
    }
  }

  lemma {:induction false} PreorderOnlyDescendants(g: Graph, top: NodeId, x: NodeId)
    requires WellFormed(g) && top in g && x in Preorder(g, top)
    ensures x in g && top in Chain(g, x)
    decreases |g| - Rank(g, top), |g[top].children| + 1
  {
    if x != top {
      ForestOnlyDescendants(g, top, 0, x);
    }
  }

  lemma {:induction false} ForestOnlyDescendants(g: Graph, top: NodeId, i: nat, x: NodeId)
    requires WellFormed(g) && top in g && i <= |g[top].children| && x in Forest(g, top, i)
    ensures x in g && top in Chain(g, x)
    decreases |g| - Rank(g, top), |g[top].children| - i
  {
    var c := g[top].children[i];
    assert c in g[top].children;
    if x in Preorder(g, c) {
      PreorderOnlyDescendants(g, c, x);
      var k :| 0 <= k < |Chain(g, x)| && Chain(g, x)[k] == c;
      ChainSuffix(g, x, k);
      assert Chain(g, c) == [c] + Chain(g, top);
      assert Chain(g, x)[k + 1] == top;
    } else {
      ForestOnlyDescendants(g, top, i + 1, x);
    }
  }

  lemma {:induction false} DescendantsInPreorder(g: Graph, top: NodeId, x: NodeId)
    requires WellFormed(g) && top in g && x in g && top in Chain(g, x)
    ensures x in Preorder(g, top)
    decreases |g| - Rank(g, top)
  {
    var ch := Chain(g, x);
    var k :| 0 <= k < |ch| && ch[k] == top;
    if k > 0 {
      var c := ch[k - 1];
      ChainSuffix(g, x, k - 1);
      assert Chain(g, c) == ch[k - 1..];
      assert Chain(g, c)[1] == top;
      assert g[c].parent == Some(top);
      var j :| 0 <= j < |g[top].children| && g[top].children[j] == c;
      DescendantsInPreorder(g, c, x);
      ForestContains(g, top, 0, j, x);
    }
  }

  /** A traversal from `top` visits exactly the nodes that have `top` as an
      ancestor-or-self. */
  lemma PreorderIsSubtree(g: Graph, top: NodeId, x: NodeId)
    requires WellFormed(g) && top in g && x in g
    ensures x in Preorder(g, top) <==> top in Chain(g, x)
  {
    if x in Preorder(g, top) {
      PreorderOnlyDescendants(g, top, x);
    }
    if top in Chain(g, x) {
      DescendantsInPreorder(g, top, x);
    }
  }

  // ---------------------------------------------------------------------------
  // Graph edits

  predicate SameLinks(a: Node, b: Node) {
    a.parent == b.parent && a.children == b.children
  }

  /** Two graphs over the same nodes with the same parent/child pointers. */
  ghost predicate SameShape(g: Graph, h: Graph) {
    g.Keys == h.Keys && forall id | id in g :: SameLinks(g[id], h[id])
  }

  lemma SameShapeWellFormed(g: Graph, h: Graph)
    requires WellFormed(g) && SameShape(g, h)
    ensures WellFormed(h)
  {
    assert |g| == |h| by { assert g.Keys == h.Keys; }
    assert RankedBy(h, RankOf(g));
  }

  lemma {:induction false} SameShapeChain(g: Graph, h: Graph, x: NodeId)
    requires WellFormed(g) && SameShape(g, h) && x in g
    ensures WellFormed(h) && Chain(h, x) == Chain(g, x)
    decreases Rank(g, x)
  {
    SameShapeWellFormed(g, h);
    if g[x].parent.Some? {
      SameShapeChain(g, h, g[x].parent.value);
    }
  }

  /** Nearest depends only on the shape and on the tested capability. */
  lemma {:induction false} SameShapeNearest(g: Graph, h: Graph, x: NodeId, c: Capability)
    requires WellFormed(g) && SameShape(g, h) && x in g
    requires forall id | id in g :: Has(g[id].userData, c) == Has(h[id].userData, c)
    ensures WellFormed(h) && Nearest(h, x, c) == Nearest(g, x, c)
    decreases Rank(g, x)
  {
    SameShapeWellFormed(g, h);
    if !Has(g[x].userData, c) && g[x].parent.Some? {
      SameShapeNearest(g, h, g[x].parent.value, c);
    }
  }

  /** `parent.add(node)` for a node created just now, or the node alone when
      there is no parent: the node gets the next id. */
  function AttachNew(g: Graph, id: NodeId, parent: Option<NodeId>, n: Node): (h: Graph)
    requires id !in g && (parent.Some? ==> parent.value in g)
    ensures h.Keys == g.Keys + {id}
    ensures h[id] == n.(parent := parent, children := [])
    ensures forall x | x in g && Some(x) != parent :: h[x] == g[x]
    ensures parent.Some? ==>
              h[parent.value] == g[parent.value].(children := g[parent.value].children + [id])
  {
    var leaf := n.(parent := parent, children := []);
    if parent.None? then g[id := leaf]
    else g[id := leaf][parent.value := g[parent.value].(children := g[parent.value].children + [id])]
  }

  lemma AttachNewWellFormed(g: Graph, id: NodeId, parent: Option<NodeId>, n: Node)
    requires WellFormed(g) && id !in g && (parent.Some? ==> parent.value in g)
    ensures WellFormed(AttachNew(g, id, parent, n))
  {
    var h := AttachNew(g, id, parent, n);
    AttachNewRanked(g, id, parent, n);
    AttachNewParents(g, id, parent, n);
    AttachNewChildren(g, id, parent, n);
    AttachNewDistinct(g, id, parent, n);
  }

  lemma AttachNewRanked(g: Graph, id: NodeId, parent: Option<NodeId>, n: Node)
    requires ParentsLinked(g) && (exists r :: RankedBy(g, r)) && id !in g && (parent.Some? ==> parent.value in g)
    ensures exists r :: RankedBy(AttachNew(g, id, parent, n), r)
  {
    var r := RankOf(g);
    var r' := r[id := if parent.Some? then r[parent.value] + 1 else 0];
    AttachNewRankedBy(g, r, id, parent, n);
    assert RankedBy(AttachNew(g, id, parent, n), r');
  }

  /** The new node ranks one above its parent; every other rank is kept. */
  lemma AttachNewRankedBy(g: Graph, r: map<NodeId, nat>, id: NodeId, parent: Option<NodeId>, n: Node)
    requires ParentsLinked(g) && RankedBy(g, r) && id !in g && (parent.Some? ==> parent.value in g)
    ensures RankedBy(AttachNew(g, id, parent, n), r[id := if parent.Some? then r[parent.value] + 1 else 0])
  {
    var h := AttachNew(g, id, parent, n);
    var r' := r[id := if parent.Some? then r[parent.value] + 1 else 0];
    assert |h| == |g| + 1 by { assert h.Keys == g.Keys + {id}; }
    forall x | x in h ensures x in r' && r'[x] < |h| {
      if x != id { assert x in g; }
    }
    forall x | x in h && h[x].parent.Some?
      ensures h[x].parent.value in r' && r'[h[x].parent.value] < r'[x]
    {
      if x == id {
        assert h[x].parent == parent && parent.value != id;
      } else {
        var p := g[x].parent.value;
        assert h[x].parent == g[x].parent && p in g;
        assert r'[p] == r[p] < r[x] == r'[x];
      }
    }
  }

  lemma AttachNewParents(g: Graph, id: NodeId, parent: Option<NodeId>, n: Node)
    requires ParentsLinked(g) && ChildrenLinked(g) && id !in g && (parent.Some? ==> parent.value in g)
    ensures ParentsLinked(AttachNew(g, id, parent, n))
  {
    var h := AttachNew(g, id, parent, n);
    forall x | x in h && h[x].parent.Some?
      ensures h[x].parent.value in h && x in h[h[x].parent.value].children
    {
      if x != id {
        var p := g[x].parent.value;
        assert x in g[p].children;
        assert h[p].children == g[p].children || h[p].children == g[p].children + [id];
      }
    }
  }

  lemma AttachNewChildren(g: Graph, id: NodeId, parent: Option<NodeId>, n: Node)
    requires ChildrenLinked(g) && id !in g && (parent.Some? ==> parent.value in g)
    ensures ChildrenLinked(AttachNew(g, id, parent, n))
  {
    var h := AttachNew(g, id, parent, n);
    forall x, c | x in h && c in h[x].children ensures c in h && h[c].parent == Some(x) {
      if parent.Some? && x == parent.value {
        if c != id {
          assert c in g[x].children;
        }
      } else {
        assert x != id;
        assert c in g[x].children;
      }
    }
  }

  lemma AttachNewDistinct(g: Graph, id: NodeId, parent: Option<NodeId>, n: Node)
    requires ChildrenLinked(g) && ChildrenDistinct(g) && id !in g && (parent.Some? ==> parent.value in g)
    ensures ChildrenDistinct(AttachNew(g, id, parent, n))
  {
    var h := AttachNew(g, id, parent, n);
    forall x | x in h ensures NoDup(h[x].children) {
      if parent.Some? && x == parent.value {
        assert id !in g[x].children;
        assert NoDup(g[x].children);
      } else if x != id {
        assert NoDup(g[x].children);
      }
    }
  }

  /** `p.remove(c)`: a no-op unless `c` is a direct child of `p`. */
  function Detach(g: Graph, p: NodeId, c: NodeId): (h: Graph)
    requires p in g && c in g
    ensures h.Keys == g.Keys
    ensures forall x | x in g :: h[x] == g[x].(parent := h[x].parent, children := h[x].children)
    ensures forall x | x in g && x != c :: h[x].parent == g[x].parent
    ensures forall x | x in g && x != p :: h[x].children == g[x].children
    ensures c !in g[p].children ==> h == g
  {
    var i := IndexOf<NodeId>(g[p].children, c);
    if i < 0 then g
    else g[c := g[c].(parent := None)][p := g[p].(children := RemoveAt<NodeId>(g[p].children, i))]
  }

  lemma RemoveAtFacts<T>(s: seq<T>, i: nat)
    requires NoDup(s) && i < |s|
    ensures NoDup(RemoveAt(s, i))
    ensures s[i] !in RemoveAt(s, i)
    ensures forall e | e in RemoveAt(s, i) :: e in s
    ensures forall e | e in s && e != s[i] :: e in RemoveAt(s, i)
  {
    var r := RemoveAt(s, i);
    assert forall k | 0 <= k < |r| :: r[k] == (if k < i then s[k] else s[k + 1]);
    forall a, b | 0 <= a < b < |r| ensures r[a] != r[b] {
      var a' := if a < i then a else a + 1;
      var b' := if b < i then b else b + 1;
      assert a' < b';
    }
    forall k | 0 <= k < |r| ensures r[k] != s[i] {
      if k >= i { assert s[k + 1] != s[i]; } else { assert s[k] != s[i]; }
    }
    forall e | e in s && e != s[i] ensures e in r {
      var k :| 0 <= k < |s| && s[k] == e;
      if k < i { assert r[k] == e; } else { assert r[k - 1] == e; }
    }
  }

  lemma DetachWellFormed(g: Graph, p: NodeId, c: NodeId)
    requires WellFormed(g) && p in g && c in g
    ensures WellFormed(Detach(g, p, c))
    ensures c in g[p].children ==> Detach(g, p, c)[c].parent.None?
    ensures c in g[p].children ==> c !in Detach(g, p, c)[p].children
    ensures forall x | x in g && x != p && x != c :: Detach(g, p, c)[x] == g[x]
  {
    var i := IndexOf<NodeId>(g[p].children, c);
    if i >= 0 {
      assert g[c].parent == Some(p);
      assert c != p by { assert RankOf(g)[p] < RankOf(g)[c]; }
      RemoveAtFacts<NodeId>(g[p].children, i);
      DetachRanked(g, p, c);
      DetachParents(g, p, c);
      DetachChildren(g, p, c);
      DetachDistinct(g, p, c);
    }
  }

  lemma DetachRanked(g: Graph, p: NodeId, c: NodeId)
    requires WellFormed(g) && p in g && c in g && c != p
    ensures exists r :: RankedBy(Detach(g, p, c), r)
  {
    var h := Detach(g, p, c);
    var r := RankOf(g);
    assert |h| == |g| by { assert h.Keys == g.Keys; }
    forall x | x in h && h[x].parent.Some?
      ensures h[x].parent.value in r && r[h[x].parent.value] < r[x]
    {
      assert h[x].parent == g[x].parent;
    }
    assert RankedBy(h, r);
  }

  lemma DetachParents(g: Graph, p: NodeId, c: NodeId)
    requires Linked(g) && p in g && c in g && c != p && c in g[p].children
    ensures ParentsLinked(Detach(g, p, c))
  {
    var h := Detach(g, p, c);
    var i := IndexOf<NodeId>(g[p].children, c);
    RemoveAtFacts<NodeId>(g[p].children, i);
    forall x | x in h && h[x].parent.Some?
      ensures h[x].parent.value in h && x in h[h[x].parent.value].children
    {
      assert x != c;
      var q := g[x].parent.value;
      assert x in g[q].children;
    }
  }

  lemma DetachChildren(g: Graph, p: NodeId, c: NodeId)
    requires Linked(g) && p in g && c in g && c != p && c in g[p].children
    ensures ChildrenLinked(Detach(g, p, c))
  {
    var h := Detach(g, p, c);
    var i := IndexOf<NodeId>(g[p].children, c);
    RemoveAtFacts<NodeId>(g[p].children, i);
    forall x, d | x in h && d in h[x].children ensures d in h && h[d].parent == Some(x) {
      assert d in g[x].children;
    }
  }

  lemma DetachDistinct(g: Graph, p: NodeId, c: NodeId)
    requires Linked(g) && p in g && c in g && c != p && c in g[p].children
    ensures ChildrenDistinct(Detach(g, p, c))
  {
    var h := Detach(g, p, c);
    var i := IndexOf<NodeId>(g[p].children, c);
    RemoveAtFacts<NodeId>(g[p].children, i);
    forall x | x in h ensures NoDup(h[x].children) {
      assert NoDup(g[x].children);
    }
  }

  // ---------------------------------------------------------------------------
  // The mutable scene

  /** Everything in the scene that persists between events. */
  datatype SceneState = SceneState(nodes: Graph, nextId: NodeId, disposed: multiset<ResId>)

  /** Every id handed out so far is below `nextId`. */
  ghost predicate Issued(s: SceneState) {
    forall id | id in s.nodes :: id < s.nextId
  }

  /** The scene root is a parentless, untagged group, the graph is a forest,
      and ids are issued from `nextId`. */
  ghost predicate ValidState(s: SceneState, root: NodeId) {
    && WellFormed(s.nodes)
    && root in s.nodes && s.nodes[root].parent.None?
    && !s.nodes[root].isMesh && s.nodes[root].userData == NoTags
    && Issued(s)
  }

  /** Create a node under `parent` (or detached) with the next free id. */
  function CreateS(s: SceneState, root: NodeId, parent: Option<NodeId>, n: Node): (t: SceneState)
    requires Issued(s) && (parent.Some? ==> parent.value in s.nodes)
    ensures ValidState(s, root) ==> ValidState(t, root)
    ensures Issued(t) && t.nextId == s.nextId + 1 && t.disposed == s.disposed
    ensures s.nextId !in s.nodes && t.nodes.Keys == s.nodes.Keys + {s.nextId}
    ensures t.nodes[s.nextId] == n.(parent := parent, children := [])
    ensures forall x | x in s.nodes && Some(x) != parent :: t.nodes[x] == s.nodes[x]
    ensures parent.Some? ==>
              t.nodes[parent.value] == s.nodes[parent.value].(children := s.nodes[parent.value].children + [s.nextId])
  {
    AttachNewKeepsValid(s, root, parent, n);
    SceneState(AttachNew(s.nodes, s.nextId, parent, n), s.nextId + 1, s.disposed)
  }

  lemma AttachNewKeepsValid(s: SceneState, root: NodeId, parent: Option<NodeId>, n: Node)
    requires Issued(s) && (parent.Some? ==> parent.value in s.nodes)
    ensures ValidState(s, root) ==>
              ValidState(SceneState(AttachNew(s.nodes, s.nextId, parent, n), s.nextId + 1, s.disposed), root)
  {
    if ValidState(s, root) {
      AttachNewWellFormed(s.nodes, s.nextId, parent, n);
    }
  }

  /** Overwrite the own fields of a node; overwriting a node other than the
      root while keeping its links keeps the scene valid. */
  function PutS(s: SceneState, root: NodeId, id: NodeId, n: Node): (t: SceneState)
    requires id in s.nodes
    ensures ValidState(s, root) && id != root && SameLinks(s.nodes[id], n) ==> ValidState(t, root)
    ensures t.nodes.Keys == s.nodes.Keys && t.nodes[id] == n
    ensures forall x | x in s.nodes && x != id :: t.nodes[x] == s.nodes[x]
    ensures t.nextId == s.nextId && t.disposed == s.disposed
  {
    PutKeepsValid(s, root, id, n);
    s.(nodes := s.nodes[id := n])
  }

  lemma PutKeepsValid(s: SceneState, root: NodeId, id: NodeId, n: Node)
    requires id in s.nodes
    ensures ValidState(s, root) && id != root && SameLinks(s.nodes[id], n) ==>
              ValidState(s.(nodes := s.nodes[id := n]), root)
  {
    if ValidState(s, root) && id != root && SameLinks(s.nodes[id], n) {
      SameShapeWellFormed(s.nodes, s.nodes[id := n]);
    }
  }

  /** `scene.remove(x)` followed by disposing x's own geometry and materials:
      x leaves the scene only when it is a direct child of the root, and its
      resources are released either way. Only x's parent and the root's
      children can change; in a valid scene x is detached exactly when its
      parent is the root, and the scene stays valid. */
  function RemoveS(s: SceneState, root: NodeId, x: NodeId): (t: SceneState)
    requires root in s.nodes && x in s.nodes && x != root
    ensures t.nodes.Keys == s.nodes.Keys && t.nextId == s.nextId
    ensures t.disposed == s.disposed + multiset(OwnResources(s.nodes[x]))
    ensures t.nodes[root] == s.nodes[root].(children := t.nodes[root].children)
    ensures forall y | y in s.nodes && y != root :: t.nodes[y] == s.nodes[y].(parent := t.nodes[y].parent)
    ensures forall y | y in s.nodes && y != x :: t.nodes[y].parent == s.nodes[y].parent
    ensures x !in s.nodes[root].children ==> t.nodes == s.nodes
    ensures ValidState(s, root) ==>
              && ValidState(t, root)
              && t.nodes[x].parent == (if s.nodes[x].parent == Some(root) then None else s.nodes[x].parent)
  {
    DetachKeepsValid(s, root, x);
    SceneState(Detach(s.nodes, root, x), s.nextId, s.disposed + multiset(OwnResources(s.nodes[x])))
  }

  lemma DetachKeepsValid(s: SceneState, root: NodeId, x: NodeId)
    requires root in s.nodes && x in s.nodes && x != root
    ensures ValidState(s, root) ==>
              var h := Detach(s.nodes, root, x);
              && ValidState(s.(nodes := h), root)
              && h[x].parent == (if s.nodes[x].parent == Some(root) then None else s.nodes[x].parent)
  {
    if ValidState(s, root) {
      DetachWellFormed(s.nodes, root, x);
      assert x in s.nodes[root].children <==> s.nodes[x].parent == Some(root);
    }
  }

  /** No walk ends at the untagged root. */
  lemma NearestNotRoot(s: SceneState, root: NodeId, x: NodeId, c: Capability)
    requires ValidState(s, root) && x in s.nodes
    ensures Nearest(s.nodes, x, c) != Some(root)
  {
  }

  /** An OBJ model load: it fails, or yields a group with `meshCount` child meshes. */
  datatype AssetLoad = LoadFailed | Loaded(meshCount: nat)

  /** The asset loader: a group is added to the scene only when it has children. */
  function LoadModelS(s: SceneState, root: NodeId, a: AssetLoad): (t: SceneState)
    requires Issued(s) && root in s.nodes
    ensures ValidState(s, root) ==> ValidState(t, root)
    ensures Issued(t) && s.nodes.Keys <= t.nodes.Keys && t.nextId >= s.nextId && t.disposed == s.disposed
    ensures forall x | x in s.nodes && x != root :: t.nodes[x] == s.nodes[x]
    ensures a.Loaded? ==>
              && s.nextId in t.nodes && s.nextId !in s.nodes
              && t.nodes[s.nextId] == NewGroup().(parent := t.nodes[s.nextId].parent,
                                                  children := t.nodes[s.nextId].children)
    ensures a.LoadFailed? ==> t == s
  {
    match a
    case LoadFailed => s
    case Loaded(k) =>
      var gid := s.nextId;
      var s1 := CreateS(s, root, if k > 0 then Some(root) else None, NewGroup());
      AddMeshes(s1, root, gid, k)
  }

  /** `k` fresh meshes added under `group`. */
  function AddMeshes(s: SceneState, root: NodeId, group: NodeId, k: nat): (t: SceneState)
    requires Issued(s) && group in s.nodes
    ensures ValidState(s, root) ==> ValidState(t, root)
    ensures Issued(t) && s.nodes.Keys <= t.nodes.Keys && t.nextId >= s.nextId && t.disposed == s.disposed
    ensures forall x | x in s.nodes && x != group :: t.nodes[x] == s.nodes[x]
    ensures t.nodes[group] == s.nodes[group].(children := t.nodes[group].children)
    decreases k
  {
    if k == 0 then s
    else AddMeshes(CreateS(s, root, Some(group), NewMesh(s.nextId)), root, group, k - 1)
  }

  class Scene {
    var nodes: Graph
    var nextId: NodeId
    var disposed: multiset<ResId>
    const root: NodeId

    ghost function State(): SceneState
      reads this
    {
      SceneState(nodes, nextId, disposed)
    }

    ghost predicate Valid()
      reads this
    {
      ValidState(State(), root)
    }

    constructor ()
      ensures Valid() && root == 0 && nodes == map[0 := NewGroup()]
      ensures nextId == 1 && disposed == multiset{}
    {
      root := 0;
      nodes := map[0 := NewGroup()];
      nextId := 1;
      disposed := multiset{};
      new;
      assert RankedBy(nodes, map[0 := 0]);
    }

    /** `new Mesh(...)`/`new Group()` followed by `parent.add(...)`. */
    method Create(parent: Option<NodeId>, n: Node) returns (id: NodeId)
      requires Valid() && (parent.Some? ==> parent.value in nodes)
      modifies this
      ensures Valid() && id == old(nextId)
      ensures State() == CreateS(old(State()), root, parent, n)
    {
      id := nextId;
      ghost var s0 := State();
      ghost var t := CreateS(s0, root, parent, n);
      nodes := AttachNew(nodes, id, parent, n);
      nextId := nextId + 1;
      assert State() == t;
    }

    /** Object3D.remove: detaches `c` only when it is a direct child of `p`. */
    method Remove(p: NodeId, c: NodeId)
      requires Valid() && p in nodes && c in nodes
      modifies this
      ensures Valid() && State() == old(State()).(nodes := Detach(old(nodes), p, c))
    {
      DetachWellFormed(nodes, p, c);
      nodes := Detach(nodes, p, c);
    }

    /** Overwrite a node's own fields; its place in the graph is unchanged. */
    method Put(id: NodeId, n: Node)
      requires Valid() && id in nodes && id != root && SameLinks(nodes[id], n)
      modifies this
      ensures Valid() && State() == PutS(old(State()), root, id, n)
    {
      SameShapeWellFormed(nodes, nodes[id := n]);
      nodes := nodes[id := n];
    }

    /** `dispose()` on each of `rs`, in order. */
    method Dispose(rs: seq<ResId>)
      requires Valid()
      modifies this
      ensures Valid() && State() == old(State()).(disposed := old(disposed) + multiset(rs))
    {
      disposed := disposed + multiset(rs);
    }

    /** asset.js: load an OBJ group and add it to the scene when it has meshes. */
    method LoadModel(a: AssetLoad) returns (model: Option<NodeId>)
      requires Valid()
      modifies this
      ensures Valid()
      ensures State() == LoadModelS(old(State()), root, a)
      ensures model == (if a.Loaded? then Some(old(nextId)) else None)
    {
      if a.LoadFailed? {
        return None;
      }
      var k := a.meshCount;
      ghost var s0 := State();
      var group := Create(if k > 0 then Some(root) else None, NewGroup());
      model := Some(group);
      assert LoadModelS(s0, root, a) == AddMeshes(State(), root, group, k);
      var i := 0;
      while i < k
        invariant 0 <= i <= k && Valid() && group in nodes
        invariant AddMeshes(State(), root, group, k - i) == LoadModelS(s0, root, a)
      {
        ghost var before := State();
        var m := Create(Some(group), NewMesh(nextId));
        assert AddMeshes(before, root, group, k - i) == AddMeshes(State(), root, group, k - i - 1);
        i := i + 1;
      }
    }
  }

  /** The camera's orbit controls; the editor only switches them on and off. */
  class OrbitControls {
    var enabled: bool

    constructor ()
      ensures enabled
    {
      enabled := true;
    }
  }
}
