/** The scene-graph half of the glTF builder: node transforms
    (Builder::LoadTransformationMatrix), the recursive node traversal
    (Builder::ProcessNode, Builder::CreateGameObject) and the per-scene
    driver (Builder::LoadGLTF). The registry and the scene-hierarchy tree
    are one sequence of entities in creation order; an entity's tree
    parent is the position of an earlier entity, or None for the
    hierarchy node the loader was given. */
module SceneGraph {
  import opened Math
  import opened Materials

  /** A TransformComponent as far as the loader sets it: a component left
      at None keeps the component's default. The loader hands the rotation
      over as a quaternion; the particle system sets the same component
      from Euler angles (Particles.ParticleTransform). */
  datatype Transform = Transform(scale: Option<Vec3>, rotation: Option<Quat>, translation: Option<Vec3>)

  const DefaultTransform := Transform(None, None, None)

  /** The fields of a glTF node the loader reads: `mesh` is -1 for none;
      `matrix`, `rotation`, `scale` and `translation` are empty when the
      file leaves them out. `matrix` is column-major, as glTF stores it. */
  datatype GltfNode = GltfNode(
    name: string,
    mesh: int,
    children: seq<nat>,
    matrix: seq<real>,
    rotation: seq<real>,
    scale: seq<real>,
    translation: seq<real>)

  datatype GltfScene = GltfScene(name: string, nodes: seq<nat>)

  /** A glTF mesh; only its primitives' material indices matter here. */
  datatype GltfMeshRecord = GltfMeshRecord(primitiveMaterials: seq<int>)

  datatype GltfModel = GltfModel(
    nodes: seq<GltfNode>,
    meshes: seq<GltfMeshRecord>,
    materials: seq<GltfMaterial>,
    imageCount: nat,
    scenes: seq<GltfScene>)

  /** The TRS branch shared by both readings of a node's transform: the
      glTF quaternion (x, y, z, w) is stored in glm order (w, x, y, z). */
  function ReadTrs(t: Transform, node: GltfNode): (r: Transform)
    ensures |node.rotation| == 4 ==>
              r.rotation == Some(Quat(node.rotation[3], node.rotation[0], node.rotation[1], node.rotation[2]))
    ensures |node.rotation| != 4 ==> r.rotation == t.rotation
    ensures |node.scale| == 3 ==> r.scale == Some(Vec3(node.scale[0], node.scale[1], node.scale[2]))
    ensures |node.scale| != 3 ==> r.scale == t.scale
    ensures |node.translation| == 3 ==>
              r.translation == Some(Vec3(node.translation[0], node.translation[1], node.translation[2]))
    ensures |node.translation| != 3 ==> r.translation == t.translation
  {
    var t1 := if |node.rotation| == 4
              then t.(rotation := Some(Quat(node.rotation[3], node.rotation[0], node.rotation[1], node.rotation[2])))
              else t;
    var t2 := if |node.scale| == 3 then t1.(scale := Some(Vec3(node.scale[0], node.scale[1], node.scale[2]))) else t1;
    if |node.translation| == 3
    then t2.(translation := Some(Vec3(node.translation[0], node.translation[1], node.translation[2])))
    else t2
  }

  /** Builder::LoadTransformationMatrix as written: a 16-element matrix
      sets the scale from the diagonal and the translation from elements
      3, 7 and 11, which in glTF's column-major layout are the bottom
      row, not the translation. */
  function LoadTransformationMatrixAsWritten(t: Transform, node: GltfNode): (r: Transform)
    ensures |node.matrix| == 16 ==> r.rotation == t.rotation
    ensures |node.matrix| == 16 ==> r.scale == Some(Vec3(node.matrix[0], node.matrix[5], node.matrix[10]))
    ensures |node.matrix| == 16 ==> r.translation == Some(Vec3(node.matrix[3], node.matrix[7], node.matrix[11]))
    ensures |node.matrix| != 16 ==> r == ReadTrs(t, node)
  {
    if |node.matrix| == 16
    then t.(scale := Some(Vec3(node.matrix[0], node.matrix[5], node.matrix[10])),
            translation := Some(Vec3(node.matrix[3], node.matrix[7], node.matrix[11])))
    else ReadTrs(t, node)
  }

  /** Builder::LoadTransformationMatrix with the translation read from
      elements 12, 13 and 14, where a column-major matrix keeps it. */
  function LoadTransformationMatrix(t: Transform, node: GltfNode): (r: Transform)
    ensures |node.matrix| == 16 ==> r.rotation == t.rotation
    ensures |node.matrix| == 16 ==> r.scale == Some(Vec3(node.matrix[0], node.matrix[5], node.matrix[10]))
    ensures |node.matrix| == 16 ==> r.translation == Some(Vec3(node.matrix[12], node.matrix[13], node.matrix[14]))
    ensures |node.matrix| != 16 ==> r == ReadTrs(t, node)
  {
    if |node.matrix| == 16
    then t.(scale := Some(Vec3(node.matrix[0], node.matrix[5], node.matrix[10])),
            translation := Some(Vec3(node.matrix[12], node.matrix[13], node.matrix[14])))
    else ReadTrs(t, node)
  }

  /** The column-major matrix glTF writes for a scale followed by a
      translation. */
  function ScaleTranslateMatrix(s: Vec3, d: Vec3): (m: seq<real>)
    ensures |m| == 16
  {
    [s.x, 0.0, 0.0, 0.0,
     0.0, s.y, 0.0, 0.0,
     0.0, 0.0, s.z, 0.0,
     d.x, d.y, d.z, 1.0]
  }

  function MatrixNode(m: seq<real>): GltfNode {
    GltfNode("", -1, [], m, [], [], [])
  }

  /** The corrected reading recovers both halves of any scale-translation
      matrix. */
  lemma MatrixRoundTrip(t: Transform, s: Vec3, d: Vec3)
    ensures var r := LoadTransformationMatrix(t, MatrixNode(ScaleTranslateMatrix(s, d)));
            r.scale == Some(s) && r.translation == Some(d) && r.rotation == t.rotation
  {
  }

  /** The reading as written loses every translation: for any
      scale-translation matrix it stores the zero vector. */
  lemma AsWrittenDropsTranslation(t: Transform, s: Vec3, d: Vec3)
    ensures LoadTransformationMatrixAsWritten(t, MatrixNode(ScaleTranslateMatrix(s, d))).translation == Some(Zero3)
  {
  }

  /** The concrete witness: a pure translation by (1, 2, 3). */
  lemma AsWrittenCounterexample()
    ensures var node := MatrixNode(ScaleTranslateMatrix(Vec3(1.0, 1.0, 1.0), Vec3(1.0, 2.0, 3.0)));
            && LoadTransformationMatrixAsWritten(DefaultTransform, node).translation == Some(Zero3)
            && LoadTransformationMatrix(DefaultTransform, node).translation == Some(Vec3(1.0, 2.0, 3.0))
  {
    AsWrittenDropsTranslation(DefaultTransform, Vec3(1.0, 1.0, 1.0), Vec3(1.0, 2.0, 3.0));
  }

  /** The loader's fixed inputs: the file path, the parsed model, the
      converted materials and the image table after this file's images
      were appended at `imageOffset`. */
  datatype Loader = Loader(
    filepath: string,
    model: GltfModel,
    materials: seq<Material>,
    imageOffset: nat,
    imageCount: nat)

  /** Builder::LoadGLTF up to the scene loop: the images are appended to a
      table of `imageTableSize` entries, the materials are converted. */
  function StartLoad(filepath: string, model: GltfModel, imageTableSize: nat): (L: Loader)
    ensures L.imageOffset == imageTableSize && L.imageCount == imageTableSize + model.imageCount
    ensures L.materials == LoadMaterials(model.materials)
  {
    Loader(filepath, model, LoadMaterials(model.materials), imageTableSize, imageTableSize + model.imageCount)
  }

  /** The mesh of a mesh node can be turned into an entity: it exists, has
      a first primitive, and that primitive's material is -1 or can be
      assigned. */
  predicate MeshUsable(L: Loader, meshIndex: int) {
    && 0 <= meshIndex < |L.model.meshes|
    && |L.model.meshes[meshIndex].primitiveMaterials| > 0
    && ValidMaterialIndex(L.materials, L.imageOffset, L.imageCount,
                          L.model.meshes[meshIndex].primitiveMaterials[0])
  }

  /** The node graph the traversal can walk: children exist, every child
      has a smaller rank than its parent (so the graph has no cycle), and
      every mesh node's mesh is usable. */
  predicate ValidLoader(L: Loader, rank: seq<nat>) {
    var nodes := L.model.nodes;
    && |rank| == |nodes|
    && (forall n, k :: 0 <= n < |nodes| && 0 <= k < |nodes[n].children| ==>
          nodes[n].children[k] < |nodes| && rank[nodes[n].children[k]] < rank[n])
    && (forall n :: 0 <= n < |nodes| && nodes[n].mesh != -1 ==> MeshUsable(L, nodes[n].mesh))
  }

  /** A MeshComponent: the node name and the handle of the model the
      engine built from mesh `meshIndex`. */
  datatype MeshComponent = MeshComponent(name: string, meshIndex: nat)

  /** One registry entity together with its scene-hierarchy tree node. */
  datatype Entity = Entity(
    shortName: string,
    longName: string,
    parent: Option<nat>,
    transform: Transform,
    mesh: Option<MeshComponent>,
    material: Option<MaterialComponent>)

  function LongName(L: Loader, scene: GltfScene, name: string): string {
    L.filepath + "::" + scene.name + "::" + name
  }

  /** Builder::CreateGameObject: one entity named after the node, below
      `parent`, with a MeshComponent for the node's mesh, the node's
      transform (read as the builder writes it) and the material of the
      mesh's first primitive. */
  function CreateGameObject(L: Loader, rank: seq<nat>, scene: GltfScene, n: nat, parent: Option<nat>): (e: Entity)
    requires ValidLoader(L, rank) && n < |L.model.nodes| && L.model.nodes[n].mesh != -1
    ensures var node := L.model.nodes[n];
            && e.shortName == node.name
            && e.longName == LongName(L, scene, node.name)
            && e.parent == parent
            && e.transform == LoadTransformationMatrixAsWritten(DefaultTransform, node)
            && e.mesh.Some? && e.mesh.value.name == node.name && e.mesh.value.meshIndex == node.mesh
    ensures Consistent(L, e)
  {
    var node := L.model.nodes[n];
    Entity(node.name, LongName(L, scene, node.name), parent,
           LoadTransformationMatrixAsWritten(DefaultTransform, node),
           Some(MeshComponent(node.name, node.mesh)),
           Some(AssignMaterial(L.materials, L.imageOffset, L.imageCount,
                               L.model.meshes[node.mesh].primitiveMaterials[0])))
  }

  /** An entity has a material exactly when it has a mesh, and then it is
      the one assigned to the mesh's first primitive. */
  predicate Consistent(L: Loader, e: Entity) {
    if e.mesh.None? then e.material.None?
    else
      && MeshUsable(L, e.mesh.value.meshIndex)
      && e.material == Some(AssignMaterial(L.materials, L.imageOffset, L.imageCount,
                                           L.model.meshes[e.mesh.value.meshIndex].primitiveMaterials[0]))
  }

  /** The entity Builder::ProcessNode creates for node `n` itself: a mesh
      node goes through CreateGameObject, a node without a mesh becomes a
      group entity with only a transform. Either way the entity is named
      after the node, hangs below `parent` and carries the node's
      transform. */
  function NodeEntity(L: Loader, rank: seq<nat>, scene: GltfScene, n: nat, parent: Option<nat>): (e: Entity)
    requires ValidLoader(L, rank) && n < |L.model.nodes|
    ensures var node := L.model.nodes[n];
            && e.shortName == node.name
            && e.longName == LongName(L, scene, node.name)
            && e.parent == parent
            && e.transform == LoadTransformationMatrixAsWritten(DefaultTransform, node)
            && (e.mesh.Some? <==> node.mesh != -1)
            && (e.mesh.Some? ==> e.mesh.value.name == node.name && e.mesh.value.meshIndex == node.mesh)
    ensures Consistent(L, e)
  {
    var node := L.model.nodes[n];
    if node.mesh == -1
    then Entity(node.name, LongName(L, scene, node.name), parent,
                LoadTransformationMatrixAsWritten(DefaultTransform, node), None, None)
    else CreateGameObject(L, rank, scene, n, parent)
  }

  /** Entity `j` hangs below `parent` or below an entity created after
      position `lo` and before itself. */
  predicate AttachedWithin(e: Entity, j: nat, lo: nat, parent: Option<nat>) {
    e.parent == parent || (e.parent.Some? && lo <= e.parent.value < j)
  }

  /** `r` is `acc` followed by `count` new consistent entities forming
      subtrees below `parent`. */
  predicate Extends(L: Loader, acc: seq<Entity>, r: seq<Entity>, parent: Option<nat>, count: nat) {
    && |r| == |acc| + count
    && r[..|acc|] == acc
    && forall j :: |acc| <= j < |r| ==> AttachedWithin(r[j], j, |acc|, parent) && Consistent(L, r[j])
  }

  lemma ExtendsTrans(L: Loader, a: seq<Entity>, b: seq<Entity>, c: seq<Entity>, parent: Option<nat>, m: nat, n: nat)
    requires Extends(L, a, b, parent, m) && Extends(L, b, c, parent, n)
    ensures Extends(L, a, c, parent, m + n)
  {
    assert c[..|a|] == c[..|b|][..|a|];
  }

  lemma ExtendsBelow(L: Loader, acc: seq<Entity>, e: Entity, r: seq<Entity>, parent: Option<nat>, n: nat)
    requires e.parent == parent && Consistent(L, e)
    requires Extends(L, acc + [e], r, Some(|acc|), n)
    ensures Extends(L, acc, r, parent, 1 + n)
  {
    assert r[..|acc|] == r[..|acc| + 1][..|acc|];
    assert r[|acc|] == (acc + [e])[|acc|];
  }

  /** The number of entities the traversal creates for the subtree of
      node `n`: one for a node with a mesh or with children, plus those of
      its children; none for a bare leaf. */
  function SubtreeEntities(L: Loader, rank: seq<nat>, n: nat): nat
    requires ValidLoader(L, rank) && n < |L.model.nodes|
    decreases rank[n], 1
  {
    var node := L.model.nodes[n];
    if node.mesh == -1 && |node.children| == 0 then 0
    else 1 + ChildrenEntities(L, rank, n, 0)
  }

  function ChildrenEntities(L: Loader, rank: seq<nat>, n: nat, i: nat): nat
    requires ValidLoader(L, rank) && n < |L.model.nodes| && i <= |L.model.nodes[n].children|
    decreases rank[n], 0, |L.model.nodes[n].children| - i
  {
    var children := L.model.nodes[n].children;
    if i == |children| then 0
    else SubtreeEntities(L, rank, children[i]) + ChildrenEntities(L, rank, n, i + 1)
  }

  /** The number of mesh nodes met when walking the subtree of node `n`,
      counting a node once per path that reaches it. */
  function SubtreeMeshes(L: Loader, rank: seq<nat>, n: nat): nat
    requires ValidLoader(L, rank) && n < |L.model.nodes|
    decreases rank[n], 1
  {
    (if L.model.nodes[n].mesh != -1 then 1 else 0) + ChildrenMeshes(L, rank, n, 0)
  }

  function ChildrenMeshes(L: Loader, rank: seq<nat>, n: nat, i: nat): nat
    requires ValidLoader(L, rank) && n < |L.model.nodes| && i <= |L.model.nodes[n].children|
    decreases rank[n], 0, |L.model.nodes[n].children| - i
  {
    var children := L.model.nodes[n].children;
    if i == |children| then 0
    else SubtreeMeshes(L, rank, children[i]) + ChildrenMeshes(L, rank, n, i + 1)
  }

  /** The number of entities carrying a MeshComponent. */
  function MeshEntities(s: seq<Entity>): nat {
    if |s| == 0 then 0
    else MeshEntities(s[..|s| - 1]) + (if s[|s| - 1].mesh.Some? then 1 else 0)
  }

  /** The tree the traversal builds for node `n`, laid out in `r` from
      position `start`: nothing for a bare leaf; otherwise the node's own
      entity below `parent`, followed by the subtrees of its children, in
      order, each hanging below that entity. */
  predicate SubtreeAt(L: Loader, rank: seq<nat>, scene: GltfScene, n: nat, parent: Option<nat>,
                      r: seq<Entity>, start: nat)
    requires ValidLoader(L, rank) && n < |L.model.nodes|
    decreases rank[n], 1
  {
    && start + SubtreeEntities(L, rank, n) <= |r|
    && (SubtreeEntities(L, rank, n) > 0 ==>
          && r[start] == NodeEntity(L, rank, scene, n, parent)
          && ChildrenAt(L, rank, scene, n, 0, Some(start), r, start + 1))
  }

  /** The subtrees of children `i` onwards of node `n`, laid out one after
      the other from position `start`, all below `parent`. */
  predicate ChildrenAt(L: Loader, rank: seq<nat>, scene: GltfScene, n: nat, i: nat, parent: Option<nat>,
                       r: seq<Entity>, start: nat)
    requires ValidLoader(L, rank) && n < |L.model.nodes| && i <= |L.model.nodes[n].children|
    decreases rank[n], 0, |L.model.nodes[n].children| - i
  {
    var children := L.model.nodes[n].children;
    i == |children|
    || (&& SubtreeAt(L, rank, scene, children[i], parent, r, start)
        && ChildrenAt(L, rank, scene, n, i + 1, parent, r, start + SubtreeEntities(L, rank, children[i])))
  }

  /** Appending entities after a laid-out subtree leaves it in place. */
  lemma {:induction false} SubtreeAtExtends(L: Loader, rank: seq<nat>, scene: GltfScene, n: nat, parent: Option<nat>,
                                            r: seq<Entity>, r': seq<Entity>, start: nat)
    requires ValidLoader(L, rank) && n < |L.model.nodes|
    requires |r| <= |r'| && r'[..|r|] == r
    requires SubtreeAt(L, rank, scene, n, parent, r, start)
    ensures SubtreeAt(L, rank, scene, n, parent, r', start)
    decreases rank[n], 1
  {
    if SubtreeEntities(L, rank, n) > 0 {
      assert r'[start] == r'[..|r|][start];
      ChildrenAtExtends(L, rank, scene, n, 0, Some(start), r, r', start + 1);
    }
  }

  lemma {:induction false} ChildrenAtExtends(L: Loader, rank: seq<nat>, scene: GltfScene, n: nat, i: nat,
                                             parent: Option<nat>, r: seq<Entity>, r': seq<Entity>, start: nat)
    requires ValidLoader(L, rank) && n < |L.model.nodes| && i <= |L.model.nodes[n].children|
    requires |r| <= |r'| && r'[..|r|] == r
    requires ChildrenAt(L, rank, scene, n, i, parent, r, start)
    ensures ChildrenAt(L, rank, scene, n, i, parent, r', start)
    decreases rank[n], 0, |L.model.nodes[n].children| - i
  {
    var children := L.model.nodes[n].children;
    if i < |children| {
      SubtreeAtExtends(L, rank, scene, children[i], parent, r, r', start);
      ChildrenAtExtends(L, rank, scene, n, i + 1, parent, r, r', start + SubtreeEntities(L, rank, children[i]));
    }
  }

  /** The child at position `i` laid out first, followed by the later
      children, is the layout of children `i` onwards. */
  lemma ChildrenAtStep(L: Loader, rank: seq<nat>, scene: GltfScene, n: nat, i: nat, parent: Option<nat>,
                       acc: seq<Entity>, mid: seq<Entity>, r: seq<Entity>)
    requires ValidLoader(L, rank) && n < |L.model.nodes| && i < |L.model.nodes[n].children|
    requires |mid| == |acc| + SubtreeEntities(L, rank, L.model.nodes[n].children[i])
    requires |mid| <= |r| && r[..|mid|] == mid
    requires SubtreeAt(L, rank, scene, L.model.nodes[n].children[i], parent, mid, |acc|)
    requires ChildrenAt(L, rank, scene, n, i + 1, parent, r, |mid|)
    ensures ChildrenAt(L, rank, scene, n, i, parent, r, |acc|)
  {
    SubtreeAtExtends(L, rank, scene, L.model.nodes[n].children[i], parent, mid, r, |acc|);
  }

  /** Builder::ProcessNode. A mesh node becomes one entity through
      CreateGameObject; a mesh-less node with children becomes one group
      entity with only a transform; a bare leaf creates nothing. The
      children are then visited in order below the new entity. */
  function ProcessNode(L: Loader, rank: seq<nat>, scene: GltfScene, n: nat, parent: Option<nat>, acc: seq<Entity>)
    : (r: seq<Entity>)
    requires ValidLoader(L, rank) && n < |L.model.nodes|
    requires parent.Some? ==> parent.value < |acc|
    ensures Extends(L, acc, r, parent, SubtreeEntities(L, rank, n))
    ensures MeshEntities(r) == MeshEntities(acc) + SubtreeMeshes(L, rank, n)
    ensures SubtreeAt(L, rank, scene, n, parent, r, |acc|)
    decreases rank[n], 1
  {
    var node := L.model.nodes[n];
    if node.mesh == -1 && |node.children| == 0 then acc
    else
      var e := NodeEntity(L, rank, scene, n, parent);
      var r := ProcessChildren(L, rank, scene, n, 0, Some(|acc|), acc + [e]);
      ExtendsBelow(L, acc, e, r, parent, ChildrenEntities(L, rank, n, 0));
      assert (acc + [e])[..|acc|] == acc;
      assert r[|acc|] == r[..|acc| + 1][|acc|];
      r
  }

  /** The child loop of Builder::ProcessNode from child `i` on. */
  function ProcessChildren(L: Loader, rank: seq<nat>, scene: GltfScene, n: nat, i: nat, parent: Option<nat>,
                           acc: seq<Entity>): (r: seq<Entity>)
    requires ValidLoader(L, rank) && n < |L.model.nodes| && i <= |L.model.nodes[n].children|
    requires parent.Some? ==> parent.value < |acc|
    ensures Extends(L, acc, r, parent, ChildrenEntities(L, rank, n, i))
    ensures MeshEntities(r) == MeshEntities(acc) + ChildrenMeshes(L, rank, n, i)
    ensures ChildrenAt(L, rank, scene, n, i, parent, r, |acc|)
    decreases rank[n], 0, |L.model.nodes[n].children| - i
  {
    var children := L.model.nodes[n].children;
    if i == |children| then acc
    else
      var mid := ProcessNode(L, rank, scene, children[i], parent, acc);
      var r := ProcessChildren(L, rank, scene, n, i + 1, parent, mid);
      ExtendsTrans(L, acc, mid, r, parent, SubtreeEntities(L, rank, children[i]), ChildrenEntities(L, rank, n, i + 1));
      ChildrenAtStep(L, rank, scene, n, i, parent, acc, mid, r);
      r
  }

  /** A mesh node without children yields exactly one entity, whatever
      the number of its mesh's primitives: the material of the first
      primitive is the only one used. */
  lemma MeshLeafOneEntity(L: Loader, rank: seq<nat>, scene: GltfScene, n: nat, parent: Option<nat>, acc: seq<Entity>)
    requires ValidLoader(L, rank) && n < |L.model.nodes|
    requires parent.Some? ==> parent.value < |acc|
    requires L.model.nodes[n].mesh != -1 && |L.model.nodes[n].children| == 0
    ensures var r := ProcessNode(L, rank, scene, n, parent, acc);
            var mesh := L.model.meshes[L.model.nodes[n].mesh];
            && |r| == |acc| + 1
            && r[|acc|].material == Some(AssignMaterial(L.materials, L.imageOffset, L.imageCount, mesh.primitiveMaterials[0]))
  {
  }

  /** Every tree parent is an entity created earlier. */
  predicate ParentsBefore(s: seq<Entity>) {
    forall j :: 0 <= j < |s| && s[j].parent.Some? ==> s[j].parent.value < j
  }

  lemma ExtendsParentsBefore(L: Loader, acc: seq<Entity>, r: seq<Entity>, parent: Option<nat>, n: nat)
    requires parent.Some? ==> parent.value < |acc|
    requires Extends(L, acc, r, parent, n)
    ensures ParentsBefore(acc) ==> ParentsBefore(r)
  {
    if ParentsBefore(acc) {
      forall j | 0 <= j < |r| && r[j].parent.Some?
        ensures r[j].parent.value < j
      {
        if j < |acc| {
          assert r[j] == r[..|acc|][j];
        }
      }
    }
  }

  predicate SceneValid(L: Loader, scene: GltfScene) {
    forall i :: 0 <= i < |scene.nodes| ==> scene.nodes[i] < |L.model.nodes|
  }

  function RootsEntities(L: Loader, rank: seq<nat>, scene: GltfScene, i: nat): nat
    requires ValidLoader(L, rank) && SceneValid(L, scene) && i <= |scene.nodes|
    decreases |scene.nodes| - i
  {
    if i == |scene.nodes| then 0
    else SubtreeEntities(L, rank, scene.nodes[i]) + RootsEntities(L, rank, scene, i + 1)
  }

  /** The subtrees of root nodes `i` onwards, laid out one after the
      other from position `start`, all below `parent`. */
  predicate RootsAt(L: Loader, rank: seq<nat>, scene: GltfScene, i: nat, parent: Option<nat>,
                    r: seq<Entity>, start: nat)
    requires ValidLoader(L, rank) && SceneValid(L, scene) && i <= |scene.nodes|
    decreases |scene.nodes| - i
  {
    i == |scene.nodes|
    || (&& SubtreeAt(L, rank, scene, scene.nodes[i], parent, r, start)
        && RootsAt(L, rank, scene, i + 1, parent, r, start + SubtreeEntities(L, rank, scene.nodes[i])))
  }

  /** The root-node loop of Builder::LoadGLTF from root `i` on. */
  function ProcessRoots(L: Loader, rank: seq<nat>, scene: GltfScene, i: nat, parent: Option<nat>, acc: seq<Entity>)
    : (r: seq<Entity>)
    requires ValidLoader(L, rank) && SceneValid(L, scene) && i <= |scene.nodes|
    requires parent.Some? ==> parent.value < |acc|
    ensures Extends(L, acc, r, parent, RootsEntities(L, rank, scene, i))
    ensures RootsAt(L, rank, scene, i, parent, r, |acc|)
    decreases |scene.nodes| - i
  {
    if i == |scene.nodes| then acc
    else
      var mid := ProcessNode(L, rank, scene, scene.nodes[i], parent, acc);
      var r := ProcessRoots(L, rank, scene, i + 1, parent, mid);
      ExtendsTrans(L, acc, mid, r, parent, SubtreeEntities(L, rank, scene.nodes[i]), RootsEntities(L, rank, scene, i + 1));
      SubtreeAtExtends(L, rank, scene, scene.nodes[i], parent, mid, r, |acc|);
      r
  }

  /** The group entity of a scene with several root nodes. */
  function SceneRoot(L: Loader, scene: GltfScene): Entity {
    Entity(scene.name + "::root", L.filepath + "::" + scene.name + "::root", None, DefaultTransform, None, None)
  }

  /** `r` is `acc` followed by consistent entities, and keeps parents
      before children if `acc` did. */
  predicate Grows(L: Loader, acc: seq<Entity>, r: seq<Entity>) {
    && |acc| <= |r|
    && r[..|acc|] == acc
    && (forall j :: |acc| <= j < |r| ==> Consistent(L, r[j]))
    && (ParentsBefore(acc) ==> ParentsBefore(r))
  }

  lemma GrowsTrans(L: Loader, a: seq<Entity>, b: seq<Entity>, c: seq<Entity>)
    requires Grows(L, a, b) && Grows(L, b, c)
    ensures Grows(L, a, c)
  {
    assert c[..|a|] == c[..|b|][..|a|];
    forall j | |a| <= j < |b|
      ensures Consistent(L, c[j])
    {
      assert c[j] == c[..|b|][j];
    }
  }

  /** The entities one non-empty scene creates. */
  function SceneEntities(L: Loader, rank: seq<nat>, scene: GltfScene): nat
    requires ValidLoader(L, rank) && SceneValid(L, scene)
  {
    (if |scene.nodes| > 1 then 1 else 0) + RootsEntities(L, rank, scene, 0)
  }

  /** One iteration of the scene loop of Builder::LoadGLTF for a
      non-empty scene: with several root nodes a group entity comes
      first and the roots hang below it; a single root hangs directly
      below the hierarchy node. */
  function LoadScene(L: Loader, rank: seq<nat>, scene: GltfScene, acc: seq<Entity>): (r: seq<Entity>)
    requires ValidLoader(L, rank) && SceneValid(L, scene) && |scene.nodes| > 0
    ensures |r| == |acc| + SceneEntities(L, rank, scene)
    ensures Grows(L, acc, r)
    ensures |scene.nodes| > 1 ==> r[|acc|] == SceneRoot(L, scene) && RootsAt(L, rank, scene, 0, Some(|acc|), r, |acc| + 1)
    ensures |scene.nodes| == 1 ==> RootsAt(L, rank, scene, 0, None, r, |acc|)
    ensures SceneAt(L, rank, scene, r, |acc|)
  {
    if |scene.nodes| > 1 then
      var before := acc + [SceneRoot(L, scene)];
      var r := ProcessRoots(L, rank, scene, 0, Some(|acc|), before);
      RootGrows(L, scene, acc);
      ExtendsGrows(L, before, r, Some(|acc|), RootsEntities(L, rank, scene, 0));
      GrowsTrans(L, acc, before, r);
      assert r[|acc|] == r[..|before|][|acc|];
      r
    else
      var r := ProcessRoots(L, rank, scene, 0, None, acc);
      ExtendsGrows(L, acc, r, None, RootsEntities(L, rank, scene, 0));
      r
  }

  /** The layout of one non-empty scene from position `start`: with
      several roots, the scene's group entity followed by the roots'
      subtrees below it; with one root, that root's subtree directly
      below the hierarchy node. */
  predicate SceneAt(L: Loader, rank: seq<nat>, scene: GltfScene, r: seq<Entity>, start: nat)
    requires ValidLoader(L, rank) && SceneValid(L, scene)
  {
    if |scene.nodes| > 1 then
      && start < |r|
      && r[start] == SceneRoot(L, scene)
      && RootsAt(L, rank, scene, 0, Some(start), r, start + 1)
    else RootsAt(L, rank, scene, 0, None, r, start)
  }

  /** The scenes up to the first empty one, laid out one after the other
      from position `start`. */
  predicate ScenesAt(L: Loader, rank: seq<nat>, scenes: seq<GltfScene>, r: seq<Entity>, start: nat)
    requires ValidLoader(L, rank) && forall k :: 0 <= k < |scenes| ==> SceneValid(L, scenes[k])
    decreases |scenes|
  {
    |scenes| == 0 || |scenes[0].nodes| == 0
    || (&& SceneAt(L, rank, scenes[0], r, start)
        && ScenesAt(L, rank, scenes[1..], r, start + SceneEntities(L, rank, scenes[0])))
  }

  lemma {:induction false} RootsAtExtends(L: Loader, rank: seq<nat>, scene: GltfScene, i: nat, parent: Option<nat>,
                                          r: seq<Entity>, r': seq<Entity>, start: nat)
    requires ValidLoader(L, rank) && SceneValid(L, scene) && i <= |scene.nodes|
    requires |r| <= |r'| && r'[..|r|] == r
    requires RootsAt(L, rank, scene, i, parent, r, start)
    ensures RootsAt(L, rank, scene, i, parent, r', start)
    decreases |scene.nodes| - i
  {
    if i < |scene.nodes| {
      SubtreeAtExtends(L, rank, scene, scene.nodes[i], parent, r, r', start);
      RootsAtExtends(L, rank, scene, i + 1, parent, r, r', start + SubtreeEntities(L, rank, scene.nodes[i]));
    }
  }

  /** Appending entities after a laid-out scene leaves it in place. */
  lemma SceneAtExtends(L: Loader, rank: seq<nat>, scene: GltfScene, r: seq<Entity>, r': seq<Entity>, start: nat)
    requires ValidLoader(L, rank) && SceneValid(L, scene)
    requires |r| <= |r'| && r'[..|r|] == r
    requires SceneAt(L, rank, scene, r, start)
    ensures SceneAt(L, rank, scene, r', start)
  {
    if |scene.nodes| > 1 {
      assert r'[start] == r'[..|r|][start];
      RootsAtExtends(L, rank, scene, 0, Some(start), r, r', start + 1);
    } else {
      RootsAtExtends(L, rank, scene, 0, None, r, r', start);
    }
  }

  lemma RootGrows(L: Loader, scene: GltfScene, acc: seq<Entity>)
    ensures Grows(L, acc, acc + [SceneRoot(L, scene)])
  {
    assert (acc + [SceneRoot(L, scene)])[..|acc|] == acc;
  }

  lemma ExtendsGrows(L: Loader, acc: seq<Entity>, r: seq<Entity>, parent: Option<nat>, n: nat)
    requires parent.Some? ==> parent.value < |acc|
    requires Extends(L, acc, r, parent, n)
    ensures Grows(L, acc, r)
  {
    ExtendsParentsBefore(L, acc, r, parent, n);
  }


  /** The entities of the scenes up to the first empty one. */
  function ScenesEntities(L: Loader, rank: seq<nat>, scenes: seq<GltfScene>): nat
    requires ValidLoader(L, rank) && forall k :: 0 <= k < |scenes| ==> SceneValid(L, scenes[k])
  {
    if |scenes| == 0 || |scenes[0].nodes| == 0 then 0
    else SceneEntities(L, rank, scenes[0]) + ScenesEntities(L, rank, scenes[1..])
  }

  /** The scene loop of Builder::LoadGLTF: scenes are loaded in order
      and an empty scene ends the whole load. */
  function LoadScenes(L: Loader, rank: seq<nat>, scenes: seq<GltfScene>, acc: seq<Entity>): (r: seq<Entity>)
    requires ValidLoader(L, rank) && forall k :: 0 <= k < |scenes| ==> SceneValid(L, scenes[k])
    ensures |r| == |acc| + ScenesEntities(L, rank, scenes)
    ensures Grows(L, acc, r)
    ensures ScenesAt(L, rank, scenes, r, |acc|)
  {
    if |scenes| == 0 || |scenes[0].nodes| == 0 then acc
    else
      var mid := LoadScene(L, rank, scenes[0], acc);
      var r := LoadScenes(L, rank, scenes[1..], mid);
      GrowsTrans(L, acc, mid, r);
      SceneAtExtends(L, rank, scenes[0], mid, r, |acc|);
      r
  }

  /** Builder::LoadGLTF from the scene loop on, starting below the
      hierarchy node it was given. */
  function LoadGltf(L: Loader, rank: seq<nat>): (r: seq<Entity>)
    requires ValidLoader(L, rank) && forall k :: 0 <= k < |L.model.scenes| ==> SceneValid(L, L.model.scenes[k])
    ensures |r| == ScenesEntities(L, rank, L.model.scenes)
    ensures ParentsBefore(r)
    ensures forall j :: 0 <= j < |r| ==> Consistent(L, r[j])
    ensures ScenesAt(L, rank, L.model.scenes, r, 0)
  {
    assert ParentsBefore([]);
    LoadScenes(L, rank, L.model.scenes, [])
  }

  /** An empty scene ends the load: the scenes after it contribute
      nothing. */
  lemma {:induction false} EmptySceneStops(L: Loader, rank: seq<nat>, scenes: seq<GltfScene>, k: nat, acc: seq<Entity>)
    requires ValidLoader(L, rank) && forall i :: 0 <= i < |scenes| ==> SceneValid(L, scenes[i])
    requires k < |scenes| && |scenes[k].nodes| == 0
    ensures LoadScenes(L, rank, scenes, acc) == LoadScenes(L, rank, scenes[..k], acc)
  {
    if k != 0 && |scenes[0].nodes| != 0 {
      assert scenes[..k][1..] == scenes[1..][..k - 1];
      EmptySceneStops(L, rank, scenes[1..], k - 1, LoadScene(L, rank, scenes[0], acc));
    }
  }

  /** A scene with several root nodes gets a group entity named
      "<scene>::root" first, and every entity of the scene hangs below
      it. */
  lemma MultiRootGroup(L: Loader, rank: seq<nat>, scene: GltfScene, acc: seq<Entity>)
    requires ValidLoader(L, rank) && SceneValid(L, scene) && |scene.nodes| > 1
    ensures var r := LoadScenes(L, rank, [scene], acc);
            && |r| > |acc|
            && r[|acc|] == SceneRoot(L, scene)
            && forall j :: |acc| < j < |r| ==> r[j].parent.Some? && |acc| <= r[j].parent.value < j
  {
    var before := acc + [SceneRoot(L, scene)];
    var mid := ProcessRoots(L, rank, scene, 0, Some(|acc|), before);
    assert [scene][1..] == [];
    assert LoadScenes(L, rank, [scene], acc) == LoadScenes(L, rank, [], mid) == mid;
    assert mid[|acc|] == mid[..|before|][|acc|];
  }
}
