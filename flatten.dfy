/**
 The mesh list the node walk produces. `NodeMeshes` follows the walk's own
 shape (a node's meshes, then its children's, recursively); `Flatten` maps
 a flat list of mesh references to mesh records. The lemmas show that the
 walk's list is `Flatten` of the subtree's pre-order references.
 */
module Flattening {
  import opened Assimp
  import opened MeshData
  import opened Traversal
  import opened Conversion

  /**
   Reference `r` names a mesh of `scene` that the loader can read: the mesh
   names a material of the scene and has full vertex data.
   */
  predicate Readable(scene: Scene, r: UInt)
  {
    && r < |scene.meshes|
    && scene.meshes[r].materialIndex < |scene.materials|
    && VertexDataComplete(scene.meshes[r])
  }

  /** Every reference of `refs` names a mesh of `scene` that the loader can read. */
  predicate InScene(refs: seq<UInt>, scene: Scene)
  {
    forall k :: 0 <= k < |refs| ==> Readable(scene, refs[k])
  }

  lemma InSceneAppend(a: seq<UInt>, b: seq<UInt>, scene: Scene)
    ensures InScene(a + b, scene) <==> InScene(a, scene) && InScene(b, scene)
  {
    assert forall k :: 0 <= k < |a| ==> (a + b)[k] == a[k];
    assert forall k :: 0 <= k < |b| ==> (a + b)[|a| + k] == b[k];
  }

  /** Every mesh reference of the subtree rooted at `n` names a mesh of `scene`. */
  predicate RefsInScene(n: Node, scene: Scene)
  {
    InScene(PreorderRefs(n), scene)
  }

  /** What the loader demands of a scene the importer did not reject. */
  predicate SceneWellFormed(scene: Scene)
  {
    scene.rootNode.Some? ==> RefsInScene(scene.rootNode.value, scene)
  }

  /**
   Only the meshes the tree references are read: a well-formed scene stays
   well-formed when any mesh, however malformed, is added to its mesh list.
   */
  lemma UnreferencedMeshIgnored(scene: Scene, extra: RawMesh)
    requires SceneWellFormed(scene)
    ensures SceneWellFormed(scene.(meshes := scene.meshes + [extra]))
  {
  }

  /** The subtrees of the first `j` children, and child `j`, name meshes of the scene. */
  lemma ForestPartsInScene(cs: seq<Node>, j: nat, scene: Scene)
    requires j < |cs| && InScene(Forest(cs), scene)
    ensures InScene(Forest(cs[..j]), scene) && RefsInScene(cs[j], scene)
  {
    var front, back := cs[..j + 1], cs[j + 1..];
    assert cs == front + back;
    ForestAppend(front, back);
    InSceneAppend(Forest(front), Forest(back), scene);
    ForestSnoc(cs, j);
    InSceneAppend(Forest(cs[..j]), PreorderRefs(cs[j]), scene);
  }

  /** The mesh records of the meshes `refs` names, in the order of `refs`. */
  function Flatten(scene: Scene, refs: seq<UInt>,
                   directory: string, gamma: bool, load: TextureLoader): (ms: seq<Mesh>)
    requires InScene(refs, scene)
    ensures |ms| == |refs|
  {
    if refs == [] then []
    else
      var last := scene.meshes[refs[|refs| - 1]];
      Flatten(scene, refs[..|refs| - 1], directory, gamma, load)
      + [MeshOf(last, scene.materials, directory, gamma, load)]
  }

  /** Entry `k` of the mesh list is the mesh record of the mesh `refs[k]` names. */
  lemma {:induction false} FlattenAt(scene: Scene, refs: seq<UInt>, k: nat,
                                     directory: string, gamma: bool, load: TextureLoader)
    requires InScene(refs, scene) && k < |refs|
    ensures Flatten(scene, refs, directory, gamma, load)[k]
         == MeshOf(scene.meshes[refs[k]], scene.materials, directory, gamma, load)
    decreases |refs|
  {
    if k < |refs| - 1 {
      FlattenAt(scene, refs[..|refs| - 1], k, directory, gamma, load);
    }
  }

  /** One more reference adds its mesh record at the end. */
  lemma FlattenSnoc(scene: Scene, refs: seq<UInt>, i: nat,
                    directory: string, gamma: bool, load: TextureLoader)
    requires InScene(refs, scene) && i < |refs|
    ensures InScene(refs[..i], scene) && InScene(refs[..i + 1], scene)
    ensures Flatten(scene, refs[..i + 1], directory, gamma, load)
         == Flatten(scene, refs[..i], directory, gamma, load)
            + [MeshOf(scene.meshes[refs[i]], scene.materials, directory, gamma, load)]
  {
    assert refs[..i + 1][..i] == refs[..i];
  }

  /** The mesh list of two reference lists one after the other. */
  lemma {:induction false} FlattenAppend(scene: Scene, a: seq<UInt>, b: seq<UInt>,
                                         directory: string, gamma: bool, load: TextureLoader)
    requires InScene(a, scene) && InScene(b, scene)
    ensures InScene(a + b, scene)
    ensures Flatten(scene, a + b, directory, gamma, load)
         == Flatten(scene, a, directory, gamma, load) + Flatten(scene, b, directory, gamma, load)
    decreases |b|
  {
    InSceneAppend(a, b, scene);
    if b == [] {
      assert a + b == a;
    } else {
      var b' := b[..|b| - 1];
      assert (a + b)[..|a + b| - 1] == a + b';
      InSceneAppend(b', [b[|b| - 1]], scene);
      assert b == b' + [b[|b| - 1]];
      FlattenAppend(scene, a, b', directory, gamma, load);
    }
  }

  /** The meshes the walk emits for the subtree rooted at `n`: its own, then its children's. */
  function NodeMeshes(scene: Scene, n: Node,
                      directory: string, gamma: bool, load: TextureLoader): seq<Mesh>
    requires RefsInScene(n, scene)
    decreases n, 1
  {
    InSceneAppend(n.meshRefs, Forest(n.children), scene);
    Flatten(scene, n.meshRefs, directory, gamma, load)
    + ForestMeshes(scene, n.children, directory, gamma, load)
  }

  /** The meshes the walk emits for the subtrees `cs`, left to right. */
  function ForestMeshes(scene: Scene, cs: seq<Node>,
                        directory: string, gamma: bool, load: TextureLoader): seq<Mesh>
    requires InScene(Forest(cs), scene)
    decreases cs, 0
  {
    if cs == [] then []
    else
      ForestPartsInScene(cs, |cs| - 1, scene);
      ForestMeshes(scene, cs[..|cs| - 1], directory, gamma, load)
      + NodeMeshes(scene, cs[|cs| - 1], directory, gamma, load)
  }

  /** One more child walked adds its subtree's meshes at the end. */
  lemma ForestMeshesSnoc(scene: Scene, cs: seq<Node>, j: nat,
                         directory: string, gamma: bool, load: TextureLoader)
    requires j < |cs| && InScene(Forest(cs[..j + 1]), scene)
    ensures InScene(Forest(cs[..j]), scene) && RefsInScene(cs[j], scene)
    ensures ForestMeshes(scene, cs[..j + 1], directory, gamma, load)
         == ForestMeshes(scene, cs[..j], directory, gamma, load) + NodeMeshes(scene, cs[j], directory, gamma, load)
  {
    ForestSnoc(cs, j);
    InSceneAppend(Forest(cs[..j]), PreorderRefs(cs[j]), scene);
    assert cs[..j + 1][..j] == cs[..j];
  }

  /**
   The walk's mesh list is the mesh records of the subtree's references in
   pre-order, one per reference.
   */
  lemma {:induction false} NodeMeshesPreorder(scene: Scene, n: Node,
                                              directory: string, gamma: bool, load: TextureLoader)
    requires RefsInScene(n, scene)
    ensures NodeMeshes(scene, n, directory, gamma, load)
         == Flatten(scene, PreorderRefs(n), directory, gamma, load)
    ensures |NodeMeshes(scene, n, directory, gamma, load)| == RefCount(n)
    decreases n, 1
  {
    InSceneAppend(n.meshRefs, Forest(n.children), scene);
    ForestMeshesPreorder(scene, n.children, directory, gamma, load);
    FlattenAppend(scene, n.meshRefs, Forest(n.children), directory, gamma, load);
    PreorderLength(n);
  }

  lemma {:induction false} ForestMeshesPreorder(scene: Scene, cs: seq<Node>,
                                                directory: string, gamma: bool, load: TextureLoader)
    requires InScene(Forest(cs), scene)
    ensures ForestMeshes(scene, cs, directory, gamma, load)
         == Flatten(scene, Forest(cs), directory, gamma, load)
    decreases cs, 0
  {
    if cs != [] {
      var init, last := cs[..|cs| - 1], cs[|cs| - 1];
      ForestPartsInScene(cs, |cs| - 1, scene);
      ForestMeshesPreorder(scene, init, directory, gamma, load);
      NodeMeshesPreorder(scene, last, directory, gamma, load);
      FlattenAppend(scene, Forest(init), PreorderRefs(last), directory, gamma, load);
    }
  }
}
