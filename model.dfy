/**
 The model loader of game/Model.cpp: a `Model` owns the list of meshes it has
 flattened out of an imported scene and the directory of the asset file,
 against which texture paths are resolved.
 */
module ModelLoader {
  import opened Assimp
  import opened MeshData
  import opened Traversal
  import opened Conversion
  import opened Flattening
  import opened Seqs

  class Model {
    /** The meshes loaded so far, in the order the node walk met them. */
    var meshes: seq<Mesh>
    /** The asset file's directory; empty until a load succeeds. */
    var directory: string
    var gammaCorrection: bool
    /** `Mesh::LoadMaterialTextureFromFile`. */
    const loadTexture: TextureLoader

    /**
     `Model(path, gamma)`. The importer's answer for `path` is the parameter
     `imported` (`None` when it returned no scene).
     */
    constructor (path: string, gamma: bool, imported: Option<Scene>, loader: TextureLoader)
      requires !ImportFailed(imported) ==> SceneWellFormed(imported.value)
      ensures gammaCorrection == gamma && loadTexture == loader
      ensures ImportFailed(imported) ==> meshes == [] && directory == ""
      ensures !ImportFailed(imported) ==>
        && directory == DirectoryOf(path)
        && meshes == Flatten(imported.value, PreorderRefs(imported.value.rootNode.value),
                             directory, gamma, loader)
    {
      meshes := [];
      directory := "";
      gammaCorrection := gamma;
      loadTexture := loader;
      new;
      LoadModel(path, imported);
      if !ImportFailed(imported) {
        var scene := imported.value;
        assert meshes == [] + Flatten(scene, PreorderRefs(scene.rootNode.value), directory, gamma, loader);
      }
    }

    /**
     `loadModel`: on a failed import nothing changes; otherwise the directory
     becomes the part of `path` before its last slash and the meshes of the
     whole node tree are appended in pre-order.
     */
    method LoadModel(path: string, imported: Option<Scene>)
      requires !ImportFailed(imported) ==> SceneWellFormed(imported.value)
      modifies this`meshes, this`directory
      ensures ImportFailed(imported) ==> meshes == old(meshes) && directory == old(directory)
      ensures !ImportFailed(imported) ==>
        && directory == DirectoryOf(path)
        && meshes == old(meshes)
                     + Flatten(imported.value, PreorderRefs(imported.value.rootNode.value),
                               directory, gammaCorrection, loadTexture)
    {
      if ImportFailed(imported) {
        return;
      }
      var scene := imported.value;
      directory := DirectoryOf(path);
      ProcessNode(scene.rootNode.value, scene);
      NodeMeshesPreorder(scene, scene.rootNode.value, directory, gammaCorrection, loadTexture);
    }

    /**
     `processNode`: appends the meshes of the subtree rooted at `node`, the
     node's own first, then each child's subtree from left to right. That is
     one mesh per mesh reference of the subtree, in pre-order, and the meshes
     already in the list stay as they are.
     */
    method ProcessNode(node: Node, scene: Scene)
      requires RefsInScene(node, scene)
      modifies this`meshes
      ensures meshes == old(meshes) + NodeMeshes(scene, node, directory, gammaCorrection, loadTexture)
      ensures meshes[..|old(meshes)|] == old(meshes)
      decreases node
    {
      ghost var dir, gamma, load := directory, gammaCorrection, loadTexture;
      ghost var refs, children := node.meshRefs, node.children;
      InSceneAppend(refs, Forest(children), scene);
      ProcessMeshRefs(node.meshRefs, scene);
      ghost var own := Flatten(scene, refs, dir, gamma, load);

      assert children[..0] == [];
      var j := 0;
      while j < |node.children|
        invariant 0 <= j <= |children|
        invariant InScene(Forest(children[..j]), scene)
        invariant meshes == old(meshes) + own + ForestMeshes(scene, children[..j], dir, gamma, load)
      {
        ForestPartsInScene(children, j, scene);
        ForestSnoc(children, j);
        InSceneAppend(Forest(children[..j]), PreorderRefs(children[j]), scene);
        ForestMeshesSnoc(scene, children, j, dir, gamma, load);
        ProcessNode(node.children[j], scene);
        AppendAssoc(old(meshes) + own, ForestMeshes(scene, children[..j], dir, gamma, load),
                    NodeMeshes(scene, children[j], dir, gamma, load));
        j := j + 1;
      }
      assert children[..j] == children;
      AppendAssoc(old(meshes), own, ForestMeshes(scene, children, dir, gamma, load));
      assert meshes == old(meshes) + NodeMeshes(scene, node, dir, gamma, load);
      TakeAppend(old(meshes), NodeMeshes(scene, node, dir, gamma, load));
    }

    /**
     The first loop of `processNode`: one mesh record per reference, in
     reference order, appended after the meshes already in the list.
     */
    method ProcessMeshRefs(refs: seq<UInt>, scene: Scene)
      requires InScene(refs, scene)
      modifies this`meshes
      ensures meshes == old(meshes) + Flatten(scene, refs, directory, gammaCorrection, loadTexture)
    {
      ghost var dir, gamma, load := directory, gammaCorrection, loadTexture;
      var i := 0;
      while i < |refs|
        invariant 0 <= i <= |refs|
        invariant InScene(refs[..i], scene)
        invariant meshes == old(meshes) + Flatten(scene, refs[..i], dir, gamma, load)
      {
        var mesh, _ := ProcessMesh(scene.meshes[refs[i]], scene);
        FlattenSnoc(scene, refs, i, dir, gamma, load);
        AppendAssoc(old(meshes), Flatten(scene, refs[..i], dir, gamma, load), [mesh]);
        meshes := meshes + [mesh];
        i := i + 1;
      }
      assert refs[..i] == refs;
    }

    /**
     `processMesh`: the mesh record of `raw`. Its vertex list is empty, as in
     the source, where each vertex is built in a local and then dropped; the
     ghost result `built` holds the vertices the loop builds. The index list
     is the faces' indices in order; the textures are the material's diffuse
     textures followed by its specular ones.
     */
    method ProcessMesh(raw: RawMesh, scene: Scene) returns (mesh: Mesh, ghost built: seq<Vertex>)
      requires raw.materialIndex < |scene.materials| && VertexDataComplete(raw)
      ensures mesh == MeshOf(raw, scene.materials, directory, gammaCorrection, loadTexture)
      ensures mesh.vertices == []
      ensures |built| == |raw.vertices|
      ensures forall i :: 0 <= i < |built| ==>
        && built[i].position == raw.vertices[i]
        && built[i].normal == raw.normals[i]
        && built[i].textureCoordinates
           == if raw.textureCoords0.Some?
              then Vec2(raw.textureCoords0.value[i].x, raw.textureCoords0.value[i].y)
              else Vec2(0.0, 0.0)
    {
      var vertices: seq<Vertex> := [];
      var indices: seq<UInt> := [];
      var textures: seq<Texture> := [];

      built := [];
      var i := 0;
      while i < |raw.vertices|
        invariant 0 <= i <= |raw.vertices|
        invariant |built| == i
        invariant forall k :: 0 <= k < i ==>
          && built[k].position == raw.vertices[k]
          && built[k].normal == raw.normals[k]
          && built[k].textureCoordinates
             == if raw.textureCoords0.Some?
                then Vec2(raw.textureCoords0.value[k].x, raw.textureCoords0.value[k].y)
                else Vec2(0.0, 0.0)
      {
        var position := raw.vertices[i];
        var normal := raw.normals[i];
        var textureCoordinates;
        if raw.textureCoords0.Some? {
          var uv := raw.textureCoords0.value[i];
          textureCoordinates := Vec2(uv.x, uv.y);
        } else {
          textureCoordinates := Vec2(0.0, 0.0);
        }
        var vertex := Vertex(position, normal, textureCoordinates);
        built := built + [vertex];
        i := i + 1;
      }

      i := 0;
      while i < |raw.faces|
        invariant 0 <= i <= |raw.faces|
        invariant indices == FaceIndices(raw.faces[..i])
      {
        var face := raw.faces[i];
        var j := 0;
        while j < |face.indices|
          invariant 0 <= j <= |face.indices|
          invariant indices == FaceIndices(raw.faces[..i]) + face.indices[..j]
        {
          TakeSnoc(face.indices, j);
          AppendAssoc(FaceIndices(raw.faces[..i]), face.indices[..j], [face.indices[j]]);
          indices := indices + [face.indices[j]];
          j := j + 1;
        }
        assert face.indices[..j] == face.indices;
        FaceIndicesSnoc(raw.faces, i);
        i := i + 1;
      }
      assert raw.faces[..i] == raw.faces;
      FaceIndicesLength(raw.faces);

      // `mMaterialIndex` is unsigned, so the source's `>= 0` test always holds.
      var material := scene.materials[raw.materialIndex];
      var diffuseMaps := LoadMaterialTextures(material, Diffuse, DiffuseTexture);
      textures := textures + diffuseMaps;
      var specularMaps := LoadMaterialTextures(material, Specular, SpecularTexture);
      textures := textures + specularMaps;

      mesh := Mesh(vertices, indices, textures);
    }

    /**
     `loadMaterialTextures`: one texture per slot of `material` of type
     `aiType`, in slot order, tagged `txType`, with the slot's path and the id
     the texture loader gives for that path, the model's directory and its
     gamma-correction flag.
     */
    method LoadMaterialTextures(material: Material, aiType: TextureType, txType: TexType)
      returns (textures: seq<Texture>)
      ensures |textures| == TextureCount(material, aiType)
      ensures forall i :: 0 <= i < |textures| ==>
        && textures[i].kind == txType
        && textures[i].path == TexturePath(material, aiType, i)
        && textures[i].id == loadTexture(textures[i].path, directory, gammaCorrection)
      ensures textures == MaterialTextures(material, aiType, txType, directory, gammaCorrection, loadTexture)
    {
      textures := [];
      var i := 0;
      while i < TextureCount(material, aiType)
        invariant 0 <= i <= TextureCount(material, aiType)
        invariant textures == SlotTextures(material, aiType, txType, directory, gammaCorrection, loadTexture, i)
      {
        var path := TexturePath(material, aiType, i);
        var texture := Texture(loadTexture(path, directory, gammaCorrection), txType, path);
        textures := textures + [texture];
        i := i + 1;
      }
      forall k | 0 <= k < |textures|
        ensures textures[k].kind == txType
        ensures textures[k].path == TexturePath(material, aiType, k)
        ensures textures[k].id == loadTexture(textures[k].path, directory, gammaCorrection)
      {
        SlotTexturesAt(material, aiType, txType, directory, gammaCorrection, loadTexture, i, k);
      }
    }
  }
}
