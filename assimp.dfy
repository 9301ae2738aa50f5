/**
 The already-parsed asset scene that the Assimp importer hands to the model
 loader, described as plain values. Only the parts the loader reads are kept:
 the node tree with its mesh references, the raw meshes (vertex data, faces,
 material index), the materials (texture paths per texture kind) and the
 scene flags. Vertex coordinates are copied and never computed with.
 */
module Assimp {

  datatype Option<+T> = None | Some(value: T)

  /** Assimp's `unsigned int`, the type of face indices and mesh references. */
  type UInt = x: int | 0 <= x < 0x1_0000_0000

  /** An `aiVector3D`; used for positions, normals and texture coordinates. */
  datatype Vec3 = Vec3(x: real, y: real, z: real)

  /** An `aiFace`: one primitive, given by its vertex indices (`mIndices`). */
  datatype Face = Face(indices: seq<UInt>)

  /**
   An `aiMesh`. `textureCoords0` is texture-coordinate channel 0
   (`mTextureCoords[0]`), `None` when that channel is absent; the loader
   never reads the other channels.
   */
  datatype RawMesh = RawMesh(
    vertices: seq<Vec3>,
    normals: seq<Vec3>,
    textureCoords0: Option<seq<Vec3>>,
    faces: seq<Face>,
    materialIndex: UInt)

  /** The `aiTextureType` values a material can list textures under. */
  datatype TextureType =
    | TextureNone | Diffuse | Specular | Ambient | Emissive | Height | Normals
    | Shininess | Opacity | Displacement | Lightmap | Reflection | TextureUnknown

  /**
   An `aiMaterial`: for each texture type, the paths of its texture slots in
   slot order. A type that is not a key has no slots.
   */
  datatype Material = Material(slots: map<TextureType, seq<string>>)

  /** `aiMaterial::GetTextureCount`. */
  function TextureCount(m: Material, t: TextureType): nat
  {
    if t in m.slots then |m.slots[t]| else 0
  }

  /** The path `aiMaterial::GetTexture(t, i, &path)` yields for slot `i`. */
  function TexturePath(m: Material, t: TextureType, i: nat): string
    requires i < TextureCount(m, t)
  {
    m.slots[t][i]
  }

  /** An `aiNode`: the indices of its meshes in the scene, then its children. */
  datatype Node = Node(meshRefs: seq<UInt>, children: seq<Node>)

  /** An `aiScene`; a missing root node is `rootNode == None`. */
  datatype Scene = Scene(
    meshes: seq<RawMesh>,
    materials: seq<Material>,
    rootNode: Option<Node>,
    flags: bv32)

  /** `AI_SCENE_FLAGS_INCOMPLETE` of Assimp's scene.h. */
  const SceneFlagsIncomplete: bv32 := 0x1

  /**
   The import failed: no scene (`ReadFile` returned null), no root node, or
   the incomplete flag is set.
   */
  predicate ImportFailed(imported: Option<Scene>)
  {
    || imported.None?
    || imported.value.rootNode.None?
    || imported.value.flags & SceneFlagsIncomplete != 0
  }

  /**
   What the per-vertex loop reads of a mesh: a normal for every vertex and,
   when channel 0 is present, a texture coordinate for every vertex.
   */
  predicate VertexDataComplete(m: RawMesh)
  {
    && |m.normals| >= |m.vertices|
    && (m.textureCoords0.Some? ==> |m.textureCoords0.value| >= |m.vertices|)
  }
}
