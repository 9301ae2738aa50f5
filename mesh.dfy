/**
 The renderable records the model loader produces: `Mesh::Vertex`,
 `Mesh::Texture` and the data a `Mesh` is constructed from. Mesh.h is not
 part of this model; the fields are those the loader assigns.
 */
module MeshData {
  import opened Assimp

  /** A `glm::vec2`, used for texture coordinates. */
  datatype Vec2 = Vec2(x: real, y: real)

  /** `Mesh::Vertex`. */
  datatype Vertex = Vertex(position: Vec3, normal: Vec3, textureCoordinates: Vec2)

  /** `TEXTYPEenum`, as far as the loader uses it. */
  datatype TexType = DiffuseTexture | SpecularTexture

  /** `Mesh::Texture`: the loaded texture's id, its kind and its file path. */
  datatype Texture = Texture(id: nat, kind: TexType, path: string)

  /** The three lists a `Mesh` is constructed from. */
  datatype Mesh = Mesh(vertices: seq<Vertex>, indices: seq<UInt>, textures: seq<Texture>)

  /**
   `Mesh::LoadMaterialTextureFromFile(path, directory, gamma)`: decodes and
   uploads a texture and returns its id. It is outside the model and is
   taken as an arbitrary function of its three arguments.
   */
  type TextureLoader = (string, string, bool) -> nat
}
