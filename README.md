# Model loader of squirrel-gold-rush

This project models the model loader of the game (`game/Model.cpp`), the
class `Model` that turns a scene parsed by the Assimp import library into a
flat list of meshes ready for rendering. The model covers three steps:

- The loader checks the import for failure.
- It records the directory of the asset file, so that texture paths can later be resolved against it.
- It walks the scene's node tree in pre-order. For every mesh reference it meets, it appends one mesh record.

A mesh record holds three lists:

- **Indices:** the mesh's face indices, concatenated face after face.
- **Textures:** the diffuse textures of the mesh's material, then its specular ones.
- **Vertices:** always empty. The source builds one vertex per input vertex, from the position, the normal and texture-coordinate channel 0 (or (0, 0) when that channel is absent). It never stores them, and the model keeps this behaviour. The vertices the loop builds are returned as a ghost result of `ProcessMesh`, so the contract can state what each built vertex holds.

The modules:

- **`Assimp`:** the imported scene as plain values.
  - The node tree: each node is its mesh references plus its children.
  - The raw meshes, the materials and their texture slots per texture type.
  - The scene flags, with `AI_SCENE_FLAGS_INCOMPLETE` = `0x1`.
  - The failure test of the loader.
- **`MeshData`:** the records the loader produces (`Vertex`, `Texture`, the data of a `Mesh`). It also holds the texture loader `Mesh::LoadMaterialTextureFromFile`, taken as an arbitrary function of path, directory and gamma flag.
- **`Traversal`:** the pre-order list of mesh references of a subtree. It has two independent definitions beside it: a reference count, and a traversal with an explicit stack.
- **`Conversion`:** what the loader computes as functions of its inputs.
  - The directory of a path.
  - The index list of a mesh.
  - The texture list of a material.
  - The mesh record of a raw mesh.
- **`Flattening`:** the mesh list of a node walk.
  - `NodeMeshes` follows the walk's recursive shape.
  - `Flatten` turns a flat reference list into mesh records.
  - Lemmas show the two agree.
- **`ModelLoader`:** the class `Model`, with the fields `meshes`, `directory` and `gammaCorrection`. Its methods follow the source's loops. Each method is proved against the functions above.

The first loop of `processNode` (over the node's own mesh references) is written as its own method, `ProcessMeshRefs`, which `ProcessNode` calls before its loop over the children. The behaviour is that of the single source function.

## Model

| member | source | states |
|---|---|---|
| ModelLoader.Model.constructor | game/Model.cpp:3-7 | The gamma flag is stored. After a failed import the mesh list and the directory are empty. Otherwise the directory is the path's directory and the mesh list holds the mesh records of the root's subtree in pre-order. |
| ModelLoader.Model.LoadModel | game/Model.cpp:17-39 | A failed import (no scene, no root node, or the incomplete flag set) changes neither `meshes` nor `directory`. Otherwise `directory` becomes the part of the path before its last `/`, and the mesh records of the whole tree, in pre-order, are appended after the meshes already held. |
| ModelLoader.Model.ProcessNode | game/Model.cpp:41-55 | The call appends the node's own meshes, then each child's subtree from left to right, and leaves the meshes already in the list unchanged. |
| ModelLoader.Model.ProcessMeshRefs | game/Model.cpp:44-48 | The call appends one mesh record per mesh reference, in reference order, each built from the scene mesh the reference names. |
| ModelLoader.Model.ProcessMesh | game/Model.cpp:57-132 | The result is the mesh record of the raw mesh, with an empty vertex list. The built vertices number one per input vertex, and each holds the input's position and normal. Its texture coordinate is the x and y of channel 0, or (0, 0) when the channel is absent. |
| ModelLoader.Model.LoadMaterialTextures | game/Model.cpp:134-150 | The result holds exactly `GetTextureCount(aiType)` entries in slot order. Entry `i` has the requested type and the path of slot `i`, and its id is the loader applied to that path, the model's directory and its gamma flag. |
| Conversion.LastIndexOf | game/Model.cpp:36 | `find_last_of`: no position exactly when the character does not occur. Otherwise the position holds the character and no later position does. |
| Conversion.DirectoryOf | game/Model.cpp:36 | A path without `/` is its own directory. Otherwise the directory is a proper prefix of the path, the next character is `/`, and no `/` follows it. |
| Conversion.DirectoryOfJoin | game/Model.cpp:36 | Taking the directory of `dir + "/" + file`, for a file name without `/`, gives `dir` back. |
| Conversion.FaceIndicesLength | game/Model.cpp:105-115 | The index list is as long as the sum of the faces' index counts. |
| Conversion.FaceIndicesAppend | game/Model.cpp:105-115 | The index list of two runs of faces is the first run's list followed by the second's. |
| Conversion.FaceIndicesAt | game/Model.cpp:105-115 | Index `j` of face `i` sits at position (indices of the faces before `i`) + `j` of the index list. |
| Conversion.MeshOfIndexCount | game/Model.cpp:105-115 | A mesh record's index count is the sum of `mNumIndices` over the mesh's faces. |
| Conversion.SlotTextures | game/Model.cpp:137-147 | The texture list of the first `n` slots has `n` entries. |
| Conversion.SlotTexturesAt | game/Model.cpp:137-147 | Entry `i` of a texture list carries the requested type, the path of slot `i` and the loader's id for that path, directory and gamma flag. |
| Conversion.MeshOfTextures | game/Model.cpp:117-129 | A mesh record's texture list first holds one diffuse texture per diffuse slot, in slot order, then one specular texture per specular slot, in slot order. There is nothing else: the length is the sum of the two slot counts. |
| Traversal.PreorderLength | game/Model.cpp:41-55 | The pre-order reference list of a subtree is as long as the subtree's reference count. |
| Traversal.ChildSlice | game/Model.cpp:41-55 | The pre-order list around child `j` is the node's own references, then those of the children before `j`, child `j`'s subtree, and the children after `j`. |
| Traversal.WorklistIsForest | game/Model.cpp:41-55 | A traversal with an explicit stack (pop a node, emit its references, push its children leftmost on top) emits the stack's subtrees in pre-order, one after the other. |
| Traversal.WorklistIsPreorder | game/Model.cpp:41-55 | The explicit-stack traversal from the root emits exactly the recursive pre-order list. |
| Flattening.Flatten | game/Model.cpp:44-48 | One mesh record per reference. |
| Flattening.FlattenAt | game/Model.cpp:44-48 | Entry `k` of the mesh list is the mesh record of the scene mesh that reference `k` names. |
| Flattening.UnreferencedMeshIgnored | game/Model.cpp:44-48 | Only referenced meshes are read: adding any mesh, however malformed, to a well-formed scene's mesh list keeps the scene well-formed. |
| Flattening.FlattenAppend | game/Model.cpp:41-55 | The mesh list of two reference lists, one after the other, is the first one's meshes followed by the second one's. |
| Flattening.NodeMeshesPreorder | game/Model.cpp:41-55 | The meshes the walk appends for a subtree are the mesh records of the subtree's pre-order references. There are exactly as many as the subtree has references. |

## Left out

- `Model::Draw`, and the `Mesh` constructor and its GPU buffer set-up (game/Model.cpp:9-15, 131): these are rendering calls. A `Mesh` is modelled as the three lists it is constructed from.
- `Assimp::Importer::ReadFile` and the parsing of the asset file, including the effect of `aiProcess_Triangulate` and `aiProcess_FlipUVs` (game/Model.cpp:19-27). The importer's answer is a parameter, `imported`, which is `None` when no scene is returned.
- `Mesh::LoadMaterialTextureFromFile` (game/Model.cpp:143): texture decoding and upload. It is the arbitrary function `loadTexture`, fixed when the model is constructed. As a function it is deterministic in its three arguments, so two slots with the same path (under the same directory and gamma flag) get equal ids in the model. The real loader decodes and uploads again on every call and makes no such promise; the source does not deduplicate textures.
- The console error messages of the failure path (game/Model.cpp:31-32).
- Floating-point values: positions, normals and texture coordinates are only copied, so they are reals that nothing computes with.
- Texture-coordinate channels 1 to 7, which the loader never reads.
- Out-of-range reads: the source reads `mNormals[i]`, `mTextureCoords[0][i]`, `scene->mMeshes[node->mMeshes[i]]` and `mMaterials[mMaterialIndex]` without checks, and is undefined when these are out of range. The model instead requires this of every mesh that some node of the tree references, and of no other mesh: the reference names a scene mesh, that mesh names a scene material, and it has a normal (and, when channel 0 is present, a texture coordinate) for every vertex (`SceneWellFormed`, `Readable`, `VertexDataComplete`). Meshes no node references are never read and are unconstrained.
- The `mMaterialIndex >= 0` test (game/Model.cpp:117): the index is unsigned, so the test always holds, and the material branch is always taken.
- Mesh.h, idea/Game/Player.h and idea/Terrain/TerrainGenerator.h are not part of this model. The record types of Mesh.h are inferred from the fields the loader assigns. The two headers hold declarations only.
