/**
 What the model loader computes for one asset path and one mesh, as
 functions of its inputs: the directory it keeps of the path, the index list
 of a mesh, the texture list of a material and the mesh record of a raw mesh.
 The methods of `ModelLoader.Model` are proved against these.
 */
module Conversion {
  import opened Assimp
  import opened MeshData

  /**
   `s.find_last_of(c)`: the position of the last `c` in `s`, or `None` where
   the standard library returns `npos`.
   */
  function LastIndexOf(s: string, c: char): (r: Option<nat>)
    ensures r.None? <==> c !in s
    ensures r.Some? ==> r.value < |s| && s[r.value] == c
    ensures r.Some? ==> forall k :: r.value < k < |s| ==> s[k] != c
  {
    if s == [] then None
    else if s[|s| - 1] == c then Some(|s| - 1)
    else LastIndexOf(s[..|s| - 1], c)
  }

  /**
   `path.substr(0, path.find_last_of('/'))`: the part of `path` before its
   last slash, or the whole path when it has none (`substr(0, npos)`).
   */
  function DirectoryOf(path: string): (dir: string)
    ensures '/' !in path ==> dir == path
    ensures '/' in path ==>
      && |dir| < |path|
      && dir == path[..|dir|]
      && path[|dir|] == '/'
      && '/' !in path[|dir| + 1..]
  {
    match LastIndexOf(path, '/')
    case None => path
    case Some(p) => path[..p]
  }

  /** Joining a directory and a slash-free file name, then taking the directory, gives the directory back. */
  lemma DirectoryOfJoin(dir: string, file: string)
    requires '/' !in file
    ensures DirectoryOf(dir + ['/'] + file) == dir
  {
    var path := dir + ['/'] + file;
    assert path[|dir|] == '/';
  }

  /** The indices of `faces`, face after face, each face's in its own order. */
  function FaceIndices(faces: seq<Face>): seq<UInt>
  {
    if faces == [] then [] else FaceIndices(faces[..|faces| - 1]) + faces[|faces| - 1].indices
  }

  /** One more face adds its indices at the end. */
  lemma FaceIndicesSnoc(faces: seq<Face>, i: nat)
    requires i < |faces|
    ensures FaceIndices(faces[..i + 1]) == FaceIndices(faces[..i]) + faces[i].indices
  {
    assert faces[..i + 1][..i] == faces[..i];
  }

  /** The sum of `mNumIndices` over `faces`. */
  function IndexCount(faces: seq<Face>): nat
  {
    if faces == [] then 0 else |faces[0].indices| + IndexCount(faces[1..])
  }

  lemma {:induction false} IndexCountAppend(a: seq<Face>, b: seq<Face>)
    ensures IndexCount(a + b) == IndexCount(a) + IndexCount(b)
    decreases a
  {
    if a == [] {
      assert a + b == b;
    } else {
      assert (a + b)[1..] == a[1..] + b;
      IndexCountAppend(a[1..], b);
    }
  }

  /** The index list is as long as the faces' index counts together. */
  lemma {:induction false} FaceIndicesLength(faces: seq<Face>)
    ensures |FaceIndices(faces)| == IndexCount(faces)
    decreases |faces|
  {
    if faces != [] {
      var init, last := faces[..|faces| - 1], faces[|faces| - 1];
      FaceIndicesLength(init);
      assert faces == init + [last];
      IndexCountAppend(init, [last]);
      assert [last][1..] == [];
    }
  }

  /** The index list of two runs of faces one after the other. */
  lemma {:induction false} FaceIndicesAppend(a: seq<Face>, b: seq<Face>)
    ensures FaceIndices(a + b) == FaceIndices(a) + FaceIndices(b)
    decreases |b|
  {
    if b == [] {
      assert a + b == a;
    } else {
      var ab := a + b;
      assert ab[..|ab| - 1] == a + b[..|b| - 1];
      assert ab[|ab| - 1] == b[|b| - 1];
      FaceIndicesAppend(a, b[..|b| - 1]);
    }
  }

  /**
   Index `j` of face `i` sits in the index list right after the indices of
   the faces before `i`.
   */
  lemma FaceIndicesAt(faces: seq<Face>, i: nat, j: nat)
    requires i < |faces| && j < |faces[i].indices|
    ensures IndexCount(faces[..i]) + j < |FaceIndices(faces)|
    ensures FaceIndices(faces)[IndexCount(faces[..i]) + j] == faces[i].indices[j]
  {
    var before, after := faces[..i + 1], faces[i + 1..];
    assert faces == before + after;
    FaceIndicesAppend(before, after);
    assert before[..i] == faces[..i];
    FaceIndicesLength(faces[..i]);
  }

  /** The textures of the first `n` slots of type `aiType` of `material`, tagged `txType`. */
  function SlotTextures(material: Material, aiType: TextureType, txType: TexType,
                        directory: string, gamma: bool, load: TextureLoader, n: nat): (ts: seq<Texture>)
    requires n <= TextureCount(material, aiType)
    ensures |ts| == n
  {
    if n == 0 then []
    else
      var path := TexturePath(material, aiType, n - 1);
      SlotTextures(material, aiType, txType, directory, gamma, load, n - 1)
      + [Texture(load(path, directory, gamma), txType, path)]
  }

  /** The textures of all of `material`'s slots of type `aiType`, tagged `txType`. */
  function MaterialTextures(material: Material, aiType: TextureType, txType: TexType,
                            directory: string, gamma: bool, load: TextureLoader): seq<Texture>
  {
    SlotTextures(material, aiType, txType, directory, gamma, load, TextureCount(material, aiType))
  }

  /**
   Entry `i` of a texture list is the texture of slot `i`: tagged with the
   requested kind, carrying the slot's path and the id the loader gives for
   that path, the directory and the gamma flag.
   */
  lemma {:induction false} SlotTexturesAt(material: Material, aiType: TextureType, txType: TexType,
                                          directory: string, gamma: bool, load: TextureLoader,
                                          n: nat, i: nat)
    requires n <= TextureCount(material, aiType) && i < n
    ensures var t := SlotTextures(material, aiType, txType, directory, gamma, load, n)[i];
            && t.kind == txType
            && t.path == TexturePath(material, aiType, i)
            && t.id == load(t.path, directory, gamma)
  {
    if i < n - 1 {
      SlotTexturesAt(material, aiType, txType, directory, gamma, load, n - 1, i);
    }
  }

  /**
   The mesh record built from `raw`: no vertices (the per-vertex loop never
   stores the vertex it builds), the faces' indices, then the diffuse and the
   specular textures of its material.
   */
  function MeshOf(raw: RawMesh, materials: seq<Material>,
                  directory: string, gamma: bool, load: TextureLoader): Mesh
    requires raw.materialIndex < |materials|
  {
    var material := materials[raw.materialIndex];
    Mesh([], FaceIndices(raw.faces),
         MaterialTextures(material, Diffuse, DiffuseTexture, directory, gamma, load)
         + MaterialTextures(material, Specular, SpecularTexture, directory, gamma, load))
  }

  /** A mesh record's index list holds as many indices as the faces together. */
  lemma MeshOfIndexCount(raw: RawMesh, materials: seq<Material>,
                         directory: string, gamma: bool, load: TextureLoader)
    requires raw.materialIndex < |materials|
    ensures |MeshOf(raw, materials, directory, gamma, load).indices| == IndexCount(raw.faces)
  {
    FaceIndicesLength(raw.faces);
  }

  /**
   A mesh record's texture list: first one diffuse texture per diffuse slot
   of the material, then one specular texture per specular slot, each with
   its slot's path and the id the loader gives for it.
   */
  lemma MeshOfTextures(raw: RawMesh, materials: seq<Material>,
                       directory: string, gamma: bool, load: TextureLoader)
    requires raw.materialIndex < |materials|
    ensures var material := materials[raw.materialIndex];
            var nd, ns := TextureCount(material, Diffuse), TextureCount(material, Specular);
            var ts := MeshOf(raw, materials, directory, gamma, load).textures;
            && |ts| == nd + ns
            && (forall k :: 0 <= k < nd ==>
                  ts[k] == Texture(load(TexturePath(material, Diffuse, k), directory, gamma),
                                   DiffuseTexture, TexturePath(material, Diffuse, k)))
            && (forall k :: nd <= k < nd + ns ==>
                  ts[k] == Texture(load(TexturePath(material, Specular, k - nd), directory, gamma),
                                   SpecularTexture, TexturePath(material, Specular, k - nd)))
  {
    var material := materials[raw.materialIndex];
    var nd, ns := TextureCount(material, Diffuse), TextureCount(material, Specular);
    var diffuse := MaterialTextures(material, Diffuse, DiffuseTexture, directory, gamma, load);
    var specular := MaterialTextures(material, Specular, SpecularTexture, directory, gamma, load);
    var ts := MeshOf(raw, materials, directory, gamma, load).textures;
    assert ts == diffuse + specular;
    forall k | 0 <= k < nd
      ensures ts[k] == Texture(load(TexturePath(material, Diffuse, k), directory, gamma),
                               DiffuseTexture, TexturePath(material, Diffuse, k))
    {
      SlotTexturesAt(material, Diffuse, DiffuseTexture, directory, gamma, load, nd, k);
    }
    forall k | nd <= k < nd + ns
      ensures ts[k] == Texture(load(TexturePath(material, Specular, k - nd), directory, gamma),
                               SpecularTexture, TexturePath(material, Specular, k - nd))
    {
      assert ts[k] == specular[k - nd];
      SlotTexturesAt(material, Specular, SpecularTexture, directory, gamma, load, ns, k - nd);
    }
  }
}
