/** Scripts/Utility/MeshGenerator.cs: a builder that collects vertices,
    normals, uvs and triangle indices in four append-only lists and copies
    them into a mesh on request. */
module Meshes {
  import opened Wrappers
  import opened Vectors

  /** The parts of a Unity `Mesh` that `CreateMesh` sets. Normals and uvs are
      `None` when the builder left them unset. */
  datatype Mesh = Mesh(vertices: seq<Vector3>, triangles: seq<int>,
                       normals: Option<seq<Vector3>>, uv: Option<seq<Vector2>>)

  /** The mesh made from the four lists: vertices and triangles always,
      normals and uvs only when there is exactly one per vertex. */
  function MeshOf(vertices: seq<Vector3>, normals: seq<Vector3>, uvs: seq<Vector2>, indices: seq<int>): (m: Mesh)
    ensures m.vertices == vertices && m.triangles == indices
    ensures m.normals.Some? <==> |normals| == |vertices|
    ensures m.normals.Some? ==> m.normals.value == normals
    ensures m.uv.Some? <==> |uvs| == |vertices|
    ensures m.uv.Some? ==> m.uv.value == uvs
  {
    Mesh(vertices, indices,
         if |normals| == |vertices| then Some(normals) else None,
         if |uvs| == |vertices| then Some(uvs) else None)
  }

  /** Adding one normal per added vertex keeps the normals in the mesh, and
      adding vertices without normals drops them. */
  lemma NormalsFollowVertices(vertices: seq<Vector3>, normals: seq<Vector3>, uvs: seq<Vector2>, indices: seq<int>,
                              addedVertices: seq<Vector3>, addedNormals: seq<Vector3>)
    requires |normals| == |vertices|
    ensures |addedNormals| == |addedVertices| ==>
              MeshOf(vertices + addedVertices, normals + addedNormals, uvs, indices).normals
              == Some(normals + addedNormals)
    ensures |addedVertices| > 0 ==>
              MeshOf(vertices + addedVertices, normals, uvs, indices).normals == None
  {
  }

  class MeshGenerator {
    var vertices: seq<Vector3>
    var normals: seq<Vector3>
    var uvs: seq<Vector2>
    var indices: seq<int>

    /** The read-only views `Vertices`, `Normals` and `UVs`: live views of the
        lists, so they always show the current contents. */
    function Vertices(): seq<Vector3>
      reads this
    {
      vertices
    }

    function Normals(): seq<Vector3>
      reads this
    {
      normals
    }

    function UVs(): seq<Vector2>
      reads this
    {
      uvs
    }

    constructor()
      ensures Vertices() == [] && Normals() == [] && UVs() == [] && indices == []
    {
      vertices := [];
      normals := [];
      uvs := [];
      indices := [];
    }

    method AddNormal(normal: Vector3)
      modifies this
      ensures Normals() == old(Normals()) + [normal]
      ensures Vertices() == old(Vertices()) && UVs() == old(UVs()) && indices == old(indices)
    {
      normals := normals + [normal];
    }

    method AddVertex(vertex: Vector3)
      modifies this
      ensures Vertices() == old(Vertices()) + [vertex]
      ensures Normals() == old(Normals()) && UVs() == old(UVs()) && indices == old(indices)
    {
      vertices := vertices + [vertex];
    }

    method AddVertices(added: seq<Vector3>)
      modifies this
      ensures Vertices() == old(Vertices()) + added
      ensures Normals() == old(Normals()) && UVs() == old(UVs()) && indices == old(indices)
    {
      vertices := vertices + added;
    }

    method AddNormals(added: seq<Vector3>)
      modifies this
      ensures Normals() == old(Normals()) + added
      ensures Vertices() == old(Vertices()) && UVs() == old(UVs()) && indices == old(indices)
    {
      normals := normals + added;
    }

    method AddUVs(added: seq<Vector2>)
      modifies this
      ensures UVs() == old(UVs()) + added
      ensures Vertices() == old(Vertices()) && Normals() == old(Normals()) && indices == old(indices)
    {
      uvs := uvs + added;
    }

    /** `AddTriangle(params int[])`: appends the whole array, in order. */
    method AddTriangleIndices(added: seq<int>)
      modifies this
      ensures indices == old(indices) + added
      ensures Vertices() == old(Vertices()) && Normals() == old(Normals()) && UVs() == old(UVs())
    {
      indices := indices + added;
    }

    /** `AddTriangle(p0, p1, p2)`: three single appends, in argument order. */
    method AddTriangle(p0: int, p1: int, p2: int)
      modifies this
      ensures |indices| == |old(indices)| + 3
      ensures indices[..|old(indices)|] == old(indices)
      ensures indices[|old(indices)|..] == [p0, p1, p2]
      ensures Vertices() == old(Vertices()) && Normals() == old(Normals()) && UVs() == old(UVs())
    {
      indices := indices + [p0];
      indices := indices + [p1];
      indices := indices + [p2];
    }

    /** `CreateMesh`: copies the lists into a new mesh and changes none of
        them. */
    method CreateMesh() returns (mesh: Mesh)
      ensures mesh == MeshOf(Vertices(), Normals(), UVs(), indices)
    {
      var normalsOut: Option<seq<Vector3>> := None;
      var uvOut: Option<seq<Vector2>> := None;
      if |normals| == |vertices| {
        normalsOut := Some(normals);
      }
      if |uvs| == |vertices| {
        uvOut := Some(uvs);
      }
      mesh := Mesh(vertices, indices, normalsOut, uvOut);
    }
  }
}
