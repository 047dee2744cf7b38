/** The mesh value shared by the transforms of app.js and the class in Object.js:
    four flat arrays, `position` and `normal` with three numbers per vertex,
    `uv` with two, and `index` a triangle list into the mesh's own vertices. */
module Geometry {

  /** A 3-component vector: an `[x, y, z]` array argument or a glMatrix `vec3`. */
  datatype Vec3 = Vec3(x: real, y: real, z: real) {

    /** The component `v[k]` of the array form. */
    function At(k: nat): real
      requires k < 3
    {
      if k == 0 then x else if k == 1 then y else z
    }

    /** The three components in array order, as `concat(...v)` spreads them. */
    function Flat(): seq<real>
    {
      [x, y, z]
    }
  }

  function Add(a: Vec3, b: Vec3): Vec3
  {
    Vec3(a.x + b.x, a.y + b.y, a.z + b.z)
  }

  function Mul(a: Vec3, b: Vec3): Vec3
  {
    Vec3(a.x * b.x, a.y * b.y, a.z * b.z)
  }

  /** The squared Euclidean length of a vector. */
  function Norm2(v: Vec3): real
  {
    v.x * v.x + v.y * v.y + v.z * v.z
  }

  const Zero := Vec3(0.0, 0.0, 0.0)
  const One := Vec3(1.0, 1.0, 1.0)

  /** The vector stored flat at `s[3i], s[3i+1], s[3i+2]`. */
  function Triple(s: seq<real>, i: nat): Vec3
    requires 3 * i + 3 <= |s|
  {
    Vec3(s[3 * i], s[3 * i + 1], s[3 * i + 2])
  }

  datatype Mesh = Mesh(position: seq<real>, normal: seq<real>, uv: seq<real>, index: seq<nat>)

  /** The seed `{ position: [], normal: [], uv: [], index: [] }` of every fold. */
  const EmptyMesh := Mesh([], [], [], [])

  /** Vertex count as the code computes it, `position.length / 3`. */
  function VertexCount(m: Mesh): nat
  {
    |m.position| / 3
  }

  /** The per-vertex lengths agree: whole triples, and as many normals and uvs as positions. */
  predicate Shaped(m: Mesh)
  {
    |m.position| % 3 == 0 && |m.normal| == |m.position| && |m.uv| == 2 * VertexCount(m)
  }

  /** Every index refers to a vertex of the mesh itself. */
  predicate IndicesInRange(m: Mesh)
  {
    forall i :: 0 <= i < |m.index| ==> m.index[i] < VertexCount(m)
  }

  predicate WellFormed(m: Mesh)
  {
    Shaped(m) && IndicesInRange(m)
  }
}
