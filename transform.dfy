/** The free functions `rotate`, `translate` and `scale` of app.js: each returns
    a new mesh and leaves its argument alone. */
module Transform {
  import opened Geometry

  /** The glMatrix calls the transforms make. The library is not part of this
      model, so it is passed in: `rotateBy(axis, angle, v)` is
      `vec3.transformQuat` of `v` by the quaternion `quat.setAxisAngle(axis, angle)`,
      and `normalize` is `vec3.normalize`. */
  datatype GlMatrix = GlMatrix(rotateBy: (Vec3, real, Vec3) -> Vec3, normalize: Vec3 -> Vec3)

  /** `translate(obj, v)`: component k of `position` moves by `v[k % 3]`. */
  function Translate(m: Mesh, v: Vec3): (r: Mesh)
    ensures |r.position| == |m.position|
    ensures forall k :: 0 <= k < |m.position| ==> r.position[k] == m.position[k] + v.At(k % 3)
    ensures r.normal == m.normal && r.uv == m.uv && r.index == m.index
  {
    m.(position := seq(|m.position|, k requires 0 <= k < |m.position| => m.position[k] + v.At(k % 3)))
  }

  /** `scale(obj, v)`: component k of `position` is multiplied by `v[k % 3]`.
      Normals are left as they are, even under a non-uniform scale. */
  function Scale(m: Mesh, v: Vec3): (r: Mesh)
    ensures |r.position| == |m.position|
    ensures forall k :: 0 <= k < |m.position| ==> r.position[k] == m.position[k] * v.At(k % 3)
    ensures r.normal == m.normal && r.uv == m.uv && r.index == m.index
  {
    m.(position := seq(|m.position|, k requires 0 <= k < |m.position| => m.position[k] * v.At(k % 3)))
  }

  /** The accumulator of the `reduce` in `rotate` after it has visited vertices
      0 .. k-1: their rotated positions and normals, and the input's `uv` and
      `index` once at least one vertex has been visited. */
  function RotateSteps(m: Mesh, axis: Vec3, angle: real, gl: GlMatrix, k: nat): (r: Mesh)
    requires 3 * k <= |m.position| && 3 * k <= |m.normal|
    ensures |r.position| == 3 * k && |r.normal| == 3 * k
    ensures forall i :: 0 <= i < k ==> Triple(r.position, i) == gl.rotateBy(axis, angle, Triple(m.position, i))
    ensures forall i :: 0 <= i < k ==> Triple(r.normal, i) == gl.rotateBy(axis, angle, Triple(m.normal, i))
    ensures k == 0 ==> r == EmptyMesh
    ensures k > 0 ==> r.uv == m.uv && r.index == m.index
  {
    if k == 0 then EmptyMesh
    else
      var agg := RotateSteps(m, axis, angle, gl, k - 1);
      var p := gl.rotateBy(axis, angle, Triple(m.position, k - 1));
      var n := gl.rotateBy(axis, angle, Triple(m.normal, k - 1));
      Mesh(agg.position + p.Flat(), agg.normal + n.Flat(), m.uv, m.index)
  }

  /** `rotate(obj, axis, r)`: every position and every normal is rotated by the
      same quaternion; `uv` and `index` pass through, except that a mesh with no
      vertices comes back as the reduce's all-empty seed. The axis is used as
      given, without normalising it. */
  function Rotate(m: Mesh, axis: Vec3, angle: real, gl: GlMatrix): (r: Mesh)
    requires |m.position| % 3 == 0 && |m.normal| >= |m.position|
    ensures |r.position| == |m.position| && |r.normal| == |m.position|
    ensures forall i :: 0 <= i < VertexCount(m) ==> Triple(r.position, i) == gl.rotateBy(axis, angle, Triple(m.position, i))
    ensures forall i :: 0 <= i < VertexCount(m) ==> Triple(r.normal, i) == gl.rotateBy(axis, angle, Triple(m.normal, i))
    ensures VertexCount(m) > 0 ==> r.uv == m.uv && r.index == m.index
    ensures VertexCount(m) == 0 ==> r == EmptyMesh
  {
    RotateSteps(m, axis, angle, gl, |m.position| / 3)
  }

  /** Two flat arrays of whole triples with the same triples are equal. */
  lemma TriplesDetermine(s: seq<real>, t: seq<real>)
    requires |s| == |t| && |s| % 3 == 0
    requires forall i :: 0 <= i < |s| / 3 ==> Triple(s, i) == Triple(t, i)
    ensures s == t
  {
    forall k | 0 <= k < |s|
      ensures s[k] == t[k]
    {
      var i := k / 3;
      assert Triple(s, i) == Triple(t, i);
      assert k == 3 * i || k == 3 * i + 1 || k == 3 * i + 2;
    }
  }

  /** Translating by `a` and then by `b` is translating by `a + b`. */
  lemma TranslateAdditive(m: Mesh, a: Vec3, b: Vec3)
    ensures Translate(Translate(m, a), b) == Translate(m, Add(a, b))
  {
    var lhs := Translate(Translate(m, a), b).position;
    var rhs := Translate(m, Add(a, b)).position;
    forall k | 0 <= k < |m.position|
      ensures lhs[k] == rhs[k]
    {
      assert Add(a, b).At(k % 3) == a.At(k % 3) + b.At(k % 3);
    }
  }

  /** Translating by the zero vector gives the mesh back. */
  lemma TranslateZero(m: Mesh)
    ensures Translate(m, Zero) == m
  {
    assert Translate(m, Zero).position == m.position;
  }

  /** Scaling by `a` and then by `b` is scaling by the componentwise product. */
  lemma ScaleMultiplicative(m: Mesh, a: Vec3, b: Vec3)
    ensures Scale(Scale(m, a), b) == Scale(m, Mul(a, b))
  {
    var lhs := Scale(Scale(m, a), b).position;
    var rhs := Scale(m, Mul(a, b)).position;
    forall k | 0 <= k < |m.position|
      ensures lhs[k] == rhs[k]
    {
      var j := k % 3;
      assert Mul(a, b).At(j) == a.At(j) * b.At(j);
    }
    assert lhs == rhs;
  }

  /** Scaling by `[1, 1, 1]` gives the mesh back. */
  lemma ScaleOne(m: Mesh)
    ensures Scale(m, One) == m
  {
    assert Scale(m, One).position == m.position;
  }

  /** `translate` and `scale` keep a well-formed mesh well-formed. */
  lemma TranslateScaleWellFormed(m: Mesh, v: Vec3)
    requires WellFormed(m)
    ensures WellFormed(Translate(m, v)) && WellFormed(Scale(m, v))
  {
  }

  /** `rotate` keeps a well-formed mesh well-formed, including the zero-vertex case. */
  lemma RotateWellFormed(m: Mesh, axis: Vec3, angle: real, gl: GlMatrix)
    requires WellFormed(m)
    ensures WellFormed(Rotate(m, axis, angle, gl))
  {
  }

  /** A rotation that fixes every vector leaves positions and normals unchanged. */
  lemma RotateIdentity(m: Mesh, axis: Vec3, angle: real, gl: GlMatrix)
    requires Shaped(m)
    requires forall v :: gl.rotateBy(axis, angle, v) == v
    ensures Rotate(m, axis, angle, gl).position == m.position
    ensures Rotate(m, axis, angle, gl).normal == m.normal
  {
    var r := Rotate(m, axis, angle, gl);
    TriplesDetermine(r.position, m.position);
    TriplesDetermine(r.normal, m.normal);
  }

  /** A rotation that preserves length preserves the length of every position
      and normal of the mesh. */
  lemma RotateIsometry(m: Mesh, axis: Vec3, angle: real, gl: GlMatrix)
    requires |m.position| % 3 == 0 && |m.normal| >= |m.position|
    requires forall v :: Norm2(gl.rotateBy(axis, angle, v)) == Norm2(v)
    ensures forall i :: 0 <= i < VertexCount(m) ==>
              Norm2(Triple(Rotate(m, axis, angle, gl).position, i)) == Norm2(Triple(m.position, i))
    ensures forall i :: 0 <= i < VertexCount(m) ==>
              Norm2(Triple(Rotate(m, axis, angle, gl).normal, i)) == Norm2(Triple(m.normal, i))
  {
  }
}
