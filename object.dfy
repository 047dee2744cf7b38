/** The class `Object` of Object.js: it owns one mesh in the field `obj`, and
    `rotate`, `translate` and `scale` replace that field with a transformed copy. */
module Objects {
  import opened Geometry
  import Transform

  class Object {
    var obj: Mesh

    /** Stores the given mesh as it is. */
    constructor (obj: Mesh)
      ensures this.obj == obj
    {
      this.obj := obj;
    }

    /** Unlike the free `rotate` of app.js, the axis is normalised before the
        quaternion is built. Every position and normal triple is rotated; `uv`
        and `index` are kept, unless the mesh has no vertex, when the field
        becomes the all-empty seed of the reduce. */
    method Rotate(axis: Vec3, r: real, gl: Transform.GlMatrix)
      requires |obj.position| % 3 == 0 && |obj.normal| >= |obj.position|
      modifies this
      ensures obj == Transform.Rotate(old(obj), gl.normalize(axis), r, gl)
      ensures |obj.position| == |old(obj).position| && |obj.normal| == |old(obj).position|
      ensures forall i :: 0 <= i < VertexCount(old(obj)) ==>
                Triple(obj.position, i) == gl.rotateBy(gl.normalize(axis), r, Triple(old(obj).position, i)) &&
                Triple(obj.normal, i) == gl.rotateBy(gl.normalize(axis), r, Triple(old(obj).normal, i))
      ensures VertexCount(old(obj)) > 0 ==> obj.uv == old(obj).uv && obj.index == old(obj).index
      ensures VertexCount(old(obj)) == 0 ==> obj == EmptyMesh
    {
      obj := Transform.Rotate(obj, gl.normalize(axis), r, gl);
    }

    /** Component k of `position` moves by `v[k % 3]`; nothing else changes. */
    method Translate(v: Vec3)
      modifies this
      ensures obj == Transform.Translate(old(obj), v)
      ensures |obj.position| == |old(obj).position|
      ensures forall k :: 0 <= k < |obj.position| ==> obj.position[k] == old(obj).position[k] + v.At(k % 3)
      ensures obj.normal == old(obj).normal && obj.uv == old(obj).uv && obj.index == old(obj).index
    {
      obj := Transform.Translate(obj, v);
    }

    /** Component k of `position` is multiplied by `v[k % 3]`; nothing else changes. */
    method Scale(v: Vec3)
      modifies this
      ensures obj == Transform.Scale(old(obj), v)
      ensures |obj.position| == |old(obj).position|
      ensures forall k :: 0 <= k < |obj.position| ==> obj.position[k] == old(obj).position[k] * v.At(k % 3)
      ensures obj.normal == old(obj).normal && obj.uv == old(obj).uv && obj.index == old(obj).index
    {
      obj := Transform.Scale(obj, v);
    }
  }

  /** Two successive translations of an object, by `a` and then by `b`, leave
      it where a single translation by `a + b` would. */
  method TranslateTwice(o: Object, a: Vec3, b: Vec3)
    modifies o
    ensures o.obj == Transform.Translate(old(o.obj), Add(a, b))
  {
    o.Translate(a);
    o.Translate(b);
    Transform.TranslateAdditive(old(o.obj), a, b);
  }
}
