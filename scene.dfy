/** The buffer-building part of `createBuffers` in app.js: the meshes of the
    scene are folded into one mesh whose indices are shifted past the vertices
    before them, that mesh is interleaved into one vertex buffer of 8-number
    records, and the index list is uploaded as 16-bit integers. */
module Scene {
  import opened Geometry

  /** Sum of `position.length / 3` over the meshes, in order. */
  function TotalVertices(ms: seq<Mesh>): nat
  {
    if ms == [] then 0 else TotalVertices(ms[..|ms| - 1]) + VertexCount(ms[|ms| - 1])
  }

  /** Sum of `index.length` over the meshes, in order. */
  function TotalIndices(ms: seq<Mesh>): nat
  {
    if ms == [] then 0 else TotalIndices(ms[..|ms| - 1]) + |ms[|ms| - 1].index|
  }

  /** Every mesh holds whole position triples, so `position.length / 3` is a whole number. */
  predicate WholeTriples(ms: seq<Mesh>)
  {
    forall j :: 0 <= j < |ms| ==> |ms[j].position| % 3 == 0
  }

  /** `xs.map((i) => (i + d))`. */
  function Shift(xs: seq<nat>, d: nat): seq<nat>
  {
    seq(|xs|, k requires 0 <= k < |xs| => xs[k] + d)
  }

  /** The accumulator of the `reduce` over `objects` after the meshes `ms`:
      positions, normals and uvs appended in order, and each mesh's indices
      shifted by the number of vertices accumulated before it. */
  function Aggregate(ms: seq<Mesh>): (r: Mesh)
    requires WholeTriples(ms)
    ensures |r.position| == 3 * TotalVertices(ms)
    ensures |r.index| == TotalIndices(ms)
    decreases |ms|
  {
    if ms == [] then EmptyMesh
    else
      var agg := Aggregate(ms[..|ms| - 1]);
      var o := ms[|ms| - 1];
      Mesh(agg.position + o.position,
           agg.normal + o.normal,
           agg.uv + o.uv,
           agg.index + Shift(o.index, |agg.position| / 3))
  }

  /** Reference definition of concatenation, from the front. */
  function Flatten(ss: seq<seq<real>>): seq<real>
  {
    if ss == [] then [] else ss[0] + Flatten(ss[1..])
  }

  function Positions(ms: seq<Mesh>): seq<seq<real>>
  {
    seq(|ms|, j requires 0 <= j < |ms| => ms[j].position)
  }

  function Normals(ms: seq<Mesh>): seq<seq<real>>
  {
    seq(|ms|, j requires 0 <= j < |ms| => ms[j].normal)
  }

  function Uvs(ms: seq<Mesh>): seq<seq<real>>
  {
    seq(|ms|, j requires 0 <= j < |ms| => ms[j].uv)
  }

  lemma {:induction false} FlattenSnoc(ss: seq<seq<real>>, s: seq<real>)
    ensures Flatten(ss + [s]) == Flatten(ss) + s
  {
    if ss == [] {
      assert [s][1..] == [];
    } else {
      assert (ss + [s])[1..] == ss[1..] + [s];
      FlattenSnoc(ss[1..], s);
    }
  }

  /** The combined `position`, `normal` and `uv` are the in-order
      concatenations of the meshes' own arrays; no meshes give empty arrays. */
  lemma {:induction false} AggregateConcatenates(ms: seq<Mesh>)
    requires WholeTriples(ms)
    ensures Aggregate(ms).position == Flatten(Positions(ms))
    ensures Aggregate(ms).normal == Flatten(Normals(ms))
    ensures Aggregate(ms).uv == Flatten(Uvs(ms))
    decreases |ms|
  {
    if ms != [] {
      var init, o := ms[..|ms| - 1], ms[|ms| - 1];
      AggregateConcatenates(init);
      assert Positions(ms) == Positions(init) + [o.position];
      assert Normals(ms) == Normals(init) + [o.normal];
      assert Uvs(ms) == Uvs(init) + [o.uv];
      FlattenSnoc(Positions(init), o.position);
      FlattenSnoc(Normals(init), o.normal);
      FlattenSnoc(Uvs(init), o.uv);
    }
  }

  /** Index offsetting: index k of mesh j lands after the indices of meshes
      0 .. j-1 and is shifted by their total vertex count. */
  lemma {:induction false} AggregateIndexAt(ms: seq<Mesh>, j: nat, k: nat)
    requires WholeTriples(ms)
    requires j < |ms| && k < |ms[j].index|
    ensures TotalIndices(ms[..j]) + k < |Aggregate(ms).index|
    ensures Aggregate(ms).index[TotalIndices(ms[..j]) + k] == ms[j].index[k] + TotalVertices(ms[..j])
    decreases |ms|
  {
    var init := ms[..|ms| - 1];
    var agg := Aggregate(init);
    if j == |ms| - 1 {
      assert ms[..j] == init;
    } else {
      assert init[..j] == ms[..j];
      AggregateIndexAt(init, j, k);
      assert TotalIndices(init) + |ms[|ms| - 1].index| == TotalIndices(ms);
    }
  }

  /** If every mesh is well formed, so is the combined mesh, and its vertex
      count is the total of theirs: every combined index is below it. */
  lemma {:induction false} AggregateWellFormed(ms: seq<Mesh>)
    requires forall j :: 0 <= j < |ms| ==> WellFormed(ms[j])
    ensures WholeTriples(ms)
    ensures WellFormed(Aggregate(ms))
    ensures VertexCount(Aggregate(ms)) == TotalVertices(ms)
    decreases |ms|
  {
    if ms != [] {
      var init, o := ms[..|ms| - 1], ms[|ms| - 1];
      AggregateWellFormed(init);
      var agg := Aggregate(init);
      var r := Aggregate(ms);
      assert r.index == agg.index + Shift(o.index, TotalVertices(init));
      forall i | 0 <= i < |r.index|
        ensures r.index[i] < TotalVertices(ms)
      {
        if i >= |agg.index| {
          assert r.index[i] == o.index[i - |agg.index|] + TotalVertices(init);
        }
      }
    }
  }

  /** A single mesh of whole triples aggregates to itself. */
  lemma AggregateSingle(m: Mesh)
    requires |m.position| % 3 == 0
    ensures Aggregate([m]) == m
  {
    assert [m][..0] == [];
    assert Shift(m.index, 0) == m.index;
  }

  /** Composing `ms1` and then appending `ms2` gives the same buffers as
      composing `ms1 + ms2` in one pass: the offsets recompute consistently. */
  lemma {:induction false} AggregateAppend(ms1: seq<Mesh>, ms2: seq<Mesh>)
    requires WholeTriples(ms1) && WholeTriples(ms2)
    ensures WholeTriples(ms1 + ms2) && WholeTriples([Aggregate(ms1)] + ms2)
    ensures Aggregate(ms1 + ms2) == Aggregate([Aggregate(ms1)] + ms2)
    decreases |ms2|
  {
    var a := Aggregate(ms1);
    if ms2 == [] {
      assert ms1 + ms2 == ms1;
      AggregateSingle(a);
    } else {
      var init2, o := ms2[..|ms2| - 1], ms2[|ms2| - 1];
      AggregateAppend(ms1, init2);
      assert (ms1 + ms2)[..|ms1 + ms2| - 1] == ms1 + init2;
      assert ([a] + ms2)[..|[a] + ms2| - 1] == [a] + init2;
    }
  }

  /** The example of two meshes, with 3 and 2 vertices: the second mesh's
      indices are shifted by 3. */
  lemma AggregateTwoMeshes()
    ensures
      var a := Mesh([0.0, 0.0, 0.0, 1.0, 0.0, 0.0, 0.0, 1.0, 0.0], [], [], [0, 1, 2]);
      var b := Mesh([0.0, 0.0, 1.0, 1.0, 1.0, 1.0], [], [], [0, 1]);
      Aggregate([a, b]).index == [0, 1, 2, 3, 4]
  {
    var a := Mesh([0.0, 0.0, 0.0, 1.0, 0.0, 0.0, 0.0, 1.0, 0.0], [], [], [0, 1, 2]);
    var b := Mesh([0.0, 0.0, 1.0, 1.0, 1.0, 1.0], [], [], [0, 1]);
    assert [a, b][..1] == [a];
    AggregateSingle(a);
    assert Shift(b.index, 3) == [3, 4];
  }

  // ---------------------------------------------------------------------------
  // Interleaved vertex buffer and the attribute layout read back from it

  /** Floats per vertex record, the stride of every attribute pointer. */
  const Stride: nat := 8
  /** Offsets (in floats) and sizes of the three attributes within a record. */
  const PositionOffset: nat := 0
  const PositionSize: nat := 3
  const UvOffset: nat := 3
  const UvSize: nat := 2
  const NormalOffset: nat := 5
  const NormalSize: nat := 3

  /** Record `i` of an interleaved buffer. */
  function Record(buf: seq<real>, i: nat): seq<real>
    requires Stride * (i + 1) <= |buf|
  {
    buf[Stride * i .. Stride * (i + 1)]
  }

  /** The attributes of vertex `idx`: its position triple, its uv pair and its normal triple. */
  function Attributes(position: seq<real>, uv: seq<real>, normal: seq<real>, idx: nat): seq<real>
    requires 3 * idx + 3 <= |position| && 2 * idx + 2 <= |uv| && 3 * idx + 3 <= |normal|
  {
    position[3 * idx .. 3 * idx + 3] + uv[2 * idx .. 2 * idx + 2] + normal[3 * idx .. 3 * idx + 3]
  }

  /** The accumulator of the `reduce` building `bufferArray` after vertices 0 .. k-1. */
  function InterleaveSteps(position: seq<real>, uv: seq<real>, normal: seq<real>, k: nat): (r: seq<real>)
    requires 3 * k <= |position| && 2 * k <= |uv| && 3 * k <= |normal|
    ensures |r| == Stride * k
    ensures forall i :: 0 <= i < k ==> Record(r, i) == Attributes(position, uv, normal, i)
  {
    if k == 0 then []
    else
      var agg := InterleaveSteps(position, uv, normal, k - 1);
      var idx := k - 1;
      var i := idx * 3;
      var rec := [position[i], position[i + 1], position[i + 2],
                  uv[idx * 2], uv[idx * 2 + 1],
                  normal[i], normal[i + 1], normal[i + 2]];
      assert rec == Attributes(position, uv, normal, idx);
      RecordsOfAppend(agg, rec, idx);
      agg + rec
  }

  /** Appending record `n` to a buffer of `n` records keeps the earlier ones. */
  lemma RecordsOfAppend(buf: seq<real>, rec: seq<real>, n: nat)
    requires |buf| == Stride * n && |rec| == Stride
    ensures forall i :: 0 <= i < n ==> Record(buf + rec, i) == Record(buf, i)
    ensures Record(buf + rec, n) == rec
  {
    forall i | 0 <= i < n ensures Record(buf + rec, i) == Record(buf, i) {
      assert Stride * (i + 1) <= |buf|;
    }
    assert (buf + rec)[|buf|..] == rec;
  }

  /** `bufferArray`: one 8-number record per vertex. */
  function Interleave(position: seq<real>, uv: seq<real>, normal: seq<real>): (r: seq<real>)
    requires |position| % 3 == 0 && |uv| >= 2 * (|position| / 3) && |normal| >= |position|
    ensures |r| == Stride * (|position| / 3)
    ensures forall i :: 0 <= i < |position| / 3 ==> Record(r, i) == Attributes(position, uv, normal, i)
  {
    InterleaveSteps(position, uv, normal, |position| / 3)
  }

  /** What an attribute pointer with this `size` and `offset` and a stride of
      8 floats reads from the first `count` records of `buf`. */
  function ReadAttribute(buf: seq<real>, offset: nat, size: nat, count: nat): (r: seq<real>)
    requires offset + size <= Stride && Stride * count <= |buf|
    ensures |r| == size * count
  {
    if count == 0 then []
    else ReadAttribute(buf, offset, size, count - 1) + buf[Stride * (count - 1) + offset .. Stride * (count - 1) + offset + size]
  }

  /** The three attributes sit at offsets 0, 3 and 5 of a record. */
  lemma AttributesLayout(buf: seq<real>, position: seq<real>, uv: seq<real>, normal: seq<real>, i: nat)
    requires Stride * (i + 1) <= |buf|
    requires 3 * i + 3 <= |position| && 2 * i + 2 <= |uv| && 3 * i + 3 <= |normal|
    requires Record(buf, i) == Attributes(position, uv, normal, i)
    ensures buf[Stride * i + PositionOffset .. Stride * i + PositionOffset + PositionSize] == position[3 * i .. 3 * i + 3]
    ensures buf[Stride * i + UvOffset .. Stride * i + UvOffset + UvSize] == uv[2 * i .. 2 * i + 2]
    ensures buf[Stride * i + NormalOffset .. Stride * i + NormalOffset + NormalSize] == normal[3 * i .. 3 * i + 3]
  {
    var rec, p, t, n := Record(buf, i), position[3 * i .. 3 * i + 3], uv[2 * i .. 2 * i + 2], normal[3 * i .. 3 * i + 3];
    assert rec == p + t + n;
    forall d | 0 <= d < 3 ensures buf[Stride * i + d] == p[d] && buf[Stride * i + 5 + d] == n[d] {
      assert rec[d] == p[d] && rec[5 + d] == n[d];
    }
    forall d | 0 <= d < 2 ensures buf[Stride * i + 3 + d] == t[d] {
      assert rec[3 + d] == t[d];
    }
  }

  lemma {:induction false} ReadBack(buf: seq<real>, position: seq<real>, uv: seq<real>, normal: seq<real>, n: nat, k: nat)
    requires k <= n && Stride * n <= |buf|
    requires 3 * n <= |position| && 2 * n <= |uv| && 3 * n <= |normal|
    requires forall i :: 0 <= i < n ==> Record(buf, i) == Attributes(position, uv, normal, i)
    ensures ReadAttribute(buf, PositionOffset, PositionSize, k) == position[..3 * k]
    ensures ReadAttribute(buf, UvOffset, UvSize, k) == uv[..2 * k]
    ensures ReadAttribute(buf, NormalOffset, NormalSize, k) == normal[..3 * k]
  {
    if k > 0 {
      var i := k - 1;
      ReadBack(buf, position, uv, normal, n, i);
      AttributesLayout(buf, position, uv, normal, i);
      assert position[..3 * i] + position[3 * i .. 3 * k] == position[..3 * k];
      assert uv[..2 * i] + uv[2 * i .. 2 * k] == uv[..2 * k];
      assert normal[..3 * i] + normal[3 * i .. 3 * k] == normal[..3 * k];
    }
  }

  /** Reading the interleaved buffer back through the three attribute
      pointers (stride 8, offsets 0, 3 and 5) recovers the three arrays exactly. */
  lemma InterleaveRoundTrip(position: seq<real>, uv: seq<real>, normal: seq<real>)
    requires |position| % 3 == 0 && |uv| == 2 * (|position| / 3) && |normal| == |position|
    ensures
      var n := |position| / 3;
      var buf := Interleave(position, uv, normal);
      ReadAttribute(buf, PositionOffset, PositionSize, n) == position &&
      ReadAttribute(buf, UvOffset, UvSize, n) == uv &&
      ReadAttribute(buf, NormalOffset, NormalSize, n) == normal
  {
    var n := |position| / 3;
    ReadBack(Interleave(position, uv, normal), position, uv, normal, n, n);
    assert position[..3 * n] == position;
    assert uv[..2 * n] == uv;
    assert normal[..3 * n] == normal;
  }

  // ---------------------------------------------------------------------------
  // The scene's two buffers and the 16-bit index upload

  /** The vertex buffer and the index list that `createBuffers` hands to WebGL. */
  datatype SceneBuffers = SceneBuffers(vertices: seq<real>, index: seq<nat>)

  /** Aggregate the meshes, then interleave the combined arrays. */
  function CreateBuffers(ms: seq<Mesh>): (r: SceneBuffers)
    requires forall j :: 0 <= j < |ms| ==> Shaped(ms[j])
    ensures |r.vertices| == Stride * TotalVertices(ms)
    ensures |r.index| == TotalIndices(ms)
  {
    ShapedAggregate(ms);
    var agg := Aggregate(ms);
    SceneBuffers(Interleave(agg.position, agg.uv, agg.normal), agg.index)
  }

  lemma {:induction false} ShapedAggregate(ms: seq<Mesh>)
    requires forall j :: 0 <= j < |ms| ==> Shaped(ms[j])
    ensures WholeTriples(ms) && Shaped(Aggregate(ms))
    decreases |ms|
  {
    if ms != [] {
      ShapedAggregate(ms[..|ms| - 1]);
    }
  }

  /** For well-formed meshes every index of the scene addresses a whole record
      of the vertex buffer, and reading the buffer back through the attribute
      pointers gives the meshes' own arrays, concatenated in order. */
  lemma CreateBuffersConsistent(ms: seq<Mesh>)
    requires forall j :: 0 <= j < |ms| ==> Shaped(ms[j]) && IndicesInRange(ms[j])
    ensures var r := CreateBuffers(ms);
      (forall i :: 0 <= i < |r.index| ==> Stride * (r.index[i] + 1) <= |r.vertices|) &&
      ReadAttribute(r.vertices, PositionOffset, PositionSize, TotalVertices(ms)) == Flatten(Positions(ms)) &&
      ReadAttribute(r.vertices, UvOffset, UvSize, TotalVertices(ms)) == Flatten(Uvs(ms)) &&
      ReadAttribute(r.vertices, NormalOffset, NormalSize, TotalVertices(ms)) == Flatten(Normals(ms))
  {
    AggregateWellFormed(ms);
    AggregateConcatenates(ms);
    var agg := Aggregate(ms);
    InterleaveRoundTrip(agg.position, agg.uv, agg.normal);
  }

  /** Number of values a `Uint16Array` element can hold. */
  const IndexLimit: nat := 65536

  /** The conversion `new Uint16Array(index)` applies to a whole-number index. */
  function ToUint16(x: nat): nat
  {
    x % IndexLimit
  }

  /** `new Uint16Array(index)`, elementwise. */
  function UploadIndex(index: seq<nat>): (r: seq<nat>)
    ensures |r| == |index|
    ensures forall i :: 0 <= i < |r| ==> r[i] < IndexLimit
  {
    seq(|index|, i requires 0 <= i < |index| => ToUint16(index[i]))
  }

  /** The upload keeps the index list exactly when every index fits in 16 bits. */
  lemma UploadFaithful(index: seq<nat>)
    ensures UploadIndex(index) == index <==> forall i :: 0 <= i < |index| ==> index[i] < IndexLimit
  {
    if UploadIndex(index) == index {
      forall i | 0 <= i < |index| ensures index[i] < IndexLimit {
        assert UploadIndex(index)[i] == index[i];
      }
    }
  }

  /** The scene's indices survive the 16-bit upload unchanged when the scene
      has at most 65536 vertices; the code does not check this bound. */
  lemma SceneUploadFaithful(ms: seq<Mesh>)
    requires forall j :: 0 <= j < |ms| ==> Shaped(ms[j]) && IndicesInRange(ms[j])
    requires TotalVertices(ms) <= IndexLimit
    ensures UploadIndex(CreateBuffers(ms).index) == CreateBuffers(ms).index
  {
    AggregateWellFormed(ms);
    UploadFaithful(CreateBuffers(ms).index);
  }
}
