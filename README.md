# Mesh transforms and scene-buffer composition (webgl-from-scratch)

This project models the geometry core of a small WebGL demo. A mesh is four
flat arrays: `position` and `normal` with three numbers per vertex, `uv` with
two, and `index`, a triangle list into the mesh's own vertices.

- `transform.dfy` models the free functions `rotate`, `translate` and `scale`
  of `app.js`. Each returns a new mesh.
- `scene.dfy` models the buffer-building part of `createBuffers` in `app.js`:
  - the fold that concatenates the scene's meshes and shifts each mesh's
    indices past the vertices before it;
  - the fold that interleaves the result into 8-number records
    (position 3, uv 2, normal 3);
  - the three attribute pointers (stride 8, offsets 0, 3 and 5) that read it back;
  - the 16-bit conversion of the index upload.
- `object.dfy` models the class `Object` of `Object.js`. It is a Dafny class
  whose field `obj` is replaced in place by its three methods. Each method is
  specified by the matching function of `transform.dfy`.
- `geometry.dfy` holds the shared data model: `Vec3`, `Mesh`, and the
  well-formedness predicates (`Shaped`: whole triples and matching
  normal/uv lengths; `IndicesInRange`: every index below the vertex count).

Numbers are modelled as `real` and indices as `nat`. glMatrix is not part of
this model. Its quaternion rotation (`quat.setAxisAngle` then
`vec3.transformQuat`) and `vec3.normalize` are passed in as the two function
fields of `Transform.GlMatrix`. Only how the rotation is applied, vertex by
vertex, is verified.

Two behaviours of the code are kept as written:
- `rotate` in `app.js` uses the axis as given. Only `Object.rotate` normalises
  it (`Object.js:9`). So `Objects.Object.Rotate` is specified as
  `Transform.Rotate` applied to `gl.normalize(axis)`.
- `rotate` of a mesh with no vertices returns the reduce's all-empty seed, so
  `uv` and `index` come back empty rather than passed through. For a
  well-formed mesh they are empty anyway.

Implicit requirements of the code are stated as `requires`:
- `|position| % 3 == 0` wherever `new Array(position.length / 3)` is built,
  and for every mesh folded into the scene, so that the index offset
  `agg.position.length / 3` is a whole number.
- Enough `normal` entries for `rotate`, and enough `uv` and `normal` entries
  for the interleaving.
- For the whole-scene members, exactly matching per-vertex `normal` and `uv`
  lengths in every mesh.

## Model

| member | source | states |
|---|---|---|
| Transform.Translate | app.js:31-36 | position keeps its length and `position[k]` becomes `old[k] + v[k % 3]`; `normal`, `uv` and `index` are unchanged |
| Transform.Scale | app.js:38-43 | position keeps its length and `position[k]` becomes `old[k] * v[k % 3]`; `normal`, `uv` and `index` are unchanged |
| Transform.TranslateAdditive | app.js:34 | translating by `a` then by `b` equals translating once by `a + b` |
| Transform.TranslateZero | app.js:34 | translating by `[0, 0, 0]` is the identity |
| Transform.ScaleMultiplicative | app.js:41 | scaling by `a` then by `b` equals scaling once by the componentwise product |
| Transform.ScaleOne | app.js:41 | scaling by `[1, 1, 1]` is the identity |
| Transform.TranslateScaleWellFormed | app.js:31-43 | translate and scale keep a well-formed mesh well-formed |
| Transform.RotateSteps | app.js:11-26 | after k steps of the reduce, the accumulator holds 3k positions and 3k normals; triple i of each is the rotation of input triple i; `uv`/`index` are the input's once k > 0 and empty at k = 0 |
| Transform.Rotate | app.js:7-29 | the output has the input's vertex count; every position and normal triple is rotated by the same axis/angle; `uv` and `index` pass through when there is a vertex, and a zero-vertex mesh yields the all-empty mesh |
| Transform.RotateWellFormed | app.js:11-28 | rotate keeps a well-formed mesh well-formed, the zero-vertex case included |
| Transform.RotateIdentity | app.js:11-26 | if the rotation fixes every vector, position and normal come back unchanged |
| Transform.RotateIsometry | app.js:12-18 | if the rotation preserves length, every position and normal keeps its length |
| Scene.Aggregate | app.js:145-155 | the combined mesh has 3 × (total vertex count) positions and as many indices as all meshes together |
| Scene.AggregateConcatenates | app.js:145-155 | the combined `position`, `normal` and `uv` are the in-order concatenations of the meshes' arrays; an empty list gives empty arrays |
| Scene.AggregateIndexAt | app.js:151 | index k of mesh j sits at position (indices of meshes 0..j-1) + k and equals its old value plus the vertex count of meshes 0..j-1 |
| Scene.AggregateWellFormed | app.js:145-155 | when every mesh is well formed, the combined mesh is well formed and has the total vertex count, so every combined index is below that total |
| Scene.AggregateAppend | app.js:145-155 | composing `ms1` and then appending `ms2` to the result equals composing `ms1 + ms2` in one pass |
| Scene.AggregateTwoMeshes | app.js:151 | meshes with 3 and 2 vertices and indices `[0,1,2]`, `[0,1]` compose to indices `[0,1,2,3,4]` |
| Scene.InterleaveSteps | app.js:160-173 | after k steps the buffer holds 8k numbers; record i is `position[3i..3i+3]`, then `uv[2i..2i+2]`, then `normal[3i..3i+3]` |
| Scene.Interleave | app.js:160-173 | the buffer has exactly 8 × (vertex count) entries, record i laid out as position, uv, normal |
| Scene.ReadAttribute | app.js:187-210 | an attribute pointer of a given size and offset at stride 8 reads size × count numbers |
| Scene.InterleaveRoundTrip | app.js:160-210 | reading the interleaved buffer at stride 8 with offsets 0, 3 and 5 recovers `position`, `uv` and `normal` exactly |
| Scene.CreateBuffers | app.js:145-181 | the vertex buffer has 8 × (total vertex count) entries and the index list has the total index count |
| Scene.CreateBuffersConsistent | app.js:145-210 | for well-formed meshes every scene index addresses a whole record, and the three attributes read back are the meshes' arrays concatenated in order |
| Scene.UploadIndex | app.js:181 | `new Uint16Array(index)` keeps the length and every element is below 65536 |
| Scene.UploadFaithful | app.js:181 | the 16-bit upload leaves the index list unchanged if and only if every index is below 65536 |
| Scene.SceneUploadFaithful | app.js:145-181 | for well-formed meshes with at most 65536 vertices in total, the uploaded index list equals the composed one |
| Objects.Object.constructor | Object.js:2-4 | the given mesh is stored unchanged in `obj` |
| Objects.Object.Rotate | Object.js:6-41 | `obj` becomes `rotate` of the old mesh about the normalised axis: same vertex count, each position and normal triple rotated, `uv`/`index` kept when there is a vertex and the all-empty mesh when there is none |
| Objects.Object.Translate | Object.js:43-48 | `obj` becomes app.js's `translate(old, v)`: `position[k] + v[k % 3]`, other arrays untouched, `obj` the only field written |
| Objects.Object.Scale | Object.js:50-55 | `obj` becomes app.js's `scale(old, v)`: `position[k] * v[k % 3]`, other arrays untouched, `obj` the only field written |
| Objects.TranslateTwice | Object.js:43-48 | two successive `translate` calls, by `a` then `b`, leave `obj` equal to one `translate(a + b)` of the original |

## Left out

- glMatrix (`quat.setAxisAngle`, `vec3.transformQuat`, `vec3.normalize`, the `mat3`/`mat4` helpers): a foreign library doing floating-point trigonometry. Rotation and normalisation are function parameters and are left uninterpreted.
- Floating point: numbers are exact reals. The `Float32Array` narrowing of the vertex buffer at app.js:177 is not modelled.
- Transform.Translate, Transform.Scale: the vector `v` is a 3-vector. A shorter JavaScript array would give `NaN` components, which are not modelled.
- Transform.Rotate, Objects.Object.Rotate, Scene.Interleave: meshes with too few `normal` or `uv` entries read `undefined` in JavaScript. These are excluded by `requires` instead of being modelled.
- Scene.CreateBuffers, Scene.CreateBuffersConsistent, Scene.SceneUploadFaithful: every mesh must have exactly as many `normal` and `uv` entries as its positions need. The code also accepts a mesh with extra normals or uvs; those extras then shift the attributes of every later mesh in the vertex buffer, silently. The model does not capture that misalignment.
- Scene.Aggregate: meshes whose `position` length is not a multiple of 3 would give fractional index offsets. These are excluded by `requires`.
- All WebGL calls: context setup, shader compile/link/validate, buffer creation and upload, attribute binding, textures, uniforms and the `requestAnimationFrame` render loop. They call a browser graphics API and carry no logic of their own. The attribute layout they configure is modelled by `Scene.ReadAttribute` and the layout constants.
- The `fetch` of the shader sources: I/O.
- The keyboard listener that changes the view angle: UI event handling.
- The primitives `cube`, `torus` and `plane` are not part of this model. The scene lemmas hold for any list of well-formed meshes.
- `01/app-01.js` and `02/app-02.js`: hard-coded vertex arrays and the same WebGL plumbing, with no transformation logic.
- Normals are rotated directly rather than by the inverse transpose, and `scale` leaves normals unchanged. This is the code's behaviour and is kept as it is.
