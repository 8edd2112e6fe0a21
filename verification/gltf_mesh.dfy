/** Vertex and index extraction of the glTF builder
    (Builder::LoadVertexDataGLTF): one mesh's primitives become one vertex
    buffer, one index buffer and one range record per primitive. */
module GltfMesh {
  import opened Math
  import opened Vertices
  import opened Tangents
  import opened Materials

  newtype byte = x: int | 0 <= x < 256

  /** The index component types of glTF (TINYGLTF_PARAMETER_TYPE_*). */
  const UNSIGNED_BYTE := 5121
  const UNSIGNED_SHORT := 5123
  const UNSIGNED_INT := 5125

  /** Bytes per index of a component type; 0 for a type the builder does
      not support. */
  function ComponentWidth(componentType: int): (w: nat)
    ensures w in {0, 1, 2, 4}
    ensures w != 0 <==> componentType in {UNSIGNED_BYTE, UNSIGNED_SHORT, UNSIGNED_INT}
  {
    if componentType == UNSIGNED_INT then 4
    else if componentType == UNSIGNED_SHORT then 2
    else if componentType == UNSIGNED_BYTE then 1
    else 0
  }

  function Pow256(w: nat): (p: nat)
    ensures p >= 1
  {
    if w == 0 then 1 else 256 * Pow256(w - 1)
  }

  /** An unsigned little-endian integer. */
  function DecodeLE(bs: seq<byte>): (x: nat)
    ensures x < Pow256(|bs|)
  {
    if |bs| == 0 then 0 else bs[0] as nat + 256 * DecodeLE(bs[1..])
  }

  /** The `w` little-endian bytes of `x`. */
  function EncodeLE(x: nat, w: nat): (bs: seq<byte>)
    requires x < Pow256(w)
    ensures |bs| == w
  {
    if w == 0 then [] else [(x % 256) as byte] + EncodeLE(x / 256, w - 1)
  }

  lemma {:induction false} DecodeEncodeLE(x: nat, w: nat)
    requires x < Pow256(w)
    ensures DecodeLE(EncodeLE(x, w)) == x
  {
    if w != 0 {
      var bs := EncodeLE(x, w);
      assert bs[1..] == EncodeLE(x / 256, w - 1);
      DecodeEncodeLE(x / 256, w - 1);
    }
  }

  lemma {:induction false} EncodeDecodeLE(bs: seq<byte>)
    ensures EncodeLE(DecodeLE(bs), |bs|) == bs
  {
    if |bs| != 0 {
      var x := DecodeLE(bs);
      assert x % 256 == bs[0] as nat && x / 256 == DecodeLE(bs[1..]);
      EncodeDecodeLE(bs[1..]);
    }
  }

  /** An index accessor with the bytes its buffer view exposes from the
      accessor's offset on. */
  datatype IndexAccessor = IndexAccessor(componentType: int, count: nat, data: seq<byte>)

  /** `count` consecutive `w`-byte values. */
  function DecodeAll(data: seq<byte>, w: nat, count: nat): (r: seq<nat>)
    requires count * w <= |data|
    ensures |r| == count
    ensures forall i :: 0 <= i < count ==> r[i] < Pow256(w)
  {
    if count == 0 then [] else [DecodeLE(data[..w])] + DecodeAll(data[w..], w, count - 1)
  }

  predicate WellSized(a: IndexAccessor) {
    a.count * ComponentWidth(a.componentType) <= |a.data|
  }

  /** The switch on the component type: the indices widened to 32 bits,
      or None for an unsupported type. */
  function DecodeIndices(a: IndexAccessor): (r: Option<seq<nat>>)
    requires WellSized(a)
    ensures r.Some? <==> ComponentWidth(a.componentType) != 0
    ensures r.Some? ==> |r.value| == a.count
    ensures r.Some? && a.componentType == UNSIGNED_BYTE ==> forall i :: 0 <= i < a.count ==> r.value[i] < 0x100
    ensures r.Some? && a.componentType == UNSIGNED_SHORT ==> forall i :: 0 <= i < a.count ==> r.value[i] < 0x1_0000
    ensures r.Some? && a.componentType == UNSIGNED_INT ==> forall i :: 0 <= i < a.count ==> r.value[i] < 0x1_0000_0000
  {
    var w := ComponentWidth(a.componentType);
    assert Pow256(1) == 0x100 && Pow256(2) == 0x1_0000 && Pow256(4) == 0x1_0000_0000;
    if w == 0 then None else Some(DecodeAll(a.data, w, a.count))
  }

  /** The bytes an exporter writes for `indices` at width `w`. */
  function EncodeAll(indices: seq<nat>, w: nat): (data: seq<byte>)
    requires forall i :: 0 <= i < |indices| ==> indices[i] < Pow256(w)
    ensures |data| == |indices| * w
  {
    if |indices| == 0 then [] else EncodeLE(indices[0], w) + EncodeAll(indices[1..], w)
  }

  lemma {:induction false} DecodeAllEncodeAll(indices: seq<nat>, w: nat)
    requires forall i :: 0 <= i < |indices| ==> indices[i] < Pow256(w)
    ensures DecodeAll(EncodeAll(indices, w), w, |indices|) == indices
  {
    if |indices| != 0 {
      var data := EncodeAll(indices, w);
      assert data[..w] == EncodeLE(indices[0], w);
      assert data[w..] == EncodeAll(indices[1..], w);
      DecodeEncodeLE(indices[0], w);
      DecodeAllEncodeAll(indices[1..], w);
    }
  }

  /** Decoding an index buffer written at a supported width gives back the
      indices, whatever the width. */
  lemma IndexRoundTrip(indices: seq<nat>, componentType: int)
    requires ComponentWidth(componentType) != 0
    requires forall i :: 0 <= i < |indices| ==> indices[i] < Pow256(ComponentWidth(componentType))
    ensures var a := IndexAccessor(componentType, |indices|, EncodeAll(indices, ComponentWidth(componentType)));
            WellSized(a) && DecodeIndices(a) == Some(indices)
  {
    DecodeAllEncodeAll(indices, ComponentWidth(componentType));
  }

  /** A glTF primitive as the builder sees it: the material index (-1 for
      none), the POSITION, NORMAL and TEXCOORD_0 attributes if present, and
      the index accessor. */
  datatype MeshPrimitive = MeshPrimitive(
    material: int,
    positions: Option<seq<Vec3>>,
    normals: Option<seq<Vec3>>,
    texcoords: Option<seq<Vec2>>,
    indices: IndexAccessor)

  /** Without a POSITION attribute a primitive contributes no vertex. */
  function VertexCount(p: MeshPrimitive): nat {
    if p.positions.Some? then |p.positions.value| else 0
  }

  /** What the builder relies on without checking: the material index is
      -1 or names a material, the optional attributes cover every vertex,
      the index buffer holds `count` indices, and (glTF's own rule) every
      index names one of the primitive's vertices. */
  predicate ValidPrimitive(p: MeshPrimitive, materialCount: nat) {
    && (p.material == -1 || 0 <= p.material < materialCount)
    && (p.normals.Some? ==> |p.normals.value| >= VertexCount(p))
    && (p.texcoords.Some? ==> |p.texcoords.value| >= VertexCount(p))
    && WellSized(p.indices)
    && var d := DecodeIndices(p.indices);
       d.Some? ==> forall k :: 0 <= k < |d.value| ==> d.value[k] < VertexCount(p)
  }

  predicate ValidPrimitives(ps: seq<MeshPrimitive>, materialCount: nat) {
    forall i :: 0 <= i < |ps| ==> ValidPrimitive(ps[i], materialCount)
  }

  function PrimitiveColor(materials: seq<Material>, p: MeshPrimitive): (c: Vec3)
    requires p.material == -1 || 0 <= p.material < |materials|
    ensures p.material == -1 ==> c == DefaultDiffuseColor
    ensures p.material != -1 ==> c == materials[p.material].diffuseColor
  {
    if p.material == -1 then DefaultDiffuseColor else materials[p.material].diffuseColor
  }

  /** Vertex `v` of a primitive: position from POSITION, the normalised
      NORMAL (or the normalised zero vector), TEXCOORD_0 or zero, the
      primitive's colour, amplification 1 and every other field default. */
  function PrimitiveVertex(p: MeshPrimitive, v: nat, color: Vec3, normalize: Vec3 -> Vec3): (r: Vertex)
    requires v < VertexCount(p)
    requires p.normals.Some? ==> |p.normals.value| >= VertexCount(p)
    requires p.texcoords.Some? ==> |p.texcoords.value| >= VertexCount(p)
    ensures r.position == p.positions.value[v]
    ensures r.normal == normalize(if p.normals.Some? then p.normals.value[v] else Zero3)
    ensures r.uv == if p.texcoords.Some? then p.texcoords.value[v] else Zero2
    ensures r.color == color && r.amplification == 1.0
    ensures r.tangent == Zero3 && r.textureSlot == 0 && r.unlit == 0
  {
    DefaultVertex.(
      amplification := 1.0,
      position := p.positions.value[v],
      normal := normalize(if p.normals.Some? then p.normals.value[v] else Zero3),
      uv := if p.texcoords.Some? then p.texcoords.value[v] else Zero2,
      color := color)
  }

  function PrimitiveVertices(materials: seq<Material>, p: MeshPrimitive, normalize: Vec3 -> Vec3): (vs: seq<Vertex>)
    requires ValidPrimitive(p, |materials|)
    ensures |vs| == VertexCount(p)
  {
    seq(VertexCount(p), v requires 0 <= v < VertexCount(p) =>
      PrimitiveVertex(p, v, PrimitiveColor(materials, p), normalize))
  }

  /** The primitives' vertex lists, concatenated in order. */
  function VerticesOf(materials: seq<Material>, ps: seq<MeshPrimitive>, normalize: Vec3 -> Vec3): (vs: seq<Vertex>)
    requires ValidPrimitives(ps, |materials|)
  {
    if |ps| == 0 then []
    else VerticesOf(materials, ps[..|ps| - 1], normalize) + PrimitiveVertices(materials, ps[|ps| - 1], normalize)
  }

  predicate Supported(p: MeshPrimitive) {
    ComponentWidth(p.indices.componentType) != 0
  }

  /** The primitives' decoded index lists, concatenated in order. */
  function IndicesOf(ps: seq<MeshPrimitive>): (ix: seq<nat>)
    requires forall i :: 0 <= i < |ps| ==> WellSized(ps[i].indices) && Supported(ps[i])
  {
    if |ps| == 0 then []
    else
      var last := ps[|ps| - 1];
      assert WellSized(last.indices) && Supported(last);
      IndicesOf(ps[..|ps| - 1]) + DecodeIndices(last.indices).value
  }

  /** The position of the first primitive whose index type is not
      supported, or the number of primitives. */
  function FirstUnsupported(ps: seq<MeshPrimitive>): (k: nat)
    ensures k <= |ps|
    ensures forall i :: 0 <= i < k ==> Supported(ps[i])
    ensures k < |ps| ==> !Supported(ps[k])
  {
    if |ps| == 0 then 0
    else if !Supported(ps[0]) then 0
    else 1 + FirstUnsupported(ps[1..])
  }

  /** Builder's Primitive record. */
  datatype PrimitiveRange = PrimitiveRange(firstVertex: nat, vertexCount: nat, firstIndex: nat, indexCount: nat)

  datatype Geometry = Geometry(vertices: seq<Vertex>, indices: seq<nat>, primitives: seq<PrimitiveRange>)

  /** The record kept for primitive `i`. Its first-vertex and first-index
      fields are the buffer sizes after the primitive was appended, as the
      builder computes them. */
  function RangeOf(materials: seq<Material>, ps: seq<MeshPrimitive>, i: nat, normalize: Vec3 -> Vec3): PrimitiveRange
    requires ValidPrimitives(ps, |materials|)
    requires i < FirstUnsupported(ps)
  {
    PrimitiveRange(|VerticesOf(materials, ps[..i + 1], normalize)|, VertexCount(ps[i]),
                   |IndicesOf(ps[..i + 1])|, ps[i].indices.count)
  }

  lemma {:induction false} VertexCountWithin(materials: seq<Material>, ps: seq<MeshPrimitive>, normalize: Vec3 -> Vec3, i: nat)
    requires ValidPrimitives(ps, |materials|)
    requires i < |ps|
    ensures VertexCount(ps[i]) <= |VerticesOf(materials, ps, normalize)|
  {
    if i < |ps| - 1 {
      VertexCountWithin(materials, ps[..|ps| - 1], normalize, i);
    }
  }

  /** Every index of the concatenated buffer names a vertex of the
      concatenated vertex list. */
  lemma {:induction false} IndicesOfInRange(materials: seq<Material>, ps: seq<MeshPrimitive>, normalize: Vec3 -> Vec3)
    requires ValidPrimitives(ps, |materials|)
    requires FirstUnsupported(ps) == |ps|
    ensures IndicesInRange(IndicesOf(ps), |VerticesOf(materials, ps, normalize)|)
  {
    if |ps| != 0 {
      var front := ps[..|ps| - 1];
      assert FirstUnsupported(front) == |front| by {
        FirstUnsupportedPrefix(ps, |front|);
      }
      IndicesOfInRange(materials, front, normalize);
      var last := DecodeIndices(ps[|ps| - 1].indices).value;
      var n := |VerticesOf(materials, ps, normalize)|;
      assert forall k :: 0 <= k < |last| ==> last[k] < n by {
        VertexCountWithin(materials, ps, normalize, |ps| - 1);
      }
    }
  }

  lemma {:induction false} FirstUnsupportedPrefix(ps: seq<MeshPrimitive>, n: nat)
    requires n <= FirstUnsupported(ps)
    ensures FirstUnsupported(ps[..n]) == n
  {
    if n != 0 {
      assert ps[..n][1..] == ps[1..][..n - 1];
      FirstUnsupportedPrefix(ps[1..], n - 1);
    }
  }

  /** Appending primitive `i` extends the concatenations by its own
      vertices and indices. */
  lemma AppendPrimitive(materials: seq<Material>, ps: seq<MeshPrimitive>, normalize: Vec3 -> Vec3, i: nat)
    requires ValidPrimitives(ps, |materials|)
    requires i < |ps|
    ensures VerticesOf(materials, ps[..i + 1], normalize)
            == VerticesOf(materials, ps[..i], normalize) + PrimitiveVertices(materials, ps[i], normalize)
    ensures i < FirstUnsupported(ps) ==>
              IndicesOf(ps[..i + 1]) == IndicesOf(ps[..i]) + DecodeIndices(ps[i].indices).value
    ensures i < FirstUnsupported(ps) ==>
              RangeOf(materials, ps, i, normalize)
              == PrimitiveRange(|VerticesOf(materials, ps[..i], normalize)| + VertexCount(ps[i]), VertexCount(ps[i]),
                                |IndicesOf(ps[..i])| + ps[i].indices.count, ps[i].indices.count)
  {
    assert ps[..i + 1][..i] == ps[..i];
  }

  /** The buffers after the first `i` primitives were appended, none of
      them with an unsupported index type. */
  predicate LoadedUpTo(materials: seq<Material>, ps: seq<MeshPrimitive>, normalize: Vec3 -> Vec3, i: nat, g: Geometry)
    requires ValidPrimitives(ps, |materials|)
  {
    && i <= FirstUnsupported(ps)
    && g.vertices == VerticesOf(materials, ps[..i], normalize)
    && g.indices == IndicesOf(ps[..i])
    && |g.primitives| == i
    && forall j :: 0 <= j < i ==> g.primitives[j] == RangeOf(materials, ps, j, normalize)
  }

  /** One iteration of the primitive loop: append the vertices, then the
      indices and the record, or report the unsupported index type. */
  method AppendStep(materials: seq<Material>, ps: seq<MeshPrimitive>, normalize: Vec3 -> Vec3, i: nat, g: Geometry)
    returns (g': Geometry, supported: bool)
    requires ValidPrimitives(ps, |materials|) && i < |ps|
    requires LoadedUpTo(materials, ps, normalize, i, g)
    ensures supported <==> i < FirstUnsupported(ps)
    ensures supported ==> LoadedUpTo(materials, ps, normalize, i + 1, g')
    ensures !supported ==> g' == Geometry(VerticesOf(materials, ps[..i + 1], normalize), g.indices, g.primitives)
  {
    var p := ps[i];
    AppendPrimitive(materials, ps, normalize, i);
    var vertices := g.vertices + PrimitiveVertices(materials, p, normalize);
    var decoded := DecodeIndices(p.indices);
    if decoded.None? {
      return Geometry(vertices, g.indices, g.primitives), false;
    }
    var indices := g.indices + decoded.value;
    var range := PrimitiveRange(|vertices|, VertexCount(p), |indices|, p.indices.count);
    g' := Geometry(vertices, indices, g.primitives + [range]);
    supported := true;
  }

  /** Builder::LoadVertexDataGLTF for one mesh. Primitives are appended in
      order. At the first primitive with an unsupported index type the
      builder gives up: that primitive's vertices are already in the
      buffer, its indices and its record are not, and the tangent pass is
      skipped. Otherwise every record is kept and the tangents are
      computed over the whole buffer. */
  method LoadVertexData(materials: seq<Material>, ps: seq<MeshPrimitive>, normalize: Vec3 -> Vec3)
    returns (g: Geometry)
    requires ValidPrimitives(ps, |materials|)
    ensures var k := FirstUnsupported(ps);
            && |g.primitives| == k
            && (forall i :: 0 <= i < k ==> g.primitives[i] == RangeOf(materials, ps, i, normalize))
            && g.indices == IndicesOf(ps[..k])
    ensures FirstUnsupported(ps) < |ps| ==>
              g.vertices == VerticesOf(materials, ps[..FirstUnsupported(ps) + 1], normalize)
    ensures FirstUnsupported(ps) == |ps| ==>
              IndicesInRange(g.indices, |VerticesOf(materials, ps, normalize)|)
              && g.vertices == TangentPass(VerticesOf(materials, ps, normalize), g.indices)
  {
    g := Geometry([], [], []);
    var i := 0;
    while i < |ps|
      invariant i <= |ps| && LoadedUpTo(materials, ps, normalize, i, g)
    {
      var supported;
      g, supported := AppendStep(materials, ps, normalize, i, g);
      if !supported {
        return;
      }
      i := i + 1;
    }
    assert ps[..|ps|] == ps;
    IndicesOfInRange(materials, ps, normalize);
    var vertices := CalculateTangents(g.vertices, g.indices);
    g := g.(vertices := vertices);
  }

  /** A mesh whose primitives all use supported index types keeps one
      record per primitive, and the records tile both buffers: each one
      ends where the next one's vertices and indices end. */
  lemma RangesTile(materials: seq<Material>, ps: seq<MeshPrimitive>, normalize: Vec3 -> Vec3, i: nat)
    requires ValidPrimitives(ps, |materials|)
    requires 0 < i < FirstUnsupported(ps)
    ensures var prev := RangeOf(materials, ps, i - 1, normalize);
            var r := RangeOf(materials, ps, i, normalize);
            && r.firstVertex == prev.firstVertex + r.vertexCount
            && r.firstIndex == prev.firstIndex + r.indexCount
  {
    assert ps[..i + 1][..i] == ps[..i];
  }
}
