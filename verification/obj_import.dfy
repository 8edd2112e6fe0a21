/** Builder::LoadModel: Wavefront OBJ import. Every face corner becomes a
    vertex (Y axis of position and normal negated), equal vertices are
    merged through a hash map, and the index buffer refers to the merged
    vertices. The OBJ parser itself is outside the model: its output, the
    attribute arrays and the shapes' face corners, is the input here. */
module ObjImport {
  import opened Math
  import opened Vertices
  import opened Tangents

  /** One face corner: indices into the attribute arrays, negative when
      the corner has no such attribute. */
  datatype ObjIndex = ObjIndex(vertexIndex: int, normalIndex: int, texcoordIndex: int)

  datatype Shape = Shape(indices: seq<ObjIndex>)

  /** Flat float arrays: three floats per position, colour and normal,
      two per texture coordinate. */
  datatype Attrib = Attrib(vertices: seq<real>, colors: seq<real>, normals: seq<real>, texcoords: seq<real>)

  /** Every non-negative attribute index of a corner addresses complete
      entries (the source reads the arrays unchecked). */
  predicate ValidCorner(a: Attrib, ix: ObjIndex) {
    && (ix.vertexIndex >= 0 ==> 3 * ix.vertexIndex + 2 < |a.vertices| && 3 * ix.vertexIndex + 2 < |a.colors|)
    && (ix.normalIndex >= 0 ==> 3 * ix.normalIndex + 2 < |a.normals|)
    && (ix.texcoordIndex >= 0 ==> 2 * ix.texcoordIndex + 1 < |a.texcoords|)
  }

  /** The i-th triple of a flat float array. */
  function Triple(xs: seq<real>, i: nat): Vec3
    requires 3 * i + 2 < |xs|
  {
    Vec3(xs[3 * i], xs[3 * i + 1], xs[3 * i + 2])
  }

  function Pair(xs: seq<real>, i: nat): Vec2
    requires 2 * i + 1 < |xs|
  {
    Vec2(xs[2 * i], xs[2 * i + 1])
  }

  /** The OBJ-to-engine coordinate change: Y is negated, X and Z kept. */
  function FlipY(v: Vec3): (r: Vec3)
    ensures r.x == v.x && r.z == v.z && r.y == -v.y
  {
    Vec3(v.x, -v.y, v.z)
  }

  /** The coordinate change is its own inverse. */
  lemma FlipYInvolution(v: Vec3)
    ensures FlipY(FlipY(v)) == v
  {
  }

  /** The vertex the source builds for one face corner. */
  function CornerVertex(a: Attrib, ix: ObjIndex, slot: int, amplification: int): (v: Vertex)
    requires ValidCorner(a, ix)
    ensures v.textureSlot == slot && v.amplification == amplification as real
    ensures v.unlit == DefaultVertex.unlit && v.tangent == Zero3
    ensures v.position == (if ix.vertexIndex >= 0 then FlipY(Triple(a.vertices, ix.vertexIndex)) else Zero3)
    ensures v.color == (if ix.vertexIndex >= 0 then Triple(a.colors, ix.vertexIndex) else Zero3)
    ensures v.normal == (if ix.normalIndex >= 0 then FlipY(Triple(a.normals, ix.normalIndex)) else Zero3)
    ensures v.uv == (if ix.texcoordIndex >= 0 then Pair(a.texcoords, ix.texcoordIndex) else Zero2)
  {
    var v0 := DefaultVertex.(textureSlot := slot, amplification := amplification as real);
    var v1 := if ix.vertexIndex >= 0
              then v0.(position := FlipY(Triple(a.vertices, ix.vertexIndex)),
                       color := Triple(a.colors, ix.vertexIndex))
              else v0;
    var v2 := if ix.normalIndex >= 0 then v1.(normal := FlipY(Triple(a.normals, ix.normalIndex))) else v1;
    if ix.texcoordIndex >= 0 then v2.(uv := Pair(a.texcoords, ix.texcoordIndex)) else v2
  }

  /** All face corners of all shapes, in shape order. */
  function AllCorners(shapes: seq<Shape>): (r: seq<ObjIndex>)
    ensures |shapes| > 0 ==> r == AllCorners(shapes[..|shapes| - 1]) + shapes[|shapes| - 1].indices
  {
    if |shapes| == 0 then []
    else AllCorners(shapes[..|shapes| - 1]) + shapes[|shapes| - 1].indices
  }

  /** Number of index entries over all shapes. */
  function TotalIndexCount(shapes: seq<Shape>): nat {
    if |shapes| == 0 then 0
    else TotalIndexCount(shapes[..|shapes| - 1]) + |shapes[|shapes| - 1].indices|
  }

  lemma {:induction false} AllCornersLength(shapes: seq<Shape>)
    ensures |AllCorners(shapes)| == TotalIndexCount(shapes)
    decreases |shapes|
  {
    if |shapes| > 0 {
      AllCornersLength(shapes[..|shapes| - 1]);
    }
  }

  predicate ValidInput(a: Attrib, shapes: seq<Shape>) {
    forall s, k :: 0 <= s < |shapes| && 0 <= k < |shapes[s].indices| ==> ValidCorner(a, shapes[s].indices[k])
  }

  lemma {:induction false} AllCornersValid(a: Attrib, shapes: seq<Shape>)
    requires ValidInput(a, shapes)
    ensures forall k :: 0 <= k < |AllCorners(shapes)| ==> ValidCorner(a, AllCorners(shapes)[k])
    decreases |shapes|
  {
    if |shapes| > 0 {
      var init := shapes[..|shapes| - 1];
      assert ValidInput(a, init) by {
        forall s, k | 0 <= s < |init| && 0 <= k < |init[s].indices|
          ensures ValidCorner(a, init[s].indices[k])
        {
          assert init[s] == shapes[s];
        }
      }
      AllCornersValid(a, init);
      var last := shapes[|shapes| - 1].indices;
      forall k | 0 <= k < |AllCorners(shapes)|
        ensures ValidCorner(a, AllCorners(shapes)[k])
      {
        if k >= |AllCorners(init)| {
          assert AllCorners(shapes)[k] == last[k - |AllCorners(init)|];
        }
      }
    }
  }

  /** The vertex stream before merging: one vertex per face corner. */
  function CornerVertices(a: Attrib, corners: seq<ObjIndex>, slot: int, amplification: int): (r: seq<Vertex>)
    requires forall k :: 0 <= k < |corners| ==> ValidCorner(a, corners[k])
    ensures |r| == |corners|
    ensures forall k :: 0 <= k < |r| ==> r[k] == CornerVertex(a, corners[k], slot, amplification)
  {
    seq(|corners|, k requires 0 <= k < |corners| => CornerVertex(a, corners[k], slot, amplification))
  }

  /** `vertices`/`indices` is a de-duplication of the stream `built`:
      one index per stream entry, each naming a vertex equal (operator==)
      to its entry, no two stored vertices equal, and every stored vertex
      used. The tangent is not looked at, so the relation survives the
      tangent pass. */
  predicate IsDedup(built: seq<Vertex>, vertices: seq<Vertex>, indices: seq<nat>) {
    && |indices| == |built|
    && IndicesInRange(indices, |vertices|)
    && (forall k :: 0 <= k < |built| ==> Equal(vertices[indices[k]], built[k]))
    && (forall i, j :: 0 <= i < j < |vertices| ==> !Equal(vertices[i], vertices[j]))
    && (forall j :: 0 <= j < |vertices| ==> j in indices)
  }

  /** Two stream entries share an index exactly when they are equal
      vertices: merging identifies equal vertices and nothing else. */
  lemma SharedIndexIffEqual(built: seq<Vertex>, vertices: seq<Vertex>, indices: seq<nat>, i: nat, j: nat)
    requires IsDedup(built, vertices, indices)
    requires i < |built| && j < |built|
    ensures indices[i] == indices[j] <==> Equal(built[i], built[j])
  {
    var a, b := indices[i], indices[j];
    KeyCharacterisesEqual(vertices[a], built[i]);
    KeyCharacterisesEqual(vertices[b], built[j]);
    KeyCharacterisesEqual(built[i], built[j]);
    if a != b {
      KeyCharacterisesEqual(vertices[a], vertices[b]);
      if a < b {
        assert !Equal(vertices[a], vertices[b]);
      } else {
        assert !Equal(vertices[b], vertices[a]);
      }
    }
  }

  /** Vertices are stored in order of first use: an index met for the
      first time is larger than every index before it. */
  predicate FirstUseOrdered(indices: seq<nat>) {
    forall k, i :: 0 <= i < k < |indices| && indices[k] !in indices[..k] ==> indices[i] < indices[k]
  }

  /** Appending an index already used, or one larger than all before it,
      keeps first uses in order. */
  lemma FirstUseAppend(indices: seq<nat>, x: nat)
    requires FirstUseOrdered(indices)
    requires x in indices || forall i :: 0 <= i < |indices| ==> indices[i] < x
    ensures FirstUseOrdered(indices + [x])
  {
    var s := indices + [x];
    forall k, i | 0 <= i < k < |s| && s[k] !in s[..k]
      ensures s[i] < s[k]
    {
      assert s[..|indices|] == indices;
      if k < |indices| {
        assert s[..k] == indices[..k];
      }
    }
  }

  /** The merge loop of Builder::LoadModel: a map from vertex (compared by
      operator==) to its position in the vertex buffer; a vertex not yet in
      the map is appended and recorded, and its recorded position is
      appended to the index buffer. */
  method Deduplicate(built: seq<Vertex>) returns (vertices: seq<Vertex>, indices: seq<nat>)
    ensures IsDedup(built, vertices, indices)
    ensures |vertices| <= |built|
    ensures forall j :: 0 <= j < |vertices| ==> vertices[j] in built
    ensures FirstUseOrdered(indices)
  {
    var unique: map<Vertex, nat> := map[];
    vertices, indices := [], [];
    for k := 0 to |built|
      invariant |indices| == k
      invariant |vertices| <= k
      invariant forall key :: key in unique ==> unique[key] < |vertices| && Key(vertices[unique[key]]) == key
      invariant forall j :: 0 <= j < |vertices| ==> Key(vertices[j]) in unique && unique[Key(vertices[j])] == j
      invariant forall i :: 0 <= i < k ==> indices[i] < |vertices| && Key(vertices[indices[i]]) == Key(built[i])
      invariant forall j :: 0 <= j < |vertices| ==> j in indices
      invariant forall j :: 0 <= j < |vertices| ==> vertices[j] in built[..k]
      invariant FirstUseOrdered(indices)
    {
      var vertex := built[k];
      if Key(vertex) !in unique {
        unique := unique[Key(vertex) := |vertices|];
        vertices := vertices + [vertex];
      }
      FirstUseAppend(indices, unique[Key(vertex)]);
      indices := indices + [unique[Key(vertex)]];
    }
    assert built[..|built|] == built;
    forall k | 0 <= k < |built| ensures Equal(vertices[indices[k]], built[k]) {
      KeyCharacterisesEqual(vertices[indices[k]], built[k]);
    }
    forall i, j | 0 <= i < j < |vertices| ensures !Equal(vertices[i], vertices[j]) {
      KeyCharacterisesEqual(vertices[i], vertices[j]);
    }
  }

  /** Builder::LoadModel over the parser's output: build one vertex per
      face corner, merge equal vertices, then run the tangent pass.
      `normalTextureSlot` is accepted and ignored, as in the source. */
  method LoadModel(a: Attrib, shapes: seq<Shape>, diffuseMapTextureSlot: int, fragAmplification: int,
                   normalTextureSlot: int)
    returns (vertices: seq<Vertex>, indices: seq<nat>)
    requires ValidInput(a, shapes)
    ensures |indices| == TotalIndexCount(shapes)
    ensures |vertices| <= |indices|
    ensures forall k :: 0 <= k < |AllCorners(shapes)| ==> ValidCorner(a, AllCorners(shapes)[k])
    ensures IsDedup(CornerVertices(a, AllCorners(shapes), diffuseMapTextureSlot, fragAmplification),
                    vertices, indices)
    ensures FirstUseOrdered(indices)
    ensures vertices == TangentPass(vertices, indices)
    ensures forall j :: 0 <= j < |vertices| && LastTriangleWith(indices, j, TriangleCount(indices)).None?
              ==> vertices[j].tangent == Zero3
  {
    var corners := AllCorners(shapes);
    AllCornersLength(shapes);
    AllCornersValid(a, shapes);
    var built := CornerVertices(a, corners, diffuseMapTextureSlot, fragAmplification);
    var merged;
    merged, indices := Deduplicate(built);
    vertices := CalculateTangents(merged, indices);
    TangentPassIdempotent(merged, indices);
    forall j | 0 <= j < |vertices| && LastTriangleWith(indices, j, TriangleCount(indices)).None?
      ensures vertices[j].tangent == Zero3
    {
      LastWriterWins(merged, indices, TriangleCount(indices), j);
    }
    forall k | 0 <= k < |built| ensures Equal(vertices[indices[k]], built[k]) {
      assert Key(vertices[indices[k]]) == Key(merged[indices[k]]);
    }
    forall i, j | 0 <= i < j < |vertices| ensures !Equal(vertices[i], vertices[j]) {
      assert Key(vertices[i]) == Key(merged[i]) && Key(vertices[j]) == Key(merged[j]);
    }
  }
}
