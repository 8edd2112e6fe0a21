/** Builder::CalculateTangents: one tangent per complete index triple,
    written to all three vertices of that triangle; a vertex shared by
    several triangles keeps the tangent of the last one. */
module Tangents {
  import opened Math
  import opened Vertices

  /** The determinant of the triangle's two UV edges. */
  function UvDeterminant(uv1: Vec2, uv2: Vec2, uv3: Vec2): real {
    (uv2.x - uv1.x) * (uv3.y - uv1.y) - (uv3.x - uv1.x) * (uv2.y - uv1.y)
  }

  /** One coordinate of the tangent, from that coordinate of the three
      corner positions: (dV2 * E1 - dV1 * E2) / det. */
  function TangentComponent(a1: real, a2: real, a3: real, uv1: Vec2, uv2: Vec2, uv3: Vec2): real
    requires UvDeterminant(uv1, uv2, uv3) != 0.0
  {
    (1.0 / UvDeterminant(uv1, uv2, uv3)) * ((uv3.y - uv1.y) * (a2 - a1) - (uv2.y - uv1.y) * (a3 - a1))
  }

  /** One coordinate of the bitangent paired with the tangent (the source
      does not compute it): (dU1 * E2 - dU2 * E1) / det. */
  function BitangentComponent(a1: real, a2: real, a3: real, uv1: Vec2, uv2: Vec2, uv3: Vec2): real
    requires UvDeterminant(uv1, uv2, uv3) != 0.0
  {
    (1.0 / UvDeterminant(uv1, uv2, uv3)) * ((uv2.x - uv1.x) * (a3 - a1) - (uv3.x - uv1.x) * (a2 - a1))
  }

  /** The UV-space tangent of one triangle. The source divides by the UV
      determinant without a check and so yields infinities or NaNs on a
      degenerate triangle; reals have neither, so the model writes the zero
      vector there. */
  function TriangleTangent(p1: Vec3, p2: Vec3, p3: Vec3, uv1: Vec2, uv2: Vec2, uv3: Vec2): (t: Vec3)
    ensures UvDeterminant(uv1, uv2, uv3) == 0.0 ==> t == Zero3
  {
    if UvDeterminant(uv1, uv2, uv3) == 0.0 then Zero3
    else Vec3(TangentComponent(p1.x, p2.x, p3.x, uv1, uv2, uv3),
              TangentComponent(p1.y, p2.y, p3.y, uv1, uv2, uv3),
              TangentComponent(p1.z, p2.z, p3.z, uv1, uv2, uv3))
  }

  function TriangleBitangent(p1: Vec3, p2: Vec3, p3: Vec3, uv1: Vec2, uv2: Vec2, uv3: Vec2): Vec3
    requires UvDeterminant(uv1, uv2, uv3) != 0.0
  {
    Vec3(BitangentComponent(p1.x, p2.x, p3.x, uv1, uv2, uv3),
         BitangentComponent(p1.y, p2.y, p3.y, uv1, uv2, uv3),
         BitangentComponent(p1.z, p2.z, p3.z, uv1, uv2, uv3))
  }

  /** The frame identity in one coordinate: the edges are
      dU * tangent + dV * bitangent. */
  lemma ComponentFrame(a1: real, a2: real, a3: real, uv1: Vec2, uv2: Vec2, uv3: Vec2)
    requires UvDeterminant(uv1, uv2, uv3) != 0.0
    ensures var t := TangentComponent(a1, a2, a3, uv1, uv2, uv3);
            var b := BitangentComponent(a1, a2, a3, uv1, uv2, uv3);
            && a2 - a1 == (uv2.x - uv1.x) * t + (uv2.y - uv1.y) * b
            && a3 - a1 == (uv3.x - uv1.x) * t + (uv3.y - uv1.y) * b
  {
    var dU1, dV1, dU2, dV2 := uv2.x - uv1.x, uv2.y - uv1.y, uv3.x - uv1.x, uv3.y - uv1.y;
    var det := UvDeterminant(uv1, uv2, uv3);
    var factor := 1.0 / det;
    assert det == dU1 * dV2 - dU2 * dV1;
    assert factor * det == 1.0;
    var e1, e2 := a2 - a1, a3 - a1;
    var t := TangentComponent(a1, a2, a3, uv1, uv2, uv3);
    var b := BitangentComponent(a1, a2, a3, uv1, uv2, uv3);
    calc {
      dU1 * t + dV1 * b;
      factor * (dU1 * (dV2 * e1 - dV1 * e2) + dV1 * (dU1 * e2 - dU2 * e1));
      factor * (det * e1);
      (factor * det) * e1;
      1.0 * e1;
    }
    calc {
      dU2 * t + dV2 * b;
      factor * (dU2 * (dV2 * e1 - dV1 * e2) + dV2 * (dU1 * e2 - dU2 * e1));
      factor * (det * e2);
      (factor * det) * e2;
      1.0 * e2;
    }
  }

  /** The tangent is the one the triangle's UV mapping defines: together
      with its bitangent it rebuilds both position edges from the UV
      edges, p2 - p1 = dU1 T + dV1 B and p3 - p1 = dU2 T + dV2 B. */
  lemma TangentFrame(p1: Vec3, p2: Vec3, p3: Vec3, uv1: Vec2, uv2: Vec2, uv3: Vec2)
    requires UvDeterminant(uv1, uv2, uv3) != 0.0
    ensures var t := TriangleTangent(p1, p2, p3, uv1, uv2, uv3);
            var b := TriangleBitangent(p1, p2, p3, uv1, uv2, uv3);
            var dU1, dV1, dU2, dV2 := uv2.x - uv1.x, uv2.y - uv1.y, uv3.x - uv1.x, uv3.y - uv1.y;
            && p2.x - p1.x == dU1 * t.x + dV1 * b.x && p3.x - p1.x == dU2 * t.x + dV2 * b.x
            && p2.y - p1.y == dU1 * t.y + dV1 * b.y && p3.y - p1.y == dU2 * t.y + dV2 * b.y
            && p2.z - p1.z == dU1 * t.z + dV1 * b.z && p3.z - p1.z == dU2 * t.z + dV2 * b.z
  {
    ComponentFrame(p1.x, p2.x, p3.x, uv1, uv2, uv3);
    ComponentFrame(p1.y, p2.y, p3.y, uv1, uv2, uv3);
    ComponentFrame(p1.z, p2.z, p3.z, uv1, uv2, uv3);
  }

  /** Every index names a vertex of the buffer (the source indexes the
      vertex vector with each index unchecked). */
  predicate IndicesInRange(indices: seq<nat>, vertexCount: nat) {
    forall k :: 0 <= k < |indices| ==> indices[k] < vertexCount
  }

  /** Number of complete triangles in an index buffer. */
  function TriangleCount(indices: seq<nat>): nat {
    |indices| / 3
  }

  /** Whether vertex v is one of the three corners of triangle t. */
  predicate InTriangle(indices: seq<nat>, t: nat, v: nat)
    requires 3 * t + 2 < |indices|
  {
    v == indices[3 * t] || v == indices[3 * t + 1] || v == indices[3 * t + 2]
  }

  /** The tangent triangle t computes from the positions and UVs of vs. */
  function TangentOf(vs: seq<Vertex>, indices: seq<nat>, t: nat): Vec3
    requires 3 * t + 2 < |indices|
    requires IndicesInRange(indices, |vs|)
  {
    var a := vs[indices[3 * t]];
    var b := vs[indices[3 * t + 1]];
    var c := vs[indices[3 * t + 2]];
    TriangleTangent(a.position, b.position, c.position, a.uv, b.uv, c.uv)
  }

  function SetTangent(vs: seq<Vertex>, i: nat, t: Vec3): (r: seq<Vertex>)
    requires i < |vs|
    ensures |r| == |vs|
  {
    vs[i := vs[i].(tangent := t)]
  }

  /** The input tangents of a vertex buffer. */
  function TangentsOf(vs: seq<Vertex>): (ts: seq<Vec3>)
    ensures |ts| == |vs|
  {
    seq(|vs|, i requires 0 <= i < |vs| => vs[i].tangent)
  }

  /** The buffer with its tangents replaced and every other field kept. */
  function WithTangents(vs: seq<Vertex>, ts: seq<Vec3>): (r: seq<Vertex>)
    requires |ts| == |vs|
    ensures |r| == |vs|
    ensures forall i :: 0 <= i < |vs| ==> r[i] == vs[i].(tangent := ts[i])
  {
    seq(|vs|, i requires 0 <= i < |vs| => vs[i].(tangent := ts[i]))
  }

  /** Tangents after triangles 0 .. n-1 have been written, in order; each
      triangle's tangent goes to its corners 1, 2 and 3. Positions and UVs
      are never written, so every triangle reads them from the input. */
  function ApplyTriangles(vs: seq<Vertex>, indices: seq<nat>, n: nat): (ts: seq<Vec3>)
    requires 3 * n <= |indices|
    requires IndicesInRange(indices, |vs|)
    ensures |ts| == |vs|
    decreases n
  {
    if n == 0 then TangentsOf(vs)
    else
      var prev := ApplyTriangles(vs, indices, n - 1);
      var t := n - 1;
      var tangent := TangentOf(vs, indices, t);
      prev[indices[3 * t] := tangent][indices[3 * t + 1] := tangent][indices[3 * t + 2] := tangent]
  }

  /** The whole pass: every complete triple, and nothing for a trailing one
      or two indices. Only tangents change: the result has as many vertices
      as the input, each equal to its input vertex under operator==. */
  function TangentPass(vs: seq<Vertex>, indices: seq<nat>): (r: seq<Vertex>)
    requires IndicesInRange(indices, |vs|)
    ensures |r| == |vs|
    ensures forall i :: 0 <= i < |vs| ==> Key(r[i]) == Key(vs[i])
  {
    WithTangents(vs, ApplyTriangles(vs, indices, TriangleCount(indices)))
  }

  /** The last of triangles 0 .. n-1 that has v as a corner, if any. */
  function LastTriangleWith(indices: seq<nat>, v: nat, n: nat): (r: Option<nat>)
    requires 3 * n <= |indices|
    ensures r.Some? ==> r.value < n && InTriangle(indices, r.value, v)
    ensures r.Some? ==> forall t :: r.value < t < n ==> !InTriangle(indices, t, v)
    ensures r.None? ==> forall t :: 0 <= t < n ==> !InTriangle(indices, t, v)
    decreases n
  {
    if n == 0 then None
    else if InTriangle(indices, n - 1, v) then Some(n - 1)
    else LastTriangleWith(indices, v, n - 1)
  }

  /** The tangent vertex v should end with after triangles 0 .. n-1: that
      of the last triangle it is a corner of, or its own when it is a
      corner of none. */
  function LastWrittenTangent(vs: seq<Vertex>, indices: seq<nat>, n: nat, v: nat): Vec3
    requires 3 * n <= |indices|
    requires IndicesInRange(indices, |vs|)
    requires v < |vs|
  {
    match LastTriangleWith(indices, v, n)
    case None => vs[v].tangent
    case Some(t) => TangentOf(vs, indices, t)
  }

  /** Last writer wins: after triangles 0 .. n-1 every vertex carries the
      tangent `LastWrittenTangent` names; writes of earlier triangles to a
      shared vertex are overwritten, nothing is accumulated. */
  lemma {:induction false} LastWriterWins(vs: seq<Vertex>, indices: seq<nat>, n: nat, v: nat)
    requires 3 * n <= |indices|
    requires IndicesInRange(indices, |vs|)
    requires v < |vs|
    ensures ApplyTriangles(vs, indices, n)[v] == LastWrittenTangent(vs, indices, n, v)
    decreases n
  {
    if n > 0 && !InTriangle(indices, n - 1, v) {
      LastWriterWins(vs, indices, n - 1, v);
    }
  }

  /** The tangent pass shares one tangent among the corners of the final
      triangle, and more generally among the corners of any triangle none
      of whose corners a later triangle reuses. */
  lemma CornersShareTangent(vs: seq<Vertex>, indices: seq<nat>, t: nat)
    requires IndicesInRange(indices, |vs|)
    requires t < TriangleCount(indices)
    requires forall u, k :: t < u < TriangleCount(indices) && 3 * t <= k < 3 * t + 3 ==>
               !InTriangle(indices, u, indices[k])
    ensures var r := TangentPass(vs, indices);
            r[indices[3 * t]].tangent == r[indices[3 * t + 1]].tangent == r[indices[3 * t + 2]].tangent
              == TangentOf(vs, indices, t)
  {
    var n := TriangleCount(indices);
    forall k | 3 * t <= k < 3 * t + 3
      ensures ApplyTriangles(vs, indices, n)[indices[k]] == TangentOf(vs, indices, t)
    {
      assert InTriangle(indices, t, indices[k]);
      assert LastTriangleWith(indices, indices[k], n) == Some(t);
      LastWriterWins(vs, indices, n, indices[k]);
    }
  }

  /** Applying n triangles only reads the first 3n indices. */
  lemma {:induction false} ApplyReadsPrefix(vs: seq<Vertex>, indices: seq<nat>, other: seq<nat>, n: nat)
    requires 3 * n <= |indices| && 3 * n <= |other|
    requires IndicesInRange(indices, |vs|) && IndicesInRange(other, |vs|)
    requires forall k :: 0 <= k < 3 * n ==> indices[k] == other[k]
    ensures ApplyTriangles(vs, indices, n) == ApplyTriangles(vs, other, n)
    decreases n
  {
    if n > 0 {
      ApplyReadsPrefix(vs, indices, other, n - 1);
      assert TangentOf(vs, indices, n - 1) == TangentOf(vs, other, n - 1);
    }
  }

  /** A trailing one or two indices that do not complete a triangle write
      nothing: the pass equals the pass over the complete triples only. */
  lemma TrailingIndicesWriteNothing(vs: seq<Vertex>, indices: seq<nat>)
    requires IndicesInRange(indices, |vs|)
    ensures var whole := indices[..3 * TriangleCount(indices)];
            IndicesInRange(whole, |vs|) && TangentPass(vs, indices) == TangentPass(vs, whole)
  {
    var n := TriangleCount(indices);
    var whole := indices[..3 * n];
    assert TriangleCount(whole) == n;
    ApplyReadsPrefix(vs, indices, whole, n);
  }

  /** Tangents depend only on positions and UVs, which the pass never
      writes: running the pass a second time changes nothing. */
  lemma TangentPassIdempotent(vs: seq<Vertex>, indices: seq<nat>)
    requires IndicesInRange(indices, |vs|)
    ensures TangentPass(TangentPass(vs, indices), indices) == TangentPass(vs, indices)
  {
    var n := TriangleCount(indices);
    var ws := TangentPass(vs, indices);
    forall j | 0 <= j < |vs|
      ensures ApplyTriangles(ws, indices, n)[j] == ApplyTriangles(vs, indices, n)[j]
    {
      LastWriterWins(ws, indices, n, j);
      LastWriterWins(vs, indices, n, j);
      match LastTriangleWith(indices, j, n)
      case None =>
      case Some(t) =>
        var a, b, c := indices[3 * t], indices[3 * t + 1], indices[3 * t + 2];
        assert ws[a].position == vs[a].position && ws[a].uv == vs[a].uv;
        assert ws[b].position == vs[b].position && ws[b].uv == vs[b].uv;
        assert ws[c].position == vs[c].position && ws[c].uv == vs[c].uv;
    }
  }

  /** What the source loop remembers between indices: the corner counter
      and the index, position and UV of the corners already visited of the
      triangle in progress. */
  datatype Corners = Corners(cnt: nat, index1: nat, position1: Vec3, uv1: Vec2,
                             index2: nat, position2: Vec3, uv2: Vec2)

  /** After `done` complete triangles and `c.cnt` further indices, `c`
      holds the visited corners of triangle `done` as read from the
      buffer. */
  predicate Remembers(vertices: seq<Vertex>, indices: seq<nat>, done: nat, c: Corners)
    requires IndicesInRange(indices, |vertices|)
  {
    && c.cnt < 3
    && 3 * done + c.cnt <= |indices|
    && (c.cnt >= 1 ==> c.index1 == indices[3 * done]
                       && c.position1 == vertices[c.index1].position
                       && c.uv1 == vertices[c.index1].uv)
    && (c.cnt == 2 ==> c.index2 == indices[3 * done + 1]
                       && c.position2 == vertices[c.index2].position
                       && c.uv2 == vertices[c.index2].uv)
  }

  /** The buffer the source loop holds after `done` triangles. */
  function Partial(vertices: seq<Vertex>, indices: seq<nat>, done: nat): seq<Vertex>
    requires 3 * done <= |indices|
    requires IndicesInRange(indices, |vertices|)
  {
    WithTangents(vertices, ApplyTriangles(vertices, indices, done))
  }

  /** The third corner of a triangle: writing the tangent computed from the
      remembered corners and the current vertex to the three corners of the
      buffer is the write of triangle `done`. */
  lemma CompleteTriangle(vertices: seq<Vertex>, indices: seq<nat>, done: nat, c: Corners, vertex: Vertex)
    requires IndicesInRange(indices, |vertices|)
    requires Remembers(vertices, indices, done, c) && c.cnt == 2
    requires 3 * done + 2 < |indices|
    requires vertex == Partial(vertices, indices, done)[indices[3 * done + 2]]
    ensures var tangent := TriangleTangent(c.position1, c.position2, vertex.position, c.uv1, c.uv2, vertex.uv);
            var r := Partial(vertices, indices, done);
            Partial(vertices, indices, done + 1) ==
            SetTangent(SetTangent(SetTangent(r, c.index1, tangent), c.index2, tangent), indices[3 * done + 2], tangent)
  {
    var tangent := TriangleTangent(c.position1, c.position2, vertex.position, c.uv1, c.uv2, vertex.uv);
    assert tangent == TangentOf(vertices, indices, done);
    var r := Partial(vertices, indices, done);
    var lhs := Partial(vertices, indices, done + 1);
    var rhs := SetTangent(SetTangent(SetTangent(r, c.index1, tangent), c.index2, tangent), indices[3 * done + 2], tangent);
    forall i | 0 <= i < |vertices|
      ensures lhs[i] == rhs[i]
    {
    }
  }

  /** One iteration of the source loop: visit the next index; on the third
      corner of a triangle write its tangent to all three corners. */
  method VisitCorner(vertices: seq<Vertex>, indices: seq<nat>, r: seq<Vertex>, done: nat, c: Corners)
    returns (r': seq<Vertex>, done': nat, c': Corners)
    requires IndicesInRange(indices, |vertices|)
    requires Remembers(vertices, indices, done, c)
    requires 3 * done + c.cnt < |indices|
    requires r == Partial(vertices, indices, done)
    ensures 3 * done' + c'.cnt == 3 * done + c.cnt + 1
    ensures Remembers(vertices, indices, done', c')
    ensures r' == Partial(vertices, indices, done')
  {
    var index := indices[3 * done + c.cnt];
    var vertex := r[index];
    var next := (c.cnt + 1) % 3;
    if c.cnt == 0 {
      r', done' := r, done;
      c' := Corners(next, index, vertex.position, vertex.uv, c.index2, c.position2, c.uv2);
    } else if c.cnt == 1 {
      r', done' := r, done;
      c' := Corners(next, c.index1, c.position1, c.uv1, index, vertex.position, vertex.uv);
    } else {
      var tangent := TriangleTangent(c.position1, c.position2, vertex.position, c.uv1, c.uv2, vertex.uv);
      CompleteTriangle(vertices, indices, done, c, vertex);
      r' := SetTangent(SetTangent(SetTangent(r, c.index1, tangent), c.index2, tangent), index, tangent);
      done' := done + 1;
      c' := c.(cnt := next);
    }
  }

  /** Builder::CalculateTangents, following the source's single pass over
      the index buffer with a corner counter cycling through 0, 1, 2. */
  method CalculateTangents(vertices: seq<Vertex>, indices: seq<nat>) returns (r: seq<Vertex>)
    requires IndicesInRange(indices, |vertices|)
    ensures r == TangentPass(vertices, indices)
  {
    var c := Corners(0, 0, Zero3, Zero2, 0, Zero3, Zero2);
    var done: nat := 0;
    r := vertices;
    assert r == Partial(vertices, indices, 0);
    var k := 0;
    while k < |indices|
      invariant k == 3 * done + c.cnt
      invariant Remembers(vertices, indices, done, c)
      invariant r == Partial(vertices, indices, done)
    {
      r, done, c := VisitCorner(vertices, indices, r, done, c);
      k := k + 1;
    }
    assert done == TriangleCount(indices);
  }
}
