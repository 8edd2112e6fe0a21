/** The two fixed quads of the builder: Builder::LoadSprite and
    Builder::LoadParticle. Both write four corners
        0 - 1
        | / |
        3 - 2
    and the two triangles (0, 1, 3) and (1, 2, 3); neither runs the
    tangent pass. */
module Quads {
  import opened Math
  import opened Vertices
  import opened Tangents

  /** The sprite fields the builder reads: the atlas rectangle and the
      texture slot. */
  datatype Sprite = Sprite(pos1X: real, pos1Y: real, pos2X: real, pos2Y: real, textureSlot: int)

  /** A glm::mat4 by columns; the sprite's four corner positions are its
      columns. */
  datatype Mat4 = Mat4(c0: Vec4, c1: Vec4, c2: Vec4, c3: Vec4)

  datatype Quad = Quad(vertices: seq<Vertex>, indices: seq<nat>)

  const QuadIndices: seq<nat> := [0, 1, 3, 1, 2, 3]

  lemma QuadIndicesCoverCorners()
    ensures forall v: nat :: v < 4 ==> v in QuadIndices
  {
    assert QuadIndices[0] == 0 && QuadIndices[1] == 1 && QuadIndices[4] == 2 && QuadIndices[2] == 3;
  }

  /** Four corners, two triangles over them that share the 1-3 diagonal,
      and every corner is used. */
  predicate WellFormedQuad(q: Quad) {
    && |q.vertices| == 4
    && |q.indices| == 6
    && IndicesInRange(q.indices, |q.vertices|)
    && TriangleCount(q.indices) == 2
    && (forall v: nat :: v < 4 ==> v in q.indices)
    && {q.indices[1], q.indices[2]} == {q.indices[3], q.indices[5]}
  }

  /** The z component of (b - a) x (c - a): its sign is the winding of
      the triangle seen from +z, its magnitude twice the area. */
  function Winding(a: Vec3, b: Vec3, c: Vec3): real {
    (b.x - a.x) * (c.y - a.y) - (b.y - a.y) * (c.x - a.x)
  }

  function TriangleWinding(q: Quad, t: nat): real
    requires WellFormedQuad(q) && t < 2
  {
    Winding(q.vertices[q.indices[3 * t]].position,
            q.vertices[q.indices[3 * t + 1]].position,
            q.vertices[q.indices[3 * t + 2]].position)
  }

  function SpriteCorner(sprite: Sprite, position: Vec4, color: Vec3, u: real, v: real, amplification: real, unlit: int)
    : Vertex
  {
    Vertex(Xyz(position), color, Vec3(0.0, 0.0, 1.0), Vec2(u, v), Zero3, sprite.textureSlot, amplification, unlit)
  }

  /** Builder::LoadSprite. The colour argument is not used: the top
      corners are coloured (0, 0.1, 0.9), the bottom ones (0, 0.9, 0.1). */
  function LoadSprite(sprite: Sprite, position: Mat4, amplification: real, unlit: int, color: Vec4): (q: Quad)
    ensures WellFormedQuad(q)
    ensures forall i :: 0 <= i < 4 ==>
              && q.vertices[i].textureSlot == sprite.textureSlot
              && q.vertices[i].amplification == amplification
              && q.vertices[i].unlit == unlit
              && q.vertices[i].normal == Vec3(0.0, 0.0, 1.0)
              && q.vertices[i].tangent == Zero3
    ensures q.vertices[0].position == Xyz(position.c0) && q.vertices[1].position == Xyz(position.c1)
    ensures q.vertices[2].position == Xyz(position.c2) && q.vertices[3].position == Xyz(position.c3)
    ensures q.vertices[0].color == q.vertices[1].color == Vec3(0.0, 0.1, 0.9)
    ensures q.vertices[2].color == q.vertices[3].color == Vec3(0.0, 0.9, 0.1)
  {
    QuadIndicesCoverCorners();
    var top := Vec3(0.0, 0.1, 0.9);
    var bottom := Vec3(0.0, 0.9, 0.1);
    Quad([SpriteCorner(sprite, position.c0, top, sprite.pos1X, 1.0 - sprite.pos2Y, amplification, unlit),
          SpriteCorner(sprite, position.c1, top, sprite.pos2X, 1.0 - sprite.pos2Y, amplification, unlit),
          SpriteCorner(sprite, position.c2, bottom, sprite.pos2X, 1.0 - sprite.pos1Y, amplification, unlit),
          SpriteCorner(sprite, position.c3, bottom, sprite.pos1X, 1.0 - sprite.pos1Y, amplification, unlit)],
         QuadIndices)
  }

  /** The sprite's texture coordinates span the atlas rectangle with V
      flipped: corners 0 and 3 share U = pos1X, corners 1 and 2 share
      U = pos2X, the top corners have V = 1 - pos2Y and the bottom ones
      V = 1 - pos1Y. */
  lemma SpriteUvRectangle(sprite: Sprite, position: Mat4, amplification: real, unlit: int, color: Vec4)
    ensures var vs := LoadSprite(sprite, position, amplification, unlit, color).vertices;
            && vs[0].uv.x == vs[3].uv.x == sprite.pos1X
            && vs[1].uv.x == vs[2].uv.x == sprite.pos2X
            && vs[0].uv.y == vs[1].uv.y == 1.0 - sprite.pos2Y
            && vs[2].uv.y == vs[3].uv.y == 1.0 - sprite.pos1Y
  {
  }

  /** The colour argument of LoadSprite has no effect on the quad. */
  lemma SpriteIgnoresColor(sprite: Sprite, position: Mat4, amplification: real, unlit: int, c1: Vec4, c2: Vec4)
    ensures LoadSprite(sprite, position, amplification, unlit, c1) == LoadSprite(sprite, position, amplification, unlit, c2)
  {
  }

  function ParticleCorner(x: real, y: real, u: real, v: real, color: Vec4): Vertex {
    Vertex(Vec3(x, y, 0.0), Xyz(color), Vec3(0.0, 0.0, -1.0), Vec2(u, v), Zero3, 0, 1.0, 0)
  }

  /** Builder::LoadParticle: the square [-1, 1] x [-1, 1] in the z = 0
      plane, every corner in the given colour. */
  function LoadParticle(color: Vec4): (q: Quad)
    ensures WellFormedQuad(q)
    ensures forall i :: 0 <= i < 4 ==>
              && q.vertices[i].color == Xyz(color)
              && q.vertices[i].normal == Vec3(0.0, 0.0, -1.0)
              && q.vertices[i].textureSlot == 0
              && q.vertices[i].amplification == 1.0
              && q.vertices[i].unlit == 0
              && q.vertices[i].tangent == Zero3
    ensures && q.vertices[0].position == Vec3(-1.0, 1.0, 0.0) && q.vertices[0].uv == Vec2(0.0, 0.0)
            && q.vertices[1].position == Vec3(1.0, 1.0, 0.0) && q.vertices[1].uv == Vec2(1.0, 0.0)
            && q.vertices[2].position == Vec3(1.0, -1.0, 0.0) && q.vertices[2].uv == Vec2(1.0, 1.0)
            && q.vertices[3].position == Vec3(-1.0, -1.0, 0.0) && q.vertices[3].uv == Vec2(0.0, 1.0)
  {
    QuadIndicesCoverCorners();
    Quad([ParticleCorner(-1.0, 1.0, 0.0, 1.0 - 1.0, color),
          ParticleCorner(1.0, 1.0, 1.0, 1.0 - 1.0, color),
          ParticleCorner(1.0, -1.0, 1.0, 1.0 - 0.0, color),
          ParticleCorner(-1.0, -1.0, 0.0, 1.0 - 0.0, color)],
         QuadIndices)
  }

  /** The particle's texture coordinates are the affine image of its
      position: U = (x + 1) / 2 and V = (1 - y) / 2, so the texture is
      stretched over the square without distortion and with V pointing
      down. */
  lemma ParticleUvFollowsPosition(color: Vec4)
    ensures var vs := LoadParticle(color).vertices;
            forall i :: 0 <= i < 4 ==>
              && vs[i].uv.x == (vs[i].position.x + 1.0) / 2.0
              && vs[i].uv.y == (1.0 - vs[i].position.y) / 2.0
              && vs[i].position.z == 0.0
  {
  }

  /** Both particle triangles wind the same way (clockwise seen from +z,
      the side its normal faces away from) and each covers half of the
      4-unit square. */
  lemma ParticleWinding(color: Vec4)
    ensures var q := LoadParticle(color);
            TriangleWinding(q, 0) == TriangleWinding(q, 1) == -4.0
  {
  }
}
