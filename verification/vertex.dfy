/** The engine's vertex record, its equality operator and its hash. */
module Vertices {
  import opened Math

  /** One vertex of a mesh. `tangent` is written by the tangent pass;
      every other field is set when the vertex is built. The position has
      three components: the loaders assign it from three floats, and from
      a vec4 only by dropping the fourth. */
  datatype Vertex = Vertex(
    position: Vec3,
    color: Vec3,
    normal: Vec3,
    uv: Vec2,
    tangent: Vec3,
    textureSlot: int,
    amplification: real,
    unlit: int)

  /** A value-initialised `Vertex{}`: every field zero. */
  const DefaultVertex := Vertex(Zero3, Zero3, Zero3, Zero2, Zero3, 0, 0.0, 0)

  /** Vertex::operator==: all seven built fields are compared; the tangent
      is not. */
  predicate Equal(a: Vertex, b: Vertex) {
    && a.position == b.position
    && a.color == b.color
    && a.normal == b.normal
    && a.uv == b.uv
    && a.textureSlot == b.textureSlot
    && a.amplification == b.amplification
    && a.unlit == b.unlit
  }

  /** The part of a vertex that `Equal` looks at, as a value: the vertex
      with its tangent cleared. Used as the key of the de-duplication map. */
  function Key(v: Vertex): Vertex {
    v.(tangent := Zero3)
  }

  /** Two vertices are equal under operator== exactly when their keys are
      identical, so a map keyed by `Key` behaves like the source's hash map
      keyed by Vertex. */
  lemma KeyCharacterisesEqual(a: Vertex, b: Vertex)
    ensures Equal(a, b) <==> Key(a) == Key(b)
  {
  }

  /** Vertices with identical keys agree on every field but the tangent. */
  lemma SameKeySameFields(a: Vertex, b: Vertex)
    requires Key(a) == Key(b)
    ensures a.position == b.position && a.color == b.color && a.normal == b.normal && a.uv == b.uv
    ensures a.textureSlot == b.textureSlot && a.amplification == b.amplification && a.unlit == b.unlit
  {
    assert Key(a).position == Key(b).position;
  }

  /** The fields that std::hash<Vertex> feeds into HashCombine. */
  datatype HashInput = HashInput(position: Vec3, color: Vec3, normal: Vec3, uv: Vec2)

  function HashedFields(v: Vertex): HashInput {
    HashInput(v.position, v.color, v.normal, v.uv)
  }

  /** std::hash<Vertex>; the seed-combining function of HashCombine is a
      parameter because its definition is not part of this model. */
  function Hash(combine: HashInput -> int, v: Vertex): int {
    combine(HashedFields(v))
  }

  /** The hash is consistent with operator==: equal vertices hash equally,
      whatever the combining function. */
  lemma EqualVerticesHashEqually(combine: HashInput -> int, a: Vertex, b: Vertex)
    requires Equal(a, b)
    ensures Hash(combine, a) == Hash(combine, b)
  {
  }

  /** The hash ignores texture slot, amplification, unlit flag and tangent:
      vertices that differ only there collide (and are told apart by
      operator==). */
  lemma HashIgnoresNonGeometricFields(combine: HashInput -> int, v: Vertex,
                                      slot: int, amp: real, unlit: int, t: Vec3)
    ensures Hash(combine, v.(textureSlot := slot, amplification := amp, unlit := unlit, tangent := t))
            == Hash(combine, v)
  {
  }
}
