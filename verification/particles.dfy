/** ParticleSystem: a fixed pool of particles used as a ring buffer.
    Emit overwrites the slot at the write cursor and creates a registry
    entity for it; OnUpdate advances every live particle and its entity's
    transform. The registry is a sequence of entities in creation order,
    an entity being its position. */
module Particles {
  import opened Math
  import opened Quads

  /** The emission parameters (ParticleSystem::Specification). */
  datatype Specification = Specification(
    position: Vec2,
    velocity: Vec2,
    acceleration: Vec2,
    rotation: real,
    rotationSpeed: real,
    startColor: Vec4,
    finalColor: Vec4,
    startSize: real,
    finalSize: real,
    lifeTime: real)

  datatype Particle = Particle(
    velocity: Vec2,
    acceleration: Vec2,
    rotationSpeed: real,
    startColor: Vec4,
    finalColor: Vec4,
    startSize: real,
    finalSize: real,
    lifeTime: real,
    remainingLifeTime: real,
    enabled: bool,
    entity: nat)

  /** A value-initialised particle: disabled, every number zero. */
  const DefaultParticle := Particle(Zero2, Zero2, 0.0, Zero4, Zero4, 0.0, 0.0, 0.0, 0.0, false, 0)

  /** The TransformComponent of a particle entity. The particle system
      sets its rotation as a vector of Euler angles (here a turn about z),
      so this record keeps that vector; the glTF loader sets the same
      component through a quaternion (SceneGraph.Transform), and the
      conversion between the two lives in the TransformComponent itself,
      which is not part of this model. */
  datatype ParticleTransform = ParticleTransform(translation: Vec3, scale: Vec3, rotation: Vec3)

  /** A particle's entity: its MeshComponent (named "particle", built from
      the quad of LoadParticle) and its transform. */
  datatype ParticleEntity = ParticleEntity(meshName: string, quad: Quad, transform: ParticleTransform)

  datatype ParticleSystem = ParticleSystem(pool: seq<Particle>, poolIndex: nat, registry: seq<ParticleEntity>)

  /** A particle OnUpdate will advance rather than skip or disable. */
  predicate Alive(p: Particle) {
    p.enabled && p.remainingLifeTime > 0.0
  }

  /** The pool invariant: the cursor is a slot, every enabled particle
      owns its own registry entity and has no more life left than it
      started with. */
  predicate Valid(s: ParticleSystem) {
    && 0 < |s.pool|
    && s.poolIndex < |s.pool|
    && (forall i :: 0 <= i < |s.pool| && s.pool[i].enabled ==>
          s.pool[i].entity < |s.registry| && s.pool[i].remainingLifeTime <= s.pool[i].lifeTime)
    && (forall i, j :: 0 <= i < j < |s.pool| && s.pool[i].enabled && s.pool[j].enabled ==>
          s.pool[i].entity != s.pool[j].entity)
  }

  /** The ParticleSystem constructor. */
  function New(poolSize: nat): (s: ParticleSystem)
    requires poolSize > 0
    ensures Valid(s)
    ensures |s.pool| == poolSize && s.poolIndex == 0 && s.registry == []
    ensures forall i :: 0 <= i < poolSize ==> !s.pool[i].enabled
  {
    ParticleSystem(seq(poolSize, _ => DefaultParticle), 0, [])
  }

  /** The particle Emit writes. `jitter` stands for the value of
      RandomPlusMinusOne; the variation's x velocity, scaled by it, is
      added to both velocity components. */
  function Emitted(spec: Specification, variation: Specification, jitter: real, entity: nat): (p: Particle)
    ensures p.enabled && p.remainingLifeTime == p.lifeTime == spec.lifeTime
    ensures p.startColor == spec.startColor && p.finalColor == spec.finalColor
    ensures p.startSize == spec.startSize && p.finalSize == spec.finalSize
    ensures p.acceleration == spec.acceleration && p.rotationSpeed == spec.rotationSpeed
    ensures p.entity == entity
  {
    var kick := variation.velocity.x * jitter;
    Particle(Vec2(spec.velocity.x + kick, spec.velocity.y + kick), spec.acceleration, spec.rotationSpeed,
             spec.startColor, spec.finalColor, spec.startSize, spec.finalSize,
             spec.lifeTime, spec.lifeTime, true, entity)
  }

  /** The entity Emit creates: a particle quad in the start colour, placed
      at the emission position at depth 3, scaled by the start size and
      turned about z by the emission rotation. */
  function EmittedEntity(spec: Specification): (e: ParticleEntity)
    ensures e.quad == LoadParticle(spec.startColor)
    ensures e.transform.scale == Vec3(spec.startSize, spec.startSize, spec.startSize)
    ensures e.transform.translation == Vec3(spec.position.x, spec.position.y, 3.0)
    ensures e.transform.rotation == Vec3(0.0, 0.0, spec.rotation)
    ensures e.meshName == "particle"
  {
    ParticleEntity("particle", LoadParticle(spec.startColor),
                   ParticleTransform(Vec3(spec.position.x, spec.position.y, 3.0),
                                     Vec3(1.0 * spec.startSize, 1.0 * spec.startSize, 1.0 * spec.startSize),
                                     Vec3(0.0, 0.0, spec.rotation)))
  }

  /** ParticleSystem::Emit. The slot at the cursor is overwritten whether
      or not its particle is still alive, the cursor advances modulo the
      pool size, and exactly one entity is added to the registry; the
      overwritten particle's entity stays in the registry. */
  function Emit(s: ParticleSystem, spec: Specification, variation: Specification, jitter: real): (r: ParticleSystem)
    requires Valid(s)
    ensures Valid(r)
    ensures |r.pool| == |s.pool|
    ensures r.poolIndex == (s.poolIndex + 1) % |s.pool|
    ensures r.pool[s.poolIndex] == Emitted(spec, variation, jitter, |s.registry|)
    ensures forall i :: 0 <= i < |s.pool| && i != s.poolIndex ==> r.pool[i] == s.pool[i]
    ensures |r.registry| == |s.registry| + 1 && r.registry[..|s.registry|] == s.registry
    ensures r.registry[|s.registry|] == EmittedEntity(spec)
  {
    var entity := |s.registry|;
    ParticleSystem(s.pool[s.poolIndex := Emitted(spec, variation, jitter, entity)],
                   (s.poolIndex + 1) % |s.pool|,
                   s.registry + [EmittedEntity(spec)])
  }

  /** Some enabled particle refers to entity `e`. */
  predicate Referenced(s: ParticleSystem, e: nat) {
    exists i :: 0 <= i < |s.pool| && s.pool[i].enabled && s.pool[i].entity == e
  }

  /** Overwriting an enabled particle orphans its entity: it stays in the
      registry but no enabled particle refers to it any more. */
  lemma EmitOrphansEntity(s: ParticleSystem, spec: Specification, variation: Specification, jitter: real)
    requires Valid(s) && s.pool[s.poolIndex].enabled
    ensures var r := Emit(s, spec, variation, jitter);
            var e := s.pool[s.poolIndex].entity;
            e < |r.registry| && !Referenced(r, e)
  {
    var r := Emit(s, spec, variation, jitter);
    var e := s.pool[s.poolIndex].entity;
    forall i | 0 <= i < |r.pool| && r.pool[i].enabled
      ensures r.pool[i].entity != e
    {
      if i != s.poolIndex {
        assert r.pool[i] == s.pool[i];
        if i < s.poolIndex {
          assert s.pool[i].entity != s.pool[s.poolIndex].entity;
        } else {
          assert s.pool[s.poolIndex].entity != s.pool[i].entity;
        }
      }
    }
  }

  /** `k` emissions with the same arguments. */
  function EmitTimes(s: ParticleSystem, spec: Specification, variation: Specification, jitter: real, k: nat)
    : (r: ParticleSystem)
    requires Valid(s)
    ensures Valid(r) && |r.pool| == |s.pool| && |r.registry| == |s.registry| + k
  {
    if k == 0 then s else Emit(EmitTimes(s, spec, variation, jitter, k - 1), spec, variation, jitter)
  }

  /** Emit's cursor step: the next slot, or slot 0 after the last one. */
  lemma CursorStep(c: nat, n: nat)
    requires c < n
    ensures (c + 1) % n == if c + 1 == n then 0 else c + 1
  {
  }

  /** After `k` emissions, `k` at most the pool size, the cursor has moved
      `k` slots round the ring. */
  lemma {:induction false} EmitTimesCursor(s: ParticleSystem, spec: Specification, variation: Specification, jitter: real, k: nat)
    requires Valid(s) && k <= |s.pool|
    ensures var c := s.poolIndex + k;
            EmitTimes(s, spec, variation, jitter, k).poolIndex == if c < |s.pool| then c else c - |s.pool|
  {
    if k != 0 {
      EmitTimesCursor(s, spec, variation, jitter, k - 1);
      CursorStep(EmitTimes(s, spec, variation, jitter, k - 1).poolIndex, |s.pool|);
    }
  }

  /** After one emission per slot the cursor is back where it started, so
      the next emission overwrites the same slot again; from a fresh pool
      the (poolSize + 1)-th emission writes slot 0. */
  lemma EmitCycle(s: ParticleSystem, spec: Specification, variation: Specification, jitter: real)
    requires Valid(s)
    ensures EmitTimes(s, spec, variation, jitter, |s.pool|).poolIndex == s.poolIndex
  {
    EmitTimesCursor(s, spec, variation, jitter, |s.pool|);
  }

  lemma FreshPoolWrapsToZero(poolSize: nat, spec: Specification, variation: Specification, jitter: real)
    requires poolSize > 0
    ensures EmitTimes(New(poolSize), spec, variation, jitter, poolSize).poolIndex == 0
  {
    EmitCycle(New(poolSize), spec, variation, jitter);
  }

  /** One particle's step in OnUpdate. A disabled particle is skipped; an
      enabled one without remaining life is disabled and nothing else
      changes; a live one is accelerated and loses exactly `dt` of life,
      which may take it below zero. */
  function StepParticle(p: Particle, dt: real): (q: Particle)
    ensures !p.enabled ==> q == p
    ensures q.enabled ==> p.enabled
    ensures p.enabled && p.remainingLifeTime <= 0.0 ==> q == p.(enabled := false)
    ensures Alive(p) ==> q.enabled && q.remainingLifeTime == p.remainingLifeTime - dt
    ensures Alive(p) ==> q == p.(velocity := q.velocity, remainingLifeTime := p.remainingLifeTime - dt)
    ensures q.lifeTime == p.lifeTime && q.entity == p.entity
  {
    if !p.enabled then p
    else if p.remainingLifeTime <= 0.0 then p.(enabled := false)
    else p.(velocity := Vec2(p.velocity.x + p.acceleration.x * dt, p.velocity.y + p.acceleration.y * dt),
            remainingLifeTime := p.remainingLifeTime - dt)
  }

  /** The share of life left, remaining / lifetime. */
  function LifeFraction(p: Particle): real
    requires p.lifeTime != 0.0
  {
    p.remainingLifeTime / p.lifeTime
  }

  /** The size OnUpdate computes after the decrement. */
  function SizeAt(p: Particle): real
    requires p.lifeTime != 0.0
  {
    Lerp(p.finalSize, p.startSize, LifeFraction(p))
  }

  /** The colour OnUpdate computes after the decrement; the source
      computes it and then drops it. */
  function ColorAt(p: Particle): Vec4
    requires p.lifeTime != 0.0
  {
    Lerp4(p.finalColor, p.startColor, LifeFraction(p))
  }

  /** A particle starts at its start size and colour and ends, with no
      life left, at its final ones. */
  lemma SizeAndColorEndPoints(p: Particle)
    requires p.lifeTime != 0.0
    ensures p.remainingLifeTime == p.lifeTime ==> SizeAt(p) == p.startSize && ColorAt(p) == p.startColor
    ensures p.remainingLifeTime == 0.0 ==> SizeAt(p) == p.finalSize && ColorAt(p) == p.finalColor
  {
    if p.remainingLifeTime == p.lifeTime {
      assert LifeFraction(p) == 1.0;
      LerpEndPoints(p.finalSize, p.startSize);
      Lerp4EndPoints(p.finalColor, p.startColor);
    }
    if p.remainingLifeTime == 0.0 {
      assert LifeFraction(p) == 0.0;
      LerpEndPoints(p.finalSize, p.startSize);
      Lerp4EndPoints(p.finalColor, p.startColor);
    }
  }

  /** The transform update of a live particle's entity: translation by
      the new velocity, rotation by the rotation speed, x and y scale set
      to the interpolated size; z translation and z scale keep their
      values. */
  function StepTransform(t: ParticleTransform, p: Particle, dt: real): (r: ParticleTransform)
    requires Alive(p) && p.lifeTime > 0.0
    ensures r.translation.z == t.translation.z && r.scale.z == t.scale.z
    ensures r.rotation.x == t.rotation.x && r.rotation.y == t.rotation.y
    ensures r.scale.x == r.scale.y == SizeAt(StepParticle(p, dt))
  {
    var q := StepParticle(p, dt);
    var size := SizeAt(q);
    ParticleTransform(
      Vec3(t.translation.x + q.velocity.x * dt, t.translation.y + q.velocity.y * dt, t.translation.z),
      Vec3(size, size, t.scale.z),
      Vec3(t.rotation.x, t.rotation.y, t.rotation.z + p.rotationSpeed * dt))
  }

  /** Some live particle among the first `i` owns entity `e`. */
  predicate OwnedBefore(s: ParticleSystem, e: nat, i: nat)
    requires i <= |s.pool|
  {
    exists j :: 0 <= j < i && Alive(s.pool[j]) && s.pool[j].entity == e
  }

  lemma OwnedBeforeGrows(s: ParticleSystem, e: nat, i: nat)
    requires i < |s.pool|
    ensures OwnedBefore(s, e, i) ==> OwnedBefore(s, e, i + 1)
  {
    if OwnedBefore(s, e, i) {
      var j :| 0 <= j < i && Alive(s.pool[j]) && s.pool[j].entity == e;
      assert 0 <= j < i + 1;
    }
  }

  /** One iteration of the loop of ParticleSystem::OnUpdate. */
  method UpdateSlot(s: ParticleSystem, dt: real, i: nat, pool: seq<Particle>, registry: seq<ParticleEntity>)
    returns (pool': seq<Particle>, registry': seq<ParticleEntity>)
    requires Valid(s) && dt >= 0.0 && i < |s.pool|
    requires |pool| == |s.pool| && |registry| == |s.registry|
    requires forall j :: 0 <= j < |s.pool| && j != i ==> pool[j] == (if j < i then StepParticle(s.pool[j], dt) else s.pool[j])
    requires pool[i] == s.pool[i]
    requires forall e :: 0 <= e < |registry| && !OwnedBefore(s, e, i) ==> registry[e] == s.registry[e]
    ensures |pool'| == |s.pool| && |registry'| == |s.registry|
    ensures forall j :: 0 <= j < |s.pool| ==> pool'[j] == (if j <= i then StepParticle(s.pool[j], dt) else s.pool[j])
    ensures forall e :: 0 <= e < |registry'| && !OwnedBefore(s, e, i + 1) ==> registry'[e] == s.registry[e]
    ensures forall j :: 0 <= j < |registry| && j != (if Alive(s.pool[i]) then s.pool[i].entity else |registry|) ==>
              registry'[j] == registry[j]
    ensures Alive(s.pool[i]) ==>
              registry'[s.pool[i].entity] == s.registry[s.pool[i].entity]
                .(transform := StepTransform(s.registry[s.pool[i].entity].transform, s.pool[i], dt))
  {
    var p := pool[i];
    pool' := pool[i := StepParticle(p, dt)];
    registry' := registry;
    if Alive(p) {
      var e := p.entity;
      assert !OwnedBefore(s, e, i) by {
        forall j | 0 <= j < i && Alive(s.pool[j])
          ensures s.pool[j].entity != e
        {
        }
      }
      var entity := registry[e];
      registry' := registry[e := entity.(transform := StepTransform(entity.transform, p, dt))];
      assert OwnedBefore(s, e, i + 1);
    }
    forall e' | 0 <= e' < |registry'| && !OwnedBefore(s, e', i + 1)
      ensures registry'[e'] == s.registry[e']
    {
      OwnedBeforeGrows(s, e', i);
    }
  }

  /** ParticleSystem::OnUpdate. Every particle takes one step; each live
      particle's entity gets its transform advanced; every other entity
      is left as it was. The pool invariant is kept, and the cursor and
      the registry size do not change. */
  method OnUpdate(s: ParticleSystem, dt: real) returns (r: ParticleSystem)
    requires Valid(s) && dt >= 0.0
    ensures Valid(r)
    ensures |r.pool| == |s.pool| && r.poolIndex == s.poolIndex && |r.registry| == |s.registry|
    ensures forall i :: 0 <= i < |s.pool| ==> r.pool[i] == StepParticle(s.pool[i], dt)
    ensures forall i :: 0 <= i < |s.pool| && Alive(s.pool[i]) ==>
              var e := s.pool[i].entity;
              r.registry[e] == s.registry[e].(transform := StepTransform(s.registry[e].transform, s.pool[i], dt))
    ensures forall e :: 0 <= e < |s.registry| && !OwnedBefore(s, e, |s.pool|) ==> r.registry[e] == s.registry[e]
  {
    var pool := s.pool;
    var registry := s.registry;
    var i := 0;
    while i < |s.pool|
      invariant i <= |s.pool| && |pool| == |s.pool| && |registry| == |s.registry|
      invariant forall j :: 0 <= j < |s.pool| ==> pool[j] == (if j < i then StepParticle(s.pool[j], dt) else s.pool[j])
      invariant forall e :: 0 <= e < |registry| && !OwnedBefore(s, e, i) ==> registry[e] == s.registry[e]
      invariant forall j :: 0 <= j < i && Alive(s.pool[j]) ==>
                  var e := s.pool[j].entity;
                  registry[e] == s.registry[e].(transform := StepTransform(s.registry[e].transform, s.pool[j], dt))
    {
      var registry0 := registry;
      pool, registry := UpdateSlot(s, dt, i, pool, registry);
      forall j | 0 <= j < i && Alive(s.pool[j])
        ensures var e := s.pool[j].entity;
                registry[e] == s.registry[e].(transform := StepTransform(s.registry[e].transform, s.pool[j], dt))
      {
        if Alive(s.pool[i]) {
          assert s.pool[j].entity != s.pool[i].entity;
        }
      }
      i := i + 1;
    }
    r := ParticleSystem(pool, s.poolIndex, registry);
  }

  /** A particle with less life left than the timestep is not disabled by
      the update that takes it below zero, only by the next one. */
  lemma LateDisable(p: Particle, dt: real)
    requires Alive(p) && p.remainingLifeTime < dt
    ensures var q := StepParticle(p, dt);
            q.enabled && q.remainingLifeTime < 0.0 && !StepParticle(q, dt).enabled
  {
  }
}
