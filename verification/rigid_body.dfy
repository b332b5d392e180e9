/**
 A rigid body of the PumpkinEngine physics core: its creation descriptor,
 its mutable motion state, and the per-frame integration steps the world
 drives. Every operation is a pure function from the old body to the new.

 Two float computations of the engine are abstract parameters:
 - `decay(damping, h)` stands for `pow(1 - damping, h)`;
 - `spin(q, axis)` stands for `q * angleAxis(length(axis), normalize(axis))`.
 */
module RigidBody {
  import opened Vectors
  import opened Shapes

  /** A body's identity: the address of the engine object. */
  type BodyId = nat

  /** The creation descriptor; a copy of it is kept for the body's lifetime. */
  datatype Desc = Desc(
    isStatic: bool,
    isGround: bool,
    mass: real,
    position: Vec3,
    rotation: Quat,
    linearVelocity: Vec3,
    angularVelocity: Vec3,
    linearFactor: Vec3,
    angularFactor: Vec3,
    restitution: real,
    friction: real,
    linearDamping: real,
    angularDamping: real)

  datatype Body = Body(
    id: BodyId,
    desc: Desc,
    shape: Shape,
    isStatic: bool,
    isGround: bool,
    mass: real,
    invMass: real,
    restitution: real,
    friction: real,
    linearDamping: real,
    angularDamping: real,
    position: Vec3,
    previousPosition: Vec3,
    rotation: Quat,
    linearVelocity: Vec3,
    angularVelocity: Vec3,
    linearFactor: Vec3,
    angularFactor: Vec3,
    linearAcceleration: Vec3,
    angularAcceleration: Vec3,
    force: Vec3,
    torque: Vec3,
    gravity: Vec3)

  /** Velocities shorter than this are snapped to zero by damping. */
  const DeadZone: real := 0.001

  /** Fall-through recovery: a position below FloorLimit is moved up to RespawnY. */
  const FloorLimit: real := -10.0
  const RespawnY: real := 5.0

  /** The mass bookkeeping every body keeps: a static body has zero mass and
      zero inverse mass, a dynamic one a positive mass and its reciprocal. */
  ghost predicate Valid(b: Body) {
    && (b.isStatic <==> b.invMass == 0.0)
    && (b.isStatic ==> b.mass == 0.0)
    && (!b.isStatic ==> b.mass > 0.0 && b.mass * b.invMass == 1.0)
  }

  /** The state a descriptor prescribes for a body, field by field. */
  ghost predicate MatchesDesc(b: Body, d: Desc) {
    && b.isGround == d.isGround
    && (b.isStatic <==> d.isStatic || d.mass <= 0.0)
    && (b.isStatic ==> b.mass == 0.0 && b.invMass == 0.0)
    && (!b.isStatic ==> b.mass == d.mass && b.mass * b.invMass == 1.0)
    && b.restitution == d.restitution
    && b.friction == d.friction
    && b.linearDamping == d.linearDamping
    && b.angularDamping == d.angularDamping
    && b.position == d.position
    && b.rotation == d.rotation
    && b.linearVelocity == d.linearVelocity
    && b.angularVelocity == d.angularVelocity
    && b.linearFactor == d.linearFactor
    && b.angularFactor == d.angularFactor
  }

  /** The state no descriptor reaches: identity, descriptor copy, shape,
      previous position, accelerations, accumulators and gravity. */
  ghost predicate SameUntracked(a: Body, b: Body) {
    && a.id == b.id
    && a.desc == b.desc
    && a.shape == b.shape
    && a.previousPosition == b.previousPosition
    && a.linearAcceleration == b.linearAcceleration
    && a.angularAcceleration == b.angularAcceleration
    && a.force == b.force
    && a.torque == b.torque
    && a.gravity == b.gravity
  }

  /** Copies a descriptor's values into the body, deriving the mass state:
      a static descriptor or one with mass <= 0 gives a static body with
      zero mass and zero inverse mass. */
  function SetRigidBodyDesc(b: Body, d: Desc): (r: Body)
    ensures MatchesDesc(r, d)
    ensures Valid(r)
    ensures r.isStatic ==> r.invMass == 0.0
    ensures !r.isStatic ==> r.invMass == 1.0 / d.mass
    ensures SameUntracked(r, b)
  {
    var becomesStatic := d.isStatic || d.mass <= 0.0;
    b.(isStatic := becomesStatic,
       isGround := d.isGround,
       mass := if becomesStatic then 0.0 else d.mass,
       invMass := if becomesStatic then 0.0 else 1.0 / d.mass,
       restitution := d.restitution,
       friction := d.friction,
       linearDamping := d.linearDamping,
       angularDamping := d.angularDamping,
       position := d.position,
       linearVelocity := d.linearVelocity,
       linearFactor := d.linearFactor,
       angularVelocity := d.angularVelocity,
       angularFactor := d.angularFactor,
       rotation := d.rotation)
  }

  /** Create/Ready: keeps a copy of the descriptor, applies it and takes the
      shape. The state the descriptor does not set starts at zero. */
  function Create(id: BodyId, d: Desc, s: Shape): (r: Body)
    ensures r.id == id && r.desc == d && r.shape == s
    ensures MatchesDesc(r, d)
    ensures Valid(r)
    ensures r.force == Zero && r.torque == Zero
  {
    var blank := Body(id, d, s, false, false, 0.0, 0.0, 0.0, 0.0, 0.0, 0.0,
                      Zero, Zero, Quat(1.0, 0.0, 0.0, 0.0), Zero, Zero, Zero, Zero,
                      Zero, Zero, Zero, Zero, Zero);
    SetRigidBodyDesc(blank, d)
  }

  /** Re-applies the retained descriptor copy. */
  function ResetAll(b: Body): (r: Body)
    ensures MatchesDesc(r, b.desc)
    ensures Valid(r)
    ensures SameUntracked(r, b)
  {
    SetRigidBodyDesc(b, b.desc)
  }

  function SetGravityAcceleration(b: Body, g: Vec3): (r: Body)
    ensures r.gravity == g
    ensures r == b.(gravity := g)
  {
    b.(gravity := g)
  }

  /** Newton's law with the gravity term: for a dynamic body, mass times
      (acceleration - gravity) gives back the accumulated force. The angular
      acceleration uses the squared inverse mass, as the engine does. */
  function UpdateAcceleration(b: Body): (r: Body)
    ensures b.isStatic ==> r == b
    ensures !b.isStatic && Valid(b) ==> Scale(Sub(r.linearAcceleration, b.gravity), b.mass) == b.force
    ensures !b.isStatic && Valid(b) ==> Scale(r.angularAcceleration, b.mass * b.mass) == b.torque
    ensures b.force == Zero && !b.isStatic ==> r.linearAcceleration == b.gravity
    ensures r == b.(linearAcceleration := r.linearAcceleration, angularAcceleration := r.angularAcceleration)
  {
    if b.isStatic then b
    else
      var r := b.(linearAcceleration := Add(Scale(b.force, b.invMass), b.gravity),
                  angularAcceleration := Scale(Scale(b.torque, b.invMass), b.invMass));
      NewtonInverse(b);
      r
  }

  /** The arithmetic behind UpdateAcceleration's contract. */
  lemma NewtonInverse(b: Body)
    ensures !b.isStatic && Valid(b) ==>
      && Scale(Sub(Add(Scale(b.force, b.invMass), b.gravity), b.gravity), b.mass) == b.force
      && Scale(Scale(Scale(b.torque, b.invMass), b.invMass), b.mass * b.mass) == b.torque
  {
    if !b.isStatic && Valid(b) {
      CancelInverse(b.force, b.mass, b.invMass);
      CancelInverseSquared(b.torque, b.mass, b.invMass);
    }
  }

  /** Scaling by an inverse and then by the mass gives the vector back. */
  lemma CancelInverse(v: Vec3, m: real, i: real)
    requires m * i == 1.0
    ensures Scale(Scale(v, i), m) == v
  {
    assert v.x * i * m == v.x * (m * i);
    assert v.y * i * m == v.y * (m * i);
    assert v.z * i * m == v.z * (m * i);
  }

  /** The same cancellation with squared factors. */
  lemma CancelInverseSquared(v: Vec3, m: real, i: real)
    requires m * i == 1.0
    ensures Scale(Scale(Scale(v, i), i), m * m) == v
  {
    assert v.x * i * i * (m * m) == v.x * (m * i) * (m * i);
    assert v.y * i * i * (m * m) == v.y * (m * i) * (m * i);
    assert v.z * i * i * (m * m) == v.z * (m * i) * (m * i);
  }

  /** VerletStep2: one velocity half-step, v += a * dt / 2. */
  function VerletStep2(b: Body, dt: real): (r: Body)
    ensures b.isStatic ==> r == b
    ensures !b.isStatic ==> Sub(r.linearVelocity, b.linearVelocity) == Scale(b.linearAcceleration, dt * 0.5)
    ensures !b.isStatic ==> Sub(r.angularVelocity, b.angularVelocity) == Scale(b.angularAcceleration, dt * 0.5)
    ensures r == b.(linearVelocity := r.linearVelocity, angularVelocity := r.angularVelocity)
  {
    if b.isStatic then b
    else
      b.(linearVelocity := Add(b.linearVelocity, Scale(b.linearAcceleration, dt * 0.5)),
         angularVelocity := Add(b.angularVelocity, Scale(b.angularAcceleration, dt * 0.5)))
  }

  /** VerletStep3 delegates to VerletStep2. */
  function VerletStep3(b: Body, dt: real): (r: Body)
    ensures r == VerletStep2(b, dt)
  {
    VerletStep2(b, dt)
  }

  /** Where position integration puts the body before the fall-through clamp. */
  function Unclamped(b: Body, dt: real): Vec3 {
    Add(b.position, Scale(Add(b.linearVelocity, Scale(b.linearAcceleration, dt)), dt))
  }

  /** The axis whose length is the rotation angle of one step. */
  function SpinAxis(b: Body, dt: real): Vec3 {
    Add(b.angularVelocity, Scale(b.angularAcceleration, dt))
  }

  /** VerletStep1: position (and orientation) integration with the
      fall-through recovery. */
  function VerletStep1(b: Body, dt: real, spin: (Quat, Vec3) -> Quat): (r: Body)
    ensures b.isStatic ==> r == b
    ensures !b.isStatic ==> r.previousPosition == b.position
    ensures !b.isStatic ==> r.position.x == Unclamped(b, dt).x && r.position.z == Unclamped(b, dt).z
    ensures !b.isStatic ==> (r.position.y == Unclamped(b, dt).y <==> Unclamped(b, dt).y >= FloorLimit)
    ensures !b.isStatic && Unclamped(b, dt).y < FloorLimit ==> r.position.y == RespawnY
    ensures !b.isStatic ==> r.position.y >= FloorLimit
    ensures !b.isStatic && SpinAxis(b, dt) == Zero ==> r.rotation == b.rotation
    ensures !b.isStatic && SpinAxis(b, dt) != Zero ==> r.rotation == spin(b.rotation, SpinAxis(b, dt))
    ensures r == b.(position := r.position, previousPosition := r.previousPosition, rotation := r.rotation)
  {
    if b.isStatic then b
    else
      var p := Unclamped(b, dt);
      var p' := if FloorLimit > p.y then p.(y := RespawnY) else p;
      var axis := SpinAxis(b, dt);
      // the rotation angle length(axis) is nonzero exactly when the axis is not the zero vector
      var q := if axis != Zero then spin(b.rotation, axis) else b.rotation;
      b.(previousPosition := b.position, position := p', rotation := q)
  }

  predicate InDeadZone(v: Vec3) {
    LengthSq(v) < DeadZone * DeadZone
  }

  /** The dead-zone snap: a velocity shorter than DeadZone becomes exactly zero. */
  function Snap(v: Vec3): (r: Vec3)
    ensures InDeadZone(v) ==> r == Zero
    ensures !InDeadZone(v) ==> r == v
    ensures r == Zero || !InDeadZone(r)
  {
    if InDeadZone(v) then Zero else v
  }

  /** ApplyDamping(h): the linear velocity is scaled by decay(linearDamping, h),
      the angular velocity by angularDamping itself; each then passes the
      dead-zone snap. Static bodies are not exempt. */
  function ApplyDamping(b: Body, h: real, decay: (real, real) -> real): (r: Body)
    ensures r.linearVelocity == Zero || !InDeadZone(r.linearVelocity)
    ensures r.angularVelocity == Zero || !InDeadZone(r.angularVelocity)
    ensures r.linearVelocity != Zero ==> r.linearVelocity == Scale(b.linearVelocity, decay(b.linearDamping, h))
    ensures r.angularVelocity != Zero ==> r.angularVelocity == Scale(b.angularVelocity, b.angularDamping)
    ensures !InDeadZone(Scale(b.linearVelocity, decay(b.linearDamping, h))) ==> r.linearVelocity == Scale(b.linearVelocity, decay(b.linearDamping, h))
    ensures InDeadZone(Scale(b.linearVelocity, decay(b.linearDamping, h))) ==> r.linearVelocity == Zero
    ensures !InDeadZone(Scale(b.angularVelocity, b.angularDamping)) ==> r.angularVelocity == Scale(b.angularVelocity, b.angularDamping)
    ensures InDeadZone(Scale(b.angularVelocity, b.angularDamping)) ==> r.angularVelocity == Zero
    ensures -1.0 <= decay(b.linearDamping, h) <= 1.0 && InDeadZone(b.linearVelocity) ==> r.linearVelocity == Zero
    ensures -1.0 <= b.angularDamping <= 1.0 && InDeadZone(b.angularVelocity) ==> r.angularVelocity == Zero
    ensures r == b.(linearVelocity := r.linearVelocity, angularVelocity := r.angularVelocity)
  {
    var lv := Scale(b.linearVelocity, decay(b.linearDamping, h));
    var av := Scale(b.angularVelocity, b.angularDamping);
    DeadZoneStaysDead(b.linearVelocity, decay(b.linearDamping, h));
    DeadZoneStaysDead(b.angularVelocity, b.angularDamping);
    b.(linearVelocity := Snap(lv), angularVelocity := Snap(av))
  }

  /** A velocity inside the dead zone stays inside it under a factor of
      magnitude at most one. */
  lemma DeadZoneStaysDead(v: Vec3, k: real)
    ensures -1.0 <= k <= 1.0 && InDeadZone(v) ==> InDeadZone(Scale(v, k))
  {
    if -1.0 <= k <= 1.0 {
      ScaleShrinks(v, k);
    }
  }

  /** Clears both accumulators; nothing else changes. */
  function KillForces(b: Body): (r: Body)
    ensures r.force == Zero && r.torque == Zero
    ensures r == b.(force := r.force, torque := r.torque)
  {
    b.(force := Zero, torque := Zero)
  }

  function ApplyForce(b: Body, f: Vec3): (r: Body)
    ensures Sub(r.force, b.force) == f
    ensures r == b.(force := r.force)
  {
    b.(force := Add(b.force, f))
  }

  function ApplyTorque(b: Body, t: Vec3): (r: Body)
    ensures Sub(r.torque, b.torque) == t
    ensures r == b.(torque := r.torque)
  {
    b.(torque := Add(b.torque, t))
  }

  /** A force at a point relative to the centre adds the force and its moment. */
  function ApplyForceAtPoint(b: Body, f: Vec3, rel: Vec3): (r: Body)
    ensures Sub(r.force, b.force) == f
    ensures Sub(r.torque, b.torque) == Cross(rel, f)
    ensures Dot(Sub(r.torque, b.torque), f) == 0.0
    ensures r == b.(force := r.force, torque := r.torque)
  {
    CrossPerpendicular(rel, f);
    ApplyTorque(ApplyForce(b, f), Cross(rel, f))
  }

  /** The linear impulse is scaled by the squared inverse mass, as the engine does;
      a static body, whose inverse mass is zero, does not move. */
  function ApplyImpulse(b: Body, impulse: Vec3): (r: Body)
    ensures Valid(b) && b.isStatic ==> r == b
    ensures Valid(b) && !b.isStatic ==> Scale(Sub(r.linearVelocity, b.linearVelocity), b.mass * b.mass) == impulse
    ensures r == b.(linearVelocity := r.linearVelocity)
  {
    ImpulseInverse(b, impulse);
    b.(linearVelocity := Add(b.linearVelocity, Scale(Scale(impulse, b.invMass), b.invMass)))
  }

  lemma ImpulseInverse(b: Body, impulse: Vec3)
    ensures Valid(b) && !b.isStatic ==>
      Scale(Sub(Add(b.linearVelocity, Scale(Scale(impulse, b.invMass), b.invMass)), b.linearVelocity), b.mass * b.mass) == impulse
  {
    if Valid(b) && !b.isStatic {
      CancelInverseSquared(impulse, b.mass, b.invMass);
    }
  }

  /** Adds directly to the angular velocity, for static bodies too. */
  function ApplyTorqueImpulse(b: Body, t: Vec3): (r: Body)
    ensures Sub(r.angularVelocity, b.angularVelocity) == t
    ensures r == b.(angularVelocity := r.angularVelocity)
  {
    b.(angularVelocity := Add(b.angularVelocity, t))
  }

  /** Only the moment of the impulse is applied; the linear velocity is untouched. */
  function ApplyImpulseAtPoint(b: Body, impulse: Vec3, rel: Vec3): (r: Body)
    ensures Sub(r.angularVelocity, b.angularVelocity) == Cross(rel, impulse)
    ensures r.linearVelocity == b.linearVelocity
    ensures r == b.(angularVelocity := r.angularVelocity)
  {
    ApplyTorqueImpulse(b, Cross(rel, impulse))
  }
}

/** Properties relating several rigid-body operations. */
module RigidBodyLemmas {
  import opened Vectors
  import opened Shapes
  import opened RigidBody

  /** Resetting a freshly created body changes nothing: the descriptor copy
      reproduces exactly the state creation derived from it. */
  lemma ResetRestoresCreated(id: BodyId, d: Desc, s: Shape)
    ensures ResetAll(Create(id, d, s)) == Create(id, d, s)
  {
  }

  /** Resetting twice is resetting once. */
  lemma ResetIdempotent(b: Body)
    ensures ResetAll(ResetAll(b)) == ResetAll(b)
  {
  }

  /** The mass bookkeeping survives every operation the world applies. */
  lemma OperationsKeepValid(b: Body, g: Vec3, dt: real, h: real, f: Vec3, rel: Vec3,
                            decay: (real, real) -> real, spin: (Quat, Vec3) -> Quat)
    requires Valid(b)
    ensures Valid(SetGravityAcceleration(b, g))
    ensures Valid(UpdateAcceleration(b))
    ensures Valid(VerletStep1(b, dt, spin))
    ensures Valid(VerletStep2(b, dt))
    ensures Valid(VerletStep3(b, dt))
    ensures Valid(ApplyDamping(b, h, decay))
    ensures Valid(KillForces(b))
    ensures Valid(ApplyForce(b, f))
    ensures Valid(ApplyTorque(b, f))
    ensures Valid(ApplyForceAtPoint(b, f, rel))
    ensures Valid(ApplyImpulse(b, f))
    ensures Valid(ApplyTorqueImpulse(b, f))
    ensures Valid(ApplyImpulseAtPoint(b, f, rel))
  {
    KeepsMass(b, SetGravityAcceleration(b, g));
    KeepsMass(b, UpdateAcceleration(b));
    KeepsMass(b, VerletStep1(b, dt, spin));
    KeepsMass(b, VerletStep2(b, dt));
    KeepsMass(b, VerletStep3(b, dt));
    KeepsMass(b, ApplyDamping(b, h, decay));
    KeepsMass(b, KillForces(b));
    KeepsMass(b, ApplyForce(b, f));
    KeepsMass(b, ApplyTorque(b, f));
    KeepsMass(b, ApplyForceAtPoint(b, f, rel));
    KeepsMass(b, ApplyImpulse(b, f));
    KeepsMass(b, ApplyTorqueImpulse(b, f));
    KeepsMass(b, ApplyImpulseAtPoint(b, f, rel));
  }

  lemma KeepsMass(b: Body, r: Body)
    requires Valid(b)
    requires r.isStatic == b.isStatic && r.mass == b.mass && r.invMass == b.invMass
    ensures Valid(r)
  {
  }

  /** Two velocity half-steps with the same acceleration make one full step. */
  lemma HalfStepsMakeFullStep(b: Body, dt: real)
    requires !b.isStatic
    ensures VerletStep2(VerletStep3(b, dt), dt).linearVelocity == Add(b.linearVelocity, Scale(b.linearAcceleration, dt))
    ensures VerletStep2(VerletStep3(b, dt), dt).angularVelocity == Add(b.angularVelocity, Scale(b.angularAcceleration, dt))
  {
  }

  /** A half-step backwards in time undoes a half-step forwards. */
  lemma HalfStepReversible(b: Body, dt: real)
    ensures VerletStep2(VerletStep2(b, dt), -dt) == b
  {
  }

  /** The order in which forces are applied does not matter, and they add up. */
  lemma ForcesCommute(b: Body, f: Vec3, g: Vec3)
    ensures ApplyForce(ApplyForce(b, f), g) == ApplyForce(ApplyForce(b, g), f)
    ensures ApplyForce(ApplyForce(b, f), g).force == Add(b.force, Add(f, g))
  {
  }

  /** Torques, like forces, accumulate in any order. */
  lemma TorquesCommute(b: Body, t: Vec3, u: Vec3)
    ensures ApplyTorque(ApplyTorque(b, t), u) == ApplyTorque(ApplyTorque(b, u), t)
    ensures ApplyTorque(ApplyTorque(b, t), u).torque == Add(b.torque, Add(t, u))
  {
  }

  /** An opposite torque impulse restores the body exactly. */
  lemma TorqueImpulseReversible(b: Body, t: Vec3)
    ensures ApplyTorqueImpulse(ApplyTorqueImpulse(b, t), Scale(t, -1.0)) == b
  {
  }

  /** Whatever was accumulated, clearing forgets it. */
  lemma KillForcesForgets(b: Body, f: Vec3, rel: Vec3)
    ensures KillForces(ApplyForceAtPoint(b, f, rel)) == KillForces(b)
  {
  }

  /** A force whose lever arm is parallel to it (or zero) produces no torque. */
  lemma ForceAlongLeverArm(b: Body, f: Vec3, k: real)
    ensures ApplyForceAtPoint(b, f, Scale(f, k)) == ApplyForce(b, f)
  {
    CrossParallel(f, k);
  }

  /** The snap is idempotent. */
  lemma SnapIdempotent(v: Vec3)
    ensures Snap(Snap(v)) == Snap(v)
  {
  }

  /** Damping with a unit factor keeps a velocity outside the dead zone. */
  lemma UnitDampingKeepsVelocity(b: Body, h: real, decay: (real, real) -> real)
    requires decay(b.linearDamping, h) == 1.0 && !InDeadZone(b.linearVelocity)
    ensures ApplyDamping(b, h, decay).linearVelocity == b.linearVelocity
  {
    assert Scale(b.linearVelocity, 1.0) == b.linearVelocity;
  }

  /** The angular velocity is multiplied by angularDamping itself, so a body
      with angularDamping 0 stops turning at its first damping call. */
  lemma ZeroAngularDampingStops(b: Body, h: real, decay: (real, real) -> real)
    requires b.angularDamping == 0.0
    ensures ApplyDamping(b, h, decay).angularVelocity == Zero
  {
  }
}
