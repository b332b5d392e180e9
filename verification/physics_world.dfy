/**
 The physics world: an insertion-ordered, duplicate-free list of bodies, a
 world gravity, and the fixed per-frame pipeline.

 The collision handler is not part of this model: `detect(dt, bodies)` stands
 for CCollisionHandler::Collide and returns the overlapping pairs, each pair
 naming two positions in that list. The notification callback is reduced to
 whether one is registered; a step reports how many times it was invoked.
 */
module PhysicsWorld {
  import opened Vectors
  import opened Shapes
  import opened RigidBody
  import RigidBodyLemmas

  /** A possibly-null handle. */
  datatype Option<T> = None | Some(value: T)

  /** A detected pair: two positions in the body list handed to the collision handler. */
  datatype ColPair = ColPair(a: nat, b: nat)

  datatype World = World(bodies: seq<Body>, gravity: Vec3, hasCallback: bool)

  /** The world after one Update, and how many times the callback ran. */
  datatype StepResult = StepResult(world: World, notified: nat)

  function Ids(bs: seq<Body>): (ids: seq<BodyId>)
    ensures |ids| == |bs|
    ensures forall i :: 0 <= i < |bs| ==> ids[i] == bs[i].id
  {
    seq(|bs|, i requires 0 <= i < |bs| => bs[i].id)
  }

  /** No body appears twice (identity comparison). */
  predicate Distinct(bs: seq<Body>) {
    forall i, j :: 0 <= i < j < |bs| ==> bs[i].id != bs[j].id
  }

  ghost predicate Valid(w: World) {
    && Distinct(w.bodies)
    && forall i :: 0 <= i < |w.bodies| ==> RigidBody.Valid(w.bodies[i])
  }

  /** Create/Ready: no bodies, zero gravity, the given callback. */
  function Create(hasCallback: bool): (w: World)
    ensures Valid(w)
    ensures w.bodies == [] && w.gravity == Zero && w.hasCallback == hasCallback
  {
    World([], Zero, hasCallback)
  }

  function SetGravity(w: World, g: Vec3): (r: World)
    ensures r.gravity == g
    ensures r.bodies == w.bodies && r.hasCallback == w.hasCallback
  {
    w.(gravity := g)
  }

  /** The position of the first body with the given identity, if any. */
  function FirstIndex(bs: seq<Body>, id: BodyId): (r: Option<nat>)
    ensures r.Some? ==> r.value < |bs| && bs[r.value].id == id
    ensures r.Some? ==> forall j :: 0 <= j < r.value ==> bs[j].id != id
    ensures r.None? <==> id !in Ids(bs)
  {
    if |bs| == 0 then None
    else if bs[0].id == id then Some(0)
    else
      match FirstIndex(bs[1..], id)
      case None =>
        assert Ids(bs) == [bs[0].id] + Ids(bs[1..]);
        None
      case Some(k) => Some(k + 1)
  }

  /** AddBody: a null handle and a body already in the world are ignored;
      otherwise the body is appended. */
  function AddBody(w: World, body: Option<Body>): (r: World)
    ensures body.None? ==> r == w
    ensures body.Some? && body.value.id in Ids(w.bodies) ==> r == w
    ensures body.Some? && body.value.id !in Ids(w.bodies) ==> r.bodies == w.bodies + [body.value]
    ensures r.gravity == w.gravity && r.hasCallback == w.hasCallback
    ensures Distinct(w.bodies) ==> Distinct(r.bodies)
  {
    match body
    case None => w
    case Some(b) =>
      match FirstIndex(w.bodies, b.id)
      case Some(_) => w
      case None => w.(bodies := w.bodies + [b])
  }

  /** RemoveBody: removes the first body with the given identity, keeping the
      order of the others; a null or absent handle changes nothing. */
  function RemoveBody(w: World, handle: Option<BodyId>): (r: World)
    ensures handle.None? ==> r == w
    ensures handle.Some? && handle.value !in Ids(w.bodies) ==> r == w
    ensures handle.Some? && handle.value in Ids(w.bodies) ==> |r.bodies| == |w.bodies| - 1
    ensures handle.Some? ==>
      forall k :: (0 <= k < |w.bodies| && w.bodies[k].id == handle.value
                   && (forall j :: 0 <= j < k ==> w.bodies[j].id != handle.value))
                  ==> r.bodies == w.bodies[..k] + w.bodies[k + 1..]
    ensures r.gravity == w.gravity && r.hasCallback == w.hasCallback
  {
    match handle
    case None => w
    case Some(id) =>
      match FirstIndex(w.bodies, id)
      case None => w
      case Some(k) => w.(bodies := w.bodies[..k] + w.bodies[k + 1..])
  }

  /** ResetAllRigidBodies: every body re-applies its own descriptor. */
  function ResetAllRigidBodies(w: World): (r: World)
    ensures |r.bodies| == |w.bodies|
    ensures forall i :: 0 <= i < |w.bodies| ==>
      MatchesDesc(r.bodies[i], w.bodies[i].desc) && SameUntracked(r.bodies[i], w.bodies[i])
    ensures r.gravity == w.gravity && r.hasCallback == w.hasCallback
    ensures Valid(r) <== Distinct(w.bodies)
  {
    var bs := seq(|w.bodies|, i requires 0 <= i < |w.bodies| => ResetAll(w.bodies[i]));
    w.(bodies := bs)
  }

  // ---------------------------------------------------------------------------
  // The per-frame pipeline
  // ---------------------------------------------------------------------------

  /** What no stage of the pipeline changes: identity, descriptor copy, shape and mass state. */
  ghost predicate Fixed(a: Body, b: Body) {
    && a.id == b.id && a.desc == b.desc && a.shape == b.shape
    && a.isStatic == b.isStatic && a.mass == b.mass && a.invMass == b.invMass
  }

  /** Stage 1: the world gravity is handed to the body, then its acceleration is recomputed. */
  function Accelerate(b: Body, g: Vec3): (r: Body)
    ensures r.gravity == g && Fixed(r, b) && r.force == b.force && r.torque == b.torque
    ensures r.position == b.position && r.previousPosition == b.previousPosition && r.rotation == b.rotation
    ensures b.isStatic ==> r.linearAcceleration == b.linearAcceleration && r.angularAcceleration == b.angularAcceleration
    ensures !b.isStatic && RigidBody.Valid(b) ==> Scale(Sub(r.linearAcceleration, g), b.mass) == b.force
    ensures !b.isStatic && RigidBody.Valid(b) ==> Scale(r.angularAcceleration, b.mass * b.mass) == b.torque
    ensures r == b.(gravity := g, linearAcceleration := r.linearAcceleration, angularAcceleration := r.angularAcceleration)
  {
    UpdateAcceleration(SetGravityAcceleration(b, g))
  }

  /** A velocity after a half-step of acceleration `a` (a static body takes
      none) and then a damping factor `k`, before the dead-zone snap. */
  function Kicked(isStatic: bool, v: Vec3, a: Vec3, dt: real, k: real): Vec3 {
    Scale(if isStatic then v else Add(v, Scale(a, dt * 0.5)), k)
  }

  /** Stage 2: first velocity half-step, then damping over dt/2. */
  function FirstHalf(b: Body, dt: real, decay: (real, real) -> real): (r: Body)
    ensures var v := Kicked(b.isStatic, b.linearVelocity, b.linearAcceleration, dt, decay(b.linearDamping, dt / 2.0));
      && (!InDeadZone(v) ==> r.linearVelocity == v)
      && (InDeadZone(v) ==> r.linearVelocity == Zero)
    ensures var v := Kicked(b.isStatic, b.angularVelocity, b.angularAcceleration, dt, b.angularDamping);
      && (!InDeadZone(v) ==> r.angularVelocity == v)
      && (InDeadZone(v) ==> r.angularVelocity == Zero)
    ensures r == b.(linearVelocity := r.linearVelocity, angularVelocity := r.angularVelocity)
  {
    ApplyDamping(VerletStep3(b, dt), dt / 2.0, decay)
  }

  /** Stage 6: second velocity half-step, damping over dt/2, then the accumulators are cleared. */
  function SecondHalf(b: Body, dt: real, decay: (real, real) -> real): (r: Body)
    ensures r.force == Zero && r.torque == Zero
    ensures var v := Kicked(b.isStatic, b.linearVelocity, b.linearAcceleration, dt, decay(b.linearDamping, dt / 2.0));
      && (!InDeadZone(v) ==> r.linearVelocity == v)
      && (InDeadZone(v) ==> r.linearVelocity == Zero)
    ensures var v := Kicked(b.isStatic, b.angularVelocity, b.angularAcceleration, dt, b.angularDamping);
      && (!InDeadZone(v) ==> r.angularVelocity == v)
      && (InDeadZone(v) ==> r.angularVelocity == Zero)
    ensures r.linearVelocity == Zero || !InDeadZone(r.linearVelocity)
    ensures r.angularVelocity == Zero || !InDeadZone(r.angularVelocity)
    ensures Fixed(r, b)
    ensures r.position == b.position && r.previousPosition == b.previousPosition && r.rotation == b.rotation
    ensures r.linearAcceleration == b.linearAcceleration && r.angularAcceleration == b.angularAcceleration
    ensures r.gravity == b.gravity
    ensures r == b.(linearVelocity := r.linearVelocity, angularVelocity := r.angularVelocity, force := Zero, torque := Zero)
  {
    KillForces(ApplyDamping(VerletStep2(b, dt), dt / 2.0, decay))
  }

  /** Stages 1 to 3 for one body. Only velocities, accelerations, gravity,
      position, previous position and rotation can change. */
  function Advance(b: Body, g: Vec3, dt: real, decay: (real, real) -> real, spin: (Quat, Vec3) -> Quat): (r: Body)
    ensures r.gravity == g && Fixed(r, b) && r.force == b.force && r.torque == b.torque
    ensures b.isStatic ==>
      && r.position == b.position && r.previousPosition == b.previousPosition && r.rotation == b.rotation
      && r.linearAcceleration == b.linearAcceleration && r.angularAcceleration == b.angularAcceleration
    ensures !b.isStatic ==> r.previousPosition == b.position && r.position.y >= FloorLimit
    ensures !b.isStatic && RigidBody.Valid(b) ==> Scale(Sub(r.linearAcceleration, g), b.mass) == b.force
    ensures !b.isStatic && RigidBody.Valid(b) ==> Scale(r.angularAcceleration, b.mass * b.mass) == b.torque
    ensures r == b.(gravity := g, linearAcceleration := r.linearAcceleration, angularAcceleration := r.angularAcceleration,
                    linearVelocity := r.linearVelocity, angularVelocity := r.angularVelocity,
                    position := r.position, previousPosition := r.previousPosition, rotation := r.rotation)
    // the velocities are half-stepped with the new accelerations and damped ...
    ensures var v := Kicked(b.isStatic, b.linearVelocity, r.linearAcceleration, dt, decay(b.linearDamping, dt / 2.0));
      && (!InDeadZone(v) ==> r.linearVelocity == v)
      && (InDeadZone(v) ==> r.linearVelocity == Zero)
    ensures var v := Kicked(b.isStatic, b.angularVelocity, r.angularAcceleration, dt, b.angularDamping);
      && (!InDeadZone(v) ==> r.angularVelocity == v)
      && (InDeadZone(v) ==> r.angularVelocity == Zero)
    // ... before the position moves with the damped velocity
    ensures !b.isStatic ==>
      var p := Add(b.position, Scale(Add(r.linearVelocity, Scale(r.linearAcceleration, dt)), dt));
      && r.position.x == p.x && r.position.z == p.z
      && (p.y >= FloorLimit ==> r.position.y == p.y)
      && (p.y < FloorLimit ==> r.position.y == RespawnY)
    ensures !b.isStatic ==>
      var axis := Add(r.angularVelocity, Scale(r.angularAcceleration, dt));
      && (axis == Zero ==> r.rotation == b.rotation)
      && (axis != Zero ==> r.rotation == spin(b.rotation, axis))
  {
    var b1 := Accelerate(b, g);
    var b2 := FirstHalf(b1, dt, decay);
    VerletStep1(b2, dt, spin)
  }

  /** Stages 1 to 3 over the whole list, pass by pass: the bodies the collision handler sees. */
  function Integrate(w: World, dt: real, decay: (real, real) -> real, spin: (Quat, Vec3) -> Quat): (r: seq<Body>)
    ensures |r| == |w.bodies|
    ensures forall i :: 0 <= i < |r| ==> r[i] == Advance(w.bodies[i], w.gravity, dt, decay, spin)
  {
    var bs := w.bodies;
    var b1 := seq(|bs|, i requires 0 <= i < |bs| => Accelerate(bs[i], w.gravity));
    var b2 := seq(|b1|, i requires 0 <= i < |b1| => FirstHalf(b1[i], dt, decay));
    seq(|b2|, i requires 0 <= i < |b2| => VerletStep1(b2[i], dt, spin))
  }

  /** Stage 6 over the whole list, in place: the same bodies in the same order,
      none moved, every accumulator cleared. */
  function Finish(bs: seq<Body>, dt: real, decay: (real, real) -> real): (r: seq<Body>)
    ensures |r| == |bs| && Ids(r) == Ids(bs)
    ensures forall i :: 0 <= i < |r| ==>
      r[i].force == Zero && r[i].torque == Zero && r[i].position == bs[i].position && r[i].rotation == bs[i].rotation
    ensures forall i :: 0 <= i < |r| ==> r[i] == SecondHalf(bs[i], dt, decay)
  {
    seq(|bs|, i requires 0 <= i < |bs| => SecondHalf(bs[i], dt, decay))
  }

  /** Whether a detected pair of positions in `bs` reaches the callback:
      both name a body and neither body is a plane. */
  predicate Notifies(bs: seq<Body>, p: ColPair) {
    && p.a < |bs| && p.b < |bs|
    && bs[p.a].shape.ShapeTypeOf() != PlaneType && bs[p.b].shape.ShapeTypeOf() != PlaneType
  }

  /** The positions of the pairs that reach the callback. */
  ghost function NotifyingIndices(bs: seq<Body>, ps: seq<ColPair>): set<nat> {
    set i: nat | i < |ps| && Notifies(bs, ps[i])
  }

  /** The callback loop: one invocation per pair that is not filtered out. */
  function CountNotifying(bs: seq<Body>, ps: seq<ColPair>): (n: nat)
    ensures n <= |ps|
  {
    if |ps| == 0 then 0
    else CountNotifying(bs, ps[..|ps| - 1]) + (if Notifies(bs, ps[|ps| - 1]) then 1 else 0)
  }

  /** Update: the whole pipeline, in the engine's order. The callback runs once
      per detected pair with no plane member, and never when none is registered. */
  function Update(w: World, dt: real, decay: (real, real) -> real, spin: (Quat, Vec3) -> Quat,
                  detect: (real, seq<Body>) -> seq<ColPair>): (r: StepResult)
    ensures r.world.gravity == w.gravity && r.world.hasCallback == w.hasCallback
    ensures |r.world.bodies| == |w.bodies|
    ensures forall i :: 0 <= i < |w.bodies| ==>
      r.world.bodies[i] == SecondHalf(Advance(w.bodies[i], w.gravity, dt, decay, spin), dt, decay)
    ensures !w.hasCallback ==> r.notified == 0
    ensures w.hasCallback ==>
      r.notified == |NotifyingIndices(Integrate(w, dt, decay, spin), detect(dt, Integrate(w, dt, decay, spin)))|
    ensures r.notified <= |detect(dt, Integrate(w, dt, decay, spin))|
  {
    var b3 := Integrate(w, dt, decay, spin);
    var pairs := detect(dt, b3);
    CountIsCardinality(b3, pairs);
    var fired := if w.hasCallback then CountNotifying(b3, pairs) else 0;
    StepResult(w.(bodies := Finish(b3, dt, decay)), fired)
  }

  /** After a step the body list holds the same bodies in the same order, each
      with its descriptor copy, shape and mass state, and every accumulator is zero. */
  lemma UpdateKeepsBodies(w: World, dt: real, decay: (real, real) -> real, spin: (Quat, Vec3) -> Quat,
                          detect: (real, seq<Body>) -> seq<ColPair>)
    ensures var r := Update(w, dt, decay, spin, detect).world;
      && Ids(r.bodies) == Ids(w.bodies)
      && forall i :: 0 <= i < |w.bodies| ==>
        && r.bodies[i].desc == w.bodies[i].desc && r.bodies[i].shape == w.bodies[i].shape
        && r.bodies[i].isStatic == w.bodies[i].isStatic && r.bodies[i].mass == w.bodies[i].mass
        && r.bodies[i].invMass == w.bodies[i].invMass
        && r.bodies[i].force == Zero && r.bodies[i].torque == Zero
        && r.bodies[i].gravity == w.gravity
  {
  }

  /** A step keeps a valid world valid. */
  lemma UpdateKeepsValid(w: World, dt: real, decay: (real, real) -> real, spin: (Quat, Vec3) -> Quat,
                         detect: (real, seq<Body>) -> seq<ColPair>)
    requires Valid(w)
    ensures Valid(Update(w, dt, decay, spin, detect).world)
  {
    var r := Update(w, dt, decay, spin, detect).world;
    forall i | 0 <= i < |r.bodies|
      ensures r.bodies[i].id == w.bodies[i].id && RigidBody.Valid(r.bodies[i])
    {
      FrameKeepsMassState(w.bodies[i], w.gravity, dt, decay, spin);
    }
    assert Distinct(r.bodies);
  }

  /** One body's pass through the pipeline keeps its identity and mass state. */
  lemma FrameKeepsMassState(b: Body, g: Vec3, dt: real, decay: (real, real) -> real, spin: (Quat, Vec3) -> Quat)
    requires RigidBody.Valid(b)
    ensures var r := SecondHalf(Advance(b, g, dt, decay, spin), dt, decay);
      Fixed(r, b) && RigidBody.Valid(r)
  {
    var a := Advance(b, g, dt, decay, spin);
    var r := SecondHalf(a, dt, decay);
    assert Fixed(a, b);
    assert Fixed(r, a);
    assert r.isStatic == b.isStatic && r.mass == b.mass && r.invMass == b.invMass;
    RigidBodyLemmas.KeepsMass(b, r);
  }

  /** Static bodies neither move nor turn; dynamic bodies record where they were
      and never end below the floor limit. */
  lemma UpdateMotion(w: World, dt: real, decay: (real, real) -> real, spin: (Quat, Vec3) -> Quat,
                     detect: (real, seq<Body>) -> seq<ColPair>)
    ensures var r := Update(w, dt, decay, spin, detect).world;
      && (forall i :: 0 <= i < |w.bodies| && w.bodies[i].isStatic ==>
        && r.bodies[i].position == w.bodies[i].position
        && r.bodies[i].previousPosition == w.bodies[i].previousPosition
        && r.bodies[i].rotation == w.bodies[i].rotation)
      && (forall i :: 0 <= i < |w.bodies| && !w.bodies[i].isStatic ==>
        r.bodies[i].previousPosition == w.bodies[i].position && r.bodies[i].position.y >= FloorLimit)
      && (forall i :: 0 <= i < |w.bodies| ==>
        var v := r.bodies[i].linearVelocity; v == Zero || !InDeadZone(v))
  {
  }

  /** The world gravity reaches every body before its acceleration is recomputed:
      after the step, mass times (acceleration - world gravity) is the force the
      body had accumulated, so a body without force accelerates with gravity. */
  lemma UpdateUsesWorldGravity(w: World, dt: real, decay: (real, real) -> real, spin: (Quat, Vec3) -> Quat,
                               detect: (real, seq<Body>) -> seq<ColPair>, i: nat)
    requires i < |w.bodies| && !w.bodies[i].isStatic && RigidBody.Valid(w.bodies[i])
    ensures var b := Update(w, dt, decay, spin, detect).world.bodies[i];
      && Scale(Sub(b.linearAcceleration, w.gravity), w.bodies[i].mass) == w.bodies[i].force
      && (w.bodies[i].force == Zero ==> b.linearAcceleration == w.gravity)
  {
    var a := Advance(w.bodies[i], w.gravity, dt, decay, spin);
    assert Update(w, dt, decay, spin, detect).world.bodies[i].linearAcceleration == a.linearAcceleration;
  }

  // ---------------------------------------------------------------------------
  // Lemmas
  // ---------------------------------------------------------------------------

  /** The callback loop's count is the number of positions holding a pair that notifies. */
  lemma {:induction false} CountIsCardinality(bs: seq<Body>, ps: seq<ColPair>)
    ensures CountNotifying(bs, ps) == |NotifyingIndices(bs, ps)|
  {
    if |ps| > 0 {
      var init := ps[..|ps| - 1];
      CountIsCardinality(bs, init);
      var last := |ps| - 1;
      assert NotifyingIndices(bs, ps) == NotifyingIndices(bs, init) + (if Notifies(bs, ps[last]) then {last} else {});
      assert last !in NotifyingIndices(bs, init);
    }
  }

  /** The callback runs never when no pair notifies, and once per pair when every pair does. */
  lemma {:induction false} CountBounded(bs: seq<Body>, ps: seq<ColPair>)
    ensures (forall i :: 0 <= i < |ps| ==> !Notifies(bs, ps[i])) ==> CountNotifying(bs, ps) == 0
    ensures (forall i :: 0 <= i < |ps| ==> Notifies(bs, ps[i])) ==> CountNotifying(bs, ps) == |ps|
  {
    if |ps| > 0 {
      CountBounded(bs, ps[..|ps| - 1]);
    }
  }

  /** Counting distributes over concatenated detection results. */
  lemma {:induction false} CountAppend(bs: seq<Body>, ps: seq<ColPair>, qs: seq<ColPair>)
    ensures CountNotifying(bs, ps + qs) == CountNotifying(bs, ps) + CountNotifying(bs, qs)
  {
    if |qs| > 0 {
      var init := qs[..|qs| - 1];
      CountAppend(bs, ps, init);
      assert (ps + qs)[..|ps + qs| - 1] == ps + init;
    } else {
      assert ps + qs == ps;
    }
  }

  /** A pair with a plane member never reaches the callback, so adding such pairs to
      the detection result changes nothing. */
  lemma PlanePairsIgnored(bs: seq<Body>, ps: seq<ColPair>, qs: seq<ColPair>)
    requires forall i :: 0 <= i < |qs| ==>
      (qs[i].a < |bs| && bs[qs[i].a].shape.Plane?) || (qs[i].b < |bs| && bs[qs[i].b].shape.Plane?)
    ensures CountNotifying(bs, ps + qs) == CountNotifying(bs, ps)
  {
    CountAppend(bs, ps, qs);
    CountBounded(bs, qs);
  }

  /** Adding the same body twice has the effect of adding it once. */
  lemma AddBodyIdempotent(w: World, body: Option<Body>)
    ensures AddBody(AddBody(w, body), body) == AddBody(w, body)
  {
    if body.Some? && body.value.id !in Ids(w.bodies) {
      var bs := w.bodies + [body.value];
      assert Ids(bs)[|w.bodies|] == body.value.id;
    }
  }

  /** Removing a body just added restores the world. */
  lemma AddThenRemove(w: World, b: Body)
    requires b.id !in Ids(w.bodies)
    ensures RemoveBody(AddBody(w, Some(b)), Some(b.id)) == w
  {
    var bs := w.bodies + [b];
    var k := |w.bodies|;
    assert forall j :: 0 <= j < k ==> bs[j].id != b.id by {
      forall j | 0 <= j < k ensures bs[j].id != b.id {
        assert Ids(w.bodies)[j] == w.bodies[j].id;
      }
    }
    assert bs[..k] + bs[k + 1..] == w.bodies;
  }

  /** Adding a valid body keeps the world valid, and the body is then present. */
  lemma AddBodyKeepsValid(w: World, b: Body)
    requires Valid(w) && RigidBody.Valid(b)
    ensures Valid(AddBody(w, Some(b)))
    ensures b.id in Ids(AddBody(w, Some(b)).bodies)
  {
    var r := AddBody(w, Some(b));
    if b.id !in Ids(w.bodies) {
      assert Ids(r.bodies)[|w.bodies|] == b.id;
    }
  }

  /** In a valid world, a removed body is no longer present and the world stays valid. */
  lemma RemoveBodyKeepsValid(w: World, id: BodyId)
    requires Valid(w)
    ensures Valid(RemoveBody(w, Some(id)))
    ensures id !in Ids(RemoveBody(w, Some(id)).bodies)
  {
    var bs := w.bodies;
    match FirstIndex(bs, id)
    case None =>
    case Some(k) =>
      var rs := bs[..k] + bs[k + 1..];
      assert RemoveBody(w, Some(id)).bodies == rs;
      DropShifts(bs, k);
      DropKeepsDistinct(bs, k);
      forall i | 0 <= i < |rs|
        ensures rs[i].id != id && RigidBody.Valid(rs[i])
      {
        assert rs[i] == bs[Skip(i, k)];
      }
  }

  /** After cutting out position k, each remaining body comes from position Skip(i, k). */
  lemma DropShifts(bs: seq<Body>, k: nat)
    requires k < |bs|
    ensures |bs[..k] + bs[k + 1..]| == |bs| - 1
    ensures forall i :: 0 <= i < |bs| - 1 ==> (bs[..k] + bs[k + 1..])[i] == bs[Skip(i, k)]
  {
  }

  lemma DropKeepsDistinct(bs: seq<Body>, k: nat)
    requires k < |bs| && Distinct(bs)
    ensures Distinct(bs[..k] + bs[k + 1..])
  {
    var rs := bs[..k] + bs[k + 1..];
    DropShifts(bs, k);
    forall i, j | 0 <= i < j < |rs|
      ensures rs[i].id != rs[j].id
    {
      assert Skip(i, k) < Skip(j, k);
    }
  }

  /** Where the i-th remaining body sat before the body at k was removed. */
  function Skip(i: nat, k: nat): nat {
    if i < k then i else i + 1
  }

  /** Resetting twice is resetting once. */
  lemma ResetIdempotent(w: World)
    ensures ResetAllRigidBodies(ResetAllRigidBodies(w)) == ResetAllRigidBodies(w)
  {
  }

  /** A reset after a step brings every body back to its descriptor, for any step. */
  lemma ResetAfterUpdate(w: World, dt: real, decay: (real, real) -> real, spin: (Quat, Vec3) -> Quat,
                         detect: (real, seq<Body>) -> seq<ColPair>)
    ensures var r := ResetAllRigidBodies(Update(w, dt, decay, spin, detect).world);
      && |r.bodies| == |w.bodies|
      && forall i :: 0 <= i < |w.bodies| ==>
        && r.bodies[i].position == w.bodies[i].desc.position
        && r.bodies[i].rotation == w.bodies[i].desc.rotation
        && r.bodies[i].linearVelocity == w.bodies[i].desc.linearVelocity
        && r.bodies[i].angularVelocity == w.bodies[i].desc.angularVelocity
  {
    var u := Update(w, dt, decay, spin, detect).world;
    assert forall i :: 0 <= i < |w.bodies| ==> u.bodies[i].desc == w.bodies[i].desc;
  }

  /** A sequence of frames, as the frame driver issues them. */
  function Run(w: World, dts: seq<real>, decay: (real, real) -> real, spin: (Quat, Vec3) -> Quat,
               detect: (real, seq<Body>) -> seq<ColPair>): (r: World)
    ensures |r.bodies| == |w.bodies| && Ids(r.bodies) == Ids(w.bodies)
    ensures r.gravity == w.gravity && r.hasCallback == w.hasCallback
    decreases |dts|
  {
    if |dts| == 0 then w
    else
      UpdateKeepsBodies(w, dts[0], decay, spin, detect);
      Run(Update(w, dts[0], decay, spin, detect).world, dts[1..], decay, spin, detect)
  }

  /** A static body keeps its position and rotation over any number of frames,
      whatever forces were applied to it. */
  lemma {:induction false} StaticBodiesStay(w: World, dts: seq<real>, decay: (real, real) -> real,
                                            spin: (Quat, Vec3) -> Quat, detect: (real, seq<Body>) -> seq<ColPair>, i: nat)
    requires i < |w.bodies| && w.bodies[i].isStatic
    ensures Run(w, dts, decay, spin, detect).bodies[i].position == w.bodies[i].position
    ensures Run(w, dts, decay, spin, detect).bodies[i].rotation == w.bodies[i].rotation
    decreases |dts|
  {
    if |dts| > 0 {
      var u := Update(w, dts[0], decay, spin, detect).world;
      StaticBodiesStay(u, dts[1..], decay, spin, detect, i);
    }
  }

  /** Validity (distinct bodies, consistent mass state) survives any number of frames. */
  lemma {:induction false} RunKeepsValid(w: World, dts: seq<real>, decay: (real, real) -> real,
                                         spin: (Quat, Vec3) -> Quat, detect: (real, seq<Body>) -> seq<ColPair>)
    requires Valid(w)
    ensures Valid(Run(w, dts, decay, spin, detect))
    decreases |dts|
  {
    if |dts| > 0 {
      UpdateKeepsValid(w, dts[0], decay, spin, detect);
      RunKeepsValid(Update(w, dts[0], decay, spin, detect).world, dts[1..], decay, spin, detect);
    }
  }

  /** A dynamic body with no force, under zero world gravity and unit linear
      damping, keeps its linear velocity through a step and moves by velocity
      times dt (unless the fall-through recovery moves it). */
  lemma FreeFlight(w: World, dt: real, decay: (real, real) -> real, spin: (Quat, Vec3) -> Quat,
                   detect: (real, seq<Body>) -> seq<ColPair>, i: nat)
    requires i < |w.bodies| && !w.bodies[i].isStatic && RigidBody.Valid(w.bodies[i])
    requires w.bodies[i].force == Zero && w.gravity == Zero
    requires decay(w.bodies[i].linearDamping, dt / 2.0) == 1.0 && !InDeadZone(w.bodies[i].linearVelocity)
    ensures var b, r := w.bodies[i], Update(w, dt, decay, spin, detect).world.bodies[i];
      && r.linearVelocity == b.linearVelocity
      && r.linearAcceleration == Zero
      && (Add(b.position, Scale(b.linearVelocity, dt)).y >= FloorLimit ==>
            r.position == Add(b.position, Scale(b.linearVelocity, dt)))
  {
    var b := w.bodies[i];
    var a := Advance(b, w.gravity, dt, decay, spin);
    CoastAdvance(b, dt, decay, spin);
    CoastSecondHalf(a, dt, decay);
  }

  lemma CoastAdvance(b: Body, dt: real, decay: (real, real) -> real, spin: (Quat, Vec3) -> Quat)
    requires !b.isStatic && RigidBody.Valid(b) && b.force == Zero
    requires decay(b.linearDamping, dt / 2.0) == 1.0 && !InDeadZone(b.linearVelocity)
    ensures var r := Advance(b, Zero, dt, decay, spin);
      && r.linearVelocity == b.linearVelocity && r.linearAcceleration == Zero
      && r.linearDamping == b.linearDamping
      && (Add(b.position, Scale(b.linearVelocity, dt)).y >= FloorLimit ==>
            r.position == Add(b.position, Scale(b.linearVelocity, dt)))
  {
    var b2 := FirstHalf(Accelerate(b, Zero), dt, decay);
    CoastFirstHalf(b, dt, decay);
    CoastUnclamped(b2, dt);
  }

  lemma CoastFirstHalf(b: Body, dt: real, decay: (real, real) -> real)
    requires !b.isStatic && b.force == Zero
    requires decay(b.linearDamping, dt / 2.0) == 1.0 && !InDeadZone(b.linearVelocity)
    ensures var r := FirstHalf(Accelerate(b, Zero), dt, decay);
      && r.linearVelocity == b.linearVelocity && r.linearAcceleration == Zero
      && r.position == b.position && !r.isStatic && r.linearDamping == b.linearDamping
  {
    var b1 := Accelerate(b, Zero);
    assert b1.linearAcceleration == Zero by {
      assert b1.linearAcceleration == Add(Scale(Zero, b.invMass), Zero);
    }
    ZeroAccelerationCoasts(b1, dt, decay);
  }

  lemma CoastUnclamped(b: Body, dt: real)
    requires b.linearAcceleration == Zero
    ensures Unclamped(b, dt) == Add(b.position, Scale(b.linearVelocity, dt))
  {
    assert Scale(Zero, dt) == Zero;
    assert Add(b.linearVelocity, Zero) == b.linearVelocity;
  }

  lemma CoastSecondHalf(b: Body, dt: real, decay: (real, real) -> real)
    requires b.linearAcceleration == Zero
    requires decay(b.linearDamping, dt / 2.0) == 1.0 && !InDeadZone(b.linearVelocity)
    ensures SecondHalf(b, dt, decay).linearVelocity == b.linearVelocity
  {
    ZeroAccelerationCoasts(b, dt, decay);
  }

  /** Without acceleration and with unit damping, a half-step keeps the linear velocity. */
  lemma ZeroAccelerationCoasts(b: Body, dt: real, decay: (real, real) -> real)
    requires b.linearAcceleration == Zero
    requires decay(b.linearDamping, dt / 2.0) == 1.0 && !InDeadZone(b.linearVelocity)
    ensures ApplyDamping(VerletStep2(b, dt), dt / 2.0, decay).linearVelocity == b.linearVelocity
  {
    var b1 := VerletStep2(b, dt);
    assert b1.linearVelocity == b.linearVelocity;
    RigidBodyLemmas.UnitDampingKeepsVelocity(b1, dt / 2.0, decay);
  }

  /** Two spheres of the world reported as the only overlapping pair reach a
      registered callback exactly once. */
  lemma SpherePairNotifiesOnce(w: World, dt: real, decay: (real, real) -> real, spin: (Quat, Vec3) -> Quat,
                               i: nat, j: nat)
    requires w.hasCallback && i < |w.bodies| && j < |w.bodies|
    requires w.bodies[i].shape.Sphere? && w.bodies[j].shape.Sphere?
    ensures Update(w, dt, decay, spin, (t, bs) => [ColPair(i, j)]).notified == 1
  {
    IntegrateKeepsShape(w, dt, decay, spin, i);
    IntegrateKeepsShape(w, dt, decay, spin, j);
    SinglePair(Integrate(w, dt, decay, spin), ColPair(i, j));
  }

  /** A contact of a world body with a plane, reported as the only overlapping
      pair, never reaches the callback. */
  lemma PlaneContactSilent(w: World, dt: real, decay: (real, real) -> real, spin: (Quat, Vec3) -> Quat,
                           i: nat, j: nat)
    requires i < |w.bodies| && j < |w.bodies|
    requires w.bodies[i].shape.Plane? || w.bodies[j].shape.Plane?
    ensures Update(w, dt, decay, spin, (t, bs) => [ColPair(i, j)]).notified == 0
  {
    IntegrateKeepsShape(w, dt, decay, spin, i);
    IntegrateKeepsShape(w, dt, decay, spin, j);
    SinglePair(Integrate(w, dt, decay, spin), ColPair(i, j));
  }

  /** A one-pair detection result notifies once or never, as its pair does. */
  lemma SinglePair(bs: seq<Body>, p: ColPair)
    ensures Notifies(bs, p) <==> p.a < |bs| && p.b < |bs| && !bs[p.a].shape.Plane? && !bs[p.b].shape.Plane?
    ensures NotifyingIndices(bs, [p]) == if Notifies(bs, p) then {0} else {}
  {
  }

  /** The collision handler sees every body with its own shape. */
  lemma IntegrateKeepsShape(w: World, dt: real, decay: (real, real) -> real, spin: (Quat, Vec3) -> Quat, i: nat)
    requires i < |w.bodies|
    ensures |Integrate(w, dt, decay, spin)| == |w.bodies|
    ensures Integrate(w, dt, decay, spin)[i].shape == w.bodies[i].shape
  {
    assert Integrate(w, dt, decay, spin)[i] == Advance(w.bodies[i], w.gravity, dt, decay, spin);
  }
}
