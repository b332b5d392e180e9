# PumpkinEngine rigid-body core in Dafny

This project models the bookkeeping and state-transition logic of the
PumpkinEngine physics core. There are two parts.

- **`CRigidBody`** (`rigid_body.dfy`, module `RigidBody`, with lemmas in `RigidBodyLemmas`).
  - A descriptor becomes body state. A static descriptor, or one with mass <= 0, gives a static body with zero mass and zero inverse mass.
  - The body keeps a copy of its descriptor, so `ResetAll` can re-apply it.
  - Force and torque accumulate and are cleared by `KillForces`.
  - The integration steps are `UpdateAcceleration`, `VerletStep1/2/3` and `ApplyDamping`. The first three are no-ops for static bodies.
- **`CPhysicsWorld`** (`physics_world.dfy`, module `PhysicsWorld`).
  - The world holds an insertion-ordered, duplicate-free list of bodies. `AddBody` and `RemoveBody` compare bodies by identity.
  - `Update` is the fixed per-frame pipeline:
    1. set gravity and recompute acceleration;
    2. first velocity half-step, then damping over dt/2;
    3. position integration;
    4. collision detection;
    5. the filtered notification callback;
    6. second half-step, then damping, then clearing of the accumulators.
  - `ResetAllRigidBodies` resets every body.

`vectors.dfy` holds the real-valued 3-vectors. `shapes.dfy` holds the Plane/Sphere shape variant.

Bodies are immutable values. A body's identity, the address of the engine object, is its `id` field. The world is a sequence of bodies. Null handles are `Option.None`. Each operation is a pure function from the old state to the new one.

Three things the model does not define are passed in as function parameters:

- `decay(damping, h)` stands for `pow(1 - damping, h)` in `ApplyDamping`.
- `spin(q, axis)` stands for composing `q` with `angleAxis(length(axis), normalize(axis))` in `VerletStep1`.
- `detect(dt, bodies)` stands for `CCollisionHandler::Collide`. Each pair it returns is two positions in the body list it was given, standing for the `pBodyA`/`pBodyB` references into that list.

The notification callback is reduced to a flag saying whether one is registered. `Update` returns how many times the callback ran.

Behaviours of the code worth knowing:

- `ResetAll` only re-applies `SetRigidBodyDesc` (RigidBody.cpp:147-150). It does not touch the previous position, the accelerations, the force and torque accumulators or the stored gravity.
- The angular velocity is multiplied by `angularDamping` itself (RigidBody.cpp:88), not by `pow(1 - angularDamping, dt)`. So a body with angular damping 0 stops turning at the first damping call (`RigidBodyLemmas.ZeroAngularDampingStops`). Only the linear velocity survives zero damping, and only when it is outside the 0.001 dead zone (`PhysicsWorld.FreeFlight`).
- `ApplyDamping` and `ApplyTorqueImpulse` have no static-body guard. A static body's velocities can change, but its position and rotation never do (`PhysicsWorld.StaticBodiesStay`).
- The linear impulse and the angular acceleration scale by the squared inverse mass, as written in the code.
- `Ready` always succeeds, so world and body creation never fail.
- `CRigidBody::Update` has an empty body (RigidBody.cpp:26-28). The first loop of `CPhysicsWorld::Update` therefore changes nothing and is not modelled as a stage.

## Model

| member | source | states |
|---|---|---|
| RigidBody.SetRigidBodyDesc | PumpkinEngine/Codes/RigidBody.cpp:163-192 | the body matches the descriptor. It is static iff the descriptor is static or has mass <= 0, and then has zero mass and inverse mass; otherwise mass times inverse mass is 1. Identity, descriptor copy, shape, accumulators, accelerations and gravity are untouched |
| RigidBody.Create | PumpkinEngine/Codes/RigidBody.cpp:152-161 | the new body keeps the given descriptor copy and shape, matches the descriptor, satisfies the mass invariant and has empty accumulators |
| RigidBody.ResetAll | PumpkinEngine/Codes/RigidBody.cpp:147-150 | after a reset the body matches its own stored descriptor, and everything a descriptor does not set is unchanged |
| RigidBody.SetGravityAcceleration | PumpkinEngine/Codes/RigidBody.cpp:30-33 | only the body's gravity changes, to the given vector |
| RigidBody.UpdateAcceleration | PumpkinEngine/Codes/RigidBody.cpp:35-42 | a static body is unchanged. For a dynamic body, mass times (linear acceleration - gravity) gives back the force, and mass squared times the angular acceleration gives back the torque. With zero force the acceleration is exactly gravity. Only the accelerations change |
| RigidBody.VerletStep1 | PumpkinEngine/Codes/RigidBody.cpp:44-63 | a static body is unchanged. For a dynamic body the previous position becomes the old position, x and z advance by (v + a dt) dt, and y does too unless it would fall below -10, in which case it is exactly 5; so y >= -10 afterwards. The rotation is spun only when the spin axis is nonzero |
| RigidBody.VerletStep2 | PumpkinEngine/Codes/RigidBody.cpp:65-72 | a static body is unchanged; otherwise each velocity changes by exactly its acceleration times dt/2, and nothing else changes |
| RigidBody.VerletStep3 | PumpkinEngine/Codes/RigidBody.cpp:74-77 | it is exactly the VerletStep2 operation |
| RigidBody.Snap | PumpkinEngine/Codes/RigidBody.cpp:90-93 | a velocity inside the 0.001 dead zone becomes exactly zero and any other velocity is kept, so the result is zero or outside the dead zone |
| RigidBody.ApplyDamping | PumpkinEngine/Codes/RigidBody.cpp:85-94 | each velocity is scaled by its damping factor (decay(linearDamping, h) for the linear one, angularDamping for the angular one). A scaled velocity of length >= 0.001 is kept exactly and a shorter one becomes zero, so each result is zero or outside the dead zone. With a factor of magnitude <= 1, a velocity already inside the dead zone ends at zero. Only the velocities change |
| RigidBody.KillForces | PumpkinEngine/Codes/RigidBody.cpp:79-83 | both accumulators are zero and nothing else changes |
| RigidBody.ApplyForce | PumpkinEngine/Codes/RigidBody.cpp:116-119 | the force accumulator grows by exactly the given force; nothing else changes |
| RigidBody.ApplyTorque | PumpkinEngine/Codes/RigidBody.cpp:137-140 | the torque accumulator grows by exactly the given torque; nothing else changes |
| RigidBody.ApplyForceAtPoint | PumpkinEngine/Codes/RigidBody.cpp:121-125 | the force grows by f and the torque by rel x f, which is perpendicular to f |
| RigidBody.ApplyImpulse | PumpkinEngine/Codes/RigidBody.cpp:127-130 | a static body is unchanged (its inverse mass is 0). For a dynamic body, the velocity change times mass squared is the impulse. Only the linear velocity changes |
| RigidBody.ApplyImpulseAtPoint | PumpkinEngine/Codes/RigidBody.cpp:132-135 | the angular velocity grows by rel x impulse; the linear velocity is untouched |
| RigidBody.ApplyTorqueImpulse | PumpkinEngine/Codes/RigidBody.cpp:142-145 | the angular velocity grows by exactly the torque impulse, for static bodies too |
| RigidBodyLemmas.ResetRestoresCreated | PumpkinEngine/Codes/RigidBody.cpp:147-161 | resetting a freshly created body gives back that body, so the descriptor copy reproduces creation exactly |
| RigidBodyLemmas.ResetIdempotent | PumpkinEngine/Codes/RigidBody.cpp:147-150 | resetting twice is resetting once |
| RigidBodyLemmas.OperationsKeepValid | PumpkinEngine/Codes/RigidBody.cpp:168-178 | the mass invariant set up by the descriptor survives every per-body operation: gravity and acceleration updates, the three Verlet steps, damping, clearing, and every force, torque and impulse application |
| RigidBodyLemmas.HalfStepsMakeFullStep | PumpkinEngine/Codes/RigidBody.cpp:65-77 | VerletStep3 followed by VerletStep2 with the same acceleration adds acceleration times dt to each velocity |
| RigidBodyLemmas.HalfStepReversible | PumpkinEngine/Codes/RigidBody.cpp:65-72 | a half-step with -dt undoes a half-step with dt |
| RigidBodyLemmas.ForcesCommute | PumpkinEngine/Codes/RigidBody.cpp:116-119 | forces accumulate as a sum, independent of the order they are applied in |
| RigidBodyLemmas.TorquesCommute | PumpkinEngine/Codes/RigidBody.cpp:137-140 | torques accumulate as a sum, independent of the order they are applied in |
| RigidBodyLemmas.TorqueImpulseReversible | PumpkinEngine/Codes/RigidBody.cpp:142-145 | a torque impulse followed by its negation restores the body exactly |
| RigidBodyLemmas.KillForcesForgets | PumpkinEngine/Codes/RigidBody.cpp:79-83 | clearing after applying a force at a point gives the same body as clearing without it |
| RigidBodyLemmas.ForceAlongLeverArm | PumpkinEngine/Codes/RigidBody.cpp:121-125 | a force applied along its own lever arm adds no torque |
| RigidBodyLemmas.SnapIdempotent | PumpkinEngine/Codes/RigidBody.cpp:90-93 | snapping twice is snapping once |
| RigidBodyLemmas.UnitDampingKeepsVelocity | PumpkinEngine/Codes/RigidBody.cpp:85-94 | with a unit decay factor, a linear velocity outside the dead zone survives damping unchanged |
| RigidBodyLemmas.ZeroAngularDampingStops | PumpkinEngine/Codes/RigidBody.cpp:88-93 | with angularDamping 0 the angular velocity becomes exactly zero |
| PhysicsWorld.Create | PumpkinEngine/Codes/PhysicsWorld.cpp:128-147 | a new world is valid, has no bodies, zero gravity and the given callback |
| PhysicsWorld.SetGravity | PumpkinEngine/Codes/PhysicsWorld.cpp:74-77 | the world gravity becomes the given vector; bodies and callback are unchanged |
| PhysicsWorld.FirstIndex | PumpkinEngine/Codes/PhysicsWorld.cpp:99-108 | the result is the first position holding the identity, or none exactly when the identity is absent |
| PhysicsWorld.AddBody | PumpkinEngine/Codes/PhysicsWorld.cpp:79-93 | a null handle or a body already present leaves the world unchanged. A new body is appended after the existing ones, in order. The list stays duplicate-free |
| PhysicsWorld.RemoveBody | PumpkinEngine/Codes/PhysicsWorld.cpp:95-109 | a null or absent handle changes nothing. Otherwise exactly the first match is cut out, the others keep their order, and the list shrinks by one |
| PhysicsWorld.ResetAllRigidBodies | PumpkinEngine/Codes/PhysicsWorld.cpp:111-115 | every body matches its own descriptor, and everything else (state a descriptor does not set, the list order, gravity, callback) is unchanged |
| PhysicsWorld.Accelerate | PumpkinEngine/Codes/PhysicsWorld.cpp:36-40 | stage 1 for one body: its gravity becomes the world's. For a dynamic body, mass times (linear acceleration - gravity) is the accumulated force and mass squared times the angular acceleration is the accumulated torque. A static body keeps its accelerations. Only gravity and the two accelerations change |
| PhysicsWorld.FirstHalf | PumpkinEngine/Codes/PhysicsWorld.cpp:42-46 | stage 2 for one body: each velocity first gains its acceleration times dt/2 (not for a static body), then is damped over dt/2 and snapped: kept if outside the dead zone, zero otherwise. Only the velocities change |
| PhysicsWorld.Advance | PumpkinEngine/Codes/PhysicsWorld.cpp:36-49 | stages 1-3 for one body, in order: gravity is the world's and mass times (new acceleration - gravity) is the accumulated force; each velocity is half-stepped with the new acceleration, then damped and snapped; then a dynamic body records its old position and moves by (damped v + a dt) dt, with y reset to 5 if it would fall below -10, and turns by the new spin axis when that is nonzero. Static bodies do not move or turn. The new angular acceleration times mass squared is the accumulated torque. Nothing besides gravity, accelerations, velocities, position, previous position and rotation changes |
| PhysicsWorld.SecondHalf | PumpkinEngine/Codes/PhysicsWorld.cpp:66-71 | stage 6 for one body: each velocity gains its acceleration times dt/2 (not for a static body), then is damped over dt/2 and snapped; then both accumulators are cleared. Nothing besides the two velocities and the two accumulators changes |
| PhysicsWorld.Integrate | PumpkinEngine/Codes/PhysicsWorld.cpp:36-49 | the three passes over the list give each body the result of stages 1-3 applied to it alone, at the same position in the list |
| PhysicsWorld.Finish | PumpkinEngine/Codes/PhysicsWorld.cpp:66-71 | the last loop keeps the same identities in the same order, leaves every position and rotation where stage 3 put it, and clears every accumulator; each body is the result of stage 6 applied to it alone, at its own position in the list |
| PhysicsWorld.Update | PumpkinEngine/Codes/PhysicsWorld.cpp:31-72 | gravity and callback are unchanged. Each body goes through stages 1-3 and then stage 6, in place. The callback count is the number of detected pairs with no plane member, computed on the integrated bodies, and 0 when no callback is registered |
| PhysicsWorld.CountNotifying | PumpkinEngine/Codes/PhysicsWorld.cpp:55-64 | the callback loop runs at most once per detected pair |
| PhysicsWorld.CountIsCardinality | PumpkinEngine/Codes/PhysicsWorld.cpp:55-64 | the callback loop's count equals the number of pair positions in which neither body is a plane |
| PhysicsWorld.CountBounded | PumpkinEngine/Codes/PhysicsWorld.cpp:55-64 | the callback never runs when no pair reaches it, and runs once per pair when every pair does |
| PhysicsWorld.CountAppend | PumpkinEngine/Codes/PhysicsWorld.cpp:55-64 | the count over concatenated pair lists is the sum of the counts |
| PhysicsWorld.PlanePairsIgnored | PumpkinEngine/Codes/PhysicsWorld.cpp:58-60 | adding pairs with a plane member to the detection result does not change the count |
| PhysicsWorld.SpherePairNotifiesOnce | PumpkinEngine/Codes/PhysicsWorld.cpp:55-64 | when the collision handler reports exactly one pair, of two sphere bodies of the world, a registered callback fires exactly once |
| PhysicsWorld.PlaneContactSilent | PumpkinEngine/Codes/PhysicsWorld.cpp:58-60 | when the collision handler reports exactly one pair, of world bodies with a plane member, no callback fires |
| PhysicsWorld.AddBodyIdempotent | PumpkinEngine/Codes/PhysicsWorld.cpp:86-90 | adding the same body twice has the effect of adding it once |
| PhysicsWorld.AddThenRemove | PumpkinEngine/Codes/PhysicsWorld.cpp:79-109 | removing a body just added restores the world exactly |
| PhysicsWorld.AddBodyKeepsValid | PumpkinEngine/Codes/PhysicsWorld.cpp:79-93 | adding a valid body keeps the world valid, and the body is then present |
| PhysicsWorld.RemoveBodyKeepsValid | PumpkinEngine/Codes/PhysicsWorld.cpp:95-109 | in a valid world, removal keeps the world valid and the removed identity is gone |
| PhysicsWorld.ResetIdempotent | PumpkinEngine/Codes/PhysicsWorld.cpp:111-115 | resetting the world twice is resetting it once |
| PhysicsWorld.ResetAfterUpdate | PumpkinEngine/Codes/PhysicsWorld.cpp:111-115 | a reset after any step restores every body's position, rotation and velocities to its descriptor |
| PhysicsWorld.UpdateKeepsBodies | PumpkinEngine/Codes/PhysicsWorld.cpp:66-71 | after a step the list holds the same identities in the same order, with descriptor, shape and mass state unchanged, zero accumulators and the world gravity |
| PhysicsWorld.UpdateKeepsValid | PumpkinEngine/Codes/PhysicsWorld.cpp:31-72 | a step keeps a valid world valid |
| PhysicsWorld.UpdateMotion | PumpkinEngine/Codes/PhysicsWorld.cpp:42-49 | static bodies keep position, previous position and rotation. Dynamic bodies record their old position and end with y >= -10. Every linear velocity is zero or outside the dead zone |
| PhysicsWorld.UpdateUsesWorldGravity | PumpkinEngine/Codes/PhysicsWorld.cpp:36-40 | after a step, mass times (acceleration - world gravity) is the force the body had accumulated; with no force the acceleration is the world gravity |
| PhysicsWorld.FreeFlight | PumpkinEngine/Codes/PhysicsWorld.cpp:31-72 | with no force, zero gravity and unit linear decay, a dynamic body whose linear velocity is outside the 0.001 dead zone keeps that velocity and moves by velocity times dt unless the fall-through clamp applies |
| PhysicsWorld.StaticBodiesStay | PumpkinEngine/Codes/PhysicsWorld.cpp:42-49 | over any number of frames, a static body keeps its position and rotation |
| PhysicsWorld.RunKeepsValid | PumpkinEngine/Codes/PhysicsWorld.cpp:31-72 | validity (distinct identities, consistent mass state) survives any number of frames |

## Left out

- `ApplyRandomForce` (PhysicsWorld.cpp:117-126) is left out: it draws from the process-wide random source `GetRandNum`.
- Collision detection is left out. `CCollisionHandler` is not part of this model, so `detect` is a parameter and no plane or sphere overlap test is defined.
- Orientation integration is abstract. The quaternion product with `angleAxis(length(axis), normalize(axis))` is the parameter `spin`. The model only fixes when it is applied: when the spin axis is nonzero, which over the reals is the same as `length(axis) != 0`.
- The damping factor `pow(1 - linearDamping, dt)` is the parameter `decay`, because it is transcendental float math.
- The dead-zone test `length(v) < 0.001` is modelled as `LengthSq(v) < 0.001 * 0.001`. The two are equivalent over the reals.
- Floating-point rounding is left out: all arithmetic is over `real`.
- Memory ownership is left out. `Destroy`, `SafeDestroy` and the destruction of a removed body are not modelled; removal only deletes the body from the sequence.
- The callback's own effect (an external sound trigger) is left out. Only the number of invocations is modelled.
- `detect` is taken to leave every body unchanged: the model assumes `Collide` applies no positional correction and no impulse response, although PhysicsWorld.cpp:53 hands it the mutable body list. CollisionHandler.cpp is not part of this model. `PhysicsWorld.Update`'s per-body clause and the lemmas built on it (`PhysicsWorld.UpdateMotion`, `PhysicsWorld.FreeFlight`, `PhysicsWorld.StaticBodiesStay`, `PhysicsWorld.ResetAfterUpdate`, `PhysicsWorld.UpdateKeepsBodies`, `PhysicsWorld.UpdateKeepsValid`, `PhysicsWorld.RunKeepsValid`) hold only under this assumption.
- A detected pair naming a position outside the body list is not counted. The handler only reports bodies of the list, so such a pair cannot arise; the code would read through an invalid reference.
- `RigidBody.Create` starts the fields that `SetRigidBodyDesc` does not set (previous position, accelerations, accumulators, gravity) at zero. RigidBody.h is not part of this model, and the constructor in RigidBody.cpp does not initialise them.
- The accessors `GetPosition`, `SetPosition`, `GetRotation` and `SetRotation` (RigidBody.cpp:96-114) are left out: they only read or overwrite one field.
