/** app::InputManager (sombra-engine InputManager.cpp): the entities driven by the
    keyboard and the mouse, and the keyboard's effect on an entity's velocity.

    Entities are referred to by address. InputManager.h is not part of this model: the
    run and jump speeds are parameters, and so is the rotation of a vector by the
    entity's orientation quaternion and glm::length. The mouse handling (a rotation of
    the orientation) is left out. */
module InputManagers {
  import opened Wrappers
  import opened Geometry
  import opened SeqUtils

  /** The address of an Entity. */
  type EntityId = nat

  /** The keys doKeyboardInput reads, true when pressed. */
  datatype Keys = Keys(w: bool, s: bool, d: bool, a: bool, space: bool, leftControl: bool)

  /** An orientation quaternion; only the rotation parameter interprets it. */
  datatype Quat = Quat(w: real, x: real, y: real, z: real)

  /** The vertical axis. */
  const Up: Vec3 := Vec3(0.0, 1.0, 0.0)

  /** The entity's forward direction: (0, 0, -1) rotated by its orientation. */
  function Forward(orientation: Quat, rotate: (Vec3, Quat) -> Vec3): Vec3 {
    rotate(Vec3(0.0, 0.0, -1.0), orientation)
  }

  /** The unnormalised direction in the keys: forward for W, backward for S, right
      for D and left for A, added up in that order. */
  function KeyDirection(keys: Keys, forward: Vec3): Vec3 {
    var right := Cross(forward, Up);
    var d0 := Zero;
    var d1 := if keys.w then Add(d0, forward) else d0;
    var d2 := if keys.s then Sub(d1, forward) else d1;
    var d3 := if keys.d then Add(d2, right) else d2;
    if keys.a then Sub(d3, right) else d3
  }

  /** The direction divided by its length when that is positive. */
  function Normalised(direction: Vec3, length: LengthFn): Vec3 {
    if length(direction) > 0.0 then Scale(1.0 / length(direction), direction) else direction
  }

  /** The velocity doKeyboardInput leaves: the normalised key direction, scaled by how
      far the speed is below runSpeed when it is below, then jumpSpeed upwards for
      SPACE and downwards for LEFT_CONTROL. */
  function KeyboardVelocity(velocity: Vec3, forward: Vec3, keys: Keys, length: LengthFn,
                            runSpeed: real, jumpSpeed: real): Vec3
  {
    var direction := Normalised(KeyDirection(keys, forward), length);
    var velocityDiff := runSpeed - length(velocity);
    var v1 := if velocityDiff > 0.0 then Add(velocity, Scale(velocityDiff, direction)) else velocity;
    var v2 := if keys.space then Add(v1, Scale(jumpSpeed, Up)) else v1;
    if keys.leftControl then Sub(v2, Scale(jumpSpeed, Up)) else v2
  }

  /** Opposing keys cancel: W with S, and D with A, move as if neither were pressed. */
  lemma {:induction false} OpposingKeysCancel(keys: Keys, forward: Vec3)
    ensures keys.w && keys.s ==> KeyDirection(keys, forward) == KeyDirection(keys.(w := false, s := false), forward)
    ensures keys.d && keys.a ==> KeyDirection(keys, forward) == KeyDirection(keys.(d := false, a := false), forward)
  {
    var right := Cross(forward, Up);
    assert Sub(Add(Zero, forward), forward) == Zero;
    assert forall v: Vec3 :: Sub(Add(v, right), right) == v;
  }

  /** With no net key the direction is zero and the run input adds nothing. */
  lemma {:induction false} NoKeysNoRun(velocity: Vec3, forward: Vec3, keys: Keys, length: LengthFn,
                                       runSpeed: real, jumpSpeed: real)
    requires !keys.w && !keys.s && !keys.d && !keys.a
    ensures KeyboardVelocity(velocity, forward, keys, length, runSpeed, jumpSpeed)
      == KeyboardVelocity(velocity, forward, keys, length, length(velocity), jumpSpeed)
  {
    assert KeyDirection(keys, forward) == Zero;
    assert Normalised(Zero, length) == Zero;
    var velocityDiff := runSpeed - length(velocity);
    assert Add(velocity, Scale(velocityDiff, Zero)) == velocity;
  }

  /** The normalised direction has length 1 whenever it is not zero, for a length that
      scales with its argument. */
  lemma NormalisedIsUnit(direction: Vec3, length: LengthFn)
    requires forall k: real, v: Vec3 {:trigger Scale(k, v)} :: k >= 0.0 ==> length(Scale(k, v)) == k * length(v)
    requires length(direction) > 0.0
    ensures length(Normalised(direction, length)) == 1.0
  {
    var l := length(direction);
    assert length(Scale(1.0 / l, direction)) == (1.0 / l) * l;
  }

  /** At or above the run speed the keys only jump: the velocity changes by the jump
      alone. */
  lemma RunOnlyBelowRunSpeed(velocity: Vec3, forward: Vec3, keys: Keys, length: LengthFn,
                             runSpeed: real, jumpSpeed: real)
    requires length(velocity) >= runSpeed
    ensures KeyboardVelocity(velocity, forward, keys, length, runSpeed, jumpSpeed)
      == KeyboardVelocity(velocity, forward, keys.(w := false, s := false, d := false, a := false), length, runSpeed, jumpSpeed)
  {
  }

  /** SPACE and LEFT_CONTROL together leave the velocity as neither would. */
  lemma {:induction false} JumpKeysCancel(velocity: Vec3, forward: Vec3, keys: Keys, length: LengthFn,
                                          runSpeed: real, jumpSpeed: real)
    requires keys.space && keys.leftControl
    ensures KeyboardVelocity(velocity, forward, keys, length, runSpeed, jumpSpeed)
      == KeyboardVelocity(velocity, forward, keys.(space := false, leftControl := false), length, runSpeed, jumpSpeed)
  {
    assert forall v: Vec3 :: Sub(Add(v, Scale(jumpSpeed, Up)), Scale(jumpSpeed, Up)) == v;
  }

  /** The part of an Entity the input changes. */
  class Entity {
    var orientation: Quat
    var velocity: Vec3

    constructor (orientation: Quat, velocity: Vec3)
      ensures this.orientation == orientation && this.velocity == velocity
    {
      this.orientation := orientation;
      this.velocity := velocity;
    }
  }

  /** doKeyboardInput: builds the direction from the keys, normalises it, adds the run
      and jump velocities to the entity. */
  method DoKeyboardInput(entity: Entity, keys: Keys, rotate: (Vec3, Quat) -> Vec3, length: LengthFn,
                         runSpeed: real, jumpSpeed: real)
    modifies entity
    ensures entity.velocity
      == KeyboardVelocity(old(entity.velocity), Forward(entity.orientation, rotate), keys, length, runSpeed, jumpSpeed)
    ensures entity.orientation == old(entity.orientation)
  {
    var forward := Forward(entity.orientation, rotate);
    var direction := Normalised(KeyDirection(keys, forward), length);

    var velocityDiff := runSpeed - length(entity.velocity);
    if velocityDiff > 0.0 {
      entity.velocity := Add(entity.velocity, Scale(velocityDiff, direction));
    }

    if keys.space { entity.velocity := Add(entity.velocity, Scale(jumpSpeed, Up)); }
    if keys.leftControl { entity.velocity := Sub(entity.velocity, Scale(jumpSpeed, Up)); }
  }

  class InputManager {
    var entities: seq<EntityId>

    constructor ()
      ensures entities == []
    {
      entities := [];
    }

    /** addEntity: a null entity is refused, any other is appended. */
    method AddEntity(entity: Option<EntityId>)
      modifies this
      ensures entities == if entity.None? then old(entities) else old(entities) + [entity.value]
    {
      if entity.None? {
        return;
      }
      entities := entities + [entity.value];
    }

    /** removeEntity: the first occurrence goes, when there is one; every other
        occurrence stays. */
    method RemoveEntity(entity: EntityId)
      modifies this
      ensures entities == RemoveFirst(old(entities), entity)
      ensures multiset(entities) == multiset(old(entities)) - multiset{entity}
      ensures entity !in old(entities) ==> entities == old(entities)
    {
      RemoveFirstCounts(entities, entity);
      if entity !in entities {
        RemoveFirstAbsent(entities, entity);
      }
      entities := RemoveFirst(entities, entity);
    }
  }
}
