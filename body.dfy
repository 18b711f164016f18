/**
 * Rigid bodies (src/physics/body/Body.ts): the mass and damping setters, the defaults the
 * constructor falls back on, and the exact-arithmetic motions `translate`, `rotate`,
 * `impulse` and `clearForces`. Vectors are held as values; the shape is a Polygon object.
 */
module Bodies {
  import opened Wrappers
  import opened Vectors
  import opened Polygons
  import opened AABBs

  const InertiaScale: real := 0.2
  const DefaultLinearDamping: real := 0.1
  const DefaultAngularDamping: real := 0.1
  const DefaultRestitution: real := 0.8
  const DefaultMass: real := 0.6

  /** `_.clamp(v, 0, 1)`. */
  function Clamp01(v: real): (r: real)
    ensures 0.0 <= r <= 1.0
    ensures 0.0 <= v <= 1.0 ==> r == v
    ensures v < 0.0 ==> r == 0.0
    ensures v > 1.0 ==> r == 1.0
  {
    if v < 0.0 then 0.0 else if v > 1.0 then 1.0 else v
  }

  /** What the damping and restitution setters store for the value they are given. */
  function Retained(v: real): (r: real)
    ensures 0.0 <= r <= 1.0
    ensures 0.0 <= v <= 1.0 ==> r + v == 1.0
  {
    Clamp01(1.0 - v)
  }

  /** `v || d` on an optional number: an absent value or 0 is falsy and gives way to d. */
  function OrDefault(v: Option<real>, d: real): (r: real)
    ensures v.Some? && v.value != 0.0 ==> r == v.value
    ensures (v.None? || v.value == 0.0) ==> r == d
    ensures d != 0.0 ==> r != 0.0
  {
    if v.Some? && v.value != 0.0 then v.value else d
  }

  /** Towards-zero truncation of a real, as JavaScript's `%` uses it. */
  function Truncate(x: real): (n: int)
    ensures x >= 0.0 ==> 0.0 <= x - n as real < 1.0
    ensures x < 0.0 ==> -1.0 < x - n as real <= 0.0
  {
    if x >= 0.0 then x.Floor else -((-x).Floor)
  }

  /**
   * JavaScript's `a % 360`: the remainder takes the sign of the dividend, has magnitude
   * below a full turn and differs from the dividend by whole turns.
   */
  function TurnRemainder(a: real): (r: real)
    ensures -360.0 < r < 360.0
    ensures a >= 0.0 ==> r >= 0.0
    ensures a <= 0.0 ==> r <= 0.0
    ensures ((a - r) / 360.0).Floor as real == (a - r) / 360.0
  {
    a - Truncate(a / 360.0) as real * 360.0
  }

  /** inv is the reciprocal of a nonzero v. */
  predicate IsReciprocal(inv: real, v: real) {
    v != 0.0 && inv * v == 1.0
  }

  /** The reciprocal the mass and inertia setters store undoes the value. */
  lemma Reciprocal(v: real)
    requires v != 0.0
    ensures IsReciprocal(1.0 / v, v)
  {
  }

  /** An angle already within a full turn is left alone by the remainder. */
  lemma TurnRemainderWithinTurn(a: real)
    requires -360.0 < a < 360.0
    ensures TurnRemainder(a) == a
  {
    assert Truncate(a / 360.0) == 0;
  }

  /** Whole turns are dropped: a full turn in either direction comes back to 0. */
  lemma TurnRemainderFullTurns()
    ensures TurnRemainder(360.0) == 0.0
    ensures TurnRemainder(-720.0) == 0.0
    ensures TurnRemainder(-370.0) == -10.0
  {
    assert Truncate(360.0 / 360.0) == 1;
    assert Truncate(-720.0 / 360.0) == -2;
    assert Truncate(-370.0 / 360.0) == -1;
  }

  /** The default damping and restitution are stored as what they leave over. */
  lemma StoredDefaults()
    ensures Retained(DefaultLinearDamping) == 0.9
    ensures Retained(DefaultAngularDamping) == 0.9
    ensures Retained(DefaultRestitution) == 0.2
    ensures Retained(0.0) == 1.0 && Retained(2.0) == 0.0
  {
  }

  /** The two velocities an impulse changes. */
  datatype Motion = Motion(linear: Vec, angular: real)

  /** `impulse(j, point)` applied to a body at `position` with the given inverse mass and inertia. */
  function Impulsed(m: Motion, position: Vec, inverseMass: real, inverseInertia: real, j: Vec, point: Vec): (r: Motion)
    ensures Minus(r.linear, m.linear) == Scaled(j, inverseMass)
    ensures point == position ==> r.angular == m.angular
  {
    Motion(Plus(m.linear, Scaled(j, inverseMass)),
           m.angular + Cross(Minus(point, position), j) * inverseInertia)
  }

  /** Two impulses at the same point have the effect of their sum. */
  lemma ImpulsesAdd(m: Motion, position: Vec, inverseMass: real, inverseInertia: real, j1: Vec, j2: Vec, point: Vec)
    ensures Impulsed(Impulsed(m, position, inverseMass, inverseInertia, j1, point),
                     position, inverseMass, inverseInertia, j2, point)
         == Impulsed(m, position, inverseMass, inverseInertia, Plus(j1, j2), point)
  {
    var o := Minus(point, position);
    assert Cross(o, Plus(j1, j2)) == Cross(o, j1) + Cross(o, j2);
    assert (Cross(o, j1) + Cross(o, j2)) * inverseInertia
        == Cross(o, j1) * inverseInertia + Cross(o, j2) * inverseInertia;
    assert Scaled(Plus(j1, j2), inverseMass).x == Scaled(j1, inverseMass).x + Scaled(j2, inverseMass).x;
    assert Scaled(Plus(j1, j2), inverseMass).y == Scaled(j1, inverseMass).y + Scaled(j2, inverseMass).y;
  }

  /** An impulse along the line from the position to the point of application adds no spin. */
  lemma ImpulseAlongOffsetAddsNoSpin(m: Motion, position: Vec, inverseMass: real, inverseInertia: real, point: Vec, s: real)
    ensures Impulsed(m, position, inverseMass, inverseInertia, Scaled(Minus(point, position), s), point).angular
         == m.angular
  {
    var o := Minus(point, position);
    assert Cross(o, Scaled(o, s)) == 0.0;
  }

  /** The options a body is built from; `inertia` is read although the interface does not declare it. */
  datatype BodyDefinition = BodyDefinition(
    bodyType: nat,
    shape: Polygon,
    position: Vec,
    linearAcceleration: Option<Vec>,
    linearVelocity: Option<Vec>,
    angle: Option<real>,
    mass: Option<real>,
    angularAcceleration: Option<real>,
    angularVelocity: Option<real>,
    linearDamping: Option<real>,
    angularDamping: Option<real>,
    restitution: Option<real>,
    inertia: Option<real>)

  class Body {
    var bodyType: nat
    var position: Vec
    var linearAcceleration: Vec
    var linearVelocity: Vec
    var angle: real
    var angularAcceleration: real
    var angularVelocity: real
    var mass: real
    var inverseMass: real
    var inertia: real
    var inverseInertia: real
    var linearDamping: real
    var angularDamping: real
    var restitution: real
    /** The body's own copy of its definition's polygon. */
    const shape: Polygon

    /** What the setters and motions keep: reciprocal pairs, factors in [0, 1], a consistent shape. */
    ghost predicate Valid()
      reads this, shape
    {
      shape.Valid()
      && IsReciprocal(inverseMass, mass) && IsReciprocal(inverseInertia, inertia)
      && 0.0 <= linearDamping <= 1.0 && 0.0 <= angularDamping <= 1.0 && 0.0 <= restitution <= 1.0
      && -360.0 < angle < 360.0
    }

    function MotionOf(): Motion
      reads this
    {
      Motion(linearVelocity, angularVelocity)
    }

    /**
     * `new Body(def)`. The fallback inertia is 0.2 times `calculateInertia()` of the cloned
     * shape, passed in as `computedInertia`; `rotated` is the shape's vertices after the
     * final `rotate(def.angle || 0)`.
     */
    constructor (def: BodyDefinition, computedInertia: real, rotated: seq<Vec>)
      requires def.shape.Valid()
      requires (def.inertia.None? || def.inertia.value == 0.0) ==> computedInertia != 0.0
      requires |rotated| == |def.shape.vertices|
      ensures Valid()
      ensures fresh(shape) && shape != def.shape && shape.vertices == rotated && shape.Cached() == CacheOf(rotated)
      ensures bodyType == def.bodyType && position == def.position
      ensures mass == OrDefault(def.mass, DefaultMass)
      ensures inertia == OrDefault(def.inertia, InertiaScale * computedInertia)
      ensures angularAcceleration == OrDefault(def.angularAcceleration, 0.0)
      ensures angularVelocity == OrDefault(def.angularVelocity, 0.0)
      ensures linearDamping == Retained(OrDefault(def.linearDamping, DefaultLinearDamping))
      ensures angularDamping == Retained(OrDefault(def.angularDamping, DefaultAngularDamping))
      ensures restitution == Retained(OrDefault(def.restitution, DefaultRestitution))
      ensures linearAcceleration == def.linearAcceleration.GetOr(Zero)
      ensures linearVelocity == def.linearVelocity.GetOr(Zero)
      ensures angle == TurnRemainder(OrDefault(def.angle, 0.0))
    {
      bodyType := def.bodyType;
      var m := OrDefault(def.mass, DefaultMass);
      Reciprocal(m);
      mass, inverseMass := m, 1.0 / m;
      angularAcceleration := OrDefault(def.angularAcceleration, 0.0);
      angularVelocity := OrDefault(def.angularVelocity, 0.0);
      linearDamping := Retained(OrDefault(def.linearDamping, DefaultLinearDamping));
      angularDamping := Retained(OrDefault(def.angularDamping, DefaultAngularDamping));
      restitution := Retained(OrDefault(def.restitution, DefaultRestitution));
      linearAcceleration := Zero;
      if def.linearAcceleration.Some? {
        linearAcceleration := def.linearAcceleration.value;
      }
      linearVelocity := Zero;
      if def.linearVelocity.Some? {
        linearVelocity := def.linearVelocity.value;
      }
      var i := OrDefault(def.inertia, InertiaScale * computedInertia);
      Reciprocal(i);
      inertia, inverseInertia := i, 1.0 / i;
      // translate(position) and rotate(angle || 0), on the body still at the origin and at angle 0
      position := Plus(Zero, def.position);
      angle := TurnRemainder(0.0 + OrDefault(def.angle, 0.0));
      var placed := PlacedCopy(def.shape, def.position, rotated);
      shape := placed;
    }

    /** The body's shape: a clone of the definition's polygon, translated and then rotated. */
    static method PlacedCopy(source: Polygon, t: Vec, rotated: seq<Vec>) returns (c: Polygon)
      requires source.Valid() && |rotated| == |source.vertices|
      ensures fresh(c) && c.vertices == rotated && c.Cached() == CacheOf(rotated) && c.Valid()
    {
      c := source.Clone();
      c.Translate(t.x, t.y);
      c.Rotate(rotated);
    }

    /** The `mass` setter; 1 / 0 would be Infinity, which no real stands for. */
    method SetMass(m: real)
      requires m != 0.0
      modifies this
      ensures mass == m && IsReciprocal(inverseMass, m)
      ensures inertia == old(inertia) && inverseInertia == old(inverseInertia)
      ensures MotionOf() == old(MotionOf()) && position == old(position) && angle == old(angle)
      ensures linearDamping == old(linearDamping) && angularDamping == old(angularDamping)
      ensures restitution == old(restitution) && bodyType == old(bodyType)
      ensures linearAcceleration == old(linearAcceleration) && angularAcceleration == old(angularAcceleration)
      ensures old(Valid()) ==> Valid()
    {
      Reciprocal(m);
      mass, inverseMass := m, 1.0 / m;
    }

    /** The `inertia` setter. */
    method SetInertia(i: real)
      requires i != 0.0
      modifies this
      ensures inertia == i && IsReciprocal(inverseInertia, i)
      ensures mass == old(mass) && inverseMass == old(inverseMass)
      ensures MotionOf() == old(MotionOf()) && position == old(position) && angle == old(angle)
      ensures linearDamping == old(linearDamping) && angularDamping == old(angularDamping)
      ensures restitution == old(restitution) && bodyType == old(bodyType)
      ensures linearAcceleration == old(linearAcceleration) && angularAcceleration == old(angularAcceleration)
      ensures old(Valid()) ==> Valid()
    {
      Reciprocal(i);
      inertia, inverseInertia := i, 1.0 / i;
    }

    method SetLinearDamping(v: real)
      modifies this
      ensures linearDamping == Retained(v) && angularDamping == old(angularDamping)
      ensures restitution == old(restitution) && MotionOf() == old(MotionOf())
      ensures mass == old(mass) && inverseMass == old(inverseMass)
      ensures inertia == old(inertia) && inverseInertia == old(inverseInertia)
      ensures position == old(position) && angle == old(angle) && bodyType == old(bodyType)
      ensures linearAcceleration == old(linearAcceleration) && angularAcceleration == old(angularAcceleration)
      ensures old(Valid()) ==> Valid()
    {
      linearDamping := Retained(v);
    }

    method SetAngularDamping(v: real)
      modifies this
      ensures angularDamping == Retained(v) && linearDamping == old(linearDamping)
      ensures restitution == old(restitution) && MotionOf() == old(MotionOf())
      ensures mass == old(mass) && inverseMass == old(inverseMass)
      ensures inertia == old(inertia) && inverseInertia == old(inverseInertia)
      ensures position == old(position) && angle == old(angle) && bodyType == old(bodyType)
      ensures linearAcceleration == old(linearAcceleration) && angularAcceleration == old(angularAcceleration)
      ensures old(Valid()) ==> Valid()
    {
      angularDamping := Retained(v);
    }

    method SetRestitution(v: real)
      modifies this
      ensures restitution == Retained(v) && linearDamping == old(linearDamping)
      ensures angularDamping == old(angularDamping) && MotionOf() == old(MotionOf())
      ensures mass == old(mass) && inverseMass == old(inverseMass)
      ensures inertia == old(inertia) && inverseInertia == old(inverseInertia)
      ensures position == old(position) && angle == old(angle) && bodyType == old(bodyType)
      ensures linearAcceleration == old(linearAcceleration) && angularAcceleration == old(angularAcceleration)
      ensures old(Valid()) ==> Valid()
    {
      restitution := Retained(v);
    }

    /** `translate(t)`: the position and the shape move by t together. */
    method Translate(t: Vec)
      requires shape.Valid()
      modifies this, shape
      ensures position == Plus(old(position), t)
      ensures shape.vertices == Shifted(old(shape.vertices), t)
      ensures shape.center == Plus(old(shape.center), t)
      ensures shape.box == Translated(old(shape.box), t.x, t.y)
      ensures shape.normals == old(shape.normals) && shape.area == old(shape.area)
      ensures angle == old(angle) && MotionOf() == old(MotionOf())
      ensures mass == old(mass) && inverseMass == old(inverseMass)
      ensures inertia == old(inertia) && inverseInertia == old(inverseInertia)
      ensures linearDamping == old(linearDamping) && angularDamping == old(angularDamping)
      ensures restitution == old(restitution) && bodyType == old(bodyType)
      ensures linearAcceleration == old(linearAcceleration) && angularAcceleration == old(angularAcceleration)
      ensures shape.Valid()
    {
      position := Plus(position, t);
      shape.Translate(t.x, t.y);
    }

    /**
     * `rotate(degrees)`: the angle is kept as the JavaScript remainder modulo 360 and the
     * shape takes the rotated vertices, passed in because they need trigonometry.
     */
    method Rotate(degrees: real, rotated: seq<Vec>)
      requires |rotated| == |shape.vertices|
      modifies this, shape
      ensures angle == TurnRemainder(old(angle) + degrees) && -360.0 < angle < 360.0
      ensures shape.vertices == rotated && shape.Cached() == CacheOf(rotated)
      ensures position == old(position) && MotionOf() == old(MotionOf())
      ensures mass == old(mass) && inverseMass == old(inverseMass)
      ensures inertia == old(inertia) && inverseInertia == old(inverseInertia)
      ensures linearDamping == old(linearDamping) && angularDamping == old(angularDamping)
      ensures restitution == old(restitution) && bodyType == old(bodyType)
      ensures linearAcceleration == old(linearAcceleration) && angularAcceleration == old(angularAcceleration)
      ensures shape.Valid()
    {
      angle := angle + degrees;
      angle := TurnRemainder(angle);
      shape.Rotate(rotated);
    }

    /** `impulse(j, point)`: the velocities change as `Impulsed` says; nothing else moves. */
    method Impulse(j: Vec, point: Vec)
      modifies this
      ensures MotionOf() == Impulsed(old(MotionOf()), position, inverseMass, inverseInertia, j, point)
      ensures position == old(position) && angle == old(angle)
      ensures mass == old(mass) && inverseMass == old(inverseMass)
      ensures inertia == old(inertia) && inverseInertia == old(inverseInertia)
      ensures linearAcceleration == old(linearAcceleration) && angularAcceleration == old(angularAcceleration)
      ensures linearDamping == old(linearDamping) && angularDamping == old(angularDamping)
      ensures restitution == old(restitution) && bodyType == old(bodyType)
      ensures old(Valid()) ==> Valid()
    {
      var offset := Minus(point, position);
      linearVelocity := Plus(linearVelocity, Scaled(j, inverseMass));
      angularVelocity := angularVelocity + Cross(offset, j) * inverseInertia;
    }

    /** `clearForces`: both accelerations go to zero; velocities are untouched. */
    method ClearForces()
      modifies this
      ensures linearAcceleration == Zero && angularAcceleration == 0.0
      ensures MotionOf() == old(MotionOf()) && position == old(position) && angle == old(angle)
      ensures mass == old(mass) && inverseMass == old(inverseMass)
      ensures inertia == old(inertia) && inverseInertia == old(inverseInertia)
      ensures linearDamping == old(linearDamping) && angularDamping == old(angularDamping)
      ensures restitution == old(restitution) && bodyType == old(bodyType)
      ensures old(Valid()) ==> Valid()
    {
      linearAcceleration := Zero;
      angularAcceleration := 0.0;
    }
  }
}
