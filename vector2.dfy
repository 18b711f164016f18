/**
 * Two-dimensional vectors (src/math/Vector2.ts). A Vector2 object is mutable unless it was
 * built read-only; every operation built on `set` either overwrites the receiver or, with
 * the clone flag, returns a new vector and leaves the receiver alone.
 */
module Vectors {
  import opened Wrappers

  /** The components of a vector at one moment. */
  datatype Vec = Vec(x: real, y: real)

  const Zero: Vec := Vec(0.0, 0.0)

  function Plus(a: Vec, b: Vec): Vec { Vec(a.x + b.x, a.y + b.y) }

  function Minus(a: Vec, b: Vec): Vec { Vec(a.x - b.x, a.y - b.y) }

  /** Component-wise product, as `mult`. */
  function Times(a: Vec, b: Vec): Vec { Vec(a.x * b.x, a.y * b.y) }

  function Scaled(a: Vec, s: real): Vec { Vec(a.x * s, a.y * s) }

  function Negated(a: Vec): Vec { Vec(-a.x, -a.y) }

  /** `perp` turns (x, y) into (y, -x). */
  function Perp(a: Vec): Vec { Vec(a.y, -a.x) }

  function Dot(a: Vec, b: Vec): real { a.x * b.x + a.y * b.y }

  function Cross(a: Vec, b: Vec): real { a.x * b.y - a.y * b.x }

  function Length2(a: Vec): real { a.x * a.x + a.y * a.y }

  function Distance2(a: Vec, b: Vec): real { Length2(Minus(a, b)) }

  function Abs(r: real): real { if r < 0.0 then -r else r }

  /**
   * `equals` as written: true when the x difference OR the y difference is within the
   * precision. See CloseTo for the test the name promises.
   */
  predicate EqualsAsWritten(a: Vec, b: Vec, precision: real) {
    !(Abs(a.x - b.x) > precision) || !(Abs(a.y - b.y) > precision)
  }

  /** `isZero` as written: the read-only ZERO vector `equals` the vector. */
  predicate IsZeroAsWritten(a: Vec) {
    EqualsAsWritten(Zero, a, 0.0)
  }

  /** The evidently intended `equals`: both components within the precision. */
  predicate CloseTo(a: Vec, b: Vec, precision: real) {
    Abs(a.x - b.x) <= precision && Abs(a.y - b.y) <= precision
  }

  /** The evidently intended `isZero`: ZERO is close to the vector with precision 0. */
  predicate IsZero(a: Vec) {
    CloseTo(Zero, a, 0.0)
  }

  // ---------------------------------------------------------------------------
  // Algebraic properties
  // ---------------------------------------------------------------------------

  /** `add(v)` followed by `sub(v)` restores the components exactly. */
  lemma PlusThenMinus(a: Vec, b: Vec)
    ensures Minus(Plus(a, b), b) == a
  {
  }

  /** Two quarter turns are a half turn: perp twice equals invert. */
  lemma PerpTwice(a: Vec)
    ensures Perp(Perp(a)) == Negated(a)
  {
  }

  /** The perpendicular is orthogonal to the original. */
  lemma PerpOrthogonal(a: Vec)
    ensures Dot(a, Perp(a)) == 0.0
  {
  }

  lemma DotSymmetric(a: Vec, b: Vec)
    ensures Dot(a, b) == Dot(b, a)
  {
  }

  lemma CrossAntisymmetric(a: Vec, b: Vec)
    ensures Cross(a, b) == -Cross(b, a)
    ensures Cross(a, a) == 0.0
  {
  }

  /** Scaling by s is multiplying by the vector (s, s), which is how `scale` is written. */
  lemma ScaledIsTimes(a: Vec, s: real)
    ensures Scaled(a, s) == Times(a, Vec(s, s))
  {
  }

  /** Finding: `equals` as written accepts vectors that differ in one component. */
  lemma EqualsAsWrittenAcceptsDifferentVectors()
    ensures EqualsAsWritten(Vec(0.0, 0.0), Vec(0.0, 5.0), 0.0)
    ensures IsZeroAsWritten(Vec(0.0, 5.0))
    ensures IsZeroAsWritten(Vec(7.0, 0.0))
  {
  }

  /** `isZero` as written holds as soon as either component is zero. */
  lemma IsZeroAsWrittenOneComponent(a: Vec)
    requires a.x == 0.0 || a.y == 0.0
    ensures IsZeroAsWritten(a)
  {
  }

  /** The intended test: with precision 0 it is exactly equality, and it is symmetric. */
  lemma CloseToExact(a: Vec, b: Vec)
    ensures CloseTo(a, b, 0.0) <==> a == b
    ensures CloseTo(a, b, 0.0) <==> CloseTo(b, a, 0.0)
  {
  }

  /** The intended `isZero` holds for the zero vector and nothing else. */
  lemma IsZeroExact(a: Vec)
    ensures IsZero(a) <==> a == Zero
  {
    CloseToExact(Zero, a);
  }

  /** The intended test only holds where the one as written holds. */
  lemma CloseToImpliesEqualsAsWritten(a: Vec, b: Vec, precision: real)
    requires CloseTo(a, b, precision)
    ensures EqualsAsWritten(a, b, precision)
  {
  }

  // ---------------------------------------------------------------------------
  // The mutable Vector2 object
  // ---------------------------------------------------------------------------

  datatype VectorError = ReadOnlyVector

  class Vector2 {
    var x: real
    var y: real
    const readOnly: bool

    function Value(): Vec
      reads this
    {
      Vec(x, y)
    }

    /**
     * `new Vector2(x, y?, readonly)`: `set` runs before the read-only flag is stored,
     * so construction never fails; an omitted y copies x.
     */
    constructor (nx: real, ny: Option<real>, readOnly: bool)
      ensures Value() == Vec(nx, ny.GetOr(nx)) && this.readOnly == readOnly
    {
      x, y := nx, ny.GetOr(nx);
      this.readOnly := readOnly;
    }

    /**
     * `set(x, y?, clone)`. With clone a fresh writable vector is returned and the receiver
     * is untouched; otherwise a read-only receiver throws before any assignment and a
     * writable one is overwritten and returned.
     */
    method Set(nx: real, ny: Option<real>, clone: bool) returns (r: Result<Vector2, VectorError>)
      modifies this
      ensures clone ==> r.Success? && fresh(r.value) && !r.value.readOnly
                        && r.value.Value() == Vec(nx, ny.GetOr(nx)) && Value() == old(Value())
      ensures !clone && readOnly ==> r == Failure(ReadOnlyVector) && Value() == old(Value())
      ensures !clone && !readOnly ==> r == Success(this) && Value() == Vec(nx, ny.GetOr(nx))
    {
      var vy := ny.GetOr(nx);
      if clone {
        var c := new Vector2(nx, Some(vy), false);
        return Success(c);
      }
      if readOnly {
        return Failure(ReadOnlyVector);
      }
      x, y := nx, vy;
      return Success(this);
    }

    /** The outcome shared by every operation built on `set`, for the new components v. */
    ghost predicate SetOutcome(r: Result<Vector2, VectorError>, v: Vec, clone: bool, before: Vec)
      reads this, if r.Success? then {r.value} else {}
    {
      if clone then r.Success? && !r.value.readOnly && r.value.Value() == v && Value() == before
      else if readOnly then r == Failure(ReadOnlyVector) && Value() == before
      else r == Success(this) && Value() == v
    }

    method Add(v: Vector2, clone: bool) returns (r: Result<Vector2, VectorError>)
      modifies this
      ensures SetOutcome(r, Plus(old(Value()), old(v.Value())), clone, old(Value()))
      ensures r.Success? && r.value != this ==> fresh(r.value)
    {
      r := Set(x + v.x, Some(y + v.y), clone);
    }

    method Sub(v: Vector2, clone: bool) returns (r: Result<Vector2, VectorError>)
      modifies this
      ensures SetOutcome(r, Minus(old(Value()), old(v.Value())), clone, old(Value()))
      ensures r.Success? && r.value != this ==> fresh(r.value)
    {
      r := Set(x - v.x, Some(y - v.y), clone);
    }

    method Mult(v: Vector2, clone: bool) returns (r: Result<Vector2, VectorError>)
      modifies this
      ensures SetOutcome(r, Times(old(Value()), old(v.Value())), clone, old(Value()))
      ensures r.Success? && r.value != this ==> fresh(r.value)
    {
      r := Set(x * v.x, Some(y * v.y), clone);
    }

    /** `scale(s)` multiplies by a temporary vector (s, s). */
    method Scale(s: real, clone: bool) returns (r: Result<Vector2, VectorError>)
      modifies this
      ensures SetOutcome(r, Scaled(old(Value()), s), clone, old(Value()))
      ensures r.Success? && r.value != this ==> fresh(r.value)
    {
      var factor := new Vector2(s, Some(s), false);
      r := Mult(factor, clone);
    }

    method Invert(clone: bool) returns (r: Result<Vector2, VectorError>)
      modifies this
      ensures SetOutcome(r, Negated(old(Value())), clone, old(Value()))
      ensures r.Success? && r.value != this ==> fresh(r.value)
    {
      r := Set(-x, Some(-y), clone);
    }

    method Perpendicular(clone: bool) returns (r: Result<Vector2, VectorError>)
      modifies this
      ensures SetOutcome(r, Perp(old(Value())), clone, old(Value()))
      ensures r.Success? && r.value != this ==> fresh(r.value)
    {
      r := Set(y, Some(-x), clone);
    }

    /** `normalize` of a zero-length vector re-sets its own components. */
    method NormalizeZero(clone: bool) returns (r: Result<Vector2, VectorError>)
      requires Value() == Zero
      modifies this
      ensures SetOutcome(r, old(Value()), clone, old(Value()))
      ensures Value() == Zero
      ensures r.Success? && r.value != this ==> fresh(r.value)
    {
      r := Set(x, Some(y), clone);
    }

    method SetZero() returns (r: Result<Vector2, VectorError>)
      modifies this
      ensures SetOutcome(r, Zero, false, old(Value()))
    {
      r := Set(0.0, Some(0.0), false);
    }

    method Clone(ro: bool) returns (c: Vector2)
      ensures fresh(c) && c.Value() == Value() && c.readOnly == ro
    {
      c := new Vector2(x, Some(y), ro);
    }
  }

  /** A read-only vector keeps its constructor components through any in-place operation. */
  method ReadOnlyVectorIsFrozen(nx: real, ny: real, other: Vector2) returns (v: Vector2)
    ensures fresh(v) && v.readOnly && v.Value() == Vec(nx, ny)
  {
    v := new Vector2(nx, Some(ny), true);
    var r1 := v.Add(other, false);
    var r2 := v.Perpendicular(false);
    var r3 := v.Scale(2.0, false);
    var r4 := v.Invert(true);
    assert r1.Failure? && r2.Failure? && r3.Failure? && r4.Success?;
  }
}
