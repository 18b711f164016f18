/** Circles (src/math/Circle.ts): a centre and a radius, compared through squared distances. */
module Circles {

  /** The value held by a Circle object at one moment. */
  datatype Disc = Disc(x: real, y: real, radius: real)

  function Square(r: real): real { r * r }

  /** Squared distance from the centre of c to the point (px, py). */
  function Distance2(c: Disc, px: real, py: real): real {
    Square(c.x - px) + Square(c.y - py)
  }

  predicate Valid(c: Disc) { c.radius > 0.0 }

  function Diameter(c: Disc): real { c.radius * 2.0 }

  /** Two circles intersect when the centres are no further apart than the sum of the radii. */
  predicate Intersects(c: Disc, o: Disc) {
    Distance2(c, o.x, o.y) <= Square(o.radius + c.radius)
  }

  predicate ContainsPoint(c: Disc, px: real, py: real) {
    Distance2(c, px, py) <= Square(c.radius)
  }

  /**
   * `contains` as written: a circle at least as large is never contained; otherwise the
   * squared radius difference is compared the wrong way round against the squared
   * centre distance.
   */
  predicate ContainsAsWritten(c: Disc, o: Disc) {
    if o.radius >= c.radius then false
    else Square(c.radius - o.radius) < Distance2(c, o.x, o.y)
  }

  /** The evidently intended `contains`: the centre distance is below the radius difference. */
  predicate Contains(c: Disc, o: Disc) {
    if o.radius >= c.radius then false
    else Distance2(c, o.x, o.y) < Square(c.radius - o.radius)
  }

  lemma Distance2Symmetric(c: Disc, o: Disc)
    ensures Distance2(c, o.x, o.y) == Distance2(o, c.x, c.y)
  {
    assert Square(c.x - o.x) == Square(o.x - c.x);
    assert Square(c.y - o.y) == Square(o.y - c.y);
  }

  lemma IntersectsSymmetric(c: Disc, o: Disc)
    ensures Intersects(c, o) <==> Intersects(o, c)
  {
    Distance2Symmetric(c, o);
    assert Square(o.radius + c.radius) == Square(c.radius + o.radius);
  }

  /** Every circle holds its own centre, whatever its radius. */
  lemma ContainsOwnCentre(c: Disc)
    ensures ContainsPoint(c, c.x, c.y)
  {
    assert c.radius * c.radius >= 0.0;
    assert Distance2(c, c.x, c.y) == 0.0;
  }

  /** Translation moves the centre and keeps the radius, so it keeps the centre inside. */
  lemma TranslatedKeepsCentre(c: Disc, dx: real, dy: real)
    ensures ContainsPoint(Translated(c, dx, dy), c.x + dx, c.y + dy)
  {
    ContainsOwnCentre(Translated(c, dx, dy));
  }

  function Translated(c: Disc, dx: real, dy: real): (r: Disc)
    ensures r.radius == c.radius && r.x - c.x == dx && r.y - c.y == dy
  {
    Disc(c.x + dx, c.y + dy, c.radius)
  }

  /** A circle never contains one at least as large, in either reading. */
  lemma LargerNeverContained(c: Disc, o: Disc)
    requires o.radius >= c.radius
    ensures !Contains(c, o) && !ContainsAsWritten(c, o)
  {
  }

  /**
   * Finding, first half: as written, a circle of radius 10 does not contain the concentric
   * circle of radius 1, which the intended reading does contain.
   */
  lemma ContainsAsWrittenRejectsConcentric()
    ensures !ContainsAsWritten(Disc(0.0, 0.0, 10.0), Disc(0.0, 0.0, 1.0))
    ensures Contains(Disc(0.0, 0.0, 10.0), Disc(0.0, 0.0, 1.0))
  {
  }

  /**
   * Finding, second half: as written, the same circle "contains" a circle of radius 1
   * centred 100 away, which it does not even intersect.
   */
  lemma ContainsAsWrittenAcceptsDisjoint()
    ensures ContainsAsWritten(Disc(0.0, 0.0, 10.0), Disc(100.0, 0.0, 1.0))
    ensures !Intersects(Disc(0.0, 0.0, 10.0), Disc(100.0, 0.0, 1.0))
    ensures !Contains(Disc(0.0, 0.0, 10.0), Disc(100.0, 0.0, 1.0))
  {
  }

  /** The intended reading: a contained circle has its centre inside and intersects. */
  lemma ContainedIsInside(c: Disc, o: Disc)
    requires Contains(c, o) && o.radius >= 0.0
    ensures ContainsPoint(c, o.x, o.y)
    ensures Intersects(c, o)
  {
    var d := c.radius - o.radius;
    assert 0.0 < d <= c.radius;
    assert d * d <= c.radius * c.radius;
    assert d * d <= (o.radius + c.radius) * (o.radius + c.radius);
  }

  class Circle {
    var x: real
    var y: real
    var radius: real

    function Value(): Disc
      reads this
    {
      Disc(x, y, radius)
    }

    constructor (x: real, y: real, radius: real)
      ensures Value() == Disc(x, y, radius)
    {
      this.x, this.y, this.radius := x, y, radius;
    }

    method Set(nx: real, ny: real, nradius: real)
      modifies this
      ensures Value() == Disc(nx, ny, nradius)
    {
      Position(nx, ny);
      radius := nradius;
    }

    method Position(nx: real, ny: real)
      modifies this
      ensures Value() == old(Value()).(x := nx, y := ny)
    {
      x, y := nx, ny;
    }

    method Translate(dx: real, dy: real)
      modifies this
      ensures Value() == Translated(old(Value()), dx, dy)
    {
      Position(x + dx, y + dy);
    }

    method Clone() returns (c: Circle)
      ensures fresh(c) && c.Value() == Value()
    {
      c := new Circle(x, y, radius);
    }
  }
}
