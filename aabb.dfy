/**
 * Axis-aligned bounding boxes (src/math/AABB.ts). A box is its corner (x, y) and its
 * extent (width, height); JavaScript numbers are modelled as reals, so every comparison
 * below is exact.
 */
module AABBs {

  /** The value held by an AABB object at one moment. */
  datatype Box = Box(x: real, y: real, width: real, height: real)

  /** Number.MAX_SAFE_INTEGER and Number.MIN_SAFE_INTEGER. */
  const MaxSafeInteger: real := 9007199254740991.0
  const MinSafeInteger: real := -9007199254740991.0

  /** The sentinel written by `inf()`: corner at MAX_SAFE_INTEGER, extent MIN_SAFE_INTEGER. */
  const InfBox: Box := Box(MaxSafeInteger, MaxSafeInteger, MinSafeInteger, MinSafeInteger)

  predicate Valid(b: Box) {
    b.width > 0.0 && b.height > 0.0
  }

  /** Strict overlap test: boxes that only touch along an edge do not intersect. */
  predicate Intersects(a: Box, o: Box) {
    a.x < o.x + o.width && a.x + a.width > o.x
    && a.y < o.y + o.height && a.y + a.height > o.y
  }

  /** Closed point test: the boundary belongs to the box. */
  predicate ContainsPoint(a: Box, px: real, py: real) {
    px >= a.x && py >= a.y && px <= a.x + a.width && py <= a.y + a.height
  }

  predicate Contains(a: Box, o: Box) {
    o.x >= a.x && o.y >= a.y
    && o.x + o.width <= a.x + a.width
    && o.y + o.height <= a.y + a.height
  }

  function CenterX(b: Box): real { b.x + b.width / 2.0 }

  function CenterY(b: Box): real { b.y + b.height / 2.0 }

  function Min(a: real, b: real): real { if a <= b then a else b }

  function Max(a: real, b: real): real { if a >= b then a else b }

  /** The box `extend(px, py)` leaves behind. */
  function Extended(b: Box, px: real, py: real): (r: Box)
    ensures r.x == Min(b.x, px) && r.y == Min(b.y, py)
    ensures r.x + r.width == Max(b.x + b.width, px)
    ensures r.y + r.height == Max(b.y + b.height, py)
  {
    var minX := Min(b.x, px);
    var minY := Min(b.y, py);
    Box(minX, minY, Max(b.x + b.width, px) - minX, Max(b.y + b.height, py) - minY)
  }

  /** The box `translate(dx, dy)` leaves behind. */
  function Translated(b: Box, dx: real, dy: real): (r: Box)
    ensures r.width == b.width && r.height == b.height
    ensures r.x - b.x == dx && r.y - b.y == dy
  {
    Box(b.x + dx, b.y + dy, b.width, b.height)
  }

  /** The box `merge(other)` leaves behind: the smaller corner and the larger extent. */
  function Merged(a: Box, o: Box): (r: Box)
    ensures r.x <= a.x && r.x <= o.x && r.y <= a.y && r.y <= o.y
    ensures r.width >= a.width && r.width >= o.width && r.height >= a.height && r.height >= o.height
  {
    Box(Min(a.x, o.x), Min(a.y, o.y), Max(a.width, o.width), Max(a.height, o.height))
  }

  // ---------------------------------------------------------------------------
  // Properties of the predicates
  // ---------------------------------------------------------------------------

  lemma IntersectsSymmetric(a: Box, b: Box)
    ensures Intersects(a, b) <==> Intersects(b, a)
  {
  }

  lemma ContainsReflexive(a: Box)
    ensures Contains(a, a)
  {
  }

  /** A box that holds a box of positive area overlaps it. */
  lemma ContainsValidImpliesIntersects(a: Box, o: Box)
    requires Contains(a, o) && Valid(o)
    ensures Intersects(a, o)
  {
  }

  lemma ContainsTransitive(a: Box, b: Box, c: Box)
    requires Contains(a, b) && Contains(b, c)
    ensures Contains(a, c)
  {
  }

  /** After `extend(px, py)` the point lies in the box. */
  lemma ExtendedContainsPoint(b: Box, px: real, py: real)
    ensures ContainsPoint(Extended(b, px, py), px, py)
  {
  }

  /** Extending a box of non-negative extent keeps everything it held. */
  lemma ExtendedContainsOld(b: Box, px: real, py: real)
    requires b.width >= 0.0 && b.height >= 0.0
    ensures Contains(Extended(b, px, py), b)
  {
  }

  /** Extending only grows the box on every side, whatever the extent. */
  lemma ExtendedKeepsPoints(b: Box, px: real, py: real, qx: real, qy: real)
    requires ContainsPoint(b, qx, qy)
    ensures ContainsPoint(Extended(b, px, py), qx, qy)
  {
  }

  /** The `inf()` sentinel has negative extent, so it is not a valid box. */
  lemma InfBoxInvalid()
    ensures !Valid(InfBox)
    ensures InfBox.x + InfBox.width == 0.0 && InfBox.y + InfBox.height == 0.0
  {
  }

  /** The first extension of the sentinel: its upper edge is max(0, p), not p. */
  lemma ExtendInfBox(px: real, py: real)
    requires px <= MaxSafeInteger && py <= MaxSafeInteger
    ensures Extended(InfBox, px, py) == Box(px, py, Max(0.0, px) - px, Max(0.0, py) - py)
  {
  }

  /** Translation moves the centre by the same offset. */
  lemma TranslatedCenter(b: Box, dx: real, dy: real)
    ensures CenterX(Translated(b, dx, dy)) == CenterX(b) + dx
    ensures CenterY(Translated(b, dx, dy)) == CenterY(b) + dy
  {
  }

  /** Translation preserves overlap and containment between two boxes moved together. */
  lemma TranslatedPreservesRelations(a: Box, o: Box, dx: real, dy: real)
    ensures Intersects(Translated(a, dx, dy), Translated(o, dx, dy)) == Intersects(a, o)
    ensures Contains(Translated(a, dx, dy), Translated(o, dx, dy)) == Contains(a, o)
  {
  }

  /** Merge keeps the smaller corner and the larger extent; it does not always cover the other box. */
  lemma MergedMissesFarBox()
    ensures !Contains(Merged(Box(0.0, 0.0, 1.0, 1.0), Box(5.0, 5.0, 1.0, 1.0)), Box(5.0, 5.0, 1.0, 1.0))
  {
  }

  // ---------------------------------------------------------------------------
  // The mutable AABB object
  // ---------------------------------------------------------------------------

  class AABB {
    var x: real
    var y: real
    var width: real
    var height: real

    function Value(): Box
      reads this
    {
      Box(x, y, width, height)
    }

    constructor (x: real, y: real, width: real, height: real)
      ensures Value() == Box(x, y, width, height)
    {
      this.x, this.y, this.width, this.height := x, y, width, height;
    }

    method Set(nx: real, ny: real, nwidth: real, nheight: real)
      modifies this
      ensures Value() == Box(nx, ny, nwidth, nheight)
    {
      x, y, width, height := nx, ny, nwidth, nheight;
    }

    method Position(nx: real, ny: real)
      modifies this
      ensures Value() == old(Value()).(x := nx, y := ny)
    {
      Set(nx, ny, width, height);
    }

    method Dimensions(nwidth: real, nheight: real)
      modifies this
      ensures Value() == old(Value()).(width := nwidth, height := nheight)
    {
      Set(x, y, nwidth, nheight);
    }

    method Translate(dx: real, dy: real)
      modifies this
      ensures Value() == Translated(old(Value()), dx, dy)
    {
      Position(x + dx, y + dy);
    }

    method Extend(px: real, py: real)
      modifies this
      ensures Value() == Extended(old(Value()), px, py)
      ensures ContainsPoint(Value(), px, py)
    {
      var minX := Min(x, px);
      var minY := Min(y, py);
      var maxX := Max(x + width, px);
      var maxY := Max(y + height, py);
      Set(minX, minY, maxX - minX, maxY - minY);
      ExtendedContainsPoint(old(Value()), px, py);
    }

    method Expand(dwidth: real, dheight: real)
      modifies this
      ensures Value() == old(Value()).(width := old(width) + dwidth, height := old(height) + dheight)
    {
      Dimensions(width + dwidth, height + dheight);
    }

    method Clear()
      modifies this
      ensures Value() == Box(0.0, 0.0, 0.0, 0.0)
    {
      Set(0.0, 0.0, 0.0, 0.0);
    }

    method Inf()
      modifies this
      ensures Value() == InfBox && !Valid(Value())
    {
      Set(MaxSafeInteger, MaxSafeInteger, MinSafeInteger, MinSafeInteger);
    }

    method Merge(other: AABB)
      modifies this
      ensures Value() == Merged(old(Value()), old(other.Value()))
    {
      var nx := Min(x, other.x);
      var ny := Min(y, other.y);
      var nwidth := Max(width, other.width);
      var nheight := Max(height, other.height);
      Set(nx, ny, nwidth, nheight);
    }

    method Clone() returns (c: AABB)
      ensures fresh(c) && c.Value() == Value()
    {
      c := new AABB(x, y, width, height);
    }
  }
}
