/**
 * Polygons (src/math/Polygon.ts): a vertex list together with values derived from it and
 * cached by `update` -- a bounding box, one edge normal per vertex, a signed area and a
 * centre. Vertices are vector values here; the normals are the perpendiculars of the edge
 * vectors before `normalize` scales them to unit length.
 */
module Polygons {
  import opened AABBs
  import opened Vectors

  /** `valid`: more than two vertices. */
  predicate ValidVertices(vs: seq<Vec>) {
    |vs| > 2
  }

  /** The normal cached for vertex i: the perpendicular of (vertex i - the next vertex, cyclically). */
  function EdgeNormal(vs: seq<Vec>, i: nat): Vec
    requires i < |vs|
  {
    var next := if i + 1 < |vs| then vs[i + 1] else vs[0];
    Perp(Minus(vs[i], next))
  }

  /** The box obtained by extending the `inf()` sentinel by the first k vertices. */
  function BoundsTo(vs: seq<Vec>, k: nat): Box
    requires k <= |vs|
  {
    if k == 0 then InfBox else Extended(BoundsTo(vs, k - 1), vs[k - 1].x, vs[k - 1].y)
  }

  /** The area term of vertex i >= 2: cross(first - vertex i, first - vertex i-1). */
  function FanTerm(vs: seq<Vec>, i: nat): real
    requires 2 <= i < |vs|
  {
    Cross(Minus(vs[0], vs[i]), Minus(vs[0], vs[i - 1]))
  }

  /** The sum of the area terms of the vertices 2 .. k-1. */
  function FanSumTo(vs: seq<Vec>, k: nat): real
    requires k <= |vs|
  {
    if k <= 2 then 0.0 else FanSumTo(vs, k - 1) + FanTerm(vs, k - 1)
  }

  /** The sum of cross(vertex i-1, vertex i) along the open chain of the first k vertices. */
  function ChainTo(vs: seq<Vec>, k: nat): real
    requires k <= |vs|
  {
    if k <= 1 then 0.0 else ChainTo(vs, k - 1) + Cross(vs[k - 2], vs[k - 1])
  }

  /** The shoelace sum over the closed outline: twice the signed area in the usual orientation. */
  function Shoelace(vs: seq<Vec>): real
    requires |vs| > 0
  {
    ChainTo(vs, |vs|) + Cross(vs[|vs| - 1], vs[0])
  }

  /** Every vertex translated by d. */
  function Shifted(vs: seq<Vec>, d: Vec): (r: seq<Vec>)
    ensures |r| == |vs|
    ensures forall i :: 0 <= i < |vs| ==> r[i] == Plus(vs[i], d)
  {
    if vs == [] then [] else [Plus(vs[0], d)] + Shifted(vs[1..], d)
  }

  function Reversed<T>(s: seq<T>): (r: seq<T>)
    ensures |r| == |s|
    ensures forall i :: 0 <= i < |s| ==> r[i] == s[|s| - 1 - i]
  {
    if s == [] then [] else Reversed(s[1..]) + [s[0]]
  }

  /** JavaScript's `splice(index, 0, ...items)`: a negative index counts from the end, and the index is clamped. */
  function Spliced<T>(s: seq<T>, index: int, items: seq<T>): (r: seq<T>)
    ensures |r| == |s| + |items|
    ensures multiset(r) == multiset(s) + multiset(items)
  {
    var k := if index < 0 then (if |s| + index < 0 then 0 else |s| + index)
             else if index > |s| then |s| else index;
    assert s == s[..k] + s[k..];
    s[..k] + items + s[k..]
  }

  /** Everything `update` caches for a vertex list. */
  datatype Cache = Cache(box: Box, normals: seq<Vec>, area: real, center: Vec)

  function CacheOf(vs: seq<Vec>): (c: Cache)
    ensures !ValidVertices(vs) ==> c == Cache(InfBox, [], 0.0, Zero)
    ensures ValidVertices(vs) ==> |c.normals| == |vs| && c.area == FanSumTo(vs, |vs|) / 2.0
    ensures ValidVertices(vs) ==> c.center == Vec(CenterX(c.box), CenterY(c.box))
    ensures ValidVertices(vs) ==> forall v :: v in vs ==> ContainsPoint(c.box, v.x, v.y)
  {
    if !ValidVertices(vs) then Cache(InfBox, [], 0.0, Zero)
    else
      var b := BoundsTo(vs, |vs|);
      BoundsHoldVertices(vs, |vs|);
      Cache(b, seq(|vs|, i requires 0 <= i < |vs| => EdgeNormal(vs, i)), FanSumTo(vs, |vs|) / 2.0,
            Vec(CenterX(b), CenterY(b)))
  }

  // ---------------------------------------------------------------------------
  // Properties of the cached values
  // ---------------------------------------------------------------------------

  /** The extended box holds every vertex it was extended by. */
  lemma {:induction false} BoundsHoldVertices(vs: seq<Vec>, k: nat)
    requires k <= |vs|
    ensures forall j :: 0 <= j < k ==> ContainsPoint(BoundsTo(vs, k), vs[j].x, vs[j].y)
  {
    if k > 0 {
      BoundsHoldVertices(vs, k - 1);
      var b := BoundsTo(vs, k - 1);
      ExtendedContainsPoint(b, vs[k - 1].x, vs[k - 1].y);
      forall j | 0 <= j < k - 1
        ensures ContainsPoint(BoundsTo(vs, k), vs[j].x, vs[j].y)
      {
        ExtendedKeepsPoints(b, vs[k - 1].x, vs[k - 1].y, vs[j].x, vs[j].y);
      }
    }
  }

  /**
   * The sentinel's upper edge sits at 0 and extending never lowers it, so the cached box
   * always reaches the origin's coordinates: its upper corner is at least (0, 0).
   */
  lemma {:induction false} BoundsReachOrigin(vs: seq<Vec>, k: nat)
    requires k <= |vs|
    ensures BoundsTo(vs, k).x + BoundsTo(vs, k).width >= 0.0
    ensures BoundsTo(vs, k).y + BoundsTo(vs, k).height >= 0.0
  {
    if k > 0 {
      BoundsReachOrigin(vs, k - 1);
    }
  }

  /** The box of a list of negative-coordinate vertices is strictly larger than their hull. */
  lemma SentinelWidensBox()
    ensures var vs := [Vec(-3.0, -3.0), Vec(-2.0, -3.0), Vec(-2.0, -2.0)];
      BoundsTo(vs, 3) == Box(-3.0, -3.0, 3.0, 3.0)
  {
    var vs := [Vec(-3.0, -3.0), Vec(-2.0, -3.0), Vec(-2.0, -2.0)];
    assert BoundsTo(vs, 1) == Box(-3.0, -3.0, 3.0, 3.0);
    assert BoundsTo(vs, 2) == Box(-3.0, -3.0, 3.0, 3.0);
  }

  /** Each area term splits into three cross products of the vertices themselves. */
  lemma FanTermSplit(f: Vec, v: Vec, p: Vec)
    ensures Cross(Minus(f, v), Minus(f, p)) == Cross(f, v) - Cross(f, p) - Cross(p, v)
  {
  }

  /** The fan sum telescopes: it is the closing chord minus the open chain. */
  lemma {:induction false} FanSumTelescopes(vs: seq<Vec>, k: nat)
    requires 2 <= k <= |vs|
    ensures FanSumTo(vs, k) == Cross(vs[0], vs[k - 1]) - ChainTo(vs, k)
  {
    if k == 2 {
      assert ChainTo(vs, 1) == 0.0;
    } else {
      FanSumTelescopes(vs, k - 1);
      FanTermSplit(vs[0], vs[k - 1], vs[k - 2]);
    }
  }

  /**
   * `area` is half the negated shoelace sum: the fan of triangles from the first vertex
   * computes the signed area of the outline, positive for the clockwise winding.
   */
  lemma FanSumIsShoelace(vs: seq<Vec>)
    requires |vs| >= 2
    ensures FanSumTo(vs, |vs|) == -Shoelace(vs)
  {
    FanSumTelescopes(vs, |vs|);
    CrossAntisymmetric(vs[0], vs[|vs| - 1]);
  }

  /** A unit right triangle listed counter-clockwise has area -1/2. */
  lemma TriangleArea()
    ensures FanSumTo([Vec(0.0, 0.0), Vec(1.0, 0.0), Vec(0.0, 1.0)], 3) / 2.0 == -0.5
  {
    var vs := [Vec(0.0, 0.0), Vec(1.0, 0.0), Vec(0.0, 1.0)];
    FanSumTriangle(vs);
    assert Minus(vs[0], vs[2]) == Vec(0.0, -1.0) && Minus(vs[0], vs[1]) == Vec(-1.0, 0.0);
    assert FanTerm(vs, 2) == -1.0;
  }

  /** A triangle's fan sum is its single term. */
  lemma FanSumTriangle(vs: seq<Vec>)
    requires |vs| == 3
    ensures FanSumTo(vs, 3) == FanTerm(vs, 2)
  {
    assert FanSumTo(vs, 2) == 0.0;
  }

  /** Normals depend only on edge vectors, so translation keeps them. */
  lemma EdgeNormalShifted(vs: seq<Vec>, d: Vec, i: nat)
    requires i < |vs|
    ensures EdgeNormal(Shifted(vs, d), i) == EdgeNormal(vs, i)
  {
    var next := if i + 1 < |vs| then i + 1 else 0;
    assert Minus(Plus(vs[i], d), Plus(vs[next], d)) == Minus(vs[i], vs[next]);
  }

  /** The area terms depend only on differences of vertices, so translation keeps the fan sum. */
  lemma {:induction false} FanSumShifted(vs: seq<Vec>, d: Vec, k: nat)
    requires k <= |vs|
    ensures FanSumTo(Shifted(vs, d), k) == FanSumTo(vs, k)
  {
    if k > 2 {
      FanSumShifted(vs, d, k - 1);
      var ws := Shifted(vs, d);
      assert Minus(ws[0], ws[k - 1]) == Minus(vs[0], vs[k - 1]);
      assert Minus(ws[0], ws[k - 2]) == Minus(vs[0], vs[k - 2]);
    }
  }

  /** Translating the vertices leaves the recomputed normals and area as they were. */
  lemma CacheShifted(vs: seq<Vec>, d: Vec)
    ensures CacheOf(Shifted(vs, d)).normals == CacheOf(vs).normals
    ensures CacheOf(Shifted(vs, d)).area == CacheOf(vs).area
  {
    FanSumShifted(vs, d, |vs|);
    forall i | 0 <= i < |vs| {
      EdgeNormalShifted(vs, d, i);
    }
  }

  // ---------------------------------------------------------------------------
  // The mutable Polygon object
  // ---------------------------------------------------------------------------

  class Polygon {
    var vertices: seq<Vec>
    var normals: seq<Vec>
    var area: real
    var box: Box
    var center: Vec

    /**
     * What every operation keeps: a valid polygon has one normal per vertex, a box holding
     * every vertex and the box's centre as its centre; an invalid one has no normals and
     * no area. The cached values need not be those a fresh `update` would compute:
     * `translate` and `rewind` adjust them without recomputing.
     */
    ghost predicate Valid()
      reads this
    {
      if ValidVertices(vertices) then
        |normals| == |vertices| && center == Vec(CenterX(box), CenterY(box))
        && forall v :: v in vertices ==> ContainsPoint(box, v.x, v.y)
      else
        normals == [] && area == 0.0
    }

    function Cached(): Cache
      reads this
    {
      Cache(box, normals, area, center)
    }

    constructor (vertices: seq<Vec>)
      ensures this.vertices == vertices && Cached() == CacheOf(vertices)
      ensures Valid()
    {
      this.vertices := vertices;
      new;
      Update();
    }

    /** `update`: recompute box, normals, area and centre in one pass over the vertices. */
    method Update()
      modifies this
      ensures vertices == old(vertices)
      ensures Cached() == CacheOf(vertices)
      ensures Valid()
    {
      box := InfBox;
      center := Zero;
      area := 0.0;
      normals := [];
      if !ValidVertices(vertices) {
        return;
      }
      var vs := vertices;
      var i := 0;
      while i < |vs|
        invariant 0 <= i <= |vs| && vertices == vs
        invariant box == BoundsTo(vs, i)
        invariant normals == seq(i, j requires 0 <= j < i => EdgeNormal(vs, j))
        invariant area == FanSumTo(vs, i)
      {
        var vertex := vs[i];
        box := Extended(box, vertex.x, vertex.y);
        var first := vs[0];
        var next := if i + 1 < |vs| then vs[i + 1] else first;
        normals := normals + [Perp(Minus(vertex, next))];
        if i >= 2 {
          var prev := vs[i - 1];
          area := area + Cross(Minus(first, vertex), Minus(first, prev));
        }
        i := i + 1;
      }
      area := area / 2.0;
      center := Vec(CenterX(box), CenterY(box));
    }

    method Set(vs: seq<Vec>)
      modifies this
      ensures vertices == vs && Cached() == CacheOf(vs)
      ensures Valid()
    {
      vertices := vs;
      Update();
    }

    method Push(vs: seq<Vec>)
      modifies this
      ensures vertices == old(vertices) + vs && Cached() == CacheOf(vertices)
      ensures Valid()
    {
      vertices := vertices + vs;
      Update();
    }

    method Insert(index: int, vs: seq<Vec>)
      modifies this
      ensures vertices == Spliced(old(vertices), index, vs) && Cached() == CacheOf(vertices)
      ensures Valid()
    {
      vertices := Spliced(vertices, index, vs);
      Update();
    }

    /** Out of range: false and nothing changes; otherwise vertex `index` goes and the cache is recomputed. */
    method Remove(index: int) returns (removed: bool)
      modifies this
      ensures removed <==> 0 <= index < |old(vertices)|
      ensures !removed ==> vertices == old(vertices) && Cached() == old(Cached())
      ensures removed ==> vertices == old(vertices[..index] + vertices[index + 1..])
      ensures removed ==> Cached() == CacheOf(vertices)
      ensures old(Valid()) ==> Valid()
    {
      if index < 0 || index >= |vertices| {
        return false;
      }
      vertices := vertices[..index] + vertices[index + 1..];
      Update();
      return true;
    }

    method Clear()
      modifies this
      ensures vertices == [] && Cached() == Cache(InfBox, [], 0.0, Zero)
      ensures Valid()
    {
      box := InfBox;
      center := Zero;
      vertices := [];
      normals := [];
      area := 0.0;
    }

    /** Moves the vertices, the box and the centre; normals and area are kept. */
    method Translate(dx: real, dy: real)
      requires Valid()
      modifies this
      ensures vertices == Shifted(old(vertices), Vec(dx, dy))
      ensures box == Translated(old(box), dx, dy) && center == Plus(old(center), Vec(dx, dy))
      ensures normals == old(normals) && area == old(area)
      ensures Valid()
    {
      var translation := Vec(dx, dy);
      var vs := vertices;
      var shifted := [];
      var i := 0;
      while i < |vs|
        invariant 0 <= i <= |vs|
        invariant shifted == Shifted(vs[..i], translation)
        invariant unchanged(this)
      {
        assert vs[..i + 1] == vs[..i] + [vs[i]];
        ShiftedAppend(vs[..i], vs[i], translation);
        shifted := shifted + [Plus(vs[i], translation)];
        i := i + 1;
      }
      assert vs[..i] == vs;
      assert shifted == Shifted(vs, translation);
      vertices := shifted;
      box := Translated(box, dx, dy);
      center := Plus(center, translation);
      if ValidVertices(vs) {
        forall v | v in vertices
          ensures ContainsPoint(box, v.x, v.y)
        {
          var j :| 0 <= j < |vs| && vertices[j] == v;
          assert vs[j] in vs;
          assert ContainsPoint(old(box), vs[j].x, vs[j].y);
          assert v == Plus(vs[j], translation);
        }
      }
    }

    /** Reverses vertices and normals; area and box are left as they were. */
    method Rewind()
      requires Valid()
      modifies this
      ensures vertices == Reversed(old(vertices)) && normals == Reversed(old(normals))
      ensures area == old(area) && box == old(box) && center == old(center)
      ensures Valid()
    {
      ghost var before := vertices;
      vertices := Reversed(vertices);
      normals := Reversed(normals);
      if ValidVertices(before) {
        forall v | v in vertices
          ensures ContainsPoint(box, v.x, v.y)
        {
          var j :| 0 <= j < |vertices| && vertices[j] == v;
          assert before[|before| - 1 - j] in before;
        }
      }
    }

    /**
     * `rotate`: every vertex is moved to its rotated position and the cache recomputed. The
     * rotated positions need sine and cosine, so they are passed in; a rotation keeps the
     * number of vertices.
     */
    method Rotate(rotated: seq<Vec>)
      requires |rotated| == |vertices|
      modifies this
      ensures vertices == rotated && Cached() == CacheOf(rotated)
      ensures ValidVertices(vertices) == old(ValidVertices(vertices))
      ensures Valid()
    {
      vertices := rotated;
      Update();
    }

    /** `clone`: a new polygon over a deep copy of the vertices, its cache freshly computed. */
    method Clone() returns (c: Polygon)
      ensures fresh(c) && c.vertices == vertices && c.Cached() == CacheOf(vertices)
      ensures c.Valid()
    {
      c := new Polygon(vertices);
    }
  }

  lemma ShiftedAppend(vs: seq<Vec>, v: Vec, d: Vec)
    ensures Shifted(vs + [v], d) == Shifted(vs, d) + [Plus(v, d)]
  {
  }
}
