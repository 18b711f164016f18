/**
 * The Quadrant objects of one tree and their methods (src/graph/quadtree/Quadrant.ts).
 *
 * `Arena` holds every quadrant of one tree in `quadrants`; a method that the source calls on
 * a quadrant takes that quadrant's id `q` instead of `this`. The shared QuadtreeMap and the
 * two thresholds, which every Quadrant of a tree receives from its parent, are fields of the
 * arena. Each method keeps `Valid()`: the arena is well formed and the map lists exactly the
 * quadrants holding each entity.
 */
module QuadrantArena {
  import opened Wrappers
  import opened AABBs
  import opened QuadtreeMaps
  import opened Quadrants

  /** Offset, among the four new quadrants, of child k = x + 2y: `subdivide` creates them x-major. */
  function ChildSlot(k: nat): (s: nat)
    requires k < 4
    ensures s < 4
  {
    if k == 1 then 2 else if k == 2 then 1 else k
  }

  /** The children list `subdivide` leaves on a quadrant when the arena had n quadrants. */
  function ChildIds(n: nat): (cs: seq<QId>)
    ensures |cs| == 4 && NoDup(cs)
    ensures forall k :: 0 <= k < 4 ==> cs[k] == n + ChildSlot(k)
  {
    [n, n + 2, n + 1, n + 3]
  }

  /** The first m quadrants `subdivide` creates below q, in creation order. */
  function Children<E>(b: Box, q: QId, m: nat): (r: seq<Quadrant<E>>)
    requires m <= 4
    ensures |r| == m && forall j :: 0 <= j < m ==> r[j].parent == Some(q)
  {
    if m == 0 then [] else Children(b, q, m - 1) + [NewQuadrant(ChildBox(b, ChildSlot(m - 1)), Some(q))]
  }

  /** Quadrants created by `subdivide` keep the invariant: they are empty and name an existing parent. */
  lemma {:induction false} InvChildren<E>(qs: seq<Quadrant<E>>, m: map<E, seq<QId>>, b: Box, q: QId, k: nat)
    requires Inv(qs, m) && q < |qs| && k <= 4
    ensures Inv(qs + Children(b, q, k), m)
  {
    if k > 0 {
      InvChildren(qs, m, b, q, k - 1);
      InvGrow(qs + Children(b, q, k - 1), m, ChildBox(b, ChildSlot(k - 1)), q);
      assert qs + Children(b, q, k) == qs + Children(b, q, k - 1) + [NewQuadrant(ChildBox(b, ChildSlot(k - 1)), Some(q))];
    } else {
      assert qs + Children(b, q, k) == qs;
    }
  }

  /** The ancestor of q (q itself first) whose region contains b, nearest first, if any. */
  ghost function NearestContaining<E>(qs: seq<Quadrant<E>>, q: nat, b: Box): (a: Option<QId>)
    requires WellFormed(qs) && q < |qs|
    ensures a.Some? ==> a.value <= q && Contains(qs[a.value].bounds, b)
    decreases q
  {
    assert NodeOk(qs, q);
    if Contains(qs[q].bounds, b) then Some(q)
    else if qs[q].parent.Some? then NearestContaining(qs, qs[q].parent.value, b)
    else None
  }

  /** The nearest containing ancestor depends only on the regions and parents, which `Extends` keeps. */
  lemma {:induction false} NearestContainingExtends<E>(qs: seq<Quadrant<E>>, qs': seq<Quadrant<E>>, q: nat, b: Box)
    requires WellFormed(qs) && WellFormed(qs') && Extends(qs, qs') && q < |qs|
    ensures NearestContaining(qs, q, b) == NearestContaining(qs', q, b)
    decreases q
  {
    assert NodeOk(qs, q);
    if !Contains(qs[q].bounds, b) && qs[q].parent.Some? {
      NearestContainingExtends(qs, qs', qs[q].parent.value, b);
    }
  }

  /** No proper ancestor of q has a region containing b. */
  ghost predicate NoAncestorContains<E>(qs: seq<Quadrant<E>>, q: nat, b: Box)
    requires WellFormed(qs) && q < |qs|
  {
    assert NodeOk(qs, q);
    qs[q].parent.None? || NearestContaining(qs, qs[q].parent.value, b).None?
  }

  /** The entities of the entries before position k, other than entry i, whose boxes meet entry i's box. */
  function MeetingBefore<E>(es: seq<Entry<E>>, i: nat, k: nat): seq<E>
    requires i < |es| && k <= |es|
  {
    if k == 0 then []
    else
      var r := MeetingBefore(es, i, k - 1);
      if k - 1 != i && Intersects(es[i].bounds, es[k - 1].bounds) then r + [es[k - 1].entity] else r
  }

  /** `intersections(entity)` of one quadrant: empty when the quadrant lacks the entity. */
  function OthersMeeting<E(==)>(es: seq<Entry<E>>, e: E): seq<E> {
    var i := FindEntity(es, e);
    if i == -1 then [] else MeetingBefore(es, i, |es|)
  }

  /** What `intersections` reports: exactly the other entries whose boxes meet entry i's box. */
  lemma {:induction false} MeetingBeforeMembers<E>(es: seq<Entry<E>>, i: nat, k: nat, x: E)
    requires i < |es| && k <= |es|
    ensures x in MeetingBefore(es, i, k) <==>
      exists j :: 0 <= j < k && j != i && es[j].entity == x && Intersects(es[i].bounds, es[j].bounds)
  {
    if k > 0 {
      MeetingBeforeMembers(es, i, k - 1, x);
      if x in MeetingBefore(es, i, k) && x !in MeetingBefore(es, i, k - 1) {
        assert k - 1 != i && es[k - 1].entity == x && Intersects(es[i].bounds, es[k - 1].bounds);
      }
    }
  }

  /** An entity never meets itself: in a quadrant holding it once, it is not in its own result. */
  lemma OthersMeetingExcludesSelf<E>(es: seq<Entry<E>>, e: E)
    requires NoDup(EntitiesOf(es))
    ensures e !in OthersMeeting(es, e)
  {
    var i := FindEntity(es, e);
    if i != -1 {
      MeetingBeforeMembers(es, i, |es|, e);
      forall j | 0 <= j < |es| && j != i
        ensures es[j].entity != e
      {
        assert EntitiesOf(es)[j] != EntitiesOf(es)[i];
      }
    }
  }

  /** One step of `clear`'s loop: the first remaining entry leaves q and q leaves its list. */
  lemma ClearStep<E>(qs: seq<Quadrant<E>>, m: map<E, seq<QId>>, q: QId, es: seq<Entry<E>>, i: nat)
    requires q < |qs| && i < |es| && Inv(qs[q := qs[q].(entries := es[i..])], m)
    ensures Inv(qs[q := qs[q].(entries := es[i + 1..])], MapRemove(m, es[i].entity, [q]))
  {
    var qs' := qs[q := qs[q].(entries := es[i..])];
    InvSplice(qs', m, q, 0);
    assert es[i..][..0] + es[i..][1..] == es[i + 1..];
    assert qs'[q := qs'[q].(entries := es[i + 1..])] == qs[q := qs[q].(entries := es[i + 1..])];
  }

  /**
   * Where `clear`'s loop over q's children stands after k of them: every quadrant that has
   * changed lies below one of those k children and is an empty leaf, and so is every quadrant
   * of their subtrees.
   */
  ghost predicate ClearedUpTo<E>(orig: seq<Quadrant<E>>, cur: seq<Quadrant<E>>, q: nat, k: nat)
    requires q < |orig| && k <= |orig[q].children| && |cur| == |orig|
  {
    var cs := orig[q].children;
    (forall p :: 0 <= p < |orig| && cur[p] != orig[p] ==>
       (exists j :: 0 <= j < k && Under(orig, p, cs[j])) && EmptyLeaf(cur[p]))
    && (forall j, p :: 0 <= j < k && 0 <= p < |orig| && Descends(orig, p, cs[j]) ==> EmptyLeaf(cur[p]))
  }

  /**
   * Clearing child k, which changes only quadrants below it and empties its subtree, moves the
   * loop on by one child: the subtrees of different children are disjoint, so child k's
   * subtree is still as it was before the loop.
   */
  lemma ClearChildStep<E>(orig: seq<Quadrant<E>>, mid: seq<Quadrant<E>>, post: seq<Quadrant<E>>, q: nat, k: nat)
    requires WellFormed(orig) && q < |orig| && orig[q].hasChildren && k < 4
    requires Extends(orig, mid) && |mid| == |orig| && |post| == |orig|
    requires |orig[q].children| == 4 && ClearedUpTo(orig, mid, q, k)
    requires forall p :: 0 <= p < |mid| && Descends(mid, p, orig[q].children[k]) ==> EmptyLeaf(post[p])
    requires forall p :: 0 <= p < |mid| && post[p] != mid[p] ==>
               Under(mid, p, orig[q].children[k]) && EmptyLeaf(post[p])
    ensures ClearedUpTo(orig, post, q, k + 1)
  {
    var cs := orig[q].children;
    assert NodeOk(orig, q);
    forall p | 0 <= p < |orig| && post[p] != orig[p]
      ensures (exists j :: 0 <= j < k + 1 && Under(orig, p, cs[j])) && EmptyLeaf(post[p])
    {
      if post[p] != mid[p] {
        UnderExtends(orig, mid, p, cs[k]);
        assert Under(orig, p, cs[k]);
      }
    }
    forall j, p | 0 <= j < k + 1 && 0 <= p < |orig| && Descends(orig, p, cs[j])
      ensures EmptyLeaf(post[p])
    {
      if j == k {
        forall x | 0 <= x < |orig| && Under(orig, x, cs[k])
          ensures mid[x] == orig[x]
        {
          if mid[x] != orig[x] {
            var i :| 0 <= i < k && Under(orig, x, cs[i]);
            SiblingsApart(orig, q, cs[i], cs[k], x);
          }
        }
        DescendsFrame(orig, mid, p, cs[k]);
      }
    }
  }

  /**
   * The end of `clear`: once the children are done and q itself is an empty leaf, q's whole
   * old subtree is made of empty leaves, and only quadrants below q have changed.
   */
  lemma ClearFinish<E>(orig: seq<Quadrant<E>>, cur: seq<Quadrant<E>>, fin: seq<Quadrant<E>>, q: nat)
    requires WellFormed(orig) && q < |orig| && |cur| == |orig| && |fin| == |orig|
    requires orig[q].hasChildren ==> |orig[q].children| == 4 && ClearedUpTo(orig, cur, q, 4)
    requires !orig[q].hasChildren ==> cur == orig
    requires fin == cur[q := fin[q]] && EmptyLeaf(fin[q])
    ensures forall p :: 0 <= p < |orig| && Descends(orig, p, q) ==> EmptyLeaf(fin[p])
    ensures forall p :: 0 <= p < |orig| && fin[p] != orig[p] ==> Under(orig, p, q) && EmptyLeaf(fin[p])
  {
    assert NodeOk(orig, q);
    forall p | 0 <= p < |orig| && Descends(orig, p, q)
      ensures EmptyLeaf(fin[p])
    {
      if p != q {
        DescendsChild(orig, p, q);
        var j :| 0 <= j < |orig[q].children| && Descends(orig, p, orig[q].children[j]);
      }
    }
    forall p | 0 <= p < |orig| && fin[p] != orig[p]
      ensures Under(orig, p, q) && EmptyLeaf(fin[p])
    {
      if p != q {
        var j :| 0 <= j < 4 && Under(orig, p, orig[q].children[j]);
        var c := orig[q].children[j];
        assert NodeOk(orig, c);
        assert Under(orig, c, q);
        UnderTransitive(orig, p, c, q);
      }
    }
  }

  /** A single root quadrant with an empty map satisfies the invariant. */
  lemma InvRoot<E>(b: Box)
    ensures Inv([NewQuadrant<E>(b, None)], map[])
  {
    var qs := [NewQuadrant<E>(b, None)];
    assert NodeOk(qs, 0);
    assert Holdings(qs) == [[]];
  }

  class Arena<E(==)> {
    var quadrants: seq<Quadrant<E>>
    const entityMap: QuadtreeMap<E>
    const minEntities: int
    const maxEntities: int

    ghost predicate Valid()
      reads this, entityMap
    {
      entityMap.Valid() && |quadrants| > 0 && Inv(quadrants, entityMap.Lists())
      && AllBelow(entityMap.arrays, |quadrants|)
    }

    /** The root quadrant, with its map and thresholds. */
    constructor (bounds: Box, minEntities: int, maxEntities: int)
      ensures Valid() && fresh(entityMap)
      ensures quadrants == [NewQuadrant(bounds, None)] && entityMap.Lists() == map[]
      ensures this.minEntities == minEntities && this.maxEntities == maxEntities
    {
      this.minEntities := minEntities;
      this.maxEntities := maxEntities;
      quadrants := [NewQuadrant(bounds, None)];
      entityMap := new QuadtreeMap();
      new;
      InvRoot<E>(bounds);
    }

    /**
     * `subdivide`: four new quadrants, child x + 2y with its corner at the region's corner or
     * centre along each axis and half its size, all naming q as their parent.
     */
    method Subdivide(q: QId)
      requires Valid() && q < |quadrants| && !quadrants[q].hasChildren && quadrants[q].entries == []
      modifies this
      ensures Valid()
      ensures |quadrants| == |old(quadrants)| + 4
      ensures quadrants[q] == old(quadrants[q]).(children := ChildIds(|old(quadrants)|), hasChildren := true)
      ensures forall p :: 0 <= p < |old(quadrants)| && p != q ==> quadrants[p] == old(quadrants[p])
      ensures quadrants[|old(quadrants)|..] == Children(old(quadrants[q].bounds), q, 4)
    {
      var cs := NewChildren(q);
      InvChildren(old(quadrants), entityMap.Lists(), old(quadrants[q].bounds), q, 4);
      Attach(q, cs);
    }

    /** The loops of `subdivide`: the four new quadrants and the children list they fill in. */
    method NewChildren(q: QId) returns (cs: seq<QId>)
      requires q < |quadrants|
      modifies this
      ensures quadrants == old(quadrants) + Children(old(quadrants[q].bounds), q, 4)
      ensures cs == ChildIds(|old(quadrants)|)
    {
      var n := |quadrants|;
      var b := quadrants[q].bounds;
      var created: seq<Quadrant<E>> := [];
      cs := [0, 0, 0, 0];
      for x := 0 to 2
        invariant created == Children(b, q, 2 * x)
        invariant |cs| == 4 && forall k :: 0 <= k < 4 && ChildSlot(k) < 2 * x ==> cs[k] == n + ChildSlot(k)
      {
        for y := 0 to 2
          invariant created == Children(b, q, 2 * x + y)
          invariant |cs| == 4 && forall k :: 0 <= k < 4 && ChildSlot(k) < 2 * x + y ==> cs[k] == n + ChildSlot(k)
        {
          var minX := if x == 0 then b.x else CenterX(b);
          var minY := if y == 0 then b.y else CenterY(b);
          var child := NewQuadrant(Box(minX, minY, b.width / 2.0, b.height / 2.0), Some(q));
          assert ChildSlot(2 * x + y) == x + 2 * y && ChildSlot(x + 2 * y) == 2 * x + y;
          assert child == NewQuadrant(ChildBox(b, x + 2 * y), Some(q));
          cs := cs[x + 2 * y := n + |created|];
          created := created + [child];
        }
      }
      quadrants := quadrants + created;
    }

    /** `_hasChildren = true` once `_children` lists the four new quadrants. */
    method Attach(q: QId, cs: seq<QId>)
      requires Valid() && q < |quadrants| && !quadrants[q].hasChildren && quadrants[q].entries == []
      requires |cs| == 4 && NoDup(cs)
      requires forall k :: 0 <= k < 4 ==> q < cs[k] < |quadrants| && quadrants[cs[k]].parent == Some(q)
      modifies this
      ensures Valid()
      ensures quadrants == old(quadrants)[q := old(quadrants[q]).(children := cs, hasChildren := true)]
    {
      InvAttach(quadrants, entityMap.Lists(), q, cs);
      quadrants := quadrants[q := quadrants[q].(children := cs, hasChildren := true)];
    }

    /**
     * `clear`: the children are cleared in turn and dropped, then each of q's own entries is
     * unregistered from the map and the entry list emptied. Every quadrant of q's old subtree
     * is left an empty leaf, and only quadrants below q change.
     */
    method Clear(q: QId)
      requires Valid() && q < |quadrants|
      modifies this, entityMap
      ensures Valid() && Extends(old(quadrants), quadrants) && |quadrants| == |old(quadrants)|
      ensures |entityMap.arrays| >= old(|entityMap.arrays|) && entityMap.Lists().Keys <= old(entityMap.Lists().Keys)
      ensures EmptyLeaf(quadrants[q]) && quadrants[q].children == []
      ensures forall p :: 0 <= p < |old(quadrants)| && old(Descends(quadrants, p, q)) ==> EmptyLeaf(quadrants[p])
      ensures forall p :: 0 <= p < |old(quadrants)| && quadrants[p] != old(quadrants[p]) ==>
                old(Under(quadrants, p, q)) && EmptyLeaf(quadrants[p])
      ensures forall p :: 0 <= p < q ==> quadrants[p] == old(quadrants[p])
      ensures !old(quadrants[q].hasChildren) ==> quadrants == old(quadrants)[q := old(quadrants[q]).(entries := [])]
      decreases |quadrants| - q
    {
      ghost var orig := quadrants;
      assert NodeOk(quadrants, q);
      if quadrants[q].hasChildren {
        var cs := quadrants[q].children;
        for k := 0 to 4
          invariant Valid() && Extends(orig, quadrants) && |quadrants| == |orig|
          invariant |entityMap.arrays| >= old(|entityMap.arrays|) && entityMap.Lists().Keys <= old(entityMap.Lists().Keys)
          invariant forall p :: 0 <= p <= q ==> quadrants[p] == orig[p]
          invariant ClearedUpTo(orig, quadrants, q, k)
        {
          ghost var mid := quadrants;
          Clear(cs[k]);
          ClearChildStep(orig, mid, quadrants, q, k);
        }
        InvDetach(quadrants, entityMap.Lists(), q);
        quadrants := quadrants[q := quadrants[q].(children := [], hasChildren := false)];
      }
      ghost var cur := quadrants[q := orig[q]];
      ClearEntries(q);
      assert quadrants == cur[q := quadrants[q]];
      ClearFinish(orig, cur, quadrants, q);
    }

    /** The end of `clear`: each entry is unregistered for q, then the entry list is emptied. */
    method ClearEntries(q: QId)
      requires Valid() && q < |quadrants|
      modifies this, entityMap
      ensures Valid() && quadrants == old(quadrants)[q := old(quadrants[q]).(entries := [])]
      ensures |entityMap.arrays| >= old(|entityMap.arrays|) && entityMap.Lists().Keys <= old(entityMap.Lists().Keys)
    {
      var es := quadrants[q].entries;
      assert quadrants[q := quadrants[q].(entries := es[0..])] == quadrants;
      for i := 0 to |es|
        invariant entityMap.Valid() && quadrants == old(quadrants)
        invariant AllBelow(entityMap.arrays, |quadrants|)
        invariant |entityMap.arrays| >= old(|entityMap.arrays|) && entityMap.Lists().Keys <= old(entityMap.Lists().Keys)
        invariant Inv(quadrants[q := quadrants[q].(entries := es[i..])], entityMap.Lists())
      {
        ClearStep(quadrants, entityMap.Lists(), q, es, i);
        entityMap.Remove(es[i].entity, [q]);
      }
      assert es[|es|..] == [];
      quadrants := quadrants[q := quadrants[q].(entries := [])];
    }

    /**
     * `accumulateEntries(acc)`: the entries below q added to acc, each entity once. The result
     * extends acc with exactly the entities held by the leaves below q.
     */
    method AccumulateEntries(q: QId, acc: seq<Entry<E>>) returns (r: seq<Entry<E>>)
      requires WellFormed(quadrants) && q < |quadrants|
      ensures r == Accumulate(quadrants, q, acc)
      ensures acc <= r && (NoDup(EntitiesOf(acc)) ==> NoDup(EntitiesOf(r)))
      ensures forall e :: e in EntitiesOf(r) <==> e in EntitiesOf(acc) || HeldBelow(quadrants, q, e)
      decreases |quadrants| - q
    {
      assert NodeOk(quadrants, q);
      r := acc;
      if quadrants[q].hasChildren {
        var cs := quadrants[q].children;
        for k := 0 to 4
          invariant AccumulateChildren(quadrants, q, k, r) == AccumulateChildren(quadrants, q, 0, acc)
        {
          r := AccumulateEntries(cs[k], r);
        }
      } else {
        var es := quadrants[q].entries;
        for i := 0 to |es|
          invariant r == AddNew(acc, es[..i])
        {
          assert es[..i + 1][..i] == es[..i];
          var index := FindEntity(r, es[i].entity);
          if index == -1 {
            r := r + [es[i]];
          }
        }
        assert es[..|es|] == es;
      }
      AccumulateFacts(quadrants, q, acc);
    }

    /** `entryCount`: the number of distinct entities held below q; a leaf's own entry count. */
    method EntryCount(q: QId) returns (n: nat)
      requires WellFormed(quadrants) && q < |quadrants|
      ensures n == |Accumulate(quadrants, q, [])|
      ensures !quadrants[q].hasChildren ==> n == |quadrants[q].entries|
    {
      var es := AccumulateEntries(q, []);
      n := |es|;
      if !quadrants[q].hasChildren {
        LeafAccumulate(quadrants, q);
      }
    }

    /**
     * `intersections(entity)`: the entities of q's other entries whose boxes meet the entity's
     * box, in entry order; nothing when q does not hold the entity.
     */
    method Intersections(q: QId, e: E) returns (r: seq<E>)
      requires q < |quadrants|
      ensures r == OthersMeeting(quadrants[q].entries, e)
    {
      var es := quadrants[q].entries;
      r := [];
      var i := FindEntity(es, e);
      if i != -1 {
        for j := 0 to |es|
          invariant r == MeetingBefore(es, i, j)
        {
          if j == i {
            continue;
          }
          if Intersects(es[i].bounds, es[j].bounds) {
            r := r + [es[j].entity];
          }
        }
      }
    }

    /**
     * `insert(entity, bounds)`. Nothing happens when the box misses q's region or when the leaf
     * already holds the entity; a quadrant with children passes the entity to each child; a
     * leaf whose entry count is above `maxEntities` is cleared, subdivided and given its old
     * entries and the new one again; any other leaf appends the entry and is registered in the
     * map. The count is taken before appending, so a leaf can end up with `maxEntities + 1`
     * entries. Each level of descent spends one unit of fuel.
     */
    method Insert(q: QId, e: E, b: Box, fuel: nat)
      requires Valid() && q < |quadrants|
      modifies this, entityMap
      ensures Valid() && Grows(old(quadrants), quadrants)
      ensures |entityMap.arrays| >= old(|entityMap.arrays|) && entityMap.Lists().Keys <= old(entityMap.Lists().Keys) + {e}
      ensures forall p :: 0 <= p < q ==> quadrants[p] == old(quadrants[p])
      ensures old(fuel == 0 || !Intersects(quadrants[q].bounds, b)
                  || (!quadrants[q].hasChildren && e in EntitiesOf(quadrants[q].entries))) ==>
                quadrants == old(quadrants) && entityMap.Lists() == old(entityMap.Lists())
      ensures old(fuel > 0 && Intersects(quadrants[q].bounds, b) && !quadrants[q].hasChildren
                  && e !in EntitiesOf(quadrants[q].entries) && |quadrants[q].entries| <= maxEntities) ==>
                quadrants == old(quadrants)[q := old(quadrants[q]).(entries := old(quadrants[q].entries) + [Entry(e, b)])]
                && entityMap.Lists() == MapInsert(old(entityMap.Lists()), e, [q])
      ensures old(fuel > 0 && Intersects(quadrants[q].bounds, b) && !quadrants[q].hasChildren
                  && e !in EntitiesOf(quadrants[q].entries) && |quadrants[q].entries| > maxEntities) ==>
                quadrants[q].hasChildren && quadrants[q].children == ChildIds(|old(quadrants)|)
      decreases fuel, if quadrants[q].hasChildren then 0 else 1, 1
    {
      if fuel == 0 || !Intersects(quadrants[q].bounds, b) {
        return;
      }
      if quadrants[q].hasChildren {
        var cs := quadrants[q].children;
        assert NodeOk(quadrants, q);
        for k := 0 to 4
          invariant Valid() && Grows(old(quadrants), quadrants)
          invariant |entityMap.arrays| >= old(|entityMap.arrays|) && entityMap.Lists().Keys <= old(entityMap.Lists().Keys) + {e}
          invariant forall p :: 0 <= p <= q ==> quadrants[p] == old(quadrants[p])
        {
          ghost var before := quadrants;
          Insert(cs[k], e, b, fuel - 1);
          GrowsTransitive(old(quadrants), before, quadrants);
        }
        return;
      }
      var existing := FindEntity(quadrants[q].entries, e);
      if existing != -1 {
        return;
      }
      var entry := Entry(e, b);
      var count := EntryCount(q);
      if count > maxEntities {
        Split(q, entry, fuel);
        return;
      }
      Append(q, entry);
    }

    /**
     * The overflow branch of `insert` on leaf q: its entries and the new one are set aside, q
     * is cleared and subdivided, and each of them is inserted at q again.
     */
    method Split(q: QId, x: Entry<E>, fuel: nat)
      requires Valid() && q < |quadrants| && !quadrants[q].hasChildren
      modifies this, entityMap
      ensures Valid() && Grows(old(quadrants), quadrants)
      ensures |entityMap.arrays| >= old(|entityMap.arrays|) && entityMap.Lists().Keys <= old(entityMap.Lists().Keys) + {x.entity}
      ensures forall p :: 0 <= p < q ==> quadrants[p] == old(quadrants[p])
      ensures quadrants[q].hasChildren && quadrants[q].children == ChildIds(|old(quadrants)|)
      decreases fuel, 1, 0
    {
      var entries := quadrants[q].entries + [x];
      assert forall j :: 0 <= j < |entries| - 1 ==> entries[j].entity in entityMap.Lists() by {
        forall j | 0 <= j < |entries| - 1
          ensures entries[j].entity in entityMap.Lists()
        {
          assert Holds(Holdings(quadrants), q, EntitiesOf(quadrants[q].entries)[j]);
        }
      }
      Clear(q);
      Subdivide(q);
      for j := 0 to |entries|
        invariant Valid() && Grows(old(quadrants), quadrants) && quadrants[q].hasChildren
        invariant |entityMap.arrays| >= old(|entityMap.arrays|) && entityMap.Lists().Keys <= old(entityMap.Lists().Keys) + {x.entity}
        invariant forall p :: 0 <= p < q ==> quadrants[p] == old(quadrants[p])
        invariant quadrants[q].children == ChildIds(|old(quadrants)|)
      {
        ghost var before := quadrants;
        Insert(q, entries[j].entity, entries[j].bounds, fuel);
        GrowsTransitive(old(quadrants), before, quadrants);
      }
    }

    /** `_map.insert(entity, this)` and `_entries.push(entry)` on a leaf that lacks the entity. */
    method Append(q: QId, x: Entry<E>)
      requires Valid() && q < |quadrants| && !quadrants[q].hasChildren
      requires x.entity !in EntitiesOf(quadrants[q].entries) && Intersects(quadrants[q].bounds, x.bounds)
      modifies this, entityMap
      ensures Valid()
      ensures quadrants == old(quadrants)[q := old(quadrants[q]).(entries := old(quadrants[q].entries) + [x])]
      ensures entityMap.Lists() == MapInsert(old(entityMap.Lists()), x.entity, [q])
      ensures |entityMap.arrays| >= old(|entityMap.arrays|)
    {
      InvAppend(quadrants, entityMap.Lists(), q, x);
      entityMap.Insert(x.entity, [q]);
      assert AllBelow(entityMap.arrays, |quadrants|) by {
        forall h, p | 0 <= h < |entityMap.arrays| && p in entityMap.arrays[h]
          ensures p < |quadrants|
        {
          assert p in [q] || (h < |old(entityMap.arrays)| && p in old(entityMap.arrays[h]));
        }
      }
      quadrants := quadrants[q := quadrants[q].(entries := quadrants[q].entries + [x])];
    }

    /**
     * `remove(entity)`. A quadrant with children passes the call to each child; a leaf that
     * lacks the entity does nothing; otherwise the entry is spliced out, q is unregistered for
     * the entity, and collapse runs from the parent up. Each level of descent spends one unit
     * of fuel.
     */
    method Remove(q: QId, e: E, fuel: nat)
      requires Valid() && q < |quadrants|
      modifies this, entityMap
      ensures Valid() && Extends(old(quadrants), quadrants)
      ensures old(fuel == 0 || (!quadrants[q].hasChildren && e !in EntitiesOf(quadrants[q].entries))) ==>
                quadrants == old(quadrants) && entityMap.Lists() == old(entityMap.Lists())
      ensures old(fuel > 0 && !quadrants[q].hasChildren && quadrants[q].parent.None?
                  && e in EntitiesOf(quadrants[q].entries)) ==>
                var es := old(quadrants[q].entries);
                var i := FindEntity(es, e);
                quadrants == old(quadrants)[q := old(quadrants[q]).(entries := es[..i] + es[i + 1..])]
                && entityMap.Lists() == MapRemove(old(entityMap.Lists()), e, [q])
      ensures |entityMap.arrays| >= old(|entityMap.arrays|) && entityMap.Lists().Keys <= old(entityMap.Lists().Keys)
      ensures old(fuel > 0 && e in entityMap.Lists() && entityMap.Lists()[e] == [q]) ==> e !in entityMap.Lists()
      decreases fuel, 1
    {
      if fuel == 0 {
        return;
      }
      assert e in entityMap.Lists() && q in entityMap.Lists()[e] ==> Holds(Holdings(quadrants), q, e);
      if quadrants[q].hasChildren {
        assert NodeOk(quadrants, q);
        RemoveBelow(q, e, fuel);
      } else {
        RemoveFromLeaf(q, e, fuel);
      }
    }

    /**
     * The branch of `remove` for a leaf: nothing when it lacks the entity; otherwise the entry
     * is spliced out, q is unregistered for the entity, and collapse runs from the parent up.
     */
    method RemoveFromLeaf(q: QId, e: E, fuel: nat)
      requires Valid() && q < |quadrants| && !quadrants[q].hasChildren
      modifies this, entityMap
      ensures Valid() && Extends(old(quadrants), quadrants)
      ensures old(e !in EntitiesOf(quadrants[q].entries)) ==>
                quadrants == old(quadrants) && entityMap.Lists() == old(entityMap.Lists())
      ensures old(quadrants[q].parent.None? && e in EntitiesOf(quadrants[q].entries)) ==>
                var es := old(quadrants[q].entries);
                var i := FindEntity(es, e);
                quadrants == old(quadrants)[q := old(quadrants[q]).(entries := es[..i] + es[i + 1..])]
                && entityMap.Lists() == MapRemove(old(entityMap.Lists()), e, [q])
      ensures |entityMap.arrays| >= old(|entityMap.arrays|) && entityMap.Lists().Keys <= old(entityMap.Lists().Keys)
      ensures old(e in entityMap.Lists() && entityMap.Lists()[e] == [q]) ==> e !in entityMap.Lists()
      decreases fuel, 0
    {
      assert e in entityMap.Lists() && q in entityMap.Lists()[e] ==> Holds(Holdings(quadrants), q, e);
      var index := FindEntity(quadrants[q].entries, e);
      if index == -1 {
        return;
      }
      RemoveAt(q, index, fuel);
    }

    /** Entry i leaves the leaf q and q leaves its entity's list; collapse runs from the parent up. */
    method RemoveAt(q: QId, i: nat, fuel: nat)
      requires Valid() && q < |quadrants| && !quadrants[q].hasChildren && i < |quadrants[q].entries|
      modifies this, entityMap
      ensures Valid() && Extends(old(quadrants), quadrants)
      ensures old(quadrants[q].parent.None?) ==>
                var es := old(quadrants[q].entries);
                quadrants == old(quadrants)[q := old(quadrants[q]).(entries := es[..i] + es[i + 1..])]
                && entityMap.Lists() == MapRemove(old(entityMap.Lists()), es[i].entity, [q])
      ensures |entityMap.arrays| >= old(|entityMap.arrays|) && entityMap.Lists().Keys <= old(entityMap.Lists().Keys)
      ensures var e := old(quadrants[q].entries[i].entity);
              old(e in entityMap.Lists() && entityMap.Lists()[e] == [q]) ==> e !in entityMap.Lists()
    {
      var e := quadrants[q].entries[i].entity;
      Splice(q, i);
      assert old(e in entityMap.Lists() && entityMap.Lists()[e] == [q]) ==> e !in entityMap.Lists();
      var parent := quadrants[q].parent;
      if parent.Some? {
        assert NodeOk(quadrants, q);
        ghost var before := quadrants;
        BubbleCollapse(parent.value, fuel);
        ExtendsTransitive(old(quadrants), before, quadrants);
      }
    }

    /** The branch of `remove` for a quadrant with children: `remove` on each child in turn. */
    method RemoveBelow(q: QId, e: E, fuel: nat)
      requires Valid() && q < |quadrants| && quadrants[q].hasChildren && fuel > 0
      modifies this, entityMap
      ensures Valid() && Extends(old(quadrants), quadrants)
      ensures |entityMap.arrays| >= old(|entityMap.arrays|) && entityMap.Lists().Keys <= old(entityMap.Lists().Keys)
      decreases fuel, 0
    {
      var cs := quadrants[q].children;
      assert NodeOk(quadrants, q);
      for k := 0 to 4
        invariant Valid() && Extends(old(quadrants), quadrants)
        invariant |entityMap.arrays| >= old(|entityMap.arrays|) && entityMap.Lists().Keys <= old(entityMap.Lists().Keys)
      {
        ghost var before := quadrants;
        Remove(cs[k], e, fuel - 1);
        ExtendsTransitive(old(quadrants), before, quadrants);
      }
    }

    /** `_map.remove(entity, this)` and `_entries.splice(index, 1)`. */
    method Splice(q: QId, i: nat)
      requires Valid() && q < |quadrants| && i < |quadrants[q].entries|
      modifies this, entityMap
      ensures Valid()
      ensures var es := old(quadrants[q].entries);
        quadrants == old(quadrants)[q := old(quadrants[q]).(entries := es[..i] + es[i + 1..])]
        && entityMap.Lists() == MapRemove(old(entityMap.Lists()), es[i].entity, [q])
      ensures |entityMap.arrays| >= old(|entityMap.arrays|)
    {
      var es := quadrants[q].entries;
      InvSplice(quadrants, entityMap.Lists(), q, i);
      entityMap.Remove(es[i].entity, [q]);
      quadrants := quadrants[q := quadrants[q].(entries := es[..i] + es[i + 1..])];
    }

    /**
     * `bubbleCollapse(p)`: a quadrant holding at least `minEntities` distinct entities below
     * it stops the collapse; otherwise it gathers those entries, is cleared, receives them
     * again, and the collapse goes on at its parent.
     */
    method BubbleCollapse(p: QId, fuel: nat)
      requires Valid() && p < |quadrants|
      modifies this, entityMap
      ensures Valid() && Extends(old(quadrants), quadrants)
      ensures old(|Accumulate(quadrants, p, [])| >= minEntities) ==>
                quadrants == old(quadrants) && entityMap.Lists() == old(entityMap.Lists())
      ensures |entityMap.arrays| >= old(|entityMap.arrays|) && entityMap.Lists().Keys <= old(entityMap.Lists().Keys)
      decreases p
    {
      var count := EntryCount(p);
      if count >= minEntities {
        return;
      }
      var entries := AccumulateEntries(p, []);
      assert forall i :: 0 <= i < |entries| ==> entries[i].entity in entityMap.Lists() by {
        forall i | 0 <= i < |entries|
          ensures entries[i].entity in entityMap.Lists()
        {
          assert EntitiesOf(entries)[i] == entries[i].entity;
          HeldBelowListed(quadrants, entityMap.Lists(), p, entries[i].entity);
        }
      }
      Clear(p);
      for i := 0 to |entries|
        invariant Valid() && Extends(old(quadrants), quadrants)
        invariant |entityMap.arrays| >= old(|entityMap.arrays|) && entityMap.Lists().Keys <= old(entityMap.Lists().Keys)
      {
        ghost var before := quadrants;
        Insert(p, entries[i].entity, entries[i].bounds, fuel);
        ExtendsTransitive(old(quadrants), before, quadrants);
      }
      var parent := quadrants[p].parent;
      if parent.Some? {
        assert NodeOk(quadrants, p);
        ghost var before := quadrants;
        BubbleCollapse(parent.value, fuel);
        ExtendsTransitive(old(quadrants), before, quadrants);
      }
    }

    /**
     * `update(entity, newBounds)`. A quadrant lacking the entity does nothing. Otherwise the
     * entry takes the new box when one is given, and while q's region contains the box
     * nothing else happens; `Relocate` does the rest.
     */
    method Update(q: QId, e: E, newBounds: Option<Box>, fuel: nat)
      requires Valid() && q < |quadrants|
      requires newBounds.Some? ==> AABBs.Valid(newBounds.value)
      modifies this, entityMap
      ensures Valid() && Extends(old(quadrants), quadrants) && |entityMap.arrays| >= old(|entityMap.arrays|)
      ensures old(e !in EntitiesOf(quadrants[q].entries)) ==>
                quadrants == old(quadrants) && entityMap.Lists() == old(entityMap.Lists())
      ensures old(e in EntitiesOf(quadrants[q].entries)) ==>
                var es := old(quadrants[q].entries);
                var i := FindEntity(es, e);
                var nb := newBounds.GetOr(es[i].bounds);
                (Contains(old(quadrants[q].bounds), nb) || (Intersects(old(quadrants[q].bounds), nb)
                                                             && old(NoAncestorContains(quadrants, q, nb)))) ==>
                  quadrants == old(quadrants)[q := old(quadrants[q]).(entries := es[i := es[i].(bounds := nb)])]
                  && entityMap.Lists() == old(entityMap.Lists())
    {
      var index := FindEntity(quadrants[q].entries, e);
      if index == -1 {
        return;
      }
      var nb := if newBounds.Some? then newBounds.value else quadrants[q].entries[index].bounds;
      if Contains(quadrants[q].bounds, nb) {
        if newBounds.Some? {
          ContainsValidImpliesIntersects(quadrants[q].bounds, nb);
        }
        Rebound(q, index, nb);
        return;
      }
      Relocate(q, index, nb, fuel);
    }

    /**
     * The rest of `update` for entry i of q, whose new box nb q's region does not contain: if
     * the box misses the region the entity is removed from q, otherwise the entry takes the
     * box; then the entry goes to the nearest ancestor whose region contains nb, if any.
     */
    method Relocate(q: QId, i: nat, nb: Box, fuel: nat)
      requires Valid() && q < |quadrants| && i < |quadrants[q].entries|
      modifies this, entityMap
      ensures Valid() && Extends(old(quadrants), quadrants) && |entityMap.arrays| >= old(|entityMap.arrays|)
      ensures old(Intersects(quadrants[q].bounds, nb) && NoAncestorContains(quadrants, q, nb)) ==>
                var es := old(quadrants[q].entries);
                quadrants == old(quadrants)[q := old(quadrants[q]).(entries := es[i := es[i].(bounds := nb)])]
                && entityMap.Lists() == old(entityMap.Lists())
    {
      var entry := quadrants[q].entries[i].(bounds := nb);
      var parent := quadrants[q].parent;
      assert NodeOk(quadrants, q);
      if !Intersects(quadrants[q].bounds, nb) {
        Remove(q, entry.entity, fuel);
      } else {
        Rebound(q, i, nb);
      }
      if parent.Some? {
        ghost var before := quadrants;
        NearestContainingExtends(old(quadrants), before, parent.value, nb);
        BubbleInsert(parent.value, entry, fuel);
        ExtendsTransitive(old(quadrants), before, quadrants);
      }
    }

    /** `entry.bounds = ...` for an entry whose new box still meets q's region. */
    method Rebound(q: QId, i: nat, nb: Box)
      requires Valid() && q < |quadrants| && i < |quadrants[q].entries|
      requires Intersects(quadrants[q].bounds, nb)
      modifies this
      ensures Valid()
      ensures var es := old(quadrants[q].entries);
        quadrants == old(quadrants)[q := old(quadrants[q]).(entries := es[i := es[i].(bounds := nb)])]
    {
      var es := quadrants[q].entries;
      InvRebound(quadrants, entityMap.Lists(), q, i, nb);
      quadrants := quadrants[q := quadrants[q].(entries := es[i := es[i].(bounds := nb)])];
    }

    /**
     * `bubbleInsert(p, entry)`: the entry is inserted at the nearest of p and its ancestors
     * whose region contains its box, and nowhere when none does.
     */
    method BubbleInsert(p: QId, x: Entry<E>, fuel: nat)
      requires Valid() && p < |quadrants|
      modifies this, entityMap
      ensures Valid() && Grows(old(quadrants), quadrants) && |entityMap.arrays| >= old(|entityMap.arrays|)
      ensures NearestContaining(old(quadrants), p, x.bounds).None? ==>
                quadrants == old(quadrants) && entityMap.Lists() == old(entityMap.Lists())
      ensures NearestContaining(old(quadrants), p, x.bounds).Some? ==>
                forall r :: 0 <= r < NearestContaining(old(quadrants), p, x.bounds).value ==>
                  quadrants[r] == old(quadrants[r])
      decreases p
    {
      if Contains(quadrants[p].bounds, x.bounds) {
        Insert(p, x.entity, x.bounds, fuel);
        return;
      }
      assert NodeOk(quadrants, p);
      var parent := quadrants[p].parent;
      if parent.Some? {
        BubbleInsert(parent.value, x, fuel);
      }
    }
  }
}
