/**
 * The public face of the region quadtree (src/graph/quadtree/Quadtree.ts): argument checks,
 * then delegation to the root quadrant or to the quadrants the map lists for an entity.
 *
 * An entity argument is an `Option<E>`: `None` stands for every value the source rejects
 * with `!entity` (undefined, null and the other falsy values).
 */
module Quadtrees {
  import opened Wrappers
  import opened AABBs
  import opened QuadtreeMaps
  import opened Quadrants
  import opened QuadrantArena

  /** The constructor's defaults: a minimum equal to the maximum, which its own check rejects. */
  const DefaultMinEntities: int := 3
  const DefaultMaxEntities: int := 3

  const InvalidBounds := "Quadtree boundaries must be valid"
  const InvalidThresholds := "Minimum entities must be above zero and less than the maximum"
  const UndefinedEntity := "Entity must be defined"
  const InvalidEntityBounds := "Entity boundaries must be valid"
  const InvalidNewBounds := "Entity's new boundaries must be valid"

  /** The constructor's checks, in order: a valid region, then 0 < minimum < maximum. */
  function CheckSettings(bounds: Box, minEntities: int, maxEntities: int): (r: Outcome<string>)
    ensures r.Pass? <==> AABBs.Valid(bounds) && 0 < minEntities < maxEntities
    ensures !AABBs.Valid(bounds) ==> r == Fail(InvalidBounds)
  {
    if !AABBs.Valid(bounds) then Fail(InvalidBounds)
    else if minEntities <= 0 || minEntities >= maxEntities then Fail(InvalidThresholds)
    else Pass
  }

  /** A tree built with both default thresholds is refused whatever its region. */
  lemma DefaultsRejected(bounds: Box)
    ensures CheckSettings(bounds, DefaultMinEntities, DefaultMaxEntities).Fail?
  {
  }

  /**
   * The for-of loop of `remove` over the array `get` returned, when each visit splices the
   * visited quadrant out of that same array: the quadrants visited from position i on.
   */
  function LiveVisits(a: seq<QId>, i: nat): (v: seq<QId>)
    ensures v != [] ==> i < |a| && forall x :: x in v ==> x in a[i..]
    decreases |a| - i
  {
    if i < |a| then
      var rest := a[..i] + a[i + 1..];
      var v' := LiveVisits(rest, i + 1);
      assert forall x :: x in v' ==> x in a[i + 1..] by {
        forall x | x in v'
          ensures x in a[i + 1..]
        {
          var k :| i + 1 <= k < |rest| && rest[k] == x;
          assert a[k + 1] == x;
        }
      }
      [a[i]] + v'
    else []
  }

  /** With two or more holders, the second is never visited by the live loop. */
  lemma LiveVisitsSkipsSecond(a: seq<QId>)
    requires NoDup(a) && |a| >= 2
    ensures a[1] !in LiveVisits(a, 0)
  {
    var rest := a[1..];
    assert a[..0] + a[1..] == rest;
    assert LiveVisits(a, 0) == [a[0]] + LiveVisits(rest, 1);
    assert a[1] !in rest[1..] by {
      forall k | 1 <= k < |rest|
        ensures rest[k] != a[1]
      {
        assert a[k + 1] != a[1];
      }
    }
  }

  /**
   * The trace of a for-of loop over an array that may change while it runs: `seen[k]` is the
   * array just before the k-th step, and that step read its element at position k.
   */
  ghost predicate LiveTrace(seen: seq<seq<QId>>, visited: seq<QId>) {
    |seen| == |visited| + 1 && forall k :: 0 <= k < |visited| ==> k < |seen[k]| && visited[k] == seen[k][k]
  }

  /** Each step of the trace spliced the element it read, and nothing else, out of the array. */
  ghost predicate EachVisitSplices(seen: seq<seq<QId>>, visited: seq<QId>)
    requires LiveTrace(seen, visited)
  {
    forall k :: 0 <= k < |visited| ==> seen[k + 1] == seen[k][..k] + seen[k][k + 1..]
  }

  /**
   * A trace whose steps each splice out the element they read visits a prefix of `LiveVisits`,
   * and all of it once the loop has run past the end of the array.
   */
  lemma {:induction false} LiveTraceVisits(seen: seq<seq<QId>>, visited: seq<QId>, j: nat)
    requires LiveTrace(seen, visited) && EachVisitSplices(seen, visited) && j <= |visited|
    ensures visited[j..] <= LiveVisits(seen[j], j)
    ensures |visited| >= |seen[|visited|]| ==> visited[j..] == LiveVisits(seen[j], j)
    decreases |visited| - j
  {
    if j < |visited| {
      LiveTraceVisits(seen, visited, j + 1);
      assert LiveVisits(seen[j], j) == [visited[j]] + LiveVisits(seen[j + 1], j + 1);
      assert visited[j..] == [visited[j]] + visited[j + 1..];
    }
  }

  /** `intersections`: each listed quadrant's `intersections`, concatenated in list order. */
  function Gathered<E(==)>(qs: seq<Quadrant<E>>, hs: seq<QId>, e: E): seq<E>
    requires forall k :: 0 <= k < |hs| ==> hs[k] < |qs|
  {
    if hs == [] then []
    else Gathered(qs, hs[..|hs| - 1], e) + OthersMeeting(qs[hs[|hs| - 1]].entries, e)
  }

  /** No quadrant reports the entity as meeting itself, so neither does the tree. */
  lemma {:induction false} GatheredExcludesSelf<E>(qs: seq<Quadrant<E>>, hs: seq<QId>, e: E)
    requires WellFormed(qs) && forall k :: 0 <= k < |hs| ==> hs[k] < |qs|
    ensures e !in Gathered(qs, hs, e)
  {
    if hs != [] {
      GatheredExcludesSelf(qs, hs[..|hs| - 1], e);
      assert NodeOk(qs, hs[|hs| - 1]);
      OthersMeetingExcludesSelf(qs[hs[|hs| - 1]].entries, e);
    }
  }

  /** Quadrant h of the arena reports x as meeting e. */
  predicate Reports<E(==)>(qs: seq<Quadrant<E>>, h: int, e: E, x: E) {
    0 <= h < |qs| && x in OthersMeeting(qs[h].entries, e)
  }

  /** What the tree reports for an entity is exactly what the quadrants it lists report. */
  lemma {:induction false} GatheredMembers<E>(qs: seq<Quadrant<E>>, hs: seq<QId>, e: E, x: E)
    requires forall k :: 0 <= k < |hs| ==> hs[k] < |qs|
    ensures x in Gathered(qs, hs, e) <==> exists k :: 0 <= k < |hs| && Reports(qs, hs[k], e, x)
  {
    if hs != [] {
      var init := hs[..|hs| - 1];
      GatheredMembers(qs, init, e, x);
      assert Gathered(qs, hs, e) == Gathered(qs, init, e) + OthersMeeting(qs[hs[|hs| - 1]].entries, e);
      if x in Gathered(qs, hs, e) {
        if x in Gathered(qs, init, e) {
          var k :| 0 <= k < |init| && Reports(qs, init[k], e, x);
          assert hs[k] == init[k];
        } else {
          assert Reports(qs, hs[|hs| - 1], e, x);
        }
      } else {
        forall k | 0 <= k < |hs|
          ensures !Reports(qs, hs[k], e, x)
        {
          if k < |init| {
            assert hs[k] == init[k];
          }
        }
      }
    }
  }

  /** Every quadrant the map lists lies in the arena. */
  lemma ListedInArena<E>(qs: seq<Quadrant<E>>, m: map<E, seq<QId>>, e: E)
    requires Inv(qs, m) && e in m
    ensures forall k :: 0 <= k < |m[e]| ==> m[e][k] < |qs|
  {
    forall k | 0 <= k < |m[e]|
      ensures m[e][k] < |qs|
    {
      assert Holds(Holdings(qs), m[e][k], e);
    }
  }

  class Quadtree<E(==)> {
    /** The root quadrant is `arena.quadrants[0]`; `arena.entityMap` is the tree's map. */
    const arena: Arena<E>

    ghost predicate Valid()
      reads this, arena, arena.entityMap
    {
      arena.Valid() && 0 < arena.minEntities < arena.maxEntities
    }

    /** The constructor once its checks have passed: a lone empty root and an empty map. */
    constructor (bounds: Box, minEntities: int, maxEntities: int)
      requires CheckSettings(bounds, minEntities, maxEntities).Pass?
      ensures Valid() && fresh(arena) && fresh(arena.entityMap)
      ensures arena.quadrants == [NewQuadrant(bounds, None)] && arena.entityMap.Lists() == map[]
      ensures arena.minEntities == minEntities && arena.maxEntities == maxEntities
    {
      arena := new Arena(bounds, minEntities, maxEntities);
    }

    /** `contains`: the map has a key for the entity, that is, some quadrant holds it. */
    function Contains(entity: E): (b: bool)
      reads this, arena, arena.entityMap
      requires Valid()
      ensures b <==> exists q :: Holds(Holdings(arena.quadrants), q, entity)
    {
      var m := arena.entityMap.Lists();
      if arena.entityMap.Exists(entity) then
        assert Holds(Holdings(arena.quadrants), m[entity][0], entity);
        true
      else
        false
    }

    /** `insert`: the checks, then the root's `insert`. */
    method Insert(entity: Option<E>, bounds: Box, fuel: nat) returns (r: Outcome<string>)
      requires Valid()
      modifies arena, arena.entityMap
      ensures Valid() && Grows(old(arena.quadrants), arena.quadrants)
      ensures entity.None? ==> r == Fail(UndefinedEntity)
      ensures entity.Some? && !AABBs.Valid(bounds) ==> r == Fail(InvalidEntityBounds)
      ensures r.Fail? ==>
                arena.quadrants == old(arena.quadrants) && arena.entityMap.Lists() == old(arena.entityMap.Lists())
      ensures r.Pass? <==> entity.Some? && AABBs.Valid(bounds)
      ensures r.Pass? && fuel > 0 && old(Intersects(arena.quadrants[0].bounds, bounds) && !arena.quadrants[0].hasChildren
                                         && entity.value !in EntitiesOf(arena.quadrants[0].entries)
                                         && |arena.quadrants[0].entries| <= arena.maxEntities) ==>
                arena.quadrants == old(arena.quadrants)[0 := old(arena.quadrants[0]).(entries := old(arena.quadrants[0].entries) + [Entry(entity.value, bounds)])]
                && arena.entityMap.Lists() == MapInsert(old(arena.entityMap.Lists()), entity.value, [0])
    {
      if entity.None? {
        return Fail(UndefinedEntity);
      }
      if !AABBs.Valid(bounds) {
        return Fail(InvalidEntityBounds);
      }
      arena.Insert(0, entity.value, bounds, fuel);
      r := Pass;
    }

    /**
     * `remove`: the checks, then `remove` on each quadrant of the array `get` returns, read by
     * position while the calls splice quadrants out of that same array and push others on.
     * `h` is the array's handle, `seen[k]` the array before the k-th call and `visited` the
     * quadrants called. The loop also stops after `fuel` calls.
     */
    method Remove(entity: Option<E>, fuel: nat) returns (r: Outcome<string>, ghost visited: seq<QId>, ghost seen: seq<seq<QId>>)
      requires Valid()
      modifies arena, arena.entityMap
      ensures Valid() && Extends(old(arena.quadrants), arena.quadrants)
      ensures r.Fail? <==> entity.None?
      ensures entity.None? ==> r == Fail(UndefinedEntity)
      ensures entity.None? || entity.value !in old(arena.entityMap.Lists()) ==>
                arena.quadrants == old(arena.quadrants) && arena.entityMap.Lists() == old(arena.entityMap.Lists())
      ensures entity.Some? && entity.value in old(arena.entityMap.Lists()) ==>
                var h := old(arena.entityMap.keys[entity.value]);
                h < |arena.entityMap.arrays| && LiveTrace(seen, visited)
                && seen[0] == old(arena.entityMap.Lists()[entity.value]) && seen[|visited|] == arena.entityMap.arrays[h]
                && (|visited| >= |seen[|visited|]| || |visited| == fuel)
                && (EachVisitSplices(seen, visited) ==>
                      visited <= LiveVisits(seen[0], 0) && (|visited| < fuel ==> visited == LiveVisits(seen[0], 0)))
      ensures entity.Some? && fuel > 0 && old(entity.value in arena.entityMap.Lists() && |arena.entityMap.Lists()[entity.value]| == 1) ==>
                entity.value !in arena.entityMap.Lists()
    {
      visited, seen := [], [];
      if entity.None? {
        return Fail(UndefinedEntity), visited, seen;
      }
      var e := entity.value;
      r := Pass;
      var handle := arena.entityMap.Get(e);
      if handle.None? {
        return;
      }
      var h := handle.value;
      ghost var single := |arena.entityMap.arrays[h]| == 1;
      seen := [arena.entityMap.arrays[h]];
      var i := 0;
      while i < fuel && i < |arena.entityMap.arrays[h]|
        invariant Valid() && Extends(old(arena.quadrants), arena.quadrants)
        invariant h < |arena.entityMap.arrays| && i <= fuel
        invariant |visited| == i && LiveTrace(seen, visited)
        invariant seen[0] == old(arena.entityMap.Lists()[e]) && seen[i] == arena.entityMap.arrays[h]
        invariant arena.entityMap.Lists().Keys <= old(arena.entityMap.Lists().Keys)
        invariant i == 0 ==> arena.entityMap.Lists() == old(arena.entityMap.Lists())
        invariant single && i > 0 ==> e !in arena.entityMap.Lists()
        decreases fuel - i
      {
        var q := arena.entityMap.arrays[h][i];
        assert q in arena.entityMap.arrays[h];
        RemoveHolder(q, e, fuel);
        visited := visited + [q];
        seen := seen + [arena.entityMap.arrays[h]];
        i := i + 1;
      }
      if EachVisitSplices(seen, visited) {
        LiveTraceVisits(seen, visited, 0);
      }
    }

    /**
     * The body of the loops of `remove`: `remove` on quadrant q. The map gains no key, and an
     * entity listed for q alone is gone afterwards.
     */
    method RemoveHolder(q: QId, e: E, fuel: nat)
      requires Valid() && q < |arena.quadrants|
      modifies arena, arena.entityMap
      ensures Valid() && Extends(old(arena.quadrants), arena.quadrants)
      ensures |arena.entityMap.arrays| >= old(|arena.entityMap.arrays|)
      ensures arena.entityMap.Lists().Keys <= old(arena.entityMap.Lists().Keys)
      ensures old(fuel > 0 && e in arena.entityMap.Lists() && arena.entityMap.Lists()[e] == [q]) ==>
                e !in arena.entityMap.Lists()
    {
      arena.Remove(q, e, fuel);
    }

    /**
     * `update`: the checks, then `update` on each quadrant of the array `get` returns, read by
     * position while the calls splice quadrants out of that same array and push others on.
     * `seen[k]` is the array before the k-th call and `visited` the quadrants called. The loop
     * also stops after `fuel` calls.
     */
    method Update(entity: Option<E>, newBounds: Option<Box>, fuel: nat) returns (r: Outcome<string>, ghost visited: seq<QId>, ghost seen: seq<seq<QId>>)
      requires Valid()
      modifies arena, arena.entityMap
      ensures Valid() && Extends(old(arena.quadrants), arena.quadrants)
      ensures entity.None? ==> r == Fail(UndefinedEntity)
      ensures entity.Some? && newBounds.Some? && !AABBs.Valid(newBounds.value) ==> r == Fail(InvalidNewBounds)
      ensures r.Pass? <==> entity.Some? && (newBounds.Some? ==> AABBs.Valid(newBounds.value))
      ensures r.Fail? || entity.value !in old(arena.entityMap.Lists()) ==>
                arena.quadrants == old(arena.quadrants) && arena.entityMap.Lists() == old(arena.entityMap.Lists())
      ensures r.Pass? && entity.value in old(arena.entityMap.Lists()) ==>
                var h := old(arena.entityMap.keys[entity.value]);
                h < |arena.entityMap.arrays| && LiveTrace(seen, visited)
                && seen[0] == old(arena.entityMap.Lists()[entity.value]) && seen[|visited|] == arena.entityMap.arrays[h]
                && (|visited| >= |seen[|visited|]| || |visited| == fuel)
                && (EachVisitSplices(seen, visited) ==>
                      visited <= LiveVisits(seen[0], 0) && (|visited| < fuel ==> visited == LiveVisits(seen[0], 0)))
    {
      visited, seen := [], [];
      if entity.None? {
        return Fail(UndefinedEntity), visited, seen;
      }
      if newBounds.Some? && !AABBs.Valid(newBounds.value) {
        return Fail(InvalidNewBounds), visited, seen;
      }
      var e := entity.value;
      r := Pass;
      var handle := arena.entityMap.Get(e);
      if handle.None? {
        return;
      }
      var h := handle.value;
      seen := [arena.entityMap.arrays[h]];
      var i := 0;
      while i < fuel && i < |arena.entityMap.arrays[h]|
        invariant Valid() && Extends(old(arena.quadrants), arena.quadrants)
        invariant h < |arena.entityMap.arrays| && i <= fuel
        invariant |visited| == i && LiveTrace(seen, visited)
        invariant seen[0] == old(arena.entityMap.Lists()[e]) && seen[i] == arena.entityMap.arrays[h]
        decreases fuel - i
      {
        ghost var before := arena.quadrants;
        var q := arena.entityMap.arrays[h][i];
        assert q in arena.entityMap.arrays[h];
        UpdateHolder(q, e, newBounds, fuel);
        ExtendsTransitive(old(arena.quadrants), before, arena.quadrants);
        visited := visited + [q];
        seen := seen + [arena.entityMap.arrays[h]];
        i := i + 1;
      }
      if EachVisitSplices(seen, visited) {
        LiveTraceVisits(seen, visited, 0);
      }
    }

    /** The body of the loops of `update`: `update` on quadrant q. */
    method UpdateHolder(q: QId, e: E, newBounds: Option<Box>, fuel: nat)
      requires Valid() && q < |arena.quadrants|
      requires newBounds.Some? ==> AABBs.Valid(newBounds.value)
      modifies arena, arena.entityMap
      ensures Valid() && Extends(old(arena.quadrants), arena.quadrants)
      ensures |arena.entityMap.arrays| >= old(|arena.entityMap.arrays|)
    {
      arena.Update(q, e, newBounds, fuel);
    }

    /**
     * `remove` as evidently intended: the checks, then `remove` on each quadrant listed for the
     * entity, from a copy of the list taken before the first call; `visited` is the quadrants
     * called, in order, which are all the quadrants listed at the start.
     */
    method RemoveFromCopy(entity: Option<E>, fuel: nat) returns (r: Outcome<string>, ghost visited: seq<QId>)
      requires Valid()
      modifies arena, arena.entityMap
      ensures Valid() && Extends(old(arena.quadrants), arena.quadrants)
      ensures r.Fail? <==> entity.None?
      ensures entity.None? ==> r == Fail(UndefinedEntity)
      ensures entity.None? || entity.value !in old(arena.entityMap.Lists()) ==>
                arena.quadrants == old(arena.quadrants) && arena.entityMap.Lists() == old(arena.entityMap.Lists())
      ensures entity.Some? && entity.value in old(arena.entityMap.Lists()) ==>
                visited == old(arena.entityMap.Lists()[entity.value])
      ensures entity.Some? && fuel > 0 && old(entity.value in arena.entityMap.Lists() && |arena.entityMap.Lists()[entity.value]| == 1) ==>
                entity.value !in arena.entityMap.Lists()
    {
      visited := [];
      if entity.None? {
        return Fail(UndefinedEntity), visited;
      }
      var e := entity.value;
      r := Pass;
      var handle := arena.entityMap.Get(e);
      if handle.None? {
        return;
      }
      var holders := arena.entityMap.arrays[handle.value];
      ListedInArena(arena.quadrants, arena.entityMap.Lists(), e);
      for i := 0 to |holders|
        invariant Valid() && Extends(old(arena.quadrants), arena.quadrants)
        invariant visited == holders[..i]
        invariant arena.entityMap.Lists().Keys <= old(arena.entityMap.Lists().Keys)
        invariant i == 0 ==> arena.entityMap.Lists() == old(arena.entityMap.Lists())
        invariant fuel > 0 && |holders| == 1 && i > 0 ==> e !in arena.entityMap.Lists()
      {
        ghost var before := arena.quadrants;
        RemoveHolder(holders[i], e, fuel);
        ExtendsTransitive(old(arena.quadrants), before, arena.quadrants);
        visited := visited + [holders[i]];
      }
      assert holders[..|holders|] == holders;
    }

    /**
     * `update` as evidently intended: the checks, then `update` on each quadrant listed for the
     * entity, from a copy of the list taken before the first call; `visited` is the quadrants
     * called, in order, which are all the quadrants listed at the start.
     */
    method UpdateFromCopy(entity: Option<E>, newBounds: Option<Box>, fuel: nat) returns (r: Outcome<string>, ghost visited: seq<QId>)
      requires Valid()
      modifies arena, arena.entityMap
      ensures Valid() && Extends(old(arena.quadrants), arena.quadrants)
      ensures entity.None? ==> r == Fail(UndefinedEntity)
      ensures entity.Some? && newBounds.Some? && !AABBs.Valid(newBounds.value) ==> r == Fail(InvalidNewBounds)
      ensures r.Pass? <==> entity.Some? && (newBounds.Some? ==> AABBs.Valid(newBounds.value))
      ensures r.Fail? || entity.value !in old(arena.entityMap.Lists()) ==>
                arena.quadrants == old(arena.quadrants) && arena.entityMap.Lists() == old(arena.entityMap.Lists())
      ensures r.Pass? && entity.value in old(arena.entityMap.Lists()) ==>
                visited == old(arena.entityMap.Lists()[entity.value])
    {
      visited := [];
      if entity.None? {
        return Fail(UndefinedEntity), visited;
      }
      if newBounds.Some? && !AABBs.Valid(newBounds.value) {
        return Fail(InvalidNewBounds), visited;
      }
      var e := entity.value;
      r := Pass;
      var handle := arena.entityMap.Get(e);
      if handle.None? {
        return;
      }
      var holders := arena.entityMap.arrays[handle.value];
      ListedInArena(arena.quadrants, arena.entityMap.Lists(), e);
      for i := 0 to |holders|
        invariant Valid() && Extends(old(arena.quadrants), arena.quadrants)
        invariant visited == holders[..i]
      {
        ghost var before := arena.quadrants;
        UpdateHolder(holders[i], e, newBounds, fuel);
        ExtendsTransitive(old(arena.quadrants), before, arena.quadrants);
        visited := visited + [holders[i]];
      }
      assert holders[..|holders|] == holders;
    }

    /**
     * `intersections`: every other entity whose box meets the entity's box in a quadrant that
     * holds it, quadrant by quadrant, never the entity itself; empty for an unknown entity.
     */
    method Intersections(entity: Option<E>) returns (r: Result<seq<E>, string>)
      requires Valid()
      ensures entity.None? ==> r == Failure(UndefinedEntity)
      ensures entity.Some? && entity.value !in arena.entityMap.Lists() ==> r == Success([])
      ensures entity.Some? && entity.value in arena.entityMap.Lists() ==>
                (forall k :: 0 <= k < |arena.entityMap.Lists()[entity.value]| ==>
                   arena.entityMap.Lists()[entity.value][k] < |arena.quadrants|)
                && r == Success(Gathered(arena.quadrants, arena.entityMap.Lists()[entity.value], entity.value))
      ensures r.Success? ==> entity.Some? && entity.value !in r.value
    {
      if entity.None? {
        return Failure(UndefinedEntity);
      }
      var e := entity.value;
      var handle := arena.entityMap.Get(e);
      if handle.None? {
        return Success([]);
      }
      var holders := arena.entityMap.arrays[handle.value];
      ListedInArena(arena.quadrants, arena.entityMap.Lists(), e);
      var found: seq<E> := [];
      for i := 0 to |holders|
        invariant found == Gathered(arena.quadrants, holders[..i], e)
      {
        var more := arena.Intersections(holders[i], e);
        assert holders[..i + 1][..i] == holders[..i];
        found := found + more;
      }
      assert holders[..|holders|] == holders;
      GatheredExcludesSelf(arena.quadrants, holders, e);
      r := Success(found);
    }

    /**
     * `clear`: the root's `clear`. Every quadrant of the root's old subtree is left an empty
     * leaf, and an entity stays listed only for quadrants that held it before and that a
     * collapse had already detached from that subtree.
     */
    method Clear()
      requires Valid()
      modifies arena, arena.entityMap
      ensures Valid() && Extends(old(arena.quadrants), arena.quadrants)
      ensures |arena.quadrants| == |old(arena.quadrants)| && EmptyLeaf(arena.quadrants[0])
      ensures forall p :: 0 <= p < |old(arena.quadrants)| && old(Descends(arena.quadrants, p, 0)) ==>
                EmptyLeaf(arena.quadrants[p])
      ensures forall p :: 0 <= p < |old(arena.quadrants)| && arena.quadrants[p] != old(arena.quadrants[p]) ==>
                EmptyLeaf(arena.quadrants[p])
      ensures arena.entityMap.Lists().Keys <= old(arena.entityMap.Lists().Keys)
      ensures forall e, p :: e in arena.entityMap.Lists() && p in arena.entityMap.Lists()[e] ==>
                e in old(arena.entityMap.Lists()) && p in old(arena.entityMap.Lists()[e])
                && p < |old(arena.quadrants)| && !old(Descends(arena.quadrants, p, 0))
      ensures forall e :: e in old(arena.entityMap.Lists())
                && (forall p :: p in old(arena.entityMap.Lists()[e]) ==>
                      p < |old(arena.quadrants)| && old(Descends(arena.quadrants, p, 0)))
                ==> e !in arena.entityMap.Lists()
      ensures !old(arena.quadrants[0].hasChildren) ==>
                arena.quadrants == old(arena.quadrants)[0 := old(arena.quadrants[0]).(entries := [])]
    {
      ghost var before := Holdings(arena.quadrants);
      arena.Clear(0);
      forall e, p | e in arena.entityMap.Lists() && p in arena.entityMap.Lists()[e]
        ensures e in old(arena.entityMap.Lists()) && p in old(arena.entityMap.Lists()[e])
        ensures p < |old(arena.quadrants)| && !old(Descends(arena.quadrants, p, 0))
      {
        assert Holds(Holdings(arena.quadrants), p, e);
        assert arena.quadrants[p] == old(arena.quadrants[p]);
        assert Holds(before, p, e);
      }
      forall e | e in arena.entityMap.Lists()
        ensures exists p :: p in old(arena.entityMap.Lists()[e])
                  && p < |old(arena.quadrants)| && !old(Descends(arena.quadrants, p, 0))
      {
        var p := arena.entityMap.Lists()[e][0];
        assert p in arena.entityMap.Lists()[e];
      }
    }
  }

  /** `new Quadtree(bounds, minEntities?, maxEntities?)`: the defaults fill in what is absent. */
  method Create<E(==)>(bounds: Box, minEntities: Option<int>, maxEntities: Option<int>) returns (r: Result<Quadtree<E>, string>)
    ensures var check := CheckSettings(bounds, minEntities.GetOr(DefaultMinEntities), maxEntities.GetOr(DefaultMaxEntities));
            (check.Fail? ==> r == Failure(check.error))
            && (check.Pass? ==> r.Success? && fresh(r.value) && r.value.Valid()
                                && r.value.arena.quadrants == [NewQuadrant(bounds, None)]
                                && r.value.arena.entityMap.Lists() == map[])
  {
    var lo := minEntities.GetOr(DefaultMinEntities);
    var hi := maxEntities.GetOr(DefaultMaxEntities);
    var check := CheckSettings(bounds, lo, hi);
    if check.Fail? {
      return Failure(check.error);
    }
    var tree := new Quadtree(bounds, lo, hi);
    r := Success(tree);
  }
}
