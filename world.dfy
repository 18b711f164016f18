/**
 * The world (src/physics/World.ts): the list of bodies and the quadtree that indexes them.
 *
 * A body is an opaque entity `B` compared by identity; the box it is indexed with, its
 * shape's bounding box, is passed in with it. The tree is built with a minimum of 3 and a
 * maximum of 4 entries per quadrant.
 */
module Worlds {
  import opened Wrappers
  import opened AABBs
  import opened QuadtreeMaps
  import opened Quadrants
  import opened Quadtrees

  const WorldMinEntities: int := 3
  const WorldMaxEntities: int := 4

  /** `add` followed by `remove` of a body not yet in the list gives the list back. */
  lemma {:induction false} AddThenRemove<B>(bodies: seq<B>, body: B)
    requires body !in bodies
    ensures RemoveFirst(bodies + [body], body) == bodies
  {
    var s := bodies + [body];
    var i := IndexOf(s, body);
    assert s[|bodies|] == body;
    assert i == |bodies|;
    assert s[..i] == bodies;
  }

  /** `remove` takes out exactly one occurrence of the body and keeps every other body. */
  lemma RemoveKeepsOthers<B>(bodies: seq<B>, body: B)
    requires body in bodies
    ensures multiset(RemoveFirst(bodies, body)) == multiset(bodies) - multiset{body}
    ensures |RemoveFirst(bodies, body)| == |bodies| - 1
  {
    RemoveFirstCounts(bodies, body);
  }

  /**
   * `new World(aabb)` with the tree's own check in front: an invalid region is refused with
   * the `Quadtree` constructor's message, a valid one gives an empty world.
   */
  method Create<B(==)>(aabb: Box) returns (r: Result<World<B>, string>)
    ensures !AABBs.Valid(aabb) <==> r == Failure(InvalidBounds)
    ensures r.Success? ==> fresh(r.value) && r.value.Valid() && r.value.bodies == []
                           && r.value.tree.arena.quadrants == [NewQuadrant(aabb, None)]
                           && r.value.tree.arena.entityMap.Lists() == map[]
  {
    var check := CheckSettings(aabb, WorldMinEntities, WorldMaxEntities);
    if check.Fail? {
      return Failure(check.error);
    }
    var world := new World(aabb);
    r := Success(world);
  }

  class World<B(==)> {
    /** `bodies`: the current list, in the order the bodies were added. */
    var bodies: seq<B>
    const tree: Quadtree<B>

    ghost predicate Valid()
      reads this, tree, tree.arena, tree.arena.entityMap
    {
      tree.Valid()
    }

    /** A world over a valid region: no bodies and an empty tree. */
    constructor (aabb: Box)
      requires AABBs.Valid(aabb)
      ensures Valid() && bodies == [] && fresh(tree) && fresh(tree.arena) && fresh(tree.arena.entityMap)
      ensures tree.arena.quadrants == [NewQuadrant(aabb, None)] && tree.arena.entityMap.Lists() == map[]
      ensures tree.arena.minEntities == WorldMinEntities && tree.arena.maxEntities == WorldMaxEntities
    {
      bodies := [];
      tree := new Quadtree(aabb, WorldMinEntities, WorldMaxEntities);
    }

    /**
     * `add`: the body goes at the end of the list, then into the tree with its box; a box the
     * tree refuses leaves the body in the list and the tree as it was.
     */
    method Add(body: B, box: Box, fuel: nat) returns (r: Outcome<string>)
      requires Valid()
      modifies this, tree.arena, tree.arena.entityMap
      ensures Valid() && bodies == old(bodies) + [body]
      ensures Grows(old(tree.arena.quadrants), tree.arena.quadrants)
      ensures r.Pass? <==> AABBs.Valid(box)
      ensures r.Fail? ==>
                tree.arena.quadrants == old(tree.arena.quadrants)
                && tree.arena.entityMap.Lists() == old(tree.arena.entityMap.Lists())
      ensures r.Pass? && fuel > 0 && old(Intersects(tree.arena.quadrants[0].bounds, box) && !tree.arena.quadrants[0].hasChildren
                                         && body !in EntitiesOf(tree.arena.quadrants[0].entries)
                                         && |tree.arena.quadrants[0].entries| <= tree.arena.maxEntities) ==>
                tree.arena.quadrants == old(tree.arena.quadrants)[0 := old(tree.arena.quadrants[0]).(entries := old(tree.arena.quadrants[0].entries) + [Entry(body, box)])]
                && tree.arena.entityMap.Lists() == MapInsert(old(tree.arena.entityMap.Lists()), body, [0])
    {
      bodies := bodies + [body];
      r := tree.Insert(Some(body), box, fuel);
    }

    /**
     * `remove`: false and nothing changes for a body not in the list; otherwise its first
     * occurrence leaves the list, the tree removes it from every quadrant listing it, and
     * the answer is true.
     */
    method Remove(body: B, fuel: nat) returns (found: bool)
      requires Valid()
      modifies this, tree.arena, tree.arena.entityMap
      ensures Valid() && Extends(old(tree.arena.quadrants), tree.arena.quadrants)
      ensures found <==> body in old(bodies)
      ensures bodies == RemoveFirst(old(bodies), body)
      ensures !found || body !in old(tree.arena.entityMap.Lists()) ==>
                tree.arena.quadrants == old(tree.arena.quadrants)
                && tree.arena.entityMap.Lists() == old(tree.arena.entityMap.Lists())
      ensures found && fuel > 0 && old(body in tree.arena.entityMap.Lists() && |tree.arena.entityMap.Lists()[body]| == 1) ==>
                body !in tree.arena.entityMap.Lists()
    {
      var index := IndexOf(bodies, body);
      if index == -1 {
        return false;
      }
      bodies := bodies[..index] + bodies[index + 1..];
      var _, _, _ := tree.Remove(Some(body), fuel);
      found := true;
    }

    /**
     * `clear`: no bodies, and the tree's root an empty leaf. A body that only quadrants of the
     * root's subtree held is gone from the tree.
     */
    method Clear()
      requires Valid()
      modifies this, tree.arena, tree.arena.entityMap
      ensures Valid() && bodies == []
      ensures Extends(old(tree.arena.quadrants), tree.arena.quadrants)
      ensures EmptyLeaf(tree.arena.quadrants[0])
      ensures tree.arena.entityMap.Lists().Keys <= old(tree.arena.entityMap.Lists().Keys)
      ensures forall b :: b in old(tree.arena.entityMap.Lists())
                && (forall p :: p in old(tree.arena.entityMap.Lists()[b]) ==>
                      p < |old(tree.arena.quadrants)| && old(Descends(tree.arena.quadrants, p, 0)))
                ==> b !in tree.arena.entityMap.Lists()
    {
      bodies := [];
      tree.Clear();
    }
  }
}
