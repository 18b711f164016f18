/**
 * The side map of a quadtree (src/graph/quadtree/QuadtreeMap.ts): for every entity, the
 * array of quadrants that hold it. Quadrants are named by their index in the tree's arena.
 *
 * `get` hands out the stored array itself, and the tree loops over that array while the
 * loop body pushes onto it and splices it. To keep that aliasing visible, the arrays live in
 * a store indexed by handle: `keys` maps an entity to the handle of its current array, and
 * an array whose key was deleted stays in the store unchanged, as the JavaScript array
 * survives while a loop still holds it.
 */
module QuadtreeMaps {
  import opened Wrappers

  /** Quadrants are named by their position in the arena. */
  type QId = nat

  predicate NoDup<T(==)>(s: seq<T>) {
    forall i, j :: 0 <= i < j < |s| ==> s[i] != s[j]
  }

  /** `indexOf`: the first position of x in s, or -1. */
  function IndexOf<T(==)>(s: seq<T>, x: T): (i: int)
    ensures -1 <= i < |s|
    ensures i == -1 <==> x !in s
    ensures 0 <= i ==> s[i] == x && x !in s[..i]
  {
    if s == [] then -1
    else if s[0] == x then 0
    else
      var j := IndexOf(s[1..], x);
      if j == -1 then -1 else j + 1
  }

  /** `indexOf` followed by `splice(index, 1)` when the element is present. */
  function RemoveFirst<T(==)>(s: seq<T>, x: T): (r: seq<T>)
    ensures x !in s ==> r == s
    ensures x in s ==> |r| == |s| - 1
  {
    var i := IndexOf(s, x);
    if i == -1 then s else s[..i] + s[i + 1..]
  }

  /** Removing x keeps every other element, with its multiplicity. */
  lemma RemoveFirstCounts<T>(s: seq<T>, x: T)
    ensures multiset(RemoveFirst(s, x)) == multiset(s) - multiset{x}
  {
    var i := IndexOf(s, x);
    if i != -1 {
      assert s == s[..i] + [x] + s[i + 1..];
    }
  }

  /** Removing x from a duplicate-free sequence removes its only occurrence and keeps the rest. */
  lemma RemoveFirstNoDup<T>(s: seq<T>, x: T)
    requires NoDup(s)
    ensures NoDup(RemoveFirst(s, x))
    ensures forall y :: y in RemoveFirst(s, x) <==> y in s && y != x
  {
    var r := RemoveFirst(s, x);
    if x in s {
      var k := IndexOf(s, x);
      forall i, j | 0 <= i < j < |r|
        ensures r[i] != r[j]
      {
        var i' := if i < k then i else i + 1;
        var j' := if j < k then j else j + 1;
        assert r[i] == s[i'] && r[j] == s[j'];
      }
      forall y
        ensures y in r <==> y in s && y != x
      {
        if y in r {
          var i :| 0 <= i < |r| && r[i] == y;
          var i' := if i < k then i else i + 1;
          assert s[i'] == y && i' != k;
        }
        if y in s && y != x {
          var i :| 0 <= i < |s| && s[i] == y;
          assert i != k;
          assert r[if i < k then i else i - 1] == y;
        }
      }
    }
  }

  /** Each of xs removed in turn, first to last. */
  function RemoveEach<T(==)>(s: seq<T>, xs: seq<T>): seq<T> {
    if xs == [] then s else RemoveFirst(RemoveEach(s, xs[..|xs| - 1]), xs[|xs| - 1])
  }

  /** The quadrants passed are taken out as a multiset: absent ones are ignored. */
  lemma {:induction false} RemoveEachCounts<T>(s: seq<T>, xs: seq<T>)
    ensures multiset(RemoveEach(s, xs)) == multiset(s) - multiset(xs)
  {
    if xs != [] {
      var init, last := xs[..|xs| - 1], xs[|xs| - 1];
      RemoveEachCounts(s, init);
      RemoveEachLast(s, xs);
      SnocCounts(xs);
      MultisetSub(multiset(s), multiset(init), multiset{last});
    }
  }

  lemma RemoveEachLast<T>(s: seq<T>, xs: seq<T>)
    requires xs != []
    ensures multiset(RemoveEach(s, xs))
      == multiset(RemoveEach(s, xs[..|xs| - 1])) - multiset{xs[|xs| - 1]}
  {
    RemoveFirstCounts(RemoveEach(s, xs[..|xs| - 1]), xs[|xs| - 1]);
  }

  lemma SnocCounts<T>(xs: seq<T>)
    requires xs != []
    ensures multiset(xs) == multiset(xs[..|xs| - 1]) + multiset{xs[|xs| - 1]}
  {
    assert xs == xs[..|xs| - 1] + [xs[|xs| - 1]];
  }

  /** One more quadrant removed is one more first-occurrence removal. */
  lemma RemoveEachStep<T>(s: seq<T>, xs: seq<T>, i: nat)
    requires i < |xs|
    ensures RemoveEach(s, xs[..i + 1]) == RemoveFirst(RemoveEach(s, xs[..i]), xs[i])
  {
    assert xs[..i + 1][..i] == xs[..i];
  }

  lemma MultisetSub<T>(a: multiset<T>, b: multiset<T>, c: multiset<T>)
    ensures a - b - c == a - (b + c)
  {
    assert forall y :: (a - b - c)[y] == (a - (b + c))[y];
  }

  /** `insert(entity, ...quadrants)`: append to the existing array, or store the given one. No de-duplication. */
  function MapInsert<E>(m: map<E, seq<QId>>, e: E, qs: seq<QId>): map<E, seq<QId>> {
    if e in m then m[e := m[e] + qs] else m[e := qs]
  }

  /**
   * `remove(entity, ...quadrants)`: nothing for an unknown entity; the key goes when as many
   * quadrants are passed as the array holds, whichever they are; otherwise the first
   * occurrence of each passed quadrant is spliced out.
   */
  function MapRemove<E>(m: map<E, seq<QId>>, e: E, qs: seq<QId>): map<E, seq<QId>> {
    if e !in m then m
    else if |m[e]| == |qs| then m - {e}
    else m[e := RemoveEach(m[e], qs)]
  }

  // ---------------------------------------------------------------------------
  // Properties of the map operations
  // ---------------------------------------------------------------------------

  /** Insertion never drops anything: the entity's array only grows and other keys are untouched. */
  lemma MapInsertKeeps<E>(m: map<E, seq<QId>>, e: E, qs: seq<QId>)
    ensures var r := MapInsert(m, e, qs);
      r.Keys == m.Keys + {e}
      && (forall f :: f in m && f != e ==> r[f] == m[f])
      && multiset(r[e]) == (if e in m then multiset(m[e]) else multiset{}) + multiset(qs)
  {
  }

  /** Insertion does no de-duplication: inserting a listed quadrant lists it twice. */
  lemma MapInsertDuplicates<E>(e: E)
    ensures MapInsert(map[e := [7]], e, [7])[e] == [7, 7]
  {
  }

  /** The key is deleted by count: passing two unrelated quadrants deletes a two-quadrant array. */
  lemma MapRemoveByCount<E>(e: E)
    ensures MapRemove(map[e := [1, 2]], e, [7, 8]) == map[]
  {
    assert |[1, 2]| == |[7, 8]|;
  }

  /**
   * Removing one listed quadrant from a duplicate-free array: the key goes when that was the
   * last quadrant, otherwise just that quadrant leaves the array.
   */
  lemma MapRemoveOne<E>(m: map<E, seq<QId>>, e: E, q: QId)
    requires e in m && NoDup(m[e]) && q in m[e]
    ensures var r := MapRemove(m, e, [q]);
      (forall f :: f != e ==> (f in r <==> f in m) && (f in r ==> r[f] == m[f]))
      && (e in r <==> |m[e]| > 1)
      && (e in r ==> |r[e]| > 0 && NoDup(r[e]) && (forall p :: p in r[e] <==> p in m[e] && p != q))
  {
    var r := MapRemove(m, e, [q]);
    if |m[e]| != 1 {
      assert [q][..0] == [];
      assert RemoveEach(m[e], [q]) == RemoveFirst(RemoveEach(m[e], []), q);
      RemoveFirstNoDup(m[e], q);
      assert |r[e]| == |m[e]| - 1;
    }
  }

  /** Removing an entity the map does not list changes nothing. */
  lemma MapRemoveAbsent<E>(m: map<E, seq<QId>>, e: E, qs: seq<QId>)
    requires e !in m
    ensures MapRemove(m, e, qs) == m
  {
  }

  // ---------------------------------------------------------------------------
  // The mutable map object
  // ---------------------------------------------------------------------------

  /** Rewriting the array behind one key changes that key's list and nothing else. */
  lemma ListsAfterSplice<E>(keys: map<E, nat>, arrays: seq<seq<QId>>, e: E, a: seq<QId>)
    requires e in keys && keys[e] < |arrays|
    requires forall f :: f in keys ==> keys[f] < |arrays|
    requires forall f, g :: f in keys && g in keys && f != g ==> keys[f] != keys[g]
    ensures (map f | f in keys :: arrays[keys[e] := a][keys[f]])
      == (map f | f in keys :: arrays[keys[f]])[e := a]
  {
  }

  /** A new key gets a new array at the end of the store; the other keys keep theirs. */
  lemma ListsAfterNewKey<E>(keys: map<E, nat>, arrays: seq<seq<QId>>, e: E, a: seq<QId>,
                            keys': map<E, nat>, arrays': seq<seq<QId>>)
    requires e !in keys && keys' == keys[e := |arrays|] && arrays' == arrays + [a]
    requires forall f :: f in keys ==> keys[f] < |arrays|
    ensures (map f | f in keys' :: arrays'[keys'[f]]) == (map f | f in keys :: arrays[keys[f]])[e := a]
  {
  }

  /** Deleting a key drops its list and keeps the other keys' lists. */
  lemma ListsAfterDelete<E>(keys: map<E, nat>, arrays: seq<seq<QId>>, e: E)
    requires forall f :: f in keys ==> keys[f] < |arrays|
    ensures (map f | f in keys - {e} :: arrays[keys[f]]) == (map f | f in keys :: arrays[keys[f]]) - {e}
  {
  }

  /** The loop of `remove`: splice out the first occurrence of each passed quadrant in turn. */
  method SpliceEach(a: seq<QId>, qs: seq<QId>) returns (r: seq<QId>)
    ensures r == RemoveEach(a, qs)
    ensures multiset(r) == multiset(a) - multiset(qs)
  {
    r := a;
    var i := 0;
    while i < |qs|
      invariant 0 <= i <= |qs|
      invariant r == RemoveEach(a, qs[..i])
    {
      RemoveEachStep(a, qs, i);
      var index := IndexOf(r, qs[i]);
      if index != -1 {
        r := r[..index] + r[index + 1..];
      }
      i := i + 1;
    }
    assert qs[..i] == qs;
    RemoveEachCounts(a, qs);
  }

  /** Every quadrant listed in any array the map has created is numbered below n. */
  ghost predicate AllBelow(arrays: seq<seq<QId>>, n: nat) {
    forall h, x :: 0 <= h < |arrays| && x in arrays[h] ==> x < n
  }

  class QuadtreeMap<E(==)> {
    /** The handle of each entity's current array. */
    var keys: map<E, nat>
    /** Every array the map has created, including those whose key has since been deleted. */
    var arrays: seq<seq<QId>>

    ghost predicate Valid()
      reads this
    {
      (forall e :: e in keys ==> keys[e] < |arrays|)
      && (forall e, f :: e in keys && f in keys && e != f ==> keys[e] != keys[f])
    }

    /** The map as the rest of the tree sees it: each key with its current array. */
    function Lists(): (m: map<E, seq<QId>>)
      reads this
      requires Valid()
      ensures m.Keys == keys.Keys
    {
      map e | e in keys :: arrays[keys[e]]
    }

    constructor ()
      ensures Valid() && Lists() == map[] && arrays == []
    {
      keys := map[];
      arrays := [];
    }

    method Insert(e: E, qs: seq<QId>)
      requires Valid()
      modifies this
      ensures Valid() && Lists() == MapInsert(old(Lists()), e, qs)
      ensures |arrays| >= |old(arrays)|
      ensures forall f :: f in old(keys) ==> f in keys && keys[f] == old(keys[f])
      ensures forall h :: 0 <= h < |old(arrays)| && (e !in old(keys) || h != old(keys[e])) ==>
                arrays[h] == old(arrays[h])
      ensures forall h, x :: 0 <= h < |arrays| && x in arrays[h] ==> x in qs || (h < |old(arrays)| && x in old(arrays[h]))
    {
      if e in keys {
        var h := keys[e];
        ListsAfterSplice(keys, arrays, e, arrays[h] + qs);
        arrays := arrays[h := arrays[h] + qs];
        forall g, x | 0 <= g < |arrays| && x in arrays[g]
          ensures x in qs || (g < |old(arrays)| && x in old(arrays[g]))
        {
          if g == h {
            assert x in old(arrays[h]) + qs;
          }
        }
      } else {
        ListsAfterNewKey(keys, arrays, e, qs, keys[e := |arrays|], arrays + [qs]);
        keys := keys[e := |arrays|];
        arrays := arrays + [qs];
      }
    }

    method Remove(e: E, qs: seq<QId>)
      requires Valid()
      modifies this
      ensures Valid() && Lists() == MapRemove(old(Lists()), e, qs)
      ensures |arrays| == |old(arrays)|
      ensures forall f :: f in keys ==> f in old(keys) && keys[f] == old(keys[f])
      ensures forall h :: 0 <= h < |arrays| && (e !in old(keys) || h != old(keys[e])) ==>
                arrays[h] == old(arrays[h])
      ensures forall h, x :: 0 <= h < |arrays| && x in arrays[h] ==> x in old(arrays[h])
    {
      if e !in keys {
        return;
      }
      var h := keys[e];
      if |arrays[h]| == |qs| {
        ListsAfterDelete(keys, arrays, e);
        keys := keys - {e};
        return;
      }
      var existing := SpliceEach(arrays[h], qs);
      assert forall x :: x in existing ==> x in arrays[h] by {
        forall x | x in existing
          ensures x in arrays[h]
        {
          assert x in multiset(existing);
        }
      }
      ListsAfterSplice(keys, arrays, e, existing);
      arrays := arrays[h := existing];
    }

    /** `get`: the handle of the stored array itself, not a copy. */
    function Get(e: E): (h: Option<nat>)
      reads this
      requires Valid()
      ensures h.Some? <==> e in Lists()
      ensures h.Some? ==> h.value < |arrays| && arrays[h.value] == Lists()[e]
    {
      if e in keys then Some(keys[e]) else None
    }

    function Exists(e: E): (b: bool)
      reads this
      requires Valid()
      ensures b <==> e in Lists()
    {
      e in keys
    }

    /** `clear(entity)` drops that key; `clear()` drops every key. */
    method Clear(e: Option<E>)
      requires Valid()
      modifies this
      ensures Valid() && arrays == old(arrays)
      ensures e.Some? ==> Lists() == old(Lists()) - {e.value}
      ensures e.None? ==> Lists() == map[]
    {
      if e.Some? {
        keys := keys - {e.value};
      } else {
        keys := map[];
      }
    }
  }
}
