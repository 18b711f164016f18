/**
 * The quadrants of a region quadtree (src/graph/quadtree/Quadrant.ts).
 *
 * Every Quadrant object of one tree lives in an arena: quadrant `q` is `quadrants[q]`, the
 * root is quadrant 0, a parent always has a smaller index than its children, and the
 * `parent` back-pointer is an index. Quadrants are never freed: a quadrant dropped by
 * `clear` stays in the arena, detached, exactly as the JavaScript object lives on while
 * anything still refers to it. All quadrants of a tree share one QuadtreeMap object and one
 * pair of thresholds.
 */
module Quadrants {
  import opened Wrappers
  import opened AABBs
  import opened QuadtreeMaps

  /** `QuadrantEntry`: an entity and the box it was inserted (or last updated) with. */
  datatype Entry<E> = Entry(entity: E, bounds: Box)

  /** The fields of one Quadrant object. */
  datatype Quadrant<E> = Quadrant(
    bounds: Box,
    parent: Option<QId>,
    entries: seq<Entry<E>>,
    children: seq<QId>,
    hasChildren: bool)

  /** A freshly constructed quadrant: no entries and no children. */
  function NewQuadrant<E>(bounds: Box, parent: Option<QId>): (n: Quadrant<E>)
    ensures n.entries == [] && n.children == [] && !n.hasChildren
    ensures n.bounds == bounds && n.parent == parent
  {
    Quadrant(bounds, parent, [], [], false)
  }

  /** The entities of a list of entries, in order. */
  function EntitiesOf<E>(es: seq<Entry<E>>): (r: seq<E>)
    ensures |r| == |es| && forall i :: 0 <= i < |es| ==> r[i] == es[i].entity
  {
    seq(|es|, i requires 0 <= i < |es| => es[i].entity)
  }

  lemma EntitiesOfAppend<E>(es: seq<Entry<E>>, x: Entry<E>)
    ensures EntitiesOf(es + [x]) == EntitiesOf(es) + [x.entity]
  {
  }

  lemma EntitiesOfSplice<E>(es: seq<Entry<E>>, i: nat)
    requires i < |es|
    ensures EntitiesOf(es[..i] + es[i + 1..]) == EntitiesOf(es)[..i] + EntitiesOf(es)[i + 1..]
  {
  }

  /** `find(e => e.entity === entity)` / `findIndex(...)`: the first entry for the entity, or -1. */
  function FindEntity<E(==)>(es: seq<Entry<E>>, e: E): (i: int)
    ensures -1 <= i < |es|
    ensures i == -1 <==> e !in EntitiesOf(es)
    ensures 0 <= i ==> es[i].entity == e && forall j :: 0 <= j < i ==> es[j].entity != e
  {
    var i := IndexOf(EntitiesOf(es), e);
    assert 0 <= i ==> forall j :: 0 <= j < i ==> EntitiesOf(es)[..i][j] == es[j].entity;
    i
  }

  /** The entities each quadrant holds, quadrant by quadrant. */
  function Holdings<E>(qs: seq<Quadrant<E>>): (hs: seq<seq<E>>)
    ensures |hs| == |qs| && forall q :: 0 <= q < |qs| ==> hs[q] == EntitiesOf(qs[q].entries)
  {
    seq(|qs|, q requires 0 <= q < |qs| => EntitiesOf(qs[q].entries))
  }

  // ---------------------------------------------------------------------------
  // The invariant every operation keeps
  // ---------------------------------------------------------------------------

  /**
   * One quadrant's shape: its parent comes before it; an internal quadrant has exactly four
   * distinct children, later in the arena, that name it as their parent, and holds no
   * entries itself; a leaf has no children; no entity is entered twice in one quadrant.
   */
  ghost predicate NodeOk<E>(qs: seq<Quadrant<E>>, q: nat)
    requires q < |qs|
  {
    var n := qs[q];
    (n.parent.Some? ==> n.parent.value < q)
    && (n.hasChildren ==>
          |n.children| == 4 && n.entries == []
          && (forall k :: 0 <= k < 4 ==> q < n.children[k] < |qs| && qs[n.children[k]].parent == Some(q))
          && NoDup(n.children))
    && (!n.hasChildren ==> n.children == [])
    && NoDup(EntitiesOf(n.entries))
  }

  ghost predicate WellFormed<E>(qs: seq<Quadrant<E>>) {
    forall q :: 0 <= q < |qs| ==> NodeOk(qs, q)
  }

  /**
   * The map lists, for each entity, exactly the quadrants that hold it, each once; an entity
   * held nowhere is not a key. This covers every quadrant of the arena, detached ones too.
   */
  ghost predicate Exact<E>(hs: seq<seq<E>>, m: map<E, seq<QId>>) {
    (forall e :: e in m ==> |m[e]| > 0 && NoDup(m[e]))
    && (forall e, q :: e in m && q in m[e] ==> Holds(hs, q, e))
    && (forall q, e {:trigger Holds(hs, q, e)} :: 0 <= q < |hs| && e in hs[q] ==> e in m && q in m[e])
  }

  /** Quadrant q holds entity e. */
  predicate Holds<E(==)>(hs: seq<seq<E>>, q: int, e: E) {
    0 <= q < |hs| && e in hs[q]
  }

  /** Every entry's box meets the region of the quadrant that holds it. */
  ghost predicate Located<E>(qs: seq<Quadrant<E>>) {
    forall q, i :: 0 <= q < |qs| && 0 <= i < |qs[q].entries| ==>
      Intersects(qs[q].bounds, qs[q].entries[i].bounds)
  }

  ghost predicate Inv<E>(qs: seq<Quadrant<E>>, m: map<E, seq<QId>>) {
    WellFormed(qs) && Exact(Holdings(qs), m) && Located(qs)
  }

  /** The arena only grows, and no quadrant's region or parent ever changes. */
  ghost predicate Extends<E>(qs: seq<Quadrant<E>>, qs': seq<Quadrant<E>>) {
    |qs| <= |qs'|
    && forall q :: 0 <= q < |qs| ==> qs'[q].bounds == qs[q].bounds && qs'[q].parent == qs[q].parent
  }

  /** Insertion only splits: a quadrant with children keeps them. */
  ghost predicate Grows<E>(qs: seq<Quadrant<E>>, qs': seq<Quadrant<E>>) {
    Extends(qs, qs')
    && forall q :: 0 <= q < |qs| && qs[q].hasChildren ==>
         qs'[q].hasChildren && qs'[q].children == qs[q].children
  }

  lemma ExtendsTransitive<E>(a: seq<Quadrant<E>>, b: seq<Quadrant<E>>, c: seq<Quadrant<E>>)
    requires Extends(a, b) && Extends(b, c)
    ensures Extends(a, c)
  {
  }

  lemma GrowsTransitive<E>(a: seq<Quadrant<E>>, b: seq<Quadrant<E>>, c: seq<Quadrant<E>>)
    requires Grows(a, b) && Grows(b, c)
    ensures Grows(a, c)
  {
  }

  // ---------------------------------------------------------------------------
  // Subtrees
  // ---------------------------------------------------------------------------

  /** A quadrant with no entries and no children, as `clear` leaves it. */
  predicate EmptyLeaf<E>(n: Quadrant<E>) {
    n.entries == [] && !n.hasChildren
  }

  /** Quadrant p is q or lies below it along parent back-pointers, detached quadrants included. */
  ghost predicate Under<E>(qs: seq<Quadrant<E>>, p: nat, q: nat)
    requires p < |qs|
    decreases p
  {
    p == q || (qs[p].parent.Some? && qs[p].parent.value < p && Under(qs, qs[p].parent.value, q))
  }

  /**
   * Quadrant p is q or is reached from q through the children lists: q's current subtree,
   * which is what `clear` walks.
   */
  ghost predicate Descends<E>(qs: seq<Quadrant<E>>, p: nat, q: nat)
    requires p < |qs|
    decreases p
  {
    p == q
    || (qs[p].parent.Some? && qs[p].parent.value < p
        && qs[qs[p].parent.value].hasChildren && p in qs[qs[p].parent.value].children
        && Descends(qs, qs[p].parent.value, q))
  }

  /** Parent back-pointers never change, so neither does `Under`. */
  lemma {:induction false} UnderExtends<E>(qs: seq<Quadrant<E>>, qs': seq<Quadrant<E>>, p: nat, q: nat)
    requires Extends(qs, qs') && p < |qs|
    ensures Under(qs, p, q) == Under(qs', p, q)
    decreases p
  {
    if p != q && qs[p].parent.Some? && qs[p].parent.value < p {
      UnderExtends(qs, qs', qs[p].parent.value, q);
    }
  }

  lemma {:induction false} UnderTransitive<E>(qs: seq<Quadrant<E>>, p: nat, a: nat, b: nat)
    requires p < |qs| && a < |qs| && Under(qs, p, a) && Under(qs, a, b)
    ensures Under(qs, p, b)
    decreases p
  {
    if p != a {
      UnderTransitive(qs, qs[p].parent.value, a, b);
    }
  }

  /** Two quadrants above a third lie on one chain of parents. */
  lemma {:induction false} UnderChain<E>(qs: seq<Quadrant<E>>, p: nat, a: nat, b: nat)
    requires p < |qs| && Under(qs, p, a) && Under(qs, p, b)
    ensures a < |qs| && b < |qs| && (Under(qs, a, b) || Under(qs, b, a))
    decreases p
  {
    UnderAtLeast(qs, p, a);
    UnderAtLeast(qs, p, b);
    if p != a && p != b {
      UnderChain(qs, qs[p].parent.value, a, b);
    }
  }

  lemma {:induction false} UnderAtLeast<E>(qs: seq<Quadrant<E>>, p: nat, q: nat)
    requires p < |qs| && Under(qs, p, q)
    ensures q <= p
    decreases p
  {
    if p != q {
      UnderAtLeast(qs, qs[p].parent.value, q);
    }
  }

  /** The subtrees of two different children of one quadrant share no quadrant. */
  lemma SiblingsApart<E>(qs: seq<Quadrant<E>>, q: nat, a: nat, b: nat, p: nat)
    requires WellFormed(qs) && q < |qs| && a in qs[q].children && b in qs[q].children && a != b && p < |qs|
    ensures !(Under(qs, p, a) && Under(qs, p, b))
  {
    assert NodeOk(qs, q);
    if Under(qs, p, a) && Under(qs, p, b) {
      UnderChain(qs, p, a, b);
      if Under(qs, a, b) {
        assert NodeOk(qs, a);
        UnderAtLeast(qs, q, b);
      } else {
        assert NodeOk(qs, b);
        UnderAtLeast(qs, q, a);
      }
      assert false;
    }
  }

  lemma {:induction false} DescendsUnder<E>(qs: seq<Quadrant<E>>, p: nat, q: nat)
    requires p < |qs| && Descends(qs, p, q)
    ensures Under(qs, p, q)
    decreases p
  {
    if p != q {
      DescendsUnder(qs, qs[p].parent.value, q);
    }
  }

  /** A quadrant below q, other than q, lies below one of q's children. */
  lemma {:induction false} DescendsChild<E>(qs: seq<Quadrant<E>>, p: nat, q: nat)
    requires WellFormed(qs) && p < |qs| && Descends(qs, p, q) && p != q
    ensures q < |qs| && qs[q].hasChildren
    ensures exists j :: 0 <= j < |qs[q].children| && Descends(qs, p, qs[q].children[j])
    decreases p
  {
    var r := qs[p].parent.value;
    if r == q {
      var j :| 0 <= j < |qs[q].children| && qs[q].children[j] == p;
      assert Descends(qs, p, qs[q].children[j]);
    } else {
      DescendsChild(qs, r, q);
      var j :| 0 <= j < |qs[q].children| && Descends(qs, r, qs[q].children[j]);
      assert Descends(qs, p, qs[q].children[j]);
    }
  }

  /** The subtree below c is read only from quadrants under c, so it survives changes elsewhere. */
  lemma {:induction false} DescendsFrame<E>(qs: seq<Quadrant<E>>, qs': seq<Quadrant<E>>, p: nat, c: nat)
    requires p < |qs| <= |qs'| && Descends(qs, p, c)
    requires forall x :: 0 <= x < |qs| && Under(qs, x, c) ==> qs'[x] == qs[x]
    ensures Descends(qs', p, c)
    decreases p
  {
    DescendsUnder(qs, p, c);
    if p != c {
      var r := qs[p].parent.value;
      DescendsUnder(qs, r, c);
      DescendsFrame(qs, qs', r, c);
    }
  }

  // ---------------------------------------------------------------------------
  // The map invariant under single steps
  // ---------------------------------------------------------------------------

  /** Entering an entity in a quadrant that lacks it, and appending that quadrant to its list. */
  lemma ExactAppend<E>(hs: seq<seq<E>>, m: map<E, seq<QId>>, q: nat, e: E)
    requires Exact(hs, m) && q < |hs| && e !in hs[q]
    ensures Exact(hs[q := hs[q] + [e]], MapInsert(m, e, [q]))
  {
    var hs', m' := hs[q := hs[q] + [e]], MapInsert(m, e, [q]);
    if e in m {
      assert !Holds(hs, q, e);
      assert q !in m[e];
      forall i, j | 0 <= i < j < |m'[e]|
        ensures m'[e][i] != m'[e][j]
      {
        if j == |m[e]| {
          assert m'[e][i] == m[e][i] && m[e][i] in m[e];
        }
      }
    }
    forall f, p | f in m' && p in m'[f]
      ensures Holds(hs', p, f)
    {
      if f == e && p == q {
        assert hs'[q] == hs[q] + [e];
      } else {
        assert p in m[f];
        assert Holds(hs, p, f);
        assert f in hs'[p] by {
          if p == q {
            assert hs'[q] == hs[q] + [e];
          }
        }
      }
    }
    forall p, f | 0 <= p < |hs'| && f in hs'[p]
      ensures f in m' && p in m'[f]
    {
      if p != q || f != e {
        assert Holds(hs, p, f);
      }
    }
  }

  /** Taking the i-th entity out of a duplicate-free quadrant, and that quadrant out of its list. */
  lemma ExactSplice<E>(hs: seq<seq<E>>, m: map<E, seq<QId>>, q: nat, i: nat)
    requires Exact(hs, m) && q < |hs| && i < |hs[q]| && NoDup(hs[q])
    ensures Exact(hs[q := hs[q][..i] + hs[q][i + 1..]], MapRemove(m, hs[q][i], [q]))
  {
    RemoveFirstNoDup(hs[q], hs[q][i]);
    SpliceIsRemoveFirst(hs[q], i);
    ExactDrop(hs, m, q, hs[q][i], hs[q][..i] + hs[q][i + 1..]);
  }

  /** In a duplicate-free sequence, splicing out position i removes the first (only) occurrence. */
  lemma SpliceIsRemoveFirst<T>(s: seq<T>, i: nat)
    requires i < |s| && NoDup(s)
    ensures s[..i] + s[i + 1..] == RemoveFirst(s, s[i])
  {
    assert s[i] in s;
  }

  /** Quadrant q stops holding e (and only e), and q leaves e's list. */
  lemma ExactDrop<E>(hs: seq<seq<E>>, m: map<E, seq<QId>>, q: nat, e: E, s: seq<E>)
    requires Exact(hs, m) && q < |hs| && e in hs[q]
    requires forall f :: f in s <==> f in hs[q] && f != e
    ensures Exact(hs[q := s], MapRemove(m, e, [q]))
  {
    var hs', m' := hs[q := s], MapRemove(m, e, [q]);
    assert Holds(hs, q, e);
    MapRemoveOne(m, e, q);
    forall f, p | f in m' && p in m'[f]
      ensures Holds(hs', p, f)
    {
      if f != e {
        assert p in m[f];
      } else {
        assert p in m[e] && p != q;
      }
      assert Holds(hs, p, f);
      if p == q {
        assert f != e;
      }
    }
    forall p, f | 0 <= p < |hs'| && f in hs'[p]
      ensures f in m' && p in m'[f]
    {
      assert Holds(hs, p, f);
    }
    assert forall f :: f in m' ==> |m'[f]| > 0 && NoDup(m'[f]);
  }

  /** A new quadrant holds nothing, so the map does not mention it. */
  lemma ExactGrow<E>(hs: seq<seq<E>>, m: map<E, seq<QId>>)
    requires Exact(hs, m)
    ensures Exact(hs + [[]], m)
  {
    var hs' := hs + [[]];
    forall f, p | f in m && p in m[f]
      ensures Holds(hs', p, f)
    {
      assert Holds(hs, p, f);
      assert hs'[p] == hs[p];
    }
    forall p, f | 0 <= p < |hs'| && f in hs'[p]
      ensures f in m && p in m[f]
    {
      assert Holds(hs, p, f);
    }
  }

  // ---------------------------------------------------------------------------
  // The whole invariant under single steps
  // ---------------------------------------------------------------------------

  lemma HoldingsUpdate<E>(qs: seq<Quadrant<E>>, q: nat, n: Quadrant<E>)
    requires q < |qs|
    ensures Holdings(qs[q := n]) == Holdings(qs)[q := EntitiesOf(n.entries)]
  {
  }

  lemma HoldingsGrow<E>(qs: seq<Quadrant<E>>, n: Quadrant<E>)
    requires n.entries == []
    ensures Holdings(qs + [n]) == Holdings(qs) + [[]]
  {
    assert Holdings(qs + [n])[|qs|] == [];
  }

  /** Replacing one quadrant that keeps its parent and is itself well formed keeps the arena well formed. */
  lemma WellFormedUpdate<E>(qs: seq<Quadrant<E>>, q: nat, n: Quadrant<E>)
    requires WellFormed(qs) && q < |qs| && n.parent == qs[q].parent
    requires NodeOk(qs[q := n], q)
    ensures WellFormed(qs[q := n])
  {
    var qs' := qs[q := n];
    forall p | 0 <= p < |qs'|
      ensures NodeOk(qs', p)
    {
      if p != q {
        assert NodeOk(qs, p);
        assert forall c :: 0 <= c < |qs| ==> qs'[c].parent == qs[c].parent;
      }
    }
  }

  lemma LocatedUpdate<E>(qs: seq<Quadrant<E>>, q: nat, n: Quadrant<E>)
    requires Located(qs) && q < |qs| && n.bounds == qs[q].bounds
    requires forall i :: 0 <= i < |n.entries| ==> Intersects(n.bounds, n.entries[i].bounds)
    ensures Located(qs[q := n])
  {
  }

  /** `_entries.push(entry)` together with `_map.insert(entity, this)` on a leaf that lacks the entity. */
  lemma InvAppend<E>(qs: seq<Quadrant<E>>, m: map<E, seq<QId>>, q: nat, x: Entry<E>)
    requires Inv(qs, m) && q < |qs| && !qs[q].hasChildren
    requires x.entity !in EntitiesOf(qs[q].entries) && Intersects(qs[q].bounds, x.bounds)
    ensures Inv(qs[q := qs[q].(entries := qs[q].entries + [x])], MapInsert(m, x.entity, [q]))
  {
    var n := qs[q].(entries := qs[q].entries + [x]);
    EntitiesOfAppend(qs[q].entries, x);
    assert NodeOk(qs, q);
    assert NoDup(EntitiesOf(n.entries)) by {
      var es := EntitiesOf(qs[q].entries);
      forall i, j | 0 <= i < j < |es| + 1
        ensures (es + [x.entity])[i] != (es + [x.entity])[j]
      {
        if j == |es| {
          assert es[i] in es;
        }
      }
    }
    WellFormedUpdate(qs, q, n);
    HoldingsUpdate(qs, q, n);
    ExactAppend(Holdings(qs), m, q, x.entity);
    LocatedUpdate(qs, q, n);
  }

  /** `_entries.splice(index, 1)` together with `_map.remove(entity, this)`. */
  lemma InvSplice<E>(qs: seq<Quadrant<E>>, m: map<E, seq<QId>>, q: nat, i: nat)
    requires Inv(qs, m) && q < |qs| && i < |qs[q].entries|
    ensures var es := qs[q].entries;
      Inv(qs[q := qs[q].(entries := es[..i] + es[i + 1..])], MapRemove(m, es[i].entity, [q]))
  {
    var es := qs[q].entries;
    var n := qs[q].(entries := es[..i] + es[i + 1..]);
    assert NodeOk(qs, q);
    EntitiesOfSplice(es, i);
    var hs := EntitiesOf(es);
    assert NoDup(hs[..i] + hs[i + 1..]) by {
      SpliceIsRemoveFirst(hs, i);
      RemoveFirstNoDup(hs, hs[i]);
    }
    WellFormedUpdate(qs, q, n);
    HoldingsUpdate(qs, q, n);
    ExactSplice(Holdings(qs), m, q, i);
    assert forall k :: 0 <= k < |n.entries| ==> n.entries[k] in es;
    LocatedUpdate(qs, q, n);
  }

  /** `entry.bounds = ...`: an entry takes a new box that still meets its quadrant. */
  lemma InvRebound<E>(qs: seq<Quadrant<E>>, m: map<E, seq<QId>>, q: nat, i: nat, b: Box)
    requires Inv(qs, m) && q < |qs| && i < |qs[q].entries| && Intersects(qs[q].bounds, b)
    ensures var es := qs[q].entries;
      Inv(qs[q := qs[q].(entries := es[i := es[i].(bounds := b)])], m)
  {
    var es := qs[q].entries;
    var n := qs[q].(entries := es[i := es[i].(bounds := b)]);
    assert EntitiesOf(n.entries) == EntitiesOf(es);
    assert NodeOk(qs, q);
    WellFormedUpdate(qs, q, n);
    HoldingsUpdate(qs, q, n);
    assert Holdings(qs)[q := EntitiesOf(n.entries)] == Holdings(qs);
    LocatedUpdate(qs, q, n);
  }

  /** A new, empty quadrant whose parent is an existing quadrant. */
  lemma InvGrow<E>(qs: seq<Quadrant<E>>, m: map<E, seq<QId>>, b: Box, p: QId)
    requires Inv(qs, m) && p < |qs|
    ensures Inv(qs + [NewQuadrant(b, Some(p))], m)
  {
    var n: Quadrant<E> := NewQuadrant(b, Some(p));
    var qs' := qs + [n];
    forall c | 0 <= c < |qs'|
      ensures NodeOk(qs', c)
    {
      if c < |qs| {
        assert NodeOk(qs, c);
        assert forall d :: 0 <= d < |qs| ==> qs'[d] == qs[d];
      }
    }
    HoldingsGrow(qs, n);
    ExactGrow(Holdings(qs), m);
  }

  /** `_hasChildren = true` once the four new children exist. */
  lemma InvAttach<E>(qs: seq<Quadrant<E>>, m: map<E, seq<QId>>, q: nat, cs: seq<QId>)
    requires Inv(qs, m) && q < |qs| && !qs[q].hasChildren && qs[q].entries == []
    requires |cs| == 4 && NoDup(cs)
    requires forall k :: 0 <= k < 4 ==> q < cs[k] < |qs| && qs[cs[k]].parent == Some(q)
    ensures Inv(qs[q := qs[q].(children := cs, hasChildren := true)], m)
  {
    var n := qs[q].(children := cs, hasChildren := true);
    assert NodeOk(qs, q);
    assert NodeOk(qs[q := n], q) by {
      assert forall k :: 0 <= k < 4 ==> qs[q := n][cs[k]] == qs[cs[k]];
    }
    WellFormedUpdate(qs, q, n);
    HoldingsUpdate(qs, q, n);
    assert Holdings(qs)[q := EntitiesOf(n.entries)] == Holdings(qs);
    LocatedUpdate(qs, q, n);
  }

  /** `_children = []; _hasChildren = false` on a quadrant with children. */
  lemma InvDetach<E>(qs: seq<Quadrant<E>>, m: map<E, seq<QId>>, q: nat)
    requires Inv(qs, m) && q < |qs| && qs[q].hasChildren
    ensures Inv(qs[q := qs[q].(children := [], hasChildren := false)], m)
  {
    var n := qs[q].(children := [], hasChildren := false);
    assert NodeOk(qs, q);
    WellFormedUpdate(qs, q, n);
    HoldingsUpdate(qs, q, n);
    assert Holdings(qs)[q := EntitiesOf(n.entries)] == Holdings(qs);
    LocatedUpdate(qs, q, n);
  }

  // ---------------------------------------------------------------------------
  // Subdivision
  // ---------------------------------------------------------------------------

  /**
   * The region of child k = x + 2y made by `subdivide`: half the width and height, with its
   * corner at the region's corner or centre along each axis.
   */
  function ChildBox(b: Box, k: nat): (c: Box)
    requires k < 4
    ensures c.width == b.width / 2.0 && c.height == b.height / 2.0
  {
    Box(if k == 0 || k == 2 then b.x else CenterX(b), if k < 2 then b.y else CenterY(b),
        b.width / 2.0, b.height / 2.0)
  }

  /** Every child of a valid region is valid and lies inside it. */
  lemma ChildBoxInside(b: Box, k: nat)
    requires Valid(b) && k < 4
    ensures Valid(ChildBox(b, k)) && Contains(b, ChildBox(b, k))
  {
  }

  /** The four children cover their parent's region: every point of it lies in one of them. */
  lemma ChildrenCover(b: Box, px: real, py: real)
    requires Valid(b) && ContainsPoint(b, px, py)
    ensures exists k :: 0 <= k < 4 && ContainsPoint(ChildBox(b, k), px, py)
  {
    var x := if px <= CenterX(b) then 0 else 1;
    var y := if py <= CenterY(b) then 0 else 1;
    assert ContainsPoint(ChildBox(b, x + 2 * y), px, py);
  }

  /**
   * A split loses no entry: a box of positive area that meets a region meets one of its four
   * children, so reinserting it after `subdivide` stores it somewhere below.
   */
  lemma ChildrenMeet(b: Box, o: Box)
    requires Valid(b) && Valid(o) && Intersects(b, o)
    ensures exists k :: 0 <= k < 4 && Intersects(ChildBox(b, k), o)
  {
    var x := if o.x < CenterX(b) then 0 else 1;
    var y := if o.y < CenterY(b) then 0 else 1;
    assert Intersects(ChildBox(b, x + 2 * y), o);
  }

  // ---------------------------------------------------------------------------
  // Accumulating the entries below a quadrant
  // ---------------------------------------------------------------------------

  /** `accumulator.push(entry)` for each entry whose entity the accumulator lacks, in order. */
  function AddNew<E(==)>(acc: seq<Entry<E>>, es: seq<Entry<E>>): seq<Entry<E>>
  {
    if es == [] then acc
    else
      var a := AddNew(acc, es[..|es| - 1]);
      var x := es[|es| - 1];
      if x.entity in EntitiesOf(a) then a else a + [x]
  }

  /**
   * `accumulateEntries(acc)`: a leaf adds its new entries, a quadrant with children lets
   * each child add in turn.
   */
  ghost function Accumulate<E>(qs: seq<Quadrant<E>>, q: nat, acc: seq<Entry<E>>): seq<Entry<E>>
    requires WellFormed(qs) && q < |qs|
    decreases |qs| - q, 1, 0
  {
    assert NodeOk(qs, q);
    if qs[q].hasChildren then AccumulateChildren(qs, q, 0, acc) else AddNew(acc, qs[q].entries)
  }

  ghost function AccumulateChildren<E>(qs: seq<Quadrant<E>>, q: nat, k: nat, acc: seq<Entry<E>>): seq<Entry<E>>
    requires WellFormed(qs) && q < |qs| && qs[q].hasChildren && k <= 4
    decreases |qs| - q, 0, 4 - k
  {
    assert NodeOk(qs, q);
    if k == 4 then acc
    else AccumulateChildren(qs, q, k + 1, Accumulate(qs, qs[q].children[k], acc))
  }

  /** Entity e is held by a leaf below q (q itself when q is a leaf). */
  ghost predicate HeldBelow<E>(qs: seq<Quadrant<E>>, q: nat, e: E)
    requires WellFormed(qs) && q < |qs|
    decreases |qs| - q, 1, 0
  {
    if qs[q].hasChildren then HeldBelowChildren(qs, q, 0, e)
    else e in EntitiesOf(qs[q].entries)
  }

  /** Entity e is held by a leaf below one of the children of q numbered k and up. */
  ghost predicate HeldBelowChildren<E>(qs: seq<Quadrant<E>>, q: nat, k: nat, e: E)
    requires WellFormed(qs) && q < |qs| && qs[q].hasChildren && k <= 4
    decreases |qs| - q, 0, 4 - k
  {
    assert NodeOk(qs, q);
    k < 4 && (HeldBelow(qs, qs[q].children[k], e) || HeldBelowChildren(qs, q, k + 1, e))
  }


  /**
   * What `AddNew` promises: the accumulator is kept as a prefix, no entity is added twice,
   * and the entities afterwards are those of the accumulator and of the new entries.
   */
  lemma {:induction false} AddNewFacts<E>(acc: seq<Entry<E>>, es: seq<Entry<E>>)
    ensures acc <= AddNew(acc, es)
    ensures NoDup(EntitiesOf(acc)) ==> NoDup(EntitiesOf(AddNew(acc, es)))
    ensures forall e :: e in EntitiesOf(AddNew(acc, es)) <==> e in EntitiesOf(acc) || e in EntitiesOf(es)
    ensures forall x :: x in AddNew(acc, es) ==> x in acc || x in es
  {
    if es != [] {
      var init, x := es[..|es| - 1], es[|es| - 1];
      var a := AddNew(acc, init);
      AddNewFacts(acc, init);
      assert es == init + [x];
      assert forall e :: e in EntitiesOf(es) <==> e in EntitiesOf(init) || e == x.entity by {
        EntitiesOfAppend(init, x);
      }
      if x.entity !in EntitiesOf(a) {
        EntitiesOfAppend(a, x);
        assert NoDup(EntitiesOf(a)) ==> NoDup(EntitiesOf(a) + [x.entity]) by {
          if NoDup(EntitiesOf(a)) {
            var s := EntitiesOf(a);
            forall i, j | 0 <= i < j < |s| + 1
              ensures (s + [x.entity])[i] != (s + [x.entity])[j]
            {
              if j == |s| {
                assert s[i] in s;
              }
            }
          }
        }
      }
    }
  }

  /** Entries whose entities are new and distinct are all added, in order. */
  lemma {:induction false} AddNewFresh<E>(acc: seq<Entry<E>>, es: seq<Entry<E>>)
    requires NoDup(EntitiesOf(es))
    requires forall i :: 0 <= i < |es| ==> es[i].entity !in EntitiesOf(acc)
    ensures AddNew(acc, es) == acc + es
  {
    if es != [] {
      var init, x := es[..|es| - 1], es[|es| - 1];
      var hs := EntitiesOf(es);
      assert EntitiesOf(init) == hs[..|es| - 1];
      assert NoDup(EntitiesOf(init));
      AddNewFresh(acc, init);
      assert x.entity !in EntitiesOf(init) by {
        assert x.entity == hs[|es| - 1];
      }
      EntitiesOfConcat(acc, init);
      assert es == init + [x];
    }
  }

  lemma EntitiesOfConcat<E>(a: seq<Entry<E>>, b: seq<Entry<E>>)
    ensures EntitiesOf(a + b) == EntitiesOf(a) + EntitiesOf(b)
  {
  }

  /** `accumulateEntries` gathers, without repetition, exactly the entities held below q. */
  lemma {:induction false} AccumulateFacts<E>(qs: seq<Quadrant<E>>, q: nat, acc: seq<Entry<E>>)
    requires WellFormed(qs) && q < |qs|
    ensures acc <= Accumulate(qs, q, acc)
    ensures NoDup(EntitiesOf(acc)) ==> NoDup(EntitiesOf(Accumulate(qs, q, acc)))
    ensures forall e :: e in EntitiesOf(Accumulate(qs, q, acc)) <==> e in EntitiesOf(acc) || HeldBelow(qs, q, e)
    decreases |qs| - q, 1, 0
  {
    assert NodeOk(qs, q);
    if qs[q].hasChildren {
      AccumulateChildrenFacts(qs, q, 0, acc);
    } else {
      AddNewFacts(acc, qs[q].entries);
    }
  }

  lemma {:induction false} AccumulateChildrenFacts<E>(qs: seq<Quadrant<E>>, q: nat, k: nat, acc: seq<Entry<E>>)
    requires WellFormed(qs) && q < |qs| && qs[q].hasChildren && k <= 4
    ensures acc <= AccumulateChildren(qs, q, k, acc)
    ensures NoDup(EntitiesOf(acc)) ==> NoDup(EntitiesOf(AccumulateChildren(qs, q, k, acc)))
    ensures forall e :: e in EntitiesOf(AccumulateChildren(qs, q, k, acc)) <==>
      e in EntitiesOf(acc) || HeldBelowChildren(qs, q, k, e)
    decreases |qs| - q, 0, 4 - k
  {
    assert NodeOk(qs, q);
    if k < 4 {
      var c := qs[q].children[k];
      var a := Accumulate(qs, c, acc);
      AccumulateFacts(qs, c, acc);
      AccumulateChildrenFacts(qs, q, k + 1, a);
    }
  }

  /** An entity held by a leaf below q is held somewhere, so the map has a key for it. */
  lemma {:induction false} HeldBelowListed<E>(qs: seq<Quadrant<E>>, m: map<E, seq<QId>>, q: nat, e: E)
    requires Inv(qs, m) && q < |qs| && HeldBelow(qs, q, e)
    ensures e in m
    decreases |qs| - q, 1
  {
    if qs[q].hasChildren {
      HeldBelowChildrenListed(qs, m, q, 0, e);
    } else {
      assert Holds(Holdings(qs), q, e);
    }
  }

  lemma {:induction false} HeldBelowChildrenListed<E>(qs: seq<Quadrant<E>>, m: map<E, seq<QId>>, q: nat, k: nat, e: E)
    requires Inv(qs, m) && q < |qs| && qs[q].hasChildren && k <= 4 && HeldBelowChildren(qs, q, k, e)
    ensures e in m
    decreases |qs| - q, 0, 4 - k
  {
    assert NodeOk(qs, q);
    if HeldBelow(qs, qs[q].children[k], e) {
      HeldBelowListed(qs, m, qs[q].children[k], e);
    } else {
      HeldBelowChildrenListed(qs, m, q, k + 1, e);
    }
  }

  /** A leaf's count is its number of entries: its entities are already distinct. */
  lemma LeafAccumulate<E>(qs: seq<Quadrant<E>>, q: nat)
    requires WellFormed(qs) && q < |qs| && !qs[q].hasChildren
    ensures Accumulate(qs, q, []) == qs[q].entries
  {
    assert NodeOk(qs, q);
    AddNewFresh([], qs[q].entries);
  }
}
