/**
 * Named events with ordered handler lists (src/event/EventAggregator.ts).
 *
 * A handler is an opaque value `H` compared by identity; what it does with an event is the
 * function `handle` given to `Dispatch`, whose answer true stops the chain.
 */
module EventAggregators {
  import opened QuadtreeMaps

  /** The closure `register` returns: calling it is `unregister(name, handler)`. */
  datatype Unregistration<H> = Unregistration(name: string, handler: H)

  /** No name is kept with an empty handler list. */
  ghost predicate NoEmptyLists<H>(m: map<string, seq<H>>) {
    forall n :: n in m ==> m[n] != []
  }

  /** `register` on the dictionary: the handler goes after the name's current handlers. */
  function Registered<H>(m: map<string, seq<H>>, name: string, h: H): map<string, seq<H>> {
    m[name := (if name in m then m[name] else []) + [h]]
  }

  /**
   * `unregister` on the dictionary, with its answer: an unknown name answers false; a name
   * with at most one handler is deleted, whichever handler was passed; otherwise the first
   * occurrence of the handler is spliced out, or nothing happens and the answer is false.
   */
  function Unregistered<H(==)>(m: map<string, seq<H>>, name: string, h: H): (map<string, seq<H>>, bool) {
    if name !in m then (m, false)
    else if |m[name]| <= 1 then (m - {name}, true)
    else
      var i := IndexOf(m[name], h);
      if i == -1 then (m, false) else (m[name := m[name][..i] + m[name][i + 1..]], true)
  }

  /** `register` keeps every other name, and keeps the name's earlier handlers in order before h. */
  lemma RegisteredKeepsOrder<H>(m: map<string, seq<H>>, name: string, h: H)
    ensures var m' := Registered(m, name, h);
      name in m' && |m'[name]| >= 1 && m'[name][|m'[name]| - 1] == h
      && (name in m ==> m'[name][..|m[name]|] == m[name])
      && (forall n :: n != name ==> (n in m' <==> n in m) && (n in m ==> m'[n] == m[n]))
  {
  }

  /** Neither operation leaves a name with an empty list. */
  lemma {:induction false} NoEmptyListsKept<H>(m: map<string, seq<H>>, name: string, h: H)
    requires NoEmptyLists(m)
    ensures NoEmptyLists(Registered(m, name, h))
    ensures NoEmptyLists(Unregistered(m, name, h).0)
  {
    if name in m && |m[name]| > 1 {
      RemoveFirstNonEmpty(m[name], h);
    }
  }

  /** Splicing one element out of a list of two or more leaves a non-empty list. */
  lemma RemoveFirstNonEmpty<H>(s: seq<H>, h: H)
    requires |s| > 1
    ensures RemoveFirst(s, h) != []
  {
  }

  /** An unknown name answers false and changes nothing. */
  lemma UnregisterUnknown<H>(m: map<string, seq<H>>, name: string, h: H)
    requires name !in m
    ensures Unregistered(m, name, h) == (m, false)
  {
  }

  /** A name with one handler is deleted with the answer true, even when h is another handler. */
  lemma UnregisterLastDeletesName<H>(m: map<string, seq<H>>, name: string, h: H)
    requires name in m && |m[name]| <= 1
    ensures Unregistered(m, name, h).1
    ensures name !in Unregistered(m, name, h).0
    ensures forall n :: n != name && n in m ==> n in Unregistered(m, name, h).0
  {
  }

  /**
   * With two or more handlers the answer is whether h was among them, the list loses exactly
   * one occurrence of h, and every other name is untouched.
   */
  lemma {:induction false} UnregisterRemovesOne<H>(m: map<string, seq<H>>, name: string, h: H)
    requires name in m && |m[name]| > 1
    ensures var (m', removed) := Unregistered(m, name, h);
      removed == (h in m[name])
      && name in m' && multiset(m'[name]) == multiset(m[name]) - multiset{h}
      && m' - {name} == m - {name}
  {
    RemoveFirstCounts(m[name], h);
    assert Unregistered(m, name, h).0 == m[name := RemoveFirst(m[name], h)];
  }

  /** Unregistering a handler just registered under a name that did not hold it restores the dictionary. */
  lemma {:induction false} RegisterThenUnregister<H>(m: map<string, seq<H>>, name: string, h: H)
    requires NoEmptyLists(m)
    requires name in m ==> h !in m[name]
    ensures Unregistered(Registered(m, name, h), name, h) == (m, true)
  {
    var m' := Registered(m, name, h);
    if name in m {
      var s := m[name] + [h];
      assert m'[name] == s && |s| > 1;
      var i := IndexOf(s, h);
      assert s[|m[name]|] == h;
      assert i == |m[name]|;
      assert s[..i] + s[i + 1..] == m[name];
      assert m'[name := m[name]] == m;
    } else {
      assert m' - {name} == m;
    }
  }

  class EventAggregator<H(==)> {
    var handlers: map<string, seq<H>>

    ghost predicate Valid()
      reads this
    {
      NoEmptyLists(handlers)
    }

    constructor ()
      ensures Valid() && handlers == map[]
    {
      handlers := map[];
    }

    /** `register`: appends the handler (or starts the name's list) and returns its unregistration. */
    method Register(name: string, handler: H) returns (token: Unregistration<H>)
      requires Valid()
      modifies this
      ensures Valid() && handlers == Registered(old(handlers), name, handler)
      ensures token == Unregistration(name, handler)
    {
      NoEmptyListsKept(handlers, name, handler);
      if name !in handlers {
        assert [] + [handler] == [handler];
        handlers := handlers[name := [handler]];
      } else {
        handlers := handlers[name := handlers[name] + [handler]];
      }
      token := Unregistration(name, handler);
    }

    /** `unregister(name, handler)`. */
    method Unregister(name: string, handler: H) returns (removed: bool)
      requires Valid()
      modifies this
      ensures Valid() && (handlers, removed) == Unregistered(old(handlers), name, handler)
    {
      NoEmptyListsKept(handlers, name, handler);
      if name !in handlers {
        return false;
      }
      var hs := handlers[name];
      if |hs| <= 1 {
        handlers := handlers - {name};
      } else {
        var index := IndexOf(hs, handler);
        if index == -1 {
          return false;
        }
        handlers := handlers[name := hs[..index] + hs[index + 1..]];
      }
      removed := true;
    }

    /** Calling the closure `register` returned. */
    method Revoke(token: Unregistration<H>) returns (removed: bool)
      requires Valid()
      modifies this
      ensures Valid() && (handlers, removed) == Unregistered(old(handlers), token.name, token.handler)
    {
      removed := Unregister(token.name, token.handler);
    }

    /**
     * `dispatch`: the name's handlers are called in order until one answers true; `called`
     * is the handlers called. Every handler before the last one called answered false, and the
     * chain stops before the end only right after a handler answered true.
     */
    method Dispatch<Ev>(name: string, event: Ev, handle: (H, Ev) -> bool) returns (called: seq<H>)
      ensures name !in handlers ==> called == []
      ensures name in handlers ==>
                var hs := handlers[name];
                |called| <= |hs| && called == hs[..|called|]
                && (forall i :: 0 <= i < |called| - 1 ==> !handle(called[i], event))
                && (|called| < |hs| ==> called != [] && handle(called[|called| - 1], event))
    {
      called := [];
      if name !in handlers {
        return;
      }
      var hs := handlers[name];
      var i := 0;
      while i < |hs|
        invariant 0 <= i <= |hs| && called == hs[..i]
        invariant forall j :: 0 <= j < i ==> !handle(hs[j], event)
      {
        called := called + [hs[i]];
        if handle(hs[i], event) {
          return;
        }
        i := i + 1;
      }
    }
  }
}
