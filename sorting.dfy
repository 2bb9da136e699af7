/** Dependency ordering of lattice definitions: `sort_lattices` of
    latticeconverter/utils.py. A depth-first walk from the root lattice that
    emits a lattice after the lattices it references, entering each lattice at
    most once because a working set of not-yet-entered names shrinks on every
    entry. */
module Sorting {
  import opened Dicts
  import opened LatticeData

  /** The `lattices` of a LatticeJSON record: name to child names. */
  type Lattices = map<string, seq<string>>

  /** The walk of `_sort_lattices(name)` as a function of the working set:
      the names still unentered afterwards, and the lattices emitted, in order.
      `name` itself is emitted last. */
  function PostOrder(L: Lattices, unvisited: set<string>, name: string): (r: (set<string>, seq<string>))
    requires unvisited <= L.Keys && name in unvisited
    ensures r.0 <= unvisited - {name}
    ensures Distinct(r.1) && Elems(r.1) == unvisited - r.0
    ensures |r.1| > 0 && r.1[|r.1| - 1] == name
    decreases unvisited, 0, 0
  {
    var (rest, order) := PostOrderChildren(L, unvisited - {name}, L[name]);
    DistinctConcat(order, [name]);
    (rest, order + [name])
  }

  /** The loop over one lattice's children: each child still in the working
      set is walked, in order. */
  function PostOrderChildren(L: Lattices, unvisited: set<string>, children: seq<string>): (r: (set<string>, seq<string>))
    requires unvisited <= L.Keys
    ensures r.0 <= unvisited
    ensures Distinct(r.1) && Elems(r.1) == unvisited - r.0
    decreases unvisited, 1, |children|
  {
    if children == [] then (unvisited, [])
    else if children[0] in unvisited then
      var (u1, o1) := PostOrder(L, unvisited, children[0]);
      var (u2, o2) := PostOrderChildren(L, u1, children[1..]);
      DistinctConcat(o1, o2);
      (u2, o1 + o2)
    else PostOrderChildren(L, unvisited, children[1..])
  }

  /** The order `sort_lattices` emits without `keep_unused`. */
  function SortedOrder(L: Lattices, root: string): seq<string>
    requires root in L
  {
    PostOrder(L, L.Keys, root).1
  }

  /** Every lattice referenced by a lattice of `S` is in `S` or in `pending`. */
  ghost predicate ClosedUpTo(L: Lattices, S: set<string>, pending: set<string>) {
    forall k, c :: k in S && k in L && c in L[k] && c in L ==> c in S || c in pending
  }

  /** `S` holds every lattice referenced by a lattice of `S`. */
  ghost predicate Closed(L: Lattices, S: set<string>) {
    ClosedUpTo(L, S, {})
  }

  /** Every lattice referenced by a lattice of `order` stands before it. */
  ghost predicate ChildrenFirst(L: Lattices, order: seq<string>) {
    forall i, c :: 0 <= i < |order| && order[i] in L && c in L[order[i]] && c in L ==> c in order[..i]
  }

  /** A numbering that strictly decreases from a lattice to every lattice it
      references; one exists exactly when the references have no cycle. */
  ghost predicate Layered(L: Lattices, depth: map<string, nat>) {
    L.Keys <= depth.Keys
    && forall k, c :: k in L && c in L[k] && c in L ==> depth[c] < depth[k]
  }

  /** No lattice references itself through a chain of references. */
  ghost predicate Acyclic(L: Lattices) {
    exists depth :: Layered(L, depth)
  }

  /** The lattices entered so far are closed up to those still being walked. */
  lemma {:induction false} PostOrderClosed(L: Lattices, unvisited: set<string>, name: string,
                                           walking: set<string>, done: set<string>)
    requires unvisited <= L.Keys && name in unvisited
    requires L.Keys - unvisited <= done + walking
    requires ClosedUpTo(L, done, walking)
    ensures ClosedUpTo(L, done + Elems(PostOrder(L, unvisited, name).1), walking)
    decreases unvisited, 0, 0
  {
    var (rest, order) := PostOrderChildren(L, unvisited - {name}, L[name]);
    forall x | x in L.Keys - (unvisited - {name}) ensures x in done + (walking + {name}) {
      if x != name {
        assert x in L.Keys - unvisited;
      }
    }
    assert ClosedUpTo(L, done, walking + {name});
    PostOrderChildrenClosed(L, unvisited - {name}, L[name], walking + {name}, done);
    assert Elems(order + [name]) == Elems(order) + {name};
  }

  /** Proof step: `PostOrderClosed` for the walk over a list of children. */
  lemma {:induction false} PostOrderChildrenClosed(L: Lattices, unvisited: set<string>, children: seq<string>,
                                                   walking: set<string>, done: set<string>)
    requires unvisited <= L.Keys
    requires L.Keys - unvisited <= done + walking
    requires ClosedUpTo(L, done, walking)
    ensures ClosedUpTo(L, done + Elems(PostOrderChildren(L, unvisited, children).1), walking)
    ensures forall c :: c in children && c in L ==> c in done + Elems(PostOrderChildren(L, unvisited, children).1) + walking
    decreases unvisited, 1, |children|
  {
    if children == [] {
    } else if children[0] in unvisited {
      var (u1, o1) := PostOrder(L, unvisited, children[0]);
      var (u2, o2) := PostOrderChildren(L, u1, children[1..]);
      PostOrderClosed(L, unvisited, children[0], walking, done);
      assert Elems(o1) == unvisited - u1;
      forall x | x in L.Keys - u1 ensures x in (done + Elems(o1)) + walking {
        if x in unvisited {
          assert x in Elems(o1);
        } else {
          assert x in L.Keys - unvisited;
        }
      }
      PostOrderChildrenClosed(L, u1, children[1..], walking, done + Elems(o1));
      assert Elems(o1 + o2) == Elems(o1) + Elems(o2);
      assert forall c :: c in children ==> c == children[0] || c in children[1..];
    } else {
      PostOrderChildrenClosed(L, unvisited, children[1..], walking, done);
      assert PostOrderChildren(L, unvisited, children) == PostOrderChildren(L, unvisited, children[1..]);
      assert forall c :: c in children ==> c == children[0] || c in children[1..];
      assert children[0] in L ==> children[0] in L.Keys - unvisited;
    }
  }

  /** A walk from inside a closed set never leaves it. */
  lemma {:induction false} PostOrderWithin(L: Lattices, unvisited: set<string>, name: string, S: set<string>)
    requires unvisited <= L.Keys && name in unvisited
    requires name in S && Closed(L, S)
    ensures Elems(PostOrder(L, unvisited, name).1) <= S
    decreases unvisited, 0, 0
  {
    var (rest, order) := PostOrderChildren(L, unvisited - {name}, L[name]);
    PostOrderChildrenWithin(L, unvisited - {name}, L[name], S);
    assert Elems(order + [name]) == Elems(order) + {name};
  }

  /** Proof step: `PostOrderWithin` for the walk over a list of children. */
  lemma {:induction false} PostOrderChildrenWithin(L: Lattices, unvisited: set<string>, children: seq<string>, S: set<string>)
    requires unvisited <= L.Keys
    requires Closed(L, S)
    requires forall c :: c in children && c in L ==> c in S
    ensures Elems(PostOrderChildren(L, unvisited, children).1) <= S
    decreases unvisited, 1, |children|
  {
    if children == [] {
    } else if children[0] in unvisited {
      var (u1, o1) := PostOrder(L, unvisited, children[0]);
      var (u2, o2) := PostOrderChildren(L, u1, children[1..]);
      PostOrderWithin(L, unvisited, children[0], S);
      PostOrderChildrenWithin(L, u1, children[1..], S);
      assert Elems(o1 + o2) == Elems(o1) + Elems(o2);
    } else {
      PostOrderChildrenWithin(L, unvisited, children[1..], S);
    }
  }

  /** Proof step: a lattice whose children are all emitted keeps children first
      when it is emitted. */
  lemma ChildrenFirstAppend(L: Lattices, order: seq<string>, name: string)
    requires ChildrenFirst(L, order)
    requires name in L ==> forall c :: c in L[name] && c in L ==> c in order
    ensures ChildrenFirst(L, order + [name])
  {
    var s := order + [name];
    forall i, c | 0 <= i < |s| && s[i] in L && c in L[s[i]] && c in L ensures c in s[..i] {
      if i < |order| {
        assert s[..i] == order[..i];
      } else {
        assert s[..i] == order;
      }
    }
  }

  /** With a layering, a walk emits every lattice after the lattices it
      references, provided the lattices being walked lie above `name`. */
  lemma {:induction false} PostOrderLayered(L: Lattices, depth: map<string, nat>, unvisited: set<string>, name: string,
                                            walking: set<string>, order: seq<string>)
    requires Layered(L, depth)
    requires unvisited <= L.Keys && name in unvisited && walking <= L.Keys
    requires L.Keys - unvisited <= Elems(order) + walking
    requires ChildrenFirst(L, order)
    requires forall x :: x in walking ==> depth[name] < depth[x]
    ensures ChildrenFirst(L, order + PostOrder(L, unvisited, name).1)
    decreases unvisited, 0, 0, 0
  {
    var (rest, emitted) := PostOrderChildren(L, unvisited - {name}, L[name]);
    forall x | x in L.Keys - (unvisited - {name}) ensures x in Elems(order) + (walking + {name}) {
      if x != name {
        assert x in L.Keys - unvisited;
      }
    }
    PostOrderChildrenLayered(L, depth, unvisited - {name}, L[name], walking + {name}, order);
    ChildrenFirstAppend(L, order + emitted, name);
    assert order + emitted + [name] == order + (emitted + [name]);
  }

  /** Proof step: `PostOrderLayered` for the walk over a list of children. */
  lemma {:induction false} PostOrderChildrenLayered(L: Lattices, depth: map<string, nat>, unvisited: set<string>,
                                                    children: seq<string>, walking: set<string>, order: seq<string>)
    requires Layered(L, depth)
    requires unvisited <= L.Keys && walking <= L.Keys
    requires L.Keys - unvisited <= Elems(order) + walking
    requires ChildrenFirst(L, order)
    requires forall c, x :: c in children && c in L && x in walking ==> depth[c] < depth[x]
    ensures ChildrenFirst(L, order + PostOrderChildren(L, unvisited, children).1)
    ensures forall c :: c in children && c in L ==> c in order + PostOrderChildren(L, unvisited, children).1
    decreases unvisited, 1, |children|, 1
  {
    var r := PostOrderChildren(L, unvisited, children);
    if children == [] {
      assert order + r.1 == order;
    } else if children[0] in unvisited {
      PostOrderChildrenLayeredEnter(L, depth, unvisited, children, walking, order);
    } else {
      var c0 := children[0];
      assert r == PostOrderChildren(L, unvisited, children[1..]);
      PostOrderChildrenLayered(L, depth, unvisited, children[1..], walking, order);
      forall c | c in children && c in L ensures c in order + r.1 {
        if c != c0 {
          assert c in children[1..];
        } else {
          assert c in L.Keys - unvisited;
          assert c !in walking;
          assert c in Elems(order);
        }
      }
    }
  }

  /** The case of `PostOrderChildrenLayered` where the first child is entered. */
  lemma {:induction false} PostOrderChildrenLayeredEnter(L: Lattices, depth: map<string, nat>, unvisited: set<string>,
                                                         children: seq<string>, walking: set<string>, order: seq<string>)
    requires Layered(L, depth)
    requires unvisited <= L.Keys && walking <= L.Keys
    requires L.Keys - unvisited <= Elems(order) + walking
    requires ChildrenFirst(L, order)
    requires forall c, x :: c in children && c in L && x in walking ==> depth[c] < depth[x]
    requires children != [] && children[0] in unvisited
    ensures ChildrenFirst(L, order + PostOrderChildren(L, unvisited, children).1)
    ensures forall c :: c in children && c in L ==> c in order + PostOrderChildren(L, unvisited, children).1
    decreases unvisited, 1, |children|, 0
  {
    var c0 := children[0];
    var p := PostOrder(L, unvisited, c0);
    var q := PostOrderChildren(L, p.0, children[1..]);
    assert PostOrderChildren(L, unvisited, children).1 == p.1 + q.1;
    PostOrderLayered(L, depth, unvisited, c0, walking, order);
    CoveredAfterWalk(L.Keys, unvisited, p.0, order, p.1, walking);
    PostOrderChildrenLayered(L, depth, p.0, children[1..], walking, order + p.1);
    AppendAssoc(order, p.1, q.1);
    forall c | c in children && c in L ensures c in order + (p.1 + q.1) {
      if c != c0 {
        assert c in children[1..];
      } else {
        LastIn(order, p.1, q.1);
      }
    }
  }

  /** One turn of the loop over `children[i..]`: the child is walked when it
      is still unentered, and skipped otherwise. */
  lemma ChildrenStep(L: Lattices, unvisited: set<string>, children: seq<string>, i: nat)
    requires unvisited <= L.Keys && i < |children|
    ensures children[i] in unvisited ==>
              var (u1, o1) := PostOrder(L, unvisited, children[i]);
              PostOrderChildren(L, unvisited, children[i..])
              == (PostOrderChildren(L, u1, children[i + 1..]).0, o1 + PostOrderChildren(L, u1, children[i + 1..]).1)
    ensures children[i] !in unvisited ==>
              PostOrderChildren(L, unvisited, children[i..]) == PostOrderChildren(L, unvisited, children[i + 1..])
  {
    assert children[i..][0] == children[i] && children[i..][1..] == children[i + 1..];
  }

  /** After a walk that emitted `emitted` and left `rest` unentered, every
      lattice outside `rest` is emitted or still being walked. */
  lemma CoveredAfterWalk(keys: set<string>, unvisited: set<string>, rest: set<string>,
                         order: seq<string>, emitted: seq<string>, walking: set<string>)
    requires keys - unvisited <= Elems(order) + walking
    requires Elems(emitted) == unvisited - rest
    ensures keys - rest <= Elems(order + emitted) + walking
  {
    forall x | x in keys - rest ensures x in Elems(order + emitted) + walking {
      if x in unvisited {
        assert x in emitted;
        assert x in order + emitted;
      } else if x !in walking {
        assert x in keys - unvisited;
        assert x in Elems(order);
        assert x in order;
        assert x in order + emitted;
      }
    }
  }

  /** Proof step: concatenation regrouped. */
  lemma AppendAssoc(a: seq<string>, b: seq<string>, c: seq<string>)
    ensures a + b + c == a + (b + c)
  {
  }

  /** Proof step: the last name of a middle part is in the whole. */
  lemma LastIn(a: seq<string>, b: seq<string>, c: seq<string>)
    requires |b| > 0
    ensures b[|b| - 1] in a + (b + c)
  {
    assert (a + (b + c))[|a| + |b| - 1] == b[|b| - 1];
  }



  /** Without `keep_unused`, the emitted lattices hold the root and every
      lattice referenced from an emitted one. */
  lemma SortedOrderClosed(L: Lattices, root: string)
    requires root in L
    ensures root in SortedOrder(L, root)
    ensures Closed(L, Elems(SortedOrder(L, root)))
  {
    PostOrderClosed(L, L.Keys, root, {}, {});
    assert {} + Elems(SortedOrder(L, root)) == Elems(SortedOrder(L, root));
  }

  /** ... and nothing else: they lie inside every closed set that holds the
      root, so they are exactly the lattices reachable from the root. */
  lemma SortedOrderReachable(L: Lattices, root: string, S: set<string>)
    requires root in L && root in S && Closed(L, S)
    ensures Elems(SortedOrder(L, root)) <= S
  {
    PostOrderWithin(L, L.Keys, root, S);
  }

  /** For references without a cycle, every lattice comes after the lattices
      it references. */
  lemma SortedOrderChildrenFirst(L: Lattices, root: string)
    requires root in L && Acyclic(L)
    ensures ChildrenFirst(L, SortedOrder(L, root))
  {
    var depth :| Layered(L, depth);
    PostOrderLayered(L, depth, L.Keys, root, {}, []);
    assert [] + SortedOrder(L, root) == SortedOrder(L, root);
  }

  /** The state of `sort_lattices` that its nested `_sort_lattices` closes
      over: the lattices, the working set `lattices_set` and the result dict
      `lattices_sorted`. */
  class Sorter {
    const lattices: Lattices
    var unvisited: set<string>
    var sorted: Dict<seq<string>>

    ghost predicate Valid()
      reads this
    {
      unvisited <= lattices.Keys
      && sorted.Valid()
      && Elems(sorted.keys) !! unvisited
      && forall k :: k in sorted.items ==> k in lattices && sorted.items[k] == lattices[k]
    }

    constructor (L: Lattices)
      ensures Valid()
      ensures lattices == L && unvisited == L.Keys && sorted == Empty()
    {
      lattices := L;
      unvisited := L.Keys;
      sorted := Empty();
    }

    /** `_sort_lattices(name)`: take `name` out of the working set, walk the
        children still in it, then add `name` to the result. */
    method Visit(name: string)
      requires Valid() && name in unvisited
      modifies this
      ensures Valid()
      ensures unvisited == PostOrder(lattices, old(unvisited), name).0
      ensures sorted.keys == old(sorted.keys) + PostOrder(lattices, old(unvisited), name).1
      decreases unvisited
    {
      unvisited := unvisited - {name};
      ghost var u0 := unvisited;
      ghost var keys0 := sorted.keys;
      var children := lattices[name];
      var i := 0;
      while i < |children|
        invariant 0 <= i <= |children|
        invariant Valid() && unvisited <= u0 && name !in sorted.items
        invariant PostOrderChildren(lattices, unvisited, children[i..]).0 == PostOrderChildren(lattices, u0, children).0
        invariant sorted.keys + PostOrderChildren(lattices, unvisited, children[i..]).1
                  == keys0 + PostOrderChildren(lattices, u0, children).1
      {
        ChildrenStep(lattices, unvisited, children, i);
        if children[i] in unvisited {
          ghost var before := sorted.keys;
          ghost var u := unvisited;
          Visit(children[i]);
          AppendAssoc(before, PostOrder(lattices, u, children[i]).1,
                      PostOrderChildren(lattices, unvisited, children[i + 1..]).1);
        }
        i := i + 1;
      }
      assert children[i..] == [];
      assert unvisited == PostOrderChildren(lattices, u0, children).0;
      assert sorted.keys == keys0 + PostOrderChildren(lattices, u0, children).1;
      PutValid(sorted, name, lattices[name]);
      sorted := sorted.Put(name, lattices[name]);
      assert sorted.keys == keys0 + (PostOrderChildren(lattices, u0, children).1 + [name]);
    }

    /** `lattices_set.pop()`: take any name out of the working set. */
    method Pop() returns (name: string)
      requires Valid() && unvisited != {}
      modifies this
      ensures Valid()
      ensures name in old(unvisited) && unvisited == old(unvisited) - {name} && sorted == old(sorted)
    {
      name :| name in unvisited;
      unvisited := unvisited - {name};
    }

    /** `_sort_lattices(name)` called from outside the walk: its first
        statement, `lattices_set.remove(name)`, raises `KeyError` when `name`
        is not in the working set, before anything changes. */
    method Enter(name: string) returns (r: Result<()>)
      requires Valid()
      modifies this
      ensures Valid()
      ensures r.Err? <==> name !in old(unvisited)
      ensures r.Err? ==> r.error == KeyError(name) && unvisited == old(unvisited) && sorted == old(sorted)
      ensures r.Ok? ==> name in old(unvisited)
                        && unvisited == PostOrder(lattices, old(unvisited), name).0
                        && sorted.keys == old(sorted.keys) + PostOrder(lattices, old(unvisited), name).1
    {
      if name !in unvisited {
        return Err(KeyError(name));
      }
      Visit(name);
      r := Ok(());
    }

    /** The `keep_unused` loop as written: `_sort_lattices(lattices_set.pop())`
        while the working set is not empty. The popped name has already left
        the set, so `Enter` raises `KeyError` for it on the first turn: the
        loop fails exactly when a lattice is left over, and changes nothing
        when none is. */
    method KeepUnused() returns (r: Result<()>)
      requires Valid()
      modifies this
      ensures r.Err? <==> old(unvisited) != {}
      ensures r.Err? ==> r.error.KeyError? && r.error.key in old(unvisited)
      ensures sorted == old(sorted)
    {
      // The source's `while` never reaches a second turn: its first one raises.
      if unvisited != {} {
        var name := Pop();
        r := Enter(name);
      } else {
        r := Ok(());
      }
    }

    /** What `sort_lattices` does after the walk from the start: with
        `keep_unused` the loop of `KeepUnused`, otherwise a warning for every
        lattice left in the working set; then the result dict. */
    method Finish(keepUnused: bool) returns (r: Result<Dict<seq<string>>>, warnings: seq<Warning>)
      requires Valid()
      modifies this
      ensures r.Err? <==> keepUnused && old(unvisited) != {}
      ensures r.Err? ==> r.error.KeyError? && r.error.key in old(unvisited) && warnings == []
      ensures r.Ok? ==> r.value == old(sorted)
      ensures r.Ok? && !keepUnused ==> DiscardsExactly(warnings, old(unvisited))
      ensures r.Ok? && keepUnused ==> old(unvisited) == {} && warnings == []
    {
      if keepUnused {
        var rest := KeepUnused();
        if rest.Err? {
          return Err(rest.error), [];
        }
        warnings := [];
      } else {
        warnings := DiscardUnused(unvisited);
      }
      r := Ok(sorted);
    }

    /** The `keep_unused` loop as the parameter's name and the promise of a
        sorted dict of the lattices (utils.py:21-22) call for: while the
        working set is not empty, walk from any name still in it. Every lattice is
        then in the result, after the lattices already there. (The source
        pops the name before walking; see `SortLattices`.) */
    method VisitRest()
      requires Valid()
      requires Elems(sorted.keys) == lattices.Keys - unvisited
      modifies this
      ensures Valid() && unvisited == {}
      ensures old(sorted.keys) <= sorted.keys
      ensures Elems(sorted.keys) == lattices.Keys
      ensures Acyclic(lattices) && ChildrenFirst(lattices, old(sorted.keys)) ==> ChildrenFirst(lattices, sorted.keys)
    {
      ghost var keys0 := sorted.keys;
      while unvisited != {}
        invariant Valid()
        invariant Elems(sorted.keys) == lattices.Keys - unvisited
        invariant keys0 <= sorted.keys
        invariant Acyclic(lattices) && ChildrenFirst(lattices, keys0) ==> ChildrenFirst(lattices, sorted.keys)
        decreases unvisited
      {
        var name :| name in unvisited;
        ghost var before := sorted.keys;
        ghost var u := unvisited;
        if Acyclic(lattices) && ChildrenFirst(lattices, keys0) {
          var depth :| Layered(lattices, depth);
          PostOrderLayered(lattices, depth, unvisited, name, {}, before);
        }
        Visit(name);
        assert Elems(sorted.keys) == Elems(before) + (u - unvisited);
      }
    }
  }

  /** The lattice `sort_lattices` starts from: `root`, or the record's own. */
  function StartOf(latticejson: LatticeJson, root: Option<string>): string {
    if root.Some? then root.value else latticejson.root
  }

  /** One "Discard unused lattice" warning for each name of `unused`, and no other. */
  ghost predicate DiscardsExactly(warnings: seq<Warning>, unused: set<string>) {
    (forall i :: 0 <= i < |warnings| ==> warnings[i].DiscardUnusedLattice? && warnings[i].lattice in unused)
    && (forall x :: x in unused ==> DiscardUnusedLattice(x) in warnings)
    && (forall i, j :: 0 <= i < j < |warnings| ==> warnings[i] != warnings[j])
  }

  /** `for lattice in lattices_set: warn(...)`, over a set in any order. */
  method DiscardUnused(unused: set<string>) returns (warnings: seq<Warning>)
    ensures DiscardsExactly(warnings, unused)
  {
    warnings := [];
    var rest := unused;
    while rest != {}
      invariant rest <= unused
      invariant DiscardsExactly(warnings, unused - rest)
      decreases rest
    {
      var lattice :| lattice in rest;
      warnings := warnings + [DiscardUnusedLattice(lattice)];
      rest := rest - {lattice};
    }
  }

  /** The walk from `start` splits the lattices into those it emits and those
      it leaves unentered. */
  lemma SortedOrderRest(L: Lattices, start: string)
    requires start in L
    ensures Elems(SortedOrder(L, start)) == L.Keys - PostOrder(L, L.Keys, start).0
    ensures L.Keys - Elems(SortedOrder(L, start)) == PostOrder(L, L.Keys, start).0
  {
  }

  /** A walk that leaves nothing unreached emits every lattice. */
  lemma ReachesAll(L: Lattices, start: string)
    requires start in L && PostOrder(L, L.Keys, start).0 == {}
    ensures Elems(SortedOrder(L, start)) == L.Keys
  {
    SortedOrderRest(L, start);
  }

  /** `sort_lattices` with `keep_unused=True` as the parameter's name and
      the docstring's "sorted dict of lattice objects" (utils.py:21-22) call
      for, once the start is known to be a lattice: the walk from the start, then
      from every lattice left over. */
  method SortAll(L: Lattices, start: string) returns (sorted: Dict<seq<string>>)
    requires start in L
    ensures sorted.Valid()
    ensures forall k :: k in sorted.items ==> k in L && sorted.items[k] == L[k]
    ensures SortedOrder(L, start) <= sorted.keys && Elems(sorted.keys) == L.Keys
    ensures Acyclic(L) ==> ChildrenFirst(L, sorted.keys)
  {
    var sorter := WalkFrom(L, start);
    sorter.VisitRest();
    sorted := sorter.sorted;
  }

  /** A fresh sorter after the walk from `start`. */
  method WalkFrom(L: Lattices, start: string) returns (sorter: Sorter)
    requires start in L
    ensures fresh(sorter) && sorter.Valid() && sorter.lattices == L
    ensures sorter.sorted.keys == SortedOrder(L, start)
    ensures Elems(sorter.sorted.keys) == L.Keys - sorter.unvisited
    ensures Acyclic(L) ==> ChildrenFirst(L, sorter.sorted.keys)
  {
    sorter := new Sorter(L);
    sorter.Visit(start);
    assert [] + SortedOrder(L, start) == SortedOrder(L, start);
    WalkedFrom(L, start);
    if Acyclic(L) {
      SortedOrderChildrenFirst(L, start);
    }
  }

  /** The lattices the walk from `start` never reaches. */
  function Unreached(L: Lattices, start: string): set<string>
    requires start in L
  {
    PostOrder(L, L.Keys, start).0
  }

  /** `sort_lattices(latticejson, root, keep_unused)` as written.

      A start that is not a lattice fails the first `lattices_set.remove`.
      Without `keep_unused` the result is the walk from the start, with a
      warning for every other lattice. With `keep_unused` the loop
      (`Sorter.KeepUnused`) raises `KeyError` for the first leftover name it
      pops, so the call succeeds only when every lattice is reached from the
      start. */
  method SortLattices(latticejson: LatticeJson, root: Option<string>, keepUnused: bool)
    returns (r: Result<Dict<seq<string>>>, warnings: seq<Warning>)
    ensures var L := latticejson.lattices.items; var start := StartOf(latticejson, root);
              r.Err? <==> start !in L || (keepUnused && Unreached(L, start) != {})
    ensures StartOf(latticejson, root) !in latticejson.lattices.items ==>
              r == Err(KeyError(StartOf(latticejson, root)))
    ensures var L := latticejson.lattices.items; var start := StartOf(latticejson, root);
              start in L && r.Err? ==> r.error.KeyError? && r.error.key in Unreached(L, start)
    ensures r.Err? ==> warnings == []
    ensures r.Ok? ==> r.value.Valid()
    ensures r.Ok? ==> forall k :: k in r.value.items ==>
              k in latticejson.lattices.items && r.value.items[k] == latticejson.lattices.items[k]
    ensures r.Ok? ==> r.value.keys == SortedOrder(latticejson.lattices.items, StartOf(latticejson, root))
    ensures r.Ok? && !keepUnused ==>
              DiscardsExactly(warnings, latticejson.lattices.items.Keys - Elems(r.value.keys))
    ensures r.Ok? && keepUnused ==> Elems(r.value.keys) == latticejson.lattices.items.Keys && warnings == []
  {
    var L := latticejson.lattices.items;
    var start := StartOf(latticejson, root);
    var sorter, entered := Begin(L, start);
    if entered.Err? {
      return Err(entered.error), [];
    }
    WalkedFrom(L, start);
    r, warnings := sorter.Finish(keepUnused);
  }

  /** A fresh sorter, and the first call `_sort_lattices(start)` on it. */
  method Begin(L: Lattices, start: string) returns (sorter: Sorter, entered: Result<()>)
    ensures fresh(sorter) && sorter.Valid() && sorter.lattices == L
    ensures entered.Err? <==> start !in L
    ensures entered.Err? ==> entered.error == KeyError(start)
    ensures entered.Ok? ==> sorter.sorted.keys == SortedOrder(L, start) && sorter.unvisited == Unreached(L, start)
  {
    sorter := new Sorter(L);
    entered := sorter.Enter(start);
    if entered.Ok? {
      assert [] + SortedOrder(L, start) == SortedOrder(L, start);
    }
  }

  /** The walk from `start` emits exactly the lattices it does not leave
      unreached. */
  lemma WalkedFrom(L: Lattices, start: string)
    requires start in L
    ensures Elems(SortedOrder(L, start)) == L.Keys - Unreached(L, start)
    ensures Unreached(L, start) == {} ==> Elems(SortedOrder(L, start)) == L.Keys
  {
    SortedOrderRest(L, start);
    if Unreached(L, start) == {} {
      ReachesAll(L, start);
    }
  }

  /** Two lattices `A` and `B` with no children, started from `A`: `B` is
      never reached, so `SortLattices` with `keep_unused` pops it and raises
      `KeyError("B")` instead of keeping both lattices, as `keep_unused` says. */
  lemma KeepUnusedRaises()
    ensures Unreached(map["A" := [], "B" := []], "A") == {"B"}
  {
    var L: Lattices := map["A" := [], "B" := []];
    assert PostOrderChildren(L, L.Keys - {"A"}, L["A"]) == (L.Keys - {"A"}, []);
  }
}
