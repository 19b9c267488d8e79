/**
 The package loader's topological sort. `Visit` and `VisitAll` say what the search computes; the
 class does it in place, with marks, as the loader does.
 */
module LoadOrder {
  import opened Wrappers
  import opened Packets
  import opened Digraphs
  import opened Listings
  import opened Sorting

  /** Package name to the dependency names it declares. */
  type Dependencies = map<Name, seq<Name>>

  /** Dependencies between packages that are there. */
  function KnownLinks(edges: Dependencies): set<(Name, Name)> {
    set n, d | n in edges && d in edges[n] && d in edges :: (n, d)
  }

  // ----- What the search computes -----------------------------------------

  type Found = Result<seq<Name>, seq<Name>>

  /** The order extended by a package and what it needs, or the chain that closes on itself. */
  function Visit(edges: Dependencies, name: Name, path: seq<Name>, order: seq<Name>): Found
    requires name in edges
    decreases edges.Keys - SetOf(path), 0, 0
  {
    if name in order then Ok(order)
    else if name in path then Err(path[IndexOf(path, name)..] + [name])
    else
      assert SetOf(path + [name]) == SetOf(path) + {name};
      var below := VisitAll(edges, SortNames(edges[name]), path + [name], order);
      if below.Ok? then Ok(below.value + [name]) else below
  }

  function VisitAll(edges: Dependencies, names: seq<Name>, path: seq<Name>, order: seq<Name>): Found
    decreases edges.Keys - SetOf(path), 1, |names|
  {
    if names == [] then Ok(order)
    else if names[0] !in edges then VisitAll(edges, names[1..], path, order)
    else
      var first := Visit(edges, names[0], path, order);
      if first.Ok? then VisitAll(edges, names[1..], path, first.value) else first
  }

  // ----- Soundness and completeness ---------------------------------------

  /** What holds between visits. */
  ghost predicate Tidy(edges: Dependencies, path: seq<Name>, order: seq<Name>) {
    && (path != [] ==> IsWalk(KnownLinks(edges), path))
    && Distinct(order) && (forall n :: n in order ==> n in edges && n !in path)
    && SuccessorsFirst(KnownLinks(edges), order)
  }

  ghost predicate LeadsTo(edges: Dependencies, path: seq<Name>, name: Name) {
    path != [] ==> (path[|path| - 1], name) in KnownLinks(edges)
  }

  lemma WalkSnoc(E: set<(Name, Name)>, path: seq<Name>, name: Name)
    requires path != [] ==> IsWalk(E, path) && (path[|path| - 1], name) in E
    ensures IsWalk(E, path + [name])
  {
  }

  /** The part of the path from the repeated name on is a cycle. */
  lemma ChainCloses(edges: Dependencies, path: seq<Name>, name: Name)
    requires name in path && IsWalk(KnownLinks(edges), path) && LeadsTo(edges, path, name)
    ensures IsCycle(KnownLinks(edges), path[IndexOf(path, name)..] + [name])
  {
    var i := IndexOf(path, name);
    WalkSlice(KnownLinks(edges), path, i, |path|);
    WalkSnoc(KnownLinks(edges), path[i..], name);
  }

  /** A package may be listed once everything it needs is. */
  lemma Listed(edges: Dependencies, path: seq<Name>, name: Name, order: seq<Name>)
    requires Tidy(edges, path + [name], order) && name in edges && name !in path && name !in order
    requires forall d :: d in edges[name] && d in edges ==> d in order
    requires path != [] ==> IsWalk(KnownLinks(edges), path)
    ensures Tidy(edges, path, order + [name])
  {
    SuccessorsFirstSnoc(KnownLinks(edges), order, name);
    assert forall n :: n in order ==> n !in path + [name];
  }

  lemma {:induction false} VisitIsTidy(edges: Dependencies, name: Name, path: seq<Name>, order: seq<Name>)
    requires name in edges && Tidy(edges, path, order) && LeadsTo(edges, path, name)
    ensures match Visit(edges, name, path, order)
            case Ok(o) => Tidy(edges, path, o) && order <= o && name in o
            case Err(cycle) => IsCycle(KnownLinks(edges), cycle)
    decreases edges.Keys - SetOf(path), 0, 0
  {
    if name in order {
    } else if name in path {
      ChainCloses(edges, path, name);
    } else {
      var deps := SortNames(edges[name]);
      assert SetOf(path + [name]) == SetOf(path) + {name};
      WalkSnoc(KnownLinks(edges), path, name);
      SortNamesIn(edges[name]);
      VisitAllIsTidy(edges, deps, path + [name], order);
      var below := VisitAll(edges, deps, path + [name], order);
      if below.Ok? {
        assert name in path + [name];
        Listed(edges, path, name, below.value);
      }
    }
  }

  lemma {:induction false} VisitAllIsTidy(edges: Dependencies, names: seq<Name>, path: seq<Name>, order: seq<Name>)
    requires Tidy(edges, path, order) && forall n :: n in names && n in edges ==> LeadsTo(edges, path, n)
    ensures match VisitAll(edges, names, path, order)
            case Ok(o) => Tidy(edges, path, o) && order <= o && forall n :: n in names && n in edges ==> n in o
            case Err(cycle) => IsCycle(KnownLinks(edges), cycle)
    decreases edges.Keys - SetOf(path), 1, |names|
  {
    if names != [] {
      assert names == [names[0]] + names[1..];
      if names[0] !in edges {
        VisitAllIsTidy(edges, names[1..], path, order);
      } else {
        VisitIsTidy(edges, names[0], path, order);
        var first := Visit(edges, names[0], path, order);
        if first.Ok? { VisitAllIsTidy(edges, names[1..], path, first.value); }
      }
    }
  }

  /**
   The search succeeds exactly when the dependencies between known packages are acyclic. It then
   lists every package once, each after everything known it depends on; otherwise it names a real
   cycle.
   */
  lemma OrderExactlyWhenAcyclic(edges: Dependencies, names: seq<Name>)
    requires Lists(names, edges.Keys)
    ensures var found := VisitAll(edges, SortNames(names), [], []);
            && (found.Ok? <==> Acyclic(KnownLinks(edges)))
            && (found.Ok? ==> Lists(found.value, edges.Keys) && SuccessorsFirst(KnownLinks(edges), found.value))
            && (found.Err? ==> IsCycle(KnownLinks(edges), found.error))
  {
    SortNamesIn(names);
    VisitAllIsTidy(edges, SortNames(names), [], []);
    var found := VisitAll(edges, SortNames(names), [], []);
    if found.Ok? {
      OrderedAcyclic(KnownLinks(edges), found.value);
    } else {
      CycleFree(KnownLinks(edges));
    }
  }

  // ----- Only the edge map matters ----------------------------------------

  /** The same packages with the same dependencies, each list in any order. */
  ghost predicate SameEdges(a: Dependencies, b: Dependencies) {
    a.Keys == b.Keys && forall n :: n in a ==> multiset(a[n]) == multiset(b[n])
  }

  lemma {:induction false} VisitSame(a: Dependencies, b: Dependencies, name: Name, path: seq<Name>, order: seq<Name>)
    requires SameEdges(a, b) && name in a
    ensures Visit(a, name, path, order) == Visit(b, name, path, order)
    decreases a.Keys - SetOf(path), 0, 0
  {
    if name !in order && name !in path {
      assert SetOf(path + [name]) == SetOf(path) + {name};
      SortNamesForgetsOrder(a[name], b[name]);
      VisitAllSame(a, b, SortNames(a[name]), path + [name], order);
    }
  }

  lemma {:induction false} VisitAllSame(
    a: Dependencies, b: Dependencies, names: seq<Name>, path: seq<Name>, order: seq<Name>)
    requires SameEdges(a, b)
    ensures VisitAll(a, names, path, order) == VisitAll(b, names, path, order)
    decreases a.Keys - SetOf(path), 1, |names|
  {
    if names != [] {
      if names[0] !in a {
        VisitAllSame(a, b, names[1..], path, order);
      } else {
        VisitSame(a, b, names[0], path, order);
        var first := Visit(a, names[0], path, order);
        if first.Ok? { VisitAllSame(a, b, names[1..], path, first.value); }
      }
    }
  }

  /** Neither the order packages are listed in nor the order of their dependency lists matters. */
  lemma OrderForgetsListing(a: Dependencies, b: Dependencies, names: seq<Name>, others: seq<Name>)
    requires SameEdges(a, b) && Lists(names, a.Keys) && Lists(others, b.Keys)
    ensures VisitAll(a, SortNames(names), [], []) == VisitAll(b, SortNames(others), [], [])
  {
    ListingsPermute(names, others, a.Keys);
    SortNamesForgetsOrder(names, others);
    VisitAllSame(a, b, SortNames(names), [], []);
  }

  // ----- Who comes early --------------------------------------------------

  /** Some package of `names` needs `x`, or is it. */
  ghost predicate From(edges: Dependencies, names: seq<Name>, x: Name) {
    exists n :: n in names && n in edges && Reaches(KnownLinks(edges), n, x)
  }

  /** One that does comes no later than `late` in the alphabet. */
  ghost predicate Needed(edges: Dependencies, names: seq<Name>, x: Name, late: Name) {
    exists n :: n in names && n in edges && Before(n, late) && Reaches(KnownLinks(edges), n, x)
  }

  /** Whatever precedes a package of `names` was needed by then. */
  ghost predicate EarlyIfNeeded(edges: Dependencies, names: seq<Name>, order: seq<Name>) {
    forall i, j :: 0 <= i < j < |order| && order[j] in names ==> Needed(edges, names, order[i], order[j])
  }

  /** What came after the first `base` was needed by one of `names`. */
  ghost predicate AllFrom(edges: Dependencies, names: seq<Name>, base: nat, order: seq<Name>) {
    forall i :: base <= i < |order| ==> From(edges, names, order[i])
  }

  lemma FromMore(edges: Dependencies, names: seq<Name>, more: seq<Name>, x: Name)
    requires From(edges, names, x) && forall n :: n in names ==> n in more
    ensures From(edges, more, x)
  {
    var n :| n in names && n in edges && Reaches(KnownLinks(edges), n, x);
    assert n in more;
  }

  /** What a dependency needs, the package needs. */
  lemma FromAbove(edges: Dependencies, name: Name, x: Name)
    requires name in edges && From(edges, SortNames(edges[name]), x)
    ensures From(edges, [name], x)
  {
    SortNamesIn(edges[name]);
    var d :| d in SortNames(edges[name]) && d in edges && Reaches(KnownLinks(edges), d, x);
    ReachesEdge(KnownLinks(edges), name, d);
    ReachesTrans(KnownLinks(edges), name, d, x);
    assert name in [name];
  }

  lemma FromItself(edges: Dependencies, name: Name)
    requires name in edges
    ensures From(edges, [name], name)
  {
    ReachesSelf(KnownLinks(edges), name);
    assert name in [name];
  }

  /** A visit lists only what the package needs. */
  lemma {:induction false} VisitReaches(edges: Dependencies, name: Name, path: seq<Name>, order: seq<Name>)
    requires name in edges
    ensures var found := Visit(edges, name, path, order);
            found.Ok? ==> order <= found.value && AllFrom(edges, [name], |order|, found.value)
    decreases edges.Keys - SetOf(path), 0, 0
  {
    if name !in order && name !in path {
      var deps := SortNames(edges[name]);
      assert SetOf(path + [name]) == SetOf(path) + {name};
      VisitAllReaches(edges, deps, path + [name], order);
      var below := VisitAll(edges, deps, path + [name], order);
      if below.Ok? {
        FromItself(edges, name);
        forall i | |order| <= i < |below.value| ensures From(edges, [name], below.value[i]) {
          FromAbove(edges, name, below.value[i]);
        }
      }
    }
  }

  lemma {:induction false} VisitAllReaches(edges: Dependencies, names: seq<Name>, path: seq<Name>, order: seq<Name>)
    ensures var found := VisitAll(edges, names, path, order);
            found.Ok? ==> order <= found.value && AllFrom(edges, names, |order|, found.value)
    decreases edges.Keys - SetOf(path), 1, |names|
  {
    if names != [] {
      if names[0] !in edges {
        VisitAllReaches(edges, names[1..], path, order);
        var found := VisitAll(edges, names[1..], path, order);
        if found.Ok? { AllFromMore(edges, names, |order|, |order|, found.value); }
      } else {
        VisitReaches(edges, names[0], path, order);
        var first := Visit(edges, names[0], path, order);
        if first.Ok? {
          VisitAllReaches(edges, names[1..], path, first.value);
          var found := VisitAll(edges, names[1..], path, first.value);
          if found.Ok? {
            assert forall i :: 0 <= i < |first.value| ==> found.value[i] == first.value[i];
            AllFromMore(edges, names, |order|, |first.value|, found.value);
          }
        }
      }
    }
  }

  lemma AllFromMore(edges: Dependencies, names: seq<Name>, base: nat, mid: nat, order: seq<Name>)
    requires names != [] && base <= mid <= |order|
    requires forall i :: base <= i < mid ==> From(edges, [names[0]], order[i])
    requires AllFrom(edges, names[1..], mid, order)
    ensures AllFrom(edges, names, base, order)
  {
    forall i | base <= i < |order| ensures From(edges, names, order[i]) {
      FromMore(edges, if i < mid then [names[0]] else names[1..], names, order[i]);
    }
  }

  ghost predicate InOrder(names: seq<Name>) {
    forall i, j :: 0 <= i < j < |names| ==> Before(names[i], names[j])
  }

  lemma NotListedYet(order: seq<Name>, o: seq<Name>, j: nat)
    requires Distinct(o) && order <= o && |order| <= j < |o|
    ensures o[j] !in order
  {
    assert forall i :: 0 <= i < |order| ==> order[i] == o[i];
  }

  /** A package of `names` that is new in the visit of `names[k]` is `names[k]` or a later one. */
  lemma NewIsLater(edges: Dependencies, names: seq<Name>, k: nat, order: seq<Name>, x: Name)
    requires InOrder(names) && k < |names| && x in names && x in edges && x !in order
    requires forall n :: n in names[..k] && n in edges ==> n in order
    ensures Before(names[k], x) && forall n :: n in names[..k] ==> Before(n, x)
  {
    assert names == names[..k] + names[k..];
    var m :| 0 <= m < |names[k..]| && names[k..][m] == x;
    assert names[k + m] == x;
    BeforeReflexive(x);
    forall n | n in names[..k] ensures Before(n, x) {
      var c :| 0 <= c < k && names[..k][c] == n;
      assert names[c] == n;
    }
  }

  /** What is new in that visit was needed by then, where all earlier ones are listed already. */
  lemma NewIsNeeded(
    edges: Dependencies, names: seq<Name>, k: nat, order: seq<Name>, o: seq<Name>, i: nat, j: nat)
    requires InOrder(names) && k < |names| && names[k] in edges && order <= o && Distinct(o)
    requires i < j < |o| && |order| <= j && o[j] in names && o[j] in edges
    requires From(edges, if i < |order| then names[..k] else [names[k]], o[i])
    requires forall n :: n in names[..k] && n in edges ==> n in order
    ensures Needed(edges, names, o[i], o[j])
  {
    NotListedYet(order, o, j);
    NewIsLater(edges, names, k, order, o[j]);
    var among := if i < |order| then names[..k] else [names[k]];
    var n :| n in among && n in edges && Reaches(KnownLinks(edges), n, o[i]);
    assert n in names && Before(n, o[j]);
  }

  lemma VisitKeepsEarly(edges: Dependencies, names: seq<Name>, k: nat, order: seq<Name>, o: seq<Name>)
    requires InOrder(names) && k < |names| && names[k] in edges && order <= o && Distinct(o)
    requires AllFrom(edges, names[..k], 0, order) && AllFrom(edges, [names[k]], |order|, o)
    requires forall n :: n in names[..k] && n in edges ==> n in order
    requires EarlyIfNeeded(edges, names, order) && forall n :: n in o ==> n in edges
    ensures EarlyIfNeeded(edges, names, o) && AllFrom(edges, names[..k + 1], 0, o)
  {
    forall i, j | 0 <= i < j < |o| && o[j] in names ensures Needed(edges, names, o[i], o[j]) {
      if j < |order| {
        assert o[i] == order[i] && o[j] == order[j];
      } else {
        if i < |order| { assert o[i] == order[i]; }
        NewIsNeeded(edges, names, k, order, o, i, j);
      }
    }
    assert names[..k + 1][k] == names[k];
    forall i | 0 <= i < |o| ensures From(edges, names[..k + 1], o[i]) {
      if i < |order| { assert o[i] == order[i]; }
      FromMore(edges, if i < |order| then names[..k] else [names[k]], names[..k + 1], o[i]);
    }
  }

  lemma {:induction false} EarlyOn(edges: Dependencies, names: seq<Name>, k: nat, path: seq<Name>, order: seq<Name>)
    requires InOrder(names) && k <= |names| && Tidy(edges, path, order)
    requires forall n :: n in names && n in edges ==> LeadsTo(edges, path, n)
    requires EarlyIfNeeded(edges, names, order) && AllFrom(edges, names[..k], 0, order)
    requires forall n :: n in names[..k] && n in edges ==> n in order
    ensures var found := VisitAll(edges, names[k..], path, order);
            found.Ok? ==> EarlyIfNeeded(edges, names, found.value)
    decreases |names| - k
  {
    if k < |names| {
      assert names[k..][0] == names[k] && names[k..][1..] == names[k + 1..];
      assert names[..k + 1] == names[..k] + [names[k]];
      if names[k] in edges {
        VisitIsTidy(edges, names[k], path, order);
        VisitReaches(edges, names[k], path, order);
        var first := Visit(edges, names[k], path, order);
        if first.Ok? {
          VisitKeepsEarly(edges, names, k, order, first.value);
          EarlyOn(edges, names, k + 1, path, first.value);
        }
      } else {
        forall i | 0 <= i < |order| ensures From(edges, names[..k + 1], order[i]) {
          FromMore(edges, names[..k], names[..k + 1], order[i]);
        }
        EarlyOn(edges, names, k + 1, path, order);
      }
    }
  }

  /**
   The alphabet decides as far as dependencies leave a choice: a package comes before another only if
   some package no later than that one needs it, or is it.
   */
  lemma EarlyOnlyIfNeeded(edges: Dependencies, names: seq<Name>)
    requires Lists(names, edges.Keys)
    ensures var found := VisitAll(edges, SortNames(names), [], []);
            found.Ok? ==>
              forall i, j :: 0 <= i < j < |found.value| ==> Needed(edges, names, found.value[i], found.value[j])
  {
    var sorted := SortNames(names);
    SortNamesIn(names);
    OrderExactlyWhenAcyclic(edges, names);
    assert sorted[0..] == sorted;
    EarlyOn(edges, sorted, 0, [], []);
    var found := VisitAll(edges, sorted, [], []);
    if found.Ok? { NeededAmong(edges, sorted, names, found.value); }
  }

  lemma NeededAmong(edges: Dependencies, sorted: seq<Name>, names: seq<Name>, order: seq<Name>)
    requires EarlyIfNeeded(edges, sorted, order) && forall n :: n in names <==> n in sorted
    ensures forall i, j :: 0 <= i < j < |order| && order[j] in names ==> Needed(edges, names, order[i], order[j])
  {
    forall i, j | 0 <= i < j < |order| && order[j] in names ensures Needed(edges, names, order[i], order[j]) {
      assert Needed(edges, sorted, order[i], order[j]);
    }
  }

  /** The same among the dependencies of one package, where its visit is the first. */
  lemma EarlyAmongDependencies(edges: Dependencies, name: Name)
    requires name in edges
    ensures var found := Visit(edges, name, [], []);
            found.Ok? ==>
              forall i, j :: 0 <= i < j < |found.value| - 1 && found.value[j] in edges[name] ==>
                Needed(edges, edges[name], found.value[i], found.value[j])
  {
    var deps := SortNames(edges[name]);
    SortNamesIn(edges[name]);
    assert deps[0..] == deps && [] + [name] == [name];
    EarlyOn(edges, deps, 0, [name], []);
    var below := VisitAll(edges, deps, [name], []);
    if below.Ok? { NeededAmong(edges, deps, edges[name], below.value); }
  }

  // ----- The search in place ----------------------------------------------

  datatype Mark = Unvisited | InProgress | Done

  class Loader {
    const edges: Dependencies
    var marks: map<Name, Mark>
    var path: seq<Name>
    var order: seq<Name>

    ghost predicate Valid()
      reads this
    {
      && marks.Keys == edges.Keys
      && forall n :: n in marks ==>
           marks[n] == if n in order then Done else if n in path then InProgress else Unvisited
    }

    constructor (edges: Dependencies)
      ensures Valid() && this.edges == edges && path == [] && order == []
    {
      this.edges, path, order := edges, [], [];
      marks := map n | n in edges :: Unvisited;
    }

    /** On success the path is back where it was, and the order has grown. */
    ghost predicate Reached(found: Found, cycle: Option<seq<Name>>, path': seq<Name>)
      reads this
    {
      match found
      case Ok(o) => cycle.None? && Valid() && path == path' && order == o
      case Err(c) => cycle == Some(c)
    }

    method VisitName(name: Name) returns (cycle: Option<seq<Name>>)
      requires Valid() && name in edges
      modifies this
      ensures Reached(Visit(edges, name, old(path), old(order)), cycle, old(path))
      decreases edges.Keys - SetOf(path), 0
    {
      match marks[name] {
        case Done => return None;
        case InProgress =>
          var start := IndexOf(path, name);
          return Some(path[start..] + [name]);
        case Unvisited =>
      }
      assert SetOf(path + [name]) == SetOf(path) + {name};
      marks := marks[name := InProgress];
      path := path + [name];
      cycle := VisitDependencies(name);
      if cycle.Some? { return; }
      path := path[..|path| - 1];
      marks := marks[name := Done];
      order := order + [name];
      assert path == old(path);
    }

    method VisitDependencies(name: Name) returns (cycle: Option<seq<Name>>)
      requires Valid() && name in edges
      modifies this
      ensures Reached(VisitAll(edges, SortNames(edges[name]), old(path), old(order)), cycle, old(path))
      decreases edges.Keys - SetOf(path), 1
    {
      var deps := SortNames(edges[name]);
      var i := 0;
      while i < |deps|
        invariant i <= |deps| && Valid() && path == old(path)
        invariant VisitAll(edges, deps, old(path), old(order)) == VisitAll(edges, deps[i..], path, order)
      {
        assert deps[i..][0] == deps[i] && deps[i..][1..] == deps[i + 1..];
        if deps[i] in edges {
          cycle := VisitName(deps[i]);
          if cycle.Some? { return; }
        }
        i := i + 1;
      }
      cycle := None;
    }
  }

  /** `names` is whatever order the edge map yields its packages in. */
  method Order(edges: Dependencies) returns (r: Found, names: seq<Name>)
    ensures Lists(names, edges.Keys) && r == VisitAll(edges, SortNames(names), [], [])
  {
    names := Listing(edges.Keys);
    SortNamesIn(names);
    var sorted := SortNames(names);
    var loader := new Loader(edges);
    var i := 0;
    assert sorted[0..] == sorted;
    while i < |sorted|
      invariant i <= |sorted| && loader.Valid() && loader.path == []
      invariant VisitAll(edges, sorted, [], []) == VisitAll(edges, sorted[i..], [], loader.order)
    {
      assert sorted[i..][0] == sorted[i] && sorted[i..][1..] == sorted[i + 1..];
      assert sorted[i] in edges;
      var cycle := loader.VisitName(sorted[i]);
      if cycle.Some? { return Err(cycle.value), names; }
      i := i + 1;
    }
    r := Ok(loader.order);
  }
}
