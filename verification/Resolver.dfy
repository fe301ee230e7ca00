/**
 The start-order resolver: Kahn's algorithm over a sorted ready queue, with duplicate,
 unknown-reference and cycle reports, and the reverse-order shutdown that consumes its plan.
 */
module Resolver {
  import opened Basics
  import opened StringOrder
  import opened Dependencies
  import opened CycleFinder

  datatype Resolution =
    | Plan(order: seq<Unit>)
    | Duplicate(name: string)
    | UnknownDep(unit: string, dep: string)
    | Cyclic(path: Option<seq<string>>)

  // ----- what a plan is -----

  ghost predicate Ready(g: Graph, done: set<string>, n: string)
  {
    n in g && n !in done && g[n] <= done
  }

  /** Always take the smallest-named ready unit. */
  ghost predicate Greedy(g: Graph, s: seq<string>)
  {
    forall i :: 0 <= i < |s| ==> LeastReady(g, ToSet(s[..i]), s[i])
  }

  ghost predicate LeastReady(g: Graph, done: set<string>, n: string)
  {
    Ready(g, done, n) && forall m :: Ready(g, done, m) ==> Le(n, m)
  }

  /** `order` lists the units once each, in the order that always starts the smallest-named
      unit whose dependencies have all been started. */
  ghost predicate IsPlan(units: seq<Unit>, order: seq<Unit>)
  {
    && DistinctNames(units)
    && multiset(order) == multiset(units)
    && Greedy(GraphOf(units), Names(order))
  }

  lemma GreedyIsTopological(g: Graph, s: seq<string>)
    requires Greedy(g, s)
    ensures Topological(g, s) && NoDuplicates(s)
  {
    forall i, j | 0 <= i < j < |s| ensures s[i] != s[j] {
      assert s[..j][i] in ToSet(s[..j]);
      assert LeastReady(g, ToSet(s[..j]), s[j]);
    }
    forall i | 0 <= i < |s| ensures s[i] in g && g[s[i]] <= ToSet(s[..i]) {
      assert LeastReady(g, ToSet(s[..i]), s[i]);
    }
  }

  lemma {:induction false} GreedyAgree(g: Graph, s: seq<string>, t: seq<string>, k: nat)
    requires Greedy(g, s) && Greedy(g, t) && k <= |s| && k <= |t|
    ensures s[..k] == t[..k]
  {
    if k > 0 {
      GreedyAgree(g, s, t, k - 1);
      assert s[..k] == s[..k - 1] + [s[k - 1]] && t[..k] == t[..k - 1] + [t[k - 1]];
      assert LeastReady(g, ToSet(s[..k - 1]), s[k - 1]);
      assert LeastReady(g, ToSet(t[..k - 1]), t[k - 1]);
      LeAntisymmetric(s[k - 1], t[k - 1]);
    }
  }

  lemma SameElements<T>(s: seq<T>, t: seq<T>)
    requires multiset(s) == multiset(t)
    ensures ToSet(s) == ToSet(t) && |s| == |t|
  {
    assert |multiset(s)| == |s| && |multiset(t)| == |t|;
    forall x ensures x in s <==> x in t {
      assert x in multiset(s) <==> x in multiset(t);
    }
  }

  /** The plan depends only on the set of units: any two plans for permutations of the same
      units are the same sequence. */
  lemma PlanIsUnique(u: seq<Unit>, v: seq<Unit>, o: seq<Unit>, q: seq<Unit>)
    requires multiset(u) == multiset(v)
    requires IsPlan(u, o) && IsPlan(v, q)
    ensures o == q
  {
    SameElements(u, v);
    GraphDependsOnSet(u, v);
    SameElements(o, u);
    SameElements(q, v);
    GreedyAgree(GraphOf(u), Names(o), Names(q), |o|);
    assert Names(o)[..|o|] == Names(o) && Names(q)[..|o|] == Names(q);
    forall i | 0 <= i < |o| ensures o[i] == q[i] {
      SameNameSameUnit(u, o[i], q[i]);
    }
  }

  lemma SameNameSameUnit(units: seq<Unit>, a: Unit, b: Unit)
    requires DistinctNames(units) && a in ToSet(units) && b in ToSet(units) && a.name == b.name
    ensures a == b
  {
    var i :| 0 <= i < |units| && units[i] == a;
    var j :| 0 <= j < |units| && units[j] == b;
    assert Names(units)[i] == Names(units)[j];
  }

  /** Everything a unit depends on comes earlier in the plan. */
  lemma DependenciesComeFirst(units: seq<Unit>, order: seq<Unit>, i: nat, j: nat)
    requires IsPlan(units, order) && i < |order| && j < |order|
    requires order[j].name in DepSet(order[i])
    ensures j < i
  {
    var g, s := GraphOf(units), Names(order);
    GreedyIsTopological(g, s);
    SameElements(order, units);
    assert order[i] in ToSet(units);
    var k :| 0 <= k < |units| && units[k] == order[i];
    assert s[j] in ToSet(s[..i]);
    var m :| 0 <= m < i && s[..i][m] == s[j];
    assert s[m] == s[j];
  }

  /** Of two units that could both be started, the one with the smaller name is. */
  lemma SmallestNameFirst(units: seq<Unit>, order: seq<Unit>, i: nat, j: nat)
    requires IsPlan(units, order) && i < j < |order|
    requires forall k :: 0 <= k < |order| && order[k].name in DepSet(order[j]) ==> k < i
    requires forall x :: x in DepSet(order[j]) ==> x in Names(order)
    ensures Lt(order[i].name, order[j].name)
  {
    hide DepSet;
    var g, s := GraphOf(units), Names(order);
    GreedyIsTopological(g, s);
    SameElements(order, units);
    assert order[j] in ToSet(units);
    var m :| 0 <= m < |units| && units[m] == order[j];
    forall x | x in g[s[j]] ensures x in ToSet(s[..i]) {
      var k :| 0 <= k < |s| && s[k] == x;
      assert s[..i][k] == x;
    }
    assert s[j] !in ToSet(s[..i]);
    assert LeastReady(g, ToSet(s[..i]), s[i]) && Ready(g, ToSet(s[..i]), s[j]);
    if Le(s[j], s[i]) {
      LeAntisymmetric(s[i], s[j]);
    }
  }

  // ----- state of Kahn's algorithm -----

  ghost predicate DoneClosed(g: Graph, done: set<string>)
  {
    forall n :: n in done ==> n in g && g[n] <= done
  }

  ghost function Pending(deps: set<string>, done: set<string>, late: bool): nat
  {
    |deps - done| + if late then 1 else 0
  }

  /** In-degrees count the dependencies not yet done; a unit in `late` has not been told about
      the last one done. */
  ghost predicate Degrees(g: Graph, done: set<string>, inDegree: map<string, int>, late: set<string>)
  {
    && (forall n :: n in inDegree <==> n in g)
    && forall n :: n in g ==> inDegree[n] == Pending(g[n], done, n in late)
  }

  /** The queue holds exactly the ready units, except those still late. */
  ghost predicate Queued(g: Graph, done: set<string>, queue: seq<string>, late: set<string>)
  {
    && NoDuplicates(queue)
    && forall n :: n in queue <==> Ready(g, done, n) && n !in late
  }

  ghost function DependantsOf(g: Graph, name: string): set<string>
  {
    set n | n in g && name in g[n]
  }

  lemma PopKeeps(g: Graph, done: set<string>, inDegree: map<string, int>, queue: seq<string>, name: string)
    requires DoneClosed(g, done) && Degrees(g, done, inDegree, {})
    requires queue != [] && queue[0] == name && Queued(g, done, queue, {})
    ensures DoneClosed(g, done + {name})
    ensures Degrees(g, done + {name}, inDegree, DependantsOf(g, name))
    ensures Queued(g, done + {name}, queue[1..], DependantsOf(g, name))
    ensures DependantsOf(g, name) !! done + {name}
  {
    hide *;
    HeadIsReady(g, done, queue);
    PopDone(g, done, name);
    PopDegrees(g, done, inDegree, name);
    PopQueue(g, done, queue, name);
  }

  lemma PopDone(g: Graph, done: set<string>, name: string)
    requires DoneClosed(g, done) && Ready(g, done, name)
    ensures name !in done && DoneClosed(g, done + {name})
    ensures DependantsOf(g, name) !! done + {name}
  {
    forall n | n in DependantsOf(g, name) ensures n !in done + {name} {
      assert name in g[n];
    }
  }

  lemma HeadIsReady(g: Graph, done: set<string>, queue: seq<string>)
    requires queue != [] && Queued(g, done, queue, {})
    ensures Ready(g, done, queue[0])
  {
    assert queue[0] in queue;
  }

  lemma PopQueue(g: Graph, done: set<string>, queue: seq<string>, name: string)
    requires queue != [] && queue[0] == name && Queued(g, done, queue, {}) && Ready(g, done, name)
    ensures Queued(g, done + {name}, queue[1..], DependantsOf(g, name))
  {
    assert queue == [name] + queue[1..];
    forall n ensures n in queue[1..] <==> Ready(g, done + {name}, n) && n !in DependantsOf(g, name) {
      ReadyAfterPop(g, done, name, n);
      assert n in queue <==> n == name || n in queue[1..];
    }
  }

  lemma ReadyAfterPop(g: Graph, done: set<string>, name: string, n: string)
    requires Ready(g, done, name)
    ensures Ready(g, done + {name}, n) && n !in DependantsOf(g, name) <==> Ready(g, done, n) && n != name
  {
  }

  lemma PopDegrees(g: Graph, done: set<string>, inDegree: map<string, int>, name: string)
    requires Degrees(g, done, inDegree, {}) && name !in done
    ensures Degrees(g, done + {name}, inDegree, DependantsOf(g, name))
  {
    forall n | n in g
      ensures Pending(g[n], done, false) == Pending(g[n], done + {name}, n in DependantsOf(g, name))
    {
      if name in g[n] {
        assert g[n] - done == g[n] - (done + {name}) + {name};
      } else {
        assert g[n] - done == g[n] - (done + {name});
      }
    }
  }

  /** Telling one late dependant: it joins the queue exactly when it becomes ready. */
  lemma TellKeeps(g: Graph, done: set<string>, inDegree: map<string, int>, queue: seq<string>, late: set<string>, d: string)
    requires Degrees(g, done, inDegree, late) && Queued(g, done, queue, late)
    requires d in late && d in g && d !in done
    ensures Degrees(g, done, inDegree[d := inDegree[d] - 1], late - {d})
    ensures inDegree[d] - 1 == 0 ==> Queued(g, done, queue + [d], late - {d})
    ensures inDegree[d] - 1 != 0 ==> Queued(g, done, queue, late - {d})
  {
    hide Queued, Degrees;
    TellDegrees(g, done, inDegree, late, d);
    TellQueue(g, done, queue, late, d);
    NoneLeft(g[d], done);
  }

  lemma TellDegrees(g: Graph, done: set<string>, inDegree: map<string, int>, late: set<string>, d: string)
    requires Degrees(g, done, inDegree, late) && d in late && d in g
    ensures Degrees(g, done, inDegree[d := inDegree[d] - 1], late - {d}) && inDegree[d] - 1 == |g[d] - done|
  {
  }

  lemma TellQueue(g: Graph, done: set<string>, queue: seq<string>, late: set<string>, d: string)
    requires Queued(g, done, queue, late) && d in late && d in g && d !in done
    ensures g[d] <= done ==> Queued(g, done, queue + [d], late - {d})
    ensures !(g[d] <= done) ==> Queued(g, done, queue, late - {d})
  {
    assert d !in queue;
    assert forall n :: n in queue + [d] <==> n in queue || n == d;
  }

  lemma NoneLeft(deps: set<string>, done: set<string>)
    ensures |deps - done| == 0 <==> deps <= done
  {
    if deps <= done {
      assert deps - done == {};
    } else {
      var x :| x in deps && x !in done;
      assert x in deps - done;
    }
  }

  lemma SortKeepsQueued(g: Graph, done: set<string>, queue: seq<string>, sorted: seq<string>, late: set<string>)
    requires Queued(g, done, queue, late) && multiset(queue) == multiset(sorted)
    ensures Queued(g, done, sorted, late)
  {
    SortingKeeps(queue, sorted);
    assert forall n :: n in sorted <==> n in ToSet(sorted);
    assert forall n :: n in queue <==> n in ToSet(queue);
  }

  lemma LeastIsTaken(g: Graph, done: set<string>, queue: seq<string>)
    requires queue != [] && Sorted(queue) && Queued(g, done, queue, {})
    ensures LeastReady(g, done, queue[0])
  {
    forall m | Ready(g, done, m) ensures Le(queue[0], m) {
      HeadIsLeast(queue, m);
    }
  }

  lemma GreedyExtends(g: Graph, s: seq<string>, n: string)
    requires Greedy(g, s) && LeastReady(g, ToSet(s), n)
    ensures Greedy(g, s + [n]) && ToSet(s + [n]) == ToSet(s) + {n}
  {
    var t := s + [n];
    forall i | 0 <= i < |t| ensures LeastReady(g, ToSet(t[..i]), t[i]) {
      if i < |s| {
        assert t[..i] == s[..i];
      } else {
        assert t[..i] == s;
      }
    }
  }

  // ----- the phases of Resolve -----

  /** Index by name, stopping at the first repeated name. */
  method IndexUnits(units: seq<Unit>) returns (byName: map<string, Unit>, dup: Option<string>)
    ensures dup.Some? <==> !DistinctNames(units)
    ensures dup.Some? ==> exists i, j :: 0 <= i < j < |units| && units[i].name == units[j].name == dup.value
    ensures dup.None? ==> byName.Keys == ToSet(Names(units))
    ensures dup.None? ==> forall i :: 0 <= i < |units| ==> units[i].name in byName && byName[units[i].name] == units[i]
  {
    hide NoDuplicates, ToSet, Names;
    byName := map[];
    ghost var names := Names(units);
    NothingIndexed(names);
    for i := 0 to |units|
      invariant NoDuplicates(names[..i]) && byName.Keys == ToSet(names[..i])
      invariant forall k :: 0 <= k < i ==> units[k].name in byName && byName[units[k].name] == units[k]
    {
      var u := units[i];
      NextName(names, i);
      if u.name in byName {
        return byName, Some(u.name);
      }
      byName := byName[u.name := u];
    }
    assert names[..|units|] == names;
    dup := None;
  }

  lemma NothingIndexed(names: seq<string>)
    ensures NoDuplicates(names[..0]) && ToSet(names[..0]) == {}
  {
  }

  lemma NextName(names: seq<string>, i: nat)
    requires i < |names| && NoDuplicates(names[..i])
    ensures ToSet(names[..i + 1]) == ToSet(names[..i]) + {names[i]}
    ensures names[i] !in ToSet(names[..i]) ==> NoDuplicates(names[..i + 1])
    ensures names[i] in ToSet(names[..i]) ==> !NoDuplicates(names) && exists k :: 0 <= k < i && names[k] == names[i]
  {
    assert names[..i + 1] == names[..i] + [names[i]];
    if names[i] in ToSet(names[..i]) {
      var k :| 0 <= k < i && names[..i][k] == names[i];
      assert names[k] == names[i];
    }
  }

  /** First dependency of one unit that is not a unit name. */
  method CheckUnit(u: Unit, byName: map<string, Unit>) returns (bad: Option<string>)
    ensures bad.Some? ==> bad.value in DepSet(u) && bad.value !in byName
    ensures bad.None? ==> DepSet(u) <= byName.Keys
  {
    var deps := AllDeps(u);
    for j := 0 to |deps|
      invariant forall k :: 0 <= k < j ==> deps[k] in byName
    {
      assert deps[j] in ToSet(deps);
      if deps[j] !in byName {
        return Some(deps[j]);
      }
    }
    assert DepSet(u) == ToSet(deps);
    bad := None;
  }

  /** First reference to a name that is not a unit. */
  method CheckReferences(units: seq<Unit>, byName: map<string, Unit>) returns (bad: Option<(string, string)>)
    requires DistinctNames(units) && byName.Keys == GraphOf(units).Keys
    ensures bad.Some? <==> !Closed(GraphOf(units))
    ensures bad.Some? ==> Edge(GraphOf(units), bad.value.0, bad.value.1) && bad.value.1 !in GraphOf(units)
  {
    hide DepSet, GraphOf, DistinctNames, Closed, Edge;
    ghost var g := GraphOf(units);
    for i := 0 to |units|
      invariant forall k :: 0 <= k < i ==> DepSet(units[k]) <= g.Keys
    {
      var missing := CheckUnit(units[i], byName);
      if missing.Some? {
        Dangling(units, i, missing.value);
        return Some((units[i].name, missing.value));
      }
    }
    AllReferencesKnown(units);
    bad := None;
  }

  lemma Dangling(units: seq<Unit>, i: nat, dep: string)
    requires DistinctNames(units) && i < |units| && dep in DepSet(units[i]) && dep !in GraphOf(units)
    ensures Edge(GraphOf(units), units[i].name, dep) && !Closed(GraphOf(units))
  {
    hide DepSet;
    assert GraphOf(units)[units[i].name] == DepSet(units[i]);
  }

  lemma AllReferencesKnown(units: seq<Unit>)
    requires DistinctNames(units)
    requires forall k :: 0 <= k < |units| ==> DepSet(units[k]) <= GraphOf(units).Keys
    ensures Closed(GraphOf(units))
  {
    var g := GraphOf(units);
    forall n | n in g ensures g[n] <= g.Keys {
      var i :| 0 <= i < |units| && Names(units)[i] == n;
    }
  }

  /** The reverse adjacency list of `dep` names each of its dependants once. */
  ghost predicate ListsDependants(m: map<string, seq<string>>, dep: string, g: Graph)
  {
    if dep in m then NoDuplicates(m[dep]) && forall u :: u in m[dep] <==> Edge(g, u, dep)
    else forall u :: !Edge(g, u, dep)
  }

  ghost predicate Adjacency(m: map<string, seq<string>>, g: Graph)
  {
    forall dep :: ListsDependants(m, dep, g)
  }

  /** In-degrees and the reverse adjacency lists. */
  method CountEdges(units: seq<Unit>) returns (inDegree: map<string, int>, dependants: map<string, seq<string>>)
    requires DistinctNames(units)
    ensures Degrees(GraphOf(units), {}, inDegree, {})
    ensures Adjacency(dependants, GraphOf(units))
  {
    inDegree, dependants := map[], map[];
    for i := 0 to |units|
      invariant DistinctNames(units[..i])
      invariant Degrees(GraphOf(units[..i]), {}, inDegree, {})
      invariant Adjacency(dependants, GraphOf(units[..i]))
    {
      GraphStep(units, i);
      inDegree, dependants := CountUnit(GraphOf(units[..i]), units[i], inDegree, dependants);
    }
    assert units[..|units|] == units;
  }

  lemma GraphStep(units: seq<Unit>, i: nat)
    requires DistinctNames(units) && i < |units|
    ensures DistinctNames(units[..i]) && DistinctNames(units[..i + 1])
    ensures units[i].name !in GraphOf(units[..i])
    ensures GraphOf(units[..i + 1]) == GraphOf(units[..i])[units[i].name := DepSet(units[i])]
  {
    assert Names(units[..i]) == Names(units)[..i];
    assert Names(units[..i + 1]) == Names(units)[..i + 1];
    assert units[..i + 1][..i] == units[..i];
    assert units[i].name == Names(units)[i];
  }

  method CountUnit(ghost g: Graph, u: Unit, inDegree0: map<string, int>, dependants0: map<string, seq<string>>)
    returns (inDegree: map<string, int>, dependants: map<string, seq<string>>)
    requires u.name !in g && Degrees(g, {}, inDegree0, {}) && Adjacency(dependants0, g)
    ensures Degrees(g[u.name := DepSet(u)], {}, inDegree, {})
    ensures Adjacency(dependants, g[u.name := DepSet(u)])
  {
    hide Degrees, Adjacency;
    inDegree, dependants := inDegree0, dependants0;
    NotCountedYet(g, u.name, inDegree0);
    if u.name !in inDegree {
      inDegree := inDegree[u.name := 0];
    }
    var deps := AllDeps(u);
    NodeAdjacency(g, u.name, dependants0);
    ghost var seen: set<string> := {};
    for j := 0 to |deps|
      invariant seen == ToSet(deps[..j])
      invariant u.name in inDegree
      invariant Degrees(g[u.name := seen], {}, inDegree, {})
      invariant Adjacency(dependants, g[u.name := seen])
    {
      var dep := deps[j];
      assert dep !in seen;
      EdgeDegrees(g, u.name, seen, dep, inDegree);
      EdgeAdjacency(g, u.name, seen, dep, dependants);
      inDegree := inDegree[u.name := inDegree[u.name] + 1];
      dependants := dependants[dep := (if dep in dependants then dependants[dep] else []) + [u.name]];
      seen := seen + {dep};
      assert deps[..j + 1] == deps[..j] + [dep];
    }
    assert deps[..|deps|] == deps;
  }

  lemma NotCountedYet(g: Graph, name: string, inDegree: map<string, int>)
    requires name !in g && Degrees(g, {}, inDegree, {})
    ensures name !in inDegree && Degrees(g[name := {}], {}, inDegree[name := 0], {})
  {
    hide Pending;
    NonePending();
  }

  lemma NonePending()
    ensures Pending({}, {}, false) == 0
  {
    var none: set<string> := {};
    assert none - none == none;
  }

  lemma NodeAdjacency(g: Graph, name: string, dependants: map<string, seq<string>>)
    requires name !in g && Adjacency(dependants, g)
    ensures Adjacency(dependants, g[name := {}])
  {
    var h := g[name := {}];
    assert forall u, dep :: Edge(h, u, dep) <==> Edge(g, u, dep);
    forall dep ensures ListsDependants(dependants, dep, h) {
      assert ListsDependants(dependants, dep, g);
    }
  }

  lemma EdgeDegrees(g: Graph, name: string, seen: set<string>, dep: string, inDegree: map<string, int>)
    requires dep !in seen && Degrees(g[name := seen], {}, inDegree, {})
    ensures name in inDegree
    ensures Degrees(g[name := seen + {dep}], {}, inDegree[name := inDegree[name] + 1], {})
  {
    hide Pending;
    OneMorePending(seen, dep);
    assert name in g[name := seen];
  }

  lemma OneMorePending(seen: set<string>, dep: string)
    requires dep !in seen
    ensures Pending(seen + {dep}, {}, false) == Pending(seen, {}, false) + 1
  {
    assert (seen + {dep}) - {} == (seen - {}) + {dep};
  }

  lemma EdgeAdjacency(g: Graph, name: string, seen: set<string>, dep: string, dependants: map<string, seq<string>>)
    requires dep !in seen && Adjacency(dependants, g[name := seen])
    ensures Adjacency(dependants[dep := (if dep in dependants then dependants[dep] else []) + [name]], g[name := seen + {dep}])
  {
    var h, h' := g[name := seen], g[name := seen + {dep}];
    var was := if dep in dependants then dependants[dep] else [];
    var m' := dependants[dep := was + [name]];
    forall d ensures ListsDependants(m', d, h') {
      assert ListsDependants(dependants, d, h);
      assert forall u :: Edge(h', u, d) <==> Edge(h, u, d) || (u == name && d == dep);
      if d == dep {
        assert !Edge(h, name, dep);
        assert forall u :: u in was + [name] <==> u in was || u == name;
      }
    }
  }

  // ----- Kahn's algorithm -----

  /** Takes ready units in name order until none is ready. */
  method TakeReady(ghost g: Graph, byName: map<string, Unit>, inDegree0: map<string, int>, dependants: map<string, seq<string>>)
    returns (order: seq<Unit>)
    requires Closed(g) && byName.Keys == g.Keys && forall n :: n in byName ==> byName[n].name == n
    requires Degrees(g, {}, inDegree0, {}) && Adjacency(dependants, g)
    ensures Greedy(g, Names(order))
    ensures forall u :: u in order ==> u.name in byName && byName[u.name] == u
    ensures forall n :: !Ready(g, ToSet(Names(order)), n)
  {
    hide Degrees, Queued, Greedy, Adjacency, Sorted;
    var inDegree := inDegree0;
    var queue := Seed(g, inDegree);
    GreedyEmpty(g);
    order := [];
    ghost var done: set<string> := {};
    while |queue| > 0
      invariant done == ToSet(Names(order)) && done <= g.Keys && DoneClosed(g, done)
      invariant Degrees(g, done, inDegree, {}) && Queued(g, done, queue, {}) && Sorted(queue)
      invariant Greedy(g, Names(order))
      invariant forall u :: u in order ==> u.name in byName && byName[u.name] == u
      decreases g.Keys - done
    {
      var name := queue[0];
      LeastIsTaken(g, done, queue);
      GreedyExtends(g, Names(order), name);
      PopKeeps(g, done, inDegree, queue, name);
      SortedTail(queue);
      queue := queue[1..];
      assert Names(order + [byName[name]]) == Names(order) + [name];
      order := order + [byName[name]];
      done := done + {name};
      inDegree, queue := Tell(g, done, name, inDegree, queue, dependants);
    }
    NothingReady(g, done);
  }

  lemma GreedyEmpty(g: Graph)
    ensures Greedy(g, [])
  {
  }

  lemma NothingReady(g: Graph, done: set<string>)
    requires Queued(g, done, [], {})
    ensures forall n :: !Ready(g, done, n)
  {
  }

  /** The units without dependencies, visited in arbitrary order and then sorted. */
  method Seed(ghost g: Graph, inDegree: map<string, int>) returns (queue: seq<string>)
    requires Degrees(g, {}, inDegree, {})
    ensures Queued(g, {}, queue, {}) && Sorted(queue)
  {
    var unsorted: seq<string> := [];
    var keys := inDegree.Keys;
    while keys != {}
      invariant keys <= g.Keys
      invariant Queued(g, {}, unsorted, keys)
    {
      var name :| name in keys;
      SeedStep(g, unsorted, keys, name);
      if inDegree[name] == 0 {
        unsorted := unsorted + [name];
      }
      keys := keys - {name};
    }
    queue := SortSlice(unsorted);
    SortKeepsQueued(g, {}, unsorted, queue, {});
  }

  lemma SeedStep(g: Graph, queue: seq<string>, keys: set<string>, name: string)
    requires Queued(g, {}, queue, keys) && name in keys && name in g
    ensures |g[name] - {}| == 0 ==> Queued(g, {}, queue + [name], keys - {name})
    ensures |g[name] - {}| != 0 ==> Queued(g, {}, queue, keys - {name})
  {
    assert g[name] - {} == g[name];
    assert |g[name]| == 0 <==> Ready(g, {}, name);
    assert forall n :: n in queue + [name] <==> n in queue || n == name;
  }

  /** Tells every dependant of `name` that it is done, re-sorting the queue after each one
      that becomes ready. */
  method Tell(ghost g: Graph, ghost done: set<string>, name: string,
              inDegree0: map<string, int>, queue0: seq<string>, dependants: map<string, seq<string>>)
    returns (inDegree: map<string, int>, queue: seq<string>)
    requires Adjacency(dependants, g) && Sorted(queue0) && DependantsOf(g, name) !! done
    requires Degrees(g, done, inDegree0, DependantsOf(g, name)) && Queued(g, done, queue0, DependantsOf(g, name))
    ensures Degrees(g, done, inDegree, {}) && Queued(g, done, queue, {}) && Sorted(queue)
  {
    inDegree, queue := inDegree0, queue0;
    var deps := SortedDependants(g, name, dependants);
    ghost var late := DependantsOf(g, name);
    for k := 0 to |deps|
      invariant late == ToSet(deps[k..]) && late <= DependantsOf(g, name)
      invariant Degrees(g, done, inDegree, late) && Queued(g, done, queue, late) && Sorted(queue)
    {
      var d := deps[k];
      TellKeeps(g, done, inDegree, queue, late, d);
      TailSet(deps, k);
      inDegree := inDegree[d := inDegree[d] - 1];
      late := late - {d};
      if inDegree[d] == 0 {
        var longer := queue + [d];
        queue := SortSlice(longer);
        SortKeepsQueued(g, done, longer, queue, late);
      }
    }
  }

  method SortedDependants(ghost g: Graph, name: string, dependants: map<string, seq<string>>) returns (deps: seq<string>)
    requires Adjacency(dependants, g)
    ensures NoDuplicates(deps) && ToSet(deps) == DependantsOf(g, name)
  {
    var unsorted := if name in dependants then dependants[name] else [];
    assert ListsDependants(dependants, name, g);
    assert forall u :: u in unsorted <==> Edge(g, u, name);
    assert ToSet(unsorted) == DependantsOf(g, name);
    deps := SortSlice(unsorted);
    SortingKeeps(unsorted, deps);
  }

  lemma TailSet(s: seq<string>, k: nat)
    requires NoDuplicates(s) && k < |s|
    ensures ToSet(s[k..]) - {s[k]} == ToSet(s[k + 1..])
  {
    assert s[k..] == [s[k]] + s[k + 1..];
  }

  // ----- Resolve -----

  ghost predicate Resolvable(units: seq<Unit>)
  {
    DistinctNames(units) && Closed(GraphOf(units)) && Acyclic(GraphOf(units))
  }

  /** Computes the start order, or reports why there is none. */
  method Resolve(units: seq<Unit>) returns (r: Resolution)
    ensures r.Plan? <==> Resolvable(units)
    ensures r.Plan? ==> IsPlan(units, r.order)
    ensures r.Duplicate? ==> exists i, j :: 0 <= i < j < |units| && units[i].name == units[j].name == r.name
    ensures r.UnknownDep? ==> DistinctNames(units) && Edge(GraphOf(units), r.unit, r.dep) && r.dep !in GraphOf(units)
    ensures r.Cyclic? ==> DistinctNames(units) && Closed(GraphOf(units)) && r.path.Some? && ReportsCycle(GraphOf(units), r.path.value)
  {
    hide Degrees, Adjacency, Greedy;
    var byName, dup := IndexUnits(units);
    if dup.Some? {
      return Duplicate(dup.value);
    }
    ghost var g := GraphOf(units);
    IndexMatchesGraph(units, byName);
    var bad := CheckReferences(units, byName);
    if bad.Some? {
      return UnknownDep(bad.value.0, bad.value.1);
    }
    var inDegree, dependants := CountEdges(units);
    var order := TakeReady(g, byName, inDegree, dependants);
    if |order| != |units| {
      var cycle := DetectCycle(units, byName, g);
      if cycle.None? {
        ghost var t :| TopologicalOrder(g, t);
        CompleteWhenOrdered(g, Names(units), Names(order), t);
        assert false;
      }
      return Cyclic(cycle);
    }
    CompletePlan(g, units, byName, order);
    return Plan(order);
  }

  lemma IndexMatchesGraph(units: seq<Unit>, byName: map<string, Unit>)
    requires DistinctNames(units) && byName.Keys == ToSet(Names(units))
    requires forall i :: 0 <= i < |units| ==> units[i].name in byName && byName[units[i].name] == units[i]
    ensures Indexes(byName, GraphOf(units)) && forall n :: n in byName ==> byName[n].name == n
  {
    hide DepSet, GraphOf, DistinctNames;
    var g := GraphOf(units);
    SameKeys(units, byName);
    forall n | n in g ensures byName[n].name == n && g[n] == DepSet(byName[n]) {
      var i := IndexedUnit(units, byName, n);
    }
  }

  lemma SameKeys(units: seq<Unit>, byName: map<string, Unit>)
    requires DistinctNames(units) && byName.Keys == ToSet(Names(units))
    ensures byName.Keys == GraphOf(units).Keys
  {
  }

  lemma IndexedUnit(units: seq<Unit>, byName: map<string, Unit>, n: string) returns (i: nat)
    requires n in Names(units)
    requires forall i :: 0 <= i < |units| ==> units[i].name in byName && byName[units[i].name] == units[i]
    ensures i < |units| && units[i].name == n && n in byName && byName[n] == units[i]
  {
    i :| 0 <= i < |units| && Names(units)[i] == n;
  }

  lemma {:induction false} CountDistinct<T>(s: seq<T>)
    requires NoDuplicates(s)
    ensures |ToSet(s)| == |s|
  {
    if s != [] {
      var init := s[..|s| - 1];
      assert s == init + [s[|s| - 1]];
      CountDistinct(init);
      assert ToSet(s) == ToSet(init) + {s[|s| - 1]};
    }
  }

  lemma GreedySize(g: Graph, names: seq<string>, s: seq<string>)
    requires Greedy(g, s) && NoDuplicates(names) && g.Keys == ToSet(names)
    ensures NoDuplicates(s) && ToSet(s) <= g.Keys
    ensures |s| == |names| <==> ToSet(s) == g.Keys
  {
    GreedyIsTopological(g, s);
    CountDistinct(s);
    CountDistinct(names);
    TopologicalWithin(g, s);
    if |s| == |names| {
      SubsetOfSameSize(ToSet(s), g.Keys);
    }
  }

  lemma TopologicalWithin(g: Graph, s: seq<string>)
    requires Topological(g, s)
    ensures ToSet(s) <= g.Keys
  {
    forall n | n in s ensures n in g {
      var i :| 0 <= i < |s| && s[i] == n;
    }
  }

  /** When nothing more is ready and a topological order exists, everything was taken. */
  lemma CompleteWhenOrdered(g: Graph, names: seq<string>, s: seq<string>, t: seq<string>)
    requires Greedy(g, s) && NoDuplicates(names) && g.Keys == ToSet(names)
    requires forall n :: !Ready(g, ToSet(s), n)
    requires TopologicalOrder(g, t)
    ensures |s| == |names|
  {
    GreedySize(g, names, s);
    forall n | n in g && n !in ToSet(s) ensures !(g[n] <= ToSet(s)) {
      assert !Ready(g, ToSet(s), n);
    }
    StuckHasNoOrder(g, t, ToSet(s), |t|);
    assert t[..|t|] == t;
  }

  lemma CompletePlan(g: Graph, units: seq<Unit>, byName: map<string, Unit>, order: seq<Unit>)
    requires DistinctNames(units) && g == GraphOf(units) && g.Keys == ToSet(Names(units))
    requires Greedy(g, Names(order)) && |order| == |units|
    requires byName.Keys == g.Keys
    requires forall i :: 0 <= i < |units| ==> units[i].name in byName && byName[units[i].name] == units[i]
    requires forall u :: u in order ==> u.name in byName && byName[u.name] == u
    ensures IsPlan(units, order) && Acyclic(g)
  {
    hide Greedy, GraphOf;
    GreedySize(g, Names(units), Names(order));
    GreedyIsTopological(g, Names(order));
    OrderedIsAcyclic(g, Names(order));
    DistinctUnits(order);
    DistinctUnits(units);
    forall u | u in order ensures u in ToSet(units) {
      var i := IndexedUnit(units, byName, u.name);
    }
    assert ToSet(order) <= ToSet(units);
    SubsetOfSameSize(ToSet(order), ToSet(units));
    SameSetSameMultiset(order, units);
  }

  lemma DistinctUnits(units: seq<Unit>)
    requires DistinctNames(units)
    ensures NoDuplicates(units) && |ToSet(units)| == |units|
  {
    forall i, j | 0 <= i < j < |units| ensures units[i] != units[j] {
      assert Names(units)[i] != Names(units)[j];
    }
    CountDistinct(units);
  }

  lemma SubsetOfSameSize<T>(a: set<T>, b: set<T>)
    requires a <= b && |a| == |b|
    ensures a == b
  {
    assert |b - a| == |b| - |a|;
  }

  // ----- shutdown -----

  /** The running units of a plan, last started first. */
  function Stopping(plan: seq<Unit>, running: set<string>): seq<Unit>
  {
    if plan == [] then []
    else
      var init, last := plan[..|plan| - 1], plan[|plan| - 1];
      if last.name in running then [last] + Stopping(init, running) else Stopping(init, running)
  }

  /** Stops every unit that has a process, walking the plan backwards. */
  method ShutdownPlan(plan: seq<Unit>, running: set<string>) returns (stopped: seq<Unit>)
    ensures stopped == Stopping(plan, running)
  {
    stopped := [];
    var i := |plan| - 1;
    assert plan[..i + 1] == plan;
    while i >= 0
      invariant -1 <= i < |plan|
      invariant stopped + Stopping(plan[..i + 1], running) == Stopping(plan, running)
    {
      assert plan[..i + 1][..i] == plan[..i];
      var u := plan[i];
      if u.name in running {
        stopped := stopped + [u];
      }
      i := i - 1;
    }
  }

  /** Exactly the running units are stopped. */
  lemma {:induction false} StopsTheRunning(plan: seq<Unit>, running: set<string>, u: Unit)
    ensures u in Stopping(plan, running) <==> u in plan && u.name in running
  {
    if plan != [] {
      var init, last := plan[..|plan| - 1], plan[|plan| - 1];
      assert plan == init + [last];
      StopsTheRunning(init, running, u);
    }
  }

  /** Where in the plan the i-th stopped unit is. */
  function StopIndex(plan: seq<Unit>, running: set<string>, i: nat): (k: nat)
    requires i < |Stopping(plan, running)|
    ensures k < |plan| && plan[k] == Stopping(plan, running)[i]
  {
    var n := |plan| - 1;
    if plan[n].name !in running then StopIndex(plan[..n], running, i)
    else if i == 0 then n
    else StopIndex(plan[..n], running, i - 1)
  }

  /** Units are stopped in the reverse of the order in which they were started. */
  lemma {:induction false} StopsInReverse(plan: seq<Unit>, running: set<string>, i: nat, j: nat)
    requires i < j < |Stopping(plan, running)|
    ensures StopIndex(plan, running, j) < StopIndex(plan, running, i)
  {
    var n := |plan| - 1;
    if plan[n].name !in running {
      StopsInReverse(plan[..n], running, i, j);
    } else if i > 0 {
      StopsInReverse(plan[..n], running, i - 1, j - 1);
    }
  }

  /** Shutting down a resolved plan stops each running unit once, and before every running
      unit it depends on. */
  lemma {:induction false} ShutdownRespectsDependencies(units: seq<Unit>, plan: seq<Unit>, running: set<string>, k: nat)
    requires IsPlan(units, plan) && k <= |plan|
    ensures var s := Stopping(plan[..k], running);
            && NoDuplicates(s)
            && forall i, j :: 0 <= i < j < |s| ==> s[i].name !in DepSet(s[j])
  {
    hide IsPlan, DepSet;
    if k > 0 {
      ShutdownRespectsDependencies(units, plan, running, k - 1);
      assert plan[..k][..k - 1] == plan[..k - 1];
      var last, rest := plan[k - 1], Stopping(plan[..k - 1], running);
      forall j | 0 <= j < |rest| ensures last != rest[j] && last.name !in DepSet(rest[j]) {
        StopsTheRunning(plan[..k - 1], running, rest[j]);
        LastIsFree(units, plan, k, rest[j]);
      }
    }
  }

  lemma LastIsFree(units: seq<Unit>, plan: seq<Unit>, k: nat, u: Unit)
    requires IsPlan(units, plan) && 0 < k <= |plan| && u in plan[..k - 1]
    ensures plan[k - 1] != u && plan[k - 1].name !in DepSet(u)
  {
    hide DepSet;
    var m :| 0 <= m < k - 1 && plan[..k - 1][m] == u;
    GreedyIsTopological(GraphOf(units), Names(plan));
    assert Names(plan)[m] != Names(plan)[k - 1];
    if plan[k - 1].name in DepSet(u) {
      DependenciesComeFirst(units, plan, m, k - 1);
    }
  }
}
