/**
 Service units as the resolver sees them: names, dependency graph, cycles and topological
 sequences.
 */
module Dependencies {
  import opened Basics
  import opened StringOrder

  datatype Unit = Unit(name: string, after: seq<string>, needs: seq<string>)

  /** Each unit name with the set of names it must follow. */
  type Graph = map<string, set<string>>

  function Names(units: seq<Unit>): (r: seq<string>)
    ensures |r| == |units| && forall i :: 0 <= i < |r| ==> r[i] == units[i].name
  {
    seq(|units|, i requires 0 <= i < |units| => units[i].name)
  }

  ghost predicate DistinctNames(units: seq<Unit>)
  {
    NoDuplicates(Names(units))
  }

  /** First occurrences only. */
  function Dedup(s: seq<string>): (r: seq<string>)
    ensures NoDuplicates(r)
    ensures forall x :: x in r <==> x in s
  {
    if s == [] then []
    else
      var init, last := s[..|s| - 1], s[|s| - 1];
      assert s == init + [last];
      if last in init then Dedup(init) else Dedup(init) + [last]
  }

  /** Position of the first occurrence. */
  function FirstIndex(s: seq<string>, x: string): (i: nat)
    requires x in s
    ensures i < |s| && s[i] == x && x !in s[..i]
  {
    if s[0] == x then 0
    else
      assert s == [s[0]] + s[1..];
      var i := 1 + FirstIndex(s[1..], x);
      assert s[..i] == [s[0]] + s[1..][..i - 1];
      i
  }

  lemma NotBefore(s: seq<string>, x: string, i: nat, j: nat)
    requires i < |s| && j < |s| && s[i] == x && x !in s[..j]
    ensures j <= i
  {
    assert forall k :: 0 <= k < j ==> s[..j][k] == s[k];
  }

  lemma FirstIndexIs(s: seq<string>, x: string, i: nat)
    requires i < |s| && s[i] == x && x !in s[..i]
    ensures FirstIndex(s, x) == i
  {
    NotBefore(s, x, FirstIndex(s, x), i);
    NotBefore(s, x, i, FirstIndex(s, x));
  }

  /** Deduplication keeps the order of first occurrences. */
  lemma {:induction false} DedupKeepsOrder(s: seq<string>, i: nat, j: nat)
    requires i < j < |Dedup(s)|
    ensures FirstIndex(s, Dedup(s)[i]) < FirstIndex(s, Dedup(s)[j])
  {
    var init, last := s[..|s| - 1], s[|s| - 1];
    assert s == init + [last];
    FirstInPrefix(init, last, Dedup(s)[i]);
    FirstInPrefix(init, last, Dedup(s)[j]);
    if j < |Dedup(init)| {
      DedupKeepsOrder(init, i, j);
    }
  }

  lemma FirstInPrefix(init: seq<string>, last: string, x: string)
    requires x in init + [last]
    ensures FirstIndex(init + [last], x) == if x in init then FirstIndex(init, x) else |init|
  {
    var s := init + [last];
    if x in init {
      var i := FirstIndex(init, x);
      assert s[..i] == init[..i];
      FirstIndexIs(s, x, i);
    } else {
      assert s[..|init|] == init;
      FirstIndexIs(s, x, |init|);
    }
  }

  ghost function DepSet(u: Unit): set<string>
  {
    ToSet(u.after + u.needs)
  }

  /** A unit depends on what it is to start after and on what it needs. */
  lemma DepSetIff(u: Unit, x: string)
    ensures x in DepSet(u) <==> x in u.after || x in u.needs
  {
  }

  /** Merges the two dependency lists, dropping repetitions. */
  method AllDeps(u: Unit) returns (result: seq<string>)
    ensures result == Dedup(u.after + u.needs)
    ensures NoDuplicates(result) && ToSet(result) == DepSet(u)
  {
    hide Dedup, NoDuplicates, ToSet;
    var seen: set<string> := {};
    result := [];
    var all := u.after + u.needs;
    DedupNone();
    for i := 0 to |all|
      invariant seen == ToSet(all[..i])
      invariant result == Dedup(all[..i])
    {
      assert all[..i + 1] == all[..i] + [all[i]];
      DedupStep(all[..i], all[i]);
      if all[i] !in seen {
        seen := seen + {all[i]};
        result := result + [all[i]];
      }
    }
    assert all[..|all|] == all;
    DedupKeepsSet(all);
  }

  lemma DedupKeepsSet(s: seq<string>)
    ensures ToSet(Dedup(s)) == ToSet(s)
  {
  }

  lemma DedupNone()
    ensures Dedup([]) == [] && ToSet<string>([]) == {}
  {
  }

  lemma DedupStep(s: seq<string>, x: string)
    ensures Dedup(s + [x]) == if x in ToSet(s) then Dedup(s) else Dedup(s) + [x]
    ensures ToSet(s + [x]) == ToSet(s) + {x}
  {
    assert (s + [x])[..|s|] == s;
  }

  ghost function GraphOf(units: seq<Unit>): (g: Graph)
    requires DistinctNames(units)
    ensures forall n :: n in g <==> n in Names(units)
    ensures forall i :: 0 <= i < |units| ==> units[i].name in g && g[units[i].name] == DepSet(units[i])
  {
    if units == [] then map[]
    else
      var init, last := units[..|units| - 1], units[|units| - 1];
      assert Names(units) == Names(init) + [last.name];
      assert forall i :: 0 <= i < |init| ==> units[i] == init[i] && init[i].name != last.name;
      GraphOf(init)[last.name := DepSet(last)]
  }

  /** The graph depends only on which units there are. */
  lemma GraphDependsOnSet(u: seq<Unit>, v: seq<Unit>)
    requires DistinctNames(u) && DistinctNames(v)
    requires ToSet(u) == ToSet(v)
    ensures GraphOf(u) == GraphOf(v)
  {
    SubGraph(u, v);
    SubGraph(v, u);
  }

  lemma SubGraph(u: seq<Unit>, v: seq<Unit>)
    requires DistinctNames(u) && DistinctNames(v)
    requires ToSet(u) <= ToSet(v)
    ensures forall n :: n in GraphOf(u) ==> n in GraphOf(v) && GraphOf(u)[n] == GraphOf(v)[n]
  {
    var g, h := GraphOf(u), GraphOf(v);
    forall n | n in g ensures n in h && g[n] == h[n] {
      var i :| 0 <= i < |u| && Names(u)[i] == n;
      assert u[i] in ToSet(v);
      var j :| 0 <= j < |v| && v[j] == u[i];
    }
  }

  ghost predicate Closed(g: Graph)
  {
    forall n :: n in g ==> g[n] <= g.Keys
  }

  ghost predicate Edge(g: Graph, from: string, to: string)
  {
    from in g && to in g[from]
  }

  /** Consecutive elements depend on one another. */
  ghost predicate Chain(g: Graph, p: seq<string>)
  {
    && (forall i :: 0 <= i < |p| ==> p[i] in g)
    && (forall i :: 0 <= i < |p| - 1 ==> Edge(g, p[i], p[i + 1]))
  }

  ghost predicate IsCycle(g: Graph, p: seq<string>)
  {
    |p| > 0 && Chain(g, p) && Edge(g, p[|p| - 1], p[0])
  }

  ghost predicate Acyclic(g: Graph)
  {
    forall p :: !IsCycle(g, p)
  }

  /** What the cycle report promises: a dependency chain whose last unit depends on a unit of
      the chain. */
  ghost predicate ReportsCycle(g: Graph, p: seq<string>)
  {
    |p| > 0 && Chain(g, p) && exists k :: 0 <= k < |p| && Edge(g, p[|p| - 1], p[k])
  }

  lemma ReportIsCycle(g: Graph, p: seq<string>)
    requires ReportsCycle(g, p)
    ensures !Acyclic(g)
  {
    var k :| 0 <= k < |p| && Edge(g, p[|p| - 1], p[k]);
    assert IsCycle(g, p[k..]);
  }

  /** Every element comes after everything it depends on. */
  ghost predicate Topological(g: Graph, s: seq<string>)
  {
    forall i :: 0 <= i < |s| ==> s[i] in g && g[s[i]] <= ToSet(s[..i])
  }

  ghost predicate TopologicalOrder(g: Graph, s: seq<string>)
  {
    Topological(g, s) && ToSet(s) == g.Keys
  }

  ghost function IndexOf(s: seq<string>, x: string): (i: nat)
    requires x in s
    ensures i < |s| && s[i] == x
    ensures forall j :: 0 <= j < i ==> s[j] != x
  {
    if s[0] == x then 0 else assert s == [s[0]] + s[1..]; 1 + IndexOf(s[1..], x)
  }

  lemma EdgeGoesBack(g: Graph, s: seq<string>, a: string, b: string)
    requires Topological(g, s) && a in s && Edge(g, a, b)
    ensures b in s && IndexOf(s, b) < IndexOf(s, a)
  {
    var i := IndexOf(s, a);
    assert b in ToSet(s[..i]);
    var j :| 0 <= j < i && s[..i][j] == b;
    assert s[j] == b;
  }

  lemma {:induction false} ChainGoesBack(g: Graph, s: seq<string>, p: seq<string>)
    requires TopologicalOrder(g, s) && Chain(g, p) && |p| > 0
    ensures p[0] in s && p[|p| - 1] in s && IndexOf(s, p[|p| - 1]) <= IndexOf(s, p[0])
  {
    assert p[0] in ToSet(s);
    if |p| > 1 {
      var q := p[..|p| - 1];
      ChainGoesBack(g, s, q);
      EdgeGoesBack(g, s, p[|p| - 2], p[|p| - 1]);
    }
  }

  /** A graph with a topological order has no cycle. */
  lemma OrderedIsAcyclic(g: Graph, s: seq<string>)
    requires TopologicalOrder(g, s)
    ensures Acyclic(g)
  {
    forall p ensures !IsCycle(g, p) {
      if IsCycle(g, p) {
        ChainGoesBack(g, s, p);
        EdgeGoesBack(g, s, p[|p| - 1], p[0]);
      }
    }
  }

  /** If something is left and everything left waits for something left, there is no
      topological order. */
  lemma {:induction false} StuckHasNoOrder(g: Graph, s: seq<string>, done: set<string>, k: nat)
    requires Topological(g, s) && k <= |s|
    requires forall n :: n in g && n !in done ==> !(g[n] <= done)
    ensures ToSet(s[..k]) <= done
  {
    if k > 0 {
      StuckHasNoOrder(g, s, done, k - 1);
      assert s[..k] == s[..k - 1] + [s[k - 1]];
      assert g[s[k - 1]] <= ToSet(s[..k - 1]);
    }
  }
}
