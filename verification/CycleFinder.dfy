/**
 The depth-first cycle reporter of the dependency resolver.
 */
module CycleFinder {
  import opened Basics
  import opened StringOrder
  import opened Dependencies

  ghost predicate Indexes(byName: map<string, Unit>, g: Graph)
  {
    byName.Keys == g.Keys && forall n :: n in g ==> g[n] == DepSet(byName[n])
  }

  /** Consistency of the search: marks 0 = unvisited, 1 = on the stack, 2 = done; `path` is the
      stack, `finished` the done nodes in finishing order. */
  ghost predicate Consistent(g: Graph, visited: map<string, nat>, path: seq<string>, finished: seq<string>)
  {
    && visited.Keys == g.Keys
    && (forall n :: n in g ==> visited[n] <= 2)
    && Chain(g, path) && NoDuplicates(path)
    && (forall n :: n in g ==> (visited[n] == 1 <==> n in path))
    && (forall n :: n in g ==> (visited[n] == 2 <==> n in finished))
    && Topological(g, finished)
  }

  ghost function Unmarked(visited: map<string, nat>): set<string>
  {
    set n | n in visited && visited[n] == 0
  }

  lemma MarkShrinks(visited: map<string, nat>, name: string, mark: nat)
    requires name in visited && mark > 0
    ensures Unmarked(visited[name := mark]) == Unmarked(visited) - {name}
  {
  }

  /** Pushing an unvisited successor. */
  lemma Enter(g: Graph, visited: map<string, nat>, path: seq<string>, finished: seq<string>, name: string)
    requires Consistent(g, visited, path, finished)
    requires name in g && visited[name] == 0
    requires path != [] ==> Edge(g, path[|path| - 1], name)
    ensures Consistent(g, visited[name := 1], path + [name], finished)
  {
  }

  /** Popping a node whose successors are all finished keeps the finishing order topological. */
  lemma Leave(g: Graph, visited: map<string, nat>, path: seq<string>, finished: seq<string>, name: string)
    requires Consistent(g, visited, path + [name], finished)
    requires name in g && g[name] <= ToSet(finished)
    ensures Consistent(g, visited[name := 2], path, finished + [name])
  {
    var p, f := path + [name], finished + [name];
    assert forall i :: 0 <= i < |path| ==> p[i] == path[i];
    assert p[|path|] == name;
    forall i | 0 <= i < |f| ensures f[i] in g && g[f[i]] <= ToSet(f[..i]) {
      if i < |finished| {
        assert f[..i] == finished[..i] && f[i] == finished[i];
      } else {
        assert f[..i] == finished;
      }
    }
  }

  lemma OnStack(g: Graph, path: seq<string>, dep: string)
    requires path != [] && Chain(g, path) && dep in path
    requires Edge(g, path[|path| - 1], dep)
    ensures ReportsCycle(g, path)
  {
    var k :| 0 <= k < |path| && path[k] == dep;
  }

  /** With an empty stack every marked node is finished. */
  lemma Idle(g: Graph, visited: map<string, nat>, finished: seq<string>)
    requires Consistent(g, visited, [], finished)
    ensures visited.Keys == g.Keys && Topological(g, finished)
    ensures forall n :: n in g && visited[n] != 0 ==> n in finished
  {
  }

  ghost predicate Grows(before: seq<string>, after: seq<string>)
  {
    forall x :: x in before ==> x in after
  }

  class Search {
    const byName: map<string, Unit>
    ghost const g: Graph
    var visited: map<string, nat>
    var path: seq<string>
    ghost var finished: seq<string>

    ghost predicate Valid()
      reads this
    {
      Indexes(byName, g) && Closed(g) && visited.Keys == g.Keys && Consistent(g, visited, path, finished)
    }

    constructor (byName: map<string, Unit>, ghost g: Graph)
      requires Indexes(byName, g) && Closed(g)
      ensures Valid() && this.g == g && this.byName == byName && path == []
    {
      this.byName := byName;
      this.g := g;
      visited := map n | n in byName :: 0;
      path := [];
      finished := [];
    }

    ghost function Unvisited(): set<string>
      reads this
    {
      Unmarked(visited)
    }

    /** Explores `name`. Without a find, the stack is restored, `name` is finished and nothing
        finished before is lost. */
    method Dfs(name: string) returns (found: bool)
      requires Valid() && name in g && visited[name] == 0
      requires path != [] ==> Edge(g, path[|path| - 1], name)
      modifies this`visited, this`path, this`finished
      ensures found ==> ReportsCycle(g, path)
      ensures !found ==> Valid() && path == old(path) && name in finished
      ensures !found ==> Grows(old(finished), finished) && Unvisited() <= old(Unvisited())
      decreases Unvisited(), 0
    {
      hide Consistent, Closed, ReportsCycle, Edge;
      Enter(g, visited, path, finished, name);
      MarkShrinks(visited, name, 1);
      visited := visited[name := 1];
      path := path + [name];
      var deps := AllDeps(byName[name]);
      assert name in old(Unvisited());
      found := VisitAll(deps);
      if !found {
        Leave(g, visited, old(path), finished, name);
        MarkShrinks(visited, name, 2);
        path := path[..|path| - 1];
        assert path == old(path);
        visited := visited[name := 2];
        finished := finished + [name];
      }
    }

    /** The loop over the dependencies of the node on top of the stack. */
    method VisitAll(deps: seq<string>) returns (found: bool)
      requires Valid() && path != [] && ToSet(deps) <= g[path[|path| - 1]]
      modifies this`visited, this`path, this`finished
      ensures found ==> ReportsCycle(g, path)
      ensures !found ==> Valid() && path == old(path) && ToSet(deps) <= ToSet(finished)
      ensures !found ==> Grows(old(finished), finished) && Unvisited() <= old(Unvisited())
      decreases Unvisited(), 2
    {
      var i := 0;
      while i < |deps|
        invariant 0 <= i <= |deps|
        invariant Valid() && path == old(path)
        invariant Grows(old(finished), finished) && Unvisited() <= old(Unvisited())
        invariant forall k :: 0 <= k < i ==> deps[k] in finished
      {
        assert deps[i] in ToSet(deps);
        found := Visit(deps[i]);
        if found {
          return true;
        }
        i := i + 1;
      }
      return false;
    }

    /** One dependency of the node on top of the stack. */
    method Visit(dep: string) returns (found: bool)
      requires Valid() && path != [] && Edge(g, path[|path| - 1], dep)
      modifies this`visited, this`path, this`finished
      ensures found ==> ReportsCycle(g, path)
      ensures !found ==> Valid() && path == old(path) && dep in finished
      ensures !found ==> Grows(old(finished), finished) && Unvisited() <= old(Unvisited())
      decreases Unvisited(), 1
    {
      if visited[dep] == 1 {
        OnStack(g, path, dep);
        return true;
      }
      if visited[dep] == 0 {
        found := Dfs(dep);
      } else {
        found := false;
      }
    }
  }

  /** Reports a cycle exactly when there is one; "(unknown cycle)" is `None`. */
  method DetectCycle(units: seq<Unit>, byName: map<string, Unit>, ghost g: Graph) returns (r: Option<seq<string>>)
    requires Indexes(byName, g) && Closed(g)
    requires g.Keys == ToSet(Names(units))
    ensures r.Some? ==> ReportsCycle(g, r.value)
    ensures r.None? ==> exists s :: TopologicalOrder(g, s)
    ensures r.Some? <==> !Acyclic(g)
  {
    hide Consistent, Edge, ReportsCycle, Chain, Acyclic, Indexes, Closed, TopologicalOrder, Topological;
    var search := new Search(byName, g);
    var names := Names(units);
    var i := 0;
    while i < |names|
      invariant 0 <= i <= |names| && fresh(search)
      invariant search.Valid() && search.g == g && search.path == []
      invariant forall k :: 0 <= k < i ==> names[k] in search.finished
    {
      assert names[i] in ToSet(names);
      Idle(g, search.visited, search.finished);
      if search.visited[names[i]] == 0 {
        var found := search.Dfs(names[i]);
        if found {
          ReportIsCycle(g, search.path);
          return Some(search.path);
        }
      }
      i := i + 1;
    }
    Idle(g, search.visited, search.finished);
    AllFinished(g, names, search.finished);
    return None;
  }

  lemma AllFinished(g: Graph, names: seq<string>, finished: seq<string>)
    requires Topological(g, finished) && ToSet(names) == g.Keys
    requires forall k :: 0 <= k < |names| ==> names[k] in finished
    ensures TopologicalOrder(g, finished) && Acyclic(g)
  {
    forall n | n in g ensures n in finished {
      assert n in ToSet(names);
    }
    forall n | n in finished ensures n in g {
      var i :| 0 <= i < |finished| && finished[i] == n;
    }
    assert ToSet(finished) == g.Keys;
    OrderedIsAcyclic(g, finished);
  }
}
