/** The task dependency graph of the migration planner, and reachability in it. */
module Graphs {
  import opened Sorting

  /** `edges: dict[str, set[str]]`: the keys in insertion order, and their dependencies. */
  datatype Graph = Graph(nodes: seq<string>, deps: map<string, set<string>>) {
    ghost predicate Valid() {
      NoDup(nodes) && forall n :: n in nodes <==> n in deps
    }

    /** What `build_graph` guarantees: every dependency is itself a task. */
    ghost predicate Closed() {
      forall n, m :: n in deps && m in deps[n] ==> m in deps
    }

    /** `edges.get(node, ())` */
    function Succ(n: string): set<string> {
      if n in deps then deps[n] else {}
    }

    /** `sorted(edges.get(node, ()))` */
    function Children(n: string): seq<string> {
      SortedSet(Succ(n))
    }

    /** Every node that is a key or somebody's dependency. */
    ghost function Universe(): set<string> {
      deps.Keys + set n, m | n in deps && m in deps[n] :: m
    }
  }

  ghost predicate IsPath(g: Graph, p: seq<string>) {
    |p| > 0 && forall i :: 0 <= i < |p| - 1 ==> p[i + 1] in g.Succ(p[i])
  }

  ghost predicate PathFromTo(g: Graph, p: seq<string>, u: string, v: string) {
    IsPath(g, p) && p[0] == u && p[|p| - 1] == v
  }

  /** `u` depends on `v` directly, transitively, or is `v`. */
  ghost predicate Reach(g: Graph, u: string, v: string) {
    exists p :: PathFromTo(g, p, u, v)
  }

  ghost predicate Mutual(g: Graph, u: string, v: string) {
    Reach(g, u, v) && Reach(g, v, u)
  }

  lemma ReachRefl(g: Graph, u: string)
    ensures Reach(g, u, u)
  {
    assert PathFromTo(g, [u], u, u);
  }

  lemma ReachEdge(g: Graph, u: string, v: string)
    requires v in g.Succ(u)
    ensures Reach(g, u, v)
  {
    assert PathFromTo(g, [u, v], u, v);
  }

  lemma ReachTrans(g: Graph, u: string, v: string, w: string)
    requires Reach(g, u, v) && Reach(g, v, w)
    ensures Reach(g, u, w)
  {
    var p :| PathFromTo(g, p, u, v);
    var q :| PathFromTo(g, q, v, w);
    var r := p + q[1..];
    forall i | 0 <= i < |r| - 1 ensures r[i + 1] in g.Succ(r[i]) {
      if i >= |p| - 1 {
        assert r[i] == q[i - |p| + 1] && r[i + 1] == q[i - |p| + 2];
      }
    }
    assert PathFromTo(g, r, u, w);
  }

  ghost predicate ClosedSet(g: Graph, s: set<string>) {
    forall x, y :: x in s && y in g.Succ(x) ==> y in s
  }

  /** Nothing outside a set closed under dependencies is reachable from inside it. */
  lemma {:induction false} ClosedSetTraps(g: Graph, s: set<string>, u: string, v: string)
    requires ClosedSet(g, s) && u in s && Reach(g, u, v)
    ensures v in s
  {
    var p :| PathFromTo(g, p, u, v);
    var i := 0;
    while i < |p| - 1
      invariant 0 <= i < |p|
      invariant p[i] in s
    {
      i := i + 1;
    }
  }
}
