/** `strongly_connected_components`: Tarjan's algorithm with an explicit work stack. */
module Tarjan {
  import opened Sorting
  import opened Graphs

  /** The variables of the loop; `work` holds (node, number of children taken so far). */
  datatype Dfs = Dfs(
    index: map<string, int>,
    low: map<string, int>,
    stack: seq<string>,
    work: seq<(string, nat)>,
    comps: seq<seq<string>>)

  // ---------- what a list of components must be ----------

  ghost predicate InComps(comps: seq<seq<string>>, n: nat, x: string) {
    exists j :: 0 <= j < n && j < |comps| && x in comps[j]
  }

  /** `c` is exactly the strongly connected component of each of its members. */
  ghost predicate IsScc(g: Graph, c: seq<string>) {
    && c != []
    && forall x, y :: x in c ==> (y in c <==> Mutual(g, x, y))
  }

  /** Every dependency of a member of component i lies in component i or an earlier one. */
  ghost predicate DepsFirst(g: Graph, comps: seq<seq<string>>) {
    forall i, x, y :: 0 <= i < |comps| && x in comps[i] && y in g.Succ(x) ==> InComps(comps, i + 1, y)
  }

  ghost predicate Listed(comps: seq<seq<string>>) {
    && (forall i :: 0 <= i < |comps| ==> NoDup(comps[i]) && SortedBy(comps[i], StrLe))
    && (forall i, j, x :: 0 <= i < j < |comps| && x in comps[i] ==> x !in comps[j])
  }

  ghost predicate SccList(g: Graph, comps: seq<seq<string>>) {
    && (forall i :: 0 <= i < |comps| ==> IsScc(g, comps[i]))
    && Listed(comps)
    && DepsFirst(g, comps)
  }

  // ---------- the graph as the proof sees it ----------

  /** The graph with its sorted child lists and its reachability relation. The proof
      below uses them only through the lemmas that follow, which fire `Use`. */
  datatype Adj = Adj(graph: Graph, kids: map<string, seq<string>>, reach: (string, string) -> bool) {
    function Succ(n: string): set<string> {
      graph.Succ(n)
    }

    function Children(n: string): seq<string> {
      if n in kids then kids[n] else []
    }

    ghost predicate Ok() {
      && (forall n {:trigger Use(n, n)} :: Children(n) == graph.Children(n))
      && (forall u, v {:trigger Use(u, v)} :: reach(u, v) <==> Reach(graph, u, v))
    }
  }

  ghost predicate Use(u: string, v: string) { true }

  lemma ListsSucc(g: Adj, n: string)
    requires g.Ok()
    ensures forall y :: y in g.Children(n) <==> y in g.Succ(n)
  {
    assert Use(n, n);
    SortedSetLists(g.Succ(n));
  }

  lemma Trans(g: Adj, u: string, v: string, w: string)
    requires g.Ok() && g.reach(u, v) && g.reach(v, w)
    ensures g.reach(u, w)
  {
    assert Use(u, v) && Use(v, w) && Use(u, w);
    ReachTrans(g.graph, u, v, w);
  }

  lemma Edge(g: Adj, u: string, v: string)
    requires g.Ok() && v in g.Succ(u)
    ensures g.reach(u, v)
  {
    assert Use(u, v);
    ReachEdge(g.graph, u, v);
  }

  lemma Refl(g: Adj, u: string)
    requires g.Ok()
    ensures g.reach(u, u)
  {
    assert Use(u, u);
    ReachRefl(g.graph, u);
  }

  lemma Traps(g: Adj, s: set<string>, u: string, v: string)
    requires g.Ok() && ClosedSet(g.graph, s) && u in s && g.reach(u, v)
    ensures v in s
  {
    assert Use(u, v);
    ClosedSetTraps(g.graph, s, u, v);
  }

  ghost function AdjOf(g: Graph): Adj {
    Adj(g, map n | n in g.Universe() :: g.Children(n), (u, v) => Reach(g, u, v))
  }

  lemma AdjOfOk(g: Graph)
    ensures AdjOf(g).Ok()
  {
    forall n ensures AdjOf(g).Children(n) == g.Children(n) {
      if n !in g.Universe() { assert g.Succ(n) == {}; }
    }
  }

  ghost predicate Connected(g: Adj, c: seq<string>) {
    && c != []
    && forall x, y :: x in c ==> (y in c <==> g.reach(x, y) && g.reach(y, x))
  }

  ghost predicate Components(g: Adj, comps: seq<seq<string>>) {
    && (forall i :: 0 <= i < |comps| ==> Connected(g, comps[i]))
    && Listed(comps)
    && DepsFirst(g.graph, comps)
  }

  lemma ComponentsAreSccs(g: Adj, comps: seq<seq<string>>)
    requires g.Ok() && Components(g, comps)
    ensures SccList(g.graph, comps)
  {
    forall i, x, y | 0 <= i < |comps| && x in comps[i] ensures y in comps[i] <==> Mutual(g.graph, x, y) {
      assert Connected(g, comps[i]);
      assert Use(x, y) && Use(y, x);
    }
  }

  // ---------- the loop invariant ----------

  /** `index_of[x]` and `low[x]`, with -1 for a node that has none. */
  function Ix(s: Dfs, x: string): int {
    if x in s.index then s.index[x] else -1
  }

  function Lo(s: Dfs, x: string): int {
    if x in s.low then s.low[x] else -1
  }

  ghost predicate StackShape(s: Dfs) {
    && (forall x :: x in s.stack ==> x in s.index)
    && (forall i, j :: 0 <= i < j < |s.stack| ==> Ix(s, s.stack[i]) < Ix(s, s.stack[j]))
  }

  ghost predicate WorkShape(s: Dfs) {
    && (forall p :: 0 <= p < |s.work| ==> s.work[p].0 in s.stack && s.work[p].0 in s.low)
    && (forall p, q :: 0 <= p < q < |s.work| ==> Ix(s, s.work[p].0) < Ix(s, s.work[q].0))
    && (s.stack == [] <==> s.work == [])
    && (s.stack != [] && s.work != [] ==> s.stack[0] == s.work[0].0)
  }

  /** A visited node is on the stack or in a component already emitted, never both. */
  ghost predicate Emitted(s: Dfs) {
    && (forall x :: x in s.index <==> x in s.stack || InComps(s.comps, |s.comps|, x))
    && (forall x :: x in s.stack ==> !InComps(s.comps, |s.comps|, x))
  }

  ghost predicate Taken(g: Adj, e: (string, nat), y: string) {
    e.1 < |g.Children(e.0)| ==> y in g.Children(e.0)[..e.1]
  }

  /** The edge from x to y has been looked at: all edges of a node that left `work`. */
  ghost predicate Scanned(g: Adj, s: Dfs, x: string, y: string) {
    y in g.Succ(x) && forall p :: 0 <= p < |s.work| && s.work[p].0 == x ==> Taken(g, s.work[p], y)
  }

  ghost predicate ScannedVisited(g: Adj, s: Dfs) {
    forall x, y :: x in s.stack && Scanned(g, s, x, y) ==> y in s.index
  }

  /** A node still being worked on reaches everything stacked after it. */
  ghost predicate WorkReaches(g: Adj, s: Dfs) {
    forall p, y :: 0 <= p < |s.work| && y in s.stack && Ix(s, s.work[p].0) <= Ix(s, y) ==> g.reach(s.work[p].0, y)
  }

  ghost predicate BeforeNext(s: Dfs, p: nat, y: string) {
    p + 1 < |s.work| ==> Ix(s, y) < Ix(s, s.work[p + 1].0)
  }

  /** Everything stacked before the next work node reaches the current one. */
  ghost predicate ReachesWork(g: Adj, s: Dfs) {
    forall p, y :: 0 <= p < |s.work| && y in s.stack && BeforeNext(s, p, y) ==> g.reach(y, s.work[p].0)
  }

  ghost predicate LowWitness(g: Adj, s: Dfs, w: string, l: int) {
    exists z :: z in s.stack && Ix(s, z) == l && g.reach(w, z)
  }

  ghost predicate LowSound(g: Adj, s: Dfs) {
    forall p :: 0 <= p < |s.work| ==>
      Lo(s, s.work[p].0) <= Ix(s, s.work[p].0) && LowWitness(g, s, s.work[p].0, Lo(s, s.work[p].0))
  }

  /** x lies in the stack segment of work entry p. */
  ghost predicate InSegment(s: Dfs, p: nat, x: string)
    requires p < |s.work|
  {
    x in s.stack && Ix(s, s.work[p].0) <= Ix(s, x) && BeforeNext(s, p, x)
  }

  /** The low-link of a work node bounds every scanned edge out of its stack segment. */
  ghost predicate LowCovers(g: Adj, s: Dfs) {
    forall p, x, y ::
      0 <= p < |s.work| && InSegment(s, p, x) && y in s.stack && Scanned(g, s, x, y) ==> Lo(s, s.work[p].0) <= Ix(s, y)
  }

  /** The invariant, without what is said of the components already emitted. */
  ghost predicate Walk(g: Adj, s: Dfs) {
    && g.Ok() && StackShape(s) && WorkShape(s)
    && ScannedVisited(g, s)
    && WorkReaches(g, s) && ReachesWork(g, s)
    && LowSound(g, s) && LowCovers(g, s)
  }

  // ---------- the steps ----------

  function Top(s: Dfs): string
    requires s.work != []
  {
    s.work[|s.work| - 1].0
  }

  /** First visit of a node, pushed on both stacks. */
  function Visit(s: Dfs, n: string, counter: int): Dfs {
    s.(index := s.index[n := counter], low := s.low[n := counter],
       stack := s.stack + [n], work := s.work + [(n, 0)])
  }

  /** One more child of work entry p counts as taken. */
  function Advance(s: Dfs, p: nat): Dfs
    requires p < |s.work|
  {
    s.(work := s.work[p := (s.work[p].0, s.work[p].1 + 1)])
  }

  function SetLow(s: Dfs, n: string, l: int): Dfs {
    s.(low := s.low[n := l])
  }

  ghost predicate Fresh(s: Dfs, n: string, counter: int) {
    n !in s.index && 0 <= counter && forall x :: x in s.index ==> s.index[x] < counter
  }

  lemma VisitIndices(s: Dfs, n: string, counter: int)
    requires Fresh(s, n, counter)
    ensures forall x :: x in s.index ==> x != n && Ix(Visit(s, n, counter), x) == Ix(s, x) < counter
    ensures Ix(Visit(s, n, counter), n) == counter
  {
  }

  lemma VisitStackShape(s: Dfs, n: string, counter: int)
    requires StackShape(s) && Fresh(s, n, counter)
    ensures StackShape(Visit(s, n, counter))
  {
    VisitIndices(s, n, counter);
    var t := Visit(s, n, counter);
    forall i, j | 0 <= i < j < |t.stack| ensures Ix(t, t.stack[i]) < Ix(t, t.stack[j]) {
      assert t.stack[i] == s.stack[i] && s.stack[i] in s.stack;
      if j < |s.stack| {
        assert t.stack[j] == s.stack[j] && s.stack[j] in s.stack;
      }
    }
  }

  lemma VisitWorkShape(s: Dfs, n: string, counter: int)
    requires StackShape(s) && WorkShape(s) && Fresh(s, n, counter)
    ensures WorkShape(Visit(s, n, counter))
  {
    VisitIndices(s, n, counter);
    var t := Visit(s, n, counter);
    assert forall p :: 0 <= p < |s.work| ==> t.work[p] == s.work[p] && s.work[p].0 in s.stack;
    forall p, q | 0 <= p < q < |t.work| ensures Ix(t, t.work[p].0) < Ix(t, t.work[q].0) {
      assert t.work[p] == s.work[p];
    }
  }

  lemma VisitShape(g: Adj, s: Dfs, n: string, counter: int)
    requires StackShape(s) && WorkShape(s) && Fresh(s, n, counter)
    ensures StackShape(Visit(s, n, counter)) && WorkShape(Visit(s, n, counter))
    ensures forall x :: x in s.index ==> x != n && Ix(Visit(s, n, counter), x) == Ix(s, x) < counter
  {
    VisitIndices(s, n, counter);
    VisitStackShape(s, n, counter);
    VisitWorkShape(s, n, counter);
  }

  lemma VisitScanned(g: Adj, s: Dfs, n: string, counter: int, x: string, y: string)
    requires g.Ok()
    requires Scanned(g, Visit(s, n, counter), x, y)
    ensures x != n && Scanned(g, s, x, y)
  {
    var t := Visit(s, n, counter);
    assert t.work[|s.work|] == (n, 0);
    ListsSucc(g, x);
    assert x == n ==> Taken(g, t.work[|s.work|], y);
    forall p | 0 <= p < |s.work| && s.work[p].0 == x ensures Taken(g, s.work[p], y) {
      assert t.work[p] == s.work[p];
    }
  }

  lemma VisitWorkReaches(g: Adj, s: Dfs, n: string, counter: int)
    requires g.Ok()
    requires StackShape(s) && WorkShape(s) && Fresh(s, n, counter) && WorkReaches(g, s)
    requires s.work != [] ==> n in g.Succ(Top(s))
    ensures WorkReaches(g, Visit(s, n, counter))
  {
    VisitShape(g, s, n, counter);
    var t := Visit(s, n, counter);
    forall p, y | 0 <= p < |t.work| && y in t.stack && Ix(t, t.work[p].0) <= Ix(t, y)
      ensures g.reach(t.work[p].0, y)
    {
      if p < |s.work| {
        assert t.work[p] == s.work[p];
        if y == n {
          assert s.work[|s.work| - 1].0 in s.stack;
          Edge(g, Top(s), n);
          Trans(g, s.work[p].0, Top(s), n);
        }
      } else {
        Refl(g, n);
      }
    }
  }

  lemma VisitReachesWork(g: Adj, s: Dfs, n: string, counter: int)
    requires g.Ok()
    requires StackShape(s) && WorkShape(s) && Fresh(s, n, counter) && ReachesWork(g, s)
    requires s.work != [] ==> n in g.Succ(Top(s))
    ensures ReachesWork(g, Visit(s, n, counter))
  {
    VisitShape(g, s, n, counter);
    var t := Visit(s, n, counter);
    forall p, y | 0 <= p < |t.work| && y in t.stack && BeforeNext(t, p, y)
      ensures g.reach(y, t.work[p].0)
    {
      if p < |s.work| {
        assert t.work[p] == s.work[p];
        if p + 1 < |s.work| { assert t.work[p + 1] == s.work[p + 1]; } else { assert t.work[p + 1].0 == n; }
        assert y in s.stack && BeforeNext(s, p, y);
      } else if y == n {
        Refl(g, n);
      } else {
        assert BeforeNext(s, |s.work| - 1, y);
        Edge(g, Top(s), n);
        Trans(g, y, Top(s), n);
      }
    }
  }

  lemma VisitLowSound(g: Adj, s: Dfs, n: string, counter: int)
    requires g.Ok()
    requires StackShape(s) && WorkShape(s) && Fresh(s, n, counter) && LowSound(g, s)
    ensures LowSound(g, Visit(s, n, counter))
  {
    VisitShape(g, s, n, counter);
    var t := Visit(s, n, counter);
    forall p | 0 <= p < |t.work|
      ensures Lo(t, t.work[p].0) <= Ix(t, t.work[p].0) && LowWitness(g, t, t.work[p].0, Lo(t, t.work[p].0))
    {
      if p < |s.work| {
        var w := s.work[p].0;
        assert t.work[p] == s.work[p];
        var z :| z in s.stack && Ix(s, z) == Lo(s, w) && g.reach(w, z);
        assert z in t.stack && Ix(t, z) == Lo(t, w);
      } else {
        Refl(g, n);
        assert n in t.stack && Ix(t, n) == Lo(t, n);
      }
    }
  }

  lemma VisitLowCovers(g: Adj, s: Dfs, n: string, counter: int)
    requires g.Ok()
    requires StackShape(s) && WorkShape(s) && Fresh(s, n, counter) && LowCovers(g, s) && ScannedVisited(g, s)
    ensures LowCovers(g, Visit(s, n, counter))
  {
    VisitShape(g, s, n, counter);
    var t := Visit(s, n, counter);
    forall p, x, y | 0 <= p < |t.work| && InSegment(t, p, x) && y in t.stack && Scanned(g, t, x, y)
      ensures Lo(t, t.work[p].0) <= Ix(t, y)
    {
      VisitScanned(g, s, n, counter, x, y);
      assert x in s.stack && y in s.index;
      if p < |s.work| {
        assert t.work[p] == s.work[p];
        if p + 1 < |s.work| { assert t.work[p + 1] == s.work[p + 1]; }
        assert InSegment(s, p, x);
      }
    }
  }

  lemma VisitKeepsWalk(g: Adj, s: Dfs, n: string, counter: int)
    requires Walk(g, s) && Fresh(s, n, counter)
    requires s.work != [] ==> n in g.Succ(Top(s))
    ensures Walk(g, Visit(s, n, counter))
  {
    VisitShape(g, s, n, counter);
    VisitWorkReaches(g, s, n, counter);
    VisitReachesWork(g, s, n, counter);
    VisitLowSound(g, s, n, counter);
    VisitLowCovers(g, s, n, counter);
    var t := Visit(s, n, counter);
    forall x, y | x in t.stack && Scanned(g, t, x, y) ensures y in t.index {
      VisitScanned(g, s, n, counter, x, y);
    }
  }

  lemma AdvanceScanned(g: Adj, s: Dfs, p: nat, x: string, y: string)
    requires g.Ok()
    requires p < |s.work| && s.work[p].1 < |g.Children(s.work[p].0)|
    requires Scanned(g, Advance(s, p), x, y)
    ensures Scanned(g, s, x, y) || (x == s.work[p].0 && y == g.Children(x)[s.work[p].1])
  {
    var t := Advance(s, p);
    ListsSucc(g, x);
    if !(x == s.work[p].0 && y == g.Children(x)[s.work[p].1]) {
      forall q | 0 <= q < |s.work| && s.work[q].0 == x ensures Taken(g, s.work[q], y) {
        assert t.work[q].0 == x;
        assert Taken(g, t.work[q], y);
        if q == p {
          var c := s.work[p].1;
          assert g.Children(x)[..c + 1] == g.Children(x)[..c] + [g.Children(x)[c]];
          assert c + 1 == |g.Children(x)| ==> g.Children(x)[..c + 1] == g.Children(x);
        }
      }
    }
  }

  /** A work node lies in its own stack segment only. */
  lemma SegmentUnique(g: Adj, s: Dfs, p: nat, q: nat)
    requires WorkShape(s) && p < |s.work| && q < |s.work| && InSegment(s, q, s.work[p].0)
    ensures p == q
  {
  }

  lemma AdvanceLowCovers(g: Adj, s: Dfs, p: nat)
    requires g.Ok()
    requires WorkShape(s) && LowCovers(g, s)
    requires p < |s.work| && s.work[p].1 < |g.Children(s.work[p].0)|
    requires var y := g.Children(s.work[p].0)[s.work[p].1]; y in s.stack ==> Lo(s, s.work[p].0) <= Ix(s, y)
    ensures LowCovers(g, Advance(s, p))
  {
    var t := Advance(s, p);
    forall q, x, y | 0 <= q < |t.work| && InSegment(t, q, x) && y in t.stack && Scanned(g, t, x, y)
      ensures Lo(t, t.work[q].0) <= Ix(t, y)
    {
      AdvanceScanned(g, s, p, x, y);
      assert t.work[q].0 == s.work[q].0;
      assert q + 1 < |s.work| ==> t.work[q + 1].0 == s.work[q + 1].0;
      assert InSegment(s, q, x);
      if !Scanned(g, s, x, y) {
        SegmentUnique(g, s, p, q);
      }
    }
  }

  lemma AdvanceNodes(s: Dfs, p: nat)
    requires p < |s.work|
    ensures |Advance(s, p).work| == |s.work| && forall q :: 0 <= q < |s.work| ==> Advance(s, p).work[q].0 == s.work[q].0
  {
  }

  lemma AdvanceReachesWork(g: Adj, s: Dfs, p: nat)
    requires p < |s.work| && ReachesWork(g, s)
    ensures ReachesWork(g, Advance(s, p))
  {
    var t := Advance(s, p);
    AdvanceNodes(s, p);
    forall q, y | 0 <= q < |t.work| && y in t.stack && BeforeNext(t, q, y) ensures g.reach(y, t.work[q].0) {
      assert BeforeNext(s, q, y);
    }
  }

  lemma AdvanceLowSound(g: Adj, s: Dfs, p: nat)
    requires p < |s.work| && LowSound(g, s)
    ensures LowSound(g, Advance(s, p))
  {
    var t := Advance(s, p);
    AdvanceNodes(s, p);
    forall q | 0 <= q < |t.work| ensures LowWitness(g, t, t.work[q].0, Lo(t, t.work[q].0)) {
      var z :| z in s.stack && Ix(s, z) == Lo(s, s.work[q].0) && g.reach(s.work[q].0, z);
      assert z in t.stack && Ix(t, z) == Ix(s, z);
    }
  }

  lemma AdvanceReach(g: Adj, s: Dfs, p: nat)
    requires p < |s.work| && WorkReaches(g, s) && ReachesWork(g, s) && LowSound(g, s)
    ensures WorkReaches(g, Advance(s, p)) && ReachesWork(g, Advance(s, p)) && LowSound(g, Advance(s, p))
  {
    AdvanceNodes(s, p);
    AdvanceReachesWork(g, s, p);
    AdvanceLowSound(g, s, p);
  }

  lemma AdvanceShape(s: Dfs, p: nat)
    requires StackShape(s) && WorkShape(s) && p < |s.work|
    ensures StackShape(Advance(s, p)) && WorkShape(Advance(s, p))
  {
    assert forall q :: 0 <= q < |s.work| ==> Advance(s, p).work[q].0 == s.work[q].0;
  }

  lemma AdvanceVisited(g: Adj, s: Dfs, p: nat)
    requires g.Ok() && ScannedVisited(g, s) && p < |s.work| && s.work[p].1 < |g.Children(s.work[p].0)|
    requires g.Children(s.work[p].0)[s.work[p].1] in s.index
    ensures ScannedVisited(g, Advance(s, p))
  {
    var t := Advance(s, p);
    forall x, y | x in t.stack && Scanned(g, t, x, y) ensures y in t.index {
      AdvanceScanned(g, s, p, x, y);
    }
  }

  /** Counting a child as taken is sound once it is visited and the low-link accounts for it. */
  lemma AdvanceKeepsWalk(g: Adj, s: Dfs, p: nat)
    requires Walk(g, s) && p < |s.work| && s.work[p].1 < |g.Children(s.work[p].0)|
    requires var y := g.Children(s.work[p].0)[s.work[p].1];
             y in s.index && (y in s.stack ==> Lo(s, s.work[p].0) <= Ix(s, y))
    ensures Walk(g, Advance(s, p))
  {
    AdvanceShape(s, p);
    AdvanceVisited(g, s, p);
    AdvanceReach(g, s, p);
    AdvanceLowCovers(g, s, p);
  }

  lemma SetLowSound(g: Adj, s: Dfs, n: string, z: string)
    requires WorkShape(s) && LowSound(g, s)
    requires z in s.stack && g.reach(n, z) && Ix(s, z) <= Lo(s, n)
    ensures LowSound(g, SetLow(s, n, Ix(s, z)))
  {
    var t := SetLow(s, n, Ix(s, z));
    forall p | 0 <= p < |t.work|
      ensures Lo(t, t.work[p].0) <= Ix(t, t.work[p].0) && LowWitness(g, t, t.work[p].0, Lo(t, t.work[p].0))
    {
      var w := s.work[p].0;
      var y :| y in s.stack && Ix(s, y) == Lo(s, w) && g.reach(w, y);
      var v := if w == n then z else y;
      assert v in t.stack && Ix(t, v) == Lo(t, w) && g.reach(w, v);
    }
  }

  lemma SetLowCovers(g: Adj, s: Dfs, n: string, l: int)
    requires WorkShape(s) && LowCovers(g, s) && n in s.low && l <= Lo(s, n)
    ensures LowCovers(g, SetLow(s, n, l))
  {
    var t := SetLow(s, n, l);
    forall p, x, y | 0 <= p < |t.work| && InSegment(t, p, x) && y in t.stack && Scanned(g, t, x, y)
      ensures Lo(t, t.work[p].0) <= Ix(t, y)
    {
      assert InSegment(s, p, x) && Scanned(g, s, x, y);
      assert Lo(t, t.work[p].0) <= Lo(s, t.work[p].0);
    }
  }

  lemma SetLowReaches(g: Adj, s: Dfs, n: string, l: int)
    requires WorkReaches(g, s) && ReachesWork(g, s)
    ensures WorkReaches(g, SetLow(s, n, l)) && ReachesWork(g, SetLow(s, n, l))
  {
    var t := SetLow(s, n, l);
    forall p, y | 0 <= p < |t.work| && y in t.stack && BeforeNext(t, p, y) ensures g.reach(y, t.work[p].0) {
      assert BeforeNext(s, p, y);
    }
  }

  lemma SetLowFrame(g: Adj, s: Dfs, n: string, l: int)
    requires StackShape(s) && WorkShape(s) && ScannedVisited(g, s)
    ensures var t := SetLow(s, n, l); StackShape(t) && WorkShape(t) && ScannedVisited(g, t)
  {
    var t := SetLow(s, n, l);
    forall x, y | x in t.stack && Scanned(g, t, x, y) ensures y in t.index {
      assert Scanned(g, s, x, y);
    }
  }

  /** Lowering a low-link to the index of a stacked node that is reached. */
  lemma SetLowKeepsWalk(g: Adj, s: Dfs, n: string, z: string)
    requires Walk(g, s) && n in s.low
    requires z in s.stack && g.reach(n, z) && Ix(s, z) <= Lo(s, n)
    ensures Walk(g, SetLow(s, n, Ix(s, z)))
  {
    SetLowFrame(g, s, n, Ix(s, z));
    SetLowReaches(g, s, n, Ix(s, z));
    SetLowSound(g, s, n, z);
    SetLowCovers(g, s, n, Ix(s, z));
  }

  // ---------- leaving a node ----------

  /** The top work node has had all its children taken. */
  ghost predicate Exhausted(g: Adj, s: Dfs) {
    s.work != [] && s.work[|s.work| - 1].1 >= |g.Children(Top(s))|
  }

  function DropWork(s: Dfs): Dfs
    requires s.work != []
  {
    s.(work := s.work[..|s.work| - 1])
  }

  lemma DropScanned(g: Adj, s: Dfs, x: string, y: string)
    requires g.Ok()
    requires Exhausted(g, s) && Scanned(g, DropWork(s), x, y)
    ensures Scanned(g, s, x, y)
  {
    var k := |s.work| - 1;
    ListsSucc(g, x);
    forall p | 0 <= p < |s.work| && s.work[p].0 == x ensures Taken(g, s.work[p], y) {
      if p < k {
        assert DropWork(s).work[p] == s.work[p];
      }
    }
  }

  /** A node with a low-link below its own index is not the first in work. */
  lemma LowPointsBelow(g: Adj, s: Dfs)
    requires StackShape(s) && WorkShape(s) && LowSound(g, s)
    requires s.work != [] && Lo(s, Top(s)) < Ix(s, Top(s))
    ensures |s.work| > 1
  {
    var v := Top(s);
    var z :| z in s.stack && Ix(s, z) == Lo(s, v) && g.reach(v, z);
    var i :| 0 <= i < |s.stack| && s.stack[i] == z;
    assert i != 0 ==> Ix(s, s.stack[0]) < Ix(s, s.stack[i]);
  }

  /** Through the low-link of a node that did not close, the stack reaches its parent. */
  lemma ReachesParent(g: Adj, s: Dfs, y: string)
    requires g.Ok()
    requires WorkShape(s) && LowSound(g, s) && ReachesWork(g, s)
    requires |s.work| > 1 && Lo(s, Top(s)) < Ix(s, Top(s)) && y in s.stack
    ensures g.reach(y, s.work[|s.work| - 2].0)
  {
    var k := |s.work| - 1;
    assert BeforeNext(s, k, y);
    var z :| z in s.stack && Ix(s, z) == Lo(s, s.work[k].0) && g.reach(s.work[k].0, z);
    assert BeforeNext(s, k - 1, z);
    Trans(g, y, s.work[k].0, z);
    Trans(g, y, z, s.work[k - 1].0);
  }

  lemma RetireReachesWork(g: Adj, s: Dfs)
    requires g.Ok()
    requires WorkShape(s) && LowSound(g, s) && ReachesWork(g, s)
    requires |s.work| > 1 && Lo(s, Top(s)) < Ix(s, Top(s))
    ensures ReachesWork(g, DropWork(s))
  {
    var t := DropWork(s);
    var k := |s.work| - 1;
    forall p, y | 0 <= p < |t.work| && y in t.stack && BeforeNext(t, p, y) ensures g.reach(y, t.work[p].0) {
      assert t.work[p] == s.work[p];
      if p + 1 < k {
        assert t.work[p + 1] == s.work[p + 1];
        assert BeforeNext(s, p, y);
      } else {
        ReachesParent(g, s, y);
      }
    }
  }

  lemma RetireLowCovers(g: Adj, s: Dfs)
    requires g.Ok()
    requires WorkShape(s) && LowCovers(g, s) && Exhausted(g, s)
    requires |s.work| > 1 && Lo(s, s.work[|s.work| - 2].0) <= Lo(s, Top(s))
    ensures LowCovers(g, DropWork(s))
  {
    var t := DropWork(s);
    var k := |s.work| - 1;
    forall p, x, y | 0 <= p < |t.work| && InSegment(t, p, x) && y in t.stack && Scanned(g, t, x, y)
      ensures Lo(t, t.work[p].0) <= Ix(t, y)
    {
      DropScanned(g, s, x, y);
      assert t.work[p] == s.work[p];
      if p + 1 < k {
        assert t.work[p + 1] == s.work[p + 1];
        assert InSegment(s, p, x);
      } else if BeforeNext(s, p, x) {
        assert InSegment(s, p, x);
      } else {
        assert InSegment(s, k, x);
      }
    }
  }

  lemma RetireLowSound(g: Adj, s: Dfs)
    requires |s.work| > 1 && LowSound(g, s)
    ensures LowSound(g, DropWork(s))
  {
    var t := DropWork(s);
    forall p | 0 <= p < |t.work|
      ensures Lo(t, t.work[p].0) <= Ix(t, t.work[p].0) && LowWitness(g, t, t.work[p].0, Lo(t, t.work[p].0))
    {
      var z :| z in s.stack && Ix(s, z) == Lo(s, s.work[p].0) && g.reach(s.work[p].0, z);
      assert z in t.stack && Ix(t, z) == Ix(s, z);
    }
  }

  lemma RetireFrame(g: Adj, s: Dfs)
    requires g.Ok()
    requires StackShape(s) && WorkShape(s) && ScannedVisited(g, s) && WorkReaches(g, s)
    requires |s.work| > 1 && Exhausted(g, s)
    ensures var t := DropWork(s); StackShape(t) && WorkShape(t) && ScannedVisited(g, t) && WorkReaches(g, t)
  {
    var t := DropWork(s);
    assert forall p :: 0 <= p < |t.work| ==> t.work[p] == s.work[p];
    forall x, y | x in t.stack && Scanned(g, t, x, y) ensures y in t.index {
      DropScanned(g, s, x, y);
    }
  }

  /** `work.pop(); low[parent] = min(low[parent], low[node])` after a node that did not close. */
  function Fold(s: Dfs): Dfs
    requires |s.work| > 1
  {
    var parent := s.work[|s.work| - 2].0;
    var l := if Lo(s, parent) <= Lo(s, Top(s)) then Lo(s, parent) else Lo(s, Top(s));
    DropWork(SetLow(s, parent, l))
  }

  lemma FoldLow(g: Adj, s: Dfs, parent: string) returns (z: string)
    requires g.Ok()
    requires StackShape(s) && WorkShape(s) && WorkReaches(g, s) && LowSound(g, s)
    requires |s.work| > 1 && parent == s.work[|s.work| - 2].0
    ensures parent != Top(s) && parent in s.low
    ensures z in s.stack && g.reach(parent, z)
    ensures Ix(s, z) == if Lo(s, parent) <= Lo(s, Top(s)) then Lo(s, parent) else Lo(s, Top(s))
  {
    var k := |s.work| - 1;
    var v := s.work[k].0;
    assert Ix(s, s.work[k - 1].0) < Ix(s, s.work[k].0);
    var z0 :| z0 in s.stack && Ix(s, z0) == Lo(s, s.work[k - 1].0) && g.reach(s.work[k - 1].0, z0);
    var z1 :| z1 in s.stack && Ix(s, z1) == Lo(s, s.work[k].0) && g.reach(s.work[k].0, z1);
    assert g.reach(s.work[k - 1].0, v);
    Trans(g, parent, v, z1);
    z := if Lo(s, parent) <= Lo(s, v) then z0 else z1;
  }

  lemma RetireKeepsWalk(g: Adj, s: Dfs)
    requires Walk(g, s) && Exhausted(g, s) && |s.work| > 1
    requires Lo(s, s.work[|s.work| - 2].0) <= Lo(s, Top(s)) < Ix(s, Top(s))
    ensures Walk(g, DropWork(s))
  {
    RetireFrame(g, s);
    RetireLowSound(g, s);
    RetireReachesWork(g, s);
    RetireLowCovers(g, s);
  }

  lemma FoldKeepsWalk(g: Adj, s: Dfs)
    requires Walk(g, s) && Exhausted(g, s) && |s.work| > 1 && Lo(s, Top(s)) < Ix(s, Top(s))
    ensures Walk(g, Fold(s))
  {
    var parent := s.work[|s.work| - 2].0;
    var z := FoldLow(g, s, parent);
    var s1 := SetLow(s, parent, Ix(s, z));
    SetLowKeepsWalk(g, s, parent, z);
    assert Fold(s) == DropWork(s1);
    assert Top(s1) == Top(s) && Lo(s1, Top(s)) == Lo(s, Top(s)) && Lo(s1, parent) == Ix(s, z);
    RetireKeepsWalk(g, s1);
  }

  /** Closing a component: the stack is cut at position i, where the top work node sits. */
  function Close(s: Dfs, i: nat, c: seq<string>): Dfs
    requires s.work != [] && i <= |s.stack|
  {
    DropWork(s).(stack := s.stack[..i], comps := s.comps + [c])
  }

  /** The situation in which the code closes a component. */
  ghost predicate Closing(g: Adj, s: Dfs, i: nat) {
    && Exhausted(g, s) && Lo(s, Top(s)) == Ix(s, Top(s))
    && i < |s.stack| && s.stack[i] == Top(s)
  }

  lemma CutByIndex(s: Dfs, i: nat, x: string)
    requires StackShape(s) && i < |s.stack| && x in s.stack
    ensures x in s.stack[..i] <==> Ix(s, x) < Ix(s, s.stack[i])
    ensures x in s.stack[i..] <==> Ix(s, x) >= Ix(s, s.stack[i])
  {
    var j :| 0 <= j < |s.stack| && s.stack[j] == x;
    if j < i { assert s.stack[..i][j] == x; } else { assert s.stack[i..][j - i] == x; }
    if x in s.stack[..i] {
      var a :| 0 <= a < i && s.stack[..i][a] == x;
      assert s.stack[a] == x;
    }
    if x in s.stack[i..] {
      var a :| 0 <= a < |s.stack| - i && s.stack[i..][a] == x;
      assert s.stack[a + i] == x;
    }
  }

  lemma SegmentScanned(g: Adj, s: Dfs, i: nat, x: string, y: string)
    requires g.Ok()
    requires StackShape(s) && WorkShape(s) && Closing(g, s, i)
    requires x in s.stack && Ix(s, x) >= Ix(s, Top(s)) && y in g.Succ(x)
    ensures Scanned(g, s, x, y) && InSegment(s, |s.work| - 1, x)
  {
    var k := |s.work| - 1;
    ListsSucc(g, x);
    assert forall p :: 0 <= p < k ==> Ix(s, s.work[p].0) < Ix(s, s.work[k].0);
    forall p | 0 <= p < |s.work| && s.work[p].0 == x ensures Taken(g, s.work[p], y) {
    }
  }

  /** Nodes of the closing segment only lead into the segment or into emitted components. */
  lemma SegmentClosed(g: Adj, s: Dfs, i: nat, x: string, y: string)
    requires Walk(g, s) && Emitted(s) && Closing(g, s, i) && x in s.stack[i..] && y in g.Succ(x)
    ensures y in s.stack[i..] || InComps(s.comps, |s.comps|, y)
  {
    assert x in s.stack;
    CutByIndex(s, i, x);
    SegmentScanned(g, s, i, x, y);
    assert y in s.index;
    if y in s.stack {
      assert Lo(s, Top(s)) <= Ix(s, y);
      CutByIndex(s, i, y);
    }
  }

  ghost function Sealed(s: Dfs, i: nat): set<string>
    requires i <= |s.stack|
  {
    set x | x in s.index && (x in s.stack[i..] || InComps(s.comps, |s.comps|, x))
  }

  lemma EmittedStep(g: Adj, comps: seq<seq<string>>, x: string, y: string)
    requires DepsFirst(g.graph, comps) && InComps(comps, |comps|, x) && y in g.graph.Succ(x)
    ensures InComps(comps, |comps|, y)
  {
    var j :| 0 <= j < |comps| && x in comps[j];
    assert InComps(comps, j + 1, y);
  }

  lemma EmittedClosed(g: Adj, s: Dfs)
    requires Emitted(s) && DepsFirst(g.graph, s.comps)
    ensures ClosedSet(g.graph, Sealed(s, |s.stack|))
  {
    assert s.stack[|s.stack|..] == [];
    forall x, y | x in Sealed(s, |s.stack|) && y in g.graph.Succ(x) ensures y in Sealed(s, |s.stack|) {
      EmittedStep(g, s.comps, x, y);
    }
  }

  lemma SealedStep(g: Adj, s: Dfs, i: nat, x: string, y: string)
    requires Walk(g, s) && Emitted(s) && DepsFirst(g.graph, s.comps) && Closing(g, s, i)
    requires x in Sealed(s, i) && y in g.graph.Succ(x)
    ensures y in s.stack[i..] || InComps(s.comps, |s.comps|, y)
  {
    if x in s.stack[i..] { SegmentClosed(g, s, i, x, y); } else { EmittedStep(g, s.comps, x, y); }
  }

  lemma InSealed(s: Dfs, i: nat, y: string)
    requires Emitted(s) && i <= |s.stack|
    ensures y in Sealed(s, i) <==> y in s.stack[i..] || InComps(s.comps, |s.comps|, y)
  {
    assert y in s.stack[i..] ==> y in s.stack;
  }

  lemma SealedClosed(g: Adj, s: Dfs, i: nat)
    requires Walk(g, s) && Emitted(s) && DepsFirst(g.graph, s.comps) && Closing(g, s, i)
    ensures ClosedSet(g.graph, Sealed(s, i))
  {
    forall x, y | x in Sealed(s, i) && y in g.graph.Succ(x) ensures y in Sealed(s, i) {
      SealedStep(g, s, i, x, y);
      InSealed(s, i, y);
    }
  }

  /** The closing segment is strongly connected through the closing node. */
  lemma SegmentMutual(g: Adj, s: Dfs, i: nat, x: string)
    requires Walk(g, s) && Closing(g, s, i) && x in s.stack[i..]
    ensures (g.reach(Top(s), x) && g.reach(x, Top(s)))
  {
    assert x in s.stack;
    CutByIndex(s, i, x);
    assert s.work[|s.work| - 1].0 == Top(s);
    assert BeforeNext(s, |s.work| - 1, x);
  }

  lemma SegmentConnected(g: Adj, s: Dfs, i: nat, x: string, y: string)
    requires Walk(g, s) && Closing(g, s, i) && x in s.stack[i..] && y in s.stack[i..]
    ensures (g.reach(x, y) && g.reach(y, x))
  {
    SegmentMutual(g, s, i, x);
    SegmentMutual(g, s, i, y);
    Trans(g, x, Top(s), y);
    Trans(g, y, Top(s), x);
  }

  lemma SegmentMaximal(g: Adj, s: Dfs, i: nat, x: string, y: string)
    requires Walk(g, s) && Emitted(s) && DepsFirst(g.graph, s.comps) && Closing(g, s, i)
    requires x in s.stack[i..] && (g.reach(x, y) && g.reach(y, x))
    ensures y in s.stack[i..]
  {
    SealedClosed(g, s, i);
    EmittedClosed(g, s);
    assert s.stack[|s.stack|..] == [];
    assert x in s.stack;
    Traps(g, Sealed(s, i), x, y);
    if y in Sealed(s, |s.stack|) {
      Traps(g, Sealed(s, |s.stack|), y, x);
    }
  }

  lemma SegmentIsComponent(g: Adj, s: Dfs, i: nat, c: seq<string>)
    requires Walk(g, s) && Emitted(s) && DepsFirst(g.graph, s.comps) && Closing(g, s, i)
    requires forall x :: x in c <==> x in s.stack[i..]
    ensures Connected(g, c)
  {
    assert s.stack[i..][0] in s.stack[i..];
    forall x, y | x in c ensures y in c <==> (g.reach(x, y) && g.reach(y, x)) {
      if y in c { SegmentConnected(g, s, i, x, y); }
      if (g.reach(x, y) && g.reach(y, x)) { SegmentMaximal(g, s, i, x, y); }
    }
  }

  lemma InCompsAppend(comps: seq<seq<string>>, c: seq<string>, n: nat, y: string)
    requires InComps(comps, n, y)
    ensures forall m :: n <= m ==> InComps(comps + [c], m, y)
  {
    var j :| 0 <= j < n && j < |comps| && y in comps[j];
    assert y in (comps + [c])[j];
  }

  lemma CloseDepsFirst(g: Adj, s: Dfs, i: nat, c: seq<string>)
    requires Walk(g, s) && Emitted(s) && DepsFirst(g.graph, s.comps) && Closing(g, s, i)
    requires forall x :: x in c <==> x in s.stack[i..]
    ensures DepsFirst(g.graph, s.comps + [c])
  {
    var d := s.comps + [c];
    var n := |s.comps|;
    forall a, x, y | 0 <= a < |d| && x in d[a] && y in g.graph.Succ(x) ensures InComps(d, a + 1, y) {
      if a < n {
        assert x in s.comps[a];
        InCompsAppend(s.comps, c, a + 1, y);
      } else {
        SegmentClosed(g, s, i, x, y);
        if y in c {
          assert y in d[n];
        } else {
          InCompsAppend(s.comps, c, n, y);
        }
      }
    }
  }

  lemma CloseListed(s: Dfs, c: seq<string>)
    requires Listed(s.comps) && NoDup(c) && SortedBy(c, StrLe)
    requires forall x :: x in c ==> !InComps(s.comps, |s.comps|, x)
    ensures Listed(s.comps + [c])
  {
    var d := s.comps + [c];
    forall a, b, x | 0 <= a < b < |d| && x in d[a] ensures x !in d[b] {
      assert x in s.comps[a];
      assert InComps(s.comps, |s.comps|, x);
    }
  }

  lemma CloseComponents(g: Adj, s: Dfs, i: nat, c: seq<string>)
    requires Walk(g, s) && Emitted(s) && Components(g, s.comps) && Closing(g, s, i)
    requires (forall x :: x in c <==> x in s.stack[i..]) && NoDup(c) && SortedBy(c, StrLe)
    ensures Components(g, s.comps + [c])
  {
    SegmentIsComponent(g, s, i, c);
    CloseDepsFirst(g, s, i, c);
    assert forall x :: x in c ==> x in s.stack;
    CloseListed(s, c);
  }

  lemma CloseEmitted(g: Adj, s: Dfs, i: nat, c: seq<string>)
    requires StackShape(s) && Emitted(s) && s.work != [] && i < |s.stack|
    requires forall x :: x in c <==> x in s.stack[i..]
    ensures Emitted(Close(s, i, c))
  {
    var t := Close(s, i, c);
    var n := |s.comps|;
    forall x ensures InComps(t.comps, n + 1, x) <==> x in c || InComps(s.comps, n, x) {
      if x in c { assert x in t.comps[n]; }
      if InComps(s.comps, n, x) {
        var j :| 0 <= j < n && x in s.comps[j];
        assert x in t.comps[j];
      }
    }
    forall x ensures x in s.stack <==> x in t.stack || x in c {
      assert s.stack == s.stack[..i] + s.stack[i..];
    }
    forall x | x in t.stack ensures x !in c {
      assert x in s.stack;
      CutByIndex(s, i, x);
    }
  }

  lemma CloseStackShape(s: Dfs, i: nat, c: seq<string>)
    requires StackShape(s) && i <= |s.stack| && s.work != []
    ensures StackShape(Close(s, i, c))
  {
    assert forall x :: x in Close(s, i, c).stack ==> x in s.stack;
  }

  /** The nodes that stay in work stay on the stack. */
  lemma CloseKeepsWork(g: Adj, s: Dfs, i: nat, c: seq<string>, p: nat)
    requires StackShape(s) && WorkShape(s) && Closing(g, s, i) && p < |s.work| - 1
    ensures Close(s, i, c).work[p] == s.work[p] && s.work[p].0 in Close(s, i, c).stack
  {
    assert Ix(s, s.work[p].0) < Ix(s, s.work[|s.work| - 1].0);
    CutByIndex(s, i, s.work[p].0);
  }

  lemma CloseShape(g: Adj, s: Dfs, i: nat, c: seq<string>)
    requires StackShape(s) && WorkShape(s) && Closing(g, s, i)
    ensures StackShape(Close(s, i, c)) && WorkShape(Close(s, i, c))
  {
    var t := Close(s, i, c);
    CloseStackShape(s, i, c);
    CloseEmpties(g, s, i);
    forall p | 0 <= p < |s.work| - 1 ensures t.work[p] == s.work[p] && s.work[p].0 in t.stack {
      CloseKeepsWork(g, s, i, c, p);
    }
  }

  /** The stack empties exactly when the root is closed. */
  lemma CloseEmpties(g: Adj, s: Dfs, i: nat)
    requires StackShape(s) && WorkShape(s) && Closing(g, s, i)
    ensures i == 0 <==> |s.work| == 1
  {
    var k := |s.work| - 1;
    assert k > 0 ==> Ix(s, s.work[0].0) < Ix(s, s.work[k].0);
    assert i > 0 ==> Ix(s, s.stack[0]) < Ix(s, s.stack[i]);
  }

  lemma CloseScanned(g: Adj, s: Dfs, i: nat, c: seq<string>, x: string, y: string)
    requires g.Ok()
    requires Closing(g, s, i) && Scanned(g, Close(s, i, c), x, y)
    ensures Scanned(g, s, x, y)
  {
    assert Close(s, i, c).work == DropWork(s).work;
    assert Scanned(g, DropWork(s), x, y);
    DropScanned(g, s, x, y);
  }

  lemma CloseLowSound(g: Adj, s: Dfs, i: nat, c: seq<string>)
    requires StackShape(s) && WorkShape(s) && LowSound(g, s) && Closing(g, s, i)
    ensures LowSound(g, Close(s, i, c))
  {
    var t := Close(s, i, c);
    var k := |s.work| - 1;
    forall p | 0 <= p < k
      ensures Lo(t, t.work[p].0) <= Ix(t, t.work[p].0) && LowWitness(g, t, t.work[p].0, Lo(t, t.work[p].0))
    {
      var z :| z in s.stack && Ix(s, z) == Lo(s, s.work[p].0) && g.reach(s.work[p].0, z);
      assert Ix(s, s.work[p].0) < Ix(s, s.work[k].0);
      CutByIndex(s, i, z);
      assert z in t.stack && Ix(t, z) == Ix(s, z);
    }
  }

  lemma CloseSegment(s: Dfs, i: nat, c: seq<string>, p: nat, x: string)
    requires StackShape(s) && s.work != [] && i < |s.stack| && s.stack[i] == Top(s)
    requires p + 1 < |s.work| && InSegment(Close(s, i, c), p, x)
    ensures InSegment(s, p, x)
  {
    assert x in s.stack;
    CutByIndex(s, i, x);
    assert p + 2 < |s.work| ==> Close(s, i, c).work[p + 1] == s.work[p + 1];
  }

  lemma CloseLowCovers(g: Adj, s: Dfs, i: nat, c: seq<string>)
    requires g.Ok() && StackShape(s) && LowCovers(g, s) && Closing(g, s, i)
    ensures LowCovers(g, Close(s, i, c))
  {
    var t := Close(s, i, c);
    forall p, x, y | 0 <= p < |t.work| && InSegment(t, p, x) && y in t.stack && Scanned(g, t, x, y)
      ensures Lo(t, t.work[p].0) <= Ix(t, y)
    {
      CloseScanned(g, s, i, c, x, y);
      CloseSegment(s, i, c, p, x);
      assert y in s.stack && t.work[p] == s.work[p];
    }
  }

  lemma CloseReach(g: Adj, s: Dfs, i: nat, c: seq<string>)
    requires g.Ok()
    requires StackShape(s) && WorkShape(s) && ScannedVisited(g, s) && WorkReaches(g, s) && ReachesWork(g, s)
    requires Closing(g, s, i)
    ensures var t := Close(s, i, c); ScannedVisited(g, t) && WorkReaches(g, t) && ReachesWork(g, t)
  {
    var t := Close(s, i, c);
    var k := |s.work| - 1;
    assert forall p :: 0 <= p < k ==> t.work[p] == s.work[p];
    assert forall x :: x in t.stack ==> x in s.stack;
    forall x, y | x in t.stack && Scanned(g, t, x, y) ensures y in t.index {
      CloseScanned(g, s, i, c, x, y);
    }
    forall p, y | 0 <= p < |t.work| && y in t.stack && BeforeNext(t, p, y) ensures g.reach(y, t.work[p].0) {
      CutByIndex(s, i, y);
      assert p + 1 < k ==> t.work[p + 1] == s.work[p + 1];
      assert BeforeNext(s, p, y);
    }
  }

  /** Closing emits exactly one strongly connected component and keeps the invariant. */
  lemma CloseKeepsAll(g: Adj, s: Dfs, i: nat, c: seq<string>)
    requires Walk(g, s) && Emitted(s) && Components(g, s.comps) && Closing(g, s, i)
    requires (forall x :: x in c <==> x in s.stack[i..]) && NoDup(c) && SortedBy(c, StrLe)
    ensures Walk(g, Close(s, i, c)) && Emitted(Close(s, i, c)) && Components(g, Close(s, i, c).comps)
  {
    CloseShape(g, s, i, c);
    CloseLowSound(g, s, i, c);
    CloseLowCovers(g, s, i, c);
    CloseReach(g, s, i, c);
    CloseEmitted(g, s, i, c);
    CloseComponents(g, s, i, c);
  }

  // ---------- the loop ----------

  /** The top work entry has been pushed but not visited yet. */
  predicate Pending(s: Dfs) {
    s.work != [] && s.work[|s.work| - 1].1 == 0
  }

  ghost predicate PendingOk(g: Adj, s: Dfs) {
    Pending(s) ==>
      var k := |s.work| - 1;
      && s.work[k].0 !in s.index && s.work[k].0 in g.graph.Universe()
      && (k > 0 ==> 0 < s.work[k - 1].1 <= |g.Children(s.work[k - 1].0)|
                    && s.work[k].0 == g.Children(s.work[k - 1].0)[s.work[k - 1].1 - 1])
  }

  /** The state without a pending entry: its parent has not taken that child yet. */
  ghost function Settle(g: Adj, s: Dfs): Dfs
    requires PendingOk(g, s)
  {
    if !Pending(s) then s
    else
      var k := |s.work| - 1;
      if k == 0 then s.(work := [])
      else s.(work := s.work[..k][k - 1 := (s.work[k - 1].0, s.work[k - 1].1 - 1)])
  }

  ghost predicate Bounded(g: Adj, s: Dfs, counter: int) {
    && 0 <= counter
    && (forall x :: x in s.index ==> s.index[x] < counter)
    && s.index.Keys <= g.graph.Universe()
  }

  ghost predicate Between(g: Adj, s: Dfs) {
    Walk(g, s) && Emitted(s) && Components(g, s.comps)
  }

  ghost predicate LoopInv(g: Adj, s: Dfs, counter: int) {
    Bounded(g, s, counter) && PendingOk(g, s) && Between(g, Settle(g, s))
  }

  /** `index_of[node] = low[node] = counter` and the push on `stack`. */
  function Enter(s: Dfs, n: string, counter: int): Dfs {
    s.(index := s.index[n := counter], low := s.low[n := counter], stack := s.stack + [n])
  }

  lemma VisitEmitted(s: Dfs, n: string, counter: int)
    requires Emitted(s) && n !in s.index
    ensures Emitted(Visit(s, n, counter))
  {
  }

  /** Visiting the child just taken by the top entry, and only then counting it. */
  lemma VisitAndAdvance(g: Adj, s: Dfs, n: string, counter: int)
    requires Walk(g, s) && Fresh(s, n, counter) && s.work != []
    requires s.work[|s.work| - 1].1 < |g.Children(Top(s))| && n == g.Children(Top(s))[s.work[|s.work| - 1].1]
    ensures Walk(g, Advance(Visit(s, n, counter), |s.work| - 1))
  {
    var k := |s.work| - 1;
    ListsSucc(g, Top(s));
    assert n in g.Children(Top(s));
    VisitKeepsWalk(g, s, n, counter);
    var t := Visit(s, n, counter);
    assert t.work[k] == s.work[k];
    ParentBelow(g, t, k, k + 1);
    AdvanceKeepsWalk(g, t, k);
  }

  lemma ParentBelow(g: Adj, s: Dfs, p: nat, q: nat)
    requires WorkShape(s) && LowSound(g, s) && p < q < |s.work|
    ensures Lo(s, s.work[p].0) < Ix(s, s.work[q].0)
  {
    assert Ix(s, s.work[p].0) < Ix(s, s.work[q].0);
  }

  lemma SettleUndone(g: Adj, s: Dfs, counter: int)
    requires PendingOk(g, s) && Pending(s) && |s.work| > 1
    ensures var k := |s.work| - 1;
            var t := Settle(g, s);
            && |t.work| == k && t.work[k - 1] == (s.work[k - 1].0, s.work[k - 1].1 - 1)
            && Advance(Visit(t, Top(s), counter), k - 1) == Enter(s, Top(s), counter)
  {
    var t := Settle(g, s);
    assert Advance(Visit(t, Top(s), counter), |s.work| - 2).work == s.work;
  }

  lemma EnterChild(g: Adj, s: Dfs, counter: int)
    requires LoopInv(g, s, counter) && Pending(s) && |s.work| > 1
    ensures Walk(g, Enter(s, Top(s), counter))
  {
    SettleUndone(g, s, counter);
    VisitAndAdvance(g, Settle(g, s), Top(s), counter);
  }

  lemma EnterRoot(g: Adj, s: Dfs, counter: int)
    requires LoopInv(g, s, counter) && Pending(s) && |s.work| == 1
    ensures Walk(g, Enter(s, Top(s), counter))
  {
    var s0 := Settle(g, s);
    VisitKeepsWalk(g, s0, Top(s), counter);
    assert Visit(s0, Top(s), counter).work == s.work;
  }

  lemma EnterKeeps(g: Adj, s: Dfs, counter: int)
    requires LoopInv(g, s, counter) && Pending(s)
    ensures Between(g, Enter(s, Top(s), counter)) && Bounded(g, Enter(s, Top(s), counter), counter + 1)
  {
    if |s.work| == 1 { EnterRoot(g, s, counter); } else { EnterChild(g, s, counter); }
    VisitEmitted(Settle(g, s), Top(s), counter);
    var t := Enter(s, Top(s), counter);
    assert Emitted(t) by {
      var v := Visit(Settle(g, s), Top(s), counter);
      assert t.index == v.index && t.stack == v.stack && t.comps == v.comps;
    }
  }

  /** Taking the next child of the top entry, without pushing it. */
  function TakeChild(s: Dfs): Dfs
    requires s.work != []
  {
    Advance(s, |s.work| - 1)
  }

  lemma PushSettles(g: Adj, s: Dfs, child: string)
    requires g.Ok() && s.work != [] && child !in s.index
    requires s.work[|s.work| - 1].1 < |g.Children(Top(s))| && child == g.Children(Top(s))[s.work[|s.work| - 1].1]
    ensures var u := TakeChild(s).(work := TakeChild(s).work + [(child, 0)]);
            PendingOk(g, u) && Settle(g, u) == s
  {
    var u := TakeChild(s).(work := TakeChild(s).work + [(child, 0)]);
    var k := |s.work| - 1;
    ListsSucc(g, Top(s));
    assert child in g.Children(Top(s));
    assert child in g.graph.Universe();
    assert u.work[k] == (s.work[k].0, s.work[k].1 + 1) && u.work[k + 1] == (child, 0);
    assert Settle(g, u).work == s.work;
  }

  lemma PushKeeps(g: Adj, s: Dfs, counter: int, child: string)
    requires Between(g, s) && Bounded(g, s, counter) && s.work != []
    requires s.work[|s.work| - 1].1 < |g.Children(Top(s))| && child == g.Children(Top(s))[s.work[|s.work| - 1].1]
    requires child !in s.index
    ensures LoopInv(g, TakeChild(s).(work := TakeChild(s).work + [(child, 0)]), counter)
  {
    PushSettles(g, s, child);
  }

  lemma LowWitnessOf(g: Adj, s: Dfs) returns (z: string)
    requires g.Ok()
    requires LowSound(g, s) && s.work != []
    ensures z in s.stack && Ix(s, z) == Lo(s, Top(s)) && g.reach(Top(s), z)
  {
    assert LowWitness(g, s, s.work[|s.work| - 1].0, Lo(s, s.work[|s.work| - 1].0));
    z :| z in s.stack && Ix(s, z) == Lo(s, Top(s)) && g.reach(Top(s), z);
  }

  lemma LowerToChild(g: Adj, s: Dfs, child: string)
    requires Walk(g, s) && s.work != [] && child in g.Children(Top(s)) && child in s.stack
    ensures var l := if Ix(s, child) < Lo(s, Top(s)) then Ix(s, child) else Lo(s, Top(s));
            Walk(g, SetLow(s, Top(s), l))
  {
    ListsSucc(g, Top(s));
    Edge(g, Top(s), child);
    WorkVisited(s);
    if Ix(s, child) < Lo(s, Top(s)) {
      SetLowKeepsWalk(g, s, Top(s), child);
    } else {
      var z := LowWitnessOf(g, s);
      SetLowKeepsWalk(g, s, Top(s), z);
    }
  }

  lemma BackEdgeKeeps(g: Adj, s: Dfs, child: string)
    requires Between(g, s) && s.work != []
    requires s.work[|s.work| - 1].1 < |g.Children(Top(s))| && child == g.Children(Top(s))[s.work[|s.work| - 1].1]
    requires child in s.stack
    ensures var l := if Ix(s, child) < Lo(s, Top(s)) then Ix(s, child) else Lo(s, Top(s));
            Between(g, TakeChild(SetLow(s, Top(s), l)))
  {
    LowerToChild(g, s, child);
    WorkVisited(s);
    var l := if Ix(s, child) < Lo(s, Top(s)) then Ix(s, child) else Lo(s, Top(s));
    AdvanceKeepsWalk(g, SetLow(s, Top(s), l), |s.work| - 1);
  }

  lemma CrossEdgeKeeps(g: Adj, s: Dfs, child: string)
    requires Between(g, s) && s.work != []
    requires s.work[|s.work| - 1].1 < |g.Children(Top(s))| && child == g.Children(Top(s))[s.work[|s.work| - 1].1]
    requires child in s.index && child !in s.stack
    ensures Between(g, TakeChild(s))
  {
    AdvanceKeepsWalk(g, s, |s.work| - 1);
  }

  /** The parent's low-link cannot change when its child has closed a component. */
  lemma ClosedChildHarmless(g: Adj, s: Dfs)
    requires WorkShape(s) && LowSound(g, s) && |s.work| > 1 && Lo(s, Top(s)) == Ix(s, Top(s))
    ensures Lo(s, s.work[|s.work| - 2].0) < Lo(s, Top(s))
  {
    var k := |s.work| - 1;
    assert Ix(s, s.work[k - 1].0) < Ix(s, s.work[k].0);
  }

  // ---------- termination ----------

  ghost function Entered(s: Dfs): set<string> {
    s.index.Keys + if Pending(s) then {Top(s)} else {}
  }

  ghost function Unentered(g: Adj, s: Dfs): nat {
    |g.graph.Universe() - Entered(s)|
  }

  ghost function Slots(g: Adj, work: seq<(string, nat)>): nat {
    if work == [] then 0 else
      var e := work[|work| - 1];
      Slots(g, work[..|work| - 1]) + if e.1 <= |g.Children(e.0)| then |g.Children(e.0)| - e.1 else 0
  }

  lemma TakeChildUsesSlot(g: Adj, s: Dfs)
    requires s.work != [] && s.work[|s.work| - 1].1 < |g.Children(Top(s))|
    ensures Slots(g, TakeChild(s).work) < Slots(g, s.work)
  {
    assert TakeChild(s).work[..|s.work| - 1] == s.work[..|s.work| - 1];
  }

  lemma PushEnters(g: Adj, before: set<string>, after: set<string>, child: string)
    requires after == before + {child} && child !in before && child in g.graph.Universe()
    ensures |g.graph.Universe() - after| < |g.graph.Universe() - before|
  {
    assert g.graph.Universe() - after == (g.graph.Universe() - before) - {child};
  }

  // ---------- the methods ----------

  lemma StackNoDup(s: Dfs)
    requires StackShape(s)
    ensures NoDup(s.stack)
  {
  }

  /** The top element moves from the stack to the component. */
  lemma PopOne(stack: seq<string>, n: nat, component: seq<string>)
    requires NoDup(stack) && 0 < n <= |stack| && multiset(component) == multiset(stack[n..])
    ensures stack[..n][..n - 1] == stack[..n - 1]
    ensures forall x :: x in stack[..n - 1] <==> x in stack[..n] && x != stack[n - 1]
    ensures multiset(component + [stack[n - 1]]) == multiset(stack[n - 1..])
  {
    assert stack[n - 1..] == [stack[n - 1]] + stack[n..];
    assert stack[..n] == stack[..n - 1] + [stack[n - 1]];
  }

  /** The `while True` loop that pops one component off the stack. */
  method PopComponent(stack: seq<string>, onStack: set<string>, node: string, ghost i: nat)
      returns (rest: seq<string>, restOn: set<string>, component: seq<string>)
    requires NoDup(stack) && i < |stack| && stack[i] == node
    requires forall x :: x in onStack <==> x in stack
    ensures rest == stack[..i]
    ensures forall x :: x in restOn <==> x in rest
    ensures multiset(component) == multiset(stack[i..])
  {
    rest, restOn, component := stack, onStack, [];
    var popped := false;
    assert stack[|stack|..] == [];
    while !popped
      invariant i <= |rest| <= |stack| && rest == stack[..|rest|]
      invariant popped <==> |rest| == i
      invariant forall x :: x in restOn <==> x in rest
      invariant multiset(component) == multiset(stack[|rest|..])
      decreases |rest|
    {
      var member := rest[|rest| - 1];
      PopOne(stack, |rest|, component);
      rest := rest[..|rest| - 1];
      restOn := restOn - {member};
      component := component + [member];
      popped := member == node;
    }
  }

  lemma ComponentOk(stack: seq<string>, i: nat, component: seq<string>)
    requires NoDup(stack) && i <= |stack| && multiset(component) == multiset(stack[i..])
    ensures var c := Sort(component, StrLe);
            (forall x :: x in c <==> x in stack[i..]) && NoDup(c) && SortedBy(c, StrLe)
  {
    NoDupFromMultiset(stack[i..], component);
    SortKeepsNoDup(component, StrLe);
    SortMembers(component, StrLe);
    StrLePreorder();
    SortSorts(component, StrLe);
    forall x ensures x in component <==> x in stack[i..] {
      assert x in component <==> x in multiset(component);
      assert x in stack[i..] <==> x in multiset(stack[i..]);
    }
  }

  lemma LeaveFacts(g: Adj, s: Dfs)
    requires StackShape(s) && WorkShape(s) && LowSound(g, s) && s.work != []
    ensures Top(s) in s.stack && Top(s) in s.index && Top(s) in s.low && s.low[Top(s)] <= s.index[Top(s)]
    ensures |s.work| > 1 ==> s.work[|s.work| - 2].0 in s.low
    ensures NoDup(s.stack)
  {
    assert s.work[|s.work| - 1].0 in s.stack;
  }

  lemma LeaveFolding(g: Adj, s: Dfs)
    requires Between(g, s) && Exhausted(g, s) && Lo(s, Top(s)) < Ix(s, Top(s))
    ensures |s.work| > 1 && Between(g, Fold(s))
  {
    LowPointsBelow(g, s);
    FoldKeepsWalk(g, s);
  }

  lemma LeaveClosing(g: Adj, s: Dfs, i: nat, component: seq<string>)
    requires Between(g, s) && Closing(g, s, i) && multiset(component) == multiset(s.stack[i..])
    ensures Between(g, Close(s, i, Sort(component, StrLe)))
    ensures |s.work| > 1 ==> Lo(s, s.work[|s.work| - 2].0) < Lo(s, Top(s))
  {
    StackNoDup(s);
    ComponentOk(s.stack, i, component);
    CloseKeepsAll(g, s, i, Sort(component, StrLe));
    if |s.work| > 1 { ClosedChildHarmless(g, s); }
  }

  /** `low[parent] = min(low[parent], low[node])`, if there is a parent. */
  function FoldIntoParent(low: map<string, int>, work: seq<(string, nat)>, node: string): map<string, int>
    requires node in low && (work != [] ==> work[|work| - 1].0 in low)
  {
    if work == [] then low
    else
      var parent := work[|work| - 1].0;
      low[parent := if low[parent] <= low[node] then low[parent] else low[node]]
  }

  lemma CloseState(s: Dfs, i: nat, c: seq<string>)
    requires s.work != [] && i <= |s.stack| && Top(s) in s.low
    requires |s.work| > 1 ==> s.work[|s.work| - 2].0 in s.low && Lo(s, s.work[|s.work| - 2].0) < Lo(s, Top(s))
    ensures var w := s.work[..|s.work| - 1];
            (w != [] ==> w[|w| - 1].0 in s.low) &&
            Close(s, i, c) == Dfs(s.index, FoldIntoParent(s.low, w, Top(s)), s.stack[..i], w, s.comps + [c])
  {
  }

  lemma FoldState(s: Dfs)
    requires |s.work| > 1 && Top(s) in s.low && s.work[|s.work| - 2].0 in s.low
    ensures var w := s.work[..|s.work| - 1];
            Fold(s) == Dfs(s.index, FoldIntoParent(s.low, w, Top(s)), s.stack, w, s.comps)
  {
  }

  /** One node is finished: close its component if it is a root, then pop `work`
      and fold the low-link into the parent, whether or not a component was closed. */
  method Leave(ghost g: Adj, index: map<string, int>, low: map<string, int>, stack: seq<string>, onStack: set<string>,
               work: seq<(string, nat)>, result: seq<seq<string>>)
      returns (low': map<string, int>, stack': seq<string>, onStack': set<string>,
               work': seq<(string, nat)>, result': seq<seq<string>>)
    requires Between(g, Dfs(index, low, stack, work, result))
    requires Exhausted(g, Dfs(index, low, stack, work, result))
    requires forall x :: x in onStack <==> x in stack
    ensures Between(g, Dfs(index, low', stack', work', result'))
    ensures work' == work[..|work| - 1]
    ensures forall x :: x in onStack' <==> x in stack'
  {
    ghost var s := Dfs(index, low, stack, work, result);
    LeaveFacts(g, s);
    var node := work[|work| - 1].0;
    stack', onStack', result' := stack, onStack, result;
    if low[node] == index[node] {
      ghost var i :| 0 <= i < |stack| && stack[i] == node;
      var component;
      stack', onStack', component := PopComponent(stack, onStack, node, i);
      result' := result + [Sort(component, StrLe)];
      LeaveClosing(g, s, i, component);
      CloseState(s, i, Sort(component, StrLe));
    } else {
      LeaveFolding(g, s);
      FoldState(s);
    }
    work' := work[..|work| - 1];
    low' := FoldIntoParent(low, work', node);
  }

  ghost predicate Smaller(g: Adj, t: Dfs, s: Dfs) {
    || Unentered(g, t) < Unentered(g, s)
    || (Unentered(g, t) == Unentered(g, s) && Slots(g, t.work) < Slots(g, s.work))
    || (Unentered(g, t) == Unentered(g, s) && Slots(g, t.work) == Slots(g, s.work) && |t.work| < |s.work|)
  }

  /** A state between two iterations: either nothing is pending, or its node is. */
  lemma NothingPending(g: Adj, s: Dfs, counter: int)
    requires Between(g, s) && Bounded(g, s, counter) && !Pending(s)
    ensures LoopInv(g, s, counter)
  {
  }

  lemma WorkVisited(s: Dfs)
    requires StackShape(s) && WorkShape(s) && s.work != []
    ensures Top(s) in s.index && Top(s) in s.low
  {
    assert s.work[|s.work| - 1].0 in s.stack;
  }

  lemma TakeChildMeasure(g: Adj, s: Dfs, t: Dfs)
    requires s.work != [] && s.work[|s.work| - 1].1 < |g.Children(Top(s))| && Top(s) in s.index
    requires t.index == s.index && t.work == TakeChild(s).work
    ensures !Pending(t) && Smaller(g, t, s)
  {
    TakeChildUsesSlot(g, s);
    assert t.work[|t.work| - 1].1 == s.work[|s.work| - 1].1 + 1;
    assert Entered(t) == s.index.Keys == Entered(s);
  }

  lemma PushMeasure(g: Adj, s: Dfs, t: Dfs, child: string)
    requires s.work != [] && Top(s) in s.index && child !in s.index && child in g.graph.Universe()
    requires t.index == s.index && t.work == TakeChild(s).work + [(child, 0)]
    ensures Smaller(g, t, s)
  {
    assert Entered(s) == s.index.Keys;
    assert Entered(t) == Entered(s) + {child};
    PushEnters(g, Entered(s), Entered(t), child);
  }

  lemma LeaveMeasure(g: Adj, s: Dfs, t: Dfs)
    requires Exhausted(g, s) && Top(s) in s.index && Descended(s.work)
    requires t.index == s.index && t.work == s.work[..|s.work| - 1]
    ensures Smaller(g, t, s) && !Pending(t) && Descended(t.work)
  {
    assert |s.work| > 1 ==> t.work[|s.work| - 2].1 == s.work[|s.work| - 2].1;
    assert Entered(t) == s.index.Keys == Entered(s);
  }

  /** `if child_index < len(children)`: take the next child of the top node. */
  ghost function StepTake(g: Adj, s: Dfs): Dfs
    requires s.work != [] && s.work[|s.work| - 1].1 < |g.Children(Top(s))|
  {
    var child := g.Children(Top(s))[s.work[|s.work| - 1].1];
    if child !in s.index then TakeChild(s).(work := TakeChild(s).work + [(child, 0)])
    else if child in s.stack then
      TakeChild(SetLow(s, Top(s), if Ix(s, child) < Lo(s, Top(s)) then Ix(s, child) else Lo(s, Top(s))))
    else TakeChild(s)
  }

  lemma StepTakeKeeps(g: Adj, s: Dfs, counter: int)
    requires Between(g, s) && Bounded(g, s, counter)
    requires s.work != [] && s.work[|s.work| - 1].1 < |g.Children(Top(s))|
    ensures LoopInv(g, StepTake(g, s), counter)
  {
    var child := g.Children(Top(s))[s.work[|s.work| - 1].1];
    if child !in s.index {
      PushKeeps(g, s, counter, child);
    } else {
      if child in s.stack { BackEdgeKeeps(g, s, child); } else { CrossEdgeKeeps(g, s, child); }
      StepTakeSettled(g, s);
      NothingPending(g, StepTake(g, s), counter);
    }
  }

  lemma StepTakeSettled(g: Adj, s: Dfs)
    requires s.work != [] && s.work[|s.work| - 1].1 < |g.Children(Top(s))|
    ensures StepTake(g, s).index == s.index
    ensures g.Children(Top(s))[s.work[|s.work| - 1].1] in s.index ==> !Pending(StepTake(g, s))
    ensures Descended(s.work) ==> Descended(StepTake(g, s).work)
  {
    assert StepTake(g, s).work[|s.work| - 1].1 == s.work[|s.work| - 1].1 + 1;
  }

  lemma StepTakeSmaller(g: Adj, s: Dfs)
    requires g.Ok()
    requires s.work != [] && s.work[|s.work| - 1].1 < |g.Children(Top(s))| && Top(s) in s.index
    ensures Smaller(g, StepTake(g, s), s)
  {
    var child := g.Children(Top(s))[s.work[|s.work| - 1].1];
    ListsSucc(g, Top(s));
    assert child in g.Children(Top(s));
    if child !in s.index {
      PushMeasure(g, s, StepTake(g, s), child);
    } else {
      TakeChildMeasure(g, s, StepTake(g, s));
    }
  }

  method TakeNext(ghost g: Adj, index: map<string, int>, low: map<string, int>, ghost stack: seq<string>,
                  onStack: set<string>, work: seq<(string, nat)>, ghost result: seq<seq<string>>, children: seq<string>)
      returns (low': map<string, int>, work': seq<(string, nat)>)
    requires work != [] && children == g.Children(work[|work| - 1].0) && work[|work| - 1].1 < |children|
    requires work[|work| - 1].0 in low
    requires forall x :: x in onStack <==> x in stack
    ensures Dfs(index, low', stack, work', result) == StepTake(g, Dfs(index, low, stack, work, result))
  {
    var (node, childIndex) := work[|work| - 1];
    work' := work[|work| - 1 := (node, childIndex + 1)];
    low' := low;
    var child := children[childIndex];
    if child !in index {
      work' := work' + [(child, 0)];
    } else if child in onStack {
      low' := low[node := if index[child] < low[node] then index[child] else low[node]];
    }
  }

  /** Every work entry below the top has taken at least one child. */
  ghost predicate Descended(work: seq<(string, nat)>) {
    forall p :: 0 <= p < |work| - 1 ==> work[p].1 > 0
  }

  lemma StartRoot(g: Adj, s: Dfs, root: string, counter: int)
    requires Between(g, s) && Bounded(g, s, counter) && s.work == [] && root !in s.index && root in g.graph.Universe()
    ensures LoopInv(g, s.(work := [(root, 0)]), counter)
  {
    assert Settle(g, s.(work := [(root, 0)])) == s;
  }

  lemma NothingYet(g: Adj)
    requires g.Ok()
    ensures Between(g, Dfs(map[], map[], [], [], []))
  {
  }

  /** The components list every node of the graph exactly once. */
  lemma AllListed(g: Adj, s: Dfs, counter: int)
    requires g.graph.Valid() && Between(g, s) && Bounded(g, s, counter) && s.work == []
    requires AllVisited(g.graph.nodes, |g.graph.nodes|, s.index.Keys)
    ensures forall x :: x in g.graph.Universe() <==> InComps(s.comps, |s.comps|, x)
  {
    forall x | x in g.graph.Universe() ensures InComps(s.comps, |s.comps|, x) {
      if x in g.graph.deps {
        assert x in g.graph.nodes && x in s.index;
      } else {
        var n, m :| n in g.graph.deps && m in g.graph.deps[n] && m == x;
        assert n in g.graph.nodes && n in s.index && InComps(s.comps, |s.comps|, n);
        var j :| 0 <= j < |s.comps| && n in s.comps[j];
        assert x in g.Succ(n) && InComps(s.comps, j + 1, x);
      }
    }
  }

  /** `if child_index == 0`: the first visit of the top node. */
  function Entering(s: Dfs, counter: int): Dfs
    requires s.work != []
  {
    if Pending(s) then Enter(s, Top(s), counter) else s
  }

  ghost predicate Started(g: Adj, s: Dfs) {
    s.work != [] && Top(s) in s.index && Top(s) in s.low
  }

  lemma EnteringKeeps(g: Adj, s: Dfs, counter: int)
    requires LoopInv(g, s, counter) && s.work != []
    ensures Between(g, Entering(s, counter))
    ensures Bounded(g, Entering(s, counter), if Pending(s) then counter + 1 else counter)
  {
    if Pending(s) { EnterKeeps(g, s, counter); }
  }

  lemma EnteringStarts(g: Adj, s: Dfs, counter: int)
    requires LoopInv(g, s, counter) && s.work != []
    ensures Started(g, Entering(s, counter))
    ensures Entering(s, counter).index.Keys == s.index.Keys + {Top(s)}
  {
    EnteringKeeps(g, s, counter);
    EnteringWork(s, counter);
    StartedFrom(g, Entering(s, counter));
    EnteringKeys(s, counter);
  }

  lemma EnteringWork(s: Dfs, counter: int)
    requires s.work != []
    ensures Entering(s, counter).work == s.work
  {
  }

  lemma EnteringKeys(s: Dfs, counter: int)
    requires s.work != [] && Top(s) in Entering(s, counter).index
    ensures Entering(s, counter).index.Keys == s.index.Keys + {Top(s)}
  {
  }

  lemma StartedFrom(g: Adj, s: Dfs)
    requires StackShape(s) && WorkShape(s) && s.work != []
    ensures Started(g, s)
  {
    WorkVisited(s);
  }

  lemma EnteringMeasure(s: Dfs, counter: int)
    requires s.work != [] && (Pending(s) || Top(s) in s.index)
    ensures Entered(Entering(s, counter)) == Entered(s)
  {
  }

  lemma SmallerFrom(g: Adj, s: Dfs, counter: int, u: Dfs)
    requires s.work != [] && Smaller(g, u, Entering(s, counter)) && Top(s) in Entering(s, counter).index
    ensures Smaller(g, u, s)
  {
    EnteringMeasure(s, counter);
  }

  method EnterNode(index: map<string, int>, low: map<string, int>, stack: seq<string>, onStack: set<string>,
                   work: seq<(string, nat)>, ghost result: seq<seq<string>>, counter: int)
      returns (index': map<string, int>, low': map<string, int>, stack': seq<string>, onStack': set<string>,
               counter': int)
    requires work != [] && forall x :: x in onStack <==> x in stack
    ensures Dfs(index', low', stack', work, result) == Entering(Dfs(index, low, stack, work, result), counter)
    ensures counter' == if Pending(Dfs(index, low, stack, work, result)) then counter + 1 else counter
    ensures forall x :: x in onStack' <==> x in stack'
  {
    index', low', stack', onStack', counter' := index, low, stack, onStack, counter;
    var (node, childIndex) := work[|work| - 1];
    if childIndex == 0 {
      index', low' := index[node := counter], low[node := counter];
      counter' := counter + 1;
      stack' := stack + [node];
      onStack' := onStack + {node};
    }
  }

  lemma IterateSmaller(g: Adj, s: Dfs, counter: int, u: Dfs)
    requires LoopInv(g, s, counter) && s.work != [] && Smaller(g, u, Entering(s, counter))
    requires u.index == Entering(s, counter).index
    ensures Smaller(g, u, s) && u.index.Keys == s.index.Keys + {Top(s)}
  {
    EnteringStarts(g, s, counter);
    SmallerFrom(g, s, counter, u);
  }

  lemma IterateTake(g: Adj, s: Dfs, counter: int)
    requires LoopInv(g, s, counter) && s.work != []
    requires s.work[|s.work| - 1].1 < |g.Children(Top(s))|
    ensures Entering(s, counter).work == s.work && Started(g, Entering(s, counter))
    ensures Entering(s, counter).index.Keys == s.index.Keys + {Top(s)}
    ensures LoopInv(g, StepTake(g, Entering(s, counter)), if Pending(s) then counter + 1 else counter)
  {
    EnteringKeeps(g, s, counter);
    EnteringStarts(g, s, counter);
    EnteringWork(s, counter);
    StepTakeKeeps(g, Entering(s, counter), if Pending(s) then counter + 1 else counter);
  }

  lemma IterateTakeSmaller(g: Adj, s: Dfs, counter: int)
    requires g.Ok() && s.work != [] && Descended(s.work)
    requires s.work[|s.work| - 1].1 < |g.Children(Top(s))|
    requires Entering(s, counter).work == s.work && Started(g, Entering(s, counter))
    ensures var u := StepTake(g, Entering(s, counter));
            Descended(u.work) && Smaller(g, u, s) && u.index == Entering(s, counter).index
  {
    var t := Entering(s, counter);
    StepTakeSettled(g, t);
    StepTakeSmaller(g, t);
    SmallerFrom(g, s, counter, StepTake(g, t));
  }

  lemma IterateLeave(g: Adj, s: Dfs, counter: int, u: Dfs)
    requires LoopInv(g, s, counter) && s.work != [] && Descended(s.work)
    requires s.work[|s.work| - 1].1 >= |g.Children(Top(s))|
    requires Between(g, u) && u.index == Entering(s, counter).index && u.work == s.work[..|s.work| - 1]
    ensures LoopInv(g, u, if Pending(s) then counter + 1 else counter)
    ensures Descended(u.work) && Smaller(g, u, s) && u.index.Keys == s.index.Keys + {Top(s)}
  {
    EnteringKeeps(g, s, counter);
    EnteringStarts(g, s, counter);
    EnteringWork(s, counter);
    LeaveMeasure(g, Entering(s, counter), u);
    NothingPending(g, u, if Pending(s) then counter + 1 else counter);
    IterateSmaller(g, s, counter, u);
  }

  /** One pass of the inner loop `while work`. */
  method Iterate(edges: Graph, ghost g: Adj, index: map<string, int>, low: map<string, int>, stack: seq<string>,
                 onStack: set<string>, work: seq<(string, nat)>, result: seq<seq<string>>, counter: int)
      returns (index': map<string, int>, low': map<string, int>, stack': seq<string>, onStack': set<string>,
               work': seq<(string, nat)>, result': seq<seq<string>>, counter': int)
    requires g.Ok() && g.graph == edges
    requires work != [] && Descended(work) && LoopInv(g, Dfs(index, low, stack, work, result), counter)
    requires forall x :: x in onStack <==> x in stack
    ensures Descended(work') && LoopInv(g, Dfs(index', low', stack', work', result'), counter')
    ensures forall x :: x in onStack' <==> x in stack'
    ensures Smaller(g, Dfs(index', low', stack', work', result'), Dfs(index, low, stack, work, result))
    ensures index'.Keys == index.Keys + {work[|work| - 1].0}
  {
    ghost var s := Dfs(index, low, stack, work, result);
    index', low', stack', onStack', counter' := EnterNode(index, low, stack, onStack, work, result, counter);
    var children := edges.Children(work[|work| - 1].0);
    assert children == g.Children(work[|work| - 1].0) by {
      assert Use(work[|work| - 1].0, work[|work| - 1].0);
    }
    if work[|work| - 1].1 < |children| {
      IterateTake(g, s, counter);
      IterateTakeSmaller(g, s, counter);
      low', work' := TakeNext(g, index', low', stack', onStack', work, result, children);
      result' := result;
    } else {
      EnteringKeeps(g, s, counter);
      EnteringStarts(g, s, counter);
      low', stack', onStack', work', result' := Leave(g, index', low', stack', onStack', work, result);
      IterateLeave(g, s, counter, Dfs(index', low', stack', work', result'));
    }
  }

  ghost predicate AllVisited(nodes: seq<string>, r: nat, visited: set<string>) {
    forall i :: 0 <= i < r && i < |nodes| ==> nodes[i] in visited
  }

  lemma AllVisitedGrows(nodes: seq<string>, r: nat, visited: set<string>, visited': set<string>)
    requires AllVisited(nodes, r, visited) && visited <= visited'
    ensures AllVisited(nodes, r, visited')
    ensures r < |nodes| && nodes[r] in visited' ==> AllVisited(nodes, r + 1, visited')
  {
  }

  /** The inner loop: everything reachable from a new root. */
  method Explore(edges: Graph, ghost g: Adj, root: string,
                 index0: map<string, int>, low0: map<string, int>, stack0: seq<string>, onStack0: set<string>,
                 result0: seq<seq<string>>, counter0: int)
      returns (index: map<string, int>, low: map<string, int>, stack: seq<string>, onStack: set<string>,
               result: seq<seq<string>>, counter: int)
    requires g.Ok() && g.graph == edges
    requires LoopInv(g, Dfs(index0, low0, stack0, [(root, 0)], result0), counter0)
    requires forall x :: x in onStack0 <==> x in stack0
    ensures LoopInv(g, Dfs(index, low, stack, [], result), counter)
    ensures forall x :: x in onStack <==> x in stack
    ensures index0.Keys + {root} <= index.Keys
  {
    index, low, stack, onStack, result, counter := index0, low0, stack0, onStack0, result0, counter0;
    var work := [(root, 0)];
    while work != []
      invariant LoopInv(g, Dfs(index, low, stack, work, result), counter) && Descended(work)
      invariant forall x :: x in onStack <==> x in stack
      invariant index0.Keys <= index.Keys
      invariant root in index.Keys || (work != [] && work[|work| - 1].0 == root)
      decreases Unentered(g, Dfs(index, low, stack, work, result)), Slots(g, work), |work|
    {
      index, low, stack, onStack, work, result, counter :=
        Iterate(edges, g, index, low, stack, onStack, work, result, counter);
    }
  }

  lemma NothingLeft(g: Adj, s: Dfs, counter: int)
    requires LoopInv(g, s, counter) && s.work == []
    ensures Between(g, s) && Bounded(g, s, counter)
  {
  }

  /** `strongly_connected_components`: exactly the strongly connected components,
      each sorted, dependencies first. */
  method StronglyConnectedComponents(edges: Graph) returns (result: seq<seq<string>>)
    requires edges.Valid()
    ensures SccList(edges, result)
    ensures forall x :: x in edges.Universe() <==> InComps(result, |result|, x)
  {
    var index: map<string, int>, low: map<string, int> := map[], map[];
    var onStack: set<string>, stack: seq<string> := {}, [];
    var counter := 0;
    result := [];
    ghost var g := AdjOf(edges);
    AdjOfOk(edges);
    NothingYet(g);
    for r := 0 to |edges.nodes|
      invariant Between(g, Dfs(index, low, stack, [], result)) &&
                Bounded(g, Dfs(index, low, stack, [], result), counter)
      invariant forall x :: x in onStack <==> x in stack
      invariant AllVisited(edges.nodes, r, index.Keys)
    {
      var root := edges.nodes[r];
      ghost var visited := index.Keys;
      if root !in index {
        StartRoot(g, Dfs(index, low, stack, [], result), root, counter);
        index, low, stack, onStack, result, counter :=
          Explore(edges, g, root, index, low, stack, onStack, result, counter);
        NothingLeft(g, Dfs(index, low, stack, [], result), counter);
      }
      AllVisitedGrows(edges.nodes, r, visited, index.Keys);
    }
    AllListed(g, Dfs(index, low, stack, [], result), counter);
    ComponentsAreSccs(g, result);
  }
}
