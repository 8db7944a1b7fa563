/** The plan is determined by the dependencies: neither the order in which the tasks were
    inserted nor anything else about the search can change it. */
module PlanUnique {
  import opened Sorting
  import opened Graphs
  import opened PlanOrder
  import opened Plan

  /** `a` comes before `b` in a plan: by rank inside an import cycle, else by cycle. */
  ghost predicate TaskLe(g: Graph, meta: map<string, TaskMeta>, a: string, b: string) {
    if Mutual(g, a, b) then a in meta && b in meta && RankLeTrue(g, meta, a, b)
    else CycleLe(g, LinesOf(meta), a, b)
  }

  /** No two tasks tie. */
  lemma TaskLeAntisymmetric(g: Graph, meta: map<string, TaskMeta>, a: string, b: string)
    requires a in g.deps && b in g.deps && TaskLe(g, meta, a, b) && TaskLe(g, meta, b, a)
    ensures a == b
  {
    if Mutual(g, a, b) {
      StrLeAntisymmetric(a, b);
    } else {
      CycleLeAntisymmetric(g, LinesOf(meta), a, b);
    }
  }

  ghost function Ids(plan: seq<Entry>): seq<string> {
    seq(|plan|, i requires 0 <= i < |plan| => plan[i].id)
  }

  lemma IdsAreTasks(g: Graph, meta: map<string, TaskMeta>, grades: map<string, string>, plan: seq<Entry>)
    requires EntriesOk(g, meta, grades, plan) && Permutation(g, plan)
    ensures NoDup(Ids(plan)) && forall x :: x in Ids(plan) <==> x in g.deps
  {
    forall x | x in g.deps ensures x in Ids(plan) {
      var i :| 0 <= i < |plan| && plan[i].id == x;
      assert Ids(plan)[i] == x;
    }
  }

  lemma IdsInOrder(g: Graph, meta: map<string, TaskMeta>, plan: seq<Entry>)
    requires RankedInside(g, meta, plan) && CyclesInOrder(g, meta, plan)
    ensures SortedBy(Ids(plan), (a: string, b: string) => TaskLe(g, meta, a, b))
  {
    forall i, j | 0 <= i < j < |plan| ensures TaskLe(g, meta, plan[i].id, plan[j].id) {
    }
  }

  lemma SameEntry(g: Graph, meta: map<string, TaskMeta>, grades: map<string, string>, d: Entry, e: Entry, position: nat)
    requires d.id == e.id
    requires EntryOk(g, meta, grades, d, position, |CycleOf(g, d.id)|)
    requires EntryOk(g, meta, grades, e, position, |CycleOf(g, e.id)|)
    ensures d == e
  {
    forall a, b | StrLe(a, b) && StrLe(b, a) ensures a == b { StrLeAntisymmetric(a, b); }
    OrderDetermines(d.dependsOn, e.dependsOn, StrLe);
  }

  /** There is one correct plan. */
  lemma PlanDetermined(g: Graph, meta: map<string, TaskMeta>, grades: map<string, string>, p: seq<Entry>, q: seq<Entry>)
    requires Correct(g, meta, grades, p) && Correct(g, meta, grades, q)
    ensures p == q
  {
    var le := (a: string, b: string) => TaskLe(g, meta, a, b);
    IdsAreTasks(g, meta, grades, p);
    IdsAreTasks(g, meta, grades, q);
    IdsInOrder(g, meta, p);
    IdsInOrder(g, meta, q);
    forall x, y | x in g.deps && y in g.deps && le(x, y) && le(y, x) ensures x == y {
      TaskLeAntisymmetric(g, meta, x, y);
    }
    OrderDetermines(Ids(p), Ids(q), le);
    assert |Ids(p)| == |Ids(q)|;
    forall i | 0 <= i < |p| ensures p[i] == q[i] {
      assert Ids(p)[i] == Ids(q)[i];
      SameEntry(g, meta, grades, p[i], q[i], i + 1);
    }
  }

  // ---------- the insertion order of the tasks does not matter ----------

  lemma ReachSame(g: Graph, h: Graph, u: string, v: string)
    requires g.deps == h.deps
    ensures Reach(g, u, v) <==> Reach(h, u, v)
  {
    forall p ensures PathFromTo(g, p, u, v) <==> PathFromTo(h, p, u, v) {
      assert forall x :: g.Succ(x) == h.Succ(x);
    }
  }

  lemma MutualSame(g: Graph, h: Graph)
    requires g.deps == h.deps
    ensures forall u, v :: Mutual(g, u, v) <==> Mutual(h, u, v)
  {
    forall u, v ensures Mutual(g, u, v) <==> Mutual(h, u, v) {
      ReachSame(g, h, u, v);
      ReachSame(g, h, v, u);
    }
  }

  lemma CycleOfSame(g: Graph, h: Graph, n: string)
    requires g.deps == h.deps
    ensures CycleOf(g, n) == CycleOf(h, n)
  {
    MutualSame(g, h);
  }

  lemma {:induction false} CycleChainSame(g: Graph, h: Graph, n: string, k: nat)
    requires g.deps == h.deps && CycleChain(g, n, k)
    ensures CycleChain(h, n, k)
    decreases k
  {
    if k > 0 {
      var x, y :| LeavesTo(g, n, x, y) && CycleChain(g, y, k - 1);
      CycleChainSame(g, h, y, k - 1);
      CycleOfSame(g, h, n);
      MutualSame(g, h);
      assert LeavesTo(h, n, x, y);
    }
  }

  lemma AtLevelSame(g: Graph, h: Graph, n: string, r: nat)
    requires g.deps == h.deps && AtLevel(g, n, r)
    ensures AtLevel(h, n, r)
  {
    CycleChainSame(g, h, n, r);
    if CycleChain(h, n, r + 1) { CycleChainSame(h, g, n, r + 1); }
  }

  lemma CycleLeSame(g: Graph, h: Graph, lines: map<string, nat>, a: string, b: string)
    requires g.deps == h.deps && CycleLe(g, lines, a, b)
    ensures CycleLe(h, lines, a, b)
  {
    var r: nat, s: nat :| AtLevel(g, a, r) && AtLevel(g, b, s) &&
                          (r < s || (r == s && LighterCycle(g, lines, a, b)));
    AtLevelSame(g, h, a, r);
    AtLevelSame(g, h, b, s);
    CycleOfSame(g, h, a);
    CycleOfSame(g, h, b);
  }

  lemma FanInSame(g: Graph, h: Graph, n: string)
    requires g.deps == h.deps
    ensures InCycleFanIn(g, n) == InCycleFanIn(h, n)
  {
    MutualSame(g, h);
    assert (set m | m in g.deps && n in g.deps[m] && Mutual(g, m, n))
        == set m | m in h.deps && n in h.deps[m] && Mutual(h, m, n);
  }

  lemma EntriesSame(g: Graph, h: Graph, meta: map<string, TaskMeta>, grades: map<string, string>, plan: seq<Entry>)
    requires g.deps == h.deps && EntriesOk(g, meta, grades, plan)
    ensures EntriesOk(h, meta, grades, plan)
  {
    forall i | 0 <= i < |plan| ensures CycleOf(g, plan[i].id) == CycleOf(h, plan[i].id) {
      CycleOfSame(g, h, plan[i].id);
    }
  }

  lemma ShapeSame(g: Graph, h: Graph, plan: seq<Entry>)
    requires g.deps == h.deps && Contiguous(g, plan) && DependenciesEarlier(g, plan)
    ensures Contiguous(h, plan) && DependenciesEarlier(h, plan)
  {
    MutualSame(g, h);
  }

  lemma OrderSame(g: Graph, h: Graph, meta: map<string, TaskMeta>, plan: seq<Entry>)
    requires g.deps == h.deps && RankedInside(g, meta, plan) && CyclesInOrder(g, meta, plan)
    ensures RankedInside(h, meta, plan) && CyclesInOrder(h, meta, plan)
  {
    MutualSame(g, h);
    forall i | 0 <= i < |plan| ensures InCycleFanIn(g, plan[i].id) == InCycleFanIn(h, plan[i].id) {
      FanInSame(g, h, plan[i].id);
    }
    forall i, j | 0 <= i < j < |plan| && !Mutual(h, plan[i].id, plan[j].id)
      ensures CycleLe(h, LinesOf(meta), plan[i].id, plan[j].id)
    {
      CycleLeSame(g, h, LinesOf(meta), plan[i].id, plan[j].id);
    }
  }

  lemma CorrectSame(g: Graph, h: Graph, meta: map<string, TaskMeta>, grades: map<string, string>, plan: seq<Entry>)
    requires g.deps == h.deps && Correct(g, meta, grades, plan)
    ensures Correct(h, meta, grades, plan)
  {
    EntriesSame(g, h, meta, grades, plan);
    ShapeSame(g, h, plan);
    OrderSame(g, h, meta, plan);
  }

  /** Two runs on the same dependencies give the same plan, however the tasks were inserted. */
  lemma InsertionOrderIrrelevant(g: Graph, h: Graph, meta: map<string, TaskMeta>, grades: map<string, string>,
                                 p: seq<Entry>, q: seq<Entry>)
    requires g.deps == h.deps && Correct(g, meta, grades, p) && Correct(h, meta, grades, q)
    ensures p == q
  {
    CorrectSame(g, h, meta, grades, p);
    PlanDetermined(h, meta, grades, p, q);
  }
}
