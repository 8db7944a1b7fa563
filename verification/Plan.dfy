/** `rank_within_cycle` and the plan-building loop of `main`. */
module Plan {
  import opened Sorting
  import opened Graphs
  import opened Tarjan
  import opened Ordering
  import opened PlanOrder

  // ---------- ranking inside a component ----------

  /** How often `n` is a dependency of the members listed: `fan_in[n]`. */
  function FanIn(g: Graph, members: seq<string>, n: string): nat {
    if members == [] then 0
    else FanIn(g, members[..|members| - 1], n) + if n in g.Succ(members[|members| - 1]) then 1 else 0
  }

  /** The sort key (-fan_in, source lines, id), compared lexicographically. */
  predicate KeyLe(fa: nat, la: nat, a: string, fb: nat, lb: nat, b: string) {
    fa > fb || (fa == fb && (la < lb || (la == lb && StrLe(a, b))))
  }

  predicate RankLe(fanIn: map<string, nat>, lines: map<string, nat>, a: string, b: string) {
    KeyLe(Count(fanIn, a), Count(lines, a), a, Count(fanIn, b), Count(lines, b), b)
  }

  lemma RankLePreorder(fanIn: map<string, nat>, lines: map<string, nat>)
    ensures TotalPreorder((a: string, b: string) => RankLe(fanIn, lines, a, b))
  {
    StrLePreorder();
    forall a, b ensures RankLe(fanIn, lines, a, b) || RankLe(fanIn, lines, b, a) {
      StrLeTotal(a, b);
    }
    forall a, b, c | RankLe(fanIn, lines, a, b) && RankLe(fanIn, lines, b, c) ensures RankLe(fanIn, lines, a, c) {
      if StrLe(a, b) && StrLe(b, c) { StrLeTransitive(a, b, c); }
    }
  }

  /** a stands before b inside the component: larger fan-in, then fewer lines, then id. */
  predicate Before(g: Graph, component: seq<string>, lines: map<string, nat>, a: string, b: string) {
    KeyLe(FanIn(g, component, a), Count(lines, a), a, FanIn(g, component, b), Count(lines, b), b)
  }

  /** The inner loop `for dep in edges[node] & members: fan_in[dep] += 1`. */
  method CountNode(g: Graph, members: set<string>, node: string, fanIn0: map<string, nat>)
      returns (fanIn: map<string, nat>)
    requires node in g.deps && fanIn0.Keys == members
    ensures fanIn.Keys == members
    ensures forall x :: x in members ==> fanIn[x] == fanIn0[x] + if x in g.deps[node] then 1 else 0
  {
    fanIn := fanIn0;
    var rest := g.deps[node] * members;
    while rest != {}
      invariant rest <= g.deps[node] * members && fanIn.Keys == members
      invariant forall x :: x in members ==>
        fanIn[x] == fanIn0[x] + if x in g.deps[node] && x !in rest then 1 else 0
      decreases rest
    {
      var dep :| dep in rest;
      fanIn := fanIn[dep := fanIn[dep] + 1];
      rest := rest - {dep};
    }
  }

  method RankWithinCycle(component: seq<string>, g: Graph, lines: map<string, nat>) returns (ranked: seq<string>)
    requires forall n :: n in component ==> n in g.deps && n in lines
    ensures multiset(ranked) == multiset(component)
    ensures forall i, j :: 0 <= i < j < |ranked| ==> Before(g, component, lines, ranked[i], ranked[j])
  {
    var members := set n | n in component;
    var fanIn: map<string, nat> := map n | n in component :: 0;
    for k := 0 to |component|
      invariant fanIn.Keys == members
      invariant forall x :: x in members ==> fanIn[x] == FanIn(g, component[..k], x)
    {
      fanIn := CountNode(g, members, component[k], fanIn);
      assert component[..k + 1][..k] == component[..k];
    }
    assert component[..|component|] == component;
    ranked := Sort(component, (a: string, b: string) => RankLe(fanIn, lines, a, b));
    RankLePreorder(fanIn, lines);
    SortSorts(component, (a: string, b: string) => RankLe(fanIn, lines, a, b));
    SortPermutes(component, (a: string, b: string) => RankLe(fanIn, lines, a, b));
    SortMembers(component, (a: string, b: string) => RankLe(fanIn, lines, a, b));
    forall i, j | 0 <= i < j < |ranked| ensures Before(g, component, lines, ranked[i], ranked[j]) {
      assert ranked[i] in component && ranked[j] in component;
      assert RankLe(fanIn, lines, ranked[i], ranked[j]);
    }
  }

  // ---------- the plan ----------

  datatype TaskMeta = TaskMeta(sourceLines: nat, apiCount: nat)

  datatype Status = Done | Pending

  datatype Entry = Entry(id: string, meta: TaskMeta, order: nat, cycleSize: nat, dependsOn: seq<string>, grade: string,
                         status: Status)

  function LinesOf(meta: map<string, TaskMeta>): map<string, nat> {
    map n | n in meta :: meta[n].sourceLines
  }

  /** What the plan says about a task, field by field. */
  ghost predicate EntryOk(g: Graph, meta: map<string, TaskMeta>, grades: map<string, string>, e: Entry, position: nat,
                          members: nat) {
    && e.id in g.deps && e.id in meta && e.meta == meta[e.id]
    && e.order == position && e.cycleSize == members
    && NoDup(e.dependsOn) && SortedBy(e.dependsOn, StrLe) && (forall x :: x in e.dependsOn <==> x in g.deps[e.id])
    && (e.id in grades ==> e.grade == grades[e.id]) && (e.id !in grades ==> e.grade == "unknown")
    && (e.status == Done <==> e.grade == "ported" || (meta[e.id].sourceLines == 0 && meta[e.id].apiCount == 0))
  }

  function MakeEntry(g: Graph, meta: map<string, TaskMeta>, grades: map<string, string>, id: string, order: nat,
                     cycleSize: nat): (e: Entry)
    requires id in g.deps && id in meta
    ensures e.id == id && EntryOk(g, meta, grades, e, order, cycleSize)
  {
    SortedSetLists(g.deps[id]);
    var grade := if id in grades then grades[id] else "unknown";
    var nothingToPort := meta[id].sourceLines == 0 && meta[id].apiCount == 0;
    Entry(id, meta[id], order, cycleSize, SortedSet(g.deps[id]), grade,
          if grade == "ported" || nothingToPort then Done else Pending)
  }

  /** Entry i of the plan belongs to component at[i] of the order. */
  ghost predicate Placed(g: Graph, meta: map<string, TaskMeta>, grades: map<string, string>,
                         ordered: seq<seq<string>>, plan: seq<Entry>, at: seq<nat>) {
    && |at| == |plan|
    && (forall i :: 0 <= i < |plan| ==> at[i] < |ordered| && plan[i].id in ordered[at[i]]
                                        && EntryOk(g, meta, grades, plan[i], i + 1, |ordered[at[i]]|))
    && (forall i, j :: 0 <= i < j < |plan| ==> at[i] <= at[j])
    && (forall i, j :: 0 <= i < j < |plan| && at[i] == at[j] ==>
          plan[i].id != plan[j].id && Before(g, ordered[at[i]], LinesOf(meta), plan[i].id, plan[j].id))
  }

  ghost predicate Covered(ordered: seq<seq<string>>, plan: seq<Entry>, n: nat) {
    forall c, x :: 0 <= c < n && c < |ordered| && x in ordered[c] ==> exists i :: 0 <= i < |plan| && plan[i].id == x
  }

  /** The first k tasks of component c have been appended to the plan `before`. */
  ghost predicate Block(before: nat, plan: seq<Entry>, at: seq<nat>, ranked: seq<string>, c: nat, k: nat) {
    && k <= |ranked| && |plan| == |at| == before + k
    && (forall i :: 0 <= i < before ==> at[i] < c)
    && (forall i :: before <= i < |plan| ==> at[i] == c && plan[i].id == ranked[i - before])
  }

  /** What `rank_within_cycle` returns for component c. */
  ghost predicate RankedComponent(g: Graph, meta: map<string, TaskMeta>, ordered: seq<seq<string>>, ranked: seq<string>,
                                  c: nat) {
    && c < |ordered| && NoDup(ranked)
    && (forall x :: x in ordered[c] <==> x in ranked)
    && (forall x :: x in ranked ==> x in g.deps && x in meta)
    && (forall i, j :: 0 <= i < j < |ranked| ==> Before(g, ordered[c], LinesOf(meta), ranked[i], ranked[j]))
  }

  lemma BlockGrows(before: nat, plan: seq<Entry>, at: seq<nat>, ranked: seq<string>, c: nat, k: nat, e: Entry)
    requires Block(before, plan, at, ranked, c, k) && k < |ranked| && e.id == ranked[k]
    ensures Block(before, plan + [e], at + [c], ranked, c, k + 1)
  {
  }

  lemma PlaceOne(g: Graph, meta: map<string, TaskMeta>, grades: map<string, string>, ordered: seq<seq<string>>,
                 before: nat, plan: seq<Entry>, at: seq<nat>, ranked: seq<string>, c: nat, k: nat, e: Entry)
    requires Placed(g, meta, grades, ordered, plan, at) && RankedComponent(g, meta, ordered, ranked, c)
    requires Block(before, plan, at, ranked, c, k) && k < |ranked|
    requires e.id == ranked[k] && EntryOk(g, meta, grades, e, |plan| + 1, |ordered[c]|)
    ensures Placed(g, meta, grades, ordered, plan + [e], at + [c])
  {
    assert ranked[k] in ranked;
    var n := |plan|;
    forall i | 0 <= i < n && at[i] == c
      ensures plan[i].id != e.id && Before(g, ordered[c], LinesOf(meta), plan[i].id, e.id)
    {
      assert plan[i].id == ranked[i - before];
    }
    assert forall i :: 0 <= i < n ==> (plan + [e])[i] == plan[i] && (at + [c])[i] == at[i] && at[i] <= c;
  }

  lemma RankedIs(g: Graph, meta: map<string, TaskMeta>, ordered: seq<seq<string>>, ranked: seq<string>, c: nat)
    requires c < |ordered| && NoDup(ordered[c]) && multiset(ranked) == multiset(ordered[c])
    requires forall x :: x in ordered[c] ==> x in g.deps && x in meta
    requires forall i, j :: 0 <= i < j < |ranked| ==> Before(g, ordered[c], LinesOf(meta), ranked[i], ranked[j])
    ensures RankedComponent(g, meta, ordered, ranked, c)
  {
    NoDupFromMultiset(ordered[c], ranked);
    forall x ensures x in ordered[c] <==> x in ranked {
      assert x in ordered[c] <==> x in multiset(ordered[c]);
      assert x in ranked <==> x in multiset(ranked);
    }
  }

  /** The inner loop: the tasks of one component, ranked, at the next positions. */
  method PlanComponent(ordered: seq<seq<string>>, g: Graph, meta: map<string, TaskMeta>, grades: map<string, string>,
                       c: nat, plan0: seq<Entry>, ghost at0: seq<nat>, position0: nat)
      returns (plan: seq<Entry>, ghost at: seq<nat>, position: nat)
    requires c < |ordered| && NoDup(ordered[c]) && forall x :: x in ordered[c] ==> x in g.deps && x in meta
    requires Placed(g, meta, grades, ordered, plan0, at0) && Covered(ordered, plan0, c)
    requires forall i :: 0 <= i < |at0| ==> at0[i] < c
    requires position0 == |plan0|
    ensures Placed(g, meta, grades, ordered, plan, at) && Covered(ordered, plan, c + 1)
    ensures forall i :: 0 <= i < |at| ==> at[i] < c + 1
    ensures position == |plan|
  {
    var component := ordered[c];
    var ranked := RankWithinCycle(component, g, LinesOf(meta));
    RankedIs(g, meta, ordered, ranked, c);
    plan, at, position := plan0, at0, position0;
    for k := 0 to |ranked|
      invariant position == |plan| && plan0 <= plan
      invariant Placed(g, meta, grades, ordered, plan, at)
      invariant Block(|plan0|, plan, at, ranked, c, k)
    {
      assert ranked[k] in ranked;
      position := position + 1;
      var entry := MakeEntry(g, meta, grades, ranked[k], position, |component|);
      PlaceOne(g, meta, grades, ordered, |plan0|, plan, at, ranked, c, k, entry);
      BlockGrows(|plan0|, plan, at, ranked, c, k, entry);
      plan := plan + [entry];
      at := at + [c];
    }
    CoverOne(ordered, plan0, plan, ranked, c);
  }

  /** The plan-building loop of `main`. */
  method BuildPlan(ordered: seq<seq<string>>, g: Graph, meta: map<string, TaskMeta>, grades: map<string, string>)
      returns (plan: seq<Entry>, ghost at: seq<nat>)
    requires forall c, x :: 0 <= c < |ordered| && x in ordered[c] ==> x in g.deps && x in meta
    requires forall c :: 0 <= c < |ordered| ==> NoDup(ordered[c])
    ensures Placed(g, meta, grades, ordered, plan, at)
    ensures Covered(ordered, plan, |ordered|)
  {
    plan, at := [], [];
    var position := 0;
    for c := 0 to |ordered|
      invariant position == |plan|
      invariant Placed(g, meta, grades, ordered, plan, at)
      invariant forall i :: 0 <= i < |at| ==> at[i] < c
      invariant Covered(ordered, plan, c)
    {
      plan, at, position := PlanComponent(ordered, g, meta, grades, c, plan, at, position);
    }
  }

  lemma CoverOne(ordered: seq<seq<string>>, before: seq<Entry>, plan: seq<Entry>, ranked: seq<string>, c: nat)
    requires Covered(ordered, before, c) && c < |ordered|
    requires |plan| == |before| + |ranked| && before <= plan
    requires forall i :: |before| <= i < |plan| ==> plan[i].id == ranked[i - |before|]
    requires forall x :: x in ordered[c] ==> x in ranked
    ensures Covered(ordered, plan, c + 1)
  {
    forall b, x | 0 <= b < c + 1 && b < |ordered| && x in ordered[b]
      ensures exists i :: 0 <= i < |plan| && plan[i].id == x {
      if b < c {
        var i :| 0 <= i < |before| && before[i].id == x;
        assert plan[i] == before[i];
      } else {
        var k :| 0 <= k < |ranked| && ranked[k] == x;
        assert plan[|before| + k].id == x;
      }
    }
  }

  // ---------- the whole planner ----------

  /** How many tasks of its import cycle depend on `n`, counted on the graph itself. */
  ghost function InCycleFanIn(g: Graph, n: string): nat {
    |set m | m in g.deps && n in g.deps[m] && Mutual(g, m, n)|
  }

  lemma {:induction false} FanInCounts(g: Graph, members: seq<string>, n: string)
    requires NoDup(members)
    ensures FanIn(g, members, n) == |set m | m in members && n in g.Succ(m)|
  {
    if members != [] {
      var k := |members| - 1;
      var init := members[..k];
      FanInCounts(g, init, n);
      var a := set m | m in init && n in g.Succ(m);
      var b := set m | m in members && n in g.Succ(m);
      assert members == init + [members[k]];
      assert members[k] !in init;
      if n in g.Succ(members[k]) {
        assert b == a + {members[k]};
      } else {
        assert b == a;
      }
    }
  }

  /** On a strongly connected component the counted fan-in is the true in-cycle fan-in. */
  lemma FanInIsTrue(g: Graph, component: seq<string>, n: string)
    requires g.Closed() && IsScc(g, component) && NoDup(component) && n in component
    requires forall x :: x in component ==> x in g.deps
    ensures FanIn(g, component, n) == InCycleFanIn(g, n)
    ensures Elems(component) == CycleOf(g, n) && |component| == |CycleOf(g, n)|
  {
    FanInCounts(g, component, n);
    NoDupSize(component);
    assert (set m | m in component && n in g.Succ(m)) == set m | m in g.deps && n in g.deps[m] && Mutual(g, m, n) by {
      forall m ensures m in component && n in g.Succ(m) <==> m in g.deps && n in g.deps[m] && Mutual(g, m, n) {
        assert m in component <==> Mutual(g, n, m);
      }
    }
  }

  /** Positions are 1..n, and each entry tells what there is to know about its task. */
  ghost predicate EntriesOk(g: Graph, meta: map<string, TaskMeta>, grades: map<string, string>, plan: seq<Entry>) {
    forall i :: 0 <= i < |plan| ==> EntryOk(g, meta, grades, plan[i], i + 1, |CycleOf(g, plan[i].id)|)
  }

  /** The plan is a permutation of the tasks. */
  ghost predicate Permutation(g: Graph, plan: seq<Entry>) {
    && (forall i, j :: 0 <= i < j < |plan| ==> plan[i].id != plan[j].id)
    && (forall n :: n in g.deps ==> exists i :: 0 <= i < |plan| && plan[i].id == n)
  }

  /** Every import cycle occupies consecutive positions. */
  ghost predicate Contiguous(g: Graph, plan: seq<Entry>) {
    forall i, j, k :: 0 <= i < j < k < |plan| ==>
      (Mutual(g, plan[i].id, plan[k].id) ==> Mutual(g, plan[i].id, plan[j].id))
  }

  /** A dependency outside the import cycle has a smaller position. */
  ghost predicate DependenciesEarlier(g: Graph, plan: seq<Entry>) {
    forall i, k :: 0 <= i < |plan| && 0 <= k < |plan| ==>
      (plan[k].id in g.Succ(plan[i].id) && !Mutual(g, plan[i].id, plan[k].id) ==> k < i)
  }

  /** Of two tasks of one cycle the one with more dependents in the cycle comes first, on
      ties the smaller one, then the one with the smaller id. */
  ghost predicate RankLeTrue(g: Graph, meta: map<string, TaskMeta>, a: string, b: string)
    requires a in meta && b in meta
  {
    || InCycleFanIn(g, a) > InCycleFanIn(g, b)
    || (InCycleFanIn(g, a) == InCycleFanIn(g, b) && meta[a].sourceLines < meta[b].sourceLines)
    || (InCycleFanIn(g, a) == InCycleFanIn(g, b) && meta[a].sourceLines == meta[b].sourceLines && StrLe(a, b))
  }

  /** Inside an import cycle: larger in-cycle fan-in, then fewer lines, then id. */
  ghost predicate RankedInside(g: Graph, meta: map<string, TaskMeta>, plan: seq<Entry>) {
    forall i, j :: 0 <= i < j < |plan| && Mutual(g, plan[i].id, plan[j].id) ==>
      plan[i].id in meta && plan[j].id in meta && RankLeTrue(g, meta, plan[i].id, plan[j].id)
  }

  /** The import cycles: level by level, inside a level by source lines and then by first task. */
  ghost predicate CyclesInOrder(g: Graph, meta: map<string, TaskMeta>, plan: seq<Entry>) {
    forall i, j :: 0 <= i < j < |plan| ==>
      (!Mutual(g, plan[i].id, plan[j].id) ==> CycleLe(g, LinesOf(meta), plan[i].id, plan[j].id))
  }

  /** The plan in terms of the graph alone. */
  ghost predicate Correct(g: Graph, meta: map<string, TaskMeta>, grades: map<string, string>, plan: seq<Entry>) {
    && EntriesOk(g, meta, grades, plan) && Permutation(g, plan) && Contiguous(g, plan)
    && DependenciesEarlier(g, plan) && RankedInside(g, meta, plan) && CyclesInOrder(g, meta, plan)
  }

  lemma SameComponent(g: Graph, ordered: seq<seq<string>>, p: nat, q: nat, x: string, y: string)
    requires SccList(g, ordered) && p < |ordered| && q < |ordered| && x in ordered[p] && y in ordered[q]
    ensures Mutual(g, x, y) <==> p == q
  {
    OneComponent(ordered, p, x);
    OneComponent(ordered, q, y);
    assert IsScc(g, ordered[p]);
    assert Mutual(g, x, y) <==> y in ordered[p];
    if y in ordered[p] { OneComponent(ordered, p, y); }
  }

  lemma PlanSame(g: Graph, meta: map<string, TaskMeta>, grades: map<string, string>, ordered: seq<seq<string>>,
                 plan: seq<Entry>, at: seq<nat>, i: nat, j: nat)
    requires SccList(g, ordered) && Placed(g, meta, grades, ordered, plan, at) && i < |plan| && j < |plan|
    ensures Mutual(g, plan[i].id, plan[j].id) <==> at[i] == at[j]
  {
    SameComponent(g, ordered, at[i], at[j], plan[i].id, plan[j].id);
  }

  lemma PlanEntries(g: Graph, meta: map<string, TaskMeta>, grades: map<string, string>, ordered: seq<seq<string>>,
                    plan: seq<Entry>, at: seq<nat>)
    requires g.Closed() && SccList(g, ordered) && Placed(g, meta, grades, ordered, plan, at)
    requires forall c, x :: 0 <= c < |ordered| && x in ordered[c] ==> x in g.deps
    ensures EntriesOk(g, meta, grades, plan)
  {
    forall i | 0 <= i < |plan| ensures |ordered[at[i]]| == |CycleOf(g, plan[i].id)| {
      FanInIsTrue(g, ordered[at[i]], plan[i].id);
    }
  }

  lemma PlanPermutes(g: Graph, meta: map<string, TaskMeta>, grades: map<string, string>, ordered: seq<seq<string>>,
                     plan: seq<Entry>, at: seq<nat>)
    requires SccList(g, ordered) && Placed(g, meta, grades, ordered, plan, at) && Covered(ordered, plan, |ordered|)
    requires forall n :: n in g.deps ==> InComps(ordered, |ordered|, n)
    ensures Permutation(g, plan)
  {
    forall i, j | 0 <= i < j < |plan| ensures plan[i].id != plan[j].id {
      PlanSame(g, meta, grades, ordered, plan, at, i, j);
      ReachRefl(g, plan[i].id);
    }
    forall n | n in g.deps ensures exists i :: 0 <= i < |plan| && plan[i].id == n {
      var c :| 0 <= c < |ordered| && n in ordered[c];
    }
  }

  lemma PlanContiguous(g: Graph, meta: map<string, TaskMeta>, grades: map<string, string>, ordered: seq<seq<string>>,
                       plan: seq<Entry>, at: seq<nat>)
    requires SccList(g, ordered) && Placed(g, meta, grades, ordered, plan, at)
    ensures Contiguous(g, plan)
  {
    forall i, j, k | 0 <= i < j < k < |plan|
      ensures Mutual(g, plan[i].id, plan[k].id) ==> Mutual(g, plan[i].id, plan[j].id)
    {
      PlanSame(g, meta, grades, ordered, plan, at, i, k);
      PlanSame(g, meta, grades, ordered, plan, at, i, j);
    }
  }

  lemma PlanDependencies(g: Graph, meta: map<string, TaskMeta>, grades: map<string, string>, ordered: seq<seq<string>>,
                         plan: seq<Entry>, at: seq<nat>)
    requires SccList(g, ordered) && Placed(g, meta, grades, ordered, plan, at)
    ensures DependenciesEarlier(g, plan)
  {
    forall i, k | 0 <= i < |plan| && 0 <= k < |plan|
      ensures plan[k].id in g.Succ(plan[i].id) && !Mutual(g, plan[i].id, plan[k].id) ==> k < i
    {
      PlanSame(g, meta, grades, ordered, plan, at, i, k);
      if plan[k].id in g.Succ(plan[i].id) {
        assert InComps(ordered, at[i] + 1, plan[k].id);
        var m :| 0 <= m < at[i] + 1 && m < |ordered| && plan[k].id in ordered[m];
        SameComponent(g, ordered, m, at[k], plan[k].id, plan[k].id);
        ReachRefl(g, plan[k].id);
      }
    }
  }

  lemma PlanRanked(g: Graph, meta: map<string, TaskMeta>, grades: map<string, string>, ordered: seq<seq<string>>,
                   plan: seq<Entry>, at: seq<nat>)
    requires g.Closed() && SccList(g, ordered) && Placed(g, meta, grades, ordered, plan, at)
    requires forall c, x :: 0 <= c < |ordered| && x in ordered[c] ==> x in g.deps
    ensures RankedInside(g, meta, plan)
  {
    forall i, j | 0 <= i < j < |plan|
      ensures Mutual(g, plan[i].id, plan[j].id) ==> RankLeTrue(g, meta, plan[i].id, plan[j].id)
    {
      PlanSame(g, meta, grades, ordered, plan, at, i, j);
      if at[i] == at[j] {
        FanInIsTrue(g, ordered[at[i]], plan[i].id);
        FanInIsTrue(g, ordered[at[j]], plan[j].id);
      }
    }
  }

  lemma PlanCycles(g: Graph, meta: map<string, TaskMeta>, grades: map<string, string>, comps: seq<seq<string>>,
                   ordered: seq<seq<string>>, plan: seq<Entry>, at: seq<nat>)
    requires Tasks(g, comps) && Weighed(comps, LinesOf(meta))
    requires ordered == Picked(comps, LevelOrder(CondensationOf(comps, g), Weights(comps, LinesOf(meta)), |comps|))
    requires SccList(g, ordered) && Placed(g, meta, grades, ordered, plan, at)
    ensures CyclesInOrder(g, meta, plan)
  {
    var condensed, ws := CondensationOf(comps, g), Weights(comps, LinesOf(meta));
    var order := LevelOrder(condensed, ws, |comps|);
    forall i, j | 0 <= i < j < |plan| && !Mutual(g, plan[i].id, plan[j].id)
      ensures CycleLe(g, LinesOf(meta), plan[i].id, plan[j].id)
    {
      PlanSame(g, meta, grades, ordered, plan, at, i, j);
      var a, b := order[at[i]], order[at[j]];
      assert a in order && b in order;
      LevelOrderMembers(condensed, ws, |comps|, a);
      LevelOrderMembers(condensed, ws, |comps|, b);
      LevelOrderSorted(condensed, ws, |comps|, at[i], at[j]);
      ComponentsInCycleOrder(g, comps, LinesOf(meta), a, b, plan[i].id, plan[j].id);
    }
  }

  /** `order_components` on the result of `strongly_connected_components`: the fallback is
      never taken, round r releases exactly the components whose longest dependency chain
      has length r, and the order still lists dependencies first. */
  method OrderedComponents(g: Graph, lines: map<string, nat>)
      returns (ordered: seq<seq<string>>, ghost comps: seq<seq<string>>, ghost condensed: map<nat, set<nat>>,
               ghost rounds: seq<seq<nat>>, ghost done: seq<nat>, ghost fallbacks: nat)
    requires g.Valid() && g.Closed() && lines.Keys == g.deps.Keys
    ensures Tasks(g, comps) && IsCondensed(comps, g, condensed) && Weighed(comps, lines) && fallbacks == 0
    ensures Progress(|comps|, done, {}) && ordered == Picked(comps, done)
    ensures RoundsOk(condensed, Weights(comps, lines), rounds, done, {})
    ensures ordered == Picked(comps, LevelOrder(CondensationOf(comps, g), Weights(comps, lines), |comps|))
    ensures SccList(g, ordered)
    ensures forall n :: n in g.deps <==> InComps(ordered, |ordered|, n)
  {
    var components := StronglyConnectedComponents(g);
    comps := components;
    NodesCovered(g, comps);
    ordered, condensed, rounds, done, fallbacks := OrderComponents(components, g, lines);
    CondensedIs(comps, g, condensed);
    SccsAreSortable(g, comps, condensed);
    OrderedSccs(g, comps, condensed, done);
    OrderedMembers(g, comps, ordered);
  }

  /** `main` without its input and output: components, order, plan. */
  method MakePlan(g: Graph, meta: map<string, TaskMeta>, grades: map<string, string>) returns (plan: seq<Entry>)
    requires g.Valid() && g.Closed() && meta.Keys == g.deps.Keys
    ensures Correct(g, meta, grades, plan)
  {
    var ordered: seq<seq<string>>;
    ghost var comps, condensed, rounds, done, fallbacks;
    ordered, comps, condensed, rounds, done, fallbacks := OrderedComponents(g, LinesOf(meta));
    MembersAreTasks(g, ordered);
    ghost var at;
    plan, at := BuildPlan(ordered, g, meta, grades);
    PlanEntries(g, meta, grades, ordered, plan, at);
    PlanPermutes(g, meta, grades, ordered, plan, at);
    PlanContiguous(g, meta, grades, ordered, plan, at);
    PlanDependencies(g, meta, grades, ordered, plan, at);
    PlanRanked(g, meta, grades, ordered, plan, at);
    PlanCycles(g, meta, grades, comps, ordered, plan, at);
  }

  lemma MembersAreTasks(g: Graph, ordered: seq<seq<string>>)
    requires SccList(g, ordered) && forall n :: n in g.deps <==> InComps(ordered, |ordered|, n)
    ensures forall c, x :: 0 <= c < |ordered| && x in ordered[c] ==> x in g.deps
    ensures forall c :: 0 <= c < |ordered| ==> NoDup(ordered[c])
  {
    forall c, x | 0 <= c < |ordered| && x in ordered[c] ensures x in g.deps {
      assert InComps(ordered, |ordered|, x);
    }
  }

  lemma NodesCovered(g: Graph, comps: seq<seq<string>>)
    requires g.Valid() && g.Closed() && SccList(g, comps)
    requires forall x :: x in g.Universe() <==> InComps(comps, |comps|, x)
    ensures forall n :: n in g.deps ==> n in ComponentOf(comps)
    ensures forall i, x :: 0 <= i < |comps| && x in comps[i] ==> x in g.deps
    ensures forall i :: 0 <= i < |comps| ==> comps[i] != []
    ensures Tasks(g, comps)
  {
    ComponentOfPlaces(comps);
    forall i, x | 0 <= i < |comps| && x in comps[i] ensures x in g.deps {
      assert InComps(comps, |comps|, x) && x in g.Universe();
    }
    forall i | 0 <= i < |comps| ensures comps[i] != [] {
      assert IsScc(g, comps[i]);
    }
  }

  lemma OrderedMembers(g: Graph, comps: seq<seq<string>>, ordered: seq<seq<string>>)
    requires forall x :: InComps(comps, |comps|, x) <==> InComps(ordered, |ordered|, x)
    requires forall i, x :: 0 <= i < |comps| && x in comps[i] ==> x in g.deps
    requires forall n :: n in g.deps ==> n in ComponentOf(comps)
    ensures forall n :: n in g.deps <==> InComps(ordered, |ordered|, n)
  {
    ComponentOfPlaces(comps);
  }
}
