/** The order of the import cycles in the plan, in terms of the graph alone. */
module PlanOrder {
  import opened Sorting
  import opened Graphs
  import opened Tarjan
  import opened Ordering

  function Count(m: map<string, nat>, n: string): nat {
    if n in m then m[n] else 0
  }

  /** The import cycle of a task: the tasks it depends on that depend on it. */
  ghost function CycleOf(g: Graph, n: string): set<string> {
    set m | m in g.deps && Mutual(g, n, m)
  }

  /** The cycle of `n` depends on `y`, outside of it, through `x`. */
  ghost predicate LeavesTo(g: Graph, n: string, x: string, y: string) {
    x in CycleOf(g, n) && y in g.Succ(x) && !Mutual(g, n, y)
  }

  /** A chain of k dependencies from cycle to cycle starts at the cycle of `n`. */
  ghost predicate CycleChain(g: Graph, n: string, k: nat)
    decreases k
  {
    k == 0 || exists x, y :: LeavesTo(g, n, x, y) && CycleChain(g, y, k - 1)
  }

  /** The longest such chain has length r. */
  ghost predicate AtLevel(g: Graph, n: string, r: nat) {
    CycleChain(g, n, r) && !CycleChain(g, n, r + 1)
  }

  function SumLines(tasks: seq<string>, lines: map<string, nat>): nat {
    if tasks == [] then 0 else Count(lines, tasks[0]) + SumLines(tasks[1..], lines)
  }

  /** The source lines of the cycle of `n` and its first task by name. */
  ghost function CycleWeight(g: Graph, lines: map<string, nat>, n: string): (nat, string) {
    var tasks := SortedSet(CycleOf(g, n));
    (SumLines(tasks, lines), if tasks == [] then "" else tasks[0])
  }

  /** Fewer source lines, or as many and a first task that is not greater by name. */
  ghost predicate LighterCycle(g: Graph, lines: map<string, nat>, a: string, b: string) {
    var v, w := CycleWeight(g, lines, a), CycleWeight(g, lines, b);
    v.0 < w.0 || (v.0 == w.0 && StrLe(v.1, w.1))
  }

  /** The cycle of `a` comes before that of `b`: lower level, then fewer lines, then name. */
  ghost predicate CycleLe(g: Graph, lines: map<string, nat>, a: string, b: string) {
    exists r: nat, s: nat :: AtLevel(g, a, r) && AtLevel(g, b, s) &&
                             (r < s || (r == s && LighterCycle(g, lines, a, b)))
  }

  // ---------- chains of cycles are chains of components ----------

  ghost predicate Tasks(g: Graph, comps: seq<seq<string>>) {
    && g.Closed() && SccList(g, comps)
    && (forall n :: n in g.deps <==> InComps(comps, |comps|, n))
  }

  lemma CycleIsComponent(g: Graph, comps: seq<seq<string>>, c: nat, x: string)
    requires Tasks(g, comps) && c < |comps| && x in comps[c]
    ensures forall y :: y in comps[c] <==> y in CycleOf(g, x)
  {
    assert IsScc(g, comps[c]);
    forall y | y in comps[c] ensures y in g.deps { assert InComps(comps, |comps|, y); }
  }

  /** A dependency between components is one between cycles. */
  lemma EdgeLeaves(g: Graph, comps: seq<seq<string>>, c: nat, x: string, j: nat) returns (n: string, d: string)
    requires Tasks(g, comps) && c < |comps| && x in comps[c] && j in CondensationOf(comps, g)[c]
    ensures LeavesTo(g, x, n, d) && j < |comps| && d in comps[j]
  {
    var of := ComponentOf(comps);
    ComponentOfPlaces(comps);
    n, d :| n in g.deps && n in of && of[n] == c && d in g.deps[n] && d in of && of[d] != c && of[d] == j;
    CycleIsComponent(g, comps, c, x);
    if Mutual(g, x, d) {
      assert IsScc(g, comps[c]) && d in comps[c];
      OneComponent(comps, c, d);
      assert false;
    }
  }

  lemma LeavesIsEdge(g: Graph, comps: seq<seq<string>>, c: nat, x: string, n: string, d: string) returns (j: nat)
    requires Tasks(g, comps) && c < |comps| && x in comps[c] && LeavesTo(g, x, n, d)
    ensures j in CondensationOf(comps, g)[c] && j < |comps| && d in comps[j]
  {
    var of := ComponentOf(comps);
    CycleIsComponent(g, comps, c, x);
    OneComponent(comps, c, n);
    assert d in g.deps;
    assert InComps(comps, |comps|, d);
    j :| 0 <= j < |comps| && d in comps[j];
    OneComponent(comps, j, d);
    assert IsScc(g, comps[c]);
  }

  /** The condensation has the edges of the cycles; `of` gives each task its component. */
  ghost predicate SameEdges(g: Graph, condensed: map<nat, set<nat>>, of: map<string, nat>) {
    && (forall x, n, d :: x in of && LeavesTo(g, x, n, d) ==>
          d in of && of[x] in condensed && of[d] in condensed[of[x]])
    && (forall x, j :: x in of && of[x] in condensed && j in condensed[of[x]] ==>
          exists n, d :: LeavesTo(g, x, n, d) && d in of && of[d] == j)
  }

  lemma CondensationSameEdges(g: Graph, comps: seq<seq<string>>)
    requires Tasks(g, comps)
    ensures SameEdges(g, CondensationOf(comps, g), ComponentOf(comps))
  {
    var condensed, of := CondensationOf(comps, g), ComponentOf(comps);
    ComponentOfPlaces(comps);
    forall x, n, d | x in of && LeavesTo(g, x, n, d)
      ensures d in of && of[x] in condensed && of[d] in condensed[of[x]]
    {
      var j := LeavesIsEdge(g, comps, of[x], x, n, d);
      OneComponent(comps, j, d);
    }
    forall x, j | x in of && of[x] in condensed && j in condensed[of[x]]
      ensures exists n, d :: LeavesTo(g, x, n, d) && d in of && of[d] == j
    {
      var n, d := EdgeLeaves(g, comps, of[x], x, j);
      OneComponent(comps, j, d);
    }
  }

  lemma {:induction false} SameChains(g: Graph, condensed: map<nat, set<nat>>, of: map<string, nat>, x: string, k: nat)
    requires SameEdges(g, condensed, of) && x in of
    ensures HasChain(condensed, of[x], k) <==> CycleChain(g, x, k)
    decreases k
  {
    if k > 0 {
      if HasChain(condensed, of[x], k) {
        var j :| j in condensed[of[x]] && HasChain(condensed, j, k - 1);
        var n, d :| LeavesTo(g, x, n, d) && d in of && of[d] == j;
        SameChains(g, condensed, of, d, k - 1);
      }
      if CycleChain(g, x, k) {
        var n, d :| LeavesTo(g, x, n, d) && CycleChain(g, d, k - 1);
        SameChains(g, condensed, of, d, k - 1);
      }
    }
  }

  lemma ChainMatches(g: Graph, comps: seq<seq<string>>, c: nat, x: string, k: nat)
    requires Tasks(g, comps) && c < |comps| && x in comps[c]
    ensures HasChain(CondensationOf(comps, g), c, k) <==> CycleChain(g, x, k)
  {
    CondensationSameEdges(g, comps);
    OneComponent(comps, c, x);
    SameChains(g, CondensationOf(comps, g), ComponentOf(comps), x, k);
  }

  lemma LevelMatches(g: Graph, comps: seq<seq<string>>, c: nat, x: string, r: nat)
    requires Tasks(g, comps) && c < |comps| && x in comps[c]
    ensures Longest(CondensationOf(comps, g), c, r) <==> AtLevel(g, x, r)
  {
    ChainMatches(g, comps, c, x, r);
    ChainMatches(g, comps, c, x, r + 1);
  }

  // ---------- weights ----------

  lemma {:induction false} LinesAreSum(tasks: seq<string>, lines: map<string, nat>)
    requires forall x :: x in tasks ==> x in lines
    ensures Lines(tasks, lines) == SumLines(tasks, lines)
  {
    if tasks != [] { LinesAreSum(tasks[1..], lines); }
  }

  lemma ListingIsComponent(g: Graph, comps: seq<seq<string>>, c: nat, x: string)
    requires Tasks(g, comps) && c < |comps| && x in comps[c]
    ensures SortedSet(CycleOf(g, x)) == comps[c]
  {
    CycleIsComponent(g, comps, c, x);
    SortedSetLists(CycleOf(g, x));
    forall a, b | StrLe(a, b) && StrLe(b, a) ensures a == b { StrLeAntisymmetric(a, b); }
    OrderDetermines(SortedSet(CycleOf(g, x)), comps[c], StrLe);
  }

  lemma WeightMatches(g: Graph, comps: seq<seq<string>>, lines: map<string, nat>, c: nat, x: string)
    requires Tasks(g, comps) && Weighed(comps, lines) && c < |comps| && x in comps[c]
    ensures Weights(comps, lines)[c] == CycleWeight(g, lines, x)
  {
    ListingIsComponent(g, comps, c, x);
    LinesAreSum(comps[c], lines);
  }

  // ---------- the order of the components ----------

  /** Component a is of a lower level than b, or of the same and not heavier. */
  ghost predicate LevelLe(condensed: map<nat, set<nat>>, ws: seq<(nat, string)>, a: nat, b: nat) {
    exists r: nat, s: nat :: Longest(condensed, a, r) && Longest(condensed, b, s) &&
                             (r < s || (r == s && Lighter(ws, a, b)))
  }

  lemma {:induction false} LevelListMembers(condensed: map<nat, set<nat>>, r: nat, n: nat, i: nat)
    requires i in LevelList(condensed, r, n)
    ensures i < n && Longest(condensed, i, r)
    decreases n
  {
    if n > 0 && i in LevelList(condensed, r, n - 1) { LevelListMembers(condensed, r, n - 1, i); }
  }

  /** The last level of the order: sorted, and of that level. */
  lemma LastLevel(condensed: map<nat, set<nat>>, ws: seq<(nat, string)>, r: nat, i: nat)
    requires i in Sort(LevelList(condensed, r, |ws|), (a: nat, b: nat) => Lighter(ws, a, b))
    ensures i < |ws| && Longest(condensed, i, r)
  {
    SortMembers(LevelList(condensed, r, |ws|), (a: nat, b: nat) => Lighter(ws, a, b));
    LevelListMembers(condensed, r, |ws|, i);
  }

  ghost predicate Below(condensed: map<nat, set<nat>>, i: nat, r: nat) {
    exists s: nat :: s < r && Longest(condensed, i, s)
  }

  lemma BelowMore(condensed: map<nat, set<nat>>, i: nat, r: nat)
    requires Below(condensed, i, r)
    ensures Below(condensed, i, r + 1)
  {
  }

  lemma {:induction false} LevelOrderMembers(condensed: map<nat, set<nat>>, ws: seq<(nat, string)>, r: nat, i: nat)
    requires i in LevelOrder(condensed, ws, r)
    ensures i < |ws| && Below(condensed, i, r)
  {
    if r > 0 {
      if i in LevelOrder(condensed, ws, r - 1) {
        LevelOrderMembers(condensed, ws, r - 1, i);
        BelowMore(condensed, i, r - 1);
      } else {
        LastLevel(condensed, ws, r - 1, i);
      }
    }
  }

  lemma {:induction false} LevelOrderSorted(condensed: map<nat, set<nat>>, ws: seq<(nat, string)>, r: nat, p: nat,
                                            q: nat)
    requires p < q < |LevelOrder(condensed, ws, r)|
    ensures LevelLe(condensed, ws, LevelOrder(condensed, ws, r)[p], LevelOrder(condensed, ws, r)[q])
  {
    if r > 0 {
      var le := (a: nat, b: nat) => Lighter(ws, a, b);
      var init := LevelOrder(condensed, ws, r - 1);
      var last := Sort(LevelList(condensed, r - 1, |ws|), le);
      var all := LevelOrder(condensed, ws, r);
      if q < |init| {
        LevelOrderSorted(condensed, ws, r - 1, p, q);
      } else {
        assert all[q] in last;
        LastLevel(condensed, ws, r - 1, all[q]);
        if p < |init| {
          assert all[p] in init;
          LevelOrderMembers(condensed, ws, r - 1, all[p]);
          var s: nat :| s < r - 1 && Longest(condensed, all[p], s);
          assert Longest(condensed, all[q], r - 1);
        } else {
          assert all[p] in last;
          LastLevel(condensed, ws, r - 1, all[p]);
          LighterPreorder(ws);
          SortSorts(LevelList(condensed, r - 1, |ws|), le);
          assert le(last[p - |init|], last[q - |init|]);
        }
      }
    }
  }

  /** The order of the components is the order of the cycles. */
  lemma ComponentsInCycleOrder(g: Graph, comps: seq<seq<string>>, lines: map<string, nat>, a: nat, b: nat, x: string,
                               y: string)
    requires Tasks(g, comps) && Weighed(comps, lines) && a < |comps| && b < |comps| && x in comps[a] && y in comps[b]
    requires LevelLe(CondensationOf(comps, g), Weights(comps, lines), a, b)
    ensures CycleLe(g, lines, x, y)
  {
    var condensed := CondensationOf(comps, g);
    var ws := Weights(comps, lines);
    var r: nat, s: nat :| Longest(condensed, a, r) && Longest(condensed, b, s) &&
                          (r < s || (r == s && Lighter(ws, a, b)));
    LevelMatches(g, comps, a, x, r);
    LevelMatches(g, comps, b, y, s);
    WeightMatches(g, comps, lines, a, x);
    WeightMatches(g, comps, lines, b, y);
  }

  // ---------- no two cycles tie ----------

  lemma {:induction false} ShorterCycleChain(g: Graph, n: string, k: nat)
    requires CycleChain(g, n, k + 1)
    ensures CycleChain(g, n, k)
    decreases k
  {
    if k > 0 {
      var x, y :| LeavesTo(g, n, x, y) && CycleChain(g, y, k);
      ShorterCycleChain(g, y, k - 1);
    }
  }

  lemma {:induction false} LevelUnique(g: Graph, n: string, r: nat, s: nat)
    requires AtLevel(g, n, r) && r < s
    ensures !CycleChain(g, n, s)
    decreases s
  {
    if r + 1 < s {
      LevelUnique(g, n, r, s - 1);
      if CycleChain(g, n, s) { ShorterCycleChain(g, n, s - 1); }
    }
  }

  lemma OneLevel(g: Graph, n: string, r: nat, s: nat)
    requires AtLevel(g, n, r) && AtLevel(g, n, s)
    ensures r == s
  {
    if r < s { LevelUnique(g, n, r, s); }
    if s < r { LevelUnique(g, n, s, r); }
  }

  /** Cycles that each come before the other are the same cycle. */
  lemma CycleLeAntisymmetric(g: Graph, lines: map<string, nat>, a: string, b: string)
    requires a in g.deps && b in g.deps && CycleLe(g, lines, a, b) && CycleLe(g, lines, b, a)
    ensures Mutual(g, a, b)
  {
    var r: nat, s: nat :| AtLevel(g, a, r) && AtLevel(g, b, s) &&
                (r < s || (r == s && LighterCycle(g, lines, a, b)));
    var s': nat, r': nat :| AtLevel(g, b, s') && AtLevel(g, a, r') &&
                  (s' < r' || (s' == r' && LighterCycle(g, lines, b, a)));
    OneLevel(g, a, r, r');
    OneLevel(g, b, s, s');
    var v, w := CycleWeight(g, lines, a).1, CycleWeight(g, lines, b).1;
    StrLeAntisymmetric(v, w);
    FirstInCycle(g, lines, a);
    FirstInCycle(g, lines, b);
    ReachTrans(g, a, v, b);
    ReachTrans(g, b, v, a);
  }

  lemma FirstInCycle(g: Graph, lines: map<string, nat>, n: string)
    requires n in g.deps
    ensures Mutual(g, n, CycleWeight(g, lines, n).1)
  {
    ReachRefl(g, n);
    SortedSetLists(CycleOf(g, n));
    assert n in SortedSet(CycleOf(g, n));
    assert SortedSet(CycleOf(g, n))[0] in SortedSet(CycleOf(g, n));
  }
}
