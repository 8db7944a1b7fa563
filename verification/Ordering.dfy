/** `order_components`: releasing the condensed components round by round. */
module Ordering {
  import opened Sorting
  import opened Graphs
  import opened Tarjan

  /** `component_of`: a node listed twice belongs to the last component naming it. */
  function ComponentOf(comps: seq<seq<string>>): map<string, nat> {
    if comps == [] then map[]
    else
      var n := |comps| - 1;
      ComponentOf(comps[..n]) + map x | x in comps[n] :: n
  }

  lemma {:induction false} ComponentOfPlaces(comps: seq<seq<string>>)
    ensures forall x :: x in ComponentOf(comps) <==> InComps(comps, |comps|, x)
    ensures forall x :: x in ComponentOf(comps) ==> ComponentOf(comps)[x] < |comps| && x in comps[ComponentOf(comps)[x]]
  {
    if comps != [] {
      var n := |comps| - 1;
      ComponentOfPlaces(comps[..n]);
      assert forall i :: 0 <= i < n ==> comps[..n][i] == comps[i];
      forall x ensures x in ComponentOf(comps) <==> InComps(comps, |comps|, x) {
        if InComps(comps, |comps|, x) && x !in comps[n] {
          var j :| 0 <= j < |comps| && x in comps[j];
          assert x in comps[..n][j];
        }
        if InComps(comps[..n], n, x) {
          var j :| 0 <= j < n && x in comps[..n][j];
          assert x in comps[j];
        }
      }
    }
  }

  /** `condensed[i]`: the other components that component i depends on. */
  ghost function CondensedDeps(comps: seq<seq<string>>, g: Graph, i: nat): set<nat> {
    var of := ComponentOf(comps);
    set n, d | n in g.deps && n in of && of[n] == i && d in g.deps[n] && d in of && of[d] != i :: of[d]
  }

  ghost predicate IsCondensed(comps: seq<seq<string>>, g: Graph, condensed: map<nat, set<nat>>) {
    && (forall i: nat :: i in condensed <==> i < |comps|)
    && (forall i :: i in condensed ==> condensed[i] == CondensedDeps(comps, g, i))
  }

  ghost function CondensationOf(comps: seq<seq<string>>, g: Graph): map<nat, set<nat>> {
    map i: nat | i < |comps| :: CondensedDeps(comps, g, i)
  }

  lemma CondensedIs(comps: seq<seq<string>>, g: Graph, condensed: map<nat, set<nat>>)
    requires IsCondensed(comps, g, condensed)
    ensures condensed == CondensationOf(comps, g)
  {
    assert condensed.Keys == CondensationOf(comps, g).Keys;
  }

  function Lines(comp: seq<string>, lines: map<string, nat>): nat
    requires forall x :: x in comp ==> x in lines
  {
    if comp == [] then 0 else lines[comp[0]] + Lines(comp[1..], lines)
  }

  /** What `weight` reads of a component. */
  ghost predicate Weighed(comps: seq<seq<string>>, lines: map<string, nat>) {
    forall i :: 0 <= i < |comps| ==> comps[i] != [] && forall x :: x in comps[i] ==> x in lines
  }

  /** `weight(index)` for every component: source lines, then first member. */
  function Weights(comps: seq<seq<string>>, lines: map<string, nat>): seq<(nat, string)>
    requires Weighed(comps, lines)
  {
    seq(|comps|, i requires 0 <= i < |comps| => (Lines(comps[i], lines), comps[i][0]))
  }

  predicate PairLe(a: (nat, string), b: (nat, string)) {
    a.0 < b.0 || (a.0 == b.0 && StrLe(a.1, b.1))
  }

  /** Component i comes no later than component j when sorting by weight. */
  predicate Lighter(ws: seq<(nat, string)>, i: nat, j: nat) {
    if i < |ws| && j < |ws| then PairLe(ws[i], ws[j]) else i < |ws| || |ws| <= j
  }

  lemma LighterPreorder(ws: seq<(nat, string)>)
    ensures TotalPreorder((i: nat, j: nat) => Lighter(ws, i, j))
  {
    StrLePreorder();
    forall i: nat, j: nat ensures Lighter(ws, i, j) || Lighter(ws, j, i) {
      if i < |ws| && j < |ws| { StrLeTotal(ws[i].1, ws[j].1); }
    }
    forall i: nat, j: nat, k: nat | Lighter(ws, i, j) && Lighter(ws, j, k) ensures Lighter(ws, i, k) {
      if i < |ws| && j < |ws| && k < |ws| && ws[i].0 == ws[j].0 == ws[k].0 {
        StrLeTransitive(ws[i].1, ws[j].1, ws[k].1);
      }
    }
  }

  // ---------- longest dependency chains ----------

  /** There is a chain of k dependencies starting at component i. */
  ghost predicate HasChain(condensed: map<nat, set<nat>>, i: nat, k: nat)
    decreases k
  {
    k == 0 || (i in condensed && exists j :: j in condensed[i] && HasChain(condensed, j, k - 1))
  }

  lemma {:induction false} ShorterChain(condensed: map<nat, set<nat>>, i: nat, k: nat)
    requires HasChain(condensed, i, k + 1)
    ensures HasChain(condensed, i, k)
    decreases k
  {
    if k > 0 {
      var j :| j in condensed[i] && HasChain(condensed, j, k);
      ShorterChain(condensed, j, k - 1);
    }
  }

  /** The longest dependency chain of component i has length r. */
  ghost predicate Longest(condensed: map<nat, set<nat>>, i: nat, r: nat) {
    HasChain(condensed, i, r) && !HasChain(condensed, i, r + 1)
  }

  /** The components below n whose longest chain has length r, in index order. */
  ghost function LevelList(condensed: map<nat, set<nat>>, r: nat, n: nat): seq<nat> {
    if n == 0 then []
    else LevelList(condensed, r, n - 1) + if Longest(condensed, n - 1, r) then [n - 1] else []
  }

  /** `[i for i, deps in remaining.items() if not (deps & remaining.keys())]` */
  ghost function ReadyList(condensed: map<nat, set<nat>>, remaining: set<nat>, n: nat): seq<nat> {
    if n == 0 then []
    else
      ReadyList(condensed, remaining, n - 1)
      + if n - 1 in remaining && n - 1 in condensed && condensed[n - 1] !! remaining then [n - 1] else []
  }

  lemma {:induction false} ReadyMembers(condensed: map<nat, set<nat>>, remaining: set<nat>, n: nat)
    ensures forall i :: i in ReadyList(condensed, remaining, n)
                        <==> i < n && i in remaining && i in condensed && condensed[i] !! remaining
    ensures NoDup(ReadyList(condensed, remaining, n))
  {
    if n > 0 { ReadyMembers(condensed, remaining, n - 1); }
  }

  /** The components not released before round r: those with a chain of length r. */
  ghost predicate AtRound(condensed: map<nat, set<nat>>, n: nat, remaining: set<nat>, r: nat) {
    forall i: nat :: i in remaining <==> i < n && HasChain(condensed, i, r)
  }

  ghost predicate Indexed(condensed: map<nat, set<nat>>, n: nat) {
    && (forall i: nat :: i in condensed <==> i < n)
    && (forall i, j :: i in condensed && j in condensed[i] ==> j < n)
  }

  /** Dependencies come first: what `strongly_connected_components` guarantees. */
  ghost predicate Backward(condensed: map<nat, set<nat>>) {
    forall i, j :: i in condensed && j in condensed[i] ==> j < i
  }

  lemma ReadyIsLongest(condensed: map<nat, set<nat>>, n: nat, remaining: set<nat>, r: nat, i: nat)
    requires Indexed(condensed, n) && AtRound(condensed, n, remaining, r) && i < n
    ensures i in remaining && condensed[i] !! remaining <==> Longest(condensed, i, r)
  {
    assert condensed[i] !! remaining <==> forall j :: j in condensed[i] ==> j !in remaining;
    assert forall j :: j in condensed[i] ==> (j in remaining <==> HasChain(condensed, j, r));
  }

  /** In round r, what is ready is what has a longest chain of length r. */
  lemma {:induction false} ReadyIsLevel(condensed: map<nat, set<nat>>, n: nat, remaining: set<nat>, r: nat, m: nat)
    requires Indexed(condensed, n) && AtRound(condensed, n, remaining, r) && m <= n
    ensures ReadyList(condensed, remaining, m) == LevelList(condensed, r, m)
  {
    if m > 0 {
      ReadyIsLevel(condensed, n, remaining, r, m - 1);
      ReadyIsLongest(condensed, n, remaining, r, m - 1);
    }
  }

  lemma NextRound(condensed: map<nat, set<nat>>, n: nat, remaining: set<nat>, r: nat)
    requires Indexed(condensed, n) && AtRound(condensed, n, remaining, r)
    ensures AtRound(condensed, n, remaining - Elems(ReadyList(condensed, remaining, n)), r + 1)
  {
    ReadyMembers(condensed, remaining, n);
    forall i: nat
      ensures i in remaining - Elems(ReadyList(condensed, remaining, n)) <==> i < n && HasChain(condensed, i, r + 1)
    {
      if i < n {
        ReadyIsLongest(condensed, n, remaining, r, i);
        if HasChain(condensed, i, r + 1) { ShorterChain(condensed, i, r); }
      }
    }
  }

  /** Each index is released after everything it depends on. */
  ghost predicate DepsBefore(condensed: map<nat, set<nat>>, done: seq<nat>) {
    forall p, j :: 0 <= p < |done| && done[p] in condensed && j in condensed[done[p]] ==> j in done[..p]
  }

  /** What the loop of `order_components` knows between two rounds. */
  ghost predicate Progress(n: nat, done: seq<nat>, remaining: set<nat>) {
    && NoDup(done)
    && (forall k :: 0 <= k < |done| ==> done[k] < n)
    && (forall i: nat :: i < n ==> (i in done <==> i !in remaining))
    && (forall i :: i in remaining ==> i < n)
  }

  /** The components can be listed with dependencies first: no cycle among them. */
  ghost predicate Sortable(condensed: map<nat, set<nat>>, n: nat) {
    exists d :: Progress(n, d, {}) && DepsBefore(condensed, d)
  }

  /** Without cycles, the first remaining component of such a listing is ready. */
  lemma SomethingReady(condensed: map<nat, set<nat>>, n: nat, remaining: set<nat>)
    requires Indexed(condensed, n) && Sortable(condensed, n) && remaining != {}
    requires forall i :: i in remaining ==> i < n
    ensures ReadyList(condensed, remaining, n) != []
  {
    var d :| Progress(n, d, {}) && DepsBefore(condensed, d);
    var some :| some in remaining;
    assert some in d;
    var k := 0;
    while d[k] !in remaining
      invariant 0 <= k < |d|
      invariant forall i :: 0 <= i < k ==> d[i] !in remaining
      invariant exists i :: k <= i < |d| && d[i] == some
      decreases |d| - k
    {
      k := k + 1;
    }
    ReadyMembers(condensed, remaining, n);
    forall j | j in condensed[d[k]] ensures j !in remaining {
      assert j in d[..k];
    }
    assert d[k] in ReadyList(condensed, remaining, n);
  }

  ghost function UpTo(n: nat): seq<nat> {
    seq(n, i => i)
  }

  /** Components listed dependencies first have no cycles among them. */
  lemma BackwardIsSortable(condensed: map<nat, set<nat>>, n: nat)
    requires Indexed(condensed, n) && Backward(condensed)
    ensures Sortable(condensed, n)
  {
    var d := UpTo(n);
    forall i: nat | i < n ensures i in d {
      assert d[i] == i;
    }
    forall p, j | 0 <= p < |d| && d[p] in condensed && j in condensed[d[p]] ensures j in d[..p] {
      assert d[..p][j] == j;
    }
    assert Progress(n, d, {}) && DepsBefore(condensed, d);
  }

  // ---------- the condensation ----------

  /** `{i: set() for i in range(n)}` */
  function NoDeps(n: nat): (m: map<nat, set<nat>>)
    ensures forall i: nat :: i in m <==> i < n
    ensures forall i :: i in m ==> m[i] == {}
  {
    if n == 0 then map[] else NoDeps(n - 1)[n - 1 := {}]
  }

  /** An edge from component i to another component c, out of a finished node or among
      the dependencies of the current node already scanned. */
  ghost predicate Contributes(of: map<string, nat>, g: Graph, done: set<string>, scanned: set<string>, node: string,
                              i: nat, c: nat) {
    exists n, d :: n in g.deps && d in g.deps[n] && EdgeBetween(of, n, d, i, c) &&
        (n in done || (n == node && d in scanned))
  }

  ghost predicate EdgeBetween(of: map<string, nat>, n: string, d: string, i: nat, c: nat) {
    n in of && of[n] == i && d in of && of[d] != i && of[d] == c
  }

  lemma ScanOne(of: map<string, nat>, g: Graph, done: set<string>, scanned: set<string>, node: string, dep: string,
                i: nat, c: nat)
    requires node in g.deps && dep in g.deps[node]
    ensures Contributes(of, g, done, scanned + {dep}, node, i, c)
            <==> Contributes(of, g, done, scanned, node, i, c) || EdgeBetween(of, node, dep, i, c)
  {
    if Contributes(of, g, done, scanned, node, i, c) {
      var n, d :| n in g.deps && d in g.deps[n] && EdgeBetween(of, n, d, i, c) &&
          (n in done || (n == node && d in scanned));
      assert EdgeBetween(of, n, d, i, c) && (n in done || (n == node && d in scanned + {dep}));
    }
  }

  lemma NodeDone(of: map<string, nat>, g: Graph, done: set<string>, node: string, next: string, i: nat, c: nat)
    requires node in g.deps
    ensures Contributes(of, g, done + {node}, {}, next, i, c) <==> Contributes(of, g, done, g.deps[node], node, i, c)
  {
  }

  /** The inner loop over the dependencies of one node. */
  method CondenseNode(g: Graph, of: map<string, nat>, node: string, condensed0: map<nat, set<nat>>,
                      ghost done: set<string>)
      returns (condensed: map<nat, set<nat>>)
    requires node in g.deps && node in of && of[node] in condensed0
    requires forall i, c :: i in condensed0 ==> (c in condensed0[i] <==> Contributes(of, g, done, {}, node, i, c))
    ensures condensed.Keys == condensed0.Keys
    ensures forall i, c :: i in condensed ==>
            (c in condensed[i] <==> Contributes(of, g, done, g.deps[node], node, i, c))
  {
    condensed := condensed0;
    var src := of[node];
    var rest := g.deps[node];
    ghost var scanned: set<string> := {};
    while rest != {}
      invariant rest + scanned == g.deps[node]
      invariant condensed.Keys == condensed0.Keys
      invariant forall i, c :: i in condensed ==> (c in condensed[i] <==> Contributes(of, g, done, scanned, node, i, c))
      decreases rest
    {
      var dep :| dep in rest;
      rest := rest - {dep};
      forall i, c
        ensures Contributes(of, g, done, scanned + {dep}, node, i, c)
                <==> Contributes(of, g, done, scanned, node, i, c) || EdgeBetween(of, node, dep, i, c)
      {
        ScanOne(of, g, done, scanned, node, dep, i, c);
      }
      scanned := scanned + {dep};
      if dep in of && of[dep] != src {
        condensed := condensed[src := condensed[src] + {of[dep]}];
      }
    }
    assert scanned == g.deps[node];
  }

  /** The loops that fill `condensed`. */
  method Condense(comps: seq<seq<string>>, g: Graph) returns (condensed: map<nat, set<nat>>)
    requires g.Valid() && forall n :: n in g.deps ==> n in ComponentOf(comps)
    ensures IsCondensed(comps, g, condensed)
  {
    var of := ComponentOf(comps);
    ComponentOfPlaces(comps);
    condensed := NoDeps(|comps|);
    ghost var done: set<string> := {};
    for k := 0 to |g.nodes|
      invariant forall i: nat :: i in condensed <==> i < |comps|
      invariant forall i, c, next :: i in condensed ==>
                (c in condensed[i] <==> Contributes(of, g, done, {}, next, i, c))
      invariant forall j :: 0 <= j < k ==> g.nodes[j] in done
    {
      var node := g.nodes[k];
      assert node in g.nodes;
      condensed := CondenseNode(g, of, node, condensed, done);
      forall i, c, next
        ensures Contributes(of, g, done + {node}, {}, next, i, c) <==>
                Contributes(of, g, done, g.deps[node], node, i, c)
      {
        NodeDone(of, g, done, node, next, i, c);
      }
      done := done + {node};
    }
    assert forall n :: n in g.deps ==> n in g.nodes && n in done;
    forall i | i in condensed ensures condensed[i] == CondensedDeps(comps, g, i) {
      forall c ensures c in condensed[i] <==> c in CondensedDeps(comps, g, i) {
        assert c in condensed[i] <==> Contributes(of, g, done, {}, "", i, c);
        if c in condensed[i] {
          var n, d :| n in g.deps && d in g.deps[n] && EdgeBetween(of, n, d, i, c);
          assert c == of[d];
        }
        if c in CondensedDeps(comps, g, i) {
          var n, d :| n in g.deps && n in of && of[n] == i && d in g.deps[n] && d in of && of[d] != i && of[d] == c;
          assert EdgeBetween(of, n, d, i, c) && n in done;
        }
      }
    }
  }

  // ---------- releasing the rounds ----------

  /** The components named by a list of indices. */
  ghost function Picked(comps: seq<seq<string>>, indices: seq<nat>): seq<seq<string>> {
    seq(|indices|, k requires 0 <= k < |indices| => if indices[k] < |comps| then comps[indices[k]] else [])
  }

  method CollectReady(condensed: map<nat, set<nat>>, remaining: set<nat>, n: nat) returns (ready: seq<nat>)
    requires forall i: nat :: i in condensed <==> i < n
    ensures ready == ReadyList(condensed, remaining, n)
  {
    ready := [];
    for i := 0 to n
      invariant ready == ReadyList(condensed, remaining, i)
    {
      if i in remaining && condensed[i] !! remaining {
        ready := ready + [i];
      }
    }
  }

  /** What is not heavier than the one is lighter than all that the one is lighter than. */
  lemma LighterOf(ws: seq<(nat, string)>, best: nat, i: nat, j: nat)
    ensures Lighter(ws, best, i) || Lighter(ws, i, best)
    ensures Lighter(ws, i, best) && Lighter(ws, best, j) ==> Lighter(ws, i, j)
  {
    LighterPreorder(ws);
    var le := (x: nat, y: nat) => Lighter(ws, x, y);
    assert le(best, i) || le(i, best);
    assert le(i, best) && le(best, j) ==> le(i, j);
  }

  /** `min(remaining, key=weight)`: the first lightest one. */
  method Lightest(ws: seq<(nat, string)>, remaining: set<nat>, n: nat) returns (best: nat)
    requires remaining != {} && n == |ws| && forall i :: i in remaining ==> i < n
    ensures best in remaining && forall i :: i in remaining ==> Lighter(ws, best, i)
  {
    var found := false;
    best := 0;
    for i := 0 to n
      invariant found ==> best in remaining && forall j :: j in remaining && j < i ==> Lighter(ws, best, j)
      invariant !found ==> forall j :: j in remaining ==> j >= i
    {
      if i in remaining {
        LighterOf(ws, i, i, i);
        if !found || !Lighter(ws, best, i) {
          forall j | found && j in remaining && j < i ensures Lighter(ws, i, j) { LighterOf(ws, best, i, j); }
          best, found := i, true;
        }
      }
    }
  }

  lemma ReleaseKeepsOrder(condensed: map<nat, set<nat>>, n: nat, done: seq<nat>, batch: seq<nat>, remaining: set<nat>)
    requires Indexed(condensed, n) && DepsBefore(condensed, done)
    requires forall i: nat :: i < n ==> (i in done <==> i !in remaining)
    requires forall i :: i in batch ==> i in condensed && condensed[i] !! remaining
    ensures DepsBefore(condensed, done + batch)
  {
    var all := done + batch;
    forall p, j | 0 <= p < |all| && all[p] in condensed && j in condensed[all[p]] ensures j in all[..p] {
      if p < |done| {
        assert all[..p] == done[..p];
      } else {
        assert all[p] in batch && j !in remaining && j in done;
        assert all[..p] == done + batch[..p - |done|];
      }
    }
  }

  /** One round: append the batch to the plan and delete it from `remaining`. */
  method Release(comps: seq<seq<string>>, remaining0: set<nat>, ordered0: seq<seq<string>>, batch: seq<nat>)
      returns (remaining: set<nat>, ordered: seq<seq<string>>)
    requires forall k :: 0 <= k < |batch| ==> batch[k] < |comps|
    ensures remaining == remaining0 - Elems(batch)
    ensures ordered == ordered0 + Picked(comps, batch)
  {
    remaining, ordered := remaining0, ordered0;
    for k := 0 to |batch|
      invariant remaining == remaining0 - Elems(batch[..k])
      invariant ordered == ordered0 + Picked(comps, batch)[..k]
    {
      assert batch[..k + 1] == batch[..k] + [batch[k]];
      assert batch[k] in batch;
      assert Picked(comps, batch)[..k + 1] == Picked(comps, batch)[..k] + [comps[batch[k]]];
      ordered := ordered + [comps[batch[k]]];
      remaining := remaining - {batch[k]};
    }
    assert batch[..|batch|] == batch;
  }

  /** The rounds, concatenated. */
  ghost function Concat(rounds: seq<seq<nat>>): seq<nat> {
    if rounds == [] then [] else Concat(rounds[..|rounds| - 1]) + rounds[|rounds| - 1]
  }

  ghost predicate RoundsAreLevels(condensed: map<nat, set<nat>>, ws: seq<(nat, string)>, rounds: seq<seq<nat>>) {
    forall r :: 0 <= r < |rounds| ==>
      rounds[r] == Sort(LevelList(condensed, r, |ws|), (i: nat, j: nat) => Lighter(ws, i, j)) && rounds[r] != []
  }

  lemma PickedConcat(comps: seq<seq<string>>, a: seq<nat>, b: seq<nat>)
    requires forall k :: 0 <= k < |a| ==> a[k] < |comps|
    requires forall k :: 0 <= k < |b| ==> b[k] < |comps|
    ensures Picked(comps, a + b) == Picked(comps, a) + Picked(comps, b)
  {
  }

  lemma BatchProgress(n: nat, done: seq<nat>, remaining: set<nat>, batch: seq<nat>)
    requires Progress(n, done, remaining) && NoDup(batch) && forall i :: i in batch ==> i in remaining
    ensures Progress(n, done + batch, remaining - Elems(batch))
  {
    var all := done + batch;
    forall i, j | 0 <= i < j < |all| ensures all[i] != all[j] {
      if i < |done| <= j {
        assert all[i] in done && all[j] in batch;
      }
    }
    forall k | 0 <= k < |all| ensures all[k] < n {
      if k >= |done| { assert all[k] in batch; }
    }
  }

  lemma SortedBatch(ready: seq<nat>, ws: seq<(nat, string)>)
    requires NoDup(ready)
    ensures var batch := Sort(ready, (i: nat, j: nat) => Lighter(ws, i, j));
            NoDup(batch) && |batch| == |ready| && (forall i :: i in batch <==> i in ready)
  {
    var le := (i: nat, j: nat) => Lighter(ws, i, j);
    SortKeepsNoDup(ready, le);
    SortMembers(ready, le);
    SortPermutes(ready, le);
  }

  /** The rounds as long as no cycle forced the fallback. */
  ghost predicate RoundsOk(condensed: map<nat, set<nat>>, ws: seq<(nat, string)>, rounds: seq<seq<nat>>, done: seq<nat>,
                           remaining: set<nat>) {
    && RoundsAreLevels(condensed, ws, rounds)
    && Concat(rounds) == done
    && AtRound(condensed, |ws|, remaining, |rounds|)
    && DepsBefore(condensed, done)
  }

  lemma LevelsAppend(condensed: map<nat, set<nat>>, ws: seq<(nat, string)>, rounds: seq<seq<nat>>, batch: seq<nat>)
    requires RoundsAreLevels(condensed, ws, rounds) && batch != []
    requires batch == Sort(LevelList(condensed, |rounds|, |ws|), (i: nat, j: nat) => Lighter(ws, i, j))
    ensures RoundsAreLevels(condensed, ws, rounds + [batch])
    ensures Concat(rounds + [batch]) == Concat(rounds) + batch
  {
    assert (rounds + [batch])[..|rounds|] == rounds;
  }

  lemma NextRoundOk(condensed: map<nat, set<nat>>, ws: seq<(nat, string)>, rounds: seq<seq<nat>>, done: seq<nat>,
                    remaining: set<nat>)
    requires Indexed(condensed, |ws|) && Progress(|ws|, done, remaining)
    requires RoundsOk(condensed, ws, rounds, done, remaining)
    requires ReadyList(condensed, remaining, |ws|) != []
    ensures var batch := Sort(ReadyList(condensed, remaining, |ws|), (i: nat, j: nat) => Lighter(ws, i, j));
            RoundsOk(condensed, ws, rounds + [batch], done + batch, remaining - Elems(batch))
  {
    var n := |ws|;
    var ready := ReadyList(condensed, remaining, n);
    var batch := Sort(ready, (i: nat, j: nat) => Lighter(ws, i, j));
    ReadyMembers(condensed, remaining, n);
    SortedBatch(ready, ws);
    ReadyIsLevel(condensed, n, remaining, |rounds|, n);
    LevelsAppend(condensed, ws, rounds, batch);
    assert Elems(batch) == Elems(ready);
    NextRound(condensed, n, remaining, |rounds|);
    assert |rounds + [batch]| == |rounds| + 1;
    ReleaseKeepsOrder(condensed, n, done, batch, remaining);
  }

  // ---------- when the components can be listed dependencies first ----------

  /** A chain of dependencies: each component depends on the next one. */
  ghost predicate IsChain(condensed: map<nat, set<nat>>, p: seq<nat>) {
    forall i :: 0 <= i < |p| - 1 ==> p[i] in condensed && p[i + 1] in condensed[p[i]]
  }

  /** Some component depends on itself, through others or not. */
  ghost predicate HasCycle(condensed: map<nat, set<nat>>) {
    exists p :: |p| >= 2 && p[0] == p[|p| - 1] && IsChain(condensed, p)
  }

  lemma PartOfChain(condensed: map<nat, set<nat>>, p: seq<nat>, a: nat, b: nat)
    requires IsChain(condensed, p) && a <= b <= |p|
    ensures IsChain(condensed, p[a..b])
  {
    var q := p[a..b];
    forall i | 0 <= i < |q| - 1 ensures q[i] in condensed && q[i + 1] in condensed[q[i]] {
      assert q[i] == p[a + i] && q[i + 1] == p[a + i + 1];
    }
  }

  /** In a listing with dependencies first, a chain goes back at every link. */
  lemma {:induction false} ChainGoesBack(condensed: map<nat, set<nat>>, n: nat, d: seq<nat>, p: seq<nat>)
    requires Indexed(condensed, n) && Progress(n, d, {}) && DepsBefore(condensed, d)
    requires |p| >= 2 && IsChain(condensed, p)
    ensures exists a, b :: 0 <= b < a < |d| && d[a] == p[0] && d[b] == p[|p| - 1]
  {
    var a := ListedAt(condensed, n, d, p[0]);
    assert p[1] in condensed[p[0]] && p[1] in d[..a];
    var m :| 0 <= m < a && d[m] == p[1];
    if |p| > 2 {
      var q := p[1..];
      PartOfChain(condensed, p, 1, |p|);
      assert p[1..|p|] == q;
      ChainGoesBack(condensed, n, d, q);
      var c, b :| 0 <= b < c < |d| && d[c] == q[0] && d[b] == q[|q| - 1];
      assert c == m;
    }
  }

  lemma ListedAt(condensed: map<nat, set<nat>>, n: nat, d: seq<nat>, i: nat) returns (a: nat)
    requires Indexed(condensed, n) && Progress(n, d, {}) && i in condensed
    ensures a < |d| && d[a] == i
  {
    assert i in d;
    a :| 0 <= a < |d| && d[a] == i;
  }

  /** A long chain as a list of components. */
  lemma {:induction false} ChainOf(condensed: map<nat, set<nat>>, i: nat, k: nat) returns (p: seq<nat>)
    requires HasChain(condensed, i, k)
    ensures |p| == k + 1 && p[0] == i && IsChain(condensed, p)
    decreases k
  {
    if k == 0 {
      p := [i];
    } else {
      var j :| j in condensed[i] && HasChain(condensed, j, k - 1);
      var q := ChainOf(condensed, j, k - 1);
      p := [i] + q;
    }
  }

  lemma {:induction false} ChainInRange(condensed: map<nat, set<nat>>, n: nat, p: seq<nat>, k: nat)
    requires Indexed(condensed, n) && IsChain(condensed, p) && k < |p| && p[0] < n
    ensures p[k] < n
    decreases k
  {
    if k > 0 { ChainInRange(condensed, n, p, k - 1); }
  }

  /** A chain with as many links as there are components visits one of them twice. */
  lemma LongChainCycles(condensed: map<nat, set<nat>>, n: nat, i: nat)
    requires Indexed(condensed, n) && i < n && HasChain(condensed, i, n)
    ensures HasCycle(condensed)
  {
    var p := ChainOf(condensed, i, n);
    forall k | 0 <= k < |p| ensures p[k] in AllIndices(n) { ChainInRange(condensed, n, p, k); }
    if NoDup(p) {
      NoDupSize(p);
      UpToSize(n);
      SubsetSize(Elems(p), AllIndices(n));
    }
    var a, b :| 0 <= a < b < |p| && p[a] == p[b];
    var q := p[a..b + 1];
    PartOfChain(condensed, p, a, b + 1);
    assert q[0] == q[|q| - 1];
  }

  lemma {:induction false} SubsetSize<T>(a: set<T>, b: set<T>)
    requires a <= b
    ensures |a| <= |b|
  {
    if a != {} {
      var x :| x in a;
      SubsetSize(a - {x}, b - {x});
    }
  }

  /** Releasing what is ready in a round. */
  lemma ReleaseRound(condensed: map<nat, set<nat>>, n: nat, done: seq<nat>, remaining: set<nat>, r: nat)
    requires Indexed(condensed, n) && Progress(n, done, remaining) && DepsBefore(condensed, done)
    requires AtRound(condensed, n, remaining, r)
    ensures var ready := ReadyList(condensed, remaining, n);
            && Progress(n, done + ready, remaining - Elems(ready)) && DepsBefore(condensed, done + ready)
            && AtRound(condensed, n, remaining - Elems(ready), r + 1)
  {
    var ready := ReadyList(condensed, remaining, n);
    ReadyMembers(condensed, remaining, n);
    NextRound(condensed, n, remaining, r);
    ReleaseKeepsOrder(condensed, n, done, ready, remaining);
    BatchProgress(n, done, remaining, ready);
  }

  /** Without long chains, releasing round by round lists everything dependencies first. */
  lemma {:induction false} ReleaseAll(condensed: map<nat, set<nat>>, n: nat, done: seq<nat>, remaining: set<nat>,
                                      r: nat)
    requires Indexed(condensed, n) && Progress(n, done, remaining) && DepsBefore(condensed, done)
    requires AtRound(condensed, n, remaining, r) && r <= n && forall i: nat :: i < n ==> !HasChain(condensed, i, n)
    ensures Sortable(condensed, n)
    decreases n - r
  {
    if r == n {
      assert remaining == {};
    } else {
      var ready := ReadyList(condensed, remaining, n);
      ReleaseRound(condensed, n, done, remaining, r);
      ReleaseAll(condensed, n, done + ready, remaining - Elems(ready), r + 1);
    }
  }

  /** The components can be listed dependencies first if and only if no component depends
      on itself through others. */
  lemma SortableIsAcyclic(condensed: map<nat, set<nat>>, n: nat)
    requires Indexed(condensed, n)
    ensures Sortable(condensed, n) <==> !HasCycle(condensed)
  {
    if Sortable(condensed, n) && HasCycle(condensed) {
      var d :| Progress(n, d, {}) && DepsBefore(condensed, d);
      var p :| |p| >= 2 && p[0] == p[|p| - 1] && IsChain(condensed, p);
      ChainGoesBack(condensed, n, d, p);
      assert false;
    }
    if !HasCycle(condensed) {
      forall i: nat | i < n ensures !HasChain(condensed, i, n) {
        if HasChain(condensed, i, n) { LongChainCycles(condensed, n, i); }
      }
      assert forall i :: i in AllIndices(n) ==> i < n;
      ReleaseAll(condensed, n, [], AllIndices(n), 0);
    }
  }

  // ---------- the result in one expression ----------

  /** The components level by level, each level by weight, for the first r levels. */
  ghost function LevelOrder(condensed: map<nat, set<nat>>, ws: seq<(nat, string)>, r: nat): seq<nat> {
    if r == 0 then []
    else
      LevelOrder(condensed, ws, r - 1)
      + Sort(LevelList(condensed, r - 1, |ws|), (i: nat, j: nat) => Lighter(ws, i, j))
  }

  lemma {:induction false} RoundsAreLevelOrder(condensed: map<nat, set<nat>>, ws: seq<(nat, string)>,
                                               rounds: seq<seq<nat>>)
    requires RoundsAreLevels(condensed, ws, rounds)
    ensures Concat(rounds) == LevelOrder(condensed, ws, |rounds|) && |Concat(rounds)| >= |rounds|
  {
    if rounds != [] { RoundsAreLevelOrder(condensed, ws, rounds[..|rounds| - 1]); }
  }

  lemma {:induction false} NoLongerChain(condensed: map<nat, set<nat>>, i: nat, k: nat, r: nat)
    requires !HasChain(condensed, i, k) && k <= r
    ensures !HasChain(condensed, i, r)
    decreases r
  {
    if k < r {
      NoLongerChain(condensed, i, k, r - 1);
      if HasChain(condensed, i, r) { ShorterChain(condensed, i, r - 1); }
    }
  }

  lemma {:induction false} NoSuchLevel(condensed: map<nat, set<nat>>, k: nat, r: nat, m: nat)
    requires k <= r && forall i: nat :: i < m ==> !HasChain(condensed, i, k)
    ensures LevelList(condensed, r, m) == []
  {
    if m > 0 {
      NoSuchLevel(condensed, k, r, m - 1);
      NoLongerChain(condensed, m - 1, k, r);
    }
  }

  /** Once every component is released, further levels are empty. */
  lemma {:induction false} LevelOrderEnds(condensed: map<nat, set<nat>>, ws: seq<(nat, string)>, k: nat, r: nat)
    requires k <= r && forall i: nat :: i < |ws| ==> !HasChain(condensed, i, k)
    ensures LevelOrder(condensed, ws, r) == LevelOrder(condensed, ws, k)
    decreases r
  {
    if k < r {
      LevelOrderEnds(condensed, ws, k, r - 1);
      NoSuchLevel(condensed, k, r - 1, |ws|);
    }
  }

  lemma {:induction false} UpToSize(n: nat)
    ensures |AllIndices(n)| == n
  {
    if n > 0 { UpToSize(n - 1); }
  }

  lemma NotTooMany(n: nat, done: seq<nat>)
    requires Progress(n, done, {})
    ensures |done| == n
  {
    NoDupSize(done);
    UpToSize(n);
    assert Elems(done) == AllIndices(n);
  }

  lemma ResultInLevels(condensed: map<nat, set<nat>>, ws: seq<(nat, string)>, rounds: seq<seq<nat>>, done: seq<nat>)
    requires RoundsOk(condensed, ws, rounds, done, {}) && Progress(|ws|, done, {})
    ensures done == LevelOrder(condensed, ws, |ws|)
  {
    RoundsAreLevelOrder(condensed, ws, rounds);
    NotTooMany(|ws|, done);
    LevelOrderEnds(condensed, ws, |rounds|, |ws|);
  }

  /** The first element of one arrangement, removed from both. */
  lemma RemoveFirst(a: seq<nat>, b: seq<nat>) returns (j: nat)
    requires a != [] && multiset(a) == multiset(b)
    ensures j < |b| && b[j] == a[0] && multiset(a[1..]) == multiset(b[..j] + b[j + 1..])
  {
    assert a[0] in multiset(b);
    j :| 0 <= j < |b| && b[j] == a[0];
    assert a == [a[0]] + a[1..] && b == b[..j] + [b[j]] + b[j + 1..];
    assert multiset(a) == multiset{a[0]} + multiset(a[1..]);
    assert multiset(b) == multiset(b[..j]) + multiset{a[0]} + multiset(b[j + 1..]);
    assert multiset(a[1..]) == multiset(a) - multiset{a[0]};
  }

  lemma PickedAround(comps: seq<seq<string>>, b: seq<nat>, j: nat)
    requires j < |b|
    ensures multiset(Picked(comps, b)) == multiset(Picked(comps, b[..j] + b[j + 1..])) + multiset(Picked(comps, [b[j]]))
  {
    assert Picked(comps, b) == Picked(comps, b[..j]) + Picked(comps, [b[j]]) + Picked(comps, b[j + 1..]);
    assert Picked(comps, b[..j] + b[j + 1..]) == Picked(comps, b[..j]) + Picked(comps, b[j + 1..]);
  }

  lemma PickedHead(comps: seq<seq<string>>, a: seq<nat>)
    requires a != []
    ensures multiset(Picked(comps, a)) == multiset(Picked(comps, a[1..])) + multiset(Picked(comps, [a[0]]))
  {
    assert Picked(comps, a) == Picked(comps, [a[0]]) + Picked(comps, a[1..]);
  }

  /** Putting the same index back into both. */
  lemma PickedBack(comps: seq<seq<string>>, a: seq<nat>, b: seq<nat>, j: nat)
    requires a != [] && j < |b| && b[j] == a[0]
    requires multiset(Picked(comps, a[1..])) == multiset(Picked(comps, b[..j] + b[j + 1..]))
    ensures multiset(Picked(comps, a)) == multiset(Picked(comps, b))
  {
    PickedHead(comps, a);
    PickedAround(comps, b, j);
  }

  lemma {:induction false} PickedPermutes(comps: seq<seq<string>>, a: seq<nat>, b: seq<nat>)
    requires multiset(a) == multiset(b)
    ensures multiset(Picked(comps, a)) == multiset(Picked(comps, b))
  {
    if a == [] {
      assert |multiset(b)| == 0;
    } else {
      var j := RemoveFirst(a, b);
      PickedPermutes(comps, a[1..], b[..j] + b[j + 1..]);
      PickedBack(comps, a, b, j);
    }
  }

  lemma AllPicked(comps: seq<seq<string>>, done: seq<nat>)
    requires Progress(|comps|, done, {})
    ensures multiset(Picked(comps, done)) == multiset(comps)
  {
    var all := UpTo(|comps|);
    assert forall i: nat :: i < |comps| ==> all[i] == i;
    forall x: nat ensures multiset(done)[x] == multiset(all)[x] {
      NoDupCountsOnce(done, x);
      NoDupCountsOnce(all, x);
      if x < |comps| { assert all[x] == x; }
    }
    PickedPermutes(comps, done, all);
    assert Picked(comps, all) == comps;
  }

  /** Releasing a batch makes progress, and appends its components. */
  lemma RoundKeeps(comps: seq<seq<string>>, done: seq<nat>, remaining: set<nat>, batch: seq<nat>)
    requires Progress(|comps|, done, remaining)
    requires batch != [] && NoDup(batch) && forall i :: i in batch ==> i in remaining
    ensures Progress(|comps|, done + batch, remaining - Elems(batch)) && remaining - Elems(batch) < remaining
    ensures Picked(comps, done + batch) == Picked(comps, done) + Picked(comps, batch)
    ensures forall k :: 0 <= k < |batch| ==> batch[k] < |comps|
  {
    BatchProgress(|comps|, done, remaining, batch);
    assert batch[0] in batch && batch[0] in remaining;
    forall k | 0 <= k < |batch| ensures batch[k] < |comps| { assert batch[k] in batch; }
    PickedConcat(comps, done, batch);
  }

  /** `order_components`. The fallback is taken exactly when there is a cycle among the
      components; without one, round r releases the components whose longest dependency
      chain has length r, lightest first. In all cases the result is a permutation of the components. */
  method OrderComponents(comps: seq<seq<string>>, g: Graph, lines: map<string, nat>)
      returns (ordered: seq<seq<string>>, ghost condensed: map<nat, set<nat>>, ghost rounds: seq<seq<nat>>,
               ghost done: seq<nat>, ghost fallbacks: nat)
    requires g.Valid() && Weighed(comps, lines)
    requires forall n :: n in g.deps ==> n in ComponentOf(comps)
    ensures IsCondensed(comps, g, condensed)
    ensures Progress(|comps|, done, {}) && ordered == Picked(comps, done)
    ensures fallbacks == 0 ==> RoundsOk(condensed, Weights(comps, lines), rounds, done, {})
    ensures fallbacks == 0 <==> !HasCycle(CondensationOf(comps, g))
    ensures multiset(ordered) == multiset(comps)
    ensures !HasCycle(CondensationOf(comps, g)) ==>
              ordered == Picked(comps, LevelOrder(CondensationOf(comps, g), Weights(comps, lines), |comps|))
  {
    var cond := Condense(comps, g);
    condensed := cond;
    var ws := Weights(comps, lines);
    var n := |comps|;
    ComponentOfPlaces(comps);
    assert Indexed(condensed, n);
    ghost var le := (i: nat, j: nat) => Lighter(ws, i, j);
    var remaining := AllIndices(n);
    ordered, rounds, done, fallbacks := [], [], [], 0;
    while remaining != {}
      invariant Progress(n, done, remaining) && ordered == Picked(comps, done)
      invariant fallbacks == 0 ==> RoundsOk(condensed, ws, rounds, done, remaining)
      invariant Sortable(condensed, n) ==> fallbacks == 0
      decreases remaining
    {
      var ready := CollectReady(cond, remaining, n);
      ReadyMembers(condensed, remaining, n);
      if Sortable(condensed, n) { SomethingReady(condensed, n, remaining); }
      if fallbacks == 0 && ready != [] { NextRoundOk(condensed, ws, rounds, done, remaining); }
      if ready == [] {
        var best := Lightest(ws, remaining, n);
        ready := [best];
        fallbacks := fallbacks + 1;
      }
      SortedBatch(ready, ws);
      var batch := Sort(ready, (i: nat, j: nat) => Lighter(ws, i, j));
      RoundKeeps(comps, done, remaining, batch);
      remaining, ordered := Release(comps, remaining, ordered, batch);
      done, rounds := done + batch, rounds + [batch];
    }
    CondensedIs(comps, g, condensed);
    SortableIsAcyclic(condensed, n);
    AllPicked(comps, done);
    if fallbacks == 0 { ResultInLevels(condensed, ws, rounds, done); }
  }

  function AllIndices(n: nat): (s: set<nat>)
    ensures forall i: nat :: i in s <==> i < n
  {
    if n == 0 then {} else AllIndices(n - 1) + {n - 1}
  }

  // ---------- on the output of the SCC function ----------

  lemma OneComponent(comps: seq<seq<string>>, i: nat, x: string)
    requires Listed(comps) && i < |comps| && x in comps[i]
    ensures x in ComponentOf(comps) && ComponentOf(comps)[x] == i
  {
    ComponentOfPlaces(comps);
    assert InComps(comps, |comps|, x);
    var j := ComponentOf(comps)[x];
    assert x in comps[j];
  }

  /** The condensation of the strongly connected components is acyclic, so the branch
      that "should not happen" does not. */
  lemma SccsAreSortable(g: Graph, comps: seq<seq<string>>, condensed: map<nat, set<nat>>)
    requires SccList(g, comps) && IsCondensed(comps, g, condensed)
    ensures Indexed(condensed, |comps|) && Backward(condensed) && !HasCycle(condensed)
  {
    var of := ComponentOf(comps);
    ComponentOfPlaces(comps);
    forall i, j | i in condensed && j in condensed[i] ensures j < i && j < |comps| {
      var n, d :| n in g.deps && n in of && of[n] == i && d in g.deps[n] && d in of && of[d] != i && of[d] == j;
      assert n in comps[i] && d in g.Succ(n);
      assert InComps(comps, i + 1, d);
      var m :| 0 <= m < i + 1 && m < |comps| && d in comps[m];
      OneComponent(comps, m, d);
    }
    BackwardIsSortable(condensed, |comps|);
    SortableIsAcyclic(condensed, |comps|);
  }

  lemma OrderedListed(comps: seq<seq<string>>, done: seq<nat>)
    requires Listed(comps) && Progress(|comps|, done, {})
    ensures Listed(Picked(comps, done))
  {
    var o := Picked(comps, done);
    forall p, q, x | 0 <= p < q < |o| && x in o[p] ensures x !in o[q] {
      assert done[p] != done[q];
      assert done[p] < done[q] || done[q] < done[p];
    }
  }

  lemma OrderedDepsFirst(g: Graph, comps: seq<seq<string>>, condensed: map<nat, set<nat>>, done: seq<nat>)
    requires g.Valid() && SccList(g, comps) && IsCondensed(comps, g, condensed)
    requires Progress(|comps|, done, {}) && DepsBefore(condensed, done)
    ensures DepsFirst(g, Picked(comps, done))
  {
    var o := Picked(comps, done);
    var of := ComponentOf(comps);
    forall p, x, y | 0 <= p < |o| && x in o[p] && y in g.Succ(x) ensures InComps(o, p + 1, y) {
      var i := done[p];
      OneComponent(comps, i, x);
      assert InComps(comps, i + 1, y);
      var m :| 0 <= m < i + 1 && m < |comps| && y in comps[m];
      OneComponent(comps, m, y);
      if m == i {
        assert y in o[p];
      } else {
        assert m in condensed[i];
        assert m in done[..p];
        var q :| 0 <= q < p && done[..p][q] == m;
        assert y in o[q];
      }
    }
  }

  /** The order of `order_components` still lists the components dependencies first. */
  lemma OrderedSccs(g: Graph, comps: seq<seq<string>>, condensed: map<nat, set<nat>>, done: seq<nat>)
    requires g.Valid() && SccList(g, comps) && IsCondensed(comps, g, condensed)
    requires Progress(|comps|, done, {}) && DepsBefore(condensed, done)
    ensures SccList(g, Picked(comps, done))
    ensures forall x :: InComps(comps, |comps|, x) <==> InComps(Picked(comps, done), |done|, x)
  {
    OrderedListed(comps, done);
    OrderedDepsFirst(g, comps, condensed, done);
    var o := Picked(comps, done);
    forall x ensures InComps(comps, |comps|, x) <==> InComps(o, |done|, x) {
      if InComps(comps, |comps|, x) {
        var i :| 0 <= i < |comps| && x in comps[i];
        assert i in done;
        var p :| 0 <= p < |done| && done[p] == i;
        assert x in o[p];
      }
      if InComps(o, |done|, x) {
        var p :| 0 <= p < |done| && x in o[p];
        assert x in comps[done[p]];
      }
    }
  }
}
