/** What pruning and looking up do to the session table, told without the functions that
    compute it. */
module Lookups {
  import opened Options
  import opened Sorting
  import opened Sessions

  // ---------- pruning ----------

  /** An idle session without queued work that has been quiet for more than half an hour. */
  predicate IsStale(e: Entry, now: int) {
    e.state == Idle && e.queueDepth <= 0 && now - e.lastActivity > 1800000
  }

  function Fresh(t: Table, now: int): set<string> {
    set k | k in t.entries && !IsStale(t.entries[k], now)
  }

  /** a was active before b, or as late and is before it in the dictionary. */
  ghost predicate Earlier(t: Table, a: string, b: string)
    requires a in t.entries && b in t.entries
  {
    || t.entries[a].lastActivity < t.entries[b].lastActivity
    || (t.entries[a].lastActivity == t.entries[b].lastActivity && Precedes(t.order, a, b))
  }

  /** `u` keeps the 2000 latest of the fresh entries of `t`, unchanged and in their order. */
  ghost predicate PrunedTo(t: Table, now: int, u: Table) {
    && u.Valid() && u.lastPrune == now
    && u.entries.Keys <= Fresh(t, now)
    && |u.entries.Keys| == (if |Fresh(t, now)| <= 2000 then |Fresh(t, now)| else 2000)
    && (forall k :: k in u.entries ==> u.entries[k] == t.entries[k])
    && (forall a, b :: Precedes(u.order, a, b) ==> Precedes(t.order, a, b))
    && (forall a, b :: a in Fresh(t, now) && a !in u.entries && b in u.entries ==> Earlier(t, a, b))
  }

  lemma {:induction false} WithoutPrecedes(order: seq<string>, drop: set<string>, a: string, b: string)
    requires Precedes(Without(order, drop), a, b)
    ensures Precedes(order, a, b)
  {
    if order == [] {
      assert false;
    } else {
      var rest := Without(order[1..], drop);
      var i, j :| 0 <= i < j < |Without(order, drop)| && Without(order, drop)[i] == a && Without(order, drop)[j] == b;
      if order[0] in drop {
        WithoutPrecedes(order[1..], drop, a, b);
        PrecedesInRest(order, a, b);
      } else if i > 0 {
        assert rest[i - 1] == a && rest[j - 1] == b;
        WithoutPrecedes(order[1..], drop, a, b);
        PrecedesInRest(order, a, b);
      } else {
        assert rest[j - 1] == b && b in rest;
        WithoutMembers(order[1..], drop);
        var k :| 0 <= k < |order[1..]| && order[1..][k] == b;
        assert order[0] == a && order[k + 1] == b;
      }
    }
  }

  lemma PrecedesInRest(order: seq<string>, a: string, b: string)
    requires order != [] && Precedes(order[1..], a, b)
    ensures Precedes(order, a, b)
  {
    assert order == [order[0]] + order[1..];
    PrecedesBehind(order[0], order[1..], a, b);
  }

  lemma OneFirst(order: seq<string>, a: string, b: string)
    requires a in order && b in order && a != b
    ensures Precedes(order, a, b) || Precedes(order, b, a)
  {
    var i :| 0 <= i < |order| && order[i] == a;
    var j :| 0 <= j < |order| && order[j] == b;
  }

  lemma NotBoth(order: seq<string>, a: string, b: string)
    requires NoDup(order) && Precedes(order, a, b)
    ensures !Precedes(order, b, a) && a != b
  {
  }

  /** What is in front of an evicted key in the sorted order is evicted too. */
  lemma PrefixIsClosed(s: seq<string>, n: nat, a: string, b: string)
    requires NoDup(s) && n <= |s| && Precedes(s, b, a) && a in s[..n]
    ensures b in s[..n]
  {
    var i, j :| 0 <= i < j < |s| && s[i] == b && s[j] == a;
    var k :| 0 <= k < n && s[..n][k] == a;
    assert s[k] == a;
    assert s[..n][i] == b;
  }

  /** Of two entries active at the same time the eviction does not take the later one alone. */
  lemma EvictsTie(t: Table, a: string, b: string)
    requires t.Valid() && a in Evicted(t) && a in t.entries && b in t.entries
    requires t.entries[a].lastActivity == t.entries[b].lastActivity && Precedes(t.order, b, a)
    ensures b in Evicted(t)
  {
    EvictedSize(t);
    ByActivitySorts(t);
    var n := |Evicted(t)|;
    assert Evicted(t) == ByActivity(t)[..n];
    var i, j :| 0 <= i < j < |t.order| && t.order[i] == b && t.order[j] == a;
    SortStable(t.order, (x: string, y: string) => OlderEq(t.entries, x, y), i, j);
    PrefixIsClosed(ByActivity(t), n, a, b);
  }

  /** The size eviction takes the entries that come first by activity and then by position. */
  lemma EvictsEarlier(t: Table, a: string, b: string)
    requires t.Valid() && a in Evicted(t) && b in t.entries && b !in Evicted(t)
    ensures a in t.entries && Earlier(t, a, b)
  {
    EvictedSize(t);
    ByActivitySorts(t);
    EvictionExact(t);
    assert a in Elems(Evicted(t));
    OneFirst(t.order, a, b);
    if t.entries[a].lastActivity == t.entries[b].lastActivity && !Precedes(t.order, a, b) { EvictsTie(t, a, b); }
  }

  lemma StaleIs(t: Table, now: int)
    ensures StaleKeys(t, now) == t.entries.Keys - Fresh(t, now)
  {
  }

  lemma KeysSize(t: Table)
    requires t.Valid()
    ensures |t.order| == |t.entries.Keys|
  {
    NoDupSize(t.order);
    assert Elems(t.order) == t.entries.Keys;
  }

  /** Removing what is stale leaves what is fresh. */
  lemma ExpireLeavesFresh(t: Table, now: int)
    requires t.Valid()
    ensures Expire(t, now).Valid() && Expire(t, now).entries.Keys == Fresh(t, now)
    ensures |Expire(t, now).order| == |Fresh(t, now)|
  {
    StaleIs(t, now);
    DropValid(t.(lastPrune := now), StaleKeys(t, now));
    KeysSize(Expire(t, now));
  }

  lemma DropPrecedes(t: Table, now: int, a: string, b: string)
    requires t.Valid() && Precedes(Prune(t, now, true).order, a, b)
    ensures Precedes(t.order, a, b)
    ensures Precedes(Expire(t, now).order, a, b)
  {
    var t1 := Expire(t, now);
    WithoutPrecedes(t1.order, (set k | k in Evicted(t1)), a, b);
    WithoutPrecedes(t.order, StaleKeys(t, now), a, b);
  }

  lemma ForcedPruneSize(t: Table, now: int)
    requires t.Valid()
    ensures var u := Prune(t, now, true);
            && u.Valid() && u.entries.Keys == Fresh(t, now) - Elems(Evicted(Expire(t, now)))
            && |u.entries.Keys| == (if |Fresh(t, now)| <= 2000 then |Fresh(t, now)| else 2000)
  {
    var t1, u := Expire(t, now), Prune(t, now, true);
    PruneRestricts(t, now, true);
    ExpireLeavesFresh(t, now);
    EvictedSize(t1);
    assert (set k | k in Evicted(t1)) == Elems(Evicted(t1));
    assert u.entries.Keys == Fresh(t, now) - Elems(Evicted(t1));
    assert Fresh(t, now) == u.entries.Keys + Elems(Evicted(t1));
  }

  /** A forced pruning keeps the 2000 latest of the entries that are not stale. */
  lemma ForcedPruneMeans(t: Table, now: int)
    requires t.Valid()
    ensures PrunedTo(t, now, Prune(t, now, true))
  {
    var t1, u := Expire(t, now), Prune(t, now, true);
    PruneRestricts(t, now, true);
    ForcedPruneSize(t, now);
    ExpireLeavesFresh(t, now);
    forall a, b | Precedes(u.order, a, b) ensures Precedes(t.order, a, b) { DropPrecedes(t, now, a, b); }
    forall a, b | a in Fresh(t, now) && a !in u.entries && b in u.entries ensures Earlier(t, a, b) {
      EvictsEarlier(t1, a, b);
      if Precedes(t1.order, a, b) { WithoutPrecedes(t.order, StaleKeys(t, now), a, b); }
    }
  }

  /** Pruning without force waits a minute after the last pruning, unless there are more
      than 2000 entries; otherwise it keeps the 2000 latest of the entries not stale. */
  lemma PruneMeans(t: Table, now: int, force: bool)
    requires t.Valid()
    ensures var u := Prune(t, now, force);
            if !force && |t.entries.Keys| <= 2000 && now - t.lastPrune < 60000 then u == t else PrunedTo(t, now, u)
  {
    KeysSize(t);
    ForcedPruneMeans(t, now);
  }

  lemma KeptTheSame(t: Table, now: int, u: Table, v: Table)
    requires t.Valid() && PrunedTo(t, now, u) && PrunedTo(t, now, v)
    ensures u.entries.Keys <= v.entries.Keys
  {
    if a :| a in u.entries.Keys && a !in v.entries.Keys {
      if v.entries.Keys <= u.entries.Keys {
        SubsetOfSameSize(v.entries.Keys, u.entries.Keys);
      } else {
        var b :| b in v.entries.Keys && b !in u.entries.Keys;
        assert Earlier(t, a, b) && Earlier(t, b, a);
        if Precedes(t.order, a, b) { NotBoth(t.order, a, b); }
      }
    }
  }

  lemma {:induction false} SubsetOfSameSize(a: set<string>, b: set<string>)
    requires a <= b && |a| == |b|
    ensures a == b
  {
    assert b == a + (b - a);
  }

  /** That description leaves one table: which entries a pruning keeps, and in which order. */
  lemma PruneDetermined(t: Table, now: int, u: Table, v: Table)
    requires t.Valid() && PrunedTo(t, now, u) && PrunedTo(t, now, v)
    ensures u == v
  {
    KeptTheSame(t, now, u, v);
    KeptTheSame(t, now, v, u);
    assert u.entries == v.entries;
    var le := (a: string, b: string) => Precedes(t.order, a, b);
    forall a, b ensures !(le(a, b) && le(b, a)) { if le(a, b) { NotBoth(t.order, a, b); } }
    forall i, j | 0 <= i < j < |u.order| ensures le(u.order[i], u.order[j]) {
      assert Precedes(u.order, u.order[i], u.order[j]);
    }
    forall i, j | 0 <= i < j < |v.order| ensures le(v.order[i], v.order[j]) {
      assert Precedes(v.order, v.order[i], v.order[j]);
    }
    OrderDetermines(u.order, v.order, le);
  }

  // ---------- which entry a reference means ----------

  predicate Given(name: Option<string>) {
    name != None && name != Some("")
  }

  /** The session key of a reference goes before its id; one without either is "unknown". */
  predicate KeyOf(ref: Ref, k: string) {
    if Given(ref.sessionKey) then ref.sessionKey == Some(k)
    else if Given(ref.sessionId) then ref.sessionId == Some(k)
    else k == "unknown"
  }

  /** k is the first entry with the id of the reference. */
  ghost predicate HasIdOf(t: Table, ref: Ref, k: string) {
    && Given(ref.sessionId) && k in t.entries && t.entries[k].sessionId == ref.sessionId
    && forall h :: Precedes(t.order, h, k) && h in t.entries ==> t.entries[h].sessionId != ref.sessionId
  }

  lemma {:induction false} FindInIsFirst(order: seq<string>, entries: map<string, Entry>, id: string, h: string)
    requires var r := FindIn(order, entries, id); r.Some? && Precedes(order, h, r.value)
    requires NoDup(order) && h in entries
    ensures entries[h].sessionId != Some(id)
  {
    var r := FindIn(order, entries, id);
    var i, j :| 0 <= i < j < |order| && order[i] == h && order[j] == r.value;
    if !(order[0] in entries && entries[order[0]].sessionId == Some(id)) && i > 0 {
      assert order[1..][i - 1] == h && order[1..][j - 1] == r.value;
      FindInIsFirst(order[1..], entries, id, h);
    }
  }

  lemma FoundHasId(t: Table, ref: Ref)
    requires t.Valid() && FindById(t, ref.sessionId).Some?
    ensures HasIdOf(t, ref, FindById(t, ref.sessionId).value)
  {
    var id, k := ref.sessionId.value, FindById(t, ref.sessionId).value;
    FindInFirst(t.order, t.entries, id);
    forall h | Precedes(t.order, h, k) && h in t.entries ensures t.entries[h].sessionId != ref.sessionId {
      FindInIsFirst(t.order, t.entries, id, h);
    }
  }

  /** The search by id finds the first entry with the id. */
  lemma SearchMeans(t: Table, ref: Ref, k: string)
    requires t.Valid()
    ensures FindById(t, ref.sessionId) == Some(k) <==> HasIdOf(t, ref, k)
    ensures FindById(t, ref.sessionId) == None ==> forall h :: !HasIdOf(t, ref, h)
  {
    var found := FindById(t, ref.sessionId);
    if Truthy(ref.sessionId) { FindInFirst(t.order, t.entries, ref.sessionId.value); }
    if found.Some? {
      FoundHasId(t, ref);
      if HasIdOf(t, ref, k) && found.value != k { OneFirst(t.order, found.value, k); }
    }
  }

  /** `peek`: the entry under the key of the reference, else the first one with its id. */
  lemma PeekMeans(t: Table, ref: Ref, n: string, k: string)
    requires t.Valid() && KeyOf(ref, n)
    ensures Peek(t, ref) == Some(k) <==> if n in t.entries then k == n else HasIdOf(t, ref, k)
  {
    SearchMeans(t, ref, k);
  }

  // ---------- what a lookup leaves ----------

  /** The names the reference gives, and otherwise these. */
  predicate Named(e: Entry, ref: Ref, id: Option<string>, key: Option<string>, file: Option<string>) {
    && e.sessionId == (if Given(ref.sessionId) then ref.sessionId else id)
    && e.sessionKey == (if Given(ref.sessionKey) then ref.sessionKey else key)
    && e.sessionFile == (if Given(ref.sessionFile) then ref.sessionFile else file)
  }

  predicate SameMarkers(e: Entry, d: Entry) {
    e.stuckWarnAge == d.stuckWarnAge && e.longRunningWarnAge == d.longRunningWarnAge
  }

  /** `e` is `d` with the names of the reference. */
  predicate Renamed(e: Entry, d: Entry, ref: Ref) {
    && Named(e, ref, d.sessionId, d.sessionKey, d.sessionFile)
    && e.state == d.state && e.lastActivity == d.lastActivity && e.generation == d.generation
    && e.queueDepth == d.queueDepth && e.activeQueuedTurn == d.activeQueuedTurn && SameMarkers(e, d)
    && e.tools == d.tools
  }

  /** The state of the entry active later; on ties of the one that is doing more, processing
      before waiting before the rest, and of `a` when they do as much. */
  predicate LaterState(s: RunState, a: Entry, b: Entry) {
    if a.lastActivity > b.lastActivity then s == a.state
    else if a.lastActivity < b.lastActivity then s == b.state
    else if a.state == Processing || b.state == Processing then s == Processing
    else if a.state == Waiting || b.state == Waiting then s == Waiting
    else s == a.state
  }

  predicate IsLarger(n: int, a: int, b: int) {
    n >= a && n >= b && (n == a || n == b)
  }

  /** Every bucket of either with the larger count; a missing one counts as 0 in `a`. */
  predicate BucketsMerged(m: map<string, int>, a: map<string, int>, b: map<string, int>) {
    && m.Keys == a.Keys + b.Keys
    && forall k :: k in m ==>
        && (k in a && k in b ==> IsLarger(m[k], a[k], b[k]))
        && (k in a && k !in b ==> m[k] == a[k])
        && (k !in a && k in b ==> IsLarger(m[k], 0, b[k]))
  }

  /** Every command of either with its later poll, that of `a` on ties. */
  predicate PollsMerged(m: map<string, Poll>, a: map<string, Poll>, b: map<string, Poll>) {
    && m.Keys == a.Keys + b.Keys
    && forall k :: k in m ==>
        && (k in a && (k in b ==> b[k].lastPollAt <= a[k].lastPollAt) ==> m[k] == a[k])
        && (k in b && (k in a ==> b[k].lastPollAt > a[k].lastPollAt) ==> m[k] == b[k])
  }

  /** What becomes of the entry `a` under the key of the reference and the entry `b` with its id. */
  predicate Merged(e: Entry, a: Entry, b: Entry, ref: Ref) {
    && Named(e, ref, if a.sessionId == None then b.sessionId else a.sessionId,
             if a.sessionKey == None then b.sessionKey else a.sessionKey,
             if Given(b.sessionFile) && (b.lastActivity > a.lastActivity || !Given(a.sessionFile)) then b.sessionFile
             else a.sessionFile)
    && LaterState(e.state, a, b)
    && IsLarger(e.lastActivity, a.lastActivity, b.lastActivity) && IsLarger(e.generation, a.generation, b.generation)
    && e.queueDepth == a.queueDepth + b.queueDepth
    && (e.activeQueuedTurn <==> a.activeQueuedTurn || b.activeQueuedTurn) && SameMarkers(e, a)
    && e.tools.history == a.tools.history + b.tools.history
    && BucketsMerged(e.tools.buckets, a.tools.buckets, b.tools.buckets)
    && PollsMerged(e.tools.polls, a.tools.polls, b.tools.polls)
  }

  lemma BucketsMean(a: map<string, int>, b: map<string, int>)
    ensures BucketsMerged(MergeBuckets(a, b), a, b)
  {
  }

  lemma PollsMean(a: map<string, Poll>, b: map<string, Poll>)
    ensures PollsMerged(MergePolls(a, b), a, b)
  {
  }

  lemma MergeMeans(a: Entry, b: Entry, ref: Ref)
    ensures Merged(Refresh(Merge(a, b), ref), a, b, ref)
  {
    BucketsMean(a.tools.buckets, b.tools.buckets);
    PollsMean(a.tools.polls, b.tools.polls);
  }

  /** `order` without its one element h. */
  ghost predicate CutOut(order: seq<string>, h: string, r: seq<string>) {
    exists i :: 0 <= i < |order| && order[i] == h && r == order[..i] + order[i + 1..]
  }

  lemma CutOutBehind(first: string, order: seq<string>, h: string, r: seq<string>)
    requires CutOut(order, h, r)
    ensures CutOut([first] + order, h, [first] + r)
  {
    var i :| 0 <= i < |order| && order[i] == h && r == order[..i] + order[i + 1..];
    var all := [first] + order;
    assert all[i + 1] == h && all[..i + 1] == [first] + order[..i] && all[i + 2..] == order[i + 1..];
  }

  lemma {:induction false} WithoutCuts(order: seq<string>, h: string)
    requires NoDup(order) && h in order
    ensures CutOut(order, h, Without(order, {h}))
  {
    var rest := order[1..];
    assert order == [order[0]] + rest;
    if order[0] == h {
      assert h !in rest;
      WithoutNone(rest, h);
      assert order[0] == h && rest == order[..0] + order[0 + 1..];
    } else {
      WithoutCuts(rest, h);
      CutOutBehind(order[0], rest, h, Without(rest, {h}));
    }
  }

  lemma {:induction false} WithoutNone(order: seq<string>, h: string)
    requires h !in order
    ensures Without(order, {h}) == order
  {
    if order != [] {
      assert order == [order[0]] + order[1..];
      WithoutNone(order[1..], h);
    }
  }

  /** Of the entries of `t` those in `gone` are missing, and none but the one at k is changed. */
  ghost predicate ChangesOnly(u: Table, t: Table, gone: set<string>, k: string) {
    && u.lastPrune == t.lastPrune && u.entries.Keys == (t.entries.Keys - gone) + {k}
    && forall h :: h in u.entries && h != k ==> u.entries[h] == t.entries[h]
  }

  // ---------- the five cases of `get` ----------

  /** The entry under the key is the one meant: it gets the names of the reference. */
  lemma GetDirect(t: Table, ref: Ref, c: Clock, n: string)
    requires t.Valid() && KeyOf(ref, n) && n in Prune(t, c.first, false).entries
    requires forall h :: HasIdOf(Prune(t, c.first, false), ref, h) ==> h == n
    ensures var t1 := Prune(t, c.first, false);
            var (u, key) := Get(t, ref, c);
            && key == n && u.order == t1.order && ChangesOnly(u, t1, {}, n)
            && Renamed(u.entries[n], t1.entries[n], ref)
  {
    PruneRestricts(t, c.first, false);
    SearchMeans(Prune(t, c.first, false), ref, n);
    if FindById(Prune(t, c.first, false), ref.sessionId).Some? { FoundHasId(Prune(t, c.first, false), ref); }
  }

  /** Another entry has the id: it is merged into the one under the key, and removed. */
  lemma GetMerges(t: Table, ref: Ref, c: Clock, n: string, h: string)
    requires t.Valid() && KeyOf(ref, n) && n in Prune(t, c.first, false).entries
    requires HasIdOf(Prune(t, c.first, false), ref, h) && h != n
    ensures var t1 := Prune(t, c.first, false);
            var (u, key) := Get(t, ref, c);
            && key == n && CutOut(t1.order, h, u.order) && ChangesOnly(u, t1, {h}, n)
            && Merged(u.entries[n], t1.entries[n], t1.entries[h], ref)
  {
    var t1 := Prune(t, c.first, false);
    PruneRestricts(t, c.first, false);
    SearchMeans(t1, ref, h);
    WithoutCuts(t1.order, h);
    MergeMeans(t1.entries[n], t1.entries[h], ref);
  }

  /** Nothing is kept under the key, but an entry has the id: it moves to the key given, at
      the end of the dictionary. */
  lemma GetRekeys(t: Table, ref: Ref, c: Clock, n: string, h: string)
    requires t.Valid() && KeyOf(ref, n) && n !in Prune(t, c.first, false).entries
    requires HasIdOf(Prune(t, c.first, false), ref, h) && Given(ref.sessionKey)
    ensures var t1 := Prune(t, c.first, false);
            var (u, key) := Get(t, ref, c);
            && key == n && u.order != [] && u.order[|u.order| - 1] == n
            && CutOut(t1.order, h, u.order[..|u.order| - 1]) && ChangesOnly(u, t1, {h}, n)
            && Renamed(u.entries[n], t1.entries[h], ref)
  {
    var t1 := Prune(t, c.first, false);
    PruneRestricts(t, c.first, false);
    SearchMeans(t1, ref, h);
    WithoutCuts(t1.order, h);
    assert (Without(t1.order, {h}) + [n])[..|Without(t1.order, {h})|] == Without(t1.order, {h});
  }

  /** Without a key in the reference the entry with the id stays where it is. */
  lemma GetById(t: Table, ref: Ref, c: Clock, n: string, h: string)
    requires t.Valid() && KeyOf(ref, n) && n !in Prune(t, c.first, false).entries
    requires HasIdOf(Prune(t, c.first, false), ref, h) && !Given(ref.sessionKey)
    ensures var t1 := Prune(t, c.first, false);
            var (u, key) := Get(t, ref, c);
            && key == h && u.order == t1.order && ChangesOnly(u, t1, {}, h)
            && Renamed(u.entries[h], t1.entries[h], ref)
  {
    PruneRestricts(t, c.first, false);
    SearchMeans(Prune(t, c.first, false), ref, h);
  }

  /** An idle session with nothing queued and the names as the reference has them. */
  predicate IsNew(e: Entry, ref: Ref, now: int) {
    && e.sessionId == ref.sessionId && e.sessionKey == ref.sessionKey && e.sessionFile == ref.sessionFile
    && e.state == Idle && e.lastActivity == now && e.generation == 0 && e.queueDepth == 0 && !e.activeQueuedTurn
    && e.stuckWarnAge == None && e.longRunningWarnAge == None
    && e.tools.history == [] && e.tools.buckets == map[] && e.tools.polls == map[]
  }

  lemma GetAppends(t: Table, ref: Ref, c: Clock, n: string)
    requires t.Valid() && KeyOf(ref, n) && n !in Prune(t, c.first, false).entries
    requires FindById(Prune(t, c.first, false), ref.sessionId) == None
    ensures var t1 := Prune(t, c.first, false);
            var t2 := Append(t1, n, NewEntry(ref, c.created));
            t2.Valid() && ChangesOnly(t2, t1, {}, n) && Get(t, ref, c) == (Prune(t2, c.last, true), n)
  {
    PruneRestricts(t, c.first, false);
    AppendValid(Prune(t, c.first, false), n, NewEntry(ref, c.created));
  }

  /** The reference means no entry: a new one goes to the end, and the table is pruned. */
  lemma GetCreates(t: Table, ref: Ref, c: Clock, n: string) returns (t2: Table)
    requires t.Valid() && KeyOf(ref, n) && n !in Prune(t, c.first, false).entries
    requires forall h :: !HasIdOf(Prune(t, c.first, false), ref, h)
    ensures var t1 := Prune(t, c.first, false);
            var (u, key) := Get(t, ref, c);
            && key == n && t2.order == t1.order + [n] && ChangesOnly(t2, t1, {}, n)
            && IsNew(t2.entries[n], ref, c.created) && PrunedTo(t2, c.last, u)
  {
    var t1 := Prune(t, c.first, false);
    PruneRestricts(t, c.first, false);
    SearchMeans(t1, ref, n);
    if FindById(t1, ref.sessionId).Some? { FoundHasId(t1, ref); }
    t2 := Append(t1, n, NewEntry(ref, c.created));
    GetAppends(t, ref, c, n);
    ForcedPruneMeans(t2, c.last);
  }
}
