/** The diagnostic session table: pruning, lookup, merging and re-keying. */
module Sessions {
  import opened Options
  import opened Sorting

  const SESSION_STATE_TTL_MS := 30 * 60 * 1000
  const SESSION_STATE_PRUNE_INTERVAL_MS := 60 * 1000
  const SESSION_STATE_MAX_ENTRIES := 2000

  datatype RunState = Idle | Waiting | Processing | OtherState(name: string)

  function Priority(s: RunState): nat {
    match s
    case Waiting => 1
    case Processing => 2
    case _ => 0
  }

  /** The last poll of a background command. */
  datatype Poll = Poll(count: int, lastPollAt: int)

  /** What the tool-loop detection keeps in an entry: tool calls, warning buckets, command polls. */
  datatype Tools = Tools(history: seq<string>, buckets: map<string, int>, polls: map<string, Poll>)

  datatype Entry = Entry(
    sessionId: Option<string>,
    sessionKey: Option<string>,
    sessionFile: Option<string>,
    state: RunState,
    lastActivity: int,
    generation: int,
    queueDepth: int,
    activeQueuedTurn: bool,
    stuckWarnAge: Option<int>,
    longRunningWarnAge: Option<int>,
    tools: Tools)

  datatype Ref = Ref(sessionId: Option<string>, sessionKey: Option<string>, sessionFile: Option<string>)

  /** The clock readings of one `get`: first prune, creation, second prune. */
  datatype Clock = Clock(first: int, created: int, last: int)

  /** The module's dictionary (keys in insertion order) and the time of the last prune. */
  datatype Table = Table(order: seq<string>, entries: map<string, Entry>, lastPrune: int) {
    ghost predicate Valid() {
      NoDup(order) && forall k :: k in order <==> k in entries
    }
  }

  // ---------- dictionary operations ----------

  function Without(order: seq<string>, drop: set<string>): seq<string> {
    if order == [] then []
    else (if order[0] in drop then [] else [order[0]]) + Without(order[1..], drop)
  }

  function Drop(t: Table, drop: set<string>): Table {
    t.(order := Without(t.order, drop), entries := t.entries - drop)
  }

  /** Assigns to a key that is present. */
  function Put(t: Table, k: string, e: Entry): Table {
    t.(entries := t.entries[k := e])
  }

  /** Assigns to a key that is absent: it goes to the end. */
  function Append(t: Table, k: string, e: Entry): Table {
    t.(order := t.order + [k], entries := t.entries[k := e])
  }

  // ---------- pruning ----------

  predicate Stale(e: Entry, now: int) {
    e.state == Idle && e.queueDepth <= 0 && now - e.lastActivity > SESSION_STATE_TTL_MS
  }

  function StaleKeys(t: Table, now: int): set<string> {
    set k | k in t.entries && Stale(t.entries[k], now)
  }

  /** The sort key of the size eviction, total on strings that are no keys as well. */
  predicate OlderEq(entries: map<string, Entry>, a: string, b: string) {
    if a in entries && b in entries then entries[a].lastActivity <= entries[b].lastActivity
    else a in entries || b !in entries
  }

  function ByActivity(t: Table): seq<string> {
    Sort(t.order, (a: string, b: string) => OlderEq(t.entries, a, b))
  }

  /** The keys the size eviction pops: the first `excess` by lastActivity. */
  function Evicted(t: Table): seq<string> {
    var excess := |t.order| - SESSION_STATE_MAX_ENTRIES;
    if excess <= 0 then []
    else ByActivity(t)[..if excess <= |ByActivity(t)| then excess else |ByActivity(t)|]
  }

  predicate PruneSkipped(t: Table, now: int, force: bool) {
    !force && |t.order| <= SESSION_STATE_MAX_ENTRIES && now - t.lastPrune < SESSION_STATE_PRUNE_INTERVAL_MS
  }

  function Expire(t: Table, now: int): Table {
    Drop(t.(lastPrune := now), StaleKeys(t, now))
  }

  function Prune(t: Table, now: int, force: bool): Table {
    if PruneSkipped(t, now, force) then t
    else
      var t1 := Expire(t, now);
      Drop(t1, set k | k in Evicted(t1))
  }

  // ---------- lookup ----------

  function ResolveKey(ref: Ref): string {
    if Truthy(ref.sessionKey) then ref.sessionKey.value
    else if Truthy(ref.sessionId) then ref.sessionId.value
    else "unknown"
  }

  function FindIn(order: seq<string>, entries: map<string, Entry>, id: string): Option<string> {
    if order == [] then None
    else if order[0] in entries && entries[order[0]].sessionId == Some(id) then Some(order[0])
    else FindIn(order[1..], entries, id)
  }

  function FindById(t: Table, id: Option<string>): Option<string> {
    if Truthy(id) then FindIn(t.order, t.entries, id.value) else None
  }

  function Peek(t: Table, ref: Ref): Option<string> {
    if ResolveKey(ref) in t.entries then Some(ResolveKey(ref)) else FindById(t, ref.sessionId)
  }

  function Max(a: int, b: int): int {
    if a >= b then a else b
  }

  /** The larger count of each bucket. */
  function MergeBuckets(target: map<string, int>, source: map<string, int>): map<string, int> {
    target + map k | k in source :: Max(if k in target then target[k] else 0, source[k])
  }

  /** The later poll of each command, that of the target on ties. */
  function MergePolls(target: map<string, Poll>, source: map<string, Poll>): map<string, Poll> {
    target + map k | k in source ::
      if k in target && source[k].lastPollAt <= target[k].lastPollAt then target[k] else source[k]
  }

  function MergeTools(target: Tools, source: Tools): Tools {
    Tools(target.history + source.history,
          MergeBuckets(target.buckets, source.buckets), MergePolls(target.polls, source.polls))
  }

  /** `_merge_session_state`. */
  function Merge(target: Entry, source: Entry): Entry {
    var newer := source.lastActivity > target.lastActivity;
    var moreActive := source.lastActivity == target.lastActivity && Priority(source.state) > Priority(target.state);
    target.(
      sessionId := if target.sessionId == None then source.sessionId else target.sessionId,
      sessionKey := if target.sessionKey == None then source.sessionKey else target.sessionKey,
      sessionFile := if Truthy(source.sessionFile) && (newer || !Truthy(target.sessionFile)) then source.sessionFile
                     else target.sessionFile,
      state := if newer || moreActive then source.state else target.state,
      generation := Max(target.generation, source.generation),
      lastActivity := Max(target.lastActivity, source.lastActivity),
      queueDepth := target.queueDepth + source.queueDepth,
      activeQueuedTurn := target.activeQueuedTurn || source.activeQueuedTurn,
      tools := MergeTools(target.tools, source.tools))
  }

  /** What `get` writes into an entry it found. */
  function Refresh(e: Entry, ref: Ref): Entry {
    e.(sessionId := if Truthy(ref.sessionId) then ref.sessionId else e.sessionId,
       sessionKey := if Truthy(ref.sessionKey) then ref.sessionKey else e.sessionKey,
       sessionFile := if Truthy(ref.sessionFile) then ref.sessionFile else e.sessionFile)
  }

  function NewEntry(ref: Ref, now: int): Entry {
    Entry(ref.sessionId, ref.sessionKey, ref.sessionFile, Idle, now, 0, 0, false, None, None, Tools([], map[], map[]))
  }

  /** How a reference is resolved against the pruned table. */
  datatype Hit = Direct | Merging(from: string) | Rekey(from: string) | ById(at: string) | Missing

  function Resolve(t: Table, ref: Ref): Hit {
    var byId := FindById(t, ref.sessionId);
    if ResolveKey(ref) in t.entries then
      if byId.Some? && byId.value != ResolveKey(ref) then Merging(byId.value) else Direct
    else if byId.Some? then
      if Truthy(ref.sessionKey) then Rekey(byId.value) else ById(byId.value)
    else Missing
  }

  /** The lookup of `get` in the pruned table: the new table and the key of the entry returned. */
  function Look(t: Table, ref: Ref, created: int): (Table, string) {
    var key := ResolveKey(ref);
    match Resolve(t, ref)
    case Direct => (Put(t, key, Refresh(EntryAt(t, key), ref)), key)
    case Merging(from) => (Put(Drop(t, {from}), key, Refresh(Merge(EntryAt(t, key), EntryAt(t, from)), ref)), key)
    case Rekey(from) => (Append(Drop(t, {from}), key, Refresh(EntryAt(t, from), ref)), key)
    case ById(at) => (Put(t, at, Refresh(EntryAt(t, at), ref)), at)
    case Missing => (Append(t, key, NewEntry(ref, created)), key)
  }

  /** `get_diagnostic_session_state`: prune, look up, and prune again after a creation. */
  function Get(t: Table, ref: Ref, c: Clock): (Table, string) {
    var t1 := Prune(t, c.first, false);
    var (t2, key) := Look(t1, ref, c.created);
    (if Resolve(t1, ref).Missing? then Prune(t2, c.last, true) else t2, key)
  }

  function EntryAt(t: Table, k: string): Entry {
    if k in t.entries then t.entries[k] else NewEntry(Ref(None, None, None), 0)
  }

  // ---------- facts about dictionaries ----------

  lemma {:induction false} WithoutMembers(order: seq<string>, drop: set<string>)
    ensures forall k :: k in Without(order, drop) <==> k in order && k !in drop
    ensures NoDup(order) ==> NoDup(Without(order, drop))
  {
    if order != [] {
      WithoutMembers(order[1..], drop);
      assert order == [order[0]] + order[1..];
    }
  }

  lemma DropValid(t: Table, drop: set<string>)
    requires t.Valid()
    ensures Drop(t, drop).Valid()
  {
    WithoutMembers(t.order, drop);
  }

  lemma {:induction false} WithoutSize(order: seq<string>, drop: set<string>)
    requires NoDup(order)
    ensures |Without(order, drop)| == |order| - |Elems(order) * drop|
  {
    if order == [] {
      assert Elems(order) * drop == {};
    } else {
      var rest := order[1..];
      WithoutSize(rest, drop);
      assert order == [order[0]] + rest;
      if order[0] in drop {
        assert order[0] !in rest;
        assert Elems(order) * drop == Elems(rest) * drop + {order[0]};
      } else {
        assert Elems(order) * drop == Elems(rest) * drop;
      }
    }
  }

  lemma {:induction false} FindInFirst(order: seq<string>, entries: map<string, Entry>, id: string)
    ensures var r := FindIn(order, entries, id);
            && (r.Some? ==> r.value in order && r.value in entries && entries[r.value].sessionId == Some(id))
            && (r == None ==> forall k :: k in order && k in entries ==> entries[k].sessionId != Some(id))
  {
    if order != [] {
      FindInFirst(order[1..], entries, id);
      assert order == [order[0]] + order[1..];
    }
  }

  // ---------- the size eviction ----------

  lemma OlderPreorder(entries: map<string, Entry>)
    ensures TotalPreorder((a: string, b: string) => OlderEq(entries, a, b))
  {
  }

  lemma PrefixElems(s: seq<string>, n: nat)
    requires NoDup(s) && n <= |s|
    ensures |Elems(s[..n])| == n
  {
    NoDupSize(s[..n]);
  }

  lemma ByActivitySorts(t: Table)
    requires t.Valid()
    ensures var s := ByActivity(t);
            && NoDup(s) && |s| == |t.order| && (forall k :: k in s <==> k in t.order)
            && forall i, j :: 0 <= i < j < |s| ==> OlderEq(t.entries, s[i], s[j])
  {
    var le := (a: string, b: string) => OlderEq(t.entries, a, b);
    OlderPreorder(t.entries);
    SortSorts(t.order, le);
    SortMembers(t.order, le);
    SortPermutes(t.order, le);
    SortKeepsNoDup(t.order, le);
    var s := ByActivity(t);
    forall i, j | 0 <= i < j < |s| ensures OlderEq(t.entries, s[i], s[j]) {
      assert le(s[i], s[j]);
    }
  }

  /** The first n of a sorted listing are no newer than the others. */
  lemma PrefixOldest(s: seq<string>, entries: map<string, Entry>, n: nat, a: string, b: string)
    requires n <= |s| && a in s[..n] && b in s && b !in s[..n] && a in entries && b in entries
    requires forall i, j :: 0 <= i < j < |s| ==> OlderEq(entries, s[i], s[j])
    ensures entries[a].lastActivity <= entries[b].lastActivity
  {
    var i :| 0 <= i < n && s[..n][i] == a;
    var j :| 0 <= j < |s| && s[j] == b;
    assert s[..n] + s[n..] == s;
    assert forall m :: 0 <= m < n ==> s[..n][m] == s[m];
    assert OlderEq(entries, s[i], s[j]);
  }

  lemma EvictedSize(t: Table)
    requires t.Valid()
    ensures Evicted(t) <= ByActivity(t)
    ensures |Evicted(t)| == Max(0, |t.order| - SESSION_STATE_MAX_ENTRIES)
    ensures |Elems(Evicted(t))| == |Evicted(t)| && Elems(Evicted(t)) <= t.entries.Keys
  {
    ByActivitySorts(t);
    PrefixElems(ByActivity(t), |Evicted(t)|);
  }

  /** The size eviction removes exactly the excess, and nothing it removes has been
      active later than anything it keeps. */
  lemma EvictionExact(t: Table)
    requires t.Valid()
    ensures var ev := Elems(Evicted(t));
            && ev <= t.entries.Keys
            && |ev| == Max(0, |t.order| - SESSION_STATE_MAX_ENTRIES)
            && |Drop(t, ev).order| == |t.order| - |ev|
            && forall a, b :: a in ev && b in t.entries && b !in ev ==>
                t.entries[a].lastActivity <= t.entries[b].lastActivity
  {
    EvictedSize(t);
    ByActivitySorts(t);
    var ev := Elems(Evicted(t));
    WithoutSize(t.order, ev);
    assert Elems(t.order) * ev == ev;
    forall a, b | a in ev && b in t.entries && b !in ev
      ensures t.entries[a].lastActivity <= t.entries[b].lastActivity
    {
      assert b in t.order;
      PrefixOldest(ByActivity(t), t.entries, |Evicted(t)|, a, b);
    }
  }

  // ---------- the invariant of the table ----------

  /** A non-empty session id names at most one entry. */
  ghost predicate UniqueIds(t: Table) {
    forall a, b :: a in t.entries && b in t.entries && a != b && Truthy(t.entries[a].sessionId) ==>
      t.entries[a].sessionId != t.entries[b].sessionId
  }

  ghost predicate Counts(t: Table) {
    forall k :: k in t.entries ==> t.entries[k].queueDepth >= 0 && t.entries[k].generation >= 0
  }

  ghost predicate Inv(t: Table) {
    t.Valid() && UniqueIds(t) && Counts(t) && |t.order| <= SESSION_STATE_MAX_ENTRIES
  }

  /** Nothing in the table is newer than the clock. */
  ghost predicate NoLaterThan(t: Table, now: int) {
    forall k :: k in t.entries ==> t.entries[k].lastActivity <= now
  }

  /** `u` keeps some of the entries of `t`, unchanged. */
  ghost predicate Restricts(u: Table, t: Table) {
    forall k :: k in u.entries ==> k in t.entries && u.entries[k] == t.entries[k]
  }

  lemma PruneRestricts(t: Table, now: int, force: bool)
    requires t.Valid()
    ensures Prune(t, now, force).Valid() && Restricts(Prune(t, now, force), t)
    ensures |Prune(t, now, force).order| <= |t.order|
    ensures |Prune(t, now, force).order| <= SESSION_STATE_MAX_ENTRIES
  {
    if !PruneSkipped(t, now, force) {
      var t0 := t.(lastPrune := now);
      DropValid(t0, StaleKeys(t, now));
      WithoutSize(t.order, StaleKeys(t, now));
      var t1 := Expire(t, now);
      DropValid(t1, Elems(Evicted(t1)));
      EvictionExact(t1);
      assert (set k | k in Evicted(t1)) == Elems(Evicted(t1));
    }
  }

  lemma RestrictsKeeps(u: Table, t: Table)
    requires Restricts(u, t) && UniqueIds(t) && Counts(t)
    ensures UniqueIds(u) && Counts(u)
  {
  }

  /** At most one entry answers to a non-empty id, and the search finds it. */
  lemma FindByIdUnique(t: Table, id: Option<string>, k: string)
    requires t.Valid() && UniqueIds(t) && Truthy(id)
    ensures k in t.entries && t.entries[k].sessionId == id <==> FindById(t, id) == Some(k)
  {
    FindInFirst(t.order, t.entries, id.value);
  }

  /** After the lookup no entry but the one returned has the id of the reference. */
  lemma OthersLackId(t: Table, ref: Ref)
    requires t.Valid() && UniqueIds(t) && Truthy(ref.sessionId)
    ensures var r := Resolve(t, ref);
            forall k :: k in t.entries && t.entries[k].sessionId == ref.sessionId ==>
              match r
              case Direct => k == ResolveKey(ref)
              case Merging(from) => k == from
              case Rekey(from) => k == from
              case ById(at) => k == at
              case Missing => false
  {
    forall k | k in t.entries && t.entries[k].sessionId == ref.sessionId
      ensures FindById(t, ref.sessionId) == Some(k)
    {
      FindByIdUnique(t, ref.sessionId, k);
    }
  }

  lemma ResolveFacts(t: Table, ref: Ref)
    requires t.Valid()
    ensures match Resolve(t, ref)
            case Direct => ResolveKey(ref) in t.entries
            case Merging(from) =>
              ResolveKey(ref) in t.entries && from in t.entries && from != ResolveKey(ref) && Truthy(ref.sessionId)
            case Rekey(from) => ResolveKey(ref) !in t.entries && from in t.entries && Truthy(ref.sessionId)
            case ById(at) =>
              at in t.entries && Truthy(ref.sessionId) && ResolveKey(ref) !in t.entries && !Truthy(ref.sessionKey)
            case Missing => ResolveKey(ref) !in t.entries
  {
    if Truthy(ref.sessionId) { FindInFirst(t.order, t.entries, ref.sessionId.value); }
  }

  lemma AppendValid(t: Table, k: string, e: Entry)
    requires t.Valid() && k !in t.entries
    ensures Append(t, k, e).Valid()
  {
  }

  lemma LookValid(t1: Table, ref: Ref, created: int)
    requires t1.Valid()
    ensures Look(t1, ref, created).0.Valid()
    ensures Look(t1, ref, created).1 in Look(t1, ref, created).0.entries
    ensures |Look(t1, ref, created).0.order| <= |t1.order| + if Resolve(t1, ref).Missing? then 1 else 0
  {
    ResolveFacts(t1, ref);
    match Resolve(t1, ref)
    case Merging(from) =>
      DropValid(t1, {from});
      WithoutSize(t1.order, {from});
    case Rekey(from) =>
      DropValid(t1, {from});
      WithoutMembers(t1.order, {from});
      AppendValid(Drop(t1, {from}), ResolveKey(ref), Refresh(EntryAt(t1, from), ref));
      WithoutSize(t1.order, {from});
    case _ =>
  }

  lemma LookUnique(t1: Table, ref: Ref, created: int)
    requires t1.Valid() && UniqueIds(t1) && Counts(t1)
    ensures UniqueIds(Look(t1, ref, created).0) && Counts(Look(t1, ref, created).0)
  {
    ResolveFacts(t1, ref);
    if Truthy(ref.sessionId) { OthersLackId(t1, ref); }
  }

  /** Resolving any reference keeps the table well formed, with unique session ids
      and at most 2000 entries. */
  lemma GetKeepsInv(t: Table, ref: Ref, c: Clock)
    requires Inv(t)
    ensures Inv(Get(t, ref, c).0)
  {
    var t1 := Prune(t, c.first, false);
    PruneRestricts(t, c.first, false);
    RestrictsKeeps(t1, t);
    LookValid(t1, ref, c.created);
    LookUnique(t1, ref, c.created);
    var t2 := Look(t1, ref, c.created).0;
    if Resolve(t1, ref).Missing? {
      PruneRestricts(t2, c.last, true);
      RestrictsKeeps(Prune(t2, c.last, true), t2);
    }
  }

  // ---------- empty ids ----------

  ghost predicate HasEmptyId(t: Table, k: string) {
    k in t.entries && t.entries[k].sessionId == Some("")
  }

  ghost predicate NoEmptyIds(t: Table) {
    forall k :: !HasEmptyId(t, k)
  }

  /** No two entries have the same id, empty or not. */
  ghost predicate IdsDistinct(t: Table) {
    forall a, b :: a in t.entries && b in t.entries && a != b && t.entries[a].sessionId.Some? ==>
      t.entries[a].sessionId != t.entries[b].sessionId
  }

  lemma NoEmptyIdsDistinct(t: Table)
    requires UniqueIds(t) && NoEmptyIds(t)
    ensures IdsDistinct(t)
  {
    forall a, b | a in t.entries && b in t.entries && a != b && t.entries[a].sessionId.Some?
      ensures t.entries[a].sessionId != t.entries[b].sessionId
    {
      assert !HasEmptyId(t, a);
    }
  }

  ghost predicate AtMostOneEmptyId(t: Table) {
    forall a, b :: HasEmptyId(t, a) && HasEmptyId(t, b) ==> a == b
  }

  /** The lookup makes an empty id only by creating an entry. */
  lemma LookEmptyIds(t: Table, ref: Ref, created: int, k: string)
    requires t.Valid() && HasEmptyId(Look(t, ref, created).0, k)
    ensures HasEmptyId(t, k) || (Resolve(t, ref).Missing? && k == ResolveKey(ref) && ref.sessionId == Some(""))
  {
    ResolveFacts(t, ref);
    if Truthy(ref.sessionId) { FindInFirst(t.order, t.entries, ref.sessionId.value); }
  }

  lemma GetEmptyIds(t: Table, ref: Ref, c: Clock, k: string)
    requires t.Valid() && HasEmptyId(Get(t, ref, c).0, k)
    ensures var t1 := Prune(t, c.first, false);
            HasEmptyId(t1, k) || (Resolve(t1, ref).Missing? && k == ResolveKey(ref) && ref.sessionId == Some(""))
  {
    var t1 := Prune(t, c.first, false);
    PruneRestricts(t, c.first, false);
    LookValid(t1, ref, c.created);
    if Resolve(t1, ref).Missing? { PruneRestricts(Look(t1, ref, c.created).0, c.last, true); }
    LookEmptyIds(t1, ref, c.created, k);
  }

  /** What a creation keeps is unchanged, and the new entry has the id of the reference. */
  lemma CreationKeeps(t: Table, ref: Ref, c: Clock, k: string)
    requires t.Valid() && Resolve(Prune(t, c.first, false), ref).Missing? && k in Get(t, ref, c).0.entries
    ensures var t1 := Prune(t, c.first, false);
            && Get(t, ref, c).1 == ResolveKey(ref) && ResolveKey(ref) !in t1.entries
            && if k == ResolveKey(ref) then Get(t, ref, c).0.entries[k] == NewEntry(ref, c.created)
               else k in t1.entries && Get(t, ref, c).0.entries[k] == t1.entries[k]
  {
    var t1 := Prune(t, c.first, false);
    PruneRestricts(t, c.first, false);
    ResolveFacts(t1, ref);
    LookValid(t1, ref, c.created);
    PruneRestricts(Look(t1, ref, c.created).0, c.last, true);
  }

  /** What a forced pruning spares, in terms of the table before it: what is neither stale
      nor among the oldest over the limit. */
  predicate Stays(t: Table, now: int, k: string) {
    k in t.entries && !Stale(t.entries[k], now) && k !in Evicted(Expire(t, now))
  }

  lemma ForcedPruneSpares(t: Table, now: int, k: string)
    ensures k in Prune(t, now, true).entries <==> Stays(t, now, k)
  {
    assert k in Expire(t, now).entries <==> k in t.entries && !Stale(t.entries[k], now);
  }

  /** The table of a creation before its second pruning. */
  function Created(t1: Table, ref: Ref, c: Clock): Table {
    Append(t1, ResolveKey(ref), NewEntry(ref, c.created))
  }

  /** When a creation survives its own pruning, nothing being newer: within the TTL. */
  lemma NewStays(t: Table, ref: Ref, c: Clock)
    requires t.Valid() && NoLaterThan(t, c.created) && Resolve(Prune(t, c.first, false), ref).Missing?
    ensures Stays(Created(Prune(t, c.first, false), ref, c), c.last, ResolveKey(ref))
            <==> c.last - c.created <= SESSION_STATE_TTL_MS
  {
    PruneRestricts(t, c.first, false);
    CreatedSurvives(Prune(t, c.first, false), ref, c);
    ForcedPruneSpares(Created(Prune(t, c.first, false), ref, c), c.last, ResolveKey(ref));
  }

  /** Only non-empty ids are unique. An empty id is falsy, so `get` never looks it up: from
      at most one entry with an empty id it makes a second one exactly when it creates an
      entry with an empty id while another one is there, and the pruning spares both. */
  lemma EmptyIdsStep(t: Table, ref: Ref, c: Clock)
    requires t.Valid() && AtMostOneEmptyId(t)
    ensures var t1 := Prune(t, c.first, false);
            var t2 := Created(t1, ref, c);
            !AtMostOneEmptyId(Get(t, ref, c).0)
            <==> && Resolve(t1, ref).Missing? && ref.sessionId == Some("") && Stays(t2, c.last, ResolveKey(ref))
                 && exists a :: HasEmptyId(t1, a) && Stays(t2, c.last, a)
  {
    var t1 := Prune(t, c.first, false);
    var t2 := Created(t1, ref, c);
    var (u, key) := Get(t, ref, c);
    if a, b :| HasEmptyId(u, a) && HasEmptyId(u, b) && a != b {
      SecondEmptyId(t, ref, c, a, b);
      var x :| HasEmptyId(t1, x) && x in u.entries;
      ForcedPruneSpares(t2, c.last, key);
      ForcedPruneSpares(t2, c.last, x);
    }
    if Resolve(t1, ref).Missing? && ref.sessionId == Some("") && Stays(t2, c.last, key) {
      ForcedPruneSpares(t2, c.last, key);
      CreationKeeps(t, ref, c, key);
      forall a | HasEmptyId(t1, a) && Stays(t2, c.last, a)
        ensures HasEmptyId(u, a) && HasEmptyId(u, key) && a != key
      {
        ForcedPruneSpares(t2, c.last, a);
        CreationKeeps(t, ref, c, a);
      }
    }
  }

  /** Of two empty ids after a `get` one is new and the other was there. */
  lemma SecondEmptyId(t: Table, ref: Ref, c: Clock, a: string, b: string)
    requires t.Valid() && AtMostOneEmptyId(t) && a != b
    requires HasEmptyId(Get(t, ref, c).0, a) && HasEmptyId(Get(t, ref, c).0, b)
    ensures var t1 := Prune(t, c.first, false);
            && Resolve(t1, ref).Missing? && ref.sessionId == Some("") && Get(t, ref, c).1 in Get(t, ref, c).0.entries
            && exists x :: HasEmptyId(t1, x) && x in Get(t, ref, c).0.entries
  {
    var t1 := Prune(t, c.first, false);
    PruneRestricts(t, c.first, false);
    GetEmptyIds(t, ref, c, a);
    GetEmptyIds(t, ref, c, b);
    if HasEmptyId(t1, a) && HasEmptyId(t1, b) {
      assert HasEmptyId(t, a) && HasEmptyId(t, b);
    } else {
      CreationKeeps(t, ref, c, a);
    }
  }

  /** Without empty ids in the table and in the reference, there are none afterwards. */
  lemma GetNoEmptyId(t: Table, ref: Ref, c: Clock)
    requires t.Valid() && NoEmptyIds(t) && ref.sessionId != Some("")
    ensures NoEmptyIds(Get(t, ref, c).0)
  {
    PruneRestricts(t, c.first, false);
    forall k ensures !HasEmptyId(Get(t, ref, c).0, k) {
      if HasEmptyId(Get(t, ref, c).0, k) {
        GetEmptyIds(t, ref, c, k);
        assert HasEmptyId(t, k);
      }
    }
  }

  /** In a table that is not full, pruning takes only what is stale. */
  lemma PruneKeeps(t: Table, now: int, force: bool, k: string)
    requires t.Valid() && |t.order| <= SESSION_STATE_MAX_ENTRIES && k in t.entries && !Stale(t.entries[k], now)
    ensures k in Prune(t, now, force).entries && Prune(t, now, force).entries[k] == t.entries[k]
  {
    WithoutSize(t.order, StaleKeys(t, now));
    assert (set x | x in Evicted(Expire(t, now))) == {};
  }

  function Nameless(key: string): Ref {
    Ref(Some(""), Some(key), None)
  }

  lemma CreatesNameless(t1: Table, key: string, created: int)
    requires key != "" && key !in t1.entries
    ensures Resolve(t1, Nameless(key)) == Missing
    ensures Look(t1, Nameless(key), created) == (Append(t1, key, NewEntry(Nameless(key), created)), key)
  {
  }

  /** Creating an entry with an empty id in a table with room. */
  lemma CreateInRoom(t: Table, key: string, c: Clock)
    requires Inv(t) && |t.order| < SESSION_STATE_MAX_ENTRIES && key != "" && key !in t.entries
    ensures var t1 := Prune(t, c.first, false);
            var t2 := Append(t1, key, NewEntry(Nameless(key), c.created));
            && t1.Valid() && t2.Valid() && |t2.order| <= |t.order| + 1
            && Get(t, Nameless(key), c) == (Prune(t2, c.last, true), key)
            && |Prune(t2, c.last, true).order| <= |t.order| + 1
  {
    var t1 := Prune(t, c.first, false);
    PruneRestricts(t, c.first, false);
    CreatesNameless(t1, key, c.created);
    AppendValid(t1, key, NewEntry(Nameless(key), c.created));
    PruneRestricts(Append(t1, key, NewEntry(Nameless(key), c.created)), c.last, true);
  }

  lemma CreatedInRoom(t: Table, key: string, c: Clock)
    requires Inv(t) && |t.order| < SESSION_STATE_MAX_ENTRIES && key != "" && key !in t.entries
    requires c.last - c.created <= SESSION_STATE_TTL_MS
    ensures key in Get(t, Nameless(key), c).0.entries
    ensures Get(t, Nameless(key), c).0.entries[key] == NewEntry(Nameless(key), c.created)
  {
    CreateInRoom(t, key, c);
    PruneKeeps(Append(Prune(t, c.first, false), key, NewEntry(Nameless(key), c.created)), c.last, true, key);
  }

  lemma OthersInRoom(t: Table, key: string, c: Clock, k: string)
    requires Inv(t) && |t.order| < SESSION_STATE_MAX_ENTRIES && key != "" && key !in t.entries
    requires k in t.entries && !Stale(t.entries[k], c.first) && !Stale(t.entries[k], c.last)
    ensures k in Get(t, Nameless(key), c).0.entries && Get(t, Nameless(key), c).0.entries[k] == t.entries[k]
  {
    CreateInRoom(t, key, c);
    PruneKeeps(t, c.first, false, k);
    PruneKeeps(Append(Prune(t, c.first, false), key, NewEntry(Nameless(key), c.created)), c.last, true, k);
  }

  lemma NothingElse(t: Table, key: string, c: Clock, k: string)
    requires Inv(t) && |t.order| < SESSION_STATE_MAX_ENTRIES && key != "" && key !in t.entries
    requires k in Get(t, Nameless(key), c).0.entries
    ensures k in t.entries || k == key
  {
    CreateInRoom(t, key, c);
    PruneRestricts(t, c.first, false);
    PruneRestricts(Append(Prune(t, c.first, false), key, NewEntry(Nameless(key), c.created)), c.last, true);
  }

  /** Two calls with an empty id and different keys, at any times within the TTL, make two
      entries with the same empty id. */
  lemma EmptyIdsCollide(t: Table, a: string, b: string, c: Clock, d: Clock)
    requires Inv(t) && |t.order| < SESSION_STATE_MAX_ENTRIES - 1
    requires a != "" && b != "" && a != b && a !in t.entries && b !in t.entries
    requires c.last - c.created <= SESSION_STATE_TTL_MS && d.last - d.created <= SESSION_STATE_TTL_MS
    requires d.first - c.created <= SESSION_STATE_TTL_MS && d.last - c.created <= SESSION_STATE_TTL_MS
    ensures var u := Get(t, Nameless(a), c).0;
            var v := Get(u, Nameless(b), d).0;
            HasEmptyId(v, a) && HasEmptyId(v, b)
  {
    var u := Get(t, Nameless(a), c).0;
    CreateInRoom(t, a, c);
    GetKeepsInv(t, Nameless(a), c);
    CreatedInRoom(t, a, c);
    if b in u.entries { NothingElse(t, a, c, b); }
    CreatedInRoom(u, b, d);
    OthersInRoom(u, b, d, a);
  }

  lemma {:induction false} WithoutNothing(order: seq<string>)
    ensures Without(order, {}) == order
  {
    if order != [] { WithoutNothing(order[1..]); }
  }

  // ---------- the entry returned can be found again ----------

  lemma {:induction false} WithoutAppend(order: seq<string>, k: string, drop: set<string>)
    ensures Without(order + [k], drop) == Without(order, drop) + if k in drop then [] else [k]
  {
    if order == [] {
      assert order + [k] == [k];
    } else {
      assert (order + [k])[1..] == order[1..] + [k];
      WithoutAppend(order[1..], k, drop);
    }
  }

  lemma LastStaysLast(t: Table, key: string)
    requires t.Valid() && t.order != [] && t.order[|t.order| - 1] == key
    requires NoLaterThan(t, EntryAt(t, key).lastActivity)
    ensures ByActivity(t) != [] && ByActivity(t)[|ByActivity(t)| - 1] == key
  {
    var le := (a: string, b: string) => OlderEq(t.entries, a, b);
    var init := t.order[..|t.order| - 1];
    assert t.order == init + [key];
    assert key in t.order;
    forall x | x in init ensures le(x, key) {
      assert x in t.order;
    }
    SortKeepsLast(init, key, le);
  }

  /** The entry just created is the newest and the last, so the size eviction spares it. */
  lemma CreatedNotEvicted(t: Table, key: string)
    requires t.Valid() && t.order != [] && t.order[|t.order| - 1] == key
    requires |t.order| <= SESSION_STATE_MAX_ENTRIES + 1
    requires NoLaterThan(t, EntryAt(t, key).lastActivity)
    ensures key !in Evicted(t)
  {
    LastStaysLast(t, key);
    ByActivitySorts(t);
    EvictedSize(t);
    var s := ByActivity(t);
    forall i | 0 <= i < |Evicted(t)| ensures Evicted(t)[i] != key {
      assert i < |s| - 1 && Evicted(t)[i] == s[i] && s[i] != s[|s| - 1];
    }
  }

  lemma CreatedLast(t1: Table, key: string, e: Entry, now: int)
    requires t1.Valid() && key !in t1.entries && |t1.order| <= SESSION_STATE_MAX_ENTRIES && !Stale(e, now)
    ensures var t3 := Expire(Append(t1, key, e), now);
            && t3.Valid() && t3.order != [] && t3.order[|t3.order| - 1] == key && key in t3.entries
            && t3.entries[key] == e
            && |t3.order| <= SESSION_STATE_MAX_ENTRIES + 1
            && Restricts(t3, Append(t1, key, e))
  {
    var t2 := Append(t1, key, e);
    AppendValid(t1, key, e);
    DropValid(t2.(lastPrune := now), StaleKeys(t2, now));
    WithoutAppend(t1.order, key, StaleKeys(t2, now));
    WithoutSize(t2.order, StaleKeys(t2, now));
  }

  lemma CreatedSurvives(t1: Table, ref: Ref, c: Clock)
    requires t1.Valid() && Resolve(t1, ref).Missing? && |t1.order| <= SESSION_STATE_MAX_ENTRIES
    requires NoLaterThan(t1, c.created)
    ensures var key := ResolveKey(ref);
            key in Prune(Append(t1, key, NewEntry(ref, c.created)), c.last, true).entries
            <==> c.last - c.created <= SESSION_STATE_TTL_MS
  {
    var key := ResolveKey(ref);
    ResolveFacts(t1, ref);
    var e := NewEntry(ref, c.created);
    var t2 := Append(t1, key, e);
    if Stale(e, c.last) {
      assert key in StaleKeys(t2, c.last);
    } else {
      CreatedLast(t1, key, e, c.last);
      CreatedNotEvicted(Expire(t2, c.last), key);
    }
  }

  /** Right after a `get`, a `peek` with the same reference finds the same entry; the one
      exception is a creation whose two clock readings are more than the TTL apart. */
  lemma PeekAfterGet(t: Table, ref: Ref, c: Clock)
    requires Inv(t) && NoLaterThan(t, c.created)
    ensures var (u, key) := Get(t, ref, c);
            Peek(u, ref) == Some(key)
            <==> !(Resolve(Prune(t, c.first, false), ref).Missing? && c.last - c.created > SESSION_STATE_TTL_MS)
  {
    var t1 := Prune(t, c.first, false);
    PruneRestricts(t, c.first, false);
    RestrictsKeeps(t1, t);
    ResolveFacts(t1, ref);
    LookValid(t1, ref, c.created);
    LookUnique(t1, ref, c.created);
    var (t2, key) := Look(t1, ref, c.created);
    match Resolve(t1, ref)
    case Missing =>
      CreatedSurvives(t1, ref, c);
      if c.last - c.created > SESSION_STATE_TTL_MS { LostIsGone(t1, ref, c); }
    case ById(at) =>
      assert t2.entries[at].sessionId == ref.sessionId;
      FindByIdUnique(t2, ref.sessionId, at);
    case _ =>
  }

  lemma LostIsGone(t1: Table, ref: Ref, c: Clock)
    requires t1.Valid() && UniqueIds(t1) && Counts(t1) && Resolve(t1, ref).Missing?
    requires c.last - c.created > SESSION_STATE_TTL_MS
    ensures var key := ResolveKey(ref);
            Peek(Prune(Append(t1, key, NewEntry(ref, c.created)), c.last, true), ref) == None
  {
    var key := ResolveKey(ref);
    ResolveFacts(t1, ref);
    LookUnique(t1, ref, c.created);
    AppendValid(t1, key, NewEntry(ref, c.created));
    var t2 := Append(t1, key, NewEntry(ref, c.created));
    var u := Prune(t2, c.last, true);
    PruneRestricts(t2, c.last, true);
    assert key in StaleKeys(t2, c.last) && key !in u.entries;
    if Truthy(ref.sessionId) {
      FindInFirst(u.order, u.entries, ref.sessionId.value);
      OthersLackId(t1, ref);
    }
  }

  // ---------- queue depth is conserved ----------

  /** Sum of queueDepth over the listed keys. */
  ghost function Depth(order: seq<string>, entries: map<string, Entry>): int {
    if order == [] then 0
    else (if order[0] in entries then entries[order[0]].queueDepth else 0) + Depth(order[1..], entries)
  }

  ghost function TotalDepth(t: Table): int {
    Depth(t.order, t.entries)
  }

  lemma {:induction false} DepthFrame(order: seq<string>, m: map<string, Entry>, n: map<string, Entry>)
    requires forall k :: k in order ==> (k in m <==> k in n) && (k in m ==> m[k].queueDepth == n[k].queueDepth)
    ensures Depth(order, m) == Depth(order, n)
  {
    if order != [] {
      assert order == [order[0]] + order[1..];
      DepthFrame(order[1..], m, n);
    }
  }

  lemma {:induction false} DepthPut(order: seq<string>, m: map<string, Entry>, k: string, e: Entry)
    requires NoDup(order) && k in order && k in m
    ensures Depth(order, m[k := e]) == Depth(order, m) - m[k].queueDepth + e.queueDepth
  {
    assert order == [order[0]] + order[1..];
    if order[0] == k {
      DepthFrame(order[1..], m, m[k := e]);
    } else {
      DepthPut(order[1..], m, k, e);
    }
  }

  lemma {:induction false} DepthAppend(order: seq<string>, m: map<string, Entry>, k: string)
    requires k in m
    ensures Depth(order + [k], m) == Depth(order, m) + m[k].queueDepth
  {
    if order == [] {
      assert order + [k] == [k];
    } else {
      assert (order + [k])[1..] == order[1..] + [k];
      DepthAppend(order[1..], m, k);
    }
  }

  /** Dropping keys takes away exactly their depth. */
  lemma {:induction false} DepthWithout(order: seq<string>, m: map<string, Entry>, drop: set<string>)
    ensures Depth(order, m) == Depth(Without(order, drop), m - drop) + Depth(Without(order, Elems(order) - drop), m)
  {
    if order != [] {
      var rest := order[1..];
      DepthWithout(rest, m, drop);
      assert order == [order[0]] + rest;
      WithoutFrame(rest, Elems(order) - drop, Elems(rest) - drop);
      var a, b := Without(rest, drop), Without(rest, Elems(rest) - drop);
      assert order[0] in Elems(order);
      assert ([order[0]] + a)[1..] == a && ([order[0]] + b)[1..] == b;
      if order[0] in drop {
        assert Without(order, drop) == a && Without(order, Elems(order) - drop) == [order[0]] + b;
      } else {
        assert Without(order, drop) == [order[0]] + a && Without(order, Elems(order) - drop) == b;
      }
    }
  }

  lemma {:induction false} WithoutFrame(order: seq<string>, a: set<string>, b: set<string>)
    requires forall k :: k in order ==> (k in a <==> k in b)
    ensures Without(order, a) == Without(order, b)
  {
    if order != [] {
      assert order == [order[0]] + order[1..];
      WithoutFrame(order[1..], a, b);
    }
  }

  lemma {:induction false} DepthZero(order: seq<string>, m: map<string, Entry>)
    requires forall k :: k in order && k in m ==> m[k].queueDepth == 0
    ensures Depth(order, m) == 0
  {
    if order != [] {
      assert order == [order[0]] + order[1..];
      DepthZero(order[1..], m);
    }
  }

  ghost function DepthOf(t: Table, keys: set<string>): int {
    Depth(Without(t.order, Elems(t.order) - keys), t.entries)
  }

  lemma ExpireKeepsDepth(t: Table, now: int)
    requires t.Valid() && Counts(t)
    ensures TotalDepth(Expire(t, now)) == TotalDepth(t)
  {
    var stale := StaleKeys(t, now);
    DepthWithout(t.order, t.entries, stale);
    WithoutMembers(t.order, Elems(t.order) - stale);
    DepthZero(Without(t.order, Elems(t.order) - stale), t.entries);
  }

  lemma LookKeepsDepth(t: Table, ref: Ref, created: int)
    requires t.Valid()
    ensures TotalDepth(Look(t, ref, created).0) == TotalDepth(t)
  {
    ResolveFacts(t, ref);
    var key := ResolveKey(ref);
    match Resolve(t, ref)
    case Direct => DepthPut(t.order, t.entries, key, Refresh(EntryAt(t, key), ref));
    case ById(at) => DepthPut(t.order, t.entries, at, Refresh(EntryAt(t, at), ref));
    case Missing =>
      DepthFrame(t.order, t.entries, t.entries[key := NewEntry(ref, created)]);
      DepthAppend(t.order, t.entries[key := NewEntry(ref, created)], key);
    case Merging(from) =>
      DropOne(t, from);
      var d := Drop(t, {from});
      DropValid(t, {from});
      DepthPut(d.order, d.entries, key, Refresh(Merge(EntryAt(t, key), EntryAt(t, from)), ref));
    case Rekey(from) =>
      DropOne(t, from);
      var d := Drop(t, {from});
      DropValid(t, {from});
      var e := Refresh(EntryAt(t, from), ref);
      DepthFrame(d.order, d.entries, d.entries[key := e]);
      DepthAppend(d.order, d.entries[key := e], key);
  }

  lemma DropOne(t: Table, k: string)
    requires t.Valid() && k in t.entries
    ensures TotalDepth(Drop(t, {k})) == TotalDepth(t) - t.entries[k].queueDepth
  {
    DepthWithout(t.order, t.entries, {k});
    OnlyOne(t.order, k);
  }

  lemma {:induction false} OnlyOne(order: seq<string>, k: string)
    requires NoDup(order) && k in order
    ensures Without(order, Elems(order) - {k}) == [k]
  {
    var rest := order[1..];
    assert order == [order[0]] + rest;
    if order[0] == k {
      WithoutFrame(rest, Elems(order) - {k}, Elems(rest));
      WithoutAll(rest, Elems(rest));
    } else {
      OnlyOne(rest, k);
      WithoutFrame(rest, Elems(order) - {k}, Elems(rest) - {k});
    }
  }

  lemma {:induction false} WithoutAll(order: seq<string>, drop: set<string>)
    requires forall k :: k in order ==> k in drop
    ensures Without(order, drop) == []
  {
    if order != [] {
      assert order == [order[0]] + order[1..];
      WithoutAll(order[1..], drop);
    }
  }

  /** The entries a `get` evicts for size: only a creation can, and only one over the limit. */
  ghost function SizeEvicted(t: Table, ref: Ref, c: Clock): set<string> {
    var t1 := Prune(t, c.first, false);
    if Resolve(t1, ref).Missing? then Elems(Evicted(Expire(Look(t1, ref, c.created).0, c.last))) else {}
  }

  ghost function BeforeEviction(t: Table, ref: Ref, c: Clock): Table {
    Expire(Look(Prune(t, c.first, false), ref, c.created).0, c.last)
  }

  /** Resolving a reference conserves the total queue depth, up to what the size
      eviction takes; without a size eviction it conserves it exactly. */
  lemma GetConservesDepth(t: Table, ref: Ref, c: Clock)
    requires Inv(t)
    ensures TotalDepth(Get(t, ref, c).0) == TotalDepth(t) - DepthOf(BeforeEviction(t, ref, c), SizeEvicted(t, ref, c))
    ensures SizeEvicted(t, ref, c) == {} ==> TotalDepth(Get(t, ref, c).0) == TotalDepth(t)
    ensures |SizeEvicted(t, ref, c)| <= 1
  {
    var t1 := Prune(t, c.first, false);
    FirstPruneKeepsDepth(t, c.first);
    PruneRestricts(t, c.first, false);
    RestrictsKeeps(t1, t);
    LookKeepsDepth(t1, ref, c.created);
    LookValid(t1, ref, c.created);
    LookUnique(t1, ref, c.created);
    var t2 := Look(t1, ref, c.created).0;
    var t3 := Expire(t2, c.last);
    WithoutAll(t3.order, Elems(t3.order));
    assert Elems(t3.order) - {} == Elems(t3.order);
    if Resolve(t1, ref).Missing? {
      ExpireKeepsDepth(t2, c.last);
      DropValid(t2.(lastPrune := c.last), StaleKeys(t2, c.last));
      WithoutSize(t2.order, StaleKeys(t2, c.last));
      EvictionExact(t3);
      var ev := Elems(Evicted(t3));
      assert (set k | k in Evicted(t3)) == ev;
      DepthWithout(t3.order, t3.entries, ev);
    }
  }

  lemma FirstPruneKeepsDepth(t: Table, now: int)
    requires Inv(t)
    ensures TotalDepth(Prune(t, now, false)) == TotalDepth(t)
  {
    if !PruneSkipped(t, now, false) {
      ExpireKeepsDepth(t, now);
      WithoutSize(t.order, StaleKeys(t, now));
      var t1 := Expire(t, now);
      assert (set k | k in Evicted(t1)) == {};
      WithoutNothing(t1.order);
      assert t1.entries - {} == t1.entries;
    }
  }

  // ---------- generations and activity never go back ----------

  ghost predicate AtLeast(e: Entry, d: Entry) {
    e.generation >= d.generation && e.lastActivity >= d.lastActivity
  }

  /** An entry that survives the pruning never loses generation or activity: not where
      it stays, not where it is merged, not where it is re-keyed. */
  lemma GetNeverLowers(t: Table, ref: Ref, c: Clock)
    requires Inv(t)
    ensures var t1 := Prune(t, c.first, false);
            var (u, key) := Get(t, ref, c);
            && (forall k :: k in t1.entries && k in u.entries ==> AtLeast(u.entries[k], t1.entries[k]))
            && match Resolve(t1, ref)
               case Merging(from) => key in u.entries && from in t1.entries && AtLeast(u.entries[key], t1.entries[from])
               case Rekey(from) => key in u.entries && from in t1.entries && AtLeast(u.entries[key], t1.entries[from])
               case _ => true
  {
    var t1 := Prune(t, c.first, false);
    PruneRestricts(t, c.first, false);
    ResolveFacts(t1, ref);
    LookValid(t1, ref, c.created);
    var t2 := Look(t1, ref, c.created).0;
    if Resolve(t1, ref).Missing? {
      PruneRestricts(t2, c.last, true);
    }
  }

  /** What one `get` can evict for size: at most one entry, no more recently active than
      anything that stays, and never the entry just created. */
  lemma GetEvictsOldest(t: Table, ref: Ref, c: Clock, a: string, b: string)
    requires Inv(t) && NoLaterThan(t, c.created)
    requires a in SizeEvicted(t, ref, c) && b in Get(t, ref, c).0.entries
    ensures a != Get(t, ref, c).1
    ensures a in BeforeEviction(t, ref, c).entries
    ensures BeforeEviction(t, ref, c).entries[a].lastActivity <= Get(t, ref, c).0.entries[b].lastActivity
  {
    var t1 := Prune(t, c.first, false);
    PruneRestricts(t, c.first, false);
    ResolveFacts(t1, ref);
    CreationEvictsOldest(t1, ref, c, a, b);
  }

  lemma CreationEvictsOldest(t1: Table, ref: Ref, c: Clock, a: string, b: string)
    requires t1.Valid() && NoLaterThan(t1, c.created)
    requires |t1.order| <= SESSION_STATE_MAX_ENTRIES && ResolveKey(ref) !in t1.entries
    requires var t2 := Append(t1, ResolveKey(ref), NewEntry(ref, c.created));
             a in Evicted(Expire(t2, c.last)) && b in Prune(t2, c.last, true).entries
    ensures var t2 := Append(t1, ResolveKey(ref), NewEntry(ref, c.created));
            var t3 := Expire(t2, c.last);
            && a != ResolveKey(ref) && a in t3.entries
            && t3.entries[a].lastActivity <= Prune(t2, c.last, true).entries[b].lastActivity
  {
    var key, e := ResolveKey(ref), NewEntry(ref, c.created);
    var t2 := Append(t1, key, e);
    if Stale(e, c.last) { StaleCreationEvictsNothing(t1, key, e, c.last); }
    CreatedIsSpared(t1, key, e, c.last);
    ForcedPrune(t2, c.last, b);
    EvictedNoNewer(Expire(t2, c.last), a, b);
  }

  /** A new entry that is stale at once makes room for itself. */
  lemma StaleCreationEvictsNothing(t1: Table, key: string, e: Entry, now: int)
    requires t1.Valid() && key !in t1.entries && |t1.order| <= SESSION_STATE_MAX_ENTRIES && Stale(e, now)
    ensures Evicted(Expire(Append(t1, key, e), now)) == []
  {
    var t2 := Append(t1, key, e);
    AppendValid(t1, key, e);
    WithoutSize(t2.order, StaleKeys(t2, now));
    assert key in Elems(t2.order) * StaleKeys(t2, now);
  }

  /** The first stage of the pruning after a creation leaves the new entry, which the
      second stage spares. */
  lemma CreatedIsSpared(t1: Table, key: string, e: Entry, now: int)
    requires t1.Valid() && key !in t1.entries && |t1.order| <= SESSION_STATE_MAX_ENTRIES
    requires NoLaterThan(t1, e.lastActivity) && !Stale(e, now)
    ensures var t3 := Expire(Append(t1, key, e), now); t3.Valid() && key !in Evicted(t3)
  {
    CreatedLast(t1, key, e, now);
    CreatedNotEvicted(Expire(Append(t1, key, e), now), key);
  }

  /** What a forced pruning keeps has passed both stages. */
  lemma ForcedPrune(t: Table, now: int, b: string)
    requires b in Prune(t, now, true).entries
    ensures var t3 := Expire(t, now);
            b in t3.entries && b !in Evicted(t3) && Prune(t, now, true).entries[b] == t3.entries[b]
  {
  }

  lemma EvictedNoNewer(t3: Table, a: string, b: string)
    requires t3.Valid() && a in Evicted(t3) && b in t3.entries && b !in Evicted(t3)
    ensures a in t3.entries && t3.entries[a].lastActivity <= t3.entries[b].lastActivity
  {
    EvictionExact(t3);
    assert a in Elems(Evicted(t3));
  }

  // ---------- entries and their keys ----------

  /** A reference made of the fields of the entry resolves to this key. */
  predicate OwnKey(k: string, e: Entry) {
    ResolveKey(Ref(e.sessionId, e.sessionKey, e.sessionFile)) == k
  }

  ghost predicate SelfKeyed(t: Table) {
    forall k :: k in t.entries ==> OwnKey(k, t.entries[k])
  }

  /** The one lookup that gives an entry the key of another: a reference by the id "unknown"
      merges into the entry kept for nameless references, which takes over the other's key. */
  predicate Misplaces(t: Table, ref: Ref) {
    && Resolve(t, ref).Merging? && !Truthy(ref.sessionKey)
    && ResolveKey(ref) == "unknown" && EntryAt(t, "unknown").sessionKey == None
  }

  lemma LookKeepsOthers(t: Table, ref: Ref, created: int, k: string)
    requires t.Valid() && k in Look(t, ref, created).0.entries && k != Look(t, ref, created).1
    ensures k in t.entries && Look(t, ref, created).0.entries[k] == t.entries[k]
  {
  }

  /** The entry returned is under its own key, except in that one lookup. */
  lemma LookOwnKey(t: Table, ref: Ref, created: int)
    requires t.Valid() && UniqueIds(t) && SelfKeyed(t)
    ensures var (u, key) := Look(t, ref, created);
            key in u.entries && (OwnKey(key, u.entries[key]) <==> !Misplaces(t, ref))
  {
    ResolveFacts(t, ref);
    if Truthy(ref.sessionId) { FindInFirst(t.order, t.entries, ref.sessionId.value); }
    var key := ResolveKey(ref);
    match Resolve(t, ref)
    case Direct => assert OwnKey(key, t.entries[key]);
    case Merging(from) => MergedOwnKey(t, ref, from);
    case Rekey(from) => assert OwnKey(from, t.entries[from]);
    case ById(at) => assert OwnKey(at, t.entries[at]);
    case Missing =>
  }

  lemma MergedOwnKey(t: Table, ref: Ref, from: string)
    requires t.Valid() && UniqueIds(t) && SelfKeyed(t)
    requires Resolve(t, ref) == Merging(from) && from in t.entries && ResolveKey(ref) in t.entries &&
             Truthy(ref.sessionId)
    requires t.entries[from].sessionId == ref.sessionId
    ensures OwnKey(ResolveKey(ref), Refresh(Merge(t.entries[ResolveKey(ref)], t.entries[from]), ref)) <==>
            !Misplaces(t, ref)
  {
    var key := ResolveKey(ref);
    assert OwnKey(key, t.entries[key]) && OwnKey(from, t.entries[from]);
  }

  lemma LookSelfKeyed(t: Table, ref: Ref, created: int)
    requires t.Valid() && UniqueIds(t) && SelfKeyed(t)
    ensures SelfKeyed(Look(t, ref, created).0) <==> !Misplaces(t, ref)
  {
    var (u, key) := Look(t, ref, created);
    LookOwnKey(t, ref, created);
    forall k | k in u.entries && k != key ensures OwnKey(k, u.entries[k]) {
      LookKeepsOthers(t, ref, created, k);
    }
  }

  /** A `get` keeps every entry under the key that its own fields resolve to, with one exception. */
  lemma GetSelfKeyed(t: Table, ref: Ref, c: Clock)
    requires Inv(t) && SelfKeyed(t)
    ensures SelfKeyed(Get(t, ref, c).0) <==> !Misplaces(Prune(t, c.first, false), ref)
  {
    var t1 := Prune(t, c.first, false);
    PruneRestricts(t, c.first, false);
    RestrictsKeeps(t1, t);
    LookSelfKeyed(t1, ref, c.created);
    if Resolve(t1, ref).Missing? {
      LookValid(t1, ref, c.created);
      PruneRestricts(Look(t1, ref, c.created).0, c.last, true);
    }
  }

  /** An input for it: an entry made without any name, and a session called "unknown" under
      the key "K". Looking that session up by its id leaves the key "K" in the nameless entry. */
  lemma UnknownMisplaced()
    ensures var nameless := NewEntry(Ref(None, None, None), 0);
            var session := NewEntry(Ref(Some("unknown"), Some("K"), None), 0);
            var t := Table(["unknown", "K"], map["unknown" := nameless, "K" := session], 0);
            Inv(t) && SelfKeyed(t) && !SelfKeyed(Get(t, Ref(Some("unknown"), None, None), Clock(0, 0, 0)).0)
  {
    var nameless, session := NewEntry(Ref(None, None, None), 0), NewEntry(Ref(Some("unknown"), Some("K"), None), 0);
    var t := Table(["unknown", "K"], map["unknown" := nameless, "K" := session], 0);
    var ref := Ref(Some("unknown"), None, None);
    assert "unknown"[0] != "K"[0];
    assert "K" != "" && "unknown" != "";
    assert FindIn(["K"], t.entries, "unknown") == Some("K") && t.order[1..] == ["K"];
    assert Prune(t, 0, false) == t;
    assert FindById(t, Some("unknown")) == Some("K");
    GetSelfKeyed(t, ref, Clock(0, 0, 0));
  }

  // ---------- lookups while the table is iterated ----------

  /** The pruning of a table that is not over the limit keeps the order of the keys exactly
      when it is skipped or finds nothing stale. */
  lemma PruneOrder(t: Table, now: int)
    requires t.Valid() && |t.order| <= SESSION_STATE_MAX_ENTRIES
    ensures Prune(t, now, false).order == t.order <==> PruneSkipped(t, now, false) || StaleKeys(t, now) == {}
  {
    if !PruneSkipped(t, now, false) {
      var stale := StaleKeys(t, now);
      WithoutSize(t.order, stale);
      var t1 := Expire(t, now);
      assert (set x | x in Evicted(t1)) == {};
      WithoutNothing(t1.order);
      if stale == {} {
        WithoutNothing(t.order);
      } else {
        var k :| k in stale;
        assert k in Elems(t.order) * stale;
      }
    }
  }

  /** A `get` by the names of an entry that its pruning leaves, as the heartbeat makes it while
      it iterates: it returns that entry, and keeps the keys in their order if and only if
      its pruning is skipped or finds nothing stale. */
  lemma OwnGetKeepsOrder(t: Table, k: string, c: Clock)
    requires Inv(t) && k in t.entries && OwnKey(k, t.entries[k])
    requires PruneSkipped(t, c.first, false) || !Stale(t.entries[k], c.first)
    ensures var ref := Ref(t.entries[k].sessionId, t.entries[k].sessionKey, None);
            && Get(t, ref, c).1 == k
            && (Get(t, ref, c).0.order == t.order <==> PruneSkipped(t, c.first, false) || StaleKeys(t, c.first) == {})
  {
    var ref := Ref(t.entries[k].sessionId, t.entries[k].sessionKey, None);
    var t1 := Prune(t, c.first, false);
    PruneRestricts(t, c.first, false);
    RestrictsKeeps(t1, t);
    if !PruneSkipped(t, c.first, false) { PruneKeeps(t, c.first, false, k); }
    PruneOrder(t, c.first);
    if Truthy(ref.sessionId) { FindByIdUnique(t1, ref.sessionId, k); }
    assert Resolve(t1, ref) == Direct;
  }

  /** Within the prune interval after a forced pruning, as at the start of a heartbeat, such
      a `get` never changes the keys or their order. */
  lemma HeartbeatKeepsOrder(s: Table, now: int, k: string, c: Clock)
    requires Inv(s) && c.first - now < SESSION_STATE_PRUNE_INTERVAL_MS
    requires var t := Prune(s, now, true); k in t.entries && OwnKey(k, t.entries[k])
    ensures var t := Prune(s, now, true);
            var ref := Ref(t.entries[k].sessionId, t.entries[k].sessionKey, None);
            Get(t, ref, c).1 == k && Get(t, ref, c).0.order == t.order
  {
    var t := Prune(s, now, true);
    PruneRestricts(s, now, true);
    RestrictsKeeps(t, s);
    OwnGetKeepsOrder(t, k, c);
  }
}
