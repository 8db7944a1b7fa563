/** The session table as the code keeps it: one mutable dictionary, changed in place. */
module SessionStore {
  import opened Options
  import opened Sorting
  import opened Sessions
  import opened Recovery
  import Attention
  import Diagnostics

  lemma {:induction false} WithoutTwice(order: seq<string>, a: set<string>, b: set<string>)
    ensures Without(Without(order, a), b) == Without(order, a + b)
  {
    if order != [] {
      WithoutTwice(order[1..], a, b);
      var rest := Without(order[1..], a);
      if order[0] in a {
        assert Without(order, a) == rest;
      } else {
        assert Without(order, a) == [order[0]] + rest && ([order[0]] + rest)[1..] == rest;
      }
    }
  }

  lemma DropTwice(t: Table, a: set<string>, b: set<string>)
    ensures Drop(Drop(t, a), b) == Drop(t, a + b)
  {
    WithoutTwice(t.order, a, b);
    assert (t.entries - a) - b == t.entries - (a + b);
  }

  lemma DropNothing(t: Table)
    ensures Drop(t, {}) == t
  {
    WithoutNothing(t.order);
    assert t.entries - {} == t.entries;
  }

  lemma GetFound(t: Table, ref: Ref, c: Clock)
    requires var t1 := Prune(t, c.first, false); ResolveKey(ref) in t1.entries || FindById(t1, ref.sessionId).Some?
    ensures Sessions.Get(t, ref, c) == Look(Prune(t, c.first, false), ref, c.created)
  {
  }

  lemma GetMissing(t: Table, ref: Ref, c: Clock)
    requires t.Valid()
    requires var t1 := Prune(t, c.first, false); ResolveKey(ref) !in t1.entries && FindById(t1, ref.sessionId) == None
    ensures var t1 := Prune(t, c.first, false);
            var t2 := Append(t1, ResolveKey(ref), NewEntry(ref, c.created));
            t2.Valid() && Sessions.Get(t, ref, c) == (Prune(t2, c.last, true), ResolveKey(ref))
  {
    PruneRestricts(t, c.first, false);
    AppendValid(Prune(t, c.first, false), ResolveKey(ref), NewEntry(ref, c.created));
  }

  /** The loop that keeps the larger count of each warning bucket. */
  method MergeBucketsInto(target: map<string, int>, source: map<string, int>) returns (merged: map<string, int>)
    ensures merged == MergeBuckets(target, source)
  {
    merged := target;
    var rest := source.Keys;
    while rest != {}
      invariant rest <= source.Keys
      invariant merged.Keys == target.Keys + (source.Keys - rest)
      invariant forall k :: k in merged ==>
        merged[k] == if k in source && k !in rest then MergeBuckets(target, source)[k] else target[k]
      decreases rest
    {
      var bucket :| bucket in rest;
      var count := if bucket in merged then merged[bucket] else 0;
      merged := merged[bucket := if count >= source[bucket] then count else source[bucket]];
      rest := rest - {bucket};
    }
  }

  /** The loop that keeps the later poll of each command. */
  method MergePollsInto(target: map<string, Poll>, source: map<string, Poll>) returns (merged: map<string, Poll>)
    ensures merged == MergePolls(target, source)
  {
    merged := target;
    var rest := source.Keys;
    while rest != {}
      invariant rest <= source.Keys
      invariant merged.Keys <= target.Keys + (source.Keys - rest) && target.Keys <= merged.Keys
      invariant forall k :: k in source && k !in rest ==> k in merged
      invariant forall k :: k in merged ==>
        merged[k] == if k in source && k !in rest then MergePolls(target, source)[k] else target[k]
      decreases rest
    {
      var command :| command in rest;
      if command !in merged || source[command].lastPollAt > merged[command].lastPollAt {
        merged := merged[command := source[command]];
      }
      rest := rest - {command};
    }
  }

  method MergeToolsInto(target: Tools, source: Tools) returns (merged: Tools)
    ensures merged == MergeTools(target, source)
  {
    var history := if source.history != [] then target.history + source.history else target.history;
    assert target.history + [] == target.history;
    var buckets := MergeBucketsInto(target.buckets, source.buckets);
    var polls := MergePollsInto(target.polls, source.polls);
    merged := Tools(history, buckets, polls);
  }

  /** The classification of an entry, if `log_session_attention` hands it back. */
  method Judge(e: Entry, a: Attention.Activity, thresholdMs: int, abortMs: int, ageMs: int)
      returns (classification: Option<Attention.Classification>)
    ensures classification == Attention.Returned(e, a, thresholdMs, abortMs, ageMs)
  {
    var cls := Attention.Classify(e.state, e.queueDepth, a, thresholdMs);
    if cls.recoveryEligible || Attention.ActiveAbortEligible(cls, a, abortMs) { return Some(cls); }
    var last := if cls.eventType == Attention.Stuck then e.stuckWarnAge else e.longRunningWarnAge;
    if cls.eventType != Attention.Stalled && ageMs < Attention.NextWarnAge(last, thresholdMs) { return None; }
    classification := Some(cls);
  }

  class Store {
    var order: seq<string>
    var entries: map<string, Entry>
    var lastPruneAt: int

    function Contents(): Table
      reads this
    {
      Table(order, entries, lastPruneAt)
    }

    constructor ()
      ensures Contents() == Table([], map[], 0)
    {
      order, entries, lastPruneAt := [], map[], 0;
    }

    /** Deletes the listed keys one by one. */
    method Delete(keys: seq<string>)
      modifies this
      ensures Contents() == Drop(old(Contents()), Elems(keys))
    {
      DropNothing(Contents());
      assert Elems(keys[..0]) == {};
      for i := 0 to |keys|
        invariant Contents() == Drop(old(Contents()), Elems(keys[..i]))
      {
        DropTwice(old(Contents()), Elems(keys[..i]), {keys[i]});
        assert keys[..i + 1] == keys[..i] + [keys[i]];
        assert Elems(keys[..i + 1]) == Elems(keys[..i]) + {keys[i]};
        order := Without(order, {keys[i]});
        entries := entries - {keys[i]};
      }
      assert keys[..|keys|] == keys;
    }

    /** `prune_diagnostic_session_states` */
    method Prune(now: int, force: bool)
      requires Contents().Valid()
      modifies this
      ensures Contents() == Sessions.Prune(old(Contents()), now, force)
    {
      var tooMany := |order| > SESSION_STATE_MAX_ENTRIES;
      if !force && !tooMany && now - lastPruneAt < SESSION_STATE_PRUNE_INTERVAL_MS {
        return;
      }
      lastPruneAt := now;
      var staleKeys: seq<string> := [];
      for i := 0 to |order|
        invariant forall k :: k in staleKeys <==> k in order[..i] && Stale(entries[k], now)
      {
        var k := order[i];
        assert order[..i + 1] == order[..i] + [k];
        if Stale(entries[k], now) { staleKeys := staleKeys + [k]; }
      }
      assert order[..|order|] == order;
      assert Elems(staleKeys) == StaleKeys(old(Contents()), now);
      Delete(staleKeys);
      ghost var t1 := Contents();
      assert t1 == Expire(old(Contents()), now);
      if |order| <= SESSION_STATE_MAX_ENTRIES {
        assert (set k | k in Evicted(t1)) == {};
        DropNothing(t1);
        return;
      }
      var excess := |order| - SESSION_STATE_MAX_ENTRIES;
      var known := entries;
      var ordered := Sort(order, (a: string, b: string) => OlderEq(known, a, b));
      assert ordered == ByActivity(t1);
      var n := if excess <= |ordered| then excess else |ordered|;
      Delete(ordered[..n]);
      assert (set k | k in Evicted(t1)) == Elems(ordered[..n]);
    }

    /** `_find_state_entry_by_session_id`: the first entry with the id. */
    method FindBySessionId(id: string) returns (key: Option<string>)
      requires Contents().Valid()
      ensures key == FindIn(order, entries, id)
    {
      key := None;
      var i := 0;
      assert order[0..] == order;
      while i < |order|
        invariant i <= |order|
        invariant FindIn(order, entries, id) == FindIn(order[i..], entries, id)
      {
        if entries[order[i]].sessionId == Some(id) {
          return Some(order[i]);
        }
        assert order[i..][1..] == order[i + 1..];
        i := i + 1;
      }
    }

    /** `peek_diagnostic_session_state` */
    method Peek(ref: Ref) returns (key: Option<string>)
      requires Contents().Valid()
      ensures key == Sessions.Peek(Contents(), ref)
    {
      if ResolveKey(ref) in entries { return Some(ResolveKey(ref)); }
      key := None;
      if Truthy(ref.sessionId) { key := FindBySessionId(ref.sessionId.value); }
    }

    /** `_merge_session_state`, field by field. */
    method MergeInto(target: string, source: Entry)
      requires target in entries
      modifies this`entries
      ensures entries == old(entries)[target := Merge(old(entries[target]), source)]
    {
      var e := entries[target];
      var newer := source.lastActivity > e.lastActivity;
      var moreActive := source.lastActivity == e.lastActivity && Priority(source.state) > Priority(e.state);
      if e.sessionId == None { e := e.(sessionId := source.sessionId); }
      if e.sessionKey == None { e := e.(sessionKey := source.sessionKey); }
      if Truthy(source.sessionFile) && (newer || !Truthy(e.sessionFile)) { e := e.(sessionFile := source.sessionFile); }
      if newer || moreActive { e := e.(state := source.state); }
      e := e.(generation := Max(e.generation, source.generation));
      e := e.(lastActivity := Max(e.lastActivity, source.lastActivity));
      e := e.(queueDepth := e.queueDepth + source.queueDepth);
      e := e.(activeQueuedTurn := e.activeQueuedTurn || source.activeQueuedTurn);
      var tools := MergeToolsInto(e.tools, source.tools);
      e := e.(tools := tools);
      entries := entries[target := e];
    }

    /** Writes what the reference names into the entry found. */
    method RefreshAt(key: string, ref: Ref)
      requires key in entries
      modifies this`entries
      ensures entries == old(entries)[key := Refresh(old(entries[key]), ref)]
    {
      var e := entries[key];
      if Truthy(ref.sessionId) { e := e.(sessionId := ref.sessionId); }
      if Truthy(ref.sessionKey) { e := e.(sessionKey := ref.sessionKey); }
      if Truthy(ref.sessionFile) { e := e.(sessionFile := ref.sessionFile); }
      entries := entries[key := e];
    }

    /** The case of `get` in which an entry is found. */
    method UseExisting(ref: Ref, byId: Option<string>, created: int) returns (key: string)
      requires Contents().Valid() && byId == FindById(Contents(), ref.sessionId)
      requires ResolveKey(ref) in entries || byId.Some?
      modifies this
      ensures (Contents(), key) == Look(old(Contents()), ref, created)
    {
      ghost var t1 := Contents();
      ResolveFacts(t1, ref);
      key := ResolveKey(ref);
      if key in entries && byId.Some? && byId.value != key {
        MergeInto(key, entries[byId.value]);
        ghost var merged := Contents();
        Delete([byId.value]);
        assert Elems([byId.value]) == {byId.value};
        MergeThenDrop(t1, merged, key, byId.value);
      } else if key !in entries && Truthy(ref.sessionKey) {
        var existing := entries[byId.value];
        Delete([byId.value]);
        assert Elems([byId.value]) == {byId.value};
        order, entries := order + [key], entries[key := existing];
      } else if key !in entries {
        key := byId.value;
      }
      RefreshAt(key, ref);
      SameTable(Contents(), Look(t1, ref, created).0);
    }

    /** `get_diagnostic_session_state`; the entry returned is named by its key. */
    method Get(ref: Ref, c: Clock) returns (key: string)
      requires Contents().Valid()
      modifies this
      ensures (Contents(), key) == Sessions.Get(old(Contents()), ref, c)
    {
      PruneRestricts(Contents(), c.first, false);
      Prune(c.first, false);
      var byId: Option<string> := None;
      if Truthy(ref.sessionId) { byId := FindBySessionId(ref.sessionId.value); }
      if ResolveKey(ref) in entries || byId.Some? {
        GetFound(old(Contents()), ref, c);
        key := UseExisting(ref, byId, c.created);
      } else {
        GetMissing(old(Contents()), ref, c);
        key := ResolveKey(ref);
        order, entries := order + [key], entries[key := NewEntry(ref, c.created)];
        Prune(c.last, true);
      }
    }

    /** What `log_message_queued` writes. */
    method EditQueued(key: string, ghost step: Diagnostics.Step, now: int)
      requires step.Queue? && step.now == now
      modifies this`entries
      ensures Contents() == Modify(old(Contents()), key, (e: Entry) => Diagnostics.Edit(step, e))
    {
      if key in entries {
        var e := entries[key];
        e := e.(queueDepth := e.queueDepth + 1);
        e := e.(lastActivity := now, generation := e.generation + 1);
        e := e.(stuckWarnAge := None, longRunningWarnAge := None);
        entries := entries[key := e];
      }
    }

    /** `log_message_queued` */
    method QueueMessage(ref: Ref, c: Clock, now: int)
      requires Contents().Valid()
      modifies this
      ensures Contents() == Diagnostics.Do(old(Contents()), Diagnostics.Queue(ref, c, now))
    {
      var key := Get(ref, c);
      EditQueued(key, Diagnostics.Queue(ref, c, now), now);
    }

    /** What `log_session_state_change` writes. */
    method EditChanged(key: string, ghost step: Diagnostics.Step, state: RunState, now: int)
      requires step.Change? && step.now == now && step.state == state
      modifies this`entries
      ensures Contents() == Modify(old(Contents()), key, (e: Entry) => Diagnostics.Edit(step, e))
    {
      if key in entries {
        var e := entries[key];
        var previous := e.state;
        e := e.(state := state, lastActivity := now, generation := e.generation + 1);
        e := e.(stuckWarnAge := None, longRunningWarnAge := None);
        if state == Processing && previous != Processing { e := e.(activeQueuedTurn := e.queueDepth > 0); }
        if state == Idle { e := e.(queueDepth := Max(0, e.queueDepth - 1), activeQueuedTurn := false); }
        entries := entries[key := e];
      }
    }

    /** `log_session_state_change` */
    method ChangeState(ref: Ref, state: RunState, c: Clock, now: int)
      requires Contents().Valid()
      modifies this
      ensures Contents() == Diagnostics.Do(old(Contents()), Diagnostics.Change(ref, state, c, now))
    {
      var key := Get(ref, c);
      EditChanged(key, Diagnostics.Change(ref, state, c, now), state, now);
    }

    /** What `mark_diagnostic_session_progress` writes. */
    method EditProgress(key: string, ghost step: Diagnostics.Step, now: int)
      requires step.Progress? && step.now == now
      modifies this`entries
      ensures Contents() == Modify(old(Contents()), key, (e: Entry) => Diagnostics.Edit(step, e))
    {
      if key in entries {
        var e := entries[key];
        e := e.(lastActivity := now, generation := e.generation + 1);
        entries := entries[key := e.(stuckWarnAge := None, longRunningWarnAge := None)];
      }
    }

    /** `mark_diagnostic_session_progress` */
    method MarkProgress(ref: Ref, c: Clock, now: int)
      requires Contents().Valid()
      modifies this
      ensures Contents() == Diagnostics.Do(old(Contents()), Diagnostics.Progress(ref, c, now))
    {
      var key := Get(ref, c);
      EditProgress(key, Diagnostics.Progress(ref, c, now), now);
    }

    /** What `log_session_attention` writes: the marker of the warning that went out. */
    method EditAttention(key: string, ghost step: Diagnostics.Step, a: Attention.Activity, thresholdMs: int, ageMs: int)
      requires step.Attend? && step.activity == a && step.thresholdMs == thresholdMs && step.ageMs == ageMs
      modifies this`entries
      ensures Contents() == Modify(old(Contents()), key, (e: Entry) => Diagnostics.Edit(step, e))
    {
      if key in entries {
        var e := entries[key];
        var cls := Attention.Classify(e.state, e.queueDepth, a, thresholdMs);
        if cls.eventType == Attention.Stuck && ageMs >= Attention.NextWarnAge(e.stuckWarnAge, thresholdMs) {
          e := e.(stuckWarnAge := Some(ageMs));
        }
        if cls.eventType == Attention.LongRunning && ageMs >= Attention.NextWarnAge(e.longRunningWarnAge, thresholdMs) {
          e := e.(longRunningWarnAge := Some(ageMs));
        }
        entries := entries[key := e];
      }
    }

    /** `log_session_attention`: its result is the classification, or nothing when the
        warning is held back and no recovery is due. */
    method LogAttention(ref: Ref, a: Attention.Activity, thresholdMs: int, abortMs: int, ageMs: int, c: Clock)
        returns (classification: Option<Attention.Classification>)
      requires Contents().Valid()
      modifies this
      ensures Contents() == Diagnostics.Do(old(Contents()), Diagnostics.Attend(ref, a, thresholdMs, abortMs, ageMs, c))
      ensures var (u, key) := Sessions.Get(old(Contents()), ref, c);
              var e := if key in u.entries then u.entries[key] else NewEntry(ref, c.created);
              classification == Attention.Returned(e, a, thresholdMs, abortMs, ageMs)
    {
      var key := Get(ref, c);
      var e := if key in entries then entries[key] else NewEntry(ref, c.created);
      classification := Judge(e, a, thresholdMs, abortMs, ageMs);
      EditAttention(key, Diagnostics.Attend(ref, a, thresholdMs, abortMs, ageMs, c), a, thresholdMs, ageMs);
    }

    /** `state_is_current`, read off the entry a `peek` finds. */
    method CheckCurrent(r: Request, o: Outcome) returns (current: bool)
      requires Contents().Valid()
      ensures current == OutcomeCurrent(Contents(), r, o)
    {
      var peeked := Peek(r.ToRef());
      var e := if peeked.Some? then EntryAt(Table(order, entries, lastPruneAt), peeked.value)
          else NewEntry(r.ToRef(), 0);
      if r.Expected() == Idle && r.stateGeneration.Some? && o.action == AbortEmbeddedRun {
        current := peeked.Some? && e.state == Idle
                   && (e.generation == r.stateGeneration.value || e.generation == r.stateGeneration.value + 1);
      } else {
        current := r.stateGeneration == None
                   || (peeked.Some? && e.generation == r.stateGeneration.value && e.state == r.Expected());
      }
    }

    /** What a recovery writes into the entry it recovers. */
    method EditRecovered(key: string, r: Request, o: Outcome, now: int)
      modifies this`entries
      ensures Contents() == Modify(old(Contents()), key, (e: Entry) => Recovered(e, r, o, now))
    {
      if key in entries {
        var e := entries[key];
        e := e.(state := Idle, lastActivity := now, generation := e.generation + 1);
        e := e.(stuckWarnAge := None, longRunningWarnAge := None);
        if ClearsQueue(o) {
          e := e.(queueDepth := 0);
        } else if r.expectedState == Some(Idle) && o.status == Aborted && QueuedCount(o) > 0 {
          e := e.(queueDepth := Max(e.queueDepth, r.Depth()));
        } else {
          e := e.(queueDepth := Max(0, e.queueDepth - 1));
        }
        entries := entries[key := e];
      }
    }

    /** `_apply_recovery_outcome_to_diagnostic_state` */
    method ApplyOutcome(r: Request, outcome: Option<Outcome>, blocked: bool, c: Clock, now: int)
      requires Contents().Valid()
      modifies this
      ensures Contents() == Apply(old(Contents()), r, outcome, blocked, c, now)
    {
      if outcome == None || !Mutates(outcome.value) { return; }
      var current := CheckCurrent(r, outcome.value);
      if !current { return; }
      var key := Get(r.ToRef(), c);
      if blocked { return; }
      EditRecovered(key, r, outcome.value, now);
    }
  }

  lemma MergeThenDrop(t: Table, merged: Table, key: string, from: string)
    requires key in t.entries && from in t.entries && key != from
    requires merged == Put(t, key, Merge(t.entries[key], t.entries[from]))
    ensures Drop(merged, {from}) == Put(Drop(t, {from}), key, Merge(t.entries[key], t.entries[from]))
  {
    assert (t.entries[key := Merge(t.entries[key], t.entries[from])]) - {from}
           == (t.entries - {from})[key := Merge(t.entries[key], t.entries[from])];
  }

  lemma SameTable(t: Table, u: Table)
    requires t.order == u.order && t.entries == u.entries && t.lastPrune == u.lastPrune
    ensures t == u
  {
  }
}
