/** The steps of the diagnostic logger that change session entries, and runs of them. */
module Diagnostics {
  import opened Options
  import opened Sorting
  import opened Sessions
  import opened Recovery
  import Attention

  // ---------- changes of one entry ----------

  function Touch(e: Entry, now: int): Entry {
    e.(lastActivity := now, generation := e.generation + 1, stuckWarnAge := None, longRunningWarnAge := None)
  }

  /** `log_message_queued` */
  function Queued(e: Entry, now: int): Entry {
    Touch(e, now).(queueDepth := e.queueDepth + 1)
  }

  /** `log_session_state_change` */
  function Changed(e: Entry, s: RunState, now: int): Entry {
    var d := Touch(e, now).(state := s);
    var d := if s == Processing && e.state != Processing then d.(activeQueuedTurn := e.queueDepth > 0) else d;
    if s == Idle then d.(queueDepth := Max(0, e.queueDepth - 1), activeQueuedTurn := false) else d
  }

  // ---------- steps ----------

  datatype Step =
    | Queue(ref: Ref, clock: Clock, now: int)
    | Change(ref: Ref, state: RunState, clock: Clock, now: int)
    | Progress(ref: Ref, clock: Clock, now: int)
    | SetFile(ref: Ref, file: Option<string>, clock: Clock)
    | Attend(ref: Ref, activity: Attention.Activity, thresholdMs: int, abortMs: int, ageMs: int, clock: Clock)
    | Tick(now: int)
    | Complete(request: Request, outcome: Option<Outcome>, blocked: bool, clock: Clock, now: int)

  /** What a step does to the entry it resolved. */
  function Edit(step: Step, e: Entry): Entry {
    match step
    case Queue(_, _, now) => Queued(e, now)
    case Change(_, s, _, now) => Changed(e, s, now)
    case Progress(_, _, now) => Touch(e, now)
    case SetFile(_, file, _) => e.(sessionFile := file)
    case Attend(_, activity, thresholdMs, abortMs, ageMs, _) =>
      Attention.Attend(e, activity, thresholdMs, abortMs, ageMs).0
    case _ => e
  }

  /** One step on the table. `Tick` is the pruning of the heartbeat, `Complete` the end of
      some recovery. */
  function Do(t: Table, step: Step): Table {
    match step
    case Tick(now) => Prune(t, now, true)
    case Complete(r, o, blocked, c, now) => Apply(t, r, o, blocked, c, now)
    case _ =>
      var (u, key) := Get(t, step.ref, step.clock);
      Modify(u, key, (e: Entry) => Edit(step, e))
  }

  function Run(t: Table, steps: seq<Step>): Table
    decreases |steps|
  {
    if steps == [] then t else Run(Do(t, steps[0]), steps[1..])
  }

  lemma RunOne(t: Table, step: Step)
    ensures Run(t, [step]) == Do(t, step)
  {
    assert [step][1..] == [];
  }

  lemma {:induction false} RunConcat(t: Table, a: seq<Step>, b: seq<Step>)
    ensures Run(t, a + b) == Run(Run(t, a), b)
    decreases |a|
  {
    if a == [] {
      assert a + b == b;
    } else {
      assert (a + b)[1..] == a[1..] + b;
      RunConcat(Do(t, a[0]), a[1..], b);
    }
  }

  /** Every reachable table is well formed: at most 2000 entries, distinct non-empty
      session ids, no negative queue depth or generation. */
  lemma {:induction false} RunKeepsInv(t: Table, steps: seq<Step>)
    requires Inv(t)
    ensures Inv(Run(t, steps))
    decreases |steps|
  {
    if steps != [] {
      DoKeepsInv(t, steps[0]);
      RunKeepsInv(Do(t, steps[0]), steps[1..]);
    }
  }

  lemma EditKeepsInv(u: Table, key: string, step: Step)
    requires Inv(u)
    ensures Inv(Modify(u, key, (e: Entry) => Edit(step, e)))
  {
    ModifyKeepsInv(u, key, (e: Entry) => Edit(step, e));
  }

  lemma DoKeepsInv(t: Table, step: Step)
    requires Inv(t)
    ensures Inv(Do(t, step))
  {
    match step
    case Tick(now) =>
      PruneRestricts(t, now, true);
      RestrictsKeeps(Prune(t, now, true), t);
    case Complete(r, o, blocked, c, now) => ApplyKeepsInv(t, r, o, blocked, c, now);
    case _ =>
      GetKeepsInv(t, step.ref, step.clock);
      EditKeepsInv(Get(t, step.ref, step.clock).0, Get(t, step.ref, step.clock).1, step);
  }

  // ---------- an entry that stays where it is ----------

  /** The `get` neither evicts the entry at k nor merges or re-keys it away. */
  ghost predicate GetRetains(t: Table, ref: Ref, c: Clock, k: string) {
    var t1 := Prune(t, c.first, false);
    && k in t1.entries
    && Resolve(t1, ref) != Merging(k) && Resolve(t1, ref) != Rekey(k)
    && k in Get(t, ref, c).0.entries
  }

  ghost predicate Retains(t: Table, step: Step, k: string) {
    match step
    case Tick(now) => k in Prune(t, now, true).entries
    case Complete(r, o, _, c, _) =>
      o.Some? && Mutates(o.value) && OutcomeCurrent(t, r, o.value) ==> GetRetains(t, r.ToRef(), c, k)
    case _ => GetRetains(t, step.ref, step.clock, k)
  }

  ghost predicate RetainedThrough(t: Table, steps: seq<Step>, k: string)
    decreases |steps|
  {
    steps == [] || (Retains(t, steps[0], k) && RetainedThrough(Do(t, steps[0]), steps[1..], k))
  }

  /** A queued, state-change or progress step on the session at k. */
  ghost predicate Touches(t: Table, step: Step, k: string) {
    (step.Queue? || step.Change? || step.Progress?) && Get(t, step.ref, step.clock).1 == k
  }

  ghost function TouchCount(t: Table, steps: seq<Step>, k: string): nat
    decreases |steps|
  {
    if steps == [] then 0
    else (if Touches(t, steps[0], k) then 1 else 0) + TouchCount(Do(t, steps[0]), steps[1..], k)
  }

  lemma GetGeneration(t: Table, ref: Ref, c: Clock, k: string)
    requires Inv(t) && k in t.entries && GetRetains(t, ref, c, k)
    ensures Get(t, ref, c).0.entries[k].generation >= t.entries[k].generation
  {
    PruneRestricts(t, c.first, false);
    GetNeverLowers(t, ref, c);
  }

  lemma EditGeneration(u: Table, key: string, step: Step, k: string)
    requires k in u.entries
    ensures var v := Modify(u, key, (e: Entry) => Edit(step, e));
            && k in v.entries
            && v.entries[k].generation >= u.entries[k].generation
               + if key == k && (step.Queue? || step.Change? || step.Progress?) then 1 else 0
  {
  }

  lemma ApplyGeneration(t: Table, r: Request, o: Outcome, blocked: bool, c: Clock, now: int, k: string)
    requires Inv(t) && k in t.entries && GetRetains(t, r.ToRef(), c, k) && Mutates(o) && OutcomeCurrent(t, r, o)
    ensures var u := Apply(t, r, Some(o), blocked, c, now);
            && k in u.entries
            && u.entries[k].generation
               >= t.entries[k].generation + if !blocked && Get(t, r.ToRef(), c).1 == k then 1 else 0
  {
    GetGeneration(t, r.ToRef(), c, k);
    RecoveredGeneration(Get(t, r.ToRef(), c).0, Get(t, r.ToRef(), c).1, r, o, now, k);
  }

  lemma RecoveredGeneration(u: Table, key: string, r: Request, o: Outcome, now: int, k: string)
    requires k in u.entries
    ensures var v := Modify(u, key, (e: Entry) => Recovered(e, r, o, now));
            && k in v.entries
            && v.entries[k].generation == u.entries[k].generation + if key == k then 1 else 0
  {
  }

  lemma StepGeneration(t: Table, step: Step, k: string)
    requires Inv(t) && k in t.entries && Retains(t, step, k)
    ensures k in Do(t, step).entries
    ensures Do(t, step).entries[k].generation >= t.entries[k].generation + if Touches(t, step, k) then 1 else 0
  {
    match step
    case Tick(now) => PruneRestricts(t, now, true);
    case Complete(r, o, blocked, c, now) =>
      if o.Some? && Mutates(o.value) && OutcomeCurrent(t, r, o.value) {
        ApplyGeneration(t, r, o.value, blocked, c, now, k);
      }
    case _ =>
      GetGeneration(t, step.ref, step.clock, k);
      EditGeneration(Get(t, step.ref, step.clock).0, Get(t, step.ref, step.clock).1, step, k);
  }

  /** Over a whole run the generation grows at least by the number of touching steps. */
  lemma {:induction false} RunGeneration(t: Table, steps: seq<Step>, k: string)
    requires Inv(t) && k in t.entries && RetainedThrough(t, steps, k)
    ensures k in Run(t, steps).entries
    ensures Run(t, steps).entries[k].generation >= t.entries[k].generation + TouchCount(t, steps, k)
    decreases |steps|
  {
    if steps != [] {
      StepGeneration(t, steps[0], k);
      DoKeepsInv(t, steps[0]);
      RunGeneration(Do(t, steps[0]), steps[1..], k);
    }
  }

  /** The reference finds an entry, and it is not the one at k. */
  predicate MovedFrom(u: Table, ref: Ref, k: string) {
    Peek(u, ref).Some? && Peek(u, ref) != Some(k)
  }

  /** What a `get` returns differs from any entry under its key before it, once it has been
      recovered: it has gained a generation, or it replaces an entry that had expired. */
  lemma RecoveredDiffers(u: Table, ref: Ref, c: Clock, e: Entry)
    requires Inv(u) && Get(u, ref, c).1 in Get(u, ref, c).0.entries && Get(u, ref, c).1 in u.entries
    requires e.generation == Get(u, ref, c).0.entries[Get(u, ref, c).1].generation + 1 && c.first <= e.lastActivity
    ensures e != u.entries[Get(u, ref, c).1]
  {
    var key := Get(u, ref, c).1;
    PruneRestricts(u, c.first, false);
    if key in Prune(u, c.first, false).entries {
      GetNeverLowers(u, ref, c);
    } else if !Stale(u.entries[key], c.first) {
      PruneKeeps(u, c.first, false, key);
    }
  }

  /** When a `get` creates an entry that does not survive, what a `peek` found is gone. */
  lemma LostCreationDrops(u: Table, ref: Ref, c: Clock, k: string)
    requires Inv(u) && Peek(u, ref) == Some(k) && Get(u, ref, c).1 !in Get(u, ref, c).0.entries
    ensures k in u.entries && k !in Get(u, ref, c).0.entries
  {
    var t1 := Prune(u, c.first, false);
    PruneRestricts(u, c.first, false);
    RestrictsKeeps(t1, u);
    if Truthy(ref.sessionId) { FindInFirst(u.order, u.entries, ref.sessionId.value); }
    LookValid(t1, ref, c.created);
    assert Resolve(t1, ref).Missing?;
    if k in Get(u, ref, c).0.entries {
      CreationKeeps(u, ref, c, k);
      FindByIdUnique(t1, ref.sessionId, k);
    }
  }

  /** A current outcome that is not blocked takes effect: the table is not what it was. */
  lemma CurrentTakesEffect(u: Table, r: Request, o: Outcome, c: Clock, now: int)
    requires Inv(u) && Peek(u, r.ToRef()).Some? && Mutates(o) && OutcomeCurrent(u, r, o) && c.first <= now
    ensures Apply(u, r, Some(o), false, c, now) != u
  {
    var (v, key) := Get(u, r.ToRef(), c);
    if key !in v.entries {
      LostCreationDrops(u, r.ToRef(), c, Peek(u, r.ToRef()).value);
    } else if key in u.entries {
      RecoveredDiffers(u, r.ToRef(), c, Recovered(v.entries[key], r, o, now));
    }
  }

  /** Stale recoveries do nothing. A request stamped with the generation of the entry at
      k, whose session took a queued, state-change or progress step since (two of them in
      the idle-abort case), leaves the table as it is, whatever its outcome, unless its
      reference has come to mean another entry that is current. In that case an outcome that
      changes state and is not blocked does take effect. */
  lemma StaleRecoveryDoesNothing(t: Table, steps: seq<Step>, k: string, r: Request, outcome: Option<Outcome>,
                                 blocked: bool, c: Clock, now: int)
    requires Inv(t) && k in t.entries && RetainedThrough(t, steps, k)
    requires r.stateGeneration == Some(t.entries[k].generation)
    requires TouchCount(t, steps, k) >= if outcome.Some? && IdleAbort(r, outcome.value) then 2 else 1
    ensures var u := Run(t, steps);
            || Apply(u, r, outcome, blocked, c, now) == u
            || (MovedFrom(u, r.ToRef(), k) && OutcomeCurrent(u, r, outcome.value))
    ensures outcome.Some? && Mutates(outcome.value) && !blocked && c.first <= now ==>
              var u := Run(t, steps);
              (Apply(u, r, outcome, blocked, c, now) == u
               <==> !(MovedFrom(u, r.ToRef(), k) && OutcomeCurrent(u, r, outcome.value)))
  {
    var u := Run(t, steps);
    RunGeneration(t, steps, k);
    RunKeepsInv(t, steps);
    if outcome.Some? && Mutates(outcome.value) && !blocked && c.first <= now && MovedFrom(u, r.ToRef(), k) &&
       OutcomeCurrent(u, r, outcome.value) {
      CurrentTakesEffect(u, r, outcome.value, c, now);
    }
  }

  /** A request that names its entry by key keeps referring to it while it is retained. */
  lemma DirectReferenceStays(t: Table, steps: seq<Step>, k: string, ref: Ref)
    requires Inv(t) && k in t.entries && RetainedThrough(t, steps, k) && ResolveKey(ref) == k
    ensures Peek(Run(t, steps), ref) == Some(k)
  {
    RunGeneration(t, steps, k);
  }

  /** The request `_heartbeat_tick` builds from an entry. */
  function HeartbeatRequest(e: Entry, allowActiveAbort: bool, staleAbortMs: Option<int>): Request {
    Request(e.sessionId, e.sessionKey, e.sessionFile, Some(e.state), Some(e.generation), Some(e.queueDepth),
            allowActiveAbort, staleAbortMs)
  }

  /** Recoveries asked for by the heartbeat: their reference resolves by the key of the entry,
      which can be seen at request time, so nothing need be known of the table at the end. */
  lemma StaleHeartbeatDoesNothing(t: Table, steps: seq<Step>, k: string, allow: bool, stale: Option<int>,
                                  outcome: Option<Outcome>, blocked: bool, c: Clock, now: int)
    requires Inv(t) && k in t.entries && OwnKey(k, t.entries[k]) && RetainedThrough(t, steps, k)
    requires var r := HeartbeatRequest(t.entries[k], allow, stale);
             TouchCount(t, steps, k) >= if outcome.Some? && IdleAbort(r, outcome.value) then 2 else 1
    ensures var r := HeartbeatRequest(t.entries[k], allow, stale);
            Apply(Run(t, steps), r, outcome, blocked, c, now) == Run(t, steps)
  {
    var r := HeartbeatRequest(t.entries[k], allow, stale);
    DirectReferenceStays(t, steps, k, r.ToRef());
    StaleRecoveryDoesNothing(t, steps, k, r, outcome, blocked, c, now);
  }

  /** A request by id alone can come to mean another entry: one created under a key equal to
      the id. Here K is touched after the request, and the outcome recovers the other one. */
  lemma IdReferenceMoves(o: Outcome)
    requires o.status == Released
    ensures var t := Table(["K"], map["K" := NewEntry(Ref(Some("y"), Some("K"), None), 0)], 0);
            var c := Clock(0, 0, 0);
            var steps := [SetFile(Nameless("y"), None, c), Progress(Ref(None, Some("K"), None), c, 0)];
            var r := Request(Some("y"), None, None, Some(Idle), Some(0), Some(0), false, None);
            && Inv(t) && RetainedThrough(t, steps, "K") && Peek(t, r.ToRef()) == Some("K")
            && TouchCount(t, steps, "K") == 1
            && Peek(Run(t, steps), r.ToRef()) == Some("y")
            && Apply(Run(t, steps), r, Some(o), false, c, 0) != Run(t, steps)
  {
    var t := Table(["K"], map["K" := NewEntry(Ref(Some("y"), Some("K"), None), 0)], 0);
    var c := Clock(0, 0, 0);
    var create, touch := SetFile(Nameless("y"), None, c), Progress(Ref(None, Some("K"), None), c, 0);
    OnlyKOk(t);
    CreatedBesideK(t, c);
    TouchesK(Do(t, create), c);
    TwoSteps(t, create, touch, "K");
    var r := Request(Some("y"), None, None, Some(Idle), Some(0), Some(0), false, None);
    RecoversY(Do(Do(t, create), touch), r, o, c);
  }

  lemma TwoSteps(t: Table, a: Step, b: Step, k: string)
    requires Retains(t, a, k) && Retains(Do(t, a), b, k)
    ensures RetainedThrough(t, [a, b], k) && Run(t, [a, b]) == Do(Do(t, a), b)
    ensures TouchCount(t, [a, b], k) == (if Touches(t, a, k) then 1 else 0) + if Touches(Do(t, a), b, k) then 1 else 0
  {
    var t1 := Do(t, a);
    assert [a, b][1..] == [b] && [b][1..] == [];
    RunOne(t1, b);
    assert TouchCount(Do(t1, b), [], k) == 0;
    assert TouchCount(t1, [b], k) == if Touches(t1, b, k) then 1 else 0;
  }

  lemma OnlyKOk(t: Table)
    requires t == Table(["K"], map["K" := NewEntry(Ref(Some("y"), Some("K"), None), 0)], 0)
    ensures Inv(t) && "y" !in t.entries && Peek(t, Ref(Some("y"), None, None)) == Some("K")
  {
    assert "K"[0] != "y"[0];
    assert "y" != "";
  }

  lemma CreatedBesideK(t: Table, c: Clock)
    requires Inv(t) && t.order == ["K"] && t.lastPrune == 0 && c == Clock(0, 0, 0)
    requires "K" in t.entries && t.entries["K"].lastActivity == 0
    ensures GetRetains(t, Nameless("y"), c, "K")
    ensures var u := Do(t, SetFile(Nameless("y"), None, c));
            && Inv(u) && u.lastPrune == 0 && |u.order| <= 2 && "K" in u.entries && "y" in u.entries
            && u.entries["K"] == t.entries["K"] && u.entries["y"] == NewEntry(Nameless("y"), 0)
    ensures Get(t, Nameless("y"), c).1 == "y"
  {
    assert "K"[0] != "y"[0];
    assert "y" != "";
    CreateInRoom(t, "y", c);
    CreatedInRoom(t, "y", c);
    OthersInRoom(t, "y", c, "K");
    DoKeepsInv(t, SetFile(Nameless("y"), None, c));
    CreatesNameless(Prune(t, 0, false), "y", 0);
  }

  lemma TouchesK(u: Table, c: Clock)
    requires Inv(u) && u.lastPrune == 0 && |u.order| <= 2 && "K" in u.entries && "y" in u.entries && c == Clock(0, 0, 0)
    ensures var ref := Ref(None, Some("K"), None);
            && GetRetains(u, ref, c, "K") && Get(u, ref, c).1 == "K"
            && var v := Do(u, Progress(ref, c, 0));
               && Inv(v) && v.lastPrune == 0 && |v.order| <= 2 && "y" in v.entries && v.entries["y"] == u.entries["y"]
  {
    assert "K"[0] != "y"[0];
    assert "K" != "";
    assert Prune(u, 0, false) == u;
    DoKeepsInv(u, Progress(Ref(None, Some("K"), None), c, 0));
  }

  lemma RecoversY(v: Table, r: Request, o: Outcome, c: Clock)
    requires Inv(v) && v.lastPrune == 0 && |v.order| <= 2 && "y" in v.entries &&
             v.entries["y"] == NewEntry(Nameless("y"), 0)
    requires r == Request(Some("y"), None, None, Some(Idle), Some(0), Some(0), false, None)
    requires o.status == Released && c == Clock(0, 0, 0)
    ensures Peek(v, r.ToRef()) == Some("y") && Apply(v, r, Some(o), false, c, 0) != v
  {
    assert "y" != "";
    assert Prune(v, 0, false) == v;
    assert Peek(v, r.ToRef()) == Some("y");
    if IdleAbort(r, o) { assert OutcomeCurrent(v, r, o); }
    ApplyGeneration(v, r, o, false, c, 0, "y");
  }

  function RefOf(step: Step): Ref {
    match step
    case Tick(_) => Ref(None, None, None)
    case Complete(r, _, _, _, _) => r.ToRef()
    case _ => step.ref
  }

  lemma ModifyKeepsSelfKeyed(u: Table, key: string, f: Entry -> Entry)
    requires SelfKeyed(u)
    requires key in u.entries ==>
             var e := u.entries[key]; f(e).sessionId == e.sessionId && f(e).sessionKey == e.sessionKey
    ensures SelfKeyed(Modify(u, key, f))
  {
    assert key in u.entries ==> OwnKey(key, u.entries[key]);
  }

  lemma EditKeepsSelfKeyed(u: Table, key: string, step: Step)
    requires SelfKeyed(u)
    ensures SelfKeyed(Modify(u, key, (e: Entry) => Edit(step, e)))
  {
    ModifyKeepsSelfKeyed(u, key, (e: Entry) => Edit(step, e));
  }

  lemma RecoveredKeepsSelfKeyed(u: Table, key: string, r: Request, o: Outcome, now: int)
    requires SelfKeyed(u)
    ensures SelfKeyed(Modify(u, key, (e: Entry) => Recovered(e, r, o, now)))
  {
    ModifyKeepsSelfKeyed(u, key, (e: Entry) => Recovered(e, r, o, now));
  }

  lemma ApplyKeepsSelfKeyed(t: Table, r: Request, o: Option<Outcome>, blocked: bool, c: Clock, now: int)
    requires Inv(t) && SelfKeyed(t) && r.sessionId != Some("unknown")
    ensures SelfKeyed(Apply(t, r, o, blocked, c, now))
  {
    if Apply(t, r, o, blocked, c, now) != t {
      var (u, key) := Get(t, r.ToRef(), c);
      GetKeepsSelfKeyed(t, r.ToRef(), c);
      if !blocked { RecoveredKeepsSelfKeyed(u, key, r, o.value, now); }
    }
  }

  lemma PruneKeepsSelfKeyed(t: Table, now: int)
    requires Inv(t) && SelfKeyed(t)
    ensures SelfKeyed(Prune(t, now, true))
  {
    PruneRestricts(t, now, true);
  }

  lemma StepKeepsSelfKeyed(t: Table, step: Step)
    requires Inv(t) && SelfKeyed(t) && RefOf(step).sessionId != Some("unknown")
    ensures SelfKeyed(Do(t, step))
  {
    if step.Tick? {
      PruneKeepsSelfKeyed(t, step.now);
    } else if step.Complete? {
      ApplyKeepsSelfKeyed(t, step.request, step.outcome, step.blocked, step.clock, step.now);
    } else {
      var (u, key) := Get(t, step.ref, step.clock);
      GetKeepsSelfKeyed(t, step.ref, step.clock);
      EditKeepsSelfKeyed(u, key, step);
    }
  }

  lemma GetKeepsSelfKeyed(t: Table, ref: Ref, c: Clock)
    requires Inv(t) && SelfKeyed(t) && ref.sessionId != Some("unknown")
    ensures SelfKeyed(Get(t, ref, c).0)
  {
    PruneRestricts(t, c.first, false);
    ResolveFacts(Prune(t, c.first, false), ref);
    GetSelfKeyed(t, ref, c);
  }

  lemma ModifyNoEmptyId(u: Table, key: string, f: Entry -> Entry)
    requires NoEmptyIds(u) && (key in u.entries ==> f(u.entries[key]).sessionId == u.entries[key].sessionId)
    ensures NoEmptyIds(Modify(u, key, f))
  {
    assert key in u.entries ==> !HasEmptyId(u, key);
    forall k ensures !HasEmptyId(Modify(u, key, f), k) { assert !HasEmptyId(u, k); }
  }

  lemma EditNoEmptyId(u: Table, key: string, step: Step)
    requires NoEmptyIds(u)
    ensures NoEmptyIds(Modify(u, key, (e: Entry) => Edit(step, e)))
  {
    ModifyNoEmptyId(u, key, (e: Entry) => Edit(step, e));
  }

  lemma ApplyNoEmptyId(t: Table, r: Request, o: Option<Outcome>, blocked: bool, c: Clock, now: int)
    requires t.Valid() && NoEmptyIds(t) && r.sessionId != Some("")
    ensures NoEmptyIds(Apply(t, r, o, blocked, c, now))
  {
    if Apply(t, r, o, blocked, c, now) != t {
      var (u, key) := Get(t, r.ToRef(), c);
      GetNoEmptyId(t, r.ToRef(), c);
      if !blocked { ModifyNoEmptyId(u, key, (e: Entry) => Recovered(e, r, o.value, now)); }
    }
  }

  lemma PruneNoEmptyId(t: Table, now: int)
    requires t.Valid() && NoEmptyIds(t)
    ensures NoEmptyIds(Prune(t, now, true))
  {
    PruneRestricts(t, now, true);
    forall k ensures !HasEmptyId(Prune(t, now, true), k) { assert !HasEmptyId(t, k); }
  }

  lemma StepNoEmptyId(t: Table, step: Step)
    requires t.Valid() && NoEmptyIds(t) && RefOf(step).sessionId != Some("")
    ensures NoEmptyIds(Do(t, step))
  {
    if step.Tick? {
      PruneNoEmptyId(t, step.now);
    } else if step.Complete? {
      ApplyNoEmptyId(t, step.request, step.outcome, step.blocked, step.clock, step.now);
    } else {
      var (u, key) := Get(t, step.ref, step.clock);
      GetNoEmptyId(t, step.ref, step.clock);
      EditNoEmptyId(u, key, step);
    }
  }

  /** Over every run whose references never carry an empty id, no two entries have the same id. */
  lemma {:induction false} RunKeepsIdsDistinct(t: Table, steps: seq<Step>)
    requires Inv(t) && NoEmptyIds(t)
    requires forall step :: step in steps ==> RefOf(step).sessionId != Some("")
    ensures NoEmptyIds(Run(t, steps)) && IdsDistinct(Run(t, steps))
    decreases |steps|
  {
    if steps == [] {
      NoEmptyIdsDistinct(t);
    } else {
      assert steps[0] in steps;
      StepNoEmptyId(t, steps[0]);
      DoKeepsInv(t, steps[0]);
      RunKeepsIdsDistinct(Do(t, steps[0]), steps[1..]);
    }
  }

  /** As long as no session is called "unknown", every entry stays under its own key. */
  lemma {:induction false} RunKeepsSelfKeyed(t: Table, steps: seq<Step>)
    requires Inv(t) && SelfKeyed(t) && forall step :: step in steps ==> RefOf(step).sessionId != Some("unknown")
    ensures SelfKeyed(Run(t, steps))
    decreases |steps|
  {
    if steps != [] {
      assert steps[0] in steps;
      StepKeepsSelfKeyed(t, steps[0]);
      DoKeepsInv(t, steps[0]);
      RunKeepsSelfKeyed(Do(t, steps[0]), steps[1..]);
    }
  }

  /** The tolerance is exactly one step: at the stamped generation or one above, an
      idle-abort outcome on an idle session does take effect. */
  lemma IdleAbortToleratesOne(t: Table, k: string, r: Request, o: Outcome, c: Clock, now: int)
    requires Inv(t) && k in t.entries && Peek(t, r.ToRef()) == Some(k) && IdleAbort(r, o) && o.status == Aborted
    requires t.entries[k].state == Idle && GetRetains(t, r.ToRef(), c, k)
    requires t.entries[k].generation - 1 <= r.stateGeneration.value <= t.entries[k].generation
    ensures var u := Apply(t, r, Some(o), false, c, now);
            k in u.entries && u.entries[k].generation > t.entries[k].generation
  {
    PeekIsLookedUp(t, r.ToRef(), c, k);
    ApplyGeneration(t, r, o, false, c, now, k);
  }

  lemma PeekIsLookedUp(t: Table, ref: Ref, c: Clock, k: string)
    requires Inv(t) && Peek(t, ref) == Some(k) && GetRetains(t, ref, c, k)
    ensures Get(t, ref, c).1 == k
  {
    var t1 := Prune(t, c.first, false);
    PruneRestricts(t, c.first, false);
    RestrictsKeeps(t1, t);
    if ResolveKey(ref) != k {
      FindByIdUnique(t, ref.sessionId, k);
      FindByIdUnique(t1, ref.sessionId, k);
    }
  }

  // ---------- queued work and generations ----------

  /** The `get` folds another entry into the one at k. */
  ghost predicate GetMergesInto(t: Table, ref: Ref, c: Clock, k: string) {
    Resolve(Prune(t, c.first, false), ref).Merging? && ResolveKey(ref) == k
  }

  ghost predicate MergesInto(t: Table, step: Step, k: string) {
    match step
    case Tick(_) => false
    case Complete(r, o, _, c, _) =>
      o.Some? && Mutates(o.value) && OutcomeCurrent(t, r, o.value) && GetMergesInto(t, r.ToRef(), c, k)
    case _ => GetMergesInto(t, step.ref, step.clock, k)
  }

  ghost predicate UnmergedThrough(t: Table, steps: seq<Step>, k: string)
    decreases |steps|
  {
    steps == [] || (!MergesInto(t, steps[0], k) && UnmergedThrough(Do(t, steps[0]), steps[1..], k))
  }

  lemma GetDepth(t: Table, ref: Ref, c: Clock, k: string)
    requires Inv(t) && k in t.entries && GetRetains(t, ref, c, k) && !GetMergesInto(t, ref, c, k)
    ensures Get(t, ref, c).0.entries[k].queueDepth == t.entries[k].queueDepth
    ensures Get(t, ref, c).0.entries[k].generation == t.entries[k].generation
  {
    var t1 := Prune(t, c.first, false);
    PruneRestricts(t, c.first, false);
    ResolveFacts(t1, ref);
    LookValid(t1, ref, c.created);
    if Resolve(t1, ref).Missing? { PruneRestricts(Look(t1, ref, c.created).0, c.last, true); }
  }

  lemma EditDepth(u: Table, key: string, step: Step, k: string)
    requires k in u.entries && !step.Tick? && !step.Complete?
    ensures var v := Modify(u, key, (e: Entry) => Edit(step, e));
            && k in v.entries
            && (v.entries[k].generation == u.entries[k].generation ==>
                v.entries[k].queueDepth == u.entries[k].queueDepth)
  {
  }

  lemma RecoveredDepthStep(u: Table, key: string, r: Request, o: Outcome, now: int, k: string)
    requires k in u.entries
    ensures var v := Modify(u, key, (e: Entry) => Recovered(e, r, o, now));
            && k in v.entries
            && (v.entries[k].generation == u.entries[k].generation ==>
                v.entries[k].queueDepth == u.entries[k].queueDepth)
  {
  }

  lemma ApplyDepth(t: Table, r: Request, o: Outcome, blocked: bool, c: Clock, now: int, k: string)
    requires Inv(t) && k in t.entries && Mutates(o) && OutcomeCurrent(t, r, o)
    requires GetRetains(t, r.ToRef(), c, k) && !GetMergesInto(t, r.ToRef(), c, k)
    ensures var u := Apply(t, r, Some(o), blocked, c, now);
            && k in u.entries
            && (u.entries[k].generation == t.entries[k].generation ==>
                u.entries[k].queueDepth == t.entries[k].queueDepth)
  {
    GetDepth(t, r.ToRef(), c, k);
    RecoveredDepthStep(Get(t, r.ToRef(), c).0, Get(t, r.ToRef(), c).1, r, o, now, k);
  }

  lemma StepDepth(t: Table, step: Step, k: string)
    requires Inv(t) && k in t.entries && Retains(t, step, k) && !MergesInto(t, step, k)
    ensures k in Do(t, step).entries
    ensures Do(t, step).entries[k].generation == t.entries[k].generation ==>
              Do(t, step).entries[k].queueDepth == t.entries[k].queueDepth
  {
    match step
    case Tick(now) => PruneRestricts(t, now, true);
    case Complete(r, o, blocked, c, now) =>
      if o.Some? && Mutates(o.value) && OutcomeCurrent(t, r, o.value) {
        ApplyDepth(t, r, o.value, blocked, c, now, k);
      }
    case _ =>
      GetDepth(t, step.ref, step.clock, k);
      EditDepth(Get(t, step.ref, step.clock).0, Get(t, step.ref, step.clock).1, step, k);
  }

  /** While no entry is merged into it, a session whose generation has not moved has the
      queue depth it had. */
  lemma {:induction false} SameGenerationSameDepth(t: Table, steps: seq<Step>, k: string)
    requires Inv(t) && k in t.entries && RetainedThrough(t, steps, k) && UnmergedThrough(t, steps, k)
    ensures k in Run(t, steps).entries
    ensures Run(t, steps).entries[k].generation == t.entries[k].generation ==>
              Run(t, steps).entries[k].queueDepth == t.entries[k].queueDepth
    decreases |steps|
  {
    if steps != [] {
      StepDepth(t, steps[0], k);
      StepGeneration(t, steps[0], k);
      DoKeepsInv(t, steps[0]);
      SameGenerationSameDepth(Do(t, steps[0]), steps[1..], k);
      RunGeneration(Do(t, steps[0]), steps[1..], k);
    }
  }

  /** A merge does break that: it adds queued work under an unchanged generation. */
  lemma MergeHidesWork(t: Table, ref: Ref, c: Clock, from: string)
    requires Inv(t) && Resolve(Prune(t, c.first, false), ref) == Merging(from)
    ensures var t1 := Prune(t, c.first, false);
            var (u, k) := Get(t, ref, c);
            && k in t1.entries && from in t1.entries && k in u.entries
            && u.entries[k].queueDepth == t1.entries[k].queueDepth + t1.entries[from].queueDepth
            && (t1.entries[k].generation >= t1.entries[from].generation ==>
                u.entries[k].generation == t1.entries[k].generation)
  {
    PruneRestricts(t, c.first, false);
    ResolveFacts(Prune(t, c.first, false), ref);
  }

  // ---------- what a no-op outcome discards ----------

  /** The queue depth of the entry that `get` returns, read off the pruned table. */
  function DepthFound(t1: Table, ref: Ref): int {
    match Resolve(t1, ref)
    case Direct => EntryAt(t1, ResolveKey(ref)).queueDepth
    case Merging(from) => EntryAt(t1, ResolveKey(ref)).queueDepth + EntryAt(t1, from).queueDepth
    case Rekey(from) => EntryAt(t1, from).queueDepth
    case ById(at) => EntryAt(t1, at).queueDepth
    case Missing => 0
  }

  lemma GetDepthFound(t: Table, ref: Ref, c: Clock)
    requires Inv(t)
    ensures var (u, key) := Get(t, ref, c);
            key in u.entries ==> u.entries[key].queueDepth == DepthFound(Prune(t, c.first, false), ref)
    ensures Get(t, ref, c).1 !in Get(t, ref, c).0.entries ==> DepthFound(Prune(t, c.first, false), ref) == 0
  {
    var t1 := Prune(t, c.first, false);
    PruneRestricts(t, c.first, false);
    ResolveFacts(t1, ref);
    LookValid(t1, ref, c.created);
    if Resolve(t1, ref).Missing? { PruneRestricts(Look(t1, ref, c.created).0, c.last, true); }
  }

  /** A reference that a `peek` finds makes the `get` evict nothing for size: if the entry
      found expires in the first pruning, there is room for another one. */
  lemma PeekedEvictsNothing(t: Table, ref: Ref, c: Clock)
    requires Inv(t) && Peek(t, ref).Some?
    ensures SizeEvicted(t, ref, c) == {}
  {
    var t1 := Prune(t, c.first, false);
    var k := Peek(t, ref).value;
    PruneRestricts(t, c.first, false);
    RestrictsKeeps(t1, t);
    if Truthy(ref.sessionId) { FindInFirst(t.order, t.entries, ref.sessionId.value); }
    if Resolve(t1, ref).Missing? {
      if k in t1.entries {
        if k != ResolveKey(ref) { FindByIdUnique(t1, ref.sessionId, k); }
        assert false;
      }
      PruneShrinks(t, c.first, k);
      LookValid(t1, ref, c.created);
      var t2 := Look(t1, ref, c.created).0;
      WithoutSize(t2.order, StaleKeys(t2, c.last));
    }
  }

  lemma PruneShrinks(t: Table, now: int, k: string)
    requires Inv(t) && k in t.entries && k !in Prune(t, now, false).entries
    ensures |Prune(t, now, false).order| < |t.order|
  {
    var stale := StaleKeys(t, now);
    WithoutSize(t.order, stale);
    var t1 := Expire(t, now);
    assert (set x | x in Evicted(t1)) == {};
    WithoutNothing(t1.order);
    assert k in Elems(t.order) * stale;
  }

  lemma ClearedDepth(u: Table, key: string, r: Request, o: Outcome, now: int)
    requires u.Valid() && key in u.entries && o.status == Noop && o.reason == NO_ACTIVE_WORK
    ensures TotalDepth(Modify(u, key, (e: Entry) => Recovered(e, r, o, now)))
            == TotalDepth(u) - u.entries[key].queueDepth
  {
    DepthPut(u.order, u.entries, key, Recovered(u.entries[key], r, o, now));
  }

  /** What the size eviction of a `get` takes from the total queue depth. */
  ghost function EvictedDepth(t: Table, ref: Ref, c: Clock): int {
    DepthOf(BeforeEviction(t, ref, c), SizeEvicted(t, ref, c))
  }

  /** Exactly how much queued work a no-op outcome discards, from any table: nothing when it
      is stale; else the work of the entry that the applying `get` returns, unless a newer
      run blocks it, and what that `get` evicts for size, which is nothing when the
      reference is found. */
  lemma NoopDiscardsExactly(t: Table, r: Request, o: Outcome, blocked: bool, c: Clock, now: int)
    requires Inv(t) && o.status == Noop && o.reason == NO_ACTIVE_WORK
    ensures var ref := r.ToRef();
            TotalDepth(Apply(t, r, Some(o), blocked, c, now))
            == TotalDepth(t) - if !OutcomeCurrent(t, r, o) then 0
                               else
                                 EvictedDepth(t, ref, c)
                                 + if blocked then 0 else DepthFound(Prune(t, c.first, false), ref)
    ensures Peek(t, r.ToRef()).Some? ==> EvictedDepth(t, r.ToRef(), c) == 0
    ensures Peek(t, r.ToRef()).Some? && OutcomeCurrent(t, r, o) && !blocked ==>
              (TotalDepth(Apply(t, r, Some(o), blocked, c, now)) == TotalDepth(t)
               <==> DepthFound(Prune(t, c.first, false), r.ToRef()) == 0)
  {
    GetConservesDepth(t, r.ToRef(), c);
    NoopClears(t, r, o, c, now);
    if Peek(t, r.ToRef()).Some? { PeekedEvictsNothing(t, r.ToRef(), c); }
  }

  lemma NoopClears(t: Table, r: Request, o: Outcome, c: Clock, now: int)
    requires Inv(t) && o.status == Noop && o.reason == NO_ACTIVE_WORK
    ensures var (u, key) := Get(t, r.ToRef(), c);
            TotalDepth(Modify(u, key, (e: Entry) => Recovered(e, r, o, now)))
            == TotalDepth(u) - DepthFound(Prune(t, c.first, false), r.ToRef())
  {
    var (u, key) := Get(t, r.ToRef(), c);
    GetKeepsInv(t, r.ToRef(), c);
    GetDepthFound(t, r.ToRef(), c);
    if key in u.entries { ClearedDepth(u, key, r, o, now); }
  }

  /** The applying `get` returns the work of another entry than the one the request was
      stamped from: merged in, re-keyed, or found by id after that one expired. */
  predicate BringsWork(t1: Table, ref: Ref) {
    match Resolve(t1, ref)
    case Merging(from) => EntryAt(t1, from).queueDepth > 0
    case Rekey(from) => EntryAt(t1, from).queueDepth > 0
    case ById(from) => EntryAt(t1, from).queueDepth > 0
    case _ => false
  }

  lemma EmptyPeekBrings(t: Table, ref: Ref, c: Clock, k: string)
    requires Inv(t) && Peek(t, ref) == Some(k) && k in t.entries && t.entries[k].queueDepth == 0
    ensures DepthFound(Prune(t, c.first, false), ref) > 0 <==> BringsWork(Prune(t, c.first, false), ref)
    ensures DepthFound(Prune(t, c.first, false), ref) >= 0
  {
    var t1 := Prune(t, c.first, false);
    PruneRestricts(t, c.first, false);
    ResolveFacts(t1, ref);
  }

  /** The `get` of a no-op outcome finds work to clear: work of another entry that it brings
      in, or, when the reference has come to mean another entry, whatever it returns. */
  predicate FindsWork(u: Table, ref: Ref, c: Clock, k: string) {
    var t1 := Prune(u, c.first, false);
    if Peek(u, ref) == Some(k) then BringsWork(t1, ref) else DepthFound(t1, ref) != 0
  }

  /** A request that saw an empty queue, over every run that keeps its entry and merges
      nothing into it: applying a no-op outcome discards queued work if and only if it is
      current, not blocked, and the applying `get` finds work. */
  lemma NoopDiscardsNothing(t: Table, steps: seq<Step>, k: string, r: Request, o: Outcome, blocked: bool, c: Clock,
                            now: int)
    requires Inv(t) && k in t.entries && RetainedThrough(t, steps, k) && UnmergedThrough(t, steps, k)
    requires r.stateGeneration == Some(t.entries[k].generation) && r.queueDepth == Some(t.entries[k].queueDepth)
    requires r.Depth() <= 0 && o.status == Noop && o.action == NoAction && o.reason == NO_ACTIVE_WORK
    ensures var u := Run(t, steps);
            TotalDepth(Apply(u, r, Some(o), blocked, c, now)) == TotalDepth(u)
            <==> !(OutcomeCurrent(u, r, o) && !blocked && FindsWork(u, r.ToRef(), c, k))
  {
    var u := Run(t, steps);
    SameGenerationSameDepth(t, steps, k);
    RunKeepsInv(t, steps);
    NoopDiscardsExactly(u, r, o, blocked, c, now);
    if OutcomeCurrent(u, r, o) && Peek(u, r.ToRef()) == Some(k) { EmptyPeekBrings(u, r.ToRef(), c, k); }
  }

  /** For a reference by key only another entry's work can be lost, brought in by the `get`. */
  lemma KeyedNoopDiscardsNothing(t: Table, steps: seq<Step>, k: string, r: Request, o: Outcome, blocked: bool, c: Clock,
                                 now: int)
    requires Inv(t) && k in t.entries && RetainedThrough(t, steps, k) && UnmergedThrough(t, steps, k)
    requires r.stateGeneration == Some(t.entries[k].generation) && r.queueDepth == Some(t.entries[k].queueDepth)
    requires r.Depth() <= 0 && o.status == Noop && o.action == NoAction && o.reason == NO_ACTIVE_WORK
    requires ResolveKey(r.ToRef()) == k
    ensures var u := Run(t, steps);
            TotalDepth(Apply(u, r, Some(o), blocked, c, now)) == TotalDepth(u)
            <==> !(OutcomeCurrent(u, r, o) && !blocked && BringsWork(Prune(u, c.first, false), r.ToRef()))
  {
    DirectReferenceStays(t, steps, k, r.ToRef());
    NoopDiscardsNothing(t, steps, k, r, o, blocked, c, now);
  }

  // ---------- four ways to lose queued work ----------

  const NOOP := Outcome(Noop, NoAction, NO_ACTIVE_WORK, 0, None)

  function IdleSession(id: Option<string>, depth: int, activity: int): Entry {
    Entry(id, None, None, Idle, activity, 5, depth, false, None, None, Tools([], map[], map[]))
  }

  /** An idle session K without queued work, and a session J with id "y" and n messages. */
  function TwoSessions(n: int, activity: int): Table {
    Table(["K", "J"], map["K" := IdleSession(None, 0, 0), "J" := IdleSession(Some("y"), n, activity)], 0)
  }

  function StampedFromK(id: Option<string>): Request {
    Request(id, Some("K"), None, Some(Idle), Some(5), Some(0), false, None)
  }

  lemma TwoSessionsOk(n: int, activity: int)
    requires n > 0
    ensures Inv(TwoSessions(n, activity)) && TotalDepth(TwoSessions(n, activity)) == n
    ensures FindById(TwoSessions(n, activity), Some("y")) == Some("J")
  {
    var t := TwoSessions(n, activity);
    assert "K"[0] != "J"[0];
    assert t.order[1..] == ["J"] && t.order[1..][1..] == [];
    assert "y" != "";
  }

  /** K expires in the very `get` that applies the outcome: J is re-keyed to K and its
      messages are cleared, with no merge anywhere. */
  lemma ExpiryDiscardsWork(n: int)
    requires n > 0
    ensures var t := TwoSessions(n, SESSION_STATE_TTL_MS);
            var r := StampedFromK(Some("y"));
            var c := Clock(SESSION_STATE_TTL_MS + 1, SESSION_STATE_TTL_MS + 1, SESSION_STATE_TTL_MS + 1);
            && Inv(t) && Peek(t, r.ToRef()) == Some("K") && OutcomeCurrent(t, r, NOOP)
            && !GetMergesInto(t, r.ToRef(), c, "K")
            && TotalDepth(t) == n && TotalDepth(Apply(t, r, Some(NOOP), false, c, c.last)) == 0
  {
    var t := TwoSessions(n, SESSION_STATE_TTL_MS);
    var now := SESSION_STATE_TTL_MS + 1;
    var r := StampedFromK(Some("y"));
    TwoSessionsOk(n, SESSION_STATE_TTL_MS);
    NoopDiscardsExactly(t, r, NOOP, false, Clock(now, now, now), now);
    KExpires(n);
    assert "K" != "";
  }

  lemma KExpires(n: int)
    requires n > 0
    ensures var t1 := Prune(TwoSessions(n, SESSION_STATE_TTL_MS), SESSION_STATE_TTL_MS + 1, false);
            var ref := StampedFromK(Some("y")).ToRef();
            Resolve(t1, ref) == Rekey("J") && DepthFound(t1, ref) == n
  {
    var t := TwoSessions(n, SESSION_STATE_TTL_MS);
    var now := SESSION_STATE_TTL_MS + 1;
    assert "K"[0] != "J"[0];
    assert "K" != "" && "y" != "";
    assert StaleKeys(t, now) == {"K"};
    var t1 := Expire(t, now);
    assert t.order[1..] == ["J"] && t.order[1..][1..] == [];
    assert Without(["J"], {"K"}) == ["J"];
    assert t1.order == ["J"] && t1.entries == map["J" := t.entries["J"]];
    assert (set x | x in Evicted(t1)) == {};
    WithoutNothing(t1.order);
    assert t1.entries - {} == t1.entries;
    assert Prune(t, now, false) == t1;
  }

  /** The applying `get` merges J into K under the generation of K, and its messages are cleared. */
  lemma MergeDiscardsWork(n: int)
    requires n > 0
    ensures var t := TwoSessions(n, 0);
            var r := StampedFromK(Some("y"));
            var c := Clock(0, 0, 0);
            && Inv(t) && Peek(t, r.ToRef()) == Some("K") && OutcomeCurrent(t, r, NOOP)
            && TotalDepth(t) == n && TotalDepth(Apply(t, r, Some(NOOP), false, c, 0)) == 0
  {
    var t := TwoSessions(n, 0);
    var r := StampedFromK(Some("y"));
    TwoSessionsOk(n, 0);
    NoopDiscardsExactly(t, r, NOOP, false, Clock(0, 0, 0), 0);
    assert "K"[0] != "J"[0];
    assert "K" != "" && "y" != "";
    assert Prune(t, 0, false) == t;
    assert Resolve(t, r.ToRef()) == Merging("J");
  }

  /** A merge between the request and its outcome leaves the generation of K as it was, so
      the outcome of a request by key alone is current and clears the messages of J. */
  lemma EarlierMergeDiscardsWork(n: int)
    requires n > 0
    ensures var t := TwoSessions(n, 0);
            var u := Run(t, [SetFile(StampedFromK(Some("y")).ToRef(), None, Clock(0, 0, 0))]);
            var r := StampedFromK(None);
            && Inv(u) && Peek(u, r.ToRef()) == Some("K") && OutcomeCurrent(u, r, NOOP)
            && TotalDepth(u) == n && TotalDepth(Apply(u, r, Some(NOOP), false, Clock(0, 0, 0), 0)) == 0
  {
    var t, c := TwoSessions(n, 0), Clock(0, 0, 0);
    var r, step := StampedFromK(None), SetFile(StampedFromK(Some("y")).ToRef(), None, c);
    var u := Run(t, [step]);
    TwoSessionsOk(n, 0);
    RunKeepsInv(t, [step]);
    RunOne(t, step);
    MergedIntoK(n);
    NoopDiscardsExactly(u, r, NOOP, false, c, 0);
    OnlyK(u, n);
  }

  lemma OnlyK(u: Table, n: int)
    requires u.order == ["K"] && u.lastPrune == 0 && "K" in u.entries && u.entries["K"].queueDepth == n
    ensures TotalDepth(u) == n
    ensures Peek(u, StampedFromK(None).ToRef()) == Some("K")
    ensures DepthFound(Prune(u, 0, false), StampedFromK(None).ToRef()) == n
  {
    assert "K" != "";
    assert u.order[1..] == [] && Depth([], u.entries) == 0;
    assert Prune(u, 0, false) == u;
    assert Resolve(u, StampedFromK(None).ToRef()) == Direct;
  }

  lemma MergedIntoK(n: int)
    requires n > 0
    ensures var u := Do(TwoSessions(n, 0), SetFile(StampedFromK(Some("y")).ToRef(), None, Clock(0, 0, 0)));
            && u.order == ["K"] && u.lastPrune == 0 && "K" in u.entries && u.entries["K"].queueDepth == n
            && u.entries["K"].generation == 5 && u.entries["K"].state == Idle
  {
    var t, ref := TwoSessions(n, 0), StampedFromK(Some("y")).ToRef();
    TwoSessionsOk(n, 0);
    assert "K"[0] != "J"[0];
    assert "K" != "" && "y" != "";
    assert Prune(t, 0, false) == t;
    assert Resolve(t, ref) == Merging("J");
    assert t.order[1..] == ["J"] && t.order[1..][1..] == [];
    assert Without(["J"], {"J"}) == [];
    assert Without(t.order, {"J"}) == ["K"];
  }

  /** A message is queued under a key equal to the id of K: the reference by id now finds that
      entry, at the stamped generation, and its message is cleared. K is kept and nothing
      is merged. */
  lemma MovedReferenceDiscardsWork()
    ensures var t := Table(["K"], map["K" := NewEntry(Ref(Some("y"), Some("K"), None), 0).(generation := 1)], 0);
            var c := Clock(0, 0, 0);
            var steps := [Queue(Nameless("y"), c, 0)];
            var u := Run(t, steps);
            var r := Request(Some("y"), None, None, Some(Idle), Some(1), Some(0), false, None);
            && Inv(t) && Peek(t, r.ToRef()) == Some("K")
            && RetainedThrough(t, steps, "K") && UnmergedThrough(t, steps, "K")
            && OutcomeCurrent(u, r, NOOP) && !BringsWork(Prune(u, 0, false), r.ToRef())
            && TotalDepth(Apply(u, r, Some(NOOP), false, c, 0)) == TotalDepth(u) - 1
  {
    var t := Table(["K"], map["K" := NewEntry(Ref(Some("y"), Some("K"), None), 0).(generation := 1)], 0);
    var c := Clock(0, 0, 0);
    var r := Request(Some("y"), None, None, Some(Idle), Some(1), Some(0), false, None);
    var step := Queue(Nameless("y"), c, 0);
    KeptBesideQueued(t, c);
    OneStep(t, step, "K");
    ClearsY(Do(t, step), r, c);
  }

  lemma OneStep(t: Table, step: Step, k: string)
    requires Retains(t, step, k) && !MergesInto(t, step, k)
    ensures RetainedThrough(t, [step], k) && UnmergedThrough(t, [step], k) && Run(t, [step]) == Do(t, step)
  {
    assert [step][1..] == [];
  }

  lemma ClearsY(u: Table, r: Request, c: Clock)
    requires Inv(u) && u.lastPrune == 0 && |u.order| <= 2 && "y" in u.entries && u.entries["y"].queueDepth == 1
    requires u.entries["y"].generation == 1 && u.entries["y"].state == Idle && c == Clock(0, 0, 0)
    requires forall k :: k in u.entries && k != "y" ==> u.entries[k].queueDepth == 0
    requires r == Request(Some("y"), None, None, Some(Idle), Some(1), Some(0), false, None)
    ensures OutcomeCurrent(u, r, NOOP) && !BringsWork(Prune(u, 0, false), r.ToRef())
    ensures TotalDepth(Apply(u, r, Some(NOOP), false, c, 0)) == TotalDepth(u) - 1
  {
    FoundUnderY(u);
    NoopDiscardsExactly(u, r, NOOP, false, c, 0);
  }

  lemma KeptBesideQueued(t: Table, c: Clock)
    requires t == Table(["K"], map["K" := NewEntry(Ref(Some("y"), Some("K"), None), 0).(generation := 1)], 0)
    requires c == Clock(0, 0, 0)
    ensures Inv(t) && Peek(t, Ref(Some("y"), None, None)) == Some("K")
    ensures GetRetains(t, Nameless("y"), c, "K") && !GetMergesInto(t, Nameless("y"), c, "K")
    ensures var u := Do(t, Queue(Nameless("y"), c, 0));
            && Inv(u) && u.lastPrune == 0 && |u.order| <= 2 && "y" in u.entries && u.entries["y"].queueDepth == 1
            && u.entries["y"].generation == 1 && u.entries["y"].state == Idle
            && forall k :: k in u.entries && k != "y" ==> u.entries[k].queueDepth == 0
  {
    assert "K"[0] != "y"[0];
    assert "y" != "";
    CreateInRoom(t, "y", c);
    CreatedInRoom(t, "y", c);
    OthersInRoom(t, "y", c, "K");
    forall k | k in Get(t, Nameless("y"), c).0.entries ensures k == "K" || k == "y" {
      NothingElse(t, "y", c, k);
    }
    CreatesNameless(Prune(t, 0, false), "y", 0);
    DoKeepsInv(t, Queue(Nameless("y"), c, 0));
  }

  lemma FoundUnderY(u: Table)
    requires Inv(u) && u.lastPrune == 0 && "y" in u.entries && u.entries["y"].queueDepth == 1
    requires forall k :: k in u.entries && k != "y" ==> u.entries[k].queueDepth == 0
    ensures var ref := Ref(Some("y"), None, None);
            && Peek(u, ref) == Some("y") && Prune(u, 0, false) == u
            && DepthFound(u, ref) == 1 && !BringsWork(u, ref)
  {
    assert "y" != "";
    ResolveFacts(u, Ref(Some("y"), None, None));
  }

  // ---------- the warnings of one session ----------

  /** What a step does to the warning state of the session at k. */
  function BeatOf(t: Table, step: Step, k: string): seq<Attention.Beat> {
    match step
    case Tick(_) => []
    case Attend(ref, a, thresholdMs, abortMs, ageMs, c) =>
      var (u, key) := Get(t, ref, c);
      if key != k then []
      else
        var e := EntryAt(u, k);
        var cls := Attention.Classify(e.state, e.queueDepth, a, thresholdMs);
        var eligible := cls.recoveryEligible || Attention.ActiveAbortEligible(cls, a, abortMs);
        [Attention.Beat.Attention(cls, eligible, thresholdMs, ageMs)]
    case Complete(r, o, blocked, c, _) =>
      if o.Some? && Mutates(o.value) && OutcomeCurrent(t, r, o.value) && !blocked && Get(t, r.ToRef(), c).1 == k
      then [Attention.Reset] else []
    case SetFile(_, _, _) => []
    case _ => if Get(t, step.ref, step.clock).1 == k then [Attention.Reset] else []
  }

  function Beats(t: Table, steps: seq<Step>, k: string): seq<Attention.Beat>
    decreases |steps|
  {
    if steps == [] then [] else BeatOf(t, steps[0], k) + Beats(Do(t, steps[0]), steps[1..], k)
  }

  ghost predicate MarkersAre(t: Table, k: string, w: Attention.Warnings) {
    k in t.entries && t.entries[k].stuckWarnAge == w.stuck && t.entries[k].longRunningWarnAge == w.long
  }

  lemma GetKeepsMarkers(t: Table, ref: Ref, c: Clock, k: string, w: Attention.Warnings)
    requires Inv(t) && MarkersAre(t, k, w) && GetRetains(t, ref, c, k)
    ensures MarkersAre(Get(t, ref, c).0, k, w)
  {
    var t1 := Prune(t, c.first, false);
    PruneRestricts(t, c.first, false);
    ResolveFacts(t1, ref);
    LookValid(t1, ref, c.created);
    if Resolve(t1, ref).Missing? { PruneRestricts(Look(t1, ref, c.created).0, c.last, true); }
  }

  lemma HearOne(w: Attention.Warnings, beats: seq<Attention.Beat>, rest: seq<Attention.Beat>)
    requires |beats| <= 1
    ensures Attention.HearFrom(w, beats + rest) == Attention.HearFrom(Attention.HearFrom(w, beats), rest)
  {
    if beats == [] {
      assert beats + rest == rest;
    } else {
      assert beats[1..] == [] && (beats + rest)[1..] == rest;
    }
  }

  lemma EditMarkers(u: Table, key: string, step: Step, k: string, w: Attention.Warnings)
    requires MarkersAre(u, k, w) && step.Attend? && key == k
    ensures var e := u.entries[k];
            var cls := Attention.Classify(e.state, e.queueDepth, step.activity, step.thresholdMs);
            var eligible := cls.recoveryEligible || Attention.ActiveAbortEligible(cls, step.activity, step.abortMs);
            MarkersAre(Modify(u, key, (e: Entry) => Edit(step, e)), k,
                       Attention.Hear(w, Attention.Beat.Attention(cls, eligible, step.thresholdMs, step.ageMs)))
  {
  }

  lemma OtherMarkers(u: Table, key: string, f: Entry -> Entry, k: string, w: Attention.Warnings)
    requires MarkersAre(u, k, w) && key != k
    ensures MarkersAre(Modify(u, key, f), k, w)
  {
  }

  lemma CompleteMarkers(t: Table, r: Request, o: Option<Outcome>, blocked: bool, c: Clock, now: int, k: string,
                        w: Attention.Warnings)
    requires Inv(t) && MarkersAre(t, k, w) && Retains(t, Complete(r, o, blocked, c, now), k)
    ensures var beats := BeatOf(t, Complete(r, o, blocked, c, now), k);
            MarkersAre(Apply(t, r, o, blocked, c, now), k, if beats == [] then w else Attention.Hear(w, beats[0]))
  {
    if o.Some? && Mutates(o.value) && OutcomeCurrent(t, r, o.value) { GetKeepsMarkers(t, r.ToRef(), c, k, w); }
  }

  lemma StepMarkers(t: Table, step: Step, k: string, w: Attention.Warnings)
    requires Inv(t) && MarkersAre(t, k, w) && Retains(t, step, k)
    ensures MarkersAre(Do(t, step), k, Attention.HearFrom(w, BeatOf(t, step, k)))
  {
    var beats := BeatOf(t, step, k);
    if beats != [] { assert beats[1..] == []; }
    match step
    case Tick(now) => PruneRestricts(t, now, true);
    case Complete(r, o, blocked, c, now) => CompleteMarkers(t, r, o, blocked, c, now, k, w);
    case _ =>
      var (u, key) := Get(t, step.ref, step.clock);
      GetKeepsMarkers(t, step.ref, step.clock, k, w);
      if key != k {
        OtherMarkers(u, key, (e: Entry) => Edit(step, e), k, w);
      } else if step.Attend? {
        EditMarkers(u, key, step, k, w);
      }
  }

  /** Over every run that keeps the session, the warning markers of its entry are those of
      the beats of the run. */
  lemma {:induction false} RunMarkers(t: Table, steps: seq<Step>, k: string, w: Attention.Warnings)
    requires Inv(t) && MarkersAre(t, k, w) && RetainedThrough(t, steps, k)
    ensures MarkersAre(Run(t, steps), k, Attention.HearFrom(w, Beats(t, steps, k)))
    decreases |steps|
  {
    if steps != [] {
      StepMarkers(t, steps[0], k, w);
      DoKeepsInv(t, steps[0]);
      var beats := BeatOf(t, steps[0], k);
      HearOne(w, beats, Beats(Do(t, steps[0]), steps[1..], k));
      RunMarkers(Do(t, steps[0]), steps[1..], k, Attention.HearFrom(w, beats));
    }
  }

  lemma {:induction false} BeatThresholds(t: Table, steps: seq<Step>, k: string, least: int)
    requires forall step :: step in steps && step.Attend? ==> step.thresholdMs >= least
    ensures forall b :: b in Beats(t, steps, k) && b.Attention? ==> b.thresholdMs >= least
    decreases |steps|
  {
    if steps != [] {
      assert steps[0] in steps;
      BeatThresholds(Do(t, steps[0]), steps[1..], k, least);
    }
  }

  /** The warnings of a session in a run: its markers are the ages of the last ones since
      the last reset, and the k-th of each kind came at least at threshold * 2^(k-1). */
  lemma RunWarningsDouble(t: Table, steps: seq<Step>, k: string, least: int)
    requires Inv(t) && MarkersAre(t, k, Attention.HearAll([])) && RetainedThrough(t, steps, k)
    requires forall step :: step in steps && step.Attend? ==> step.thresholdMs >= least
    ensures var w := Attention.HearAll(Beats(t, steps, k));
            && k in Run(t, steps).entries
            && Attention.Spaced(w.stuckAges, Run(t, steps).entries[k].stuckWarnAge, least)
            && Attention.Spaced(w.longAges, Run(t, steps).entries[k].longRunningWarnAge, least)
  {
    RunMarkers(t, steps, k, Attention.HearAll([]));
    BeatThresholds(t, steps, k, least);
    Attention.WarningsDouble(Beats(t, steps, k), least);
  }
}
