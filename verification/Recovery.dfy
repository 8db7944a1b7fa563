/** Applying the outcome of a stuck-session recovery to the session table. */
module Recovery {
  import opened Options
  import opened Sessions

  datatype Status = Aborted | Released | Noop | Skipped | Failed

  datatype Action = ObserveOnly | AbortEmbeddedRun | ReleaseLane | KeepLane | NoAction

  datatype Outcome = Outcome(status: Status, action: Action, reason: string, released: nat, queuedCount: Option<nat>)

  const NO_ACTIVE_WORK := "no_active_work"

  datatype Request = Request(
    sessionId: Option<string>,
    sessionKey: Option<string>,
    sessionFile: Option<string>,
    expectedState: Option<RunState>,
    stateGeneration: Option<int>,
    queueDepth: Option<int>,
    allowActiveAbort: bool,
    staleActiveProgressAbortMs: Option<int>)
  {
    function ToRef(): Ref {
      Ref(sessionId, sessionKey, sessionFile)
    }

    /** `request.get("expectedState") or "processing"` */
    function Expected(): RunState {
      if expectedState.Some? then expectedState.value else Processing
    }

    /** `request.get("queueDepth") or 0` */
    function Depth(): int {
      if queueDepth.Some? then queueDepth.value else 0
    }
  }

  /** `recovery_outcome_mutates_session_state` */
  predicate Mutates(o: Outcome) {
    o.status == Aborted || o.status == Released || (o.status == Noop && o.reason == NO_ACTIVE_WORK)
  }

  function QueuedCount(o: Outcome): nat {
    if o.queuedCount.Some? then o.queuedCount.value else 0
  }

  /** `recovery_outcome_clears_queued_session_state` */
  predicate ClearsQueue(o: Outcome) {
    || o.status == Released
    || (o.status == Aborted && o.released > 0 && QueuedCount(o) == 0)
    || (o.status == Noop && o.reason == NO_ACTIVE_WORK)
  }

  /** `is_diagnostic_session_state_current` */
  predicate IsCurrent(t: Table, ref: Ref, generation: Option<int>, state: RunState) {
    generation == None ||
    (var k := Peek(t, ref);
     k.Some? && EntryAt(t, k.value).generation == generation.value && EntryAt(t, k.value).state == state)
  }

  /** The case that tolerates one generation step: aborting the run of an idle session. */
  predicate IdleAbort(r: Request, o: Outcome) {
    r.Expected() == Idle && r.stateGeneration.Some? && o.action == AbortEmbeddedRun
  }

  /** `state_is_current` */
  predicate OutcomeCurrent(t: Table, r: Request, o: Outcome) {
    if IdleAbort(r, o) then
      var k := Peek(t, r.ToRef());
      k.Some? && EntryAt(t, k.value).state == Idle
      && (EntryAt(t, k.value).generation == r.stateGeneration.value ||
          EntryAt(t, k.value).generation == r.stateGeneration.value + 1)
    else IsCurrent(t, r.ToRef(), r.stateGeneration, r.Expected())
  }

  /** The new queueDepth of a recovered session. */
  function RecoveredDepth(depth: int, r: Request, o: Outcome): int {
    if ClearsQueue(o) then 0
    else if r.expectedState == Some(Idle) && o.status == Aborted && QueuedCount(o) > 0 then Max(depth, r.Depth())
    else Max(0, depth - 1)
  }

  function Recovered(e: Entry, r: Request, o: Outcome, now: int): Entry {
    e.(state := Idle, lastActivity := now, generation := e.generation + 1,
       stuckWarnAge := None, longRunningWarnAge := None, queueDepth := RecoveredDepth(e.queueDepth, r, o))
  }

  /** Changes the entry a `get` returned, if the table still holds it. */
  function Modify(t: Table, k: string, f: Entry -> Entry): Table {
    if k in t.entries then Put(t, k, f(t.entries[k])) else t
  }

  /** `_apply_recovery_outcome_to_diagnostic_state`; `blocked` says that a newer embedded
      run kept the activity tracker from being cleared. */
  function Apply(t: Table, r: Request, outcome: Option<Outcome>, blocked: bool, c: Clock, now: int): Table {
    if outcome == None || !Mutates(outcome.value) || !OutcomeCurrent(t, r, outcome.value) then t
    else
      var (u, key) := Get(t, r.ToRef(), c);
      if blocked then u else Modify(u, key, (e: Entry) => Recovered(e, r, outcome.value, now))
  }

  lemma ModifyKeepsInv(t: Table, k: string, f: Entry -> Entry)
    requires Inv(t)
    requires k in t.entries ==> f(t.entries[k]).sessionId == t.entries[k].sessionId
                                && f(t.entries[k]).queueDepth >= 0 && f(t.entries[k]).generation >= 0
    ensures Inv(Modify(t, k, f))
  {
  }

  lemma RecoveredKeepsInv(u: Table, key: string, r: Request, o: Outcome, now: int)
    requires Inv(u)
    ensures Inv(Modify(u, key, (e: Entry) => Recovered(e, r, o, now)))
  {
    ModifyKeepsInv(u, key, (e: Entry) => Recovered(e, r, o, now));
  }

  lemma ApplyKeepsInv(t: Table, r: Request, outcome: Option<Outcome>, blocked: bool, c: Clock, now: int)
    requires Inv(t)
    ensures Inv(Apply(t, r, outcome, blocked, c, now))
  {
    if outcome.Some? && Mutates(outcome.value) && OutcomeCurrent(t, r, outcome.value) {
      GetKeepsInv(t, r.ToRef(), c);
      RecoveredKeepsInv(Get(t, r.ToRef(), c).0, Get(t, r.ToRef(), c).1, r, outcome.value, now);
    }
  }
}
