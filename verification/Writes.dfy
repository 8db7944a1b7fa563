/** What the log steps and the outcomes of recoveries write into the session table, field by
    field. What the `get` of a step does beforehand is told in `Lookups`. */
module Writes {
  import opened Options
  import opened Sessions
  import opened Recovery
  import opened Lookups
  import Attention
  import Diagnostics

  /** Only the entry at k is written, and only if the table still holds it. */
  ghost predicate WritesAt(u: Table, v: Table, k: string) {
    && u.order == v.order && u.lastPrune == v.lastPrune && u.entries.Keys == v.entries.Keys
    && forall h :: h in v.entries && h != k ==> u.entries[h] == v.entries[h]
  }

  /** The names of the session, and what the tool-loop detection keeps, stay. */
  predicate SameIdentity(e: Entry, d: Entry) {
    e.sessionId == d.sessionId && e.sessionKey == d.sessionKey && e.sessionFile == d.sessionFile && e.tools == d.tools
  }

  /** The session was active now: one generation more, and its warnings start anew. */
  predicate Touched(e: Entry, d: Entry, now: int) {
    && e.lastActivity == now && e.generation == d.generation + 1
    && e.stuckWarnAge == None && e.longRunningWarnAge == None
  }

  /** One message less, if there is any. */
  predicate OneLess(n: int, d: int) {
    if d > 0 then n == d - 1 else n == 0
  }

  lemma ModifyWrites(v: Table, k: string, f: Entry -> Entry)
    ensures WritesAt(Modify(v, k, f), v, k)
    ensures k in v.entries ==> Modify(v, k, f).entries[k] == f(v.entries[k])
  {
  }

  // ---------- the log steps ----------

  /** A queued message: one more, in a session that keeps its state. */
  predicate IsQueued(e: Entry, d: Entry, now: int) {
    && Touched(e, d, now) && SameIdentity(e, d) && e.state == d.state
    && e.queueDepth == d.queueDepth + 1 && e.activeQueuedTurn == d.activeQueuedTurn
  }

  /** A change of state: becoming idle takes one message off and ends the queued turn;
      starting to process begins a queued turn if there are messages. */
  predicate IsChanged(e: Entry, d: Entry, s: RunState, now: int) {
    && Touched(e, d, now) && SameIdentity(e, d) && e.state == s
    && (s == Idle ==> OneLess(e.queueDepth, d.queueDepth) && !e.activeQueuedTurn)
    && (s != Idle ==> e.queueDepth == d.queueDepth)
    && (s == Processing && d.state != Processing ==> (e.activeQueuedTurn <==> d.queueDepth > 0))
    && (s == Processing && d.state == Processing ==> e.activeQueuedTurn == d.activeQueuedTurn)
    && (s != Idle && s != Processing ==> e.activeQueuedTurn == d.activeQueuedTurn)
  }

  /** Progress touches the session and changes nothing else. */
  predicate IsProgressed(e: Entry, d: Entry, now: int) {
    && Touched(e, d, now) && SameIdentity(e, d) && e.state == d.state
    && e.queueDepth == d.queueDepth && e.activeQueuedTurn == d.activeQueuedTurn
  }

  /** The next warning is due: at the threshold, later at a threshold more than the last one
      and at twice its age. */
  predicate Due(last: Option<int>, thresholdMs: int, ageMs: int) {
    if last == None then ageMs >= thresholdMs else ageMs >= last.value + thresholdMs && ageMs >= 2 * last.value
  }

  /** An attention check writes the age of the warning that goes out, and nothing else. */
  predicate IsMarked(e: Entry, d: Entry, event: Attention.EventType, thresholdMs: int, ageMs: int) {
    e == if event == Attention.Stuck && Due(d.stuckWarnAge, thresholdMs, ageMs) then d.(stuckWarnAge := Some(ageMs))
         else if event == Attention.LongRunning && Due(d.longRunningWarnAge, thresholdMs, ageMs)
         then d.(longRunningWarnAge := Some(ageMs))
         else d
  }

  /** What a log step makes of the entry `d` that its `get` returned. */
  predicate IsStepped(e: Entry, d: Entry, step: Diagnostics.Step) {
    match step
    case Queue(_, _, now) => IsQueued(e, d, now)
    case Change(_, s, _, now) => IsChanged(e, d, s, now)
    case Progress(_, _, now) => IsProgressed(e, d, now)
    case SetFile(_, file, _) => e == d.(sessionFile := file)
    case Attend(_, a, thresholdMs, _, ageMs, _) =>
      IsMarked(e, d, Attention.Classify(d.state, d.queueDepth, a, thresholdMs).eventType, thresholdMs, ageMs)
    case _ => e == d
  }

  lemma EditSteps(d: Entry, step: Diagnostics.Step)
    ensures IsStepped(Diagnostics.Edit(step, d), d, step)
  {
  }

  /** The entry at k is written as the step says. */
  ghost predicate StepsAt(u: Table, v: Table, k: string, step: Diagnostics.Step) {
    WritesAt(u, v, k) && (k in v.entries ==> IsStepped(u.entries[k], v.entries[k], step))
  }

  lemma ModifySteps(v: Table, k: string, step: Diagnostics.Step)
    ensures StepsAt(Modify(v, k, (e: Entry) => Diagnostics.Edit(step, e)), v, k, step)
  {
    ModifyWrites(v, k, (e: Entry) => Diagnostics.Edit(step, e));
    if k in v.entries { EditSteps(v.entries[k], step); }
  }

  /** Every log step writes the entry that its `get` returned, and no other. */
  lemma StepWrites(t: Table, step: Diagnostics.Step)
    requires !step.Tick? && !step.Complete?
    ensures var (v, k) := Get(t, step.ref, step.clock); StepsAt(Diagnostics.Do(t, step), v, k, step)
  {
    var (v, k) := Get(t, step.ref, step.clock);
    ModifySteps(v, k, step);
  }

  /** The classification is handed back exactly for stuck and stalled sessions and for
      warnings that go out. */
  lemma AttendReturns(e: Entry, a: Attention.Activity, thresholdMs: int, abortMs: int, ageMs: int)
    ensures var cls := Attention.Classify(e.state, e.queueDepth, a, thresholdMs);
            Attention.Returned(e, a, thresholdMs, abortMs, ageMs)
            == if cls.eventType == Attention.LongRunning && !Due(e.longRunningWarnAge, thresholdMs, ageMs) then None
               else Some(cls)
  {
  }

  // ---------- the outcomes of recoveries ----------

  /** The outcomes that change the session: aborted, released, and nothing to do. */
  predicate EndsWork(o: Outcome) {
    o.status == Aborted || o.status == Released || (o.status == Noop && o.reason == "no_active_work")
  }

  /** Aborting the run of a session that was idle when the recovery was requested. */
  predicate AbortsIdle(r: Request, o: Outcome) {
    r.expectedState == Some(Idle) && r.stateGeneration != None && o.action == AbortEmbeddedRun
  }

  /** The entry at k is in the state expected, processing when none is named, and of the
      generation stamped; for an aborted run of an idle session also of the next one. */
  predicate AsStamped(t: Table, k: string, r: Request, o: Outcome, generation: int) {
    && k in t.entries
    && t.entries[k].state == (if r.expectedState == None then Processing else r.expectedState.value)
    && (t.entries[k].generation == generation || (AbortsIdle(r, o) && t.entries[k].generation == generation + 1))
  }

  /** The session that the request means is as it was then; without a stamp it always is. */
  ghost predicate IsAsRequested(t: Table, r: Request, o: Outcome) {
    r.stateGeneration != None ==>
      exists k :: Peek(t, r.ToRef()) == Some(k) && AsStamped(t, k, r, o, r.stateGeneration.value)
  }

  lemma CurrentMeans(t: Table, r: Request, o: Outcome)
    requires t.Valid()
    ensures OutcomeCurrent(t, r, o) <==> IsAsRequested(t, r, o)
  {
    if Truthy(r.sessionId) { FindInFirst(t.order, t.entries, r.sessionId.value); }
    if Peek(t, r.ToRef()).Some? {
      var k := Peek(t, r.ToRef()).value;
      assert k in t.entries;
      if r.stateGeneration != None {
        assert OutcomeCurrent(t, r, o) <==> AsStamped(t, k, r, o, r.stateGeneration.value);
      }
    }
  }

  /** What the recovery of a session leaves of its queue: nothing when the lane was released,
      when there was no work, or when the aborted run's lane gave up all it had; the queue it
      had, or the one requested if that is longer, when an idle session's lane keeps work;
      otherwise one message less. */
  predicate QueueLeft(n: int, d: int, r: Request, o: Outcome) {
    var requested := if r.queueDepth == None then 0 else r.queueDepth.value;
    && (o.status != Aborted ==> n == 0)
    && (o.status == Aborted && (o.queuedCount == None || o.queuedCount == Some(0)) && o.released > 0 ==> n == 0)
    && (o.status == Aborted && (o.queuedCount == None || o.queuedCount == Some(0)) && o.released == 0 ==> OneLess(n, d))
    && (o.status == Aborted && o.queuedCount != None && o.queuedCount.value > 0 ==>
          if r.expectedState == Some(Idle) then IsLarger(n, d, requested) else OneLess(n, d))
  }

  /** What the recovery makes of the entry `d` that its `get` returned: idle, active now, one
      generation older, without markers, and with the queue it should have. */
  predicate IsRecovered(e: Entry, d: Entry, r: Request, o: Outcome, now: int) {
    && e.state == Idle && Touched(e, d, now) && SameIdentity(e, d)
    && e.activeQueuedTurn == d.activeQueuedTurn && QueueLeft(e.queueDepth, d.queueDepth, r, o)
  }

  ghost predicate RecoversAt(u: Table, v: Table, k: string, r: Request, o: Outcome, now: int) {
    WritesAt(u, v, k) && (k in v.entries ==> IsRecovered(u.entries[k], v.entries[k], r, o, now))
  }

  lemma ModifyRecovers(v: Table, k: string, r: Request, o: Outcome, now: int)
    requires EndsWork(o)
    ensures RecoversAt(Modify(v, k, (e: Entry) => Recovered(e, r, o, now)), v, k, r, o, now)
  {
    ModifyWrites(v, k, (e: Entry) => Recovered(e, r, o, now));
  }

  /** An outcome that changes the session, of a session that is as requested and without a
      newer run in the way, recovers the entry that its `get` returned, and no other. */
  lemma ApplyRecovers(t: Table, r: Request, o: Outcome, c: Clock, now: int)
    requires t.Valid() && EndsWork(o) && IsAsRequested(t, r, o)
    ensures var (v, k) := Get(t, r.ToRef(), c); RecoversAt(Apply(t, r, Some(o), false, c, now), v, k, r, o, now)
  {
    CurrentMeans(t, r, o);
    var (v, k) := Get(t, r.ToRef(), c);
    ModifyRecovers(v, k, r, o, now);
  }

  /** A newer run in the way stops it after the `get`; any other outcome, and one for a
      session that is not as requested, does nothing at all. */
  lemma ApplyHeldBack(t: Table, r: Request, o: Option<Outcome>, blocked: bool, c: Clock, now: int)
    requires t.Valid()
    ensures blocked && o.Some? && EndsWork(o.value) && IsAsRequested(t, r, o.value) ==>
              Apply(t, r, o, blocked, c, now) == Get(t, r.ToRef(), c).0
    ensures o == None || !EndsWork(o.value) || !IsAsRequested(t, r, o.value) ==> Apply(t, r, o, blocked, c, now) == t
  {
    if o.Some? { CurrentMeans(t, r, o.value); }
  }
}
