/** `recover_stuck_diagnostic_session`: deciding whether to abort a run and reset a lane.
    Runs and lanes belong to the rest of the system; a `World` is what their query
    functions answer at one moment, and the world after the abort is any other one. */
module StuckRecovery {
  import opened Options
  import opened Texts
  import opened Sessions
  import opened Recovery

  const STUCK_SESSION_PROGRESS_STALE_MS := 5 * 60 * 1000

  datatype World = World(
    handleActive: set<string>,
    handleByKey: map<string, string>,
    handleByFile: map<string, string>,
    runActive: set<string>,
    runByKey: map<string, string>,
    runByFile: map<string, string>,
    laneOf: map<string, string>,
    laneTasks: map<string, seq<string>>,
    laneActive: map<string, nat>,
    laneQueued: map<string, nat>,
    progressAge: map<string, int>,
    snapshotRaises: bool)

  function Lookup<K, V>(m: map<K, V>, k: K): Option<V> {
    if k in m then Some(m[k]) else None
  }

  function LookupTruthy(m: map<string, string>, k: Option<string>): Option<string> {
    if Truthy(k) then Lookup(m, k.value) else None
  }

  function TasksOf(w: World, lane: string): seq<string> {
    if lane in w.laneTasks then w.laneTasks[lane] else []
  }

  function CountOf(m: map<string, nat>, lane: string): nat {
    if lane in m then m[lane] else 0
  }

  /** `resolve_stuck_session_recovery_ref` */
  function RefKey(r: Request): Option<string> {
    if r.sessionKey.Some? && Strip(r.sessionKey.value) != "" then Some(Strip(r.sessionKey.value))
    else if r.sessionId.Some? && Strip(r.sessionId.value) != "" then Some(Strip(r.sessionId.value))
    else None
  }

  /** `_resolve_stale_active_progress_abort_ms` */
  function StaleAbortMs(r: Request): int {
    if r.staleActiveProgressAbortMs.Some? && r.staleActiveProgressAbortMs.value > 0
       then r.staleActiveProgressAbortMs.value
    else STUCK_SESSION_PROGRESS_STALE_MS
  }

  /** `_is_active_run_progress_stale` */
  predicate ProgressStale(r: Request, w: World, session: string) {
    r.Depth() > 0 && session in w.progressAge && w.progressAge[session] >= StaleAbortMs(r)
  }

  /** The run whose handle is active for the request. */
  function ActiveSession(r: Request, w: World): Option<string> {
    var fallback := if Truthy(r.sessionId) && r.sessionId.value in w.handleActive then r.sessionId else None;
    var byFile := LookupTruthy(w.handleByFile, r.sessionFile);
    if Truthy(r.sessionKey) then Or(Lookup(w.handleByKey, r.sessionKey.value), Or(byFile, fallback))
    else Or(byFile, fallback)
  }

  /** The session whose reply work may be active without a handle. */
  function WorkSession(r: Request, w: World): Option<string> {
    var byFile := LookupTruthy(w.runByFile, r.sessionFile);
    if Truthy(r.sessionKey) then Or(Lookup(w.runByKey, r.sessionKey.value), Or(byFile, r.sessionId))
    else Or(byFile, r.sessionId)
  }

  function Skip(action: Action, reason: string): Outcome {
    Outcome(Status.Skipped, action, reason, 0, None)
  }

  const FAILURE := Outcome(Status.Failed, NoAction, "exception", 0, None)

  /** What the code holds across the abort: the lane and the tasks seen on it before. */
  datatype Held = Held(lane: Option<string>, before: set<string>)

  datatype Begun =
    | Over(outcome: Outcome)
    | Aborting(session: string, held: Held)
    | NoRun(held: Held)

  /** The run the request concerns, if any: one with an active handle, else active reply work. */
  function LiveRun(r: Request, w: World): Option<string> {
    if Truthy(ActiveSession(r, w)) then ActiveSession(r, w)
    else if Truthy(WorkSession(r, w)) && WorkSession(r, w).value in w.runActive then WorkSession(r, w)
    else None
  }

  function HeldAt(r: Request, w: World): Held {
    var lane := if RefKey(r).Some? then Lookup(w.laneOf, RefKey(r).value) else None;
    Held(lane, if Truthy(lane) then set x | x in TasksOf(w, lane.value) else {})
  }

  datatype AbortReply = AbortReply(aborted: bool, drained: bool, forceCleared: bool)

  /** The lane is reset after the run `active` (if any) was aborted with `reply`. */
  predicate ResetsLane(r: Request, held: Held, active: Option<string>, reply: AbortReply, w: World) {
    && Truthy(held.lane)
    && (forall task :: task in TasksOf(w, held.lane.value) ==> task in held.before)
    && (CountOf(w.laneQueued, held.lane.value) > 0 || r.Depth() > 0 || !Truthy(active) || !reply.aborted ||
        !reply.drained)
  }

  /** The outcome, given how many tasks the reset released. */
  function OutcomeAfter(r: Request, held: Held, reply: AbortReply, w: World, released: nat): Outcome {
    var queued := if Truthy(held.lane) then CountOf(w.laneQueued, held.lane.value) else 0;
    if reply.aborted || reply.forceCleared then
      Outcome(Aborted, AbortEmbeddedRun, "", released, if queued > 0 then Some(queued) else None)
    else if released > 0 || r.Depth() > 0 then Outcome(Released, ReleaseLane, "", released, None)
    else Outcome(Noop, NoAction, NO_ACTIVE_WORK, 0, None)
  }

  /** The decision taken before anything is awaited. */
  function Decide(r: Request, t: Table, w: World): Begun {
    var held := HeldAt(r, w);
    if !IsCurrent(t, r.ToRef(), r.stateGeneration, r.Expected()) then Over(Skip(ObserveOnly, "stale_session_state"))
    else if LiveRun(r, w).Some? then
      var run := LiveRun(r, w).value;
      if r.allowActiveAbort then Aborting(run, held)
      else if r.Depth() > 0 && w.snapshotRaises then Over(FAILURE)
      else if ProgressStale(r, w, run) then Aborting(run, held)
      else if Truthy(ActiveSession(r, w)) then Over(Skip(ObserveOnly, "active_embedded_run"))
      else Over(Skip(KeepLane, "active_reply_work"))
    else if Truthy(held.lane) && CountOf(w.laneActive, held.lane.value) > 0
        then Over(Skip(KeepLane, "active_lane_task"))
    else NoRun(held)
  }

  /** A live run is aborted exactly when the request is current and either it allows the
      abort, or there is queued work and the run's progress is read and stale. Reading it
      may raise, which is done only when it is needed, and fails the recovery. */
  lemma AbortsExactly(r: Request, t: Table, w: World)
    ensures Decide(r, t, w).Aborting?
            <==> && IsCurrent(t, r.ToRef(), r.stateGeneration, r.Expected()) && LiveRun(r, w).Some?
                 && (r.allowActiveAbort || (!w.snapshotRaises && ProgressStale(r, w, LiveRun(r, w).value)))
    ensures Decide(r, t, w).Aborting? ==> LiveRun(r, w) == Some(Decide(r, t, w).session)
    ensures Decide(r, t, w) == Over(FAILURE)
            <==> && IsCurrent(t, r.ToRef(), r.stateGeneration, r.Expected()) && LiveRun(r, w).Some?
                 && !r.allowActiveAbort && r.Depth() > 0 && w.snapshotRaises
  {
  }

  /** The part of `recover_stuck_diagnostic_session` up to the abort. */
  method Begin(r: Request, t: Table, w: World) returns (b: Begun)
    ensures b == Decide(r, t, w)
  {
    if !IsCurrent(t, r.ToRef(), r.stateGeneration, r.Expected()) {
      return Over(Skip(ObserveOnly, "stale_session_state"));
    }
    var active := ActiveSession(r, w);
    var work := WorkSession(r, w);
    var held := HeldAt(r, w);
    if Truthy(active) {
      var reclaim := false;
      if !r.allowActiveAbort {
        if r.Depth() > 0 && w.snapshotRaises { return Over(FAILURE); }
        reclaim := ProgressStale(r, w, active.value);
      }
      if !r.allowActiveAbort && !reclaim {
        return Over(Skip(ObserveOnly, "active_embedded_run"));
      }
      return Aborting(active.value, held);
    }
    if Truthy(work) && work.value in w.runActive {
      var reclaim := false;
      if !r.allowActiveAbort {
        if r.Depth() > 0 && w.snapshotRaises { return Over(FAILURE); }
        reclaim := ProgressStale(r, w, work.value);
      }
      if r.allowActiveAbort || reclaim {
        return Aborting(work.value, held);
      }
      return Over(Skip(KeepLane, "active_reply_work"));
    }
    if Truthy(held.lane) && CountOf(w.laneActive, held.lane.value) > 0 {
      return Over(Skip(KeepLane, "active_lane_task"));
    }
    return NoRun(held);
  }

  /** The part after the abort (or without one): read the lane again, reset it unless it
      has started a task unseen before, and report. `count` is what a reset would return,
      `raises` says that the reporting fails. */
  method Conclude(r: Request, held: Held, active: Option<string>, reply: AbortReply, w: World, count: nat, raises: bool)
      returns (o: Outcome, reset: bool)
    ensures reset == ResetsLane(r, held, active, reply, w)
    ensures o == if raises then FAILURE else OutcomeAfter(r, held, reply, w, if reset then count else 0)
  {
    var queuedCount := if Truthy(held.lane) then CountOf(w.laneQueued, held.lane.value) else 0;
    var startedFresh := false;
    if held.lane.Some? {
      var tasks := TasksOf(w, held.lane.value);
      for i := 0 to |tasks|
        invariant startedFresh <==> exists j :: 0 <= j < i && tasks[j] !in held.before
      {
        if tasks[i] !in held.before { startedFresh := true; }
      }
      assert startedFresh <==> !(forall task :: task in tasks ==> task in held.before);
    }
    var hasQueuedWork := r.Depth() > 0;
    reset := Truthy(held.lane) && !startedFresh
             && (queuedCount > 0 || hasQueuedWork || !Truthy(active) || !reply.aborted || !reply.drained);
    var released := if reset then count else 0;
    var clearStale := !reply.aborted && released == 0 && r.Depth() > 0;
    if raises {
      o := FAILURE;
    } else if reply.aborted || reply.forceCleared || released > 0 || clearStale {
      if reply.aborted || reply.forceCleared {
        o := Outcome(Aborted, AbortEmbeddedRun, "", released, if queuedCount > 0 then Some(queuedCount) else None);
      } else {
        o := Outcome(Released, ReleaseLane, "", released, None);
      }
    } else {
      o := Outcome(Noop, NoAction, NO_ACTIVE_WORK, 0, None);
    }
  }
}
