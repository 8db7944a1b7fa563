/** What a recovery decides and does, told on the events of the whole system and in terms of
    the runs, lanes and tasks that were there, without the functions that compute it. */
module Lanes {
  import opened Options
  import opened Texts
  import opened Sessions
  import opened Recovery
  import opened StuckRecovery
  import opened Coordination
  import opened Lookups
  import opened Writes

  // ---------- names ----------

  /** The key of a request: its session key without spaces around it, else its id. */
  predicate KeyName(r: Request, k: string) {
    && k != ""
    && (|| (r.sessionKey != None && Strip(r.sessionKey.value) == k)
        || ((r.sessionKey == None || Strip(r.sessionKey.value) == "")
            && r.sessionId != None && Strip(r.sessionId.value) == k))
  }

  predicate Unnamed(r: Request) {
    && (r.sessionKey == None || Strip(r.sessionKey.value) == "")
    && (r.sessionId == None || Strip(r.sessionId.value) == "")
  }

  lemma RefKeyMeans(r: Request, k: string)
    ensures RefKey(r) == Some(k) <==> KeyName(r, k)
    ensures RefKey(r) == None <==> Unnamed(r)
  {
  }

  // ---------- runs ----------

  /** The name stands for the run of session `s`. */
  predicate RunUnder(runs: map<string, string>, name: Option<string>, s: string) {
    Given(name) && name.value in runs && runs[name.value] == s && s != ""
  }

  predicate NoRunUnder(runs: map<string, string>, name: Option<string>) {
    !Given(name) || name.value !in runs || runs[name.value] == ""
  }

  /** The run of the session key, else of the session file, else of the session itself. */
  predicate FirstRun(r: Request, byKey: map<string, string>, byFile: map<string, string>, s: string, own: bool) {
    || RunUnder(byKey, r.sessionKey, s)
    || (NoRunUnder(byKey, r.sessionKey) && RunUnder(byFile, r.sessionFile, s))
    || (NoRunUnder(byKey, r.sessionKey) && NoRunUnder(byFile, r.sessionFile)
        && Given(r.sessionId) && r.sessionId.value == s && own)
  }

  /** `s` has the run whose handle is active for the request. */
  predicate HandledBy(r: Request, w: World, s: string) {
    FirstRun(r, w.handleByKey, w.handleByFile, s, s in w.handleActive)
  }

  /** `s` has active work for the request, without a handle. */
  predicate WorkedBy(r: Request, w: World, s: string) {
    FirstRun(r, w.runByKey, w.runByFile, s, true) && s in w.runActive
  }

  ghost predicate Unhandled(r: Request, w: World) {
    forall s :: !HandledBy(r, w, s)
  }

  ghost predicate LiveIn(r: Request, w: World, s: string) {
    HandledBy(r, w, s) || (Unhandled(r, w) && WorkedBy(r, w, s))
  }

  lemma HandleMeans(r: Request, w: World, s: string)
    ensures Truthy(ActiveSession(r, w)) && ActiveSession(r, w).value == s <==> HandledBy(r, w, s)
  {
  }

  lemma WorkMeans(r: Request, w: World, s: string)
    ensures Truthy(WorkSession(r, w)) && WorkSession(r, w).value == s && s in w.runActive <==> WorkedBy(r, w, s)
  {
  }

  /** The live run of a request: one with an active handle goes before other active work. */
  lemma LiveRunMeans(r: Request, w: World, s: string)
    ensures LiveRun(r, w) == Some(s) <==> LiveIn(r, w, s)
    ensures Truthy(ActiveSession(r, w)) <==> !Unhandled(r, w)
    ensures LiveRun(r, w) == None ==> forall h :: !LiveIn(r, w, h)
  {
    forall h { HandleMeans(r, w, h); }
    forall h { WorkMeans(r, w, h); }
    if Truthy(ActiveSession(r, w)) { assert HandledBy(r, w, ActiveSession(r, w).value); }
  }

  // ---------- lanes ----------

  ghost predicate LaneOf(r: Request, w: World, lane: string) {
    exists k :: KeyName(r, k) && k in w.laneOf && w.laneOf[k] == lane && lane != ""
  }

  predicate OnLane(w: World, lane: string, task: string) {
    lane in w.laneTasks && task in w.laneTasks[lane]
  }

  function CountOn(counts: map<string, nat>, lane: string): nat {
    if lane in counts then counts[lane] else 0
  }

  lemma HeldMeans(r: Request, w: World, lane: string)
    ensures Truthy(HeldAt(r, w).lane) && HeldAt(r, w).lane.value == lane <==> LaneOf(r, w, lane)
    ensures LaneOf(r, w, lane) ==> forall task :: task in HeldAt(r, w).before <==> OnLane(w, lane, task)
  {
    if RefKey(r).Some? { RefKeyMeans(r, RefKey(r).value); }
    forall k { RefKeyMeans(r, k); }
  }

  /** The lane of the request is to be reset: no task on it is newer than the abort, and it
      has queued tasks, or the session has messages, or nothing was aborted and drained. */
  ghost predicate ResetDue(r: Request, seen: World, now: World, lane: string, cleared: bool) {
    && LaneOf(r, seen, lane)
    && (forall task :: OnLane(now, lane, task) ==> OnLane(seen, lane, task))
    && (CountOn(now.laneQueued, lane) > 0 || DepthOf(r) > 0 || !cleared)
  }

  function DepthOf(r: Request): int {
    if r.queueDepth == None then 0 else r.queueDepth.value
  }

  ghost predicate NoResetDue(r: Request, seen: World, now: World, cleared: bool) {
    forall lane :: !ResetDue(r, seen, now, lane, cleared)
  }

  lemma ResetMeans(r: Request, seen: World, now: World, active: Option<string>, reply: AbortReply, lane: string)
    ensures ResetsLane(r, HeldAt(r, seen), active, reply, now) && HeldAt(r, seen).lane.value == lane
            <==> ResetDue(r, seen, now, lane, Truthy(active) && reply.aborted && reply.drained)
  {
    var held := HeldAt(r, seen);
    HeldMeans(r, seen, lane);
    if Truthy(held.lane) {
      HeldMeans(r, seen, held.lane.value);
      assert (forall task :: task in TasksOf(now, held.lane.value) ==> task in held.before)
        <==> (forall task :: OnLane(now, held.lane.value, task) ==> OnLane(seen, held.lane.value, task));
    }
  }

  lemma NoResetMeans(r: Request, seen: World, now: World, active: Option<string>, reply: AbortReply)
    ensures ResetsLane(r, HeldAt(r, seen), active, reply, now)
            <==> !NoResetDue(r, seen, now, Truthy(active) && reply.aborted && reply.drained)
  {
    var cleared := Truthy(active) && reply.aborted && reply.drained;
    if ResetsLane(r, HeldAt(r, seen), active, reply, now) {
      ResetMeans(r, seen, now, active, reply, HeldAt(r, seen).lane.value);
    } else {
      forall lane ensures !ResetDue(r, seen, now, lane, cleared) { ResetMeans(r, seen, now, active, reply, lane); }
    }
  }

  // ---------- how a recovery ends ----------

  /** How many tasks wait on the lane of the request. */
  ghost predicate Waiting(r: Request, seen: World, now: World, n: nat) {
    && (forall lane :: LaneOf(r, seen, lane) ==> n == CountOn(now.laneQueued, lane))
    && ((forall lane :: !LaneOf(r, seen, lane)) ==> n == 0)
  }

  /** The outcome after the abort, if any: what was aborted, else what was released or is
      cleared of queued work, else nothing to do. */
  ghost predicate EndsWith(o: Outcome, r: Request, reply: AbortReply, released: nat, waiting: nat) {
    && (o.status == Aborted <==> reply.aborted || reply.forceCleared)
    && (o.status == Released <==> !reply.aborted && !reply.forceCleared && (released > 0 || DepthOf(r) > 0))
    && (o.status == Noop <==> !reply.aborted && !reply.forceCleared && released == 0 && DepthOf(r) <= 0)
    && o.released == released
    && (o.status == Aborted ==> o.action == AbortEmbeddedRun && o.queuedCount == if waiting > 0 then Some(waiting)
                                                                                 else None)
    && (o.status == Released ==> o.action == ReleaseLane && o.queuedCount == None)
    && (o.status == Noop ==> o.action == NoAction && o.reason == "no_active_work" && o.queuedCount == None)
  }

  predicate Fails(o: Outcome) {
    o.status == Failed && o.action == NoAction && o.reason == "exception"
  }

  /** The job is over: the table is as the outcome leaves it if the coordinator asked for the
      recovery, and the keys it held are free. */
  ghost predicate JobOver(s: System, u: System, id: nat, o: Outcome, a: Applying)
    requires id in s.jobs
  {
    var j := s.jobs[id];
    && u.jobs == s.jobs - {id}
    && u.table == (if j.coordinated then Apply(s.table, j.request, Some(o), a.blocked, a.clock, a.now) else s.table)
    && (forall k :: k in u.requested <==> k in s.requested && !(j.coordinated && KeyName(j.request, k)))
  }

  lemma KeysMean(r: Request, k: string)
    ensures k in KeySet(r) <==> KeyName(r, k)
  {
    RefKeyMeans(r, k);
  }

  lemma FinishIsOver(s: System, id: nat, o: Outcome, a: Applying, t: System)
    requires id in s.jobs && t.jobs == s.jobs && t.table == s.table && t.requested == s.requested
    ensures JobOver(s, Finish(t, id, o, a), id, o, a)
  {
    forall k { KeysMean(s.jobs[id].request, k); }
  }

  /** The end of a recovery that is not refused: the lane is reset if that is due, and what
      waits on it, what was released and what became of the run make the outcome. */
  ghost predicate Concludes(s: System, u: System, id: nat, o: Outcome, seen: World, now: World, reply: AbortReply,
                            cleared: bool, count: nat, raises: bool, released: nat, waiting: nat)
    requires id in s.jobs
  {
    var r := s.jobs[id].request;
    && (forall lane :: ResetDue(r, seen, now, lane, cleared) ==>
          u.effects == s.effects + [ResetLane(r, lane, seen, now)] && released == count)
    && (NoResetDue(r, seen, now, cleared) ==> u.effects == s.effects && released == 0)
    && (forall k :: k in u.running <==> k in s.running && !KeyName(r, k))
    && Waiting(r, seen, now, waiting)
    && (if raises then Fails(o) else EndsWith(o, r, reply, released, waiting))
  }

  function WaitingOn(r: Request, seen: World, now: World): nat {
    if Truthy(HeldAt(r, seen).lane) then CountOf(now.laneQueued, HeldAt(r, seen).lane.value) else 0
  }

  lemma WaitingMeans(r: Request, seen: World, now: World)
    ensures Waiting(r, seen, now, WaitingOn(r, seen, now))
  {
    forall lane { HeldMeans(r, seen, lane); }
    if Truthy(HeldAt(r, seen).lane) { assert LaneOf(r, seen, HeldAt(r, seen).lane.value); }
  }

  lemma OutcomeMeans(r: Request, seen: World, now: World, reply: AbortReply, released: nat)
    ensures EndsWith(OutcomeAfter(r, HeldAt(r, seen), reply, now, released), r, reply, released,
                     WaitingOn(r, seen, now))
  {
  }

  lemma WrapEffects(s: System, id: nat, active: Option<string>, reply: AbortReply, seen: World, now: World, count: nat,
                    raises: bool, a: Applying)
      returns (released: nat)
    requires id in s.jobs
    ensures var r := s.jobs[id].request;
            var cleared := Truthy(active) && reply.aborted && reply.drained;
            var u := Wrap(s, id, HeldAt(r, seen), active, reply, seen, now, count, raises, a);
            && (forall lane :: ResetDue(r, seen, now, lane, cleared) ==>
                  u.effects == s.effects + [ResetLane(r, lane, seen, now)] && released == count)
            && (NoResetDue(r, seen, now, cleared) ==> u.effects == s.effects && released == 0)
    ensures released == if ResetsLane(s.jobs[id].request, HeldAt(s.jobs[id].request, seen), active, reply, now)
                        then count else 0
  {
    var r := s.jobs[id].request;
    NoResetMeans(r, seen, now, active, reply);
    var u := Wrap(s, id, HeldAt(r, seen), active, reply, seen, now, count, raises, a);
    forall lane | ResetDue(r, seen, now, lane, Truthy(active) && reply.aborted && reply.drained)
      ensures u.effects == s.effects + [ResetLane(r, lane, seen, now)]
    {
      ResetMeans(r, seen, now, active, reply, lane);
    }
    released := if ResetsLane(r, HeldAt(r, seen), active, reply, now) then count else 0;
  }

  lemma WrapIsOver(s: System, id: nat, active: Option<string>, reply: AbortReply, seen: World, now: World, count: nat,
                   raises: bool, a: Applying, released: nat)
    requires id in s.jobs
    requires released == if ResetsLane(s.jobs[id].request, HeldAt(s.jobs[id].request, seen), active, reply, now)
                         then count else 0
    ensures var r := s.jobs[id].request;
            var u := Wrap(s, id, HeldAt(r, seen), active, reply, seen, now, count, raises, a);
            var o := if raises then FAILURE else OutcomeAfter(r, HeldAt(r, seen), reply, now, released);
            && JobOver(s, u, id, o, a)
            && (forall k :: k in u.running <==> k in s.running && !KeyName(r, k))
  {
    var r := s.jobs[id].request;
    var o := if raises then FAILURE else OutcomeAfter(r, HeldAt(r, seen), reply, now, released);
    forall k { KeysMean(r, k); }
    var reset := ResetsLane(r, HeldAt(r, seen), active, reply, now);
    var effects := if reset then s.effects + [ResetLane(r, HeldAt(r, seen).lane.value, seen, now)] else s.effects;
    FinishIsOver(s, id, o, a, s.(running := s.running - KeySet(r), effects := effects));
  }

  lemma WrapMeans(s: System, id: nat, active: Option<string>, reply: AbortReply, seen: World, now: World, count: nat,
                  raises: bool, a: Applying)
      returns (o: Outcome, released: nat, waiting: nat)
    requires id in s.jobs
    ensures var u := Wrap(s, id, HeldAt(s.jobs[id].request, seen), active, reply, seen, now, count, raises, a);
            && JobOver(s, u, id, o, a)
            && Concludes(s, u, id, o, seen, now, reply, Truthy(active) && reply.aborted && reply.drained, count, raises,
                         released, waiting)
  {
    var r := s.jobs[id].request;
    var u := Wrap(s, id, HeldAt(r, seen), active, reply, seen, now, count, raises, a);
    released := WrapEffects(s, id, active, reply, seen, now, count, raises, a);
    waiting := WaitingOn(r, seen, now);
    WaitingMeans(r, seen, now);
    OutcomeMeans(r, seen, now, reply, released);
    o := if raises then FAILURE else OutcomeAfter(r, HeldAt(r, seen), reply, now, released);
    WrapIsOver(s, id, active, reply, seen, now, count, raises, a, released);
    assert JobOver(s, u, id, o, a);
    assert if raises then Fails(o) else EndsWith(o, r, reply, released, waiting);
    assert Concludes(s, u, id, o, seen, now, reply, Truthy(active) && reply.aborted && reply.drained, count, raises,
                     released, waiting);
  }

  /** The recovery after its abort, in every system that a run can reach: a lane is reset if
      and only if no task on it is newer than the abort, and it has queued tasks, or the
      session has messages, or the run was not both aborted and drained. */
  lemma SettleMeans(s: System, e: Event) returns (o: Outcome, released: nat, waiting: nat)
    requires Safe(s) && Enabled(s, e) && e.Settle?
    ensures var u := Next(s, e);
            && JobOver(s, u, e.id, o, e.applying)
            && Concludes(s, u, e.id, o, s.jobs[e.id].phase.seen, e.world, e.reply, e.reply.aborted && e.reply.drained,
                         e.count, e.raises, released, waiting)
  {
    var j := s.jobs[e.id];
    LiveRunMeans(j.request, j.phase.seen, j.phase.session);
    assert j.phase.session != "";
    o, released, waiting := WrapMeans(s, e.id, Some(j.phase.session), e.reply, j.phase.seen, e.world, e.count, e.raises,
                                      e.applying);
  }

  // ---------- how a recovery starts ----------

  /** The entry that the request means has the generation it is stamped with, and the state. */
  ghost predicate StillMeant(t: Table, r: Request) {
    r.stateGeneration != None ==>
      exists k :: && Peek(t, r.ToRef()) == Some(k) && k in t.entries
                  && t.entries[k].state == (if r.expectedState == None then Processing else r.expectedState.value)
                  && t.entries[k].generation == r.stateGeneration.value
  }

  lemma StillMeantMeans(t: Table, r: Request)
    requires t.Valid()
    ensures IsCurrent(t, r.ToRef(), r.stateGeneration, r.Expected()) <==> StillMeant(t, r)
  {
    if Truthy(r.sessionId) { FindInFirst(t.order, t.entries, r.sessionId.value); }
    if Peek(t, r.ToRef()).Some? { assert Peek(t, r.ToRef()).value in t.entries; }
  }

  /** Queued work, and no progress of the run for as long as the request says, else for
      five minutes. */
  predicate IsStuck(r: Request, w: World, s: string) {
    var limit := if r.staleActiveProgressAbortMs != None && r.staleActiveProgressAbortMs.value > 0
                 then r.staleActiveProgressAbortMs.value else 300000;
    DepthOf(r) > 0 && s in w.progressAge && w.progressAge[s] >= limit
  }

  predicate Refused(o: Outcome, action: Action, reason: string) {
    o.status == Skipped && o.action == action && o.reason == reason && o.released == 0 && o.queuedCount == None
  }

  /** How a recovery with a key that is free is refused before anything is done. */
  ghost predicate RefusedAtStart(t: Table, r: Request, w: World, o: Outcome) {
    || (!StillMeant(t, r) && Refused(o, ObserveOnly, "stale_session_state"))
    || (StillMeant(t, r) && exists s :: LiveIn(r, w, s) && !r.allowActiveAbort && RefusedForRun(r, w, s, o))
    || (StillMeant(t, r) && (forall s :: !LiveIn(r, w, s)) && Refused(o, KeepLane, "active_lane_task")
        && exists lane :: LaneOf(r, w, lane) && CountOn(w.laneActive, lane) > 0)
  }

  /** The live run of `s` goes on: its progress could not be read, or is not stale. */
  ghost predicate RefusedForRun(r: Request, w: World, s: string, o: Outcome) {
    if DepthOf(r) > 0 && w.snapshotRaises then Fails(o)
    else
      && !IsStuck(r, w, s)
      && if HandledBy(r, w, s) then Refused(o, ObserveOnly, "active_embedded_run")
         else Refused(o, KeepLane, "active_reply_work")
  }

  /** The run of `s` is to be aborted. */
  ghost predicate AbortDue(t: Table, r: Request, w: World, s: string) {
    StillMeant(t, r) && LiveIn(r, w, s) && (r.allowActiveAbort || (!w.snapshotRaises && IsStuck(r, w, s)))
  }

  /** Nothing runs, neither for the session nor on its lane. */
  ghost predicate NothingRuns(t: Table, r: Request, w: World) {
    && StillMeant(t, r) && (forall s :: !LiveIn(r, w, s))
    && forall lane :: LaneOf(r, w, lane) ==> CountOn(w.laneActive, lane) == 0
  }

  lemma LaneIdleMeans(r: Request, w: World)
    ensures Truthy(HeldAt(r, w).lane) && CountOf(w.laneActive, HeldAt(r, w).lane.value) > 0
            <==> exists lane :: LaneOf(r, w, lane) && CountOn(w.laneActive, lane) > 0
  {
    forall lane { HeldMeans(r, w, lane); }
    if Truthy(HeldAt(r, w).lane) { assert LaneOf(r, w, HeldAt(r, w).lane.value); }
  }

  /** The decision taken before anything is awaited. */
  lemma DecideMeans(r: Request, t: Table, w: World)
    requires t.Valid()
    ensures var d := Decide(r, t, w);
            match d
            case Over(o) => RefusedAtStart(t, r, w, o)
            case Aborting(session, held) => AbortDue(t, r, w, session) && held == HeldAt(r, w)
            case NoRun(held) => NothingRuns(t, r, w) && held == HeldAt(r, w)
  {
    StillMeantMeans(t, r);
    LaneIdleMeans(r, w);
    if LiveRun(r, w).Some? {
      var s := LiveRun(r, w).value;
      LiveRunMeans(r, w, s);
      HandleMeans(r, w, s);
    } else {
      LiveRunMeans(r, w, "");
    }
  }

  /** The three decisions exclude each other. */
  lemma DecisionsDiffer(r: Request, t: Table, w: World, s: string, o: Outcome)
    ensures AbortDue(t, r, w, s) ==> !NothingRuns(t, r, w) && !RefusedAtStart(t, r, w, o)
    ensures NothingRuns(t, r, w) ==> !RefusedAtStart(t, r, w, o)
  {
    if h :| LiveIn(r, w, h) && RefusedForRun(r, w, h, o) && LiveIn(r, w, s) {
      LiveRunMeans(r, w, h);
      LiveRunMeans(r, w, s);
    }
  }

  /** A recovery without a key, or with one that is taken, is refused at once. */
  lemma StartRefused(s: System, e: Event, k: string) returns (o: Outcome)
    requires Enabled(s, e) && e.Start?
    requires Unnamed(s.jobs[e.id].request) || (KeyName(s.jobs[e.id].request, k) && k in s.running)
    ensures JobOver(s, Next(s, e), e.id, o, e.applying)
    ensures Next(s, e).effects == s.effects && Next(s, e).running == s.running
    ensures Refused(o, ObserveOnly,
                    if Unnamed(s.jobs[e.id].request) then "missing_session_ref" else "already_in_flight")
  {
    RefKeyMeans(s.jobs[e.id].request, k);
    o := Skip(ObserveOnly, if Unnamed(s.jobs[e.id].request) then "missing_session_ref" else "already_in_flight");
    FinishIsOver(s, e.id, o, e.applying, s);
  }

  /** The abort is begun: the run is told, and the recovery waits with its key taken. */
  ghost predicate AbortBegun(s: System, u: System, id: nat, session: string, w: World)
    requires id in s.jobs
  {
    var r := s.jobs[id].request;
    && u.effects == s.effects + [AbortRun(r, session, w)]
    && u.table == s.table && u.requested == s.requested
    && (forall k :: k in u.running <==> k in s.running || KeyName(r, k))
    && u.jobs == s.jobs[id := Job(r, s.jobs[id].coordinated, Awaiting(session, HeldAt(r, w), w))]
  }

  const NO_ABORT := AbortReply(false, true, false)

  /** A recovery with a free key is refused, begins an abort, or, when nothing runs, ends at
      once: it resets the lane of its request if there is one. */
  lemma StartMeans(s: System, e: Event, k: string) returns (o: Outcome, session: string, released: nat, waiting: nat)
    requires s.table.Valid() && Enabled(s, e) && e.Start?
    requires KeyName(s.jobs[e.id].request, k) && k !in s.running
    ensures var u := Next(s, e);
            var r := s.jobs[e.id].request;
            || (RefusedAtStart(s.table, r, e.world, o) && JobOver(s, u, e.id, o, e.applying)
                && u.effects == s.effects && u.running == s.running)
            || (AbortDue(s.table, r, e.world, session) && AbortBegun(s, u, e.id, session, e.world))
            || (NothingRuns(s.table, r, e.world) && JobOver(s, u, e.id, o, e.applying)
                && Concludes(s, u, e.id, o, e.world, e.world, NO_ABORT, false, e.count, e.raises, released, waiting))
  {
    var r := s.jobs[e.id].request;
    RefKeyMeans(r, k);
    DecideMeans(r, s.table, e.world);
    o, session, released, waiting := FAILURE, "", 0, 0;
    match Decide(r, s.table, e.world)
    case Over(p) =>
      o := p;
      FinishIsOver(s, e.id, o, e.applying, s);
    case Aborting(run, held) =>
      session := run;
      forall h { KeysMean(r, h); }
    case NoRun(held) =>
      o, released, waiting := WrapMeans(s, e.id, None, NO_ABORT, e.world, e.world, e.count, e.raises, e.applying);
  }

  // ---------- requests and cancellations ----------

  /** A recovery with the key of the request is outstanding. */
  ghost predicate Taken(s: System, r: Request) {
    exists k :: KeyName(r, k) && k in s.requested
  }

  lemma TakenMeans(s: System, r: Request)
    ensures Collides(s, r) <==> Taken(s, r)
  {
    if RefKey(r).Some? { RefKeyMeans(r, RefKey(r).value); }
    forall k | KeyName(r, k) ensures RefKey(r) == Some(k) { RefKeyMeans(r, k); }
  }

  /** A request for a recovery to be awaited takes its key and makes a coroutine, and one
      whose key is taken is skipped. */
  lemma RequestMeans(s: System, id: nat, r: Request)
    requires id !in s.jobs
    ensures var e := RequestAsync(id, r);
            var u := Next(s, e);
            if Taken(s, r) then
              u == s && Answer(s, e).Some? && Refused(Answer(s, e).value, ObserveOnly, "already_in_flight")
            else
              && u.jobs == s.jobs[id := Job(r, true, Created)] && Answer(s, e) == None
              && (forall k :: k in u.requested <==> k in s.requested || KeyName(r, k))
              && u.table == s.table && u.running == s.running && u.effects == s.effects
  {
    TakenMeans(s, r);
    forall k { KeysMean(r, k); }
  }

  /** A recovery that answers at once has its outcome applied, a failure if it raises, and
      leaves no trace in the bookkeeping. */
  lemma SyncMeans(s: System, r: Request, outcome: Option<Outcome>, raises: bool, a: Applying)
    ensures var e := RequestSync(r, outcome, raises, a);
            var u := Next(s, e);
            if Taken(s, r) then
              u == s && Answer(s, e).Some? && Refused(Answer(s, e).value, ObserveOnly, "already_in_flight")
            else
              && (if raises then Answer(s, e).Some? && Fails(Answer(s, e).value) else Answer(s, e) == outcome)
              && u == s.(table := Apply(s.table, r, Answer(s, e), a.blocked, a.clock, a.now))
  {
    TakenMeans(s, r);
  }

  /** A cancelled recovery is gone, with its keys, and has changed nothing else. */
  lemma CancelMeans(s: System, id: nat)
    requires Enabled(s, Cancel(id))
    ensures var u := Next(s, Cancel(id));
            var j := s.jobs[id];
            && u.jobs == s.jobs - {id} && u.table == s.table && u.effects == s.effects
            && (forall k :: k in u.requested <==> k in s.requested && !(j.coordinated && KeyName(j.request, k)))
            && (forall k :: k in u.running <==> k in s.running && !KeyName(j.request, k))
  {
    forall k { KeysMean(s.jobs[id].request, k); }
  }
}
