/** Recoveries in flight: the coordinator and the recovery runtime each keep a set of
    reference keys, and every interleaving of requests, starts, aborts and log steps. */
module Coordination {
  import opened Options
  import opened Sessions
  import opened Recovery
  import opened StuckRecovery
  import Diagnostics

  /** A coroutine that exists but has not started, or one that awaits the abort of a run. */
  datatype Phase = Created | Awaiting(session: string, held: Held, seen: World)

  /** One recovery: through the coordinator, or a direct call of the runtime. */
  datatype Job = Job(request: Request, coordinated: bool, phase: Phase)

  /** What recoveries do to the rest of the system. */
  datatype Effect =
    | AbortRun(request: Request, session: string, seen: World)
    | ResetLane(request: Request, lane: string, seen: World, now: World)

  /** `requested` is `_recovery_requests_in_flight`, `running` is `_recoveries_in_flight`. */
  datatype System = System(
    table: Table,
    requested: set<string>,
    running: set<string>,
    jobs: map<nat, Job>,
    effects: seq<Effect>)

  /** The inputs of applying an outcome: clock readings and the activity tracker's answer. */
  datatype Applying = Applying(blocked: bool, clock: Clock, now: int)

  datatype Event =
    | RequestAsync(id: nat, request: Request)
    | RequestSync(request: Request, outcome: Option<Outcome>, raises: bool, applying: Applying)
    | CallDirect(id: nat, request: Request)
    | Start(id: nat, world: World, count: nat, raises: bool, applying: Applying)
    | Settle(id: nat, reply: AbortReply, world: World, count: nat, raises: bool, applying: Applying)
    | Cancel(id: nat)
    | Log(step: Diagnostics.Step)

  function KeySet(r: Request): set<string> {
    if RefKey(r).Some? then {RefKey(r).value} else {}
  }

  /** The coordinator refuses a request whose key it already has in flight. */
  predicate Collides(s: System, r: Request) {
    RefKey(r).Some? && RefKey(r).value in s.requested
  }

  /** The end of a recovery: the job is gone; the coordinator applies the outcome and
      releases its key, in `finally` and on every path. */
  function Finish(s: System, id: nat, outcome: Outcome, a: Applying): System
    requires id in s.jobs
  {
    var j := s.jobs[id];
    var s1 := s.(jobs := s.jobs - {id});
    if j.coordinated then
      s1.(table := Apply(s.table, j.request, Some(outcome), a.blocked, a.clock, a.now),
          requested := s.requested - KeySet(j.request))
    else s1
  }

  /** After the abort, or without one: maybe reset the lane, then finish. */
  function Wrap(s: System, id: nat, held: Held, active: Option<string>, reply: AbortReply, seen: World, now: World,
                count: nat, raises: bool, a: Applying): System
    requires id in s.jobs
  {
    var r := s.jobs[id].request;
    var reset := ResetsLane(r, held, active, reply, now);
    var o := if raises then FAILURE else OutcomeAfter(r, held, reply, now, if reset then count else 0);
    var effects := if reset then s.effects + [ResetLane(r, held.lane.value, seen, now)] else s.effects;
    Finish(s.(running := s.running - KeySet(r), effects := effects), id, o, a)
  }

  /** The event can happen in this state. */
  predicate Enabled(s: System, e: Event) {
    match e
    case RequestAsync(id, _) => id !in s.jobs
    case CallDirect(id, _) => id !in s.jobs
    case Start(id, _, _, _, _) => id in s.jobs && s.jobs[id].phase.Created?
    case Settle(id, _, _, _, _, _) => id in s.jobs && s.jobs[id].phase.Awaiting?
    case Cancel(id) => id in s.jobs && s.jobs[id].phase.Awaiting?
    case _ => true
  }

  function Next(s: System, e: Event): System
    requires Enabled(s, e)
  {
    match e
    case RequestAsync(id, r) =>
      if Collides(s, r) then s
      else s.(requested := s.requested + KeySet(r), jobs := s.jobs[id := Job(r, true, Created)])
    case RequestSync(r, outcome, raises, a) =>
      if Collides(s, r) then s
      else s.(table := Apply(s.table, r, if raises then Some(FAILURE) else outcome, a.blocked, a.clock, a.now))
    case CallDirect(id, r) => s.(jobs := s.jobs[id := Job(r, false, Created)])
    case Start(id, world, count, raises, a) =>
      var r := s.jobs[id].request;
      if RefKey(r) == None then Finish(s, id, Skip(ObserveOnly, "missing_session_ref"), a)
      else if RefKey(r).value in s.running then Finish(s, id, Skip(ObserveOnly, "already_in_flight"), a)
      else
        (match Decide(r, s.table, world)
         case Over(o) => Finish(s, id, o, a)
         case Aborting(session, held) =>
           s.(running := s.running + KeySet(r),
              jobs := s.jobs[id := s.jobs[id].(phase := Awaiting(session, held, world))],
              effects := s.effects + [AbortRun(r, session, world)])
         case NoRun(held) => Wrap(s, id, held, None, AbortReply(false, true, false), world, world, count, raises, a))
    case Settle(id, reply, world, count, raises, a) =>
      var p := s.jobs[id].phase;
      Wrap(s, id, p.held, Some(p.session), reply, p.seen, world, count, raises, a)
    case Cancel(id) =>
      var r := s.jobs[id].request;
      s.(running := s.running - KeySet(r),
         requested := if s.jobs[id].coordinated then s.requested - KeySet(r) else s.requested,
         jobs := s.jobs - {id})
    case Log(step) => s.(table := Diagnostics.Do(s.table, step))
  }

  /** The states a run passes through, events that cannot happen being ignored. */
  function RunAll(s: System, events: seq<Event>): System
    decreases |events|
  {
    if events == [] then s
    else RunAll(if Enabled(s, events[0]) then Next(s, events[0]) else s, events[1..])
  }

  // ---------- the invariant ----------

  ghost predicate HoldsRequest(s: System, id: nat, k: string) {
    id in s.jobs && s.jobs[id].coordinated && RefKey(s.jobs[id].request) == Some(k)
  }

  ghost predicate HoldsRun(s: System, id: nat, k: string) {
    id in s.jobs && s.jobs[id].phase.Awaiting? && RefKey(s.jobs[id].request) == Some(k)
  }

  /** `requested` holds exactly the keys of the outstanding coordinated recoveries, each once. */
  ghost predicate RequestsHeld(s: System) {
    && (forall k :: k in s.requested ==> exists id :: HoldsRequest(s, id, k))
    && (forall id, k :: HoldsRequest(s, id, k) ==> k in s.requested)
    && (forall i, j, k :: HoldsRequest(s, i, k) && HoldsRequest(s, j, k) ==> i == j)
  }

  /** `running` holds exactly the keys of the recoveries awaiting an abort, each once. */
  ghost predicate RunsHeld(s: System) {
    && (forall k :: k in s.running ==> exists id :: HoldsRun(s, id, k))
    && (forall id, k :: HoldsRun(s, id, k) ==> k in s.running)
    && (forall i, j, k :: HoldsRun(s, i, k) && HoldsRun(s, j, k) ==> i == j)
    && (forall id :: id in s.jobs && s.jobs[id].phase.Awaiting? ==> RefKey(s.jobs[id].request).Some?)
  }

  ghost predicate InFlight(s: System) {
    RequestsHeld(s) && RunsHeld(s)
  }

  /** `u` is `s` without job id, whose key the coordinator has released. */
  lemma RemoveRequest(s: System, u: System, id: nat)
    requires RequestsHeld(s) && id in s.jobs && u.jobs == s.jobs - {id}
    requires u.requested == if s.jobs[id].coordinated then s.requested - KeySet(s.jobs[id].request) else s.requested
    ensures RequestsHeld(u)
    ensures s.jobs[id].coordinated ==> KeySet(s.jobs[id].request) !! u.requested
  {
    assert forall i, k :: HoldsRequest(u, i, k) <==> HoldsRequest(s, i, k) && i != id;
    forall k | k in u.requested ensures exists i :: HoldsRequest(u, i, k) {
      var i :| HoldsRequest(s, i, k);
      assert HoldsRequest(u, i, k);
    }
    forall i, k | HoldsRequest(u, i, k) ensures k in u.requested {
      assert HoldsRequest(s, i, k);
      assert !HoldsRequest(s, id, k);
    }
  }

  /** `u` is `s` without job id, whose key the runtime has released. */
  lemma RemoveRun(s: System, u: System, id: nat)
    requires RunsHeld(s) && id in s.jobs && u.jobs == s.jobs - {id}
    requires u.running == if s.jobs[id].phase.Awaiting? then s.running - KeySet(s.jobs[id].request) else s.running
    ensures RunsHeld(u)
  {
    assert forall i, k :: HoldsRun(u, i, k) <==> HoldsRun(s, i, k) && i != id;
    forall k | k in u.running ensures exists i :: HoldsRun(u, i, k) {
      var i :| HoldsRun(s, i, k);
      assert HoldsRun(u, i, k);
    }
    forall i, k | HoldsRun(u, i, k) ensures k in u.running {
      assert HoldsRun(s, i, k);
      assert !HoldsRun(s, id, k);
    }
  }

  lemma AddRequest(s: System, r: Request, id: nat)
    requires InFlight(s) && id !in s.jobs && !Collides(s, r)
    ensures InFlight(s.(requested := s.requested + KeySet(r), jobs := s.jobs[id := Job(r, true, Created)]))
  {
    var u := s.(requested := s.requested + KeySet(r), jobs := s.jobs[id := Job(r, true, Created)]);
    assert forall i, k :: HoldsRequest(u, i, k) <==> HoldsRequest(s, i, k) || (i == id && RefKey(r) == Some(k));
    assert forall i, k :: HoldsRun(u, i, k) <==> HoldsRun(s, i, k);
    forall k | k in u.requested ensures exists i :: HoldsRequest(u, i, k) {
      if k in s.requested {
        var i :| HoldsRequest(s, i, k);
        assert HoldsRequest(u, i, k);
      } else {
        assert HoldsRequest(u, id, k);
      }
    }
    forall k | k in u.running ensures exists i :: HoldsRun(u, i, k) {
      var i :| HoldsRun(s, i, k);
      assert HoldsRun(u, i, k);
    }
  }

  lemma AddDirect(s: System, r: Request, id: nat)
    requires InFlight(s) && id !in s.jobs
    ensures InFlight(s.(jobs := s.jobs[id := Job(r, false, Created)]))
  {
    var u := s.(jobs := s.jobs[id := Job(r, false, Created)]);
    assert forall i, k :: HoldsRequest(u, i, k) <==> HoldsRequest(s, i, k);
    assert forall i, k :: HoldsRun(u, i, k) <==> HoldsRun(s, i, k);
    forall k | k in u.requested ensures exists i :: HoldsRequest(u, i, k) {
      var i :| HoldsRequest(s, i, k);
      assert HoldsRequest(u, i, k);
    }
    forall k | k in u.running ensures exists i :: HoldsRun(u, i, k) {
      var i :| HoldsRun(s, i, k);
      assert HoldsRun(u, i, k);
    }
  }

  lemma BeginAwait(s: System, u: System, id: nat, session: string, held: Held, seen: World)
    requires InFlight(s) && id in s.jobs && s.jobs[id].phase.Created?
    requires RefKey(s.jobs[id].request).Some? && RefKey(s.jobs[id].request).value !in s.running
    requires u.requested == s.requested && u.running == s.running + KeySet(s.jobs[id].request)
    requires u.jobs == s.jobs[id := s.jobs[id].(phase := Awaiting(session, held, seen))]
    ensures InFlight(u)
  {
    var r := s.jobs[id].request;
    assert forall i, k :: HoldsRequest(u, i, k) <==> HoldsRequest(s, i, k);
    assert forall i, k :: HoldsRun(u, i, k) <==> HoldsRun(s, i, k) || (i == id && RefKey(r) == Some(k));
    forall k | k in u.requested ensures exists i :: HoldsRequest(u, i, k) {
      var i :| HoldsRequest(s, i, k);
      assert HoldsRequest(u, i, k);
    }
    forall k | k in u.running ensures exists i :: HoldsRun(u, i, k) {
      if k in s.running {
        var i :| HoldsRun(s, i, k);
        assert HoldsRun(u, i, k);
      } else {
        assert HoldsRun(u, id, k);
      }
    }
  }

  /** The event ends job id. */
  ghost predicate Ends(s: System, e: Event, id: nat) {
    Enabled(s, e) && id in s.jobs && id !in Next(s, e).jobs
  }

  lemma EndKeepsInFlight(s: System, e: Event, id: nat)
    requires InFlight(s) && Enabled(s, e) && (e.Start? || e.Settle? || e.Cancel?) && e.id == id && Ends(s, e, id)
    ensures InFlight(Next(s, e))
    ensures s.jobs[id].coordinated ==> KeySet(s.jobs[id].request) !! Next(s, e).requested
    ensures s.jobs[id].phase.Awaiting? ==> KeySet(s.jobs[id].request) !! Next(s, e).running
  {
    var u := Next(s, e);
    assert u.jobs == s.jobs - {id};
    assert u.requested == if s.jobs[id].coordinated then s.requested - KeySet(s.jobs[id].request) else s.requested;
    RemoveRequest(s, u, id);
    if e.Start? {
      assert s.running == u.running;
    }
    RemoveRun(s, u, id);
  }

  /** Every step keeps the bookkeeping: at most one outstanding recovery per key and layer. */
  lemma NextKeepsInFlight(s: System, e: Event)
    requires InFlight(s) && Enabled(s, e)
    ensures InFlight(Next(s, e))
  {
    match e
    case RequestAsync(id, r) => if !Collides(s, r) { AddRequest(s, r, id); }
    case CallDirect(id, r) => AddDirect(s, r, id);
    case Start(id, world, _, _, _) =>
      if Ends(s, e, id) {
        EndKeepsInFlight(s, e, id);
      } else {
        var d := Decide(s.jobs[id].request, s.table, world);
        BeginAwait(s, Next(s, e), id, d.session, d.held, world);
      }
    case Settle(id, _, _, _, _, _) => EndKeepsInFlight(s, e, id);
    case Cancel(id) => EndKeepsInFlight(s, e, id);
    case RequestSync(_, _, _, _) => SameHolders(s, Next(s, e));
    case Log(_) => SameHolders(s, Next(s, e));
  }

  lemma SameHolders(s: System, u: System)
    requires InFlight(s) && u.jobs == s.jobs && u.requested == s.requested && u.running == s.running
    ensures InFlight(u)
  {
    assert forall i, k :: HoldsRequest(u, i, k) <==> HoldsRequest(s, i, k);
    assert forall i, k :: HoldsRun(u, i, k) <==> HoldsRun(s, i, k);
    forall k | k in u.requested ensures exists i :: HoldsRequest(u, i, k) {
      var i :| HoldsRequest(s, i, k);
      assert HoldsRequest(u, i, k);
    }
    forall k | k in u.running ensures exists i :: HoldsRun(u, i, k) {
      var i :| HoldsRun(s, i, k);
      assert HoldsRun(u, i, k);
    }
  }

  /** Over every interleaving: each layer has at most one outstanding recovery per key. */
  lemma {:induction false} RunKeepsInFlight(s: System, events: seq<Event>)
    requires InFlight(s)
    ensures InFlight(RunAll(s, events))
    decreases |events|
  {
    if events != [] {
      var e := events[0];
      if Enabled(s, e) {
        NextKeepsInFlight(s, e);
        RunKeepsInFlight(Next(s, e), events[1..]);
      } else {
        RunKeepsInFlight(s, events[1..]);
      }
    }
  }

  /** What a request hands back at once: the outcome of a refusal or of a recovery that
      answers at once; nothing while a coroutine is outstanding. */
  function Answer(s: System, e: Event): Option<Outcome>
    requires e.RequestAsync? || e.RequestSync?
  {
    if Collides(s, e.request) then Some(Skip(ObserveOnly, "already_in_flight"))
    else if e.RequestAsync? then None
    else if e.raises then Some(FAILURE)
    else e.outcome
  }

  /** A colliding request, synchronous or not, is skipped and changes nothing at all. */
  lemma CollisionDoesNothing(s: System, id: nat, r: Request, outcome: Option<Outcome>, raises: bool, a: Applying)
    requires Collides(s, r) && id !in s.jobs
    ensures Next(s, RequestAsync(id, r)) == s
    ensures Next(s, RequestSync(r, outcome, raises, a)) == s
    ensures Answer(s, RequestAsync(id, r)) == Answer(s, RequestSync(r, outcome, raises, a))
            == Some(Outcome(Status.Skipped, ObserveOnly, "already_in_flight", 0, None))
  {
  }

  lemma OnlyEndsRemove(s: System, e: Event, id: nat)
    requires Enabled(s, e) && id in s.jobs && id !in Next(s, e).jobs
    ensures (e.Start? || e.Settle? || e.Cancel?) && e.id == id
  {
  }

  lemma JobKept(s: System, e: Event, id: nat)
    requires Enabled(s, e) && id in s.jobs && id in Next(s, e).jobs
    ensures Next(s, e).jobs[id].request == s.jobs[id].request &&
            Next(s, e).jobs[id].coordinated == s.jobs[id].coordinated
  {
  }

  /** A recovery in flight keeps its key, until the event that ends it releases the key on
      both layers: success, failure, refusal or cancellation. */
  lemma EndReleases(s: System, e: Event, id: nat)
    requires InFlight(s) && Enabled(s, e) && id in s.jobs && s.jobs[id].coordinated && RefKey(s.jobs[id].request).Some?
    ensures var k := RefKey(s.jobs[id].request).value;
            && k in s.requested
            && (id in Next(s, e).jobs <==> k in Next(s, e).requested)
            && (id !in Next(s, e).jobs && s.jobs[id].phase.Awaiting? ==> k !in Next(s, e).running)
  {
    var k := RefKey(s.jobs[id].request).value;
    assert HoldsRequest(s, id, k);
    if id in Next(s, e).jobs {
      NextKeepsInFlight(s, e);
      JobKept(s, e, id);
      assert HoldsRequest(Next(s, e), id, k);
    } else {
      OnlyEndsRemove(s, e, id);
      EndKeepsInFlight(s, e, id);
      assert k in KeySet(s.jobs[id].request);
    }
  }

  lemma CreatedStays(s: System, e: Event, id: nat)
    requires Enabled(s, e) && id in s.jobs && s.jobs[id].phase.Created? && !(e.Start? && e.id == id)
    ensures id in Next(s, e).jobs && Next(s, e).jobs[id] == s.jobs[id]
  {
  }

  /** A recovery whose coroutine is dropped, as `request_stuck_session_recovery` drops it,
      keeps its key for good: over every run in which it is never started, the key stays
      taken, and every later request for it is skipped without any effect. */
  lemma {:induction false} DroppedKeepsKey(s: System, events: seq<Event>, id: nat, k: string, r: Request)
    requires InFlight(s) && HoldsRequest(s, id, k) && s.jobs[id].phase.Created?
    requires forall e :: e in events ==> !(e.Start? && e.id == id)
    ensures var u := RunAll(s, events); id in u.jobs && u.jobs[id] == s.jobs[id] && k in u.requested
    ensures RefKey(r) == Some(k) ==> Collides(RunAll(s, events), r)
    decreases |events|
  {
    if events != [] {
      var e := events[0];
      assert e in events;
      var s1 := if Enabled(s, e) then Next(s, e) else s;
      if Enabled(s, e) {
        NextKeepsInFlight(s, e);
        CreatedStays(s, e, id);
      }
      assert HoldsRequest(s1, id, k);
      DroppedKeepsKey(s1, events[1..], id, k, r);
    }
  }

  // ---------- what recoveries may do ----------

  ghost predicate EffectOk(e: Effect) {
    match e
    case AbortRun(r, session, seen) =>
      LiveRun(r, seen) == Some(session) && (r.allowActiveAbort || ProgressStale(r, seen, session))
    case ResetLane(_, lane, seen, now) =>
      forall task :: task in TasksOf(now, lane) ==> task in TasksOf(seen, lane)
  }

  /** What a waiting recovery remembers is what it saw before the abort. */
  ghost predicate Remembers(s: System) {
    forall id :: id in s.jobs && s.jobs[id].phase.Awaiting? ==>
      && s.jobs[id].phase.held == HeldAt(s.jobs[id].request, s.jobs[id].phase.seen)
      && LiveRun(s.jobs[id].request, s.jobs[id].phase.seen) == Some(s.jobs[id].phase.session)
  }

  ghost predicate Safe(s: System) {
    Remembers(s) && forall e :: e in s.effects ==> EffectOk(e)
  }

  lemma ResetIsSafe(r: Request, active: Option<string>, reply: AbortReply, seen: World, now: World)
    requires ResetsLane(r, HeldAt(r, seen), active, reply, now)
    ensures EffectOk(ResetLane(r, HeldAt(r, seen).lane.value, seen, now))
  {
  }

  lemma AbortIsSafe(r: Request, t: Table, w: World)
    requires Decide(r, t, w).Aborting?
    ensures EffectOk(AbortRun(r, Decide(r, t, w).session, w)) && Decide(r, t, w).held == HeldAt(r, w)
    ensures LiveRun(r, w) == Some(Decide(r, t, w).session)
  {
  }

  lemma StartKeepsSafe(s: System, e: Event)
    requires Safe(s) && Enabled(s, e) && e.Start?
    ensures Safe(Next(s, e))
  {
    var r := s.jobs[e.id].request;
    var d := Decide(r, s.table, e.world);
    if d.Aborting? { AbortIsSafe(r, s.table, e.world); }
    if d.NoRun? && ResetsLane(r, d.held, None, AbortReply(false, true, false), e.world) {
      ResetIsSafe(r, None, AbortReply(false, true, false), e.world, e.world);
    }
  }

  lemma SettleKeepsSafe(s: System, e: Event)
    requires Safe(s) && Enabled(s, e) && e.Settle?
    ensures Safe(Next(s, e))
  {
    var p := s.jobs[e.id].phase;
    if ResetsLane(s.jobs[e.id].request, p.held, Some(p.session), e.reply, e.world) {
      ResetIsSafe(s.jobs[e.id].request, Some(p.session), e.reply, p.seen, e.world);
    }
  }

  lemma NextKeepsSafe(s: System, e: Event)
    requires Safe(s) && Enabled(s, e)
    ensures Safe(Next(s, e))
  {
    match e
    case Start(_, _, _, _, _) => StartKeepsSafe(s, e);
    case Settle(_, _, _, _, _, _) => SettleKeepsSafe(s, e);
    case _ =>
  }

  /** Whatever the rest of the system does while an abort is awaited: over every run, a
      live run is aborted only when allowed or when queued work meets stale progress, and
      a lane holding a task not seen before the abort is never reset. */
  lemma {:induction false} RunKeepsSafe(s: System, events: seq<Event>)
    requires Safe(s)
    ensures Safe(RunAll(s, events))
    decreases |events|
  {
    if events != [] {
      var e := events[0];
      if Enabled(s, e) {
        NextKeepsSafe(s, e);
        RunKeepsSafe(Next(s, e), events[1..]);
      } else {
        RunKeepsSafe(s, events[1..]);
      }
    }
  }

  // ---------- the session table under recoveries ----------

  /** The outcome with which an event ends job id. */
  function OutcomeOf(s: System, e: Event, id: nat): Outcome
    requires Enabled(s, e) && (e.Start? || e.Settle?) && e.id == id
  {
    var r := s.jobs[id].request;
    match e
    case Settle(_, reply, world, count, raises, _) =>
      var p := s.jobs[id].phase;
      if raises then FAILURE
      else
        OutcomeAfter(r, p.held, reply, world, if ResetsLane(r, p.held, Some(p.session), reply, world) then count else 0)
    case Start(_, world, count, raises, _) =>
      if RefKey(r) == None then Skip(ObserveOnly, "missing_session_ref")
      else if RefKey(r).value in s.running then Skip(ObserveOnly, "already_in_flight")
      else
        match Decide(r, s.table, world)
        case Over(o) => o
        case Aborting(_, _) => FAILURE
        case NoRun(held) =>
          var reply := AbortReply(false, true, false);
          if raises then FAILURE
          else OutcomeAfter(r, held, reply, world, if ResetsLane(r, held, None, reply, world) then count else 0)
  }

  /** What an event does to the session table: nothing, or one diagnostic step. */
  function TableStep(s: System, e: Event): seq<Diagnostics.Step> {
    if !Enabled(s, e) then []
    else
      match e
      case Log(step) => [step]
      case RequestSync(r, outcome, raises, a) =>
        if Collides(s, r) then []
        else [Diagnostics.Complete(r, if raises then Some(FAILURE) else outcome, a.blocked, a.clock, a.now)]
      case Start(id, _, _, _, a) =>
        if id !in Next(s, e).jobs && s.jobs[id].coordinated
        then [Diagnostics.Complete(s.jobs[id].request, Some(OutcomeOf(s, e, id)), a.blocked, a.clock, a.now)] else []
      case Settle(id, _, _, _, _, a) =>
        if s.jobs[id].coordinated
        then [Diagnostics.Complete(s.jobs[id].request, Some(OutcomeOf(s, e, id)), a.blocked, a.clock, a.now)] else []
      case _ => []
  }

  function TableSteps(s: System, events: seq<Event>): seq<Diagnostics.Step>
    decreases |events|
  {
    if events == [] then []
    else TableStep(s, events[0]) + TableSteps(if Enabled(s, events[0]) then Next(s, events[0]) else s, events[1..])
  }

  /** What ending job id does to the table. */
  function Applied(s: System, id: nat, o: Outcome, a: Applying): Table
    requires id in s.jobs
  {
    if s.jobs[id].coordinated then Apply(s.table, s.jobs[id].request, Some(o), a.blocked, a.clock, a.now) else s.table
  }

  lemma SettleTable(s: System, e: Event)
    requires Enabled(s, e) && e.Settle?
    ensures Next(s, e).table == Applied(s, e.id, OutcomeOf(s, e, e.id), e.applying)
  {
  }

  lemma StartTable(s: System, e: Event)
    requires Enabled(s, e) && e.Start?
    ensures Next(s, e).table == if e.id in Next(s, e).jobs then s.table
            else Applied(s, e.id, OutcomeOf(s, e, e.id), e.applying)
  {
  }

  /** What the event that ends job id does to the table. */
  lemma EndTable(s: System, e: Event, id: nat)
    requires Enabled(s, e) && (e.Start? || e.Settle?) && e.id == id && id !in Next(s, e).jobs
    ensures Next(s, e).table == Applied(s, id, OutcomeOf(s, e, id), e.applying)
  {
    if e.Start? { StartTable(s, e); } else { SettleTable(s, e); }
  }

  lemma NextIsTableStep(s: System, e: Event)
    requires Enabled(s, e)
    ensures Next(s, e).table == Diagnostics.Run(s.table, TableStep(s, e))
  {
    if TableStep(s, e) != [] { Diagnostics.RunOne(s.table, TableStep(s, e)[0]); }
    match e
    case Start(_, _, _, _, _) => StartTable(s, e);
    case Settle(_, _, _, _, _, _) => SettleTable(s, e);
    case _ =>
  }

  /** The session table of the whole system runs through diagnostic steps only. */
  lemma {:induction false} TableRunsSteps(s: System, events: seq<Event>)
    ensures RunAll(s, events).table == Diagnostics.Run(s.table, TableSteps(s, events))
    decreases |events|
  {
    if events != [] {
      var s1 := if Enabled(s, events[0]) then Next(s, events[0]) else s;
      TableRunsSteps(s1, events[1..]);
      if Enabled(s, events[0]) { NextIsTableStep(s, events[0]); }
      Diagnostics.RunConcat(s.table, TableStep(s, events[0]), TableSteps(s1, events[1..]));
    }
  }

  /** Stale recoveries do nothing, in the whole system: a coordinated recovery was requested
      for the session at k with its generation; after any interleaving in which the entry
      is kept and the session took a touching step (two for an idle abort), the event that
      ends the recovery leaves the session table unchanged, unless its reference has come to
      mean another entry that is current; then an outcome that changes state and is not
      blocked does take effect. */
  lemma StaleJobDoesNothing(s: System, events: seq<Event>, k: string, id: nat, e: Event)
    requires Inv(s.table) && k in s.table.entries
    requires Diagnostics.RetainedThrough(s.table, TableSteps(s, events), k)
    requires var u := RunAll(s, events);
             && Enabled(u, e) && (e.Start? || e.Settle?) && e.id == id && id !in Next(u, e).jobs
             && u.jobs[id].coordinated
             && u.jobs[id].request.stateGeneration == Some(s.table.entries[k].generation)
             && Diagnostics.TouchCount(s.table, TableSteps(s, events), k)
                >= if IdleAbort(u.jobs[id].request, OutcomeOf(u, e, id)) then 2 else 1
    ensures var u := RunAll(s, events);
            var r := u.jobs[id].request;
            || Next(u, e).table == u.table
            || (Diagnostics.MovedFrom(u.table, r.ToRef(), k) && OutcomeCurrent(u.table, r, OutcomeOf(u, e, id)))
    ensures var u, a := RunAll(s, events), e.applying;
            var r := u.jobs[id].request;
            Mutates(OutcomeOf(u, e, id)) && !a.blocked && a.clock.first <= a.now ==>
              (Next(u, e).table == u.table
               <==> !(Diagnostics.MovedFrom(u.table, r.ToRef(), k) && OutcomeCurrent(u.table, r, OutcomeOf(u, e, id))))
  {
    var u := RunAll(s, events);
    var a := e.applying;
    TableRunsSteps(s, events);
    EndTable(u, e, id);
    Diagnostics.StaleRecoveryDoesNothing(s.table, TableSteps(s, events), k, u.jobs[id].request,
                                         Some(OutcomeOf(u, e, id)), a.blocked, a.clock, a.now);
  }

  /** For a reference by key, which the requests of the heartbeat have, without exception. */
  lemma StaleKeyedJobDoesNothing(s: System, events: seq<Event>, k: string, id: nat, e: Event)
    requires Inv(s.table) && k in s.table.entries
    requires Diagnostics.RetainedThrough(s.table, TableSteps(s, events), k)
    requires var u := RunAll(s, events);
             && Enabled(u, e) && (e.Start? || e.Settle?) && e.id == id && id !in Next(u, e).jobs
             && u.jobs[id].coordinated
             && u.jobs[id].request.stateGeneration == Some(s.table.entries[k].generation)
             && ResolveKey(u.jobs[id].request.ToRef()) == k
             && Diagnostics.TouchCount(s.table, TableSteps(s, events), k)
                >= if IdleAbort(u.jobs[id].request, OutcomeOf(u, e, id)) then 2 else 1
    ensures Next(RunAll(s, events), e).table == RunAll(s, events).table
  {
    var u := RunAll(s, events);
    TableRunsSteps(s, events);
    Diagnostics.DirectReferenceStays(s.table, TableSteps(s, events), k, u.jobs[id].request.ToRef());
    StaleJobDoesNothing(s, events, k, id, e);
  }

  /** A `noop` outcome means that the request saw no queued work. */
  lemma NoopMeansEmptyQueue(s: System, e: Event, id: nat)
    requires Enabled(s, e) && (e.Start? || e.Settle?) && e.id == id && OutcomeOf(s, e, id).status == Noop
    ensures s.jobs[id].request.Depth() <= 0
    ensures OutcomeOf(s, e, id).action == NoAction && OutcomeOf(s, e, id).reason == NO_ACTIVE_WORK
  {
  }

  /** Exactly how much queued work the end of a recovery in a no-op discards. */
  lemma NoopJobDiscardsExactly(s: System, e: Event, id: nat)
    requires Inv(s.table) && Enabled(s, e) && (e.Start? || e.Settle?) && e.id == id && id !in Next(s, e).jobs
    requires OutcomeOf(s, e, id).status == Noop
    ensures var r, a := s.jobs[id].request, e.applying;
            TotalDepth(Next(s, e).table)
            == TotalDepth(s.table)
               - if !s.jobs[id].coordinated || !OutcomeCurrent(s.table, r, OutcomeOf(s, e, id)) then 0
                 else Diagnostics.EvictedDepth(s.table, r.ToRef(), a.clock)
                      + if a.blocked then 0 else Diagnostics.DepthFound(Prune(s.table, a.clock.first, false), r.ToRef())
  {
    EndTable(s, e, id);
    NoopMeansEmptyQueue(s, e, id);
    var a := e.applying;
    Diagnostics.NoopDiscardsExactly(s.table, s.jobs[id].request, OutcomeOf(s, e, id), a.blocked, a.clock, a.now);
  }

  /** A recovery stamped from the session at k that ends in a no-op, after any interleaving
      that keeps the entry and merges nothing into it, discards queued work if and only if
      its outcome is applied and the applying `get` finds work: of another entry that it
      brings in, or under a reference that has come to mean another entry. */
  lemma NoopJobDiscardsNothing(s: System, events: seq<Event>, k: string, id: nat, e: Event)
    requires Inv(s.table) && k in s.table.entries
    requires Diagnostics.RetainedThrough(s.table, TableSteps(s, events), k)
    requires Diagnostics.UnmergedThrough(s.table, TableSteps(s, events), k)
    requires var u := RunAll(s, events);
             && Enabled(u, e) && (e.Start? || e.Settle?) && e.id == id && id !in Next(u, e).jobs
             && OutcomeOf(u, e, id).status == Noop
             && u.jobs[id].request.stateGeneration == Some(s.table.entries[k].generation)
             && u.jobs[id].request.queueDepth == Some(s.table.entries[k].queueDepth)
    ensures var u, a := RunAll(s, events), e.applying;
            var r := u.jobs[id].request;
            TotalDepth(Next(u, e).table) == TotalDepth(u.table)
            <==> !(u.jobs[id].coordinated && OutcomeCurrent(u.table, r, OutcomeOf(u, e, id)) && !a.blocked
                   && Diagnostics.FindsWork(u.table, r.ToRef(), a.clock, k))
  {
    var u := RunAll(s, events);
    var a := e.applying;
    TableRunsSteps(s, events);
    EndTable(u, e, id);
    NoopMeansEmptyQueue(u, e, id);
    if u.jobs[id].coordinated {
      Diagnostics.NoopDiscardsNothing(s.table, TableSteps(s, events), k, u.jobs[id].request,
                                      OutcomeOf(u, e, id), a.blocked, a.clock, a.now);
    }
  }
}
