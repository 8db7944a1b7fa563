/** The coordinator and the recovery runtime with their in-flight sets as mutable state. */
module RecoveryService {
  import opened Options
  import opened Sessions
  import opened Recovery
  import opened StuckRecovery
  import opened Coordination
  import SessionStore

  class Service {
    const store: SessionStore.Store
    var requested: set<string>
    var running: set<string>
    var jobs: map<nat, Job>
    ghost var effects: seq<Effect>

    ghost function View(): System
      reads this, store
    {
      System(store.Contents(), requested, running, jobs, effects)
    }

    constructor (store: SessionStore.Store)
      ensures this.store == store && View() == System(store.Contents(), {}, {}, map[], [])
    {
      this.store := store;
      requested, running, jobs, effects := {}, {}, map[], [];
    }

    /** `request_stuck_session_recovery_outcome` with a recovery that has to be awaited. */
    method RequestAsync(id: nat, r: Request) returns (answer: Option<Outcome>)
      requires id !in jobs
      modifies this
      ensures View() == Next(old(View()), Coordination.RequestAsync(id, r))
      ensures answer == Answer(old(View()), Coordination.RequestAsync(id, r))
    {
      var key := RefKey(r);
      if key.Some? && key.value in requested { return Some(Skip(ObserveOnly, "already_in_flight")); }
      answer := None;
      if key.Some? { requested := requested + {key.value}; }
      jobs := jobs[id := Job(r, true, Created)];
    }

    /** The same with a recovery that answers at once, or raises: the key is taken and
        released within the call. */
    method RequestSync(r: Request, outcome: Option<Outcome>, raises: bool, a: Applying)
        returns (answer: Option<Outcome>)
      requires store.Contents().Valid()
      modifies this, store
      ensures View() == Next(old(View()), Coordination.RequestSync(r, outcome, raises, a))
      ensures answer == Answer(old(View()), Coordination.RequestSync(r, outcome, raises, a))
    {
      var key := RefKey(r);
      if key.Some? && key.value in requested { return Some(Skip(ObserveOnly, "already_in_flight")); }
      if key.Some? { requested := requested + {key.value}; }
      if raises {
        if key.Some? { requested := requested - {key.value}; }
        answer := Some(FAILURE);
        store.ApplyOutcome(r, answer, a.blocked, a.clock, a.now);
      } else {
        answer := outcome;
        store.ApplyOutcome(r, outcome, a.blocked, a.clock, a.now);
        if key.Some? { requested := requested - {key.value}; }
      }
      assert old(requested) == requested;
    }

    /** The end of a recovery on both layers: the coordinator applies the outcome and
        releases its key. */
    method Complete(id: nat, o: Outcome, a: Applying)
      requires id in jobs && store.Contents().Valid()
      modifies this`requested, this`jobs, store
      ensures View() == Finish(old(View()), id, o, a)
    {
      var j := jobs[id];
      if j.coordinated {
        store.ApplyOutcome(j.request, Some(o), a.blocked, a.clock, a.now);
        var key := RefKey(j.request);
        if key.Some? { requested := requested - {key.value}; }
      }
      jobs := jobs - {id};
    }

    /** The rest of `recover_stuck_diagnostic_session` once no abort is outstanding. */
    method WrapUp(id: nat, held: Held, active: Option<string>, reply: AbortReply, ghost seen: World, now: World,
                  count: nat, raises: bool, a: Applying)
      requires id in jobs && store.Contents().Valid()
      modifies this, store
      ensures View() == Wrap(old(View()), id, held, active, reply, seen, now, count, raises, a)
    {
      var r := jobs[id].request;
      var o, reset := Conclude(r, held, active, reply, now, count, raises);
      if reset { effects := effects + [ResetLane(r, held.lane.value, seen, now)]; }
      var key := RefKey(r);
      if key.Some? { running := running - {key.value}; }
      Complete(id, o, a);
    }

    /** A recovery coroutine runs until it ends or awaits the abort of a run. */
    method Start(id: nat, world: World, count: nat, raises: bool, a: Applying)
      requires id in jobs && jobs[id].phase.Created? && store.Contents().Valid()
      modifies this, store
      ensures View() == Next(old(View()), Coordination.Start(id, world, count, raises, a))
    {
      var r := jobs[id].request;
      var key := RefKey(r);
      if key == None {
        Complete(id, Skip(ObserveOnly, "missing_session_ref"), a);
        return;
      }
      if key.value in running {
        Complete(id, Skip(ObserveOnly, "already_in_flight"), a);
        return;
      }
      running := running + {key.value};
      var b := Begin(r, store.Contents(), world);
      match b
      case Over(o) =>
        running := running - {key.value};
        assert running == old(running);
        Complete(id, o, a);
      case Aborting(session, held) =>
        jobs := jobs[id := jobs[id].(phase := Awaiting(session, held, world))];
        effects := effects + [AbortRun(r, session, world)];
      case NoRun(held) =>
        NothingTaken(old(View()), View(), id, held, world, count, raises, a, key.value);
        WrapUp(id, held, None, AbortReply(false, true, false), world, world, count, raises, a);
    }

    /** The abort has been answered. */
    method Settle(id: nat, reply: AbortReply, world: World, count: nat, raises: bool, a: Applying)
      requires id in jobs && jobs[id].phase.Awaiting? && store.Contents().Valid()
      modifies this, store
      ensures View() == Next(old(View()), Coordination.Settle(id, reply, world, count, raises, a))
    {
      var p := jobs[id].phase;
      WrapUp(id, p.held, Some(p.session), reply, p.seen, world, count, raises, a);
    }

    /** The awaiting task is cancelled: only the `finally` blocks run. */
    method Cancel(id: nat)
      requires id in jobs && jobs[id].phase.Awaiting?
      modifies this
      ensures View() == Next(old(View()), Coordination.Cancel(id))
    {
      var key := RefKey(jobs[id].request);
      if key.Some? {
        running := running - {key.value};
        if jobs[id].coordinated { requested := requested - {key.value}; }
      }
      jobs := jobs - {id};
    }
  }

  /** Taking a key and releasing it in the same atomic stretch leaves no trace. */
  lemma NothingTaken(s: System, u: System, id: nat, held: Held, w: World, count: nat, raises: bool, a: Applying,
                     key: string)
    requires id in s.jobs && RefKey(s.jobs[id].request) == Some(key) && key !in s.running
    requires u == s.(running := s.running + {key})
    ensures Wrap(u, id, held, None, AbortReply(false, true, false), w, w, count, raises, a)
            == Wrap(s, id, held, None, AbortReply(false, true, false), w, w, count, raises, a)
  {
    assert (s.running + {key}) - {key} == s.running - {key};
  }
}
