/** Runs of the session table under a clock that never goes back. */
module Clocks {
  import opened Options
  import opened Sorting
  import opened Sessions
  import opened Recovery
  import opened Diagnostics

  /** The readings of one `get` are in order and not before `now`. */
  predicate Forward(c: Clock, now: int) {
    now <= c.first <= c.created <= c.last
  }

  /** The clock readings of a step, in the order in which they are taken, from `now` on. */
  predicate StepForward(step: Step, now: int) {
    match step
    case Queue(_, c, at) => Forward(c, now) && c.last <= at
    case Change(_, _, c, at) => Forward(c, now) && c.last <= at
    case Progress(_, c, at) => Forward(c, now) && c.last <= at
    case SetFile(_, _, c) => Forward(c, now)
    case Attend(_, _, _, _, _, c) => Forward(c, now)
    case Tick(at) => now <= at
    case Complete(_, _, _, c, at) => Forward(c, now) && c.last <= at
  }

  /** The last reading of a step. */
  function StepEnd(step: Step): int {
    match step
    case Queue(_, _, at) => at
    case Change(_, _, _, at) => at
    case Progress(_, _, at) => at
    case SetFile(_, _, c) => c.last
    case Attend(_, _, _, _, _, c) => c.last
    case Tick(at) => at
    case Complete(_, _, _, _, at) => at
  }

  /** No reading of the run is earlier than one before it, nor than `now`. */
  predicate RunForward(steps: seq<Step>, now: int)
    decreases |steps|
  {
    steps == [] || (StepForward(steps[0], now) && RunForward(steps[1..], StepEnd(steps[0])))
  }

  /** The last reading of a run that started at `now`. */
  function RunEnd(steps: seq<Step>, now: int): int
    decreases |steps|
  {
    if steps == [] then now else RunEnd(steps[1..], StepEnd(steps[0]))
  }

  lemma PruneNoLater(t: Table, now: int, force: bool, at: int)
    requires t.Valid() && NoLaterThan(t, at)
    ensures NoLaterThan(Prune(t, now, force), at)
  {
    PruneRestricts(t, now, force);
  }

  lemma LookNoLater(t: Table, ref: Ref, created: int)
    requires t.Valid() && NoLaterThan(t, created)
    ensures NoLaterThan(Look(t, ref, created).0, created)
  {
    ResolveFacts(t, ref);
  }

  /** What a `get` leaves is no newer than its own readings. */
  lemma GetNoLater(t: Table, ref: Ref, c: Clock, now: int)
    requires Inv(t) && NoLaterThan(t, now) && Forward(c, now)
    ensures NoLaterThan(Get(t, ref, c).0, c.created)
  {
    var t1 := Prune(t, c.first, false);
    PruneRestricts(t, c.first, false);
    PruneNoLater(t, c.first, false, c.created);
    LookNoLater(t1, ref, c.created);
    LookValid(t1, ref, c.created);
    PruneNoLater(Look(t1, ref, c.created).0, c.last, true, c.created);
  }

  lemma ModifyNoLater(u: Table, key: string, f: Entry -> Entry, at: int)
    requires NoLaterThan(u, at) && (key in u.entries ==> f(u.entries[key]).lastActivity <= at)
    ensures NoLaterThan(Modify(u, key, f), at)
  {
  }

  lemma EditNoLater(u: Table, key: string, step: Step)
    requires NoLaterThan(u, StepEnd(step))
    ensures NoLaterThan(Modify(u, key, (e: Entry) => Edit(step, e)), StepEnd(step))
  {
    ModifyNoLater(u, key, (e: Entry) => Edit(step, e), StepEnd(step));
  }

  lemma ApplyNoLater(t: Table, r: Request, o: Option<Outcome>, blocked: bool, c: Clock, at: int, now: int)
    requires Inv(t) && NoLaterThan(t, now) && Forward(c, now) && c.last <= at
    ensures NoLaterThan(Apply(t, r, o, blocked, c, at), at)
  {
    if Apply(t, r, o, blocked, c, at) != t {
      var (u, key) := Get(t, r.ToRef(), c);
      GetNoLater(t, r.ToRef(), c, now);
      if !blocked { ModifyNoLater(u, key, (e: Entry) => Recovered(e, r, o.value, at), at); }
    }
  }

  lemma StepNoLater(t: Table, step: Step, now: int)
    requires Inv(t) && NoLaterThan(t, now) && StepForward(step, now)
    ensures NoLaterThan(Do(t, step), StepEnd(step)) && now <= StepEnd(step)
  {
    if step.Tick? {
      PruneNoLater(t, step.now, true, step.now);
    } else if step.Complete? {
      ApplyNoLater(t, step.request, step.outcome, step.blocked, step.clock, step.now, now);
    } else {
      var (u, key) := Get(t, step.ref, step.clock);
      GetNoLater(t, step.ref, step.clock, now);
      EditNoLater(u, key, step);
    }
  }

  /** Under a clock that never goes back, no entry is ever newer than the last reading. */
  lemma {:induction false} RunNoLater(t: Table, steps: seq<Step>, now: int)
    requires Inv(t) && NoLaterThan(t, now) && RunForward(steps, now)
    ensures Inv(Run(t, steps)) && NoLaterThan(Run(t, steps), RunEnd(steps, now)) && now <= RunEnd(steps, now)
    decreases |steps|
  {
    if steps != [] {
      StepNoLater(t, steps[0], now);
      DoKeepsInv(t, steps[0]);
      RunNoLater(Do(t, steps[0]), steps[1..], StepEnd(steps[0]));
    }
  }

  const START := Table([], map[], 0)

  /** The table after a run from the empty one, whose clock readings start at `start`. */
  lemma ReachableNoLater(steps: seq<Step>, start: int)
    requires RunForward(steps, start)
    ensures Inv(Run(START, steps)) && NoLaterThan(Run(START, steps), RunEnd(steps, start))
  {
    RunNoLater(START, steps, start);
  }

  /** In every reachable table a `get` returns an entry that a `peek` with the same reference
      finds right after; the one exception is a creation whose two clock readings are more
      than the TTL apart. */
  lemma PeekAfterGetReachable(steps: seq<Step>, start: int, ref: Ref, c: Clock)
    requires RunForward(steps, start) && Forward(c, RunEnd(steps, start))
    ensures var t := Run(START, steps);
            var (u, key) := Get(t, ref, c);
            Peek(u, ref) == Some(key)
            <==> !(Resolve(Prune(t, c.first, false), ref).Missing? && c.last - c.created > SESSION_STATE_TTL_MS)
  {
    ReachableNoLater(steps, start);
    PeekAfterGet(Run(START, steps), ref, c);
  }

  /** In every reachable table a `get` evicts for size at most one entry, never the one it
      returns, and nothing more recently active than what stays. */
  lemma GetEvictsOldestReachable(steps: seq<Step>, start: int, ref: Ref, c: Clock, a: string, b: string)
    requires RunForward(steps, start) && Forward(c, RunEnd(steps, start))
    requires var t := Run(START, steps); a in SizeEvicted(t, ref, c) && b in Get(t, ref, c).0.entries
    ensures var t := Run(START, steps);
            && |SizeEvicted(t, ref, c)| <= 1
            && a != Get(t, ref, c).1 && a in BeforeEviction(t, ref, c).entries
            && BeforeEviction(t, ref, c).entries[a].lastActivity <= Get(t, ref, c).0.entries[b].lastActivity
  {
    ReachableNoLater(steps, start);
    GetConservesDepth(Run(START, steps), ref, c);
    GetEvictsOldest(Run(START, steps), ref, c, a, b);
  }
}
