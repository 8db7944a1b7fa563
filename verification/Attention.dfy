/** Classifying a session that needs attention, the warning backoff, and what the
    heartbeat asks recovery for. */
module Attention {
  import opened Options
  import opened Sessions

  /** What the activity tracker reports about a session. */
  datatype Activity = Activity(
    activeWorkKind: Option<string>,
    lastProgressAgeMs: Option<int>,
    activeToolAgeMs: Option<int>,
    hasActiveEmbeddedRun: bool)

  datatype EventType = Stuck | Stalled | LongRunning

  datatype Classification = Classification(
    eventType: EventType,
    reason: string,
    classification: string,
    activeWorkKind: Option<string>,
    recoveryEligible: bool)

  function OrZero(n: Option<int>): int {
    if n.Some? then n.value else 0
  }

  /** `classify_session_attention` */
  function Classify(state: RunState, queueDepth: int, a: Activity, staleMs: int): Classification {
    var progress := OrZero(a.lastProgressAgeMs);
    if Truthy(a.activeWorkKind) && state == Idle && queueDepth > 0 && !a.hasActiveEmbeddedRun && progress > staleMs then
      Classification(Stuck, "queued_work_without_active_run", "stale_session_state", None, true)
    else if Truthy(a.activeWorkKind) && a.activeWorkKind == Some("tool_call") && OrZero(a.activeToolAgeMs) > staleMs &&
        progress > staleMs then
      Classification(Stalled, "blocked_tool_call", "blocked_tool_call", None, false)
    else if Truthy(a.activeWorkKind) && progress > staleMs then
      Classification(LongRunning, "active_work_stale", "long_running", a.activeWorkKind, false)
    else if queueDepth > 0 && state != Processing then
      Classification(Stuck, "queued_work_no_activity", "stale_session_state", None, true)
    else
      Classification(LongRunning, "no_active_work", "long_running", None, false)
  }

  /** More than so many milliseconds, where nothing known counts as 0. */
  predicate LongerThan(age: Option<int>, ms: int) {
    if age == None then 0 > ms else age.value > ms
  }

  /** Active work of a kind that is named has made no progress for too long. */
  predicate WorkIsStale(a: Activity, staleMs: int) {
    a.activeWorkKind != None && a.activeWorkKind != Some("") && LongerThan(a.lastProgressAgeMs, staleMs)
  }

  /** What a classification means. With stale work a session is stuck iff it is idle with
      queued work and no run, else stalled iff the work is a tool call that takes too long;
      otherwise it is stuck iff it has queued work and is not processing. Only stuck
      sessions are recovered, and only stale work that is long running is named. */
  lemma ClassifyMeans(state: RunState, queueDepth: int, a: Activity, staleMs: int)
    ensures var cls := Classify(state, queueDepth, a, staleMs);
            && (cls.eventType == Stuck
                <==> queueDepth > 0 &&
                     if WorkIsStale(a, staleMs) then state == Idle && !a.hasActiveEmbeddedRun else state != Processing)
            && (cls.eventType == Stalled
                <==> && WorkIsStale(a, staleMs) && (state != Idle || queueDepth <= 0 || a.hasActiveEmbeddedRun)
                     && a.activeWorkKind == Some("tool_call") && LongerThan(a.activeToolAgeMs, staleMs))
            && (cls.recoveryEligible <==> cls.eventType == Stuck)
            && cls.activeWorkKind == (if cls.eventType == LongRunning && WorkIsStale(a, staleMs) then a.activeWorkKind
                                      else None)
    ensures var cls := Classify(state, queueDepth, a, staleMs);
            match cls.eventType
            case Stuck =>
              && cls.classification == "stale_session_state"
              && cls.reason == if WorkIsStale(a, staleMs) then "queued_work_without_active_run"
                               else "queued_work_no_activity"
            case Stalled => cls.classification == "blocked_tool_call" && cls.reason == "blocked_tool_call"
            case LongRunning =>
              && cls.classification == "long_running"
              && cls.reason == if WorkIsStale(a, staleMs) then "active_work_stale" else "no_active_work"
  {
  }

  predicate AtLeastMs(n: Option<int>, ms: int) {
    n.Some? && n.value >= ms
  }

  /** `_is_active_abort_recovery_eligible`: the stalled run, the blocked tool call and the
      stalled model call. */
  predicate ActiveAbortEligible(cls: Classification, a: Activity, abortMs: int) {
    || (cls.eventType == Stalled && cls.classification == "stalled_agent_run" &&
        cls.activeWorkKind == Some("embedded_run")
        && AtLeastMs(a.lastProgressAgeMs, abortMs))
    || (cls.eventType == Stalled && cls.classification == "blocked_tool_call" && cls.activeWorkKind == Some("tool_call")
        && AtLeastMs(a.activeToolAgeMs, abortMs) && AtLeastMs(a.lastProgressAgeMs, abortMs))
    || (cls.eventType == Stalled && cls.classification == "stalled_agent_run" &&
        cls.activeWorkKind == Some("model_call")
        && a.hasActiveEmbeddedRun && AtLeastMs(a.lastProgressAgeMs, abortMs))
  }

  // ---------- the warning backoff ----------

  /** The age at which the next warning is due. */
  function NextWarnAge(last: Option<int>, thresholdMs: int): int {
    if last == None then thresholdMs else Max(last.value + thresholdMs, last.value * 2)
  }

  /** The new markers, whether a warning went out, and whether the classification was returned. */
  datatype Checked = Checked(stuckWarnAge: Option<int>, longRunningWarnAge: Option<int>, emitted: bool, returned: bool)

  /** The part of `log_session_attention` that decides on the warning. */
  function Check(stuck: Option<int>, long: Option<int>, cls: Classification, eligible: bool, thresholdMs: int,
                 ageMs: int): Checked {
    match cls.eventType
    case Stuck =>
      if ageMs < NextWarnAge(stuck, thresholdMs) then Checked(stuck, long, false, eligible)
      else Checked(Some(ageMs), long, true, true)
    case LongRunning =>
      if ageMs < NextWarnAge(long, thresholdMs) then Checked(stuck, long, false, eligible)
      else Checked(stuck, Some(ageMs), true, true)
    case Stalled => Checked(stuck, long, true, true)
  }

  /** `log_session_attention` on the entry it resolved. */
  function Attend(e: Entry, a: Activity, thresholdMs: int, abortMs: int, ageMs: int): (Entry, Checked) {
    var cls := Classify(e.state, e.queueDepth, a, thresholdMs);
    var eligible := cls.recoveryEligible || ActiveAbortEligible(cls, a, abortMs);
    var r := Check(e.stuckWarnAge, e.longRunningWarnAge, cls, eligible, thresholdMs, ageMs);
    (e.(stuckWarnAge := r.stuckWarnAge, longRunningWarnAge := r.longRunningWarnAge), r)
  }

  /** What `log_session_attention` hands back for the entry it resolved. */
  function Returned(e: Entry, a: Activity, thresholdMs: int, abortMs: int, ageMs: int): Option<Classification> {
    if Attend(e, a, thresholdMs, abortMs, ageMs).1.returned then Some(Classify(e.state, e.queueDepth, a, thresholdMs))
    else None
  }

  /** What happens to the warning state of one session: an attention check with whatever
      classification, or a reset of the markers by activity or recovery. */
  datatype Beat = Attention(cls: Classification, eligible: bool, thresholdMs: int, ageMs: int) | Reset

  /** The markers and the ages at which warnings went out since the last reset. */
  datatype Warnings = Warnings(stuck: Option<int>, long: Option<int>, stuckAges: seq<int>, longAges: seq<int>)

  function Hear(w: Warnings, b: Beat): Warnings {
    match b
    case Reset => Warnings(None, None, [], [])
    case Attention(cls, eligible, thresholdMs, ageMs) =>
      var r := Check(w.stuck, w.long, cls, eligible, thresholdMs, ageMs);
      Warnings(r.stuckWarnAge, r.longRunningWarnAge,
               if r.emitted && cls.eventType == Stuck then w.stuckAges + [ageMs] else w.stuckAges,
               if r.emitted && cls.eventType == LongRunning then w.longAges + [ageMs] else w.longAges)
  }

  /** The warnings after a sequence of beats, from those so far. */
  function HearFrom(w: Warnings, beats: seq<Beat>): Warnings
    decreases |beats|
  {
    if beats == [] then w else HearFrom(Hear(w, beats[0]), beats[1..])
  }

  function HearAll(beats: seq<Beat>): Warnings {
    HearFrom(Warnings(None, None, [], []), beats)
  }

  function Pow2(n: nat): nat {
    if n == 0 then 1 else 2 * Pow2(n - 1)
  }

  /** The k-th warning (from 0) came at age `least * 2^k` or later; the marker is the last one. */
  ghost predicate Spaced(ages: seq<int>, marker: Option<int>, least: int) {
    && marker == (if ages == [] then None else Some(ages[|ages| - 1]))
    && forall k :: 0 <= k < |ages| ==> ages[k] >= least * Pow2(k)
  }

  lemma SpacedNext(ages: seq<int>, marker: Option<int>, least: int, thresholdMs: int, ageMs: int)
    requires Spaced(ages, marker, least) && least <= thresholdMs && ageMs >= NextWarnAge(marker, thresholdMs)
    ensures Spaced(ages + [ageMs], Some(ageMs), least)
  {
    if ages != [] {
      var n := |ages|;
      assert ages[n - 1] >= least * Pow2(n - 1);
      assert least * Pow2(n) == 2 * (least * Pow2(n - 1));
    }
  }

  /** Warnings thin out exponentially: for every sequence of attention checks and resets,
      the k-th stuck (or long-running) warning since the last reset has age at least
      threshold * 2^(k-1). */
  lemma WarningsDouble(beats: seq<Beat>, least: int)
    requires forall b :: b in beats && b.Attention? ==> b.thresholdMs >= least
    ensures Spaced(HearAll(beats).stuckAges, HearAll(beats).stuck, least)
    ensures Spaced(HearAll(beats).longAges, HearAll(beats).long, least)
  {
    SpacedFrom(Warnings(None, None, [], []), beats, least);
  }

  lemma {:induction false} SpacedFrom(w: Warnings, beats: seq<Beat>, least: int)
    requires forall b :: b in beats && b.Attention? ==> b.thresholdMs >= least
    requires Spaced(w.stuckAges, w.stuck, least) && Spaced(w.longAges, w.long, least)
    ensures Spaced(HearFrom(w, beats).stuckAges, HearFrom(w, beats).stuck, least)
    ensures Spaced(HearFrom(w, beats).longAges, HearFrom(w, beats).long, least)
    decreases |beats|
  {
    if beats != [] {
      var b := beats[0];
      assert b in beats;
      if b.Attention? {
        if b.ageMs >= NextWarnAge(w.stuck, b.thresholdMs) {
          SpacedNext(w.stuckAges, w.stuck, least, b.thresholdMs, b.ageMs);
        }
        if b.ageMs >= NextWarnAge(w.long, b.thresholdMs) {
          SpacedNext(w.longAges, w.long, least, b.thresholdMs, b.ageMs);
        }
      }
      SpacedFrom(Hear(w, b), beats[1..], least);
    }
  }

  /** So the number n of warnings of either kind up to age A satisfies threshold * 2^(n-1) <= A. */
  lemma WarningsBounded(beats: seq<Beat>, least: int, age: int, ages: seq<int>, n: nat)
    requires forall b :: b in beats && b.Attention? ==> b.thresholdMs >= least
    requires ages == HearAll(beats).stuckAges || ages == HearAll(beats).longAges
    requires 0 < n <= |ages| && ages[n - 1] <= age
    ensures least * Pow2(n - 1) <= age
  {
    WarningsDouble(beats, least);
  }

  // ---------- what the heartbeat asks for ----------

  /** `_is_idle_queued_recoverable_session_stall` */
  predicate IdleQueuedStall(state: RunState, queueDepth: int, a: Activity, staleMs: int) {
    var owner := a.activeWorkKind == Some("embedded_run") || a.hasActiveEmbeddedRun;
    var orphaned := a.activeWorkKind.Some? && !a.hasActiveEmbeddedRun;
    state == Idle && queueDepth > 0 && (owner || orphaned) && OrZero(a.lastProgressAgeMs) > staleMs
  }

  datatype RecoveryAsk = NoRecovery | PlainRecovery | ActiveAbortRecovery

  /** The decision `_heartbeat_tick` takes for one session. */
  function HeartbeatAsk(e: Entry, a: Activity, now: int, warnMs: int, abortMs: int): RecoveryAsk {
    var ageMs := now - e.lastActivity;
    var stall := IdleQueuedStall(e.state, e.queueDepth, a, warnMs);
    if (e.state == Processing && ageMs > warnMs) || stall then
      var attentionAge := if stall && OrZero(a.lastProgressAgeMs) != 0 then OrZero(a.lastProgressAgeMs) else ageMs;
      var cls := Classify(e.state, e.queueDepth, a, warnMs);
      if !Attend(e, a, warnMs, abortMs, attentionAge).1.returned then NoRecovery
      else if cls.recoveryEligible then PlainRecovery
      else if ActiveAbortEligible(cls, a, abortMs) then ActiveAbortRecovery
      else NoRecovery
    else NoRecovery
  }

  /** The heartbeat asks for a recovery exactly when an idle session with queued work has
      stale progress and its activity is orphaned, or a run it does not name; it never
      asks to abort an active run, because no classification is ever eligible for that. */
  lemma HeartbeatAsksExactly(e: Entry, a: Activity, now: int, warnMs: int, abortMs: int)
    ensures HeartbeatAsk(e, a, now, warnMs, abortMs) != ActiveAbortRecovery
    ensures HeartbeatAsk(e, a, now, warnMs, abortMs) == PlainRecovery
            <==> && e.state == Idle && e.queueDepth > 0 && OrZero(a.lastProgressAgeMs) > warnMs
                 && if a.activeWorkKind.Some? && a.activeWorkKind.value != "" then !a.hasActiveEmbeddedRun
                    else a.hasActiveEmbeddedRun || a.activeWorkKind.Some?
  {
  }
}
