/** `EventStream`: pushing events into a queue or straight into a waiting consumer. */
module EventStreams {
  import opened Options
  import opened Sorting

  /** Where a consumer's iterator stands: between two `__anext__` calls, waiting, resumed
      with an event or with the end, or finished. */
  datatype Consumer<E> = Ready | Blocked | Handed(event: E) | Woken | Finished

  /** The stream and its consumers; `yielded` is what each consumer has seen so far. */
  datatype Stream<!E, !R> = Stream(
    queue: seq<E>,
    waiting: seq<nat>,
    done: bool,
    result: Option<R>,
    consumers: map<nat, Consumer<E>>,
    yielded: map<nat, seq<E>>)

  /** The two functions a stream is built with. */
  datatype Rules<!E, !R> = Rules(isComplete: E -> bool, extract: E -> R)

  datatype Action<E, R> = Push(event: E) | End(result: Option<R>) | Subscribe(id: nat) | Advance(id: nat)

  function Empty<E, R>(): Stream<E, R> {
    Stream([], [], false, None, map[], map[])
  }

  function DoPush<E, R>(s: Stream<E, R>, rules: Rules<E, R>, e: E): Stream<E, R> {
    if s.done then s
    else
      var s1 := if rules.isComplete(e)
                then s.(done := true, result := if s.result == None then Some(rules.extract(e)) else s.result)
                else s;
      if s.waiting != [] then s1.(waiting := s.waiting[1..], consumers := s.consumers[s.waiting[0] := Handed(e)])
      else s1.(queue := s.queue + [e])
  }

  function WakeAll<E>(consumers: map<nat, Consumer<E>>, waiting: seq<nat>): map<nat, Consumer<E>>
    decreases |waiting|
  {
    if waiting == [] then consumers else WakeAll(consumers[waiting[0] := Woken], waiting[1..])
  }

  function DoEnd<E, R>(s: Stream<E, R>, result: Option<R>): Stream<E, R> {
    s.(done := true,
       result := if result.Some? && s.result == None then result else s.result,
       waiting := [],
       consumers := WakeAll(s.consumers, s.waiting))
  }

  /** A consumer runs until its next yield, its next wait, or its return. */
  function DoAdvance<E, R>(s: Stream<E, R>, c: nat): Stream<E, R> {
    if c !in s.consumers || c !in s.yielded then s
    else
      match s.consumers[c]
      case Ready =>
        if s.queue != [] then s.(queue := s.queue[1..], yielded := s.yielded[c := s.yielded[c] + [s.queue[0]]])
        else if s.done then s.(consumers := s.consumers[c := Finished])
        else s.(waiting := s.waiting + [c], consumers := s.consumers[c := Blocked])
      case Handed(e) => s.(consumers := s.consumers[c := Ready], yielded := s.yielded[c := s.yielded[c] + [e]])
      case Woken => s.(consumers := s.consumers[c := Finished])
      case _ => s
  }

  function Do<E, R>(s: Stream<E, R>, rules: Rules<E, R>, a: Action<E, R>): Stream<E, R> {
    match a
    case Push(e) => DoPush(s, rules, e)
    case End(r) => DoEnd(s, r)
    case Subscribe(id) =>
      if id in s.consumers then s else s.(consumers := s.consumers[id := Ready], yielded := s.yielded[id := []])
    case Advance(id) => DoAdvance(s, id)
  }

  function Run<E, R>(rules: Rules<E, R>, actions: seq<Action<E, R>>): Stream<E, R> {
    if actions == [] then Empty()
    else Do(Run(rules, actions[..|actions| - 1]), rules, actions[|actions| - 1])
  }

  // ---------- what the stream promises, in terms of the actions alone ----------

  /** No terminal event was pushed and the stream was not ended. */
  function Open<E, R>(rules: Rules<E, R>, actions: seq<Action<E, R>>): bool {
    actions == [] ||
    (var a := actions[|actions| - 1];
     Open(rules, actions[..|actions| - 1]) && !a.End? && !(a.Push? && rules.isComplete(a.event)))
  }

  /** The events pushed while the stream was open, the terminal one included. */
  function Accepted<E, R>(rules: Rules<E, R>, actions: seq<Action<E, R>>): seq<E> {
    if actions == [] then []
    else
      var init, a := actions[..|actions| - 1], actions[|actions| - 1];
      if a.Push? && Open(rules, init) then Accepted(rules, init) + [a.event] else Accepted(rules, init)
  }

  /** The first result offered: by a terminal event of the open stream, or by an `end`. */
  function FirstResult<E, R>(rules: Rules<E, R>, actions: seq<Action<E, R>>): Option<R> {
    if actions == [] then None
    else
      var init, a := actions[..|actions| - 1], actions[|actions| - 1];
      var earlier := FirstResult(rules, init);
      if earlier.Some? then earlier
      else if a.Push? && Open(rules, init) && rules.isComplete(a.event) then Some(rules.extract(a.event))
      else if a.End? then a.result
      else None
  }

  // ---------- any number of consumers ----------

  ghost predicate WaitingOk<E, R>(s: Stream<E, R>) {
    && !(s.queue != [] && s.waiting != [])
    && NoDup(s.waiting)
    && (forall c :: c in s.waiting <==> c in s.consumers && s.consumers[c].Blocked?)
    && s.consumers.Keys == s.yielded.Keys
  }

  lemma {:induction false} WakeAllWakes<E>(consumers: map<nat, Consumer<E>>, waiting: seq<nat>)
    ensures var w := WakeAll(consumers, waiting);
            && (forall c: nat :: c in w <==> c in consumers || c in waiting)
            && (forall c :: c in w ==> w[c] == if c in waiting then Woken else consumers[c])
    decreases |waiting|
  {
    if waiting != [] {
      assert waiting == [waiting[0]] + waiting[1..];
      assert forall c :: c in waiting <==> c == waiting[0] || c in waiting[1..];
      WakeAllWakes(consumers[waiting[0] := Woken], waiting[1..]);
    }
  }

  lemma PushKeepsWaiting<E, R>(s: Stream<E, R>, rules: Rules<E, R>, e: E)
    requires WaitingOk(s)
    ensures WaitingOk(DoPush(s, rules, e))
  {
    if !s.done && s.waiting != [] {
      var rest := s.waiting[1..];
      assert s.waiting == [s.waiting[0]] + rest;
      assert forall c :: c in s.waiting <==> c == s.waiting[0] || c in rest;
      assert s.waiting[0] !in rest by {
        assert forall i :: 0 <= i < |rest| ==> rest[i] == s.waiting[i + 1];
      }
    }
  }

  lemma AdvanceKeepsWaiting<E, R>(s: Stream<E, R>, c: nat)
    requires WaitingOk(s)
    ensures WaitingOk(DoAdvance(s, c))
  {
  }

  lemma EndKeepsWaiting<E, R>(s: Stream<E, R>, r: Option<R>)
    requires WaitingOk(s)
    ensures WaitingOk(DoEnd(s, r))
  {
    WakeAllWakes(s.consumers, s.waiting);
  }

  lemma DoKeepsWaiting<E, R>(s: Stream<E, R>, rules: Rules<E, R>, a: Action<E, R>)
    requires WaitingOk(s)
    ensures WaitingOk(Do(s, rules, a))
  {
    match a
    case Push(e) => PushKeepsWaiting(s, rules, e);
    case End(r) => EndKeepsWaiting(s, r);
    case Advance(c) => AdvanceKeepsWaiting(s, c);
    case Subscribe(_) =>
  }

  lemma DoKeepsResult<E, R>(s: Stream<E, R>, rules: Rules<E, R>, a: Action<E, R>)
    requires s.result.Some?
    ensures Do(s, rules, a).result == s.result
  {
  }

  /** Queue and waiters are never both non-empty, with any number of consumers; the result
      is the first one offered, set once and never changed. */
  lemma {:induction false} RunKeepsWaiting<E, R>(rules: Rules<E, R>, actions: seq<Action<E, R>>)
    ensures WaitingOk(Run(rules, actions))
    ensures Run(rules, actions).done == !Open(rules, actions)
    ensures Run(rules, actions).result == FirstResult(rules, actions)
  {
    if actions != [] {
      var init := actions[..|actions| - 1];
      RunKeepsWaiting(rules, init);
      DoKeepsWaiting(Run(rules, init), rules, actions[|actions| - 1]);
    }
  }

  /** Once there is a result, no later action changes it. */
  lemma {:induction false} ResultSetOnce<E, R>(rules: Rules<E, R>, actions: seq<Action<E, R>>, more: seq<Action<E, R>>)
    requires Run(rules, actions).result.Some?
    ensures Run(rules, actions + more).result == Run(rules, actions).result
  {
    if more == [] {
      assert actions + more == actions;
    } else {
      var k := |more| - 1;
      var all := actions + more;
      assert all[..|all| - 1] == actions + more[..k] && all[|all| - 1] == more[k];
      ResultSetOnce(rules, actions, more[..k]);
      DoKeepsResult(Run(rules, actions + more[..k]), rules, more[k]);
    }
  }

  // ---------- one consumer ----------

  ghost predicate OnlyConsumer<E, R>(actions: seq<Action<E, R>>, c: nat) {
    forall a :: a in actions && a.Subscribe? ==> a.id == c
  }

  /** What the consumer has been handed but has not yielded yet. */
  function InHand<E, R>(s: Stream<E, R>, c: nat): seq<E> {
    if c in s.consumers && s.consumers[c].Handed? then [s.consumers[c].event] else []
  }

  function Seen<E, R>(s: Stream<E, R>, c: nat): seq<E> {
    if c in s.yielded then s.yielded[c] else []
  }

  ghost predicate Delivery<E, R>(s: Stream<E, R>, c: nat, accepted: seq<E>) {
    && WaitingOk(s)
    && (forall d :: d in s.consumers ==> d == c)
    && Seen(s, c) + InHand(s, c) + s.queue == accepted
    && (c in s.consumers && (s.consumers[c].Woken? || s.consumers[c].Finished?) ==> s.done && s.queue == [])
    && (s.waiting != [] ==> !s.done)
  }

  lemma OneWaiter(waiting: seq<nat>, c: nat)
    requires NoDup(waiting)
    requires forall w :: w in waiting ==> w == c
    ensures |waiting| <= 1
  {
    NoDupSize(waiting);
    assert Elems(waiting) == {} || Elems(waiting) == {c};
  }

  lemma PushDelivers<E, R>(s: Stream<E, R>, rules: Rules<E, R>, e: E, c: nat, accepted: seq<E>)
    requires Delivery(s, c, accepted)
    ensures Delivery(DoPush(s, rules, e), c, if s.done then accepted else accepted + [e])
  {
    DoKeepsWaiting(s, rules, Push(e));
    if !s.done {
      var t := DoPush(s, rules, e);
      if s.waiting != [] {
        assert s.waiting[0] in s.waiting && s.waiting[0] == c;
        assert forall i :: 0 <= i < |s.waiting| ==> s.waiting[i] in s.waiting;
        assert forall w :: w in s.waiting ==> w in s.consumers && w == c;
        OneWaiter(s.waiting, c);
        assert Seen(t, c) + InHand(t, c) + t.queue == Seen(s, c) + [e];
      } else {
        assert Seen(t, c) + InHand(t, c) + t.queue == Seen(s, c) + InHand(s, c) + s.queue + [e];
      }
    }
  }

  lemma AdvanceDelivers<E, R>(s: Stream<E, R>, rules: Rules<E, R>, d: nat, c: nat, accepted: seq<E>)
    requires Delivery(s, c, accepted)
    ensures Delivery(DoAdvance(s, d), c, accepted)
  {
    DoKeepsWaiting(s, rules, Advance(d));
    if d in s.consumers {
      var t := DoAdvance(s, d);
      if s.consumers[d].Ready? && s.queue != [] {
        assert s.queue == [s.queue[0]] + s.queue[1..];
      }
      assert Seen(t, c) + InHand(t, c) + t.queue == accepted;
    }
  }

  lemma EndDelivers<E, R>(s: Stream<E, R>, r: Option<R>, rules: Rules<E, R>, c: nat, accepted: seq<E>)
    requires Delivery(s, c, accepted)
    ensures Delivery(DoEnd(s, r), c, accepted)
  {
    DoKeepsWaiting(s, rules, End(r));
    WakeAllWakes(s.consumers, s.waiting);
  }

  lemma {:induction false} RunDelivers<E, R>(rules: Rules<E, R>, actions: seq<Action<E, R>>, c: nat)
    requires OnlyConsumer(actions, c)
    ensures Delivery(Run(rules, actions), c, Accepted(rules, actions))
  {
    if actions != [] {
      var init, a := actions[..|actions| - 1], actions[|actions| - 1];
      assert a in actions;
      assert forall x :: x in init ==> x in actions;
      RunDelivers(rules, init, c);
      RunKeepsWaiting(rules, init);
      var s := Run(rules, init);
      match a
      case Push(e) => PushDelivers(s, rules, e, c, Accepted(rules, init));
      case End(r) => EndDelivers(s, r, rules, c, Accepted(rules, init));
      case Subscribe(d) => DoKeepsWaiting(s, rules, a);
      case Advance(d) => AdvanceDelivers(s, rules, d, c, Accepted(rules, init));
    }
  }

  /** With one consumer: at all times it has seen a prefix of the accepted events, in
      order; when its iterator returns it has seen all of them. */
  lemma ConsumerSeesAccepted<E, R>(rules: Rules<E, R>, actions: seq<Action<E, R>>, c: nat)
    requires OnlyConsumer(actions, c)
    ensures Seen(Run(rules, actions), c) <= Accepted(rules, actions)
    ensures var s := Run(rules, actions);
            c in s.consumers && s.consumers[c].Finished? ==> Seen(s, c) == Accepted(rules, actions)
  {
    RunDelivers(rules, actions, c);
  }

  // ---------- the iterator comes to an end ----------

  function AdvanceTimes<E, R>(s: Stream<E, R>, c: nat, n: nat): Stream<E, R>
    decreases n
  {
    if n == 0 then s else AdvanceTimes(DoAdvance(s, c), c, n - 1)
  }

  /** How many stretches the consumer of a finished stream still has before it. */
  function Ahead<E, R>(s: Stream<E, R>, c: nat): nat
    requires c in s.consumers
  {
    match s.consumers[c]
    case Ready => |s.queue| + 1
    case Handed(_) => |s.queue| + 2
    case Finished => 0
    case _ => 1
  }

  lemma AheadShrinks<E, R>(s: Stream<E, R>, rules: Rules<E, R>, c: nat, accepted: seq<E>)
    requires Delivery(s, c, accepted) && s.done && c in s.consumers
    ensures var t := DoAdvance(s, c);
            && Delivery(t, c, accepted) && t.done && c in t.consumers
            && Ahead(t, c) == if Ahead(s, c) == 0 then 0 else Ahead(s, c) - 1
  {
    AdvanceDelivers(s, rules, c, c, accepted);
    assert s.waiting == [];
  }

  lemma {:induction false} FinishesAhead<E, R>(s: Stream<E, R>, rules: Rules<E, R>, c: nat, accepted: seq<E>, n: nat)
    requires Delivery(s, c, accepted) && s.done && c in s.consumers && Ahead(s, c) <= n
    ensures var t := AdvanceTimes(s, c, n);
            c in t.consumers && t.consumers[c].Finished? && Seen(t, c) == accepted
    decreases n
  {
    if n > 0 {
      AheadShrinks(s, rules, c, accepted);
      FinishesAhead(DoAdvance(s, c), rules, c, accepted, n - 1);
    }
  }

  /** Progress, with one consumer: once a terminal event was pushed or the stream was ended,
      its iterator returns within as many stretches as there are queued events, plus two, and
      has then yielded every accepted event. */
  lemma ConsumerFinishes<E, R>(rules: Rules<E, R>, actions: seq<Action<E, R>>, c: nat)
    requires OnlyConsumer(actions, c) && !Open(rules, actions) && c in Run(rules, actions).consumers
    ensures var s := Run(rules, actions);
            var t := AdvanceTimes(s, c, |s.queue| + 2);
            c in t.consumers && t.consumers[c].Finished? && Seen(t, c) == Accepted(rules, actions)
  {
    var s := Run(rules, actions);
    RunDelivers(rules, actions, c);
    RunKeepsWaiting(rules, actions);
    FinishesAhead(s, rules, c, Accepted(rules, actions), |s.queue| + 2);
  }

  // ---------- several consumers ----------

  function RunFrom<E, R>(s: Stream<E, R>, rules: Rules<E, R>, actions: seq<Action<E, R>>): Stream<E, R>
    decreases |actions|
  {
    if actions == [] then s else RunFrom(Do(s, rules, actions[0]), rules, actions[1..])
  }

  lemma BlockedStays<E, R>(s: Stream<E, R>, rules: Rules<E, R>, a: Action<E, R>, w: nat)
    requires WaitingOk(s) && s.done && w in s.waiting && !a.End?
    ensures var t := Do(s, rules, a); WaitingOk(t) && t.done && w in t.waiting && Seen(t, w) == Seen(s, w)
  {
    DoKeepsWaiting(s, rules, a);
  }

  /** On a finished stream a waiting consumer stays blocked whatever happens, short of `end`. */
  lemma {:induction false} WaiterStays<E, R>(s: Stream<E, R>, rules: Rules<E, R>, later: seq<Action<E, R>>, w: nat)
    requires WaitingOk(s) && s.done && w in s.waiting && forall a :: a in later ==> !a.End?
    ensures var t := RunFrom(s, rules, later);
            w in t.waiting && w in t.consumers && t.consumers[w].Blocked? && Seen(t, w) == Seen(s, w)
    decreases |later|
  {
    if later != [] {
      assert later[0] in later;
      BlockedStays(s, rules, later[0], w);
      WaiterStays(Do(s, rules, later[0]), rules, later[1..], w);
    }
  }

  /** A terminal event wakes only the first waiting consumer: each of the others stays
      blocked, and sees nothing more, over every sequence of actions without an `end`. */
  lemma SecondWaiterStays<E, R>(s: Stream<E, R>, rules: Rules<E, R>, e: E, later: seq<Action<E, R>>, i: nat)
    requires WaitingOk(s) && !s.done && rules.isComplete(e) && 0 < i < |s.waiting|
    requires forall a :: a in later ==> !a.End?
    ensures var t := RunFrom(DoPush(s, rules, e), rules, later);
            var w := s.waiting[i];
            w in t.waiting && w in t.consumers && t.consumers[w].Blocked? && Seen(t, w) == Seen(s, w)
  {
    var t := DoPush(s, rules, e);
    DoKeepsWaiting(s, rules, Push(e));
    assert t.waiting[i - 1] == s.waiting[i];
    WaiterStays(t, rules, later, s.waiting[i]);
  }

  /** A terminal event leaves nobody blocked if and only if at most one consumer was waiting. */
  lemma TerminalWakesAll<E, R>(s: Stream<E, R>, rules: Rules<E, R>, e: E)
    requires WaitingOk(s) && !s.done && rules.isComplete(e)
    ensures (forall c :: c in DoPush(s, rules, e).consumers ==> !DoPush(s, rules, e).consumers[c].Blocked?)
            <==> |s.waiting| <= 1
  {
    var t := DoPush(s, rules, e);
    DoKeepsWaiting(s, rules, Push(e));
    assert t.waiting == [] <==> |s.waiting| <= 1;
    if t.waiting != [] { assert t.waiting[0] in t.waiting; }
  }

  /** How often an event occurs in a sequence. */
  ghost function Occurs<E>(events: seq<E>, x: E): nat {
    if events == [] then 0
    else Occurs(events[..|events| - 1], x) + if events[|events| - 1] == x then 1 else 0
  }

  lemma {:induction false} OccursAppend<E>(a: seq<E>, b: seq<E>, x: E)
    ensures Occurs(a + b, x) == Occurs(a, x) + Occurs(b, x)
  {
    if b == [] {
      assert a + b == a;
    } else {
      assert (a + b)[..|a + b| - 1] == a + b[..|b| - 1];
      OccursAppend(a, b[..|b| - 1], x);
    }
  }

  lemma OccursOne<E>(a: seq<E>, e: E, x: E)
    ensures Occurs(a + [e], x) == Occurs(a, x) + (if e == x then 1 else 0) && Occurs([e], x) == if e == x then 1 else 0
  {
    assert [e][..0] == [];
    OccursAppend(a, [e], x);
  }

  /** How often a consumer has seen an event or has it in hand. */
  ghost function HeldBy<E, R>(s: Stream<E, R>, c: nat, x: E): nat {
    Occurs(Seen(s, c), x) + Occurs(InHand(s, c), x)
  }

  ghost function HeldByAll<E, R>(s: Stream<E, R>, ids: seq<nat>, x: E): nat {
    if ids == [] then 0 else HeldBy(s, ids[0], x) + HeldByAll(s, ids[1..], x)
  }

  lemma {:induction false} SameHeld<E, R>(s: Stream<E, R>, t: Stream<E, R>, ids: seq<nat>, x: E)
    requires forall c :: c in ids ==> HeldBy(t, c, x) == HeldBy(s, c, x)
    ensures HeldByAll(t, ids, x) == HeldByAll(s, ids, x)
  {
    if ids != [] { SameHeld(s, t, ids[1..], x); }
  }

  /** One consumer gets some events more. */
  lemma {:induction false} MoreHeld<E, R>(s: Stream<E, R>, t: Stream<E, R>, ids: seq<nat>, c: nat, x: E, more: nat)
    requires NoDup(ids) && c in ids && HeldBy(t, c, x) == HeldBy(s, c, x) + more
    requires forall d :: d in ids && d != c ==> HeldBy(t, d, x) == HeldBy(s, d, x)
    ensures HeldByAll(t, ids, x) == HeldByAll(s, ids, x) + more
  {
    assert ids == [ids[0]] + ids[1..];
    if ids[0] == c {
      assert forall i :: 0 < i < |ids| ==> ids[i] != c;
      SameHeld(s, t, ids[1..], x);
    } else {
      MoreHeld(s, t, ids[1..], c, x, more);
    }
  }

  ghost predicate Spread<E, R>(s: Stream<E, R>, ids: seq<nat>, accepted: seq<E>, x: E) {
    HeldByAll(s, ids, x) + Occurs(s.queue, x) == Occurs(accepted, x)
  }

  lemma {:induction false} ConsumersAreIn<E, R>(rules: Rules<E, R>, actions: seq<Action<E, R>>, ids: seq<nat>)
    requires forall a :: a in actions && a.Subscribe? ==> a.id in ids
    ensures forall c :: c in Run(rules, actions).consumers ==> c in ids
  {
    if actions != [] {
      var init, a := actions[..|actions| - 1], actions[|actions| - 1];
      assert a in actions;
      assert forall y :: y in init ==> y in actions;
      ConsumersAreIn(rules, init, ids);
      RunKeepsWaiting(rules, init);
      if a.End? { WakeAllWakes(Run(rules, init).consumers, Run(rules, init).waiting); }
    }
  }

  /** Who holds what after a push: only the consumer woken gets the event. */
  lemma PushHeld<E, R>(s: Stream<E, R>, rules: Rules<E, R>, e: E, c: nat, x: E)
    requires WaitingOk(s) && !s.done
    ensures HeldBy(DoPush(s, rules, e), c, x)
            == HeldBy(s, c, x) + if s.waiting != [] && c == s.waiting[0] && e == x then 1 else 0
  {
    if s.waiting != [] && c == s.waiting[0] {
      assert c in s.waiting;
      OccursOne([], e, x);
      assert [] + [e] == [e];
    }
  }

  lemma PushSpreads<E, R>(s: Stream<E, R>, rules: Rules<E, R>, e: E, ids: seq<nat>, accepted: seq<E>, x: E)
    requires WaitingOk(s) && NoDup(ids) && Spread(s, ids, accepted, x) && (s.waiting != [] ==> s.waiting[0] in ids)
    ensures Spread(DoPush(s, rules, e), ids, if s.done then accepted else accepted + [e], x)
  {
    var t := DoPush(s, rules, e);
    if !s.done {
      forall c
        ensures HeldBy(t, c, x) == HeldBy(s, c, x) + if s.waiting != [] && c == s.waiting[0] && e == x then 1 else 0
      {
        PushHeld(s, rules, e, c, x);
      }
      OccursOne(accepted, e, x);
      if s.waiting != [] {
        MoreHeld(s, t, ids, s.waiting[0], x, if e == x then 1 else 0);
      } else {
        OccursOne(s.queue, e, x);
        SameHeld(s, t, ids, x);
      }
    }
  }

  /** Who holds what when a consumer advances: only one that takes from the queue gets more. */
  lemma AdvanceHeld<E, R>(s: Stream<E, R>, c: nat, d: nat, x: E)
    ensures HeldBy(DoAdvance(s, c), d, x) == HeldBy(s, d, x) + if d == c then Taken(s, c, x) else 0
  {
    if d == c && c in s.consumers && c in s.yielded {
      if s.consumers[c].Ready? && s.queue != [] {
        OccursOne(s.yielded[c], s.queue[0], x);
      } else if s.consumers[c].Handed? {
        OccursOne(s.yielded[c], s.consumers[c].event, x);
        OccursOne([], s.consumers[c].event, x);
        assert DoAdvance(s, c).consumers[c] == Ready;
      }
    }
  }

  ghost function Taken<E, R>(s: Stream<E, R>, c: nat, x: E): nat {
    if c in s.consumers && c in s.yielded && s.consumers[c].Ready? && s.queue != [] && s.queue[0] == x then 1 else 0
  }

  lemma AdvanceQueue<E, R>(s: Stream<E, R>, c: nat, x: E)
    ensures Occurs(s.queue, x) == Occurs(DoAdvance(s, c).queue, x) + Taken(s, c, x)
  {
    if s.queue != [] {
      assert s.queue == [s.queue[0]] + s.queue[1..];
      OccursOne([], s.queue[0], x);
      OccursAppend([s.queue[0]], s.queue[1..], x);
    }
  }

  lemma AdvanceSpreads<E, R>(s: Stream<E, R>, c: nat, ids: seq<nat>, accepted: seq<E>, x: E)
    requires NoDup(ids) && Spread(s, ids, accepted, x) && (c in s.consumers ==> c in ids)
    ensures Spread(DoAdvance(s, c), ids, accepted, x)
  {
    var t := DoAdvance(s, c);
    forall d ensures HeldBy(t, d, x) == HeldBy(s, d, x) + if d == c then Taken(s, c, x) else 0 {
      AdvanceHeld(s, c, d, x);
    }
    AdvanceQueue(s, c, x);
    if c in ids { MoreHeld(s, t, ids, c, x, Taken(s, c, x)); } else { SameHeld(s, t, ids, x); }
  }

  lemma EndSpreads<E, R>(s: Stream<E, R>, r: Option<R>, ids: seq<nat>, accepted: seq<E>, x: E)
    requires WaitingOk(s) && Spread(s, ids, accepted, x)
    ensures Spread(DoEnd(s, r), ids, accepted, x)
  {
    WakeAllWakes(s.consumers, s.waiting);
    SameHeld(s, DoEnd(s, r), ids, x);
  }

  lemma SubscribeHeld<E, R>(s: Stream<E, R>, rules: Rules<E, R>, c: nat, d: nat, x: E)
    requires WaitingOk(s)
    ensures HeldBy(Do(s, rules, Subscribe(c)), d, x) == HeldBy(s, d, x)
  {
  }

  lemma SubscribeSpreads<E, R>(s: Stream<E, R>, rules: Rules<E, R>, c: nat, ids: seq<nat>, accepted: seq<E>, x: E)
    requires WaitingOk(s) && Spread(s, ids, accepted, x)
    ensures Spread(Do(s, rules, Subscribe(c)), ids, accepted, x)
  {
    forall d ensures HeldBy(Do(s, rules, Subscribe(c)), d, x) == HeldBy(s, d, x) { SubscribeHeld(s, rules, c, d, x); }
    SameHeld(s, Do(s, rules, Subscribe(c)), ids, x);
  }

  /** For any number of consumers, at all times: each event was accepted as often as it has
      been seen, is in hand or is queued, so none is lost and none is delivered twice. */
  lemma {:induction false} NothingLostOrDoubled<E, R>(rules: Rules<E, R>, actions: seq<Action<E, R>>, ids: seq<nat>,
                                                        x: E)
    requires NoDup(ids) && forall a :: a in actions && a.Subscribe? ==> a.id in ids
    ensures Spread(Run(rules, actions), ids, Accepted(rules, actions), x)
  {
    if actions == [] {
      NobodyHolds<E, R>(ids, x);
    } else {
      var init, a := actions[..|actions| - 1], actions[|actions| - 1];
      assert a in actions;
      assert forall y :: y in init ==> y in actions;
      NothingLostOrDoubled(rules, init, ids, x);
      RunKeepsWaiting(rules, init);
      ConsumersAreIn(rules, init, ids);
      var s := Run(rules, init);
      assert s.waiting != [] ==> s.waiting[0] in s.waiting;
      match a
      case Push(e) => PushSpreads(s, rules, e, ids, Accepted(rules, init), x);
      case End(r) => EndSpreads(s, r, ids, Accepted(rules, init), x);
      case Advance(c) => AdvanceSpreads(s, c, ids, Accepted(rules, init), x);
      case Subscribe(c) => SubscribeSpreads(s, rules, c, ids, Accepted(rules, init), x);
    }
  }

  lemma {:induction false} NobodyHolds<E, R>(ids: seq<nat>, x: E)
    ensures HeldByAll(Empty<E, R>(), ids, x) == 0
  {
    if ids != [] { NobodyHolds<E, R>(ids[1..], x); }
  }

  // ---------- the class ----------

  class EventStream<E, R> {
    const rules: Rules<E, R>
    var queue: seq<E>
    var waiting: seq<nat>
    var done: bool
    var result: Option<R>
    var consumers: map<nat, Consumer<E>>
    var yielded: map<nat, seq<E>>

    ghost function View(): Stream<E, R>
      reads this
    {
      Stream(queue, waiting, done, result, consumers, yielded)
    }

    constructor (rules: Rules<E, R>)
      ensures this.rules == rules && View() == Empty()
    {
      this.rules := rules;
      queue, waiting, done, result, consumers, yielded := [], [], false, None, map[], map[];
    }

    method Push(event: E)
      modifies this
      ensures View() == DoPush(old(View()), rules, event)
    {
      if done { return; }
      if rules.isComplete(event) {
        done := true;
        if result.None? { result := Some(rules.extract(event)); }
      }
      if waiting != [] {
        var waiter := waiting[0];
        waiting := waiting[1..];
        consumers := consumers[waiter := Handed(event)];
      } else {
        queue := queue + [event];
      }
    }

    method End(final: Option<R>)
      modifies this
      ensures View() == DoEnd(old(View()), final)
    {
      done := true;
      if final.Some? && result.None? { result := final; }
      while waiting != []
        invariant queue == old(queue) && done && yielded == old(yielded)
        invariant result == DoEnd(old(View()), final).result
        invariant WakeAll(consumers, waiting) == WakeAll(old(consumers), old(waiting))
        decreases |waiting|
      {
        consumers := consumers[waiting[0] := Woken];
        waiting := waiting[1..];
      }
    }

    /** One stretch of `_iterate` for a consumer: to its next yield, wait or return. */
    method Next(c: nat) returns (value: Option<E>)
      requires c in consumers && c in yielded
      modifies this
      ensures View() == DoAdvance(old(View()), c)
      ensures yielded == old(yielded)[c := old(yielded)[c] + if value.Some? then [value.value] else []]
    {
      value := None;
      match consumers[c] {
      case Ready =>
        if queue != [] {
          value := Some(queue[0]);
          queue := queue[1..];
        } else if done {
          consumers := consumers[c := Finished];
        } else {
          waiting := waiting + [c];
          consumers := consumers[c := Blocked];
        }
      case Handed(event) =>
        value := Some(event);
        consumers := consumers[c := Ready];
      case Woken => consumers := consumers[c := Finished];
      case _ =>
      }
      if value.Some? { yielded := yielded[c := yielded[c] + [value.value]]; }
      assert yielded[c] + [] == yielded[c];
    }
  }
}
