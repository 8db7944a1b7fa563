/** `KeyedAsyncQueue`: batches processed one at a time per key, with an await per item. */
module KeyedQueues {
  import opened Options

  /** What a handler came back with: a value, or an exception turned into an error record. */
  datatype Outcome<R> = Value(value: R) | Error(message: string)

  /** A batch with one result per item handled. */
  datatype Batch<I, R> = Batch(items: seq<I>, results: seq<Outcome<R>>)

  /** The local variables of a suspended `process` call. */
  datatype Call<I, R> = Call(key: string, batch: Batch<I, R>)

  /** `queues` and `processing` are the fields of the queue; any number of calls may be
      suspended, each under its own number. */
  datatype State<!I, !R> = State(
    queues: map<string, seq<I>>,
    processing: set<string>,
    calls: map<nat, Call<I, R>>,
    returned: map<string, seq<Batch<I, R>>>)

  /** The awaits split a run into these steps; `Process` starts a new call, `Resume` is the
      handler of a suspended call returning or raising. */
  datatype Action<I, R> =
    | Enqueue(key: string, item: I)
    | Process(call: nat, key: string)
    | Resume(call: nat, outcome: Outcome<R>)

  function Empty<I, R>(): State<I, R> {
    State(map[], {}, map[], map[])
  }

  function Pending<I, R>(s: State<I, R>, k: string): seq<I> {
    if k in s.queues then s.queues[k] else []
  }

  function ReturnedBy<I, R>(s: State<I, R>, k: string): seq<Batch<I, R>> {
    if k in s.returned then s.returned[k] else []
  }

  function DoEnqueue<I, R>(s: State<I, R>, k: string, x: I): State<I, R> {
    s.(queues := s.queues[k := Pending(s, k) + [x]])
  }

  /** `process` up to its first await, in a new call; with an empty batch it returns at once. */
  function DoProcess<I, R>(s: State<I, R>, id: nat, k: string): State<I, R> {
    if id in s.calls || k in s.processing then s
    else
      var s1 := s.(queues := s.queues[k := []]);
      if Pending(s, k) == [] then s1.(returned := s.returned[k := ReturnedBy(s, k) + [Batch([], [])]])
      else s1.(processing := s.processing + {k}, calls := s.calls[id := Call(k, Batch(Pending(s, k), []))])
  }

  function Extended<I, R>(b: Batch<I, R>, outcome: Outcome<R>): Batch<I, R> {
    b.(results := b.results + [outcome])
  }

  /** From one await of a call to the next, or to its return. */
  function DoResume<I, R>(s: State<I, R>, id: nat, outcome: Outcome<R>): State<I, R> {
    if id !in s.calls then s
    else
      var k, b := s.calls[id].key, Extended(s.calls[id].batch, outcome);
      if |b.results| < |b.items| then s.(calls := s.calls[id := Call(k, b)])
      else
        s.(calls := s.calls - {id}, processing := s.processing - {k},
           returned := s.returned[k := ReturnedBy(s, k) + [b]])
  }

  function Do<I, R>(s: State<I, R>, a: Action<I, R>): State<I, R> {
    match a
    case Enqueue(k, x) => DoEnqueue(s, k, x)
    case Process(id, k) => DoProcess(s, id, k)
    case Resume(id, outcome) => DoResume(s, id, outcome)
  }

  function Run<I, R>(actions: seq<Action<I, R>>): State<I, R> {
    if actions == [] then Empty()
    else Do(Run(actions[..|actions| - 1]), actions[|actions| - 1])
  }

  // ---------- at most one batch in hand ----------

  /** Call id is suspended with a batch of key k. */
  ghost predicate Handles<I, R>(s: State<I, R>, id: nat, k: string) {
    id in s.calls && s.calls[id].key == k
  }

  /** `processing` holds exactly the keys of the suspended calls, and no two calls share a
      key; a suspended call waits for a handler. */
  ghost predicate Exclusive<I, R>(s: State<I, R>) {
    && (forall id, k :: Handles(s, id, k) ==> k in s.processing)
    && (forall i, j, k :: Handles(s, i, k) && Handles(s, j, k) ==> i == j)
    && (forall k :: k in s.processing ==> exists id :: Handles(s, id, k))
    && (forall id :: id in s.calls ==> |s.calls[id].batch.results| < |s.calls[id].batch.items|)
  }

  lemma ProcessKeepsExclusive<I, R>(s: State<I, R>, id: nat, k: string)
    requires Exclusive(s)
    ensures Exclusive(DoProcess(s, id, k))
  {
    var t := DoProcess(s, id, k);
    if t.calls != s.calls {
      assert forall i, x :: Handles(t, i, x) <==> Handles(s, i, x) || (i == id && x == k);
      forall x | x in t.processing ensures exists i :: Handles(t, i, x) {
        if x in s.processing {
          var i :| Handles(s, i, x);
          assert Handles(t, i, x);
        } else {
          assert Handles(t, id, k);
        }
      }
    } else {
      assert forall i, x :: Handles(t, i, x) <==> Handles(s, i, x);
    }
  }

  lemma ResumeKeepsExclusive<I, R>(s: State<I, R>, id: nat, outcome: Outcome<R>)
    requires Exclusive(s)
    ensures Exclusive(DoResume(s, id, outcome))
  {
    var t := DoResume(s, id, outcome);
    if id in s.calls {
      var k := s.calls[id].key;
      assert Handles(s, id, k);
      assert forall i, x :: Handles(t, i, x) <==> Handles(s, i, x) && (i == id ==> id in t.calls);
      forall x | x in t.processing ensures exists i :: Handles(t, i, x) {
        var i :| Handles(s, i, x);
        assert Handles(t, i, x);
      }
    }
  }

  lemma EnqueueKeepsExclusive<I, R>(s: State<I, R>, k: string, x: I)
    requires Exclusive(s)
    ensures Exclusive(DoEnqueue(s, k, x))
  {
    assert forall i, y :: Handles(DoEnqueue(s, k, x), i, y) <==> Handles(s, i, y);
  }

  /** For every interleaving of any number of calls, at most one batch per key is in hand:
      `_processing` excludes a second one. */
  lemma {:induction false} RunKeepsExclusive<I, R>(actions: seq<Action<I, R>>)
    ensures Exclusive(Run(actions))
  {
    if actions != [] {
      var init := actions[..|actions| - 1];
      RunKeepsExclusive(init);
      match actions[|actions| - 1]
      case Enqueue(k, x) => EnqueueKeepsExclusive(Run(init), k, x);
      case Process(id, k) => ProcessKeepsExclusive(Run(init), id, k);
      case Resume(id, outcome) => ResumeKeepsExclusive(Run(init), id, outcome);
    }
  }

  // ---------- the same run seen from one key ----------

  /** The batch in hand for a key, empty if there is none. */
  ghost function Hand<I, R>(s: State<I, R>, k: string): Batch<I, R> {
    if exists id :: Handles(s, id, k) then
      var id :| Handles(s, id, k);
      s.calls[id].batch
    else Batch([], [])
  }

  lemma HandIs<I, R>(s: State<I, R>, id: nat, k: string)
    requires Exclusive(s) && Handles(s, id, k)
    ensures Hand(s, k) == s.calls[id].batch
  {
  }

  lemma NoHand<I, R>(s: State<I, R>, k: string)
    requires Exclusive(s) && k !in s.processing
    ensures Hand(s, k) == Batch([], [])
  {
    assert forall id :: !Handles(s, id, k);
  }

  /** A step that leaves the calls of a key alone leaves its batch in hand. */
  lemma SameHand<I, R>(s: State<I, R>, t: State<I, R>, k: string)
    requires Exclusive(s) && Exclusive(t)
    requires forall id :: Handles(s, id, k) <==> Handles(t, id, k)
    requires forall id :: Handles(s, id, k) ==> t.calls[id] == s.calls[id]
    ensures Hand(t, k) == Hand(s, k)
  {
    if id :| Handles(s, id, k) {
      HandIs(s, id, k);
      HandIs(t, id, k);
    }
  }

  function Enqueued<I, R>(actions: seq<Action<I, R>>, k: string): seq<I> {
    if actions == [] then []
    else
      var a := actions[|actions| - 1];
      Enqueued(actions[..|actions| - 1], k) + if a.Enqueue? && a.key == k then [a.item] else []
  }

  /** The outcomes the handlers produced for key k, in order. */
  function Outcomes<I, R>(actions: seq<Action<I, R>>, k: string): seq<Outcome<R>> {
    if actions == [] then []
    else
      var init, a := actions[..|actions| - 1], actions[|actions| - 1];
      Outcomes(init, k) + NewOutcome(Run(init), a, k)
  }

  function NewOutcome<I, R>(s: State<I, R>, a: Action<I, R>, k: string): seq<Outcome<R>> {
    if a.Resume? && a.call in s.calls && s.calls[a.call].key == k then [a.outcome] else []
  }

  function ItemsOf<I, R>(bs: seq<Batch<I, R>>): seq<I> {
    if bs == [] then [] else ItemsOf(bs[..|bs| - 1]) + bs[|bs| - 1].items
  }

  function ResultsOf<I, R>(bs: seq<Batch<I, R>>): seq<Outcome<R>> {
    if bs == [] then [] else ResultsOf(bs[..|bs| - 1]) + bs[|bs| - 1].results
  }

  /** Finished batches, the batch in hand and the pending items are the enqueued sequence;
      finished results and those in hand are the handlers' outcomes; every finished batch
      has one result per item. */
  ghost predicate Accounts<I, R>(s: State<I, R>, k: string, enqueued: seq<I>, outcomes: seq<Outcome<R>>) {
    && ItemsOf(ReturnedBy(s, k)) + Hand(s, k).items + Pending(s, k) == enqueued
    && ResultsOf(ReturnedBy(s, k)) + Hand(s, k).results == outcomes
    && (forall b :: b in ReturnedBy(s, k) ==> |b.results| == |b.items|)
    && |Hand(s, k).results| <= |Hand(s, k).items|
  }

  lemma AppendBatch<I, R>(bs: seq<Batch<I, R>>, b: Batch<I, R>)
    ensures ItemsOf(bs + [b]) == ItemsOf(bs) + b.items
    ensures ResultsOf(bs + [b]) == ResultsOf(bs) + b.results
  {
    assert (bs + [b])[..|bs|] == bs;
  }

  lemma EnqueueAccounts<I, R>(s: State<I, R>, k: string, x: I, y: string, enqueued: seq<I>, outcomes: seq<Outcome<R>>)
    requires Exclusive(s) && Accounts(s, k, enqueued, outcomes)
    ensures Accounts(DoEnqueue(s, y, x), k, enqueued + if y == k then [x] else [], outcomes)
  {
    var t := DoEnqueue(s, y, x);
    EnqueueKeepsExclusive(s, y, x);
    SameHand(s, t, k);
    assert ReturnedBy(t, k) == ReturnedBy(s, k);
    assert Pending(t, k) == Pending(s, k) + if y == k then [x] else [];
  }

  /** What the accounting looks at is the same in both states. */
  ghost predicate SameView<I, R>(s: State<I, R>, t: State<I, R>, k: string) {
    Hand(t, k) == Hand(s, k) && Pending(t, k) == Pending(s, k) && ReturnedBy(t, k) == ReturnedBy(s, k)
  }

  lemma OtherProcess<I, R>(s: State<I, R>, id: nat, y: string, k: string)
    requires Exclusive(s) && (y != k || k in s.processing || id in s.calls)
    ensures SameView(s, DoProcess(s, id, y), k)
  {
    ProcessKeepsExclusive(s, id, y);
    SameHand(s, DoProcess(s, id, y), k);
  }

  /** The batch of a new call is what was pending; an empty one is returned at once. */
  lemma OwnProcess<I, R>(s: State<I, R>, id: nat, k: string)
    requires Exclusive(s) && k !in s.processing && id !in s.calls
    ensures var t := DoProcess(s, id, k);
            && Hand(s, k) == Batch([], []) && Hand(t, k) == Batch(Pending(s, k), []) && Pending(t, k) == []
            && ReturnedBy(t, k) == ReturnedBy(s, k) + if Pending(s, k) == [] then [Batch([], [])] else []
  {
    var t := DoProcess(s, id, k);
    ProcessKeepsExclusive(s, id, k);
    NoHand(s, k);
    if Pending(s, k) == [] {
      NoHand(t, k);
    } else {
      assert Handles(t, id, k);
      HandIs(t, id, k);
    }
  }

  lemma ProcessAccounts<I, R>(s: State<I, R>, id: nat, y: string, k: string, enqueued: seq<I>,
                              outcomes: seq<Outcome<R>>)
    requires Exclusive(s) && Accounts(s, k, enqueued, outcomes)
    ensures Accounts(DoProcess(s, id, y), k, enqueued, outcomes)
  {
    if y != k || k in s.processing || id in s.calls {
      OtherProcess(s, id, y, k);
    } else {
      OwnProcess(s, id, k);
      if Pending(s, k) == [] {
        AppendBatch<I, R>(ReturnedBy(s, k), Batch([], []));
      } else {
        assert ItemsOf(ReturnedBy(s, k)) + [] + Pending(s, k) == ItemsOf(ReturnedBy(s, k)) + Pending(s, k) + [];
      }
    }
  }

  lemma ReturnAccounts<I, R>(s: State<I, R>, t: State<I, R>, k: string, b: Batch<I, R>, o: Outcome<R>, enqueued: seq<I>,
                             outcomes: seq<Outcome<R>>)
    requires Accounts(s, k, enqueued, outcomes) && b == Extended(Hand(s, k), o) && |b.results| == |b.items|
    requires Hand(t, k) == Batch([], []) && Pending(t, k) == Pending(s, k) && ReturnedBy(t, k) == ReturnedBy(s, k) + [b]
    ensures Accounts(t, k, enqueued, outcomes + [o])
  {
    AppendBatch(ReturnedBy(s, k), b);
    assert ResultsOf(ReturnedBy(s, k)) + b.results == ResultsOf(ReturnedBy(s, k)) + Hand(s, k).results + [o];
  }

  lemma OtherResume<I, R>(s: State<I, R>, id: nat, o: Outcome<R>, k: string)
    requires Exclusive(s) && !Handles(s, id, k)
    ensures SameView(s, DoResume(s, id, o), k)
  {
    ResumeKeepsExclusive(s, id, o);
    SameHand(s, DoResume(s, id, o), k);
  }

  /** The batch in hand gets one result more, and is returned when it was the last. */
  lemma OwnResume<I, R>(s: State<I, R>, id: nat, o: Outcome<R>, k: string)
    requires Exclusive(s) && Handles(s, id, k)
    ensures var t, b := DoResume(s, id, o), Extended(Hand(s, k), o);
            && Pending(t, k) == Pending(s, k) && |b.results| <= |b.items|
            && if |b.results| < |b.items| then Hand(t, k) == b && ReturnedBy(t, k) == ReturnedBy(s, k)
               else Hand(t, k) == Batch([], []) && ReturnedBy(t, k) == ReturnedBy(s, k) + [b]
  {
    var t := DoResume(s, id, o);
    ResumeKeepsExclusive(s, id, o);
    HandIs(s, id, k);
    if id in t.calls {
      assert Handles(t, id, k);
      HandIs(t, id, k);
    } else {
      NoHand(t, k);
    }
  }

  lemma NextAccounts<I, R>(s: State<I, R>, t: State<I, R>, k: string, b: Batch<I, R>, o: Outcome<R>, enqueued: seq<I>,
                           outcomes: seq<Outcome<R>>)
    requires Accounts(s, k, enqueued, outcomes) && b == Extended(Hand(s, k), o) && |b.results| <= |b.items|
    requires Hand(t, k) == b && Pending(t, k) == Pending(s, k) && ReturnedBy(t, k) == ReturnedBy(s, k)
    ensures Accounts(t, k, enqueued, outcomes + [o])
  {
    assert ResultsOf(ReturnedBy(s, k)) + b.results == ResultsOf(ReturnedBy(s, k)) + Hand(s, k).results + [o];
  }

  lemma ResumeAccounts<I, R>(s: State<I, R>, id: nat, o: Outcome<R>, k: string, enqueued: seq<I>,
                             outcomes: seq<Outcome<R>>)
    requires Exclusive(s) && Accounts(s, k, enqueued, outcomes)
    ensures Accounts(DoResume(s, id, o), k, enqueued, outcomes + NewOutcome(s, Resume(id, o), k))
  {
    var t, b := DoResume(s, id, o), Extended(Hand(s, k), o);
    if !Handles(s, id, k) {
      OtherResume(s, id, o, k);
      assert outcomes + [] == outcomes;
    } else {
      OwnResume(s, id, o, k);
      if |b.results| < |b.items| {
        NextAccounts(s, t, k, b, o, enqueued, outcomes);
      } else {
        ReturnAccounts(s, t, k, b, o, enqueued, outcomes);
      }
    }
  }

  lemma {:induction false} RunAccounts<I, R>(actions: seq<Action<I, R>>, k: string)
    ensures Accounts(Run(actions), k, Enqueued(actions, k), Outcomes(actions, k))
  {
    if actions == [] {
      RunKeepsExclusive<I, R>([]);
      NoHand(Empty<I, R>(), k);
    } else {
      var init := actions[..|actions| - 1];
      RunAccounts(init, k);
      RunKeepsExclusive(init);
      match actions[|actions| - 1]
      case Enqueue(y, x) => EnqueueAccounts(Run(init), k, x, y, Enqueued(init, k), Outcomes(init, k));
      case Process(id, y) => ProcessAccounts(Run(init), id, y, k, Enqueued(init, k), Outcomes(init, k));
      case Resume(id, o) => ResumeAccounts(Run(init), id, o, k, Enqueued(init, k), Outcomes(init, k));
    }
  }

  lemma {:induction false} SameLength<I, R>(bs: seq<Batch<I, R>>)
    requires forall b :: b in bs ==> |b.results| == |b.items|
    ensures |ItemsOf(bs)| == |ResultsOf(bs)|
  {
    if bs != [] {
      var k := |bs| - 1;
      assert bs[k] in bs;
      assert forall b :: b in bs[..k] ==> b in bs;
      SameLength(bs[..k]);
    }
  }

  lemma SplitHand<T>(all: seq<T>, finished: seq<T>, hand: seq<T>, pending: seq<T>, n: nat)
    requires all == finished + hand + pending && n <= |hand|
    ensures |finished| + n <= |all|
    ensures all[..|finished| + n] == finished + hand[..n]
    ensures all[|finished| + n..] == hand[n..] + pending
  {
  }

  /** For every interleaving, per key: the items whose handler has finished, the rest of
      the batch in hand and the pending items are the enqueued sequence, in order; and
      results line up with items one to one, errors included. */
  lemma NothingLostPerKey<I, R>(actions: seq<Action<I, R>>, k: string)
    ensures var s := Run(actions);
            var done := |Outcomes(actions, k)|;
            && done <= |Enqueued(actions, k)| && |Hand(s, k).results| <= |Hand(s, k).items|
            && Enqueued(actions, k)[..done] == ItemsOf(ReturnedBy(s, k)) + Hand(s, k).items[..|Hand(s, k).results|]
            && Enqueued(actions, k)[done..] == Hand(s, k).items[|Hand(s, k).results|..] + Pending(s, k)
            && Outcomes(actions, k) == ResultsOf(ReturnedBy(s, k)) + Hand(s, k).results
            && forall b :: b in ReturnedBy(s, k) ==> |b.results| == |b.items|
  {
    RunAccounts(actions, k);
    var s := Run(actions);
    SameLength(ReturnedBy(s, k));
    SplitHand(Enqueued(actions, k), ItemsOf(ReturnedBy(s, k)), Hand(s, k).items, Pending(s, k), |Hand(s, k).results|);
  }

  // ---------- the class ----------

  class KeyedAsyncQueue<I, R> {
    var queues: map<string, seq<I>>
    var processing: set<string>
    var calls: map<nat, Call<I, R>>
    ghost var returned: map<string, seq<Batch<I, R>>>

    ghost function View(): State<I, R>
      reads this
    {
      State(queues, processing, calls, returned)
    }

    constructor ()
      ensures View() == Empty()
    {
      queues, processing, calls, returned := map[], {}, map[], map[];
    }

    method Enqueue(key: string, item: I)
      modifies this
      ensures View() == Do(old(View()), Action.Enqueue(key, item))
    {
      if key !in queues { queues := queues[key := []]; }
      queues := queues[key := queues[key] + [item]];
    }

    /** `process` up to its first await, as a new call; it returns at once when a batch of
        the key is in hand, and when there is nothing to do. */
    method Process(id: nat, key: string) returns (results: Option<seq<Outcome<R>>>)
      requires id !in calls
      modifies this
      ensures View() == Do(old(View()), Action.Process(id, key))
      ensures results == if id in calls then None else Some([])
      ensures id in calls <==> key !in old(processing) && Pending(old(View()), key) != []
    {
      if key in processing { return Some([]); }
      processing := processing + {key};
      var queue := if key in queues then queues[key] else [];
      queues := queues[key := []];
      if queue == [] {
        returned := returned[key := ReturnedBy(old(View()), key) + [Batch([], [])]];
        processing := processing - {key};
        return Some([]);
      }
      calls := calls[id := Call(key, Batch(queue, []))];
      results := None;
    }

    /** From one await to the next: record the outcome, then go on or return the results. */
    method Resume(id: nat, outcome: Outcome<R>) returns (results: Option<seq<Outcome<R>>>)
      requires id in calls
      modifies this
      ensures View() == Do(old(View()), Action.Resume(id, outcome))
      ensures results == if id in calls then None else Some(old(calls[id].batch.results) + [outcome])
      ensures id in calls <==> |old(calls[id].batch.results)| + 1 < |old(calls[id].batch.items)|
    {
      var key := calls[id].key;
      var b := Extended(calls[id].batch, outcome);
      if |b.results| < |b.items| {
        calls := calls[id := Call(key, b)];
        results := None;
      } else {
        calls := calls - {id};
        processing := processing - {key};
        returned := returned[key := ReturnedBy(old(View()), key) + [b]];
        results := Some(b.results);
      }
    }
  }
}
