/** The stability recorder: a ring buffer of event records, and selecting from it. */
module Stability {
  import opened Options

  const DEFAULT_DIAGNOSTIC_STABILITY_LIMIT := 50

  datatype Record = Record(sequence: int, kind: string)

  /** `[r for r in records if r is not None]` */
  function Present(slots: seq<Option<Record>>): seq<Record> {
    if slots == [] then []
    else (if slots[0].Some? then [slots[0].value] else []) + Present(slots[1..])
  }

  lemma {:induction false} PresentAll(slots: seq<Option<Record>>)
    requires forall i :: 0 <= i < |slots| ==> slots[i].Some?
    ensures |Present(slots)| == |slots| && forall i :: 0 <= i < |slots| ==> Some(Present(slots)[i]) == slots[i]
  {
    if slots != [] { PresentAll(slots[1..]); }
  }

  function Min(a: int, b: int): int {
    if a <= b then a else b
  }

  /** The last n elements, or all of them if there are fewer. */
  function LastOf<T>(s: seq<T>, n: nat): seq<T> {
    s[|s| - Min(n, |s|)..]
  }

  function Slots(s: seq<Record>): seq<Option<Record>> {
    seq(|s|, i requires 0 <= i < |s| => Some(s[i]))
  }

  lemma LastOfAppend(log: seq<Record>, n: nat, r: Record)
    requires n > 0
    ensures |log| < n ==> Slots(LastOf(log + [r], n)) == Slots(LastOf(log, n)) + [Some(r)]
    ensures |log| >= n ==> Slots(LastOf(log + [r], n)) == Slots(LastOf(log, n))[1..] + [Some(r)]
  {
    if |log| < n {
      assert LastOf(log + [r], n) == LastOf(log, n) + [r];
    } else {
      assert LastOf(log + [r], n) == LastOf(log, n)[1..] + [r];
    }
  }

  lemma PresentSlots(s: seq<Record>)
    ensures Present(Slots(s)) == s
  {
    PresentAll(Slots(s));
  }

  /** The slots of a ring from oldest to newest. */
  function Unroll(slots: seq<Option<Record>>, next: nat, count: nat): seq<Option<Record>>
    requires next <= |slots| && count <= |slots|
  {
    if count < |slots| then slots[..count] else slots[next..] + slots[..next]
  }

  lemma UnrollAfterWrite(slots: seq<Option<Record>>, next: nat, count: nat, x: Option<Record>)
    requires next < |slots| && count <= |slots| && (count < |slots| ==> next == count)
    ensures var next' := if next + 1 == |slots| then 0 else next + 1;
            var count' := if count < |slots| then count + 1 else count;
            Unroll(slots[next := x], next', count')
            == (if count < |slots| then Unroll(slots, next, count) else Unroll(slots, next, count)[1..]) + [x]
  {
  }

  class Recorder {
    var records: array<Option<Record>>
    var nextIndex: nat
    var count: nat
    var dropped: nat
    ghost var log: seq<Record>

    /** The slots from oldest to newest. */
    ghost function Unrolled(): seq<Option<Record>>
      requires nextIndex <= records.Length && count <= records.Length
      reads this, records
    {
      Unroll(records[..], nextIndex, count)
    }

    /** The ring holds the end of the append-only log. */
    ghost predicate Valid()
      reads this, records
    {
      && records.Length > 0 && nextIndex < records.Length
      && count == Min(|log|, records.Length) && dropped == |log| - count
      && (count < records.Length ==> nextIndex == count)
      && Unrolled() == Slots(LastOf(log, records.Length))
    }

    constructor (capacity: nat)
      requires capacity > 0
      ensures Valid() && fresh(records) && records.Length == capacity && log == []
    {
      records := new Option<Record>[capacity](_ => None);
      nextIndex, count, dropped, log := 0, 0, 0, [];
    }

    /** `_append_record` */
    method Append(record: Record)
      requires Valid()
      modifies this, records
      ensures Valid() && records == old(records) && log == old(log) + [record]
    {
      var capacity := records.Length;
      LastOfAppend(log, capacity, record);
      UnrollAfterWrite(records[..], nextIndex, count, Some(record));
      records[nextIndex] := Some(record);
      assert records[..] == old(records[..])[nextIndex := Some(record)];
      nextIndex := if nextIndex + 1 == capacity then 0 else nextIndex + 1;
      log := log + [record];
      if count < capacity {
        count := count + 1;
      } else {
        dropped := dropped + 1;
      }
    }

    /** `_list_records`: the last min(n, capacity) records of the log, in order. */
    method ListRecords() returns (listed: seq<Record>)
      requires Valid()
      ensures listed == LastOf(log, records.Length)
      ensures count + dropped == |log|
    {
      PresentSlots(LastOf(log, records.Length));
      if count == 0 {
        return [];
      } else if count < records.Length {
        assert records[..count] == records[..][..count];
        listed := Present(records[..count]);
      } else {
        assert records[nextIndex..] + records[..nextIndex] == Unrolled();
        listed := Present(records[nextIndex..] + records[..nextIndex]);
      }
    }
  }

  // ---------- selecting ----------

  datatype Query = Query(limit: Option<int>, kind: Option<string>, sinceSeq: Option<int>)

  predicate Matches(q: Query, r: Record) {
    (!Truthy(q.kind) || r.kind == q.kind.value) && (q.sinceSeq == None || r.sequence > q.sinceSeq.value)
  }

  function Filter(q: Query, records: seq<Record>): seq<Record> {
    if records == [] then []
    else (if Matches(q, records[0]) then [records[0]] else []) + Filter(q, records[1..])
  }

  function Limit(q: Query): int {
    if q.limit.Some? then q.limit.value else DEFAULT_DIAGNOSTIC_STABILITY_LIMIT
  }

  /** `filtered[max(0, len(filtered) - limit):]` */
  function Cut(q: Query, filtered: seq<Record>): seq<Record> {
    var start := if |filtered| - Limit(q) > 0 then |filtered| - Limit(q) else 0;
    if start >= |filtered| then [] else filtered[start..]
  }

  /** The selection part of a snapshot; its summary is a function of the filtered records. */
  datatype Selection = Selection(count: nat, firstSeq: Option<int>, lastSeq: Option<int>, events: seq<Record>)

  /** What is reported of the records that passed the filter. */
  function Report(q: Query, filtered: seq<Record>): Selection {
    Selection(|filtered|,
              if filtered == [] then None else Some(filtered[0].sequence),
              if filtered == [] then None else Some(filtered[|filtered| - 1].sequence),
              Cut(q, filtered))
  }

  function Select(q: Query, records: seq<Record>): Selection {
    Report(q, Filter(q, records))
  }

  /** The limit of the query cut nothing off. */
  predicate Uncut(q: Query, records: seq<Record>) {
    |Filter(q, records)| <= Limit(q)
  }

  lemma UncutKeepsAll(q: Query, records: seq<Record>)
    requires Uncut(q, records)
    ensures Select(q, records).events == Filter(q, records)
  {
  }

  /** The records of the buffer that meet the conditions of both queries. */
  function FilterBoth(p: Query, q: Query, records: seq<Record>): seq<Record> {
    if records == [] then []
    else
      (if Matches(p, records[0]) && Matches(q, records[0]) then [records[0]] else []) + FilterBoth(p, q, records[1..])
  }

  lemma {:induction false} FilterTwice(p: Query, q: Query, records: seq<Record>)
    ensures Filter(q, Filter(p, records)) == FilterBoth(p, q, records)
  {
    if records != [] {
      FilterTwice(p, q, records[1..]);
      var rest := Filter(p, records[1..]);
      if Matches(p, records[0]) {
        assert ([records[0]] + rest)[0] == records[0] && ([records[0]] + rest)[1..] == rest;
      } else {
        assert [] + rest == rest;
      }
    }
  }

  /** Selecting from a snapshot that its limit did not cut reports exactly the records of
      the buffer that meet the conditions of both, under the limit of the second query; for
      queries that name different types that is nothing. */
  lemma SelectOnSnapshot(p: Query, q: Query, records: seq<Record>)
    requires Uncut(p, records)
    ensures Select(q, Select(p, records).events) == Report(q, FilterBoth(p, q, records))
    ensures Truthy(p.kind) && Truthy(q.kind) && p.kind != q.kind ==> FilterBoth(p, q, records) == []
  {
    FilterTwice(p, q, records);
    UncutKeepsAll(p, records);
    if Truthy(p.kind) && Truthy(q.kind) && p.kind != q.kind { NothingOfBothKinds(p, q, records); }
  }

  lemma {:induction false} NothingOfBothKinds(p: Query, q: Query, records: seq<Record>)
    requires Truthy(p.kind) && Truthy(q.kind) && p.kind != q.kind
    ensures FilterBoth(p, q, records) == []
  {
    if records != [] { NothingOfBothKinds(p, q, records[1..]); }
  }

  /** So it equals querying the buffer directly with any one query for both conditions. */
  lemma SelectOnSnapshotDirectly(p: Query, q: Query, both: Query, records: seq<Record>)
    requires both.limit == q.limit && forall r :: Matches(both, r) <==> Matches(p, r) && Matches(q, r)
    requires Uncut(p, records)
    ensures Select(q, Select(p, records).events) == Select(both, records)
  {
    SelectOnSnapshot(p, q, records);
    FilterBothIs(p, q, both, records);
  }

  lemma {:induction false} FilterBothIs(p: Query, q: Query, both: Query, records: seq<Record>)
    requires forall r :: Matches(both, r) <==> Matches(p, r) && Matches(q, r)
    ensures FilterBoth(p, q, records) == Filter(both, records)
  {
    if records != [] { FilterBothIs(p, q, both, records[1..]); }
  }

  /** The records that the limit of a query cuts off. */
  function CutOff(p: Query, filtered: seq<Record>): seq<Record> {
    if |filtered| - Limit(p) <= 0 then []
    else if Limit(p) <= 0 then filtered
    else filtered[..|filtered| - Limit(p)]
  }

  lemma {:induction false} FilterAppend(q: Query, a: seq<Record>, b: seq<Record>)
    ensures Filter(q, a + b) == Filter(q, a) + Filter(q, b)
  {
    if a == [] {
      assert a + b == b;
    } else {
      assert (a + b)[0] == a[0] && (a + b)[1..] == a[1..] + b;
      FilterAppend(q, a[1..], b);
    }
  }

  /** The condition is exact, for any two queries: a snapshot reports the true count of the
      records meeting both if and only if none of the records its limit cut off meets the
      second query. */
  lemma CutSnapshotMiscounts(p: Query, q: Query, records: seq<Record>)
    ensures Select(q, Select(p, records).events).count == |FilterBoth(p, q, records)|
            <==> Filter(q, CutOff(p, Filter(p, records))) == []
  {
    var filtered := Filter(p, records);
    FilterTwice(p, q, records);
    FilterAppend(q, CutOff(p, filtered), Cut(p, filtered));
    assert CutOff(p, filtered) + Cut(p, filtered) == filtered;
  }

  /** In particular, selecting everything reports the count of the snapshot if and only if
      the snapshot was not cut. */
  lemma CutSnapshotCountsLess(p: Query, q: Query, records: seq<Record>)
    requires Limit(p) >= 0 && forall r :: Matches(q, r)
    ensures Select(q, Select(p, records).events).count == Select(p, records).count <==> Uncut(p, records)
  {
    FilterAll(q, Select(p, records).events);
  }

  lemma {:induction false} FilterAll(q: Query, records: seq<Record>)
    requires forall r :: Matches(q, r)
    ensures Filter(q, records) == records
  {
    if records != [] { FilterAll(q, records[1..]); }
  }

  // ---------- what a selection holds ----------

  /** The record is of the type asked for and strictly after the sequence number given. */
  predicate Meets(q: Query, r: Record) {
    && (q.kind == None || q.kind == Some("") || q.kind == Some(r.kind))
    && (q.sinceSeq == None || q.sinceSeq.value < r.sequence)
  }

  /** `at` lists the places of the records that meet the query, in order. */
  ghost predicate PlacesOf(q: Query, records: seq<Record>, at: seq<nat>) {
    && (forall i, j :: 0 <= i < j < |at| ==> at[i] < at[j])
    && (forall i :: 0 <= i < |at| ==> at[i] < |records|)
    && (forall n: nat :: n < |records| ==> (n in at <==> Meets(q, records[n])))
  }

  ghost predicate ListsAt(listed: seq<Record>, records: seq<Record>, at: seq<nat>) {
    |listed| == |at| && forall i :: 0 <= i < |at| ==> at[i] < |records| && listed[i] == records[at[i]]
  }

  lemma {:induction false} FilterAppendOne(q: Query, records: seq<Record>, r: Record)
    ensures Filter(q, records + [r]) == Filter(q, records) + if Matches(q, r) then [r] else []
  {
    FilterAppend(q, records, [r]);
    assert [r][1..] == [];
  }

  lemma {:induction false} FilterMeans(q: Query, records: seq<Record>) returns (at: seq<nat>)
    ensures PlacesOf(q, records, at) && ListsAt(Filter(q, records), records, at)
  {
    if records == [] {
      at := [];
    } else {
      var n := |records| - 1;
      at := FilterMeans(q, records[..n]);
      assert records == records[..n] + [records[n]];
      FilterAppendOne(q, records[..n], records[n]);
      if Matches(q, records[n]) { at := at + [n]; }
    }
  }

  /** What a query selects: it counts the records that meet it, gives the sequence numbers of
      the first and the last of them, and lists the last ones up to its limit, 50 if it
      names none. */
  lemma SelectMeans(q: Query, records: seq<Record>) returns (at: seq<nat>)
    ensures PlacesOf(q, records, at)
    ensures var s := Select(q, records);
            var limit := if q.limit == None then 50 else q.limit.value;
            && s.count == |at|
            && (at == [] ==> s.firstSeq == None && s.lastSeq == None)
            && (at != [] ==> s.firstSeq == Some(records[at[0]].sequence) &&
                             s.lastSeq == Some(records[at[|at| - 1]].sequence))
            && |s.events| == (if limit <= 0 then 0 else if limit <= |at| then limit else |at|)
            && ListsAt(s.events, records, at[|at| - |s.events|..])
  {
    at := FilterMeans(q, records);
  }
}
