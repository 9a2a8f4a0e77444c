/** Immutable telemetry points (apps/api/src/postgres-industrial-persistence.ts): insert or ignore, then compare two counts. */
module Telemetry {
  import opened Common

  datatype Quality = Good | Uncertain | Bad

  /** time_series_id and observed_at; the sequence is always 0. */
  datatype PointKey = PointKey(series: string, observedAt: int)

  datatype Reading = Reading(value: real, quality: Quality)

  datatype Point = Point(key: PointKey, reading: Reading)

  type Points = map<PointKey, Reading>

  const MAX_JAVASCRIPT_DATE_MS := 8_640_000_000_000_000

  // --- The two statements ---

  /** INSERT ... ON CONFLICT DO NOTHING: the first row of a key wins. */
  function InsertMissing(stored: Points, batch: seq<Point>): (r: Points)
    ensures forall k :: k in stored ==> k in r && r[k] == stored[k]
  {
    if |batch| == 0 then stored
    else
      var before := InsertMissing(stored, batch[..|batch| - 1]);
      var last := batch[|batch| - 1];
      if last.key in before then before else before[last.key := last.reading]
  }

  predicate Agrees(stored: Points, p: Point) {
    p.key in stored && stored[p.key] == p.reading
  }

  /** count(existing...) FILTER (...) over the left join */
  function AcceptedCount(stored: Points, batch: seq<Point>): (n: nat)
    ensures n <= |batch|
  {
    if |batch| == 0 then 0
    else AcceptedCount(stored, batch[..|batch| - 1]) + if Agrees(stored, batch[|batch| - 1]) then 1 else 0
  }

  predicate ValidTimestamp(t: int) {
    0 - MAX_JAVASCRIPT_DATE_MS <= t <= MAX_JAVASCRIPT_DATE_MS
  }

  /** upsertPoints; None where it throws, and the transaction rolls back. */
  function Upserted(stored: Points, batch: seq<Point>): Option<Points> {
    if exists i :: 0 <= i < |batch| && !ValidTimestamp(batch[i].key.observedAt) then None
    else
      var after := InsertMissing(stored, batch);
      if AcceptedCount(after, batch) == |batch| then Some(after) else None
  }

  method UpsertPoints(stored: Points, batch: seq<Point>) returns (result: Option<Points>)
    ensures result == Upserted(stored, batch)
  {
    var i := 0;
    while i < |batch|
      invariant 0 <= i <= |batch|
      invariant forall j :: 0 <= j < i ==> ValidTimestamp(batch[j].key.observedAt)
    {
      if !ValidTimestamp(batch[i].key.observedAt) {
        return None;
      }
      i := i + 1;
    }
    var after := stored;
    i := 0;
    while i < |batch|
      invariant 0 <= i <= |batch|
      invariant after == InsertMissing(stored, batch[..i])
    {
      assert batch[..i + 1][..i] == batch[..i];
      if batch[i].key !in after {
        after := after[batch[i].key := batch[i].reading];
      }
      i := i + 1;
    }
    assert batch[..i] == batch;
    var accepted := 0;
    i := 0;
    while i < |batch|
      invariant 0 <= i <= |batch|
      invariant accepted == AcceptedCount(after, batch[..i])
    {
      assert batch[..i + 1][..i] == batch[..i];
      if Agrees(after, batch[i]) {
        accepted := accepted + 1;
      }
      i := i + 1;
    }
    assert batch[..i] == batch;
    result := if accepted == |batch| then Some(after) else None;
  }

  // --- What equal counts mean ---

  /** No point of the batch differs from what is stored under its key. */
  predicate ConsistentWith(stored: Points, batch: seq<Point>) {
    forall i :: 0 <= i < |batch| && batch[i].key in stored ==> stored[batch[i].key] == batch[i].reading
  }

  /** No two points of the batch differ under one key. */
  predicate SelfConsistent(batch: seq<Point>) {
    forall i, j :: 0 <= i < j < |batch| && batch[i].key == batch[j].key ==> batch[i].reading == batch[j].reading
  }

  lemma {:induction false} CountsAgreeExactly(stored: Points, batch: seq<Point>)
    ensures AcceptedCount(stored, batch) == |batch| <==> forall i :: 0 <= i < |batch| ==> Agrees(stored, batch[i])
  {
    if |batch| > 0 {
      CountsAgreeExactly(stored, batch[..|batch| - 1]);
      assert forall i :: 0 <= i < |batch| - 1 ==> batch[..|batch| - 1][i] == batch[i];
    }
  }

  /** After the insert a key holds what was stored, or else the first point of the batch with that key. */
  lemma {:induction false} FirstPointWins(stored: Points, batch: seq<Point>, k: PointKey)
    ensures var r := InsertMissing(stored, batch);
      (k in r <==> k in stored || exists i :: 0 <= i < |batch| && batch[i].key == k)
      && (k !in stored && k in r ==>
            exists i :: 0 <= i < |batch| && batch[i] == Point(k, r[k]) && forall j :: 0 <= j < i ==> batch[j].key != k)
  {
    if |batch| > 0 {
      var init := batch[..|batch| - 1];
      FirstPointWins(stored, init, k);
      assert forall i :: 0 <= i < |init| ==> init[i] == batch[i];
      var before := InsertMissing(stored, init);
      if k !in before && batch[|batch| - 1].key == k {
        assert batch[|batch| - 1] == Point(k, InsertMissing(stored, batch)[k]);
      }
      if i :| 0 <= i < |batch| && batch[i].key == k {
        assert i < |init| ==> init[i].key == k;
      }
    }
  }

  /**
   * A batch is accepted exactly when its timestamps are in range, every point agrees with what is
   * stored at its key, and the batch does not contradict itself.
   */
  lemma UpsertAcceptsExactlyAgreement(stored: Points, batch: seq<Point>)
    ensures Upserted(stored, batch).Some? <==>
      (forall i :: 0 <= i < |batch| ==> -8_640_000_000_000_000 <= batch[i].key.observedAt <= 8_640_000_000_000_000)
      && ConsistentWith(stored, batch) && SelfConsistent(batch)
  {
    assert forall t :: ValidTimestamp(t) <==> -8_640_000_000_000_000 <= t <= 8_640_000_000_000_000;
    var after := InsertMissing(stored, batch);
    CountsAgreeExactly(after, batch);
    if ConsistentWith(stored, batch) && SelfConsistent(batch) {
      forall i | 0 <= i < |batch|
        ensures Agrees(after, batch[i])
      {
        FirstPointWins(stored, batch, batch[i].key);
      }
    }
    if AcceptedCount(after, batch) == |batch| {
      assert forall i :: 0 <= i < |batch| ==> Agrees(after, batch[i]);
    }
  }

  /** Accepted batches are fully there, add nothing else, and change nothing. */
  lemma AcceptedBatchIsPresent(stored: Points, batch: seq<Point>)
    requires Upserted(stored, batch).Some?
    ensures var after := Upserted(stored, batch).value;
      && (forall i :: 0 <= i < |batch| ==> Agrees(after, batch[i]))
      && (forall k :: k in stored ==> k in after && after[k] == stored[k])
      && (forall k :: k in after && k !in stored ==> exists i :: 0 <= i < |batch| && batch[i] == Point(k, after[k]))
  {
    var after := Upserted(stored, batch).value;
    CountsAgreeExactly(after, batch);
    forall k | k in after && k !in stored
      ensures exists i :: 0 <= i < |batch| && batch[i] == Point(k, after[k])
    {
      FirstPointWins(stored, batch, k);
    }
  }

  /** The points after a sequence of ingests, of which the rejected ones roll back. */
  function AfterAll(stored: Points, batches: seq<seq<Point>>): Points
    decreases |batches|
  {
    if |batches| == 0 then stored
    else
      var next := Upserted(stored, batches[0]);
      AfterAll(if next.Some? then next.value else stored, batches[1..])
  }

  /** A stored point never changes, whatever is ingested later. */
  lemma {:induction false} StoredPointsNeverChange(stored: Points, batches: seq<seq<Point>>)
    ensures forall k :: k in stored ==> k in AfterAll(stored, batches) && AfterAll(stored, batches)[k] == stored[k]
    decreases |batches|
  {
    if |batches| > 0 {
      var next := Upserted(stored, batches[0]);
      if next.Some? { AcceptedBatchIsPresent(stored, batches[0]); }
      StoredPointsNeverChange(if next.Some? then next.value else stored, batches[1..]);
    }
  }

  /** Sending an accepted batch again is accepted and changes nothing, at any later time. */
  lemma AcceptedBatchReplays(stored: Points, batch: seq<Point>, later: seq<seq<Point>>)
    requires Upserted(stored, batch).Some?
    ensures var t := AfterAll(Upserted(stored, batch).value, later); Upserted(t, batch) == Some(t)
  {
    var after := Upserted(stored, batch).value;
    var t := AfterAll(after, later);
    AcceptedBatchIsPresent(stored, batch);
    StoredPointsNeverChange(after, later);
    UpsertAcceptsExactlyAgreement(stored, batch);
    UpsertAcceptsExactlyAgreement(t, batch);
    var again := InsertMissing(t, batch);
    forall k | k in again
      ensures k in t
    {
      FirstPointWins(t, batch, k);
    }
    assert again == t;
  }

  lemma {:induction false} AfterAllSplits(stored: Points, first: seq<seq<Point>>, later: seq<seq<Point>>)
    ensures AfterAll(stored, first + later) == AfterAll(AfterAll(stored, first), later)
    decreases |first|
  {
    if |first| == 0 {
      assert first + later == later;
    } else {
      assert (first + later)[1..] == first[1..] + later;
      var next := Upserted(stored, first[0]);
      AfterAllSplits(if next.Some? then next.value else stored, first[1..], later);
    }
  }

  /** A batch that is accepted after others leaves its points, as they were sent, in everything that follows. */
  lemma AcceptedPointsStay(stored: Points, before: seq<seq<Point>>, batch: seq<Point>, later: seq<seq<Point>>, i: nat)
    requires Upserted(AfterAll(stored, before), batch).Some? && i < |batch|
    ensures Agrees(AfterAll(stored, before + ([batch] + later)), batch[i])
  {
    var t := AfterAll(stored, before);
    AfterAllSplits(stored, before, [batch] + later);
    assert ([batch] + later)[1..] == later;
    AcceptedBatchIsPresent(t, batch);
    StoredPointsNeverChange(Upserted(t, batch).value, later);
  }
}
