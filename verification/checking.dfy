/**
 `check_messages` and `get_ids_to_update`: the ids of a page are fetched in
 executed micro-batches, each response goes through the subject classifier's
 callback in request order, and the collected ids are screened for `None`.
 The fetch itself is a parameter standing for the remote `messages.get` call.
 */
module Checking {
  import opened Wrappers
  import opened Gmail
  import opened Classifier
  import opened Schedule

  /** The message behind `response` is recorded, and its id is `x`. */
  ghost predicate Reports(response: FetchResult, x: MessageId) {
    Recorded(response) && response.message.id == Some(x)
  }

  /** Reference: what the classifier records for `batch`, one entry per recorded message, in order. */
  ghost function RecordedIds(batch: seq<MessageId>, fetch: MessageId -> FetchResult): seq<Option<MessageId>>
    decreases |batch|
  {
    if |batch| == 0 then []
    else
      (if Recorded(fetch(batch[0])) then [fetch(batch[0]).message.id] else [])
        + RecordedIds(batch[1..], fetch)
  }

  /** Reference: the ids of the warming messages of `batch`, in order. */
  ghost function WarmingIds(batch: seq<MessageId>, fetch: MessageId -> FetchResult): seq<MessageId>
    decreases |batch|
  {
    if |batch| == 0 then []
    else
      var response := fetch(batch[0]);
      (if Recorded(response) && response.message.id.Some? then [response.message.id.value] else [])
        + WarmingIds(batch[1..], fetch)
  }

  /** The callbacks of one executed batch, run in the order the requests were added. */
  function RunCallbacks(batch: seq<MessageId>, fetch: MessageId -> FetchResult, results: seq<Option<MessageId>>): seq<Option<MessageId>>
    decreases |batch|
  {
    if |batch| == 0 then results
    else RunCallbacks(batch[1..], fetch, CheckIfMessageIsWarming(fetch(batch[0]), results))
  }

  /** The spans all lie inside a list of `n` ids. */
  ghost predicate WithinIds(spans: seq<Span>, n: nat) {
    forall k :: 0 <= k < |spans| ==> spans[k].lo <= spans[k].hi <= n
  }

  /** Executes the batches `spans` of `ids` one after the other. */
  function RunBatches(ids: seq<MessageId>, spans: seq<Span>, fetch: MessageId -> FetchResult, results: seq<Option<MessageId>>): seq<Option<MessageId>>
    requires WithinIds(spans, |ids|)
    decreases |spans|
  {
    if |spans| == 0 then results
    else RunBatches(ids, spans[1..], fetch, RunCallbacks(ids[spans[0].lo..spans[0].hi], fetch, results))
  }

  /** The executed batches never reach past the end of the list. */
  lemma CoveredEndWithin(n: nat)
    ensures CoveredEnd(n) <= n
    ensures WithinIds(Executed(n), n)
  {
    if n > 0 {
      var q := (n - 1) / MaxBatchLen;
      assert MaxBatchLen * q <= n - 1;
    }
    ExecutedTiles(n);
    TilesBounds(Executed(n), 0, CoveredEnd(n));
  }

  /**
   `check_messages` as written: only the ids in executed batches are
   classified, so the result is what the classifier records for the ids
   before `CoveredEnd(|ids|)`, in order; that is every id when `|ids| % 30 != 0`.
   */
  function CheckMessages(ids: seq<MessageId>, fetch: MessageId -> FetchResult): (r: seq<Option<MessageId>>)
    ensures r == RecordedIds(ids[..CoveredEnd(|ids|)], fetch)
  {
    CoveredEndWithin(|ids|);
    ExecutedTiles(|ids|);
    RunBatchesTiled(ids, Executed(|ids|), 0, CoveredEnd(|ids|), fetch, []);
    RunBatches(ids, Executed(|ids|), fetch, [])
  }

  /** When `|ids| % 30 != 0`, `check_messages` classifies every id, in order. */
  lemma CheckMessagesCoversAll(ids: seq<MessageId>, fetch: MessageId -> FetchResult)
    requires |ids| % MaxBatchLen != 0
    ensures CheckMessages(ids, fetch) == RecordedIds(ids, fetch)
  {
    assert ids[..|ids|] == ids;
  }

  /** `check_messages` with the corrected trailing flush: every id is classified. */
  function CheckMessagesFixed(ids: seq<MessageId>, fetch: MessageId -> FetchResult): (r: seq<Option<MessageId>>)
    ensures r == RecordedIds(ids, fetch)
  {
    FixedEveryIdCheckedOnce(|ids|);
    TilesBounds(FixedExecuted(|ids|), 0, |ids|);
    RunBatchesTiled(ids, FixedExecuted(|ids|), 0, |ids|, fetch, []);
    assert ids[0..|ids|] == ids;
    RunBatches(ids, FixedExecuted(|ids|), fetch, [])
  }

  /** The `None` filter of `get_ids_to_update`. */
  function DropNone(xs: seq<Option<MessageId>>): (r: seq<MessageId>)
    ensures |r| <= |xs|
    ensures forall x :: x in r <==> Some(x) in xs
    decreases |xs|
  {
    if |xs| == 0 then []
    else
      var rest := DropNone(xs[1..]);
      assert forall x :: Some(x) in xs <==> Some(x) == xs[0] || Some(x) in xs[1..] by {
        assert xs == [xs[0]] + xs[1..];
      }
      match xs[0]
      case None => rest
      case Some(x) => [x] + rest
  }

  /** `get_ids_to_update`: the ids the classifier recorded, with `None` entries dropped, in order. */
  function GetIdsToUpdate(ids: seq<MessageId>, fetch: MessageId -> FetchResult): (r: seq<MessageId>)
    ensures r == WarmingIds(ids[..CoveredEnd(|ids|)], fetch)
    ensures forall x :: x in r <==> exists i :: 0 <= i < CoveredEnd(|ids|) && Reports(fetch(ids[i]), x)
  {
    CoveredEndWithin(|ids|);
    DropNoneRecorded(ids[..CoveredEnd(|ids|)], fetch);
    forall x
      ensures x in WarmingIds(ids[..CoveredEnd(|ids|)], fetch)
        <==> exists i :: 0 <= i < CoveredEnd(|ids|) && Reports(fetch(ids[i]), x)
    {
      WarmingIdsMembership(ids[..CoveredEnd(|ids|)], fetch, x);
      var prefix := ids[..CoveredEnd(|ids|)];
      assert forall i :: 0 <= i < |prefix| ==> prefix[i] == ids[i];
    }
    DropNone(CheckMessages(ids, fetch))
  }

  /** `get_ids_to_update` over the corrected schedule: the warming ids of the whole list, in order. */
  function GetIdsToUpdateFixed(ids: seq<MessageId>, fetch: MessageId -> FetchResult): (r: seq<MessageId>)
    ensures r == WarmingIds(ids, fetch)
  {
    DropNoneRecorded(ids, fetch);
    DropNone(CheckMessagesFixed(ids, fetch))
  }

  /**
   Thirty warming messages, each reporting its own id: as written, only the
   first one is returned, because the batch holding the other 29 is never
   executed; with the corrected trailing flush all thirty are returned.
   */
  lemma ThirtyWarmingMessagesOnlyFirstKept(ids: seq<MessageId>, fetch: MessageId -> FetchResult)
    requires |ids| == 30
    requires forall i :: 0 <= i < |ids| ==> Reports(fetch(ids[i]), ids[i])
    ensures GetIdsToUpdate(ids, fetch) == [ids[0]]
    ensures GetIdsToUpdateFixed(ids, fetch) == ids
  {
    assert CoveredEnd(30) == 1;
    assert ids[..1] == [ids[0]];
    WarmingIdsOfSelfReporting(ids[..1], fetch);
    WarmingIdsOfSelfReporting(ids, fetch);
  }

  /** When every message reports its own id, the warming ids are the list itself. */
  lemma {:induction false} WarmingIdsOfSelfReporting(ids: seq<MessageId>, fetch: MessageId -> FetchResult)
    requires forall i :: 0 <= i < |ids| ==> Reports(fetch(ids[i]), ids[i])
    ensures WarmingIds(ids, fetch) == ids
    decreases |ids|
  {
    if |ids| > 0 {
      assert Reports(fetch(ids[0]), ids[0]);
      forall i | 0 <= i < |ids[1..]|
        ensures Reports(fetch(ids[1..][i]), ids[1..][i])
      {
        assert ids[1..][i] == ids[i + 1];
      }
      WarmingIdsOfSelfReporting(ids[1..], fetch);
      assert ids == [ids[0]] + ids[1..];
    }
  }

  /** Running a batch's callbacks appends what the classifier records for it. */
  lemma {:induction false} RunCallbacksAppends(batch: seq<MessageId>, fetch: MessageId -> FetchResult, results: seq<Option<MessageId>>)
    ensures RunCallbacks(batch, fetch, results) == results + RecordedIds(batch, fetch)
    decreases |batch|
  {
    if |batch| > 0 {
      var next := CheckIfMessageIsWarming(fetch(batch[0]), results);
      RunCallbacksAppends(batch[1..], fetch, next);
    }
  }

  /** What is recorded for two consecutive pieces of a list is the concatenation. */
  lemma {:induction false} RecordedIdsConcat(a: seq<MessageId>, b: seq<MessageId>, fetch: MessageId -> FetchResult)
    ensures RecordedIds(a + b, fetch) == RecordedIds(a, fetch) + RecordedIds(b, fetch)
    decreases |a|
  {
    if |a| > 0 {
      assert (a + b)[1..] == a[1..] + b;
      RecordedIdsConcat(a[1..], b, fetch);
    } else {
      assert a + b == b;
    }
  }

  /** Dropping the first of the spans keeps the rest inside the list. */
  lemma WithinIdsTail(spans: seq<Span>, n: nat)
    requires |spans| > 0 && WithinIds(spans, n)
    ensures WithinIds(spans[1..], n)
  {
    forall k | 0 <= k < |spans[1..]|
      ensures spans[1..][k].lo <= spans[1..][k].hi <= n
    {
      assert spans[1..][k] == spans[k + 1];
    }
  }

  /** Concatenation regroups freely. */
  lemma AppendAssociative(a: seq<Option<MessageId>>, b: seq<Option<MessageId>>, c: seq<Option<MessageId>>)
    ensures (a + b) + c == a + (b + c)
  {
  }

  /** Executing a list of batches runs the first one, then the rest. */
  lemma RunBatchesFirst(ids: seq<MessageId>, spans: seq<Span>, fetch: MessageId -> FetchResult, results: seq<Option<MessageId>>)
    requires |spans| > 0 && WithinIds(spans, |ids|)
    ensures WithinIds(spans[1..], |ids|)
    ensures RunBatches(ids, spans, fetch, results)
         == RunBatches(ids, spans[1..], fetch, RunCallbacks(ids[spans[0].lo..spans[0].hi], fetch, results))
  {
    WithinIdsTail(spans, |ids|);
  }

  /** Executing back-to-back batches classifies exactly the ids they tile, in order. */
  lemma {:induction false} RunBatchesTiled(ids: seq<MessageId>, spans: seq<Span>, from: nat, to: nat, fetch: MessageId -> FetchResult, results: seq<Option<MessageId>>)
    requires Tiles(spans, from, to) && to <= |ids|
    requires WithinIds(spans, |ids|)
    ensures from <= to
    ensures RunBatches(ids, spans, fetch, results) == results + RecordedIds(ids[from..to], fetch)
    decreases |spans|
  {
    if |spans| == 0 {
      assert ids[from..to] == [];
    } else {
      var mid := spans[0].hi;
      var first := ids[from..mid];
      var next := RunCallbacks(first, fetch, results);
      RunBatchesFirst(ids, spans, fetch, results);
      RunBatchesTiled(ids, spans[1..], mid, to, fetch, next);
      var rest := ids[mid..to];
      assert next == results + RecordedIds(first, fetch) by {
        RunCallbacksAppends(first, fetch, results);
      }
      assert RecordedIds(ids[from..to], fetch) == RecordedIds(first, fetch) + RecordedIds(rest, fetch) by {
        assert ids[from..to] == first + rest;
        RecordedIdsConcat(first, rest, fetch);
      }
      AppendAssociative(results, RecordedIds(first, fetch), RecordedIds(rest, fetch));
    }
  }

  /** Dropping `None` from what the classifier records leaves the warming ids. */
  lemma {:induction false} DropNoneRecorded(batch: seq<MessageId>, fetch: MessageId -> FetchResult)
    ensures DropNone(RecordedIds(batch, fetch)) == WarmingIds(batch, fetch)
    decreases |batch|
  {
    if |batch| > 0 {
      DropNoneRecorded(batch[1..], fetch);
      var head := if Recorded(fetch(batch[0])) then [fetch(batch[0]).message.id] else [];
      DropNoneConcat(head, RecordedIds(batch[1..], fetch));
    }
  }

  /** `DropNone` keeps the order of its input. */
  lemma {:induction false} DropNoneConcat(a: seq<Option<MessageId>>, b: seq<Option<MessageId>>)
    ensures DropNone(a + b) == DropNone(a) + DropNone(b)
    decreases |a|
  {
    if |a| > 0 {
      assert (a + b)[1..] == a[1..] + b;
      DropNoneConcat(a[1..], b);
    } else {
      assert a + b == b;
    }
  }

  /** An id is among the warming ids of `batch` iff some message of the batch reports it. */
  lemma {:induction false} WarmingIdsMembership(batch: seq<MessageId>, fetch: MessageId -> FetchResult, x: MessageId)
    ensures x in WarmingIds(batch, fetch) <==> exists i :: 0 <= i < |batch| && Reports(fetch(batch[i]), x)
    decreases |batch|
  {
    if |batch| > 0 {
      WarmingIdsMembership(batch[1..], fetch, x);
      if exists i :: 0 <= i < |batch| && Reports(fetch(batch[i]), x) {
        var i :| 0 <= i < |batch| && Reports(fetch(batch[i]), x);
        if i > 0 {
          assert batch[1..][i - 1] == batch[i];
        }
      }
      if exists i :: 0 <= i < |batch[1..]| && Reports(fetch(batch[1..][i]), x) {
        var i :| 0 <= i < |batch[1..]| && Reports(fetch(batch[1..][i]), x);
        assert batch[i + 1] == batch[1..][i];
      }
    }
  }

}
