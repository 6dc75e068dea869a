/**
 The micro-batch schedule of `check_messages`: which positions of the id list
 end up in an executed batch request. Positions are tracked as half-open spans
 `lo..hi` of the list; the throttling sleep between flushes is not part of it.
 */
module Schedule {

  /** Requests added to one batch before it is flushed. */
  const MaxBatchLen: nat := 30

  /** The positions `lo .. hi - 1` of the id list. */
  datatype Span = Span(lo: nat, hi: nat) {
    predicate Holds(i: int) { lo <= i < hi }
    function Size(): int { hi - lo }
  }

  /** Number of flushes inside the loop for `n` ids: one per index `i` with `i % 30 == 0`. */
  function InLoopCount(n: nat): nat {
    if n == 0 then 0 else (n - 1) / MaxBatchLen + 1
  }

  /** The batch flushed by the `k`-th in-loop flush: `[0]` first, then `30k-29 .. 30k`. */
  function InLoopSpan(k: nat): Span {
    if k == 0 then Span(0, 1) else Span(MaxBatchLen * k - (MaxBatchLen - 1), MaxBatchLen * k + 1)
  }

  /** The first `c` in-loop batches. */
  function InLoopSpans(c: nat): seq<Span> {
    seq(c, k requires 0 <= k => InLoopSpan(k))
  }

  /** First position of the batch still being filled after the loop has seen `n` ids. */
  function PendingStart(n: nat): nat {
    if n == 0 then 0 else MaxBatchLen * ((n - 1) / MaxBatchLen) + 1
  }

  /**
   The batches `check_messages` executes on `n` ids, in order: the in-loop
   flushes, then the trailing flush, which happens only when `n % 30 != 0`.
   */
  function Executed(n: nat): seq<Span> {
    InLoopSpans(InLoopCount(n))
      + (if n % MaxBatchLen != 0 then [Span(PendingStart(n), n)] else [])
  }

  /** How far the executed batches reach: all `n` ids, or all but the last 29 when `n` is a positive multiple of 30. */
  function CoveredEnd(n: nat): nat {
    if n % MaxBatchLen != 0 then n else PendingStart(n)
  }

  /** `spans` lie back to back from `from` to `to`, in order. */
  ghost predicate Tiles(spans: seq<Span>, from: int, to: int)
    decreases |spans|
  {
    if |spans| == 0 then from == to
    else spans[0].lo == from && spans[0].lo <= spans[0].hi && Tiles(spans[1..], spans[0].hi, to)
  }

  /**
   The loop of `check_messages`, reduced to its batching: each id is added to
   the open batch, and the batch is executed and replaced when `i % 30 == 0`;
   after the loop the open batch is executed only when `n % 30 != 0`.
   */
  method CheckMessagesSchedule(n: nat) returns (executed: seq<Span>)
    ensures executed == Executed(n)
  {
    executed := [];
    var start := 0;
    var i := 0;
    while i < n
      invariant i <= n
      invariant executed == InLoopSpans(InLoopCount(i))
      invariant start == PendingStart(i)
    {
      if i % MaxBatchLen == 0 {
        executed := executed + [Span(start, i + 1)];
        start := i + 1;
      }
      i := i + 1;
    }
    if n % MaxBatchLen != 0 {
      executed := executed + [Span(start, n)];
    }
  }

  /** Position `i` lies in exactly one of `spans`. */
  ghost predicate InExactlyOne(spans: seq<Span>, i: int) {
    && (exists k :: 0 <= k < |spans| && spans[k].Holds(i))
    && forall k, k' :: 0 <= k < |spans| && 0 <= k' < |spans| && spans[k].Holds(i) && spans[k'].Holds(i) ==> k == k'
  }

  /** Position `i` lies in none of `spans`. */
  ghost predicate InNone(spans: seq<Span>, i: int) {
    forall k :: 0 <= k < |spans| ==> !spans[k].Holds(i)
  }

  /** Back-to-back spans cover every position between their ends once and nothing else. */
  lemma {:induction false} TilesExactlyOnce(spans: seq<Span>, from: int, to: int, i: int)
    requires Tiles(spans, from, to)
    ensures from <= i < to ==> InExactlyOne(spans, i)
    ensures !(from <= i < to) ==> InNone(spans, i)
    decreases |spans|
  {
    if |spans| > 0 {
      var tail := spans[1..];
      TilesExactlyOnce(tail, spans[0].hi, to, i);
      TilesBounds(tail, spans[0].hi, to);
      assert from <= spans[0].hi <= to;
      forall k | 0 < k < |spans|
        ensures spans[k] == tail[k - 1]
      {
      }
      if spans[0].Holds(i) {
        assert InNone(tail, i);
      } else if from <= i < to {
        var k' :| 0 <= k' < |tail| && tail[k'].Holds(i);
        assert spans[k' + 1].Holds(i);
      }
    }
  }

  /** Back-to-back spans stay between their ends. */
  lemma {:induction false} TilesBounds(spans: seq<Span>, from: int, to: int)
    requires Tiles(spans, from, to)
    ensures from <= to
    ensures forall k :: 0 <= k < |spans| ==> from <= spans[k].lo <= spans[k].hi <= to
    decreases |spans|
  {
    if |spans| > 0 {
      TilesBounds(spans[1..], spans[0].hi, to);
      forall k | 0 < k < |spans|
        ensures spans[k] == spans[1..][k - 1]
      {
      }
    }
  }

  /** Appending a span that starts where the tiling ends extends the tiling. */
  lemma {:induction false} TilesAppend(spans: seq<Span>, from: int, to: int, last: Span)
    requires Tiles(spans, from, to)
    requires last.lo == to <= last.hi
    ensures Tiles(spans + [last], from, last.hi)
    decreases |spans|
  {
    if |spans| == 0 {
      assert (spans + [last])[1..] == [];
    } else {
      TilesAppend(spans[1..], spans[0].hi, to, last);
      assert (spans + [last])[1..] == spans[1..] + [last];
    }
  }

  /** The in-loop batches tile the positions up to just after the last flush index. */
  lemma {:induction false} InLoopTiles(c: nat)
    ensures Tiles(InLoopSpans(c), 0, if c == 0 then 0 else MaxBatchLen * (c - 1) + 1)
  {
    if c > 0 {
      InLoopTiles(c - 1);
      assert InLoopSpans(c) == InLoopSpans(c - 1) + [InLoopSpan(c - 1)];
      TilesAppend(InLoopSpans(c - 1), 0, if c - 1 == 0 then 0 else MaxBatchLen * (c - 2) + 1, InLoopSpan(c - 1));
    }
  }

  /** The executed batches tile the ids from the first one up to `CoveredEnd(n)`. */
  lemma ExecutedTiles(n: nat)
    ensures Tiles(Executed(n), 0, CoveredEnd(n))
  {
    InLoopTiles(InLoopCount(n));
    if n % MaxBatchLen != 0 {
      TilesAppend(InLoopSpans(InLoopCount(n)), 0, PendingStart(n), Span(PendingStart(n), n));
    } else {
      assert Executed(n) == InLoopSpans(InLoopCount(n));
    }
  }

  /** Facts about the in-loop flush count that the solver does not find on its own. */
  lemma InLoopCountFacts(n: nat, k: nat)
    ensures k < InLoopCount(n) <==> MaxBatchLen * k < n
  {
    if n > 0 {
      var q := (n - 1) / MaxBatchLen;
      assert MaxBatchLen * q <= n - 1 < MaxBatchLen * q + MaxBatchLen;
      if k <= q {
        assert MaxBatchLen * k <= MaxBatchLen * q;
      } else {
        assert MaxBatchLen * k >= MaxBatchLen * q + MaxBatchLen;
      }
    }
  }

  /**
   The shape of the schedule: the trailing flush happens iff `n % 30 != 0`,
   the first executed batch is `[ids[0]]`, and no batch exceeds 30 ids.
   */
  lemma ExecutedShape(n: nat)
    ensures |Executed(n)| == InLoopCount(n) + (if n % MaxBatchLen != 0 then 1 else 0)
    ensures n > 0 ==> Executed(n)[0] == Span(0, 1)
    ensures forall k :: 0 <= k < |Executed(n)| ==> 0 <= Executed(n)[k].Size() <= MaxBatchLen
  {
    ExecutedTiles(n);
    TilesBounds(Executed(n), 0, CoveredEnd(n));
    if n % MaxBatchLen != 0 {
      var q := (n - 1) / MaxBatchLen;
      assert MaxBatchLen * q <= n - 1 < MaxBatchLen * q + MaxBatchLen;
      assert Executed(n)[InLoopCount(n)] == Span(PendingStart(n), n);
    }
    forall k | 0 <= k < InLoopCount(n)
      ensures Executed(n)[k] == InLoopSpan(k)
    {
    }
  }

  /** The in-loop flushes happen exactly at the indices `i < n` with `i % 30 == 0`. */
  lemma FlushIndices(n: nat, i: nat)
    requires i < n
    ensures i % MaxBatchLen == 0 <==> exists k :: 0 <= k < InLoopCount(n) && Executed(n)[k].hi == i + 1
  {
    if i % MaxBatchLen == 0 {
      var k := i / MaxBatchLen;
      assert MaxBatchLen * k == i;
      InLoopCountFacts(n, k);
      assert Executed(n)[k] == InLoopSpan(k);
    }
    if exists k :: 0 <= k < InLoopCount(n) && Executed(n)[k].hi == i + 1 {
      var k :| 0 <= k < InLoopCount(n) && Executed(n)[k].hi == i + 1;
      assert Executed(n)[k] == InLoopSpan(k);
      assert i == MaxBatchLen * k;
    }
  }

  /** When `n % 30 != 0`, every id belongs to exactly one executed batch. */
  lemma EveryIdCheckedOnce(n: nat, i: nat)
    requires n % MaxBatchLen != 0
    requires i < n
    ensures InExactlyOne(Executed(n), i)
  {
    ExecutedTiles(n);
    TilesExactlyOnce(Executed(n), 0, CoveredEnd(n), i);
  }

  /**
   When `n` is a positive multiple of 30, the ids at positions `n - 29 .. n - 1`
   are added to a batch that is never executed.
   */
  lemma TailNeverChecked(n: nat, i: nat)
    requires n > 0 && n % MaxBatchLen == 0
    requires n - (MaxBatchLen - 1) <= i < n
    ensures CoveredEnd(n) == n - (MaxBatchLen - 1)
    ensures InNone(Executed(n), i)
  {
    ExecutedTiles(n);
    TilesExactlyOnce(Executed(n), 0, CoveredEnd(n), i);
  }

  /**
   The schedule with the trailing flush corrected: the open batch is executed
   whenever it still holds a request, whatever `n % 30` is.
   */
  function FixedExecuted(n: nat): seq<Span> {
    InLoopSpans(InLoopCount(n))
      + (if PendingStart(n) < n then [Span(PendingStart(n), n)] else [])
  }

  /** With the corrected trailing flush every id belongs to exactly one executed batch of at most 30 ids. */
  lemma FixedEveryIdCheckedOnce(n: nat)
    ensures Tiles(FixedExecuted(n), 0, n)
    ensures forall i :: 0 <= i < n ==> InExactlyOne(FixedExecuted(n), i)
    ensures forall k :: 0 <= k < |FixedExecuted(n)| ==> 0 < FixedExecuted(n)[k].Size() <= MaxBatchLen
  {
    InLoopTiles(InLoopCount(n));
    if PendingStart(n) < n {
      TilesAppend(InLoopSpans(InLoopCount(n)), 0, PendingStart(n), Span(PendingStart(n), n));
    } else {
      assert FixedExecuted(n) == InLoopSpans(InLoopCount(n));
    }
    forall i | 0 <= i < n
      ensures InExactlyOne(FixedExecuted(n), i)
    {
      TilesExactlyOnce(FixedExecuted(n), 0, n, i);
    }
  }

}
