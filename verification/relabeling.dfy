/**
 `update_labels`: the ids are cut into consecutive slices of at most 1000 (the
 remote API's ceiling per `batchModify` call), and each slice becomes one call
 that removes "INBOX" and adds the warming label. The remote effect of a call
 is modelled on the mailbox map; ids the mailbox does not hold are ignored.
 */
module Relabeling {
  import opened Gmail

  /** The most ids one `batchModify` call accepts. */
  const MaxIdsPerCall: nat := 1000

  /** The body of one `batchModify` call. */
  datatype BatchModifyRequest = BatchModifyRequest(ids: seq<MessageId>, removeLabelIds: seq<LabelId>, addLabelIds: seq<LabelId>)

  /** The calls issued and the mailbox they leave behind. */
  datatype UpdateOutcome = UpdateOutcome(calls: seq<BatchModifyRequest>, mailbox: Mailbox)

  /** Concatenation of a list of lists. */
  function Flatten<T>(xss: seq<seq<T>>): seq<T>
    decreases |xss|
  {
    if |xss| == 0 then [] else xss[0] + Flatten(xss[1..])
  }

  /**
   The slices `xs[i : i + 1000]` for `i` in `range(0, len(xs), 1000)`: they
   concatenate back to `xs`, none is empty or longer than 1000, all but the
   last hold exactly 1000, and there are ceil(|xs| / 1000) of them.
   */
  function Chunks<T>(xs: seq<T>): (r: seq<seq<T>>)
    ensures Flatten(r) == xs
    ensures forall k :: 0 <= k < |r| ==> 0 < |r[k]| <= MaxIdsPerCall
    ensures forall k :: 0 <= k < |r| - 1 ==> |r[k]| == MaxIdsPerCall
    ensures |r| == (|xs| + MaxIdsPerCall - 1) / MaxIdsPerCall
    decreases |xs|
  {
    if |xs| == 0 then []
    else
      var end := if |xs| < MaxIdsPerCall then |xs| else MaxIdsPerCall;
      var rest := Chunks(xs[end..]);
      assert xs == xs[..end] + xs[end..];
      assert ([xs[..end]] + rest)[1..] == rest;
      [xs[..end]] + rest
  }

  /** The labels of a moved message: "INBOX" removed, the warming label added. */
  function Relabel(labels: set<LabelId>, warmingLabelId: LabelId): set<LabelId> {
    (labels - {Inbox}) + {warmingLabelId}
  }

  /** The remote effect of one `batchModify` call on the messages it names. */
  function BatchModify(mb: Mailbox, request: BatchModifyRequest): Mailbox {
    map m | m in mb ::
      if m in request.ids then (mb[m] - set l | l in request.removeLabelIds) + set l | l in request.addLabelIds
      else mb[m]
  }

  /** The mailbox after the calls, issued one after the other. */
  function ApplyAll(mb: Mailbox, calls: seq<BatchModifyRequest>): Mailbox
    decreases |calls|
  {
    if |calls| == 0 then mb else ApplyAll(BatchModify(mb, calls[0]), calls[1..])
  }

  /** The id lists of the calls, in order. */
  function CallIds(calls: seq<BatchModifyRequest>): seq<seq<MessageId>> {
    seq(|calls|, k requires 0 <= k < |calls| => calls[k].ids)
  }

  /** The call a slice of ids becomes. */
  function MoveRequest(ids: seq<MessageId>, warmingLabelId: LabelId): BatchModifyRequest {
    BatchModifyRequest(ids, [Inbox], [warmingLabelId])
  }

  /**
   `update_labels`: one call per slice, in order; afterwards exactly the listed
   messages have lost "INBOX" and gained the warming label, and every other
   message keeps its labels.
   */
  function UpdateLabels(mb: Mailbox, ids: seq<MessageId>, warmingLabelId: LabelId): (r: UpdateOutcome)
    ensures |r.calls| == (|ids| + MaxIdsPerCall - 1) / MaxIdsPerCall
    ensures |ids| == 0 ==> r.calls == []
    ensures forall k :: 0 <= k < |r.calls| ==>
      && 0 < |r.calls[k].ids| <= MaxIdsPerCall
      && r.calls[k].removeLabelIds == [Inbox]
      && r.calls[k].addLabelIds == [warmingLabelId]
    ensures forall k :: 0 <= k < |r.calls| - 1 ==> |r.calls[k].ids| == MaxIdsPerCall
    ensures Flatten(CallIds(r.calls)) == ids
    ensures r.mailbox.Keys == mb.Keys
    ensures forall m :: m in mb && m in ids ==> r.mailbox[m] == Relabel(mb[m], warmingLabelId)
    ensures forall m :: m in mb && m !in ids ==> r.mailbox[m] == mb[m]
    ensures warmingLabelId != Inbox ==>
      forall m :: m in mb && m in ids ==> warmingLabelId in r.mailbox[m] && Inbox !in r.mailbox[m]
  {
    var chunks := Chunks(ids);
    var calls := seq(|chunks|, k requires 0 <= k < |chunks| => MoveRequest(chunks[k], warmingLabelId));
    assert CallIds(calls) == chunks;
    ApplyMoves(mb, chunks, warmingLabelId);
    UpdateOutcome(calls, ApplyAll(mb, calls))
  }

  /** Relabelling twice is relabelling once. */
  lemma RelabelIdempotent(labels: set<LabelId>, warmingLabelId: LabelId)
    ensures Relabel(Relabel(labels, warmingLabelId), warmingLabelId) == Relabel(labels, warmingLabelId)
  {
  }

  /** Issuing one move call per slice moves exactly the messages of all slices. */
  lemma {:induction false} ApplyMoves(mb: Mailbox, chunks: seq<seq<MessageId>>, warmingLabelId: LabelId)
    ensures var calls := seq(|chunks|, k requires 0 <= k < |chunks| => MoveRequest(chunks[k], warmingLabelId));
      var r := ApplyAll(mb, calls);
      && r.Keys == mb.Keys
      && forall m :: m in mb ==> r[m] == if m in Flatten(chunks) then Relabel(mb[m], warmingLabelId) else mb[m]
    decreases |chunks|
  {
    var calls := seq(|chunks|, k requires 0 <= k < |chunks| => MoveRequest(chunks[k], warmingLabelId));
    if |chunks| > 0 {
      var first := BatchModify(mb, calls[0]);
      assert calls[0] == MoveRequest(chunks[0], warmingLabelId);
      assert forall m :: m in mb ==> first[m] == if m in chunks[0] then Relabel(mb[m], warmingLabelId) else mb[m];
      var restCalls := seq(|chunks[1..]|, k requires 0 <= k < |chunks[1..]| => MoveRequest(chunks[1..][k], warmingLabelId));
      assert calls[1..] == restCalls;
      ApplyMoves(first, chunks[1..], warmingLabelId);
      forall m | m in mb
        ensures m in Flatten(chunks) <==> m in chunks[0] || m in Flatten(chunks[1..])
      {
      }
      forall m | m in mb && m in chunks[0]
        ensures Relabel(first[m], warmingLabelId) == Relabel(mb[m], warmingLabelId)
      {
        RelabelIdempotent(mb[m], warmingLabelId);
      }
    }
  }

}
