/**
 The two drivers around the classifier: one pass over a listed page (the body
 of the hourly inbox loop, and the work done for each page of the historical
 sweep), and the page-token loop of the historical sweep. Listing responses are
 given as data; clocks, sleeps and progress reporting are not modelled.
 */
module Sweep {
  import opened Wrappers
  import opened Gmail
  import opened Text
  import opened Classifier
  import opened Schedule
  import opened Checking
  import opened Relabeling

  /** One response of the message listing call: its `messages` (empty when absent) and `nextPageToken`. */
  datatype Page = Page(messages: seq<MessageId>, nextPageToken: Option<string>)

  /** The ids moved out of the inbox by one pass, and the mailbox afterwards. */
  datatype PassOutcome = PassOutcome(cleared: seq<MessageId>, mailbox: Mailbox)

  /** The message `m` is reported as warming by one of the ids of `messages` the schedule executes. */
  ghost predicate PageSelects(messages: seq<MessageId>, fetch: MessageId -> FetchResult, m: MessageId) {
    exists i :: 0 <= i < CoveredEnd(|messages|) && Reports(fetch(messages[i]), m)
  }

  /** `after` is `mb` with exactly the messages selected on the page moved out of the inbox. */
  ghost predicate MovedByPage(mb: Mailbox, after: Mailbox, messages: seq<MessageId>, fetch: MessageId -> FetchResult, warmingLabelId: LabelId) {
    && after.Keys == mb.Keys
    && forall m :: m in mb ==>
      after[m] == if PageSelects(messages, fetch, m) then Relabel(mb[m], warmingLabelId) else mb[m]
  }

  /**
   One pass: `get_ids_to_update` on the listed ids, then `update_labels` on the
   result. Exactly the selected messages are moved; `cleared` is what the
   summary line counts.
   */
  function ClearPage(mb: Mailbox, messages: seq<MessageId>, fetch: MessageId -> FetchResult, warmingLabelId: LabelId): (r: PassOutcome)
    ensures forall m :: m in r.cleared <==> PageSelects(messages, fetch, m)
    ensures MovedByPage(mb, r.mailbox, messages, fetch, warmingLabelId)
  {
    var ids := GetIdsToUpdate(messages, fetch);
    PassOutcome(ids, UpdateLabels(mb, ids, warmingLabelId).mailbox)
  }

  /**
   How many listing responses the historical sweep consumes: pages are read
   while the previous one carried a `nextPageToken`.
   */
  function VisitedCount(pages: seq<Page>): (r: nat)
    ensures r <= |pages|
    ensures |pages| > 0 ==> r > 0
    ensures forall p :: 0 <= p < r - 1 ==> pages[p].nextPageToken.Some?
    ensures 0 < r < |pages| ==> pages[r - 1].nextPageToken.None?
    decreases |pages|
  {
    if |pages| == 0 then 0
    else if pages[0].nextPageToken.None? then 1
    else
      var rest := VisitedCount(pages[1..]);
      assert forall p :: 1 <= p < rest + 1 ==> pages[p] == pages[1..][p - 1];
      1 + rest
  }

  /** The message `m` is selected on one of the pages the sweep visits. */
  ghost predicate SweepSelects(pages: seq<Page>, fetch: MessageId -> FetchResult, m: MessageId) {
    exists p :: 0 <= p < VisitedCount(pages) && PageSelects(pages[p].messages, fetch, m)
  }

  /** `after` is `mb` with exactly the messages selected on the visited pages moved out of the inbox. */
  ghost predicate MovedBySweep(mb: Mailbox, after: Mailbox, pages: seq<Page>, fetch: MessageId -> FetchResult, warmingLabelId: LabelId) {
    && after.Keys == mb.Keys
    && forall m :: m in mb ==>
      after[m] == if SweepSelects(pages, fetch, m) then Relabel(mb[m], warmingLabelId) else mb[m]
  }

  /**
   `process_historical_messages`: one pass per listed page, following the page
   tokens. A message ends up moved iff some visited page selects it; the rest
   of the mailbox is unchanged.
   */
  function ProcessHistoricalMessages(mb: Mailbox, pages: seq<Page>, fetch: MessageId -> FetchResult, warmingLabelId: LabelId): (r: Mailbox)
    ensures MovedBySweep(mb, r, pages, fetch, warmingLabelId)
    decreases |pages|
  {
    if |pages| == 0 then mb
    else
      var first := ClearPage(mb, pages[0].messages, fetch, warmingLabelId).mailbox;
      if pages[0].nextPageToken.None? then
        SweepLastPage(mb, first, pages, fetch, warmingLabelId);
        first
      else
        var r := ProcessHistoricalMessages(first, pages[1..], fetch, warmingLabelId);
        SweepStep(mb, first, r, pages, fetch, warmingLabelId);
        r
  }

  /** A page without a token is the last one the sweep visits. */
  lemma SweepLastPage(mb: Mailbox, first: Mailbox, pages: seq<Page>, fetch: MessageId -> FetchResult, warmingLabelId: LabelId)
    requires |pages| > 0 && pages[0].nextPageToken.None?
    requires MovedByPage(mb, first, pages[0].messages, fetch, warmingLabelId)
    ensures MovedBySweep(mb, first, pages, fetch, warmingLabelId)
  {
    assert VisitedCount(pages) == 1;
    forall m | m in mb
      ensures SweepSelects(pages, fetch, m) <==> PageSelects(pages[0].messages, fetch, m)
    {
    }
  }

  /** One page moved into `first`, then the remaining sweep into `r`: together, the sweep of all pages. */
  lemma SweepStep(mb: Mailbox, first: Mailbox, r: Mailbox, pages: seq<Page>, fetch: MessageId -> FetchResult, warmingLabelId: LabelId)
    requires |pages| > 0 && pages[0].nextPageToken.Some?
    requires MovedByPage(mb, first, pages[0].messages, fetch, warmingLabelId)
    requires MovedBySweep(first, r, pages[1..], fetch, warmingLabelId)
    ensures MovedBySweep(mb, r, pages, fetch, warmingLabelId)
  {
    forall m | m in mb
      ensures r[m] == if SweepSelects(pages, fetch, m) then Relabel(mb[m], warmingLabelId) else mb[m]
    {
      SweepSelectsStep(pages, fetch, m);
      RelabelIdempotent(mb[m], warmingLabelId);
    }
  }

  /** Past a page with a token, the sweep selects what that page or the remaining sweep selects. */
  lemma SweepSelectsStep(pages: seq<Page>, fetch: MessageId -> FetchResult, m: MessageId)
    requires |pages| > 0 && pages[0].nextPageToken.Some?
    ensures SweepSelects(pages, fetch, m)
      <==> PageSelects(pages[0].messages, fetch, m) || SweepSelects(pages[1..], fetch, m)
  {
    if SweepSelects(pages, fetch, m) {
      var p :| 0 <= p < VisitedCount(pages) && PageSelects(pages[p].messages, fetch, m);
      if p > 0 {
        assert pages[1..][p - 1] == pages[p];
      }
    }
    if SweepSelects(pages[1..], fetch, m) {
      var p :| 0 <= p < VisitedCount(pages[1..]) && PageSelects(pages[1..][p].messages, fetch, m);
      assert pages[p + 1] == pages[1..][p];
    }
  }

  /** A message whose subject is `subject`, with its own id. */
  function MessageWithSubject(id: MessageId, subject: string): Message {
    Message(Some(id), [Header(SubjectName, subject)])
  }

  /** Three inbox messages; the first and the last carry the tag in their subject. */
  function ScenarioFetch(id: MessageId): FetchResult {
    if id == "A" then Fetched(MessageWithSubject("A", "Re: hello YCEWFAF"))
    else if id == "C" then Fetched(MessageWithSubject("C", "YCEWFAF weekly"))
    else Fetched(MessageWithSubject(id, "Lunch tomorrow"))
  }

  /** In the scenario, A is a warming message. */
  lemma ScenarioA()
    ensures Reports(ScenarioFetch("A"), "A")
  {
    var subject := "Re: hello YCEWFAF";
    OnlyFirstSubjectCounts(ScenarioFetch("A").message, [], subject, []);
    assert subject[10..17] == TwineTag;
    assert OccursAt(TwineTag, subject, 10);
  }

  /** In the scenario, B is not a warming message. */
  lemma ScenarioB()
    ensures !Recorded(ScenarioFetch("B"))
  {
    var subject := "Lunch tomorrow";
    OnlyFirstSubjectCounts(ScenarioFetch("B").message, [], subject, []);
    assert TwineTag[0] !in subject;
    FirstCharAbsent(TwineTag, subject);
  }

  /** In the scenario, C is a warming message. */
  lemma ScenarioC()
    ensures Reports(ScenarioFetch("C"), "C")
  {
    var subject := "YCEWFAF weekly";
    OnlyFirstSubjectCounts(ScenarioFetch("C").message, [], subject, []);
    assert subject[0..7] == TwineTag;
    assert OccursAt(TwineTag, subject, 0);
  }

  /** On the inbox page `[A, B, C]` where A and C are tagged, the pass clears A and C, in that order. */
  lemma InboxScenario(mb: Mailbox, warmingLabelId: LabelId)
    ensures ClearPage(mb, ["A", "B", "C"], ScenarioFetch, warmingLabelId).cleared == ["A", "C"]
  {
    var ids: seq<MessageId> := ["A", "B", "C"];
    assert CoveredEnd(|ids|) == 3;
    assert ids[..3] == ids;
    ScenarioA();
    ScenarioB();
    ScenarioC();
    assert ids[1..] == ["B", "C"];
    assert ids[2..] == ["C"];
    assert WarmingIds(ids[2..], ScenarioFetch) == ["C"] by {
      assert ids[2..][1..] == [];
    }
    assert WarmingIds(ids[1..], ScenarioFetch) == ["C"] by {
      assert ids[1..][1..] == ids[2..];
    }
    assert WarmingIds(ids, ScenarioFetch) == ["A", "C"];
  }

}
