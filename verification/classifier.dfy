/**
 The subject-line classifier: the batch callback that decides, for one fetched
 message, whether its id goes into the result collection.
 */
module Classifier {
  import opened Wrappers
  import opened Gmail
  import opened Text

  /** The marker the warming service puts in the subjects of its messages. */
  const TwineTag: string := "YCEWFAF"

  /** The only header name the classifier looks at, compared exactly. */
  const SubjectName: string := "Subject"

  /** Position `k` holds the first header named exactly "Subject". */
  ghost predicate IsFirstSubject(headers: seq<Header>, k: int) {
    && 0 <= k < |headers|
    && headers[k].name == SubjectName
    && forall j :: 0 <= j < k ==> headers[j].name != SubjectName
  }

  /** No header is named exactly "Subject". */
  ghost predicate NoSubject(headers: seq<Header>) {
    forall k :: 0 <= k < |headers| ==> headers[k].name != SubjectName
  }

  /** A message is a warming message iff its first "Subject" header contains the tag. */
  ghost predicate IsWarming(m: Message) {
    exists k :: IsFirstSubject(m.headers, k) && IsSubstring(TwineTag, m.headers[k].value)
  }

  /** The response carries a message that the classifier records. */
  ghost predicate Recorded(response: FetchResult) {
    response.Fetched? && IsWarming(response.message)
  }

  /** The value of the first "Subject" header, if there is one. */
  function FirstSubject(headers: seq<Header>): (r: Option<string>)
    ensures r.None? <==> NoSubject(headers)
    ensures r.Some? ==> exists k :: IsFirstSubject(headers, k) && headers[k].value == r.value
  {
    if |headers| == 0 then
      None
    else if headers[0].name == SubjectName then
      assert IsFirstSubject(headers, 0);
      Some(headers[0].value)
    else
      var r := FirstSubject(headers[1..]);
      assert r.Some? ==> exists k :: IsFirstSubject(headers, k) && headers[k].value == r.value by {
        if r.Some? {
          var k :| IsFirstSubject(headers[1..], k) && headers[1..][k].value == r.value;
          assert IsFirstSubject(headers, k + 1);
        }
      }
      assert NoSubject(headers[1..]) ==> NoSubject(headers) by {
        if NoSubject(headers[1..]) {
          forall k | 0 <= k < |headers| ensures headers[k].name != SubjectName {
            if k > 0 {
              assert headers[k] == headers[1..][k - 1];
            }
          }
        }
      }
      r
  }

  /** The first "Subject" header is unique. */
  lemma FirstSubjectUnique(headers: seq<Header>, k: int, k': int)
    requires IsFirstSubject(headers, k) && IsFirstSubject(headers, k')
    ensures k == k'
  {
  }

  /**
   The batch callback: a response with an exception is skipped; otherwise the
   message id is appended iff the first "Subject" header contains the tag.
   */
  function CheckIfMessageIsWarming(response: FetchResult, results: seq<Option<MessageId>>): (r: seq<Option<MessageId>>)
    ensures response.Failed? ==> r == results
    ensures Recorded(response) ==> r == results + [response.message.id]
    ensures !Recorded(response) ==> r == results
  {
    match response
    case Failed(_) => results
    case Fetched(m) =>
      match FirstSubject(m.headers)
      case None => results
      case Some(subject) =>
        if Contains(subject, TwineTag) then results + [m.id] else results
  }

  /**
   Only the first "Subject" header counts: whatever precedes it is not a
   subject and whatever follows it is ignored.
   */
  lemma OnlyFirstSubjectCounts(m: Message, before: seq<Header>, subject: string, after: seq<Header>)
    requires m.headers == before + [Header(SubjectName, subject)] + after
    requires NoSubject(before)
    ensures IsWarming(m) <==> IsSubstring(TwineTag, subject)
  {
    var k := |before|;
    assert m.headers[k] == Header(SubjectName, subject);
    assert IsFirstSubject(m.headers, k);
    if IsWarming(m) {
      var k' :| IsFirstSubject(m.headers, k') && IsSubstring(TwineTag, m.headers[k'].value);
      FirstSubjectUnique(m.headers, k, k');
    }
  }

}
