# Warming-email filter: a Dafny model of its decision and batching logic

The filter scans a Gmail inbox for automated "warming" messages and moves them
out of the inbox into a "Warming" label. A warming message is one whose subject
carries the tag `YCEWFAF`. Everything in `main.py` that is not Gmail-client
plumbing is modelled here as pure functions over plain data:

- the subject classifier run as the callback of each fetched message;
- the micro-batch schedule of `check_messages`;
- the `None` filter of `get_ids_to_update`;
- the standalone body classifier `check_body_for_warming`;
- the 1000-id chunking of `update_labels` and its effect on a mailbox;
- the get-or-create of the "Warming" label;
- the page-token loop of the historical sweep and one pass of the hourly inbox loop.

The remote service is replaced by data:

- a mailbox is a map from message id to its set of label ids;
- the label store is a sequence of label records;
- `messages.get` is a parameter `fetch: MessageId -> FetchResult`, whose result is either the message resource or the exception handed to the callback;
- listing responses are given as a sequence of pages;
- a created label's id, chosen by the service, is a parameter.

Files, one module each:

| file | module | models |
|---|---|---|
| `wrappers.dfy` | `Wrappers` | `Option`, standing for Python's `None` |
| `gmail.dfy` | `Gmail` | message/label ids, headers, message resources, fetch results, label records, the mailbox map, `INBOX` |
| `text.dfy` | `Text` | Python's `needle in hay` on strings |
| `classifier.dfy` | `Classifier` | `check_if_message_is_warming` and `TWINE_TAG` |
| `body.dfy` | `Body` | `check_body_for_warming` |
| `schedule.dfy` | `Schedule` | the flush schedule of `check_messages` (batches of 30) |
| `checking.dfy` | `Checking` | `check_messages` and `get_ids_to_update` |
| `labels.dfy` | `Labels` | `add_warming_label_if_not_present` |
| `relabeling.dfy` | `Relabeling` | `update_labels` and the effect of `batchModify` |
| `sweep.dfy` | `Sweep` | `process_historical_messages` and one iteration of the loop in `main` |

## Model

| member | source | states |
|---|---|---|
| Text.Contains | main.py:250 | The left-to-right scan answers true iff the tag occurs at some offset of the subject (Python's `in`; the empty tag occurs everywhere). |
| Classifier.FirstSubject | main.py:248-249 | Returns nothing iff no header is named exactly "Subject"; otherwise returns the value of the first such header. |
| Classifier.CheckIfMessageIsWarming | main.py:230-253 | A response with an exception leaves the results unchanged. Otherwise the message id is appended iff the first "Subject" header contains the tag; nothing else changes. |
| Classifier.OnlyFirstSubjectCounts | main.py:248-253 | With no "Subject" before a given "Subject" header, the message is warming iff that header's value contains the tag, whatever later "Subject" headers say. |
| Body.CheckBodyForWarming | main.py:173-189 | True iff some part of type text/plain or text/html has decoded data containing the tag. Other parts are ignored, so an empty part list gives false. |
| Schedule.CheckMessagesSchedule | main.py:209-226 | The loop's flushes equal the closed-form schedule: `[0]`, then `30k-29 .. 30k` per in-loop flush, then `PendingStart .. n` only when `n % 30 != 0`. |
| Schedule.ExecutedTiles | main.py:209-226 | The executed batches lie back to back from index 0 up to `CoveredEnd(n)`. |
| Schedule.ExecutedShape | main.py:217-226 | The trailing flush happens iff `n % 30 != 0`. The first batch is `[ids[0]]`. No batch holds more than 30 ids. |
| Schedule.FlushIndices | main.py:217-218 | An in-loop flush happens at index `i` iff `i % 30 == 0`. |
| Schedule.EveryIdCheckedOnce | main.py:209-226 | When `n % 30 != 0`, every index lies in exactly one executed batch. |
| Schedule.TailNeverChecked | main.py:225-226 | When `n` is a positive multiple of 30, indices `n-29 .. n-1` lie in no executed batch. |
| Schedule.FixedEveryIdCheckedOnce | main.py:225-226 | With the trailing flush done whenever the open batch is non-empty, the batches tile `0 .. n`: every index is in exactly one non-empty batch of at most 30. |
| Checking.CheckMessages | main.py:192-227 | The result is, in order, what the classifier records for the ids before `CoveredEnd(n)`. For a positive multiple of 30, that leaves out the last 29 ids. |
| Checking.CheckMessagesCoversAll | main.py:225-227 | When `n % 30 != 0`, the result is what the classifier records for every id, in order. |
| Checking.CheckMessagesFixed | main.py:192-227 | With the corrected trailing flush, the result is what the classifier records for every id, in order. |
| Checking.DropNone | main.py:56 | Keeps exactly the non-`None` values and never lengthens the list. |
| Checking.DropNoneConcat | main.py:56 | The filter preserves order: filtering a concatenation is the concatenation of the filtered parts. |
| Checking.GetIdsToUpdate | main.py:44-57 | Returns the ids of the warming messages among the executed ids, in order. An id is returned iff a successfully fetched message among those ids is warming and has that id. |
| Checking.GetIdsToUpdateFixed | main.py:44-57 | Over the corrected schedule, returns the warming ids of the whole list, in order. |
| Checking.WarmingIdsMembership | main.py:243-253 | An id is among the warming ids of a list iff some message of the list was fetched without an exception, is warming, and has that id. A failed fetch contributes nothing. |
| Checking.ThirtyWarmingMessagesOnlyFirstKept | main.py:217-226 | Thirty warming messages: as written only the first id comes back; with the corrected flush all thirty do. |
| Labels.FindNamedFrom | main.py:98-100 | Finds nothing iff no label has the name; otherwise finds the position of the first label with that name. |
| Labels.AddWarmingLabelIfNotPresent | main.py:84-121 | If a "Warming" label exists, returns the first one's id and leaves the store unchanged. Otherwise appends exactly one "Warming" label (visibility labelHide / show) with the new id and returns that id. |
| Labels.SetupIdempotent | main.py:96-121 | A second call returns the same id and leaves the store as the first call left it. |
| Labels.SetupCreatesAtMostOne | main.py:101-119 | The number of "Warming" labels goes from 0 to 1 and otherwise stays the same. |
| Labels.TwoSetupsLeaveExactlyOne | main.py:96-121 | Starting without a "Warming" label, two calls return the same, newly created id and leave exactly one "Warming" label. |
| Relabeling.Chunks | main.py:72-77 | The slices concatenate back to the input. Each is non-empty with at most 1000 ids, all but the last have exactly 1000, and there are ceil(n/1000) of them. |
| Relabeling.UpdateLabels | main.py:60-81 | Issues ceil(n/1000) calls, none for n = 0. Each call removes INBOX and adds the warming label on a non-empty slice of at most 1000 ids, and the slices concatenate to the input. Afterwards listed messages lack INBOX and carry the warming label; unlisted messages and all other labels are unchanged. |
| Sweep.ClearPage | main.py:319-322 | One pass moves exactly the messages reported warming among the executed ids of the page and leaves the rest of the mailbox unchanged. Its cleared list holds exactly those ids. |
| Sweep.VisitedCount | main.py:149-169 | The sweep reads at least the first page, keeps reading while the previous page had a `nextPageToken`, and stops after the first page without one. |
| Sweep.ProcessHistoricalMessages | main.py:124-170 | A message ends up moved iff some visited page selects it; every other message keeps its labels. |
| Sweep.InboxScenario | main.py:315-322 | On the inbox page `[A, B, C]` where only A and C carry the tag, the pass clears `[A, C]`. |

## Left out

- OAuth and credential handling (`service_factory`, `google_login`, writing `credentials.json` in `main`): library calls and file I/O.
- Argument parsing and the branching in `main`: plumbing. So are `tqdm` progress and the `print` calls.
- Throttling in `check_messages` (main.py:221-224) and the hourly sleep (main.py:313-327): they depend on wall-clock time and floats.
  - main.py:327 does not floor the sleep at zero. An iteration longer than 3600 s would pass a negative duration to `time.sleep`, which raises `ValueError`, so the poll loop would end with an error.
- Base64url and UTF-8 decoding in `check_body_for_warming`: a total function parameter. A decoding error, which raises in Python, is not modelled.
- Missing dictionary keys: responses are assumed well formed. Absent `payload`, `headers`, `body.data` or `mimeType` would raise `KeyError` in Python.
- Errors raised by `messages.list`, `labels.list`, `labels.create`, `batchModify` and by `batch.execute()` in `check_messages` (main.py:218, 226): not modelled. They propagate and end the process. The model assumes that every executed micro-batch calls back once per request.
- The list queries themselves are not modelled: the `after:` date (120 days back, though the docstring says 90), `maxResults=500` and the `INBOX` filter. Page contents are given as data.
- Consistency of `fetch`: the model does not assume that a fetched message's `id` equals the requested id. Lemmas that need it state it as a hypothesis.
- Sending an empty batch: when `n % 30 == 1` the trailing `batch.execute()` runs on an empty batch. The client library sends nothing then, and the model shows it as an empty span.
- `batchModify` on an id that the mailbox map does not hold: modelled as ignored.
- The hourly loop in `main` lists only the first inbox page; it never follows `nextPageToken`. It is modelled as one `Sweep.ClearPage` pass, and the endless repetition is not modelled.
- Sweep.VisitedCount: pages are a finite sequence. If every given page carries a token, the model stops at the end of the data, where the real loop would keep listing.
- Only the ids in executed micro-batches are classified (see Findings); the model states exactly which ids those are.

## Findings

| source | as written | input that shows it | evidently intended | confidence | as-written member | corrected member |
|---|---|---|---|---|---|---|
| main.py:217-226 | The open batch is executed after the loop only when `len(message_ids) % 30 != 0`. Because the in-loop flush runs at `i % 30 == 0`, the batch is never empty when `n` is a positive multiple of 30. | 30 warming message ids: ids 1..29 are added to a batch that is never executed, so only `ids[0]` is returned and relabelled. | Execute the open batch whenever it still holds requests, so that every listed id is classified. | high (proved in the model; not executed) | Checking.ThirtyWarmingMessagesOnlyFirstKept | Checking.GetIdsToUpdateFixed |

The pipeline (`Checking.GetIdsToUpdate`, `Sweep.ClearPage`, `Sweep.ProcessHistoricalMessages`) models the code as written. Only the corrected
member and `Checking.CheckMessagesFixed` use the corrected schedule `Schedule.FixedExecuted`.
