/**
 The vocabulary of the remote mail service as the warming filter sees it:
 message and label identifiers, fetched message resources, label records and
 the per-message label sets that the filter mutates. The remote service itself
 is not modelled; its state is plain data handed to pure functions.
 */
module Gmail {
  import opened Wrappers

  type MessageId = string
  type LabelId = string

  /** One entry of `payload.headers` of a fetched message. */
  datatype Header = Header(name: string, value: string)

  /**
   A fetched message resource. `id` is the resource's own `id` field; it is
   an `Option` because the result collection of the filter is screened for
   `None` entries before use.
   */
  datatype Message = Message(id: Option<MessageId>, headers: seq<Header>)

  /** What the batch callback receives for one request: a response, or an exception. */
  datatype FetchResult = Fetched(message: Message) | Failed(exception: string)

  /** A label record as returned by the label listing call. */
  datatype Label = Label(id: LabelId, name: string, labelListVisibility: string, messageListVisibility: string)

  /** The labels each message of the account currently carries. */
  type Mailbox = map<MessageId, set<LabelId>>

  /** The system label that puts a message in the inbox. */
  const Inbox: LabelId := "INBOX"

}
