/** What one row of the detail screen's history shows. A row is either a call,
    showing its duration, or a message, showing its body; the label names the
    call type or the message box. */
module CallHistoryAdapter {
  import opened Wrappers
  import opened Entities
  import opened Durations
  import opened History
  import CallLogAdapter

  /** The labels of message boxes 1 to 6, in type-code order. */
  const MESSAGE_TYPE_LABELS: seq<string> :=
    ["Received", "Sent", "Draft", "Outbox", "Failed", "Queued"]

  /** The message-box label. */
  function MessageTypeLabel(code: int): (text: string)
    ensures 1 <= code <= 6 ==> text == MESSAGE_TYPE_LABELS[code - 1]
    ensures !(1 <= code <= 6) ==> text == "Message"
  {
    if code == TYPE_INBOX then "Received"
    else if code == TYPE_SENT then "Sent"
    else if code == TYPE_DRAFT then "Draft"
    else if code == TYPE_OUTBOX then "Outbox"
    else if code == TYPE_FAILED then "Failed"
    else if code == TYPE_QUEUED then "Queued"
    else "Message"
  }

  /** Reading a message label back: the box it names, if it names one. */
  function MessageTypeOfLabel(text: string): (code: Option<int>)
    ensures code.Some? ==> 1 <= code.value <= 6 && MESSAGE_TYPE_LABELS[code.value - 1] == text
    ensures code.None? ==> text !in MESSAGE_TYPE_LABELS
  {
    if text == "Received" then Some(1)
    else if text == "Sent" then Some(2)
    else if text == "Draft" then Some(3)
    else if text == "Outbox" then Some(4)
    else if text == "Failed" then Some(5)
    else if text == "Queued" then Some(6)
    else None
  }

  /** Every known box reads back as itself; every other code shows the one
      label that names no box. */
  lemma MessageTypeLabelRoundTrip(code: int)
    ensures 1 <= code <= 6 ==> MessageTypeOfLabel(MessageTypeLabel(code)) == Some(code)
    ensures !(1 <= code <= 6) ==> MessageTypeOfLabel(MessageTypeLabel(code)).None?
  {
  }

  /** The label of a history row: the call type for a call, the box for a
      message. */
  function ItemLabel(x: HistoryItem): (text: string)
    ensures x.CallItem? ==> text == CallLogAdapter.CallTypeLabel(x.call.typeCode)
    ensures x.MessageItem? ==> text == MessageTypeLabel(x.message.typeCode)
  {
    match x
    case CallItem(c) => CallLogAdapter.CallTypeLabel(c.typeCode)
    case MessageItem(m) => MessageTypeLabel(m.typeCode)
  }

  /** No call label is a message label, so the label alone tells a call row
      from a message row. */
  lemma LabelTellsKind(x: HistoryItem, y: HistoryItem)
    requires ItemLabel(x) == ItemLabel(y)
    ensures x.CallItem? <==> y.CallItem?
  {
  }

  /** The call duration on a history row: `"0 sec"` for zero, otherwise the
      largest non-zero unit first. */
  function FormatDuration(seconds: int): (text: string)
    ensures seconds == 0 <==> text == "0 sec"
    ensures seconds != 0 ==> text == HmsText(seconds)
  {
    if seconds == 0 then "0 sec" else HmsText(seconds)
  }

  /** What a bound row shows: its label, and either a duration or a body. */
  datatype Row = Row(caption: string, durationText: Option<string>, body: Option<string>)

  /** `bind`: a call shows its duration and hides the body; a message hides the
      duration and shows its body. */
  function Bind(x: HistoryItem): (r: Row)
    ensures r.caption == ItemLabel(x)
    ensures r.durationText.Some? <==> x.CallItem?
    ensures r.body.Some? <==> x.MessageItem?
    ensures x.CallItem? ==> r.durationText == Some(FormatDuration(x.call.duration))
    ensures x.MessageItem? ==> r.body == Some(x.message.body)
  {
    match x
    case CallItem(c) => Row(ItemLabel(x), Some(FormatDuration(c.duration)), None)
    case MessageItem(m) => Row(ItemLabel(x), None, Some(m.body))
  }

  /** Exactly one of the duration and the body is visible, and which one says
      what the row is. */
  lemma BindShowsOneField(x: HistoryItem)
    ensures Bind(x).durationText.Some? != Bind(x).body.Some?
  {
  }

  /** `areItemsTheSame`: two rows are the same row only when they are of one
      kind and their ids agree. */
  predicate SameItem(a: HistoryItem, b: HistoryItem) {
    match (a, b)
    case (CallItem(c), CallItem(d)) => c.id == d.id
    case (MessageItem(m), MessageItem(n)) => m.id == n.id
    case _ => false
  }

  /** `areContentsTheSame`: unchanged only when of one kind and equal. */
  predicate SameContents(a: HistoryItem, b: HistoryItem) {
    match (a, b)
    case (CallItem(c), CallItem(d)) => c == d
    case (MessageItem(m), MessageItem(n)) => m == n
    case _ => false
  }

  /** A call and a message are never the same row, whatever their ids; an
      unchanged row is the same row; and the contents rule is plain equality. */
  lemma DiffRules(a: HistoryItem, b: HistoryItem)
    ensures a.CallItem? != b.CallItem? ==> !SameItem(a, b) && !SameContents(a, b)
    ensures SameContents(a, b) ==> SameItem(a, b)
    ensures SameContents(a, b) <==> a == b
  {
  }
}
