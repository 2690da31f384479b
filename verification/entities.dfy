/** The records of the app: the three Room entities (`CallEntity`,
    `MessageEntity`, `ContactEntity`) and the three list items the screens show
    (`CallLogEntry`, `MessageEntry`, `ContactEntry`). Kotlin's `Long`/`Int` are
    unbounded `int`s here; `String?` is `Option<string>`. The clock-derived
    `syncTimestamp` column is not part of the model. */
module Entities {
  import opened Wrappers

  // Call type codes (`CallLogEntry.TYPE_*`, the provider's `CallLog.Calls.TYPE`).
  const TYPE_INCOMING := 1
  const TYPE_OUTGOING := 2
  const TYPE_MISSED := 3
  const TYPE_VOICEMAIL := 4
  const TYPE_REJECTED := 5
  const TYPE_BLOCKED := 6

  // Message type codes (`MessageEntry.TYPE_*`, the provider's `Telephony.Sms.TYPE`).
  const TYPE_INBOX := 1
  const TYPE_SENT := 2
  const TYPE_DRAFT := 3
  const TYPE_OUTBOX := 4
  const TYPE_FAILED := 5
  const TYPE_QUEUED := 6

  /** The `type` of a merged row whose most recent activity is a message. */
  const MESSAGE_ONLY_TYPE := -1

  /** A row of the `calls` table, primary key `id`. */
  datatype CallEntity = CallEntity(
    id: string,
    number: string,
    normalizedNumber: string,
    name: Option<string>,
    typeCode: int,
    date: int,
    duration: int,
    isContactSaved: bool)

  /** A row of the `messages` table, primary key `id`. */
  datatype MessageEntity = MessageEntity(
    id: string,
    address: string,
    normalizedAddress: string,
    name: Option<string>,
    typeCode: int,
    date: int,
    body: string,
    isContactSaved: bool,
    read: bool)

  /** A row of the `contacts` table. The table's unique index on `contactId`
      decides replacement, so the row is identified by `contactId`; the
      auto-generated surrogate `id` is not modelled. */
  datatype ContactEntity = ContactEntity(
    contactId: int,
    name: Option<string>,
    phoneNumber: Option<string>,
    email: Option<string>,
    photoUri: Option<string>,
    lastUpdatedTimestamp: int,
    timesContacted: int,
    lastTimeContacted: int)

  /** A call as the screens show it: either one call, or the merged summary of a
      number (then `id` is the normalised number and the counts are totals). */
  datatype CallLogEntry = CallLogEntry(
    id: string,
    number: string,
    name: Option<string>,
    typeCode: int,
    date: int,
    duration: int,
    isContactSaved: bool,
    callCount: int,
    messageCount: int)

  datatype MessageEntry = MessageEntry(
    id: string,
    number: string,
    name: Option<string>,
    typeCode: int,
    date: int,
    body: string,
    isContactSaved: bool,
    messageCount: int,
    read: bool)

  datatype ContactEntry = ContactEntry(
    id: int,
    name: Option<string>,
    phoneNumber: Option<string>,
    email: Option<string>,
    photoUri: Option<string>,
    lastUpdatedTimestamp: int,
    timesContacted: int,
    lastTimeContacted: int)

  /** `CallLogEntry(...)` with the constructor defaults: `callCount = 1`, and no messages. */
  function SingleCall(id: string, number: string, name: Option<string>, typeCode: int,
                      date: int, duration: int, isContactSaved: bool): CallLogEntry
  {
    CallLogEntry(id, number, name, typeCode, date, duration, isContactSaved, 1, 0)
  }

  /** `MessageEntry(...)` with the constructor default `messageCount = 1`. */
  function SingleMessage(id: string, number: string, name: Option<string>, typeCode: int,
                         date: int, body: string, isContactSaved: bool, read: bool): MessageEntry
  {
    MessageEntry(id, number, name, typeCode, date, body, isContactSaved, 1, read)
  }

  // Primary-key extractors, passed to the generic table operations.
  function CallId(c: CallEntity): string { c.id }
  function MessageId(m: MessageEntity): string { m.id }
  function ContactKey(c: ContactEntity): int { c.contactId }

  // Column accessors used as `ORDER BY` / `GROUP BY` / `MAX` arguments.
  function CallDate(c: CallEntity): int { c.date }
  function CallDuration(c: CallEntity): int { c.duration }
  function CallType(c: CallEntity): int { c.typeCode }
  function CallKey(c: CallEntity): string { c.normalizedNumber }
  function MessageDate(m: MessageEntity): int { m.date }
  function MessageType(m: MessageEntity): int { m.typeCode }
  function MessageKey(m: MessageEntity): string { m.normalizedAddress }
  function ContactUpdated(c: ContactEntity): int { c.lastUpdatedTimestamp }
}
