/** `CommunicationRepository`: the first full import of the call log and the
    SMS store, the "contact saved" rule it applies, the detailed history of one
    number, and the observer registry. */
module CommunicationRepository {
  import opened Wrappers
  import opened Entities
  import opened PhoneNumber
  import opened Seqs
  import opened Sorting
  import opened Tables
  import opened Provider
  import opened Debounce
  import opened History
  import CallDao
  import MessageDao

  // ---- The contact-saved rule ----

  /** A normalised number counts as a saved contact when some contact key
      occurs in it or it occurs in some contact key. */
  predicate ContactSaved(normalized: string, contactNumbers: set<string>): (saved: bool)
    ensures contactNumbers == {} ==> !saved
    ensures normalized in contactNumbers ==> saved
  {
    ContainsSelf(normalized);
    exists c :: c in contactNumbers && (Contains(normalized, c) || Contains(c, normalized))
  }

  /** The rule as a function value, for the entity builders: without contacts
      nothing is saved, and every contact's own key is. */
  function SavedBy(contactNumbers: set<string>): (rule: string -> bool)
    ensures contactNumbers == {} ==> forall normalized :: !rule(normalized)
    ensures forall normalized :: normalized in contactNumbers ==> rule(normalized)
  {
    (normalized: string) => ContactSaved(normalized, contactNumbers)
  }

  /** A listed number is saved. */
  lemma ListedIsSaved(normalized: string, contactNumbers: set<string>)
    requires normalized in contactNumbers
    ensures ContactSaved(normalized, contactNumbers)
  {
    ContainsSelf(normalized);
  }

  /** An empty contact key occurs in every number, so it marks every row saved. */
  lemma EmptyKeySavesAll(normalized: string, contactNumbers: set<string>)
    requires "" in contactNumbers
    ensures ContactSaved(normalized, contactNumbers)
  {
    ContainsEmpty(normalized);
  }

  /** A number with no digits is saved exactly when there is any contact at all. */
  lemma EmptyNumberSavedIff(contactNumbers: set<string>)
    ensures ContactSaved("", contactNumbers) <==> contactNumbers != {}
  {
    if contactNumbers != {} {
      var c :| c in contactNumbers;
      ContainsEmpty(c);
    }
  }

  /** `fetchContactNumbers`: the normalised form of every non-null contact
      phone number. */
  function ContactNumbers(numbers: seq<Option<string>>): (r: set<string>)
    ensures forall c :: c in r ==> AllDigits(c)
    ensures forall i :: 0 <= i < |numbers| && numbers[i].Some? ==> Normalize(numbers[i].value) in r
    ensures forall c :: c in r ==> exists i :: 0 <= i < |numbers| && numbers[i].Some? && Normalize(numbers[i].value) == c
  {
    set i | 0 <= i < |numbers| && numbers[i].Some? :: Normalize(numbers[i].value)
  }

  /** A contact number without digits yields the empty key, and then every
      imported row is marked saved. */
  lemma DigitlessContactSavesAll(numbers: seq<Option<string>>, i: int, normalized: string)
    requires 0 <= i < |numbers| && numbers[i].Some? && !ContainsDigit(numbers[i].value)
    ensures ContactSaved(normalized, ContactNumbers(numbers))
  {
    NormalizeEmptyIff(numbers[i].value);
    EmptyKeySavesAll(normalized, ContactNumbers(numbers));
  }

  // ---- The first full import ----

  /** The cursor rows `syncAllCalls` keeps: a number, and an id not stored
      before the import began. */
  predicate NewCallRow(t: CallDao.CallTable, row: RawCall) {
    row.number.Some? && row.id !in t
  }

  function NewCallIn(t: CallDao.CallTable): RawCall -> bool {
    (row: RawCall) => NewCallRow(t, row)
  }

  lemma NewCallInHolds(t: CallDao.CallTable, row: RawCall)
    ensures NewCallIn(t)(row) <==> NewCallRow(t, row)
  {
  }

  lemma SavedByHolds(contactNumbers: set<string>, normalized: string)
    ensures SavedBy(contactNumbers)(normalized) <==> ContactSaved(normalized, contactNumbers)
  {
  }

  /** The batch `syncAllCalls` builds: one entity per kept row, in cursor
      order, with the contact-saved rule applied. */
  function NewCalls(t: CallDao.CallTable, rows: seq<RawCall>, contactNumbers: set<string>): (r: seq<CallEntity>)
    ensures forall c :: c in r ==> c.id !in t
    ensures forall c :: c in r ==> exists row :: row in rows && NewCallRow(t, row) && c == CallFromRow(row, SavedBy(contactNumbers))
    ensures forall row :: row in rows && NewCallRow(t, row) ==> CallFromRow(row, SavedBy(contactNumbers)) in r
  {
    var kept := Filter(rows, NewCallIn(t));
    assert forall row :: row in kept <==> row in rows && NewCallRow(t, row) by {
      forall row ensures row in kept <==> row in rows && NewCallRow(t, row) {
        NewCallInHolds(t, row);
      }
    }
    CallEntities(kept, SavedBy(contactNumbers))
  }

  /** `syncAllCalls(contactNumbers)`: every call-log row with a number and an id
      not yet stored becomes an entity with the contact-saved rule applied; the
      batch is inserted only when it is non-empty. Stored rows are never
      replaced, and every call with a number ends up stored. */
  function ImportAllCalls(t: CallDao.CallTable, rows: seq<RawCall>, contactNumbers: set<string>): (r: CallDao.CallTable)
    ensures forall id :: id in t ==> id in r && r[id] == t[id]
    ensures forall row :: row in rows && row.number.Some? ==> row.id in r
    ensures forall id :: id in r && id !in t ==>
              exists row :: row in rows && NewCallRow(t, row) && r[id] == CallFromRow(row, SavedBy(contactNumbers))
    ensures CallDao.Valid(t) ==> CallDao.Valid(r)
  {
    var batch := NewCalls(t, rows, contactNumbers);
    CallBatchWritten(t, rows, contactNumbers, batch);
    if |batch| > 0 then CallDao.InsertCalls(t, batch) else t
  }

  /** The three facts about writing the batch, each proved on its own. */
  lemma CallBatchWritten(t: CallDao.CallTable, rows: seq<RawCall>, contactNumbers: set<string>, batch: seq<CallEntity>)
    requires batch == NewCalls(t, rows, contactNumbers)
    ensures var r := if |batch| > 0 then CallDao.InsertCalls(t, batch) else t;
      && (forall id :: id in t ==> id in r && r[id] == t[id])
      && (forall row :: row in rows && row.number.Some? ==> row.id in r)
      && (forall id :: id in r && id !in t ==>
            exists row :: row in rows && NewCallRow(t, row) && r[id] == CallFromRow(row, SavedBy(contactNumbers)))
  {
    UpsertAllNewKeys(t, batch, CallId);
    CallBatchStoresAll(t, rows, contactNumbers, batch);
    CallBatchFromRows(t, rows, contactNumbers, batch);
  }

  lemma CallBatchStoresAll(t: CallDao.CallTable, rows: seq<RawCall>, contactNumbers: set<string>, batch: seq<CallEntity>)
    requires batch == NewCalls(t, rows, contactNumbers)
    requires forall c :: c in batch ==> c.id in UpsertAll(t, batch, CallId)
    ensures var r := if |batch| > 0 then CallDao.InsertCalls(t, batch) else t;
      forall row :: row in rows && row.number.Some? ==> row.id in r
  {
    var r := if |batch| > 0 then CallDao.InsertCalls(t, batch) else t;
    forall row | row in rows && row.number.Some? ensures row.id in r {
      if row.id !in t {
        assert CallFromRow(row, SavedBy(contactNumbers)) in batch;
      }
    }
  }

  lemma CallBatchFromRows(t: CallDao.CallTable, rows: seq<RawCall>, contactNumbers: set<string>, batch: seq<CallEntity>)
    requires batch == NewCalls(t, rows, contactNumbers)
    requires forall id :: id in UpsertAll(t, batch, CallId) && id !in t ==> UpsertAll(t, batch, CallId)[id] in batch
    ensures var r := if |batch| > 0 then CallDao.InsertCalls(t, batch) else t;
      forall id :: id in r && id !in t ==>
        exists row :: row in rows && NewCallRow(t, row) && r[id] == CallFromRow(row, SavedBy(contactNumbers))
  {
    var r := if |batch| > 0 then CallDao.InsertCalls(t, batch) else t;
    forall id | id in r && id !in t
      ensures exists row :: row in rows && NewCallRow(t, row) && r[id] == CallFromRow(row, SavedBy(contactNumbers))
    {
      assert r[id] in batch;
    }
  }

  /** A call the first import adds carries the contact-saved rule's verdict on
      its normalised number. */
  lemma ImportedCallSaved(t: CallDao.CallTable, rows: seq<RawCall>, contactNumbers: set<string>, id: string)
    requires var r := ImportAllCalls(t, rows, contactNumbers); id in r && id !in t
    ensures var c := ImportAllCalls(t, rows, contactNumbers)[id];
      c.normalizedNumber == Normalize(c.number) && (c.isContactSaved <==> ContactSaved(c.normalizedNumber, contactNumbers))
  {
    var r := ImportAllCalls(t, rows, contactNumbers);
    var row :| row in rows && NewCallRow(t, row) && r[id] == CallFromRow(row, SavedBy(contactNumbers));
    CallFromRowSaved(row, contactNumbers);
  }

  lemma CallFromRowSaved(row: RawCall, contactNumbers: set<string>)
    requires row.number.Some?
    ensures var c := CallFromRow(row, SavedBy(contactNumbers));
      c.isContactSaved <==> ContactSaved(c.normalizedNumber, contactNumbers)
  {
    SavedByHolds(contactNumbers, Normalize(row.number.value));
  }

  /** Importing the same call log again adds nothing: every row it would keep
      is now stored. */
  lemma ImportAllCallsIdempotent(t: CallDao.CallTable, rows: seq<RawCall>, contactNumbers: set<string>)
    ensures var once := ImportAllCalls(t, rows, contactNumbers);
      ImportAllCalls(once, rows, contactNumbers) == once
  {
    var once := ImportAllCalls(t, rows, contactNumbers);
    NoNewCalls(once, rows, contactNumbers);
  }

  /** Once every call with a number is stored, the batch is empty. */
  lemma NoNewCalls(t: CallDao.CallTable, rows: seq<RawCall>, contactNumbers: set<string>)
    requires forall row :: row in rows && row.number.Some? ==> row.id in t
    ensures NewCalls(t, rows, contactNumbers) == []
  {
    forall i | 0 <= i < |rows| ensures !NewCallIn(t)(rows[i]) {
      NewCallInHolds(t, rows[i]);
    }
    FilterKeepsNone(rows, NewCallIn(t));
  }

  predicate NewSmsRow(t: MessageDao.MessageTable, row: RawSms) {
    row.address.Some? && row.id !in t
  }

  function NewSmsIn(t: MessageDao.MessageTable): RawSms -> bool {
    (row: RawSms) => NewSmsRow(t, row)
  }

  lemma NewSmsInHolds(t: MessageDao.MessageTable, row: RawSms)
    ensures NewSmsIn(t)(row) <==> NewSmsRow(t, row)
  {
  }

  /** The batch `syncAllMessages` builds: one entity per kept row, in cursor
      order, with the contact-saved rule applied. */
  function NewMessages(t: MessageDao.MessageTable, rows: seq<RawSms>, contactNumbers: set<string>): (r: seq<MessageEntity>)
    ensures forall m :: m in r ==> m.id !in t
    ensures forall m :: m in r ==> exists row :: row in rows && NewSmsRow(t, row) && m == MessageFromRow(row, SavedBy(contactNumbers))
    ensures forall row :: row in rows && NewSmsRow(t, row) ==> MessageFromRow(row, SavedBy(contactNumbers)) in r
  {
    var kept := Filter(rows, NewSmsIn(t));
    assert forall row :: row in kept <==> row in rows && NewSmsRow(t, row) by {
      forall row ensures row in kept <==> row in rows && NewSmsRow(t, row) {
        NewSmsInHolds(t, row);
      }
    }
    MessageEntities(kept, SavedBy(contactNumbers))
  }

  /** `syncAllMessages(contactNumbers)`: the SMS counterpart of
      `ImportAllCalls`; stored messages are never replaced and every message
      with an address ends up stored. */
  function ImportAllMessages(t: MessageDao.MessageTable, rows: seq<RawSms>, contactNumbers: set<string>): (r: MessageDao.MessageTable)
    ensures forall id :: id in t ==> id in r && r[id] == t[id]
    ensures forall row :: row in rows && row.address.Some? ==> row.id in r
    ensures forall id :: id in r && id !in t ==>
              exists row :: row in rows && NewSmsRow(t, row) && r[id] == MessageFromRow(row, SavedBy(contactNumbers))
    ensures MessageDao.Valid(t) ==> MessageDao.Valid(r)
  {
    var batch := NewMessages(t, rows, contactNumbers);
    MessageBatchWritten(t, rows, contactNumbers, batch);
    if |batch| > 0 then MessageDao.InsertMessages(t, batch) else t
  }

  lemma MessageBatchWritten(t: MessageDao.MessageTable, rows: seq<RawSms>, contactNumbers: set<string>, batch: seq<MessageEntity>)
    requires batch == NewMessages(t, rows, contactNumbers)
    ensures var r := if |batch| > 0 then MessageDao.InsertMessages(t, batch) else t;
      && (forall id :: id in t ==> id in r && r[id] == t[id])
      && (forall row :: row in rows && row.address.Some? ==> row.id in r)
      && (forall id :: id in r && id !in t ==>
            exists row :: row in rows && NewSmsRow(t, row) && r[id] == MessageFromRow(row, SavedBy(contactNumbers)))
  {
    UpsertAllNewKeys(t, batch, MessageId);
    MessageBatchStoresAll(t, rows, contactNumbers, batch);
    MessageBatchFromRows(t, rows, contactNumbers, batch);
  }

  lemma MessageBatchStoresAll(t: MessageDao.MessageTable, rows: seq<RawSms>, contactNumbers: set<string>, batch: seq<MessageEntity>)
    requires batch == NewMessages(t, rows, contactNumbers)
    requires forall m :: m in batch ==> m.id in UpsertAll(t, batch, MessageId)
    ensures var r := if |batch| > 0 then MessageDao.InsertMessages(t, batch) else t;
      forall row :: row in rows && row.address.Some? ==> row.id in r
  {
    var r := if |batch| > 0 then MessageDao.InsertMessages(t, batch) else t;
    forall row | row in rows && row.address.Some? ensures row.id in r {
      if row.id !in t {
        assert MessageFromRow(row, SavedBy(contactNumbers)) in batch;
      }
    }
  }

  lemma MessageBatchFromRows(t: MessageDao.MessageTable, rows: seq<RawSms>, contactNumbers: set<string>, batch: seq<MessageEntity>)
    requires batch == NewMessages(t, rows, contactNumbers)
    requires forall id :: id in UpsertAll(t, batch, MessageId) && id !in t ==> UpsertAll(t, batch, MessageId)[id] in batch
    ensures var r := if |batch| > 0 then MessageDao.InsertMessages(t, batch) else t;
      forall id :: id in r && id !in t ==>
        exists row :: row in rows && NewSmsRow(t, row) && r[id] == MessageFromRow(row, SavedBy(contactNumbers))
  {
    var r := if |batch| > 0 then MessageDao.InsertMessages(t, batch) else t;
    forall id | id in r && id !in t
      ensures exists row :: row in rows && NewSmsRow(t, row) && r[id] == MessageFromRow(row, SavedBy(contactNumbers))
    {
      assert r[id] in batch;
    }
  }

  /** A message the first import adds has no name, a normalised address, and
      the contact-saved rule's verdict. */
  lemma ImportedMessageSaved(t: MessageDao.MessageTable, rows: seq<RawSms>, contactNumbers: set<string>, id: string)
    requires var r := ImportAllMessages(t, rows, contactNumbers); id in r && id !in t
    ensures var m := ImportAllMessages(t, rows, contactNumbers)[id];
      m.name == None && m.normalizedAddress == Normalize(m.address)
      && (m.isContactSaved <==> ContactSaved(m.normalizedAddress, contactNumbers))
  {
    var r := ImportAllMessages(t, rows, contactNumbers);
    var row :| row in rows && NewSmsRow(t, row) && r[id] == MessageFromRow(row, SavedBy(contactNumbers));
    MessageFromRowSaved(row, contactNumbers);
  }

  lemma MessageFromRowSaved(row: RawSms, contactNumbers: set<string>)
    requires row.address.Some?
    ensures var m := MessageFromRow(row, SavedBy(contactNumbers));
      m.isContactSaved <==> ContactSaved(m.normalizedAddress, contactNumbers)
  {
    SavedByHolds(contactNumbers, Normalize(row.address.value));
  }

  lemma ImportAllMessagesIdempotent(t: MessageDao.MessageTable, rows: seq<RawSms>, contactNumbers: set<string>)
    ensures var once := ImportAllMessages(t, rows, contactNumbers);
      ImportAllMessages(once, rows, contactNumbers) == once
  {
    var once := ImportAllMessages(t, rows, contactNumbers);
    NoNewMessages(once, rows, contactNumbers);
  }

  lemma NoNewMessages(t: MessageDao.MessageTable, rows: seq<RawSms>, contactNumbers: set<string>)
    requires forall row :: row in rows && row.address.Some? ==> row.id in t
    ensures NewMessages(t, rows, contactNumbers) == []
  {
    forall i | 0 <= i < |rows| ensures !NewSmsIn(t)(rows[i]) {
      NewSmsInHolds(t, rows[i]);
    }
    FilterKeepsNone(rows, NewSmsIn(t));
  }

  /** `performInitialSync`: read the contact numbers, import the call log, then
      the SMS store. A failing query throws out of the sync, so the steps
      before it stay written and the ones after it do not run; the flag says
      whether the sync ran to the end. */
  function PerformInitialSync(calls: CallDao.CallTable, messages: MessageDao.MessageTable,
                              contacts: Snapshot<Option<string>>, callLog: Snapshot<RawCall>, sms: Snapshot<RawSms>)
    : (r: (CallDao.CallTable, MessageDao.MessageTable, bool))
    ensures r.2 <==> contacts.Available? && callLog.Available? && sms.Available?
    ensures contacts.Unavailable? || callLog.Unavailable? ==> r.0 == calls
    ensures !r.2 ==> r.1 == messages
    ensures r.2 ==> r.0 == ImportAllCalls(calls, callLog.rows, ContactNumbers(contacts.rows))
    ensures r.2 ==> r.1 == ImportAllMessages(messages, sms.rows, ContactNumbers(contacts.rows))
  {
    match contacts
    case Unavailable => (calls, messages, false)
    case Available(numbers) =>
      var contactNumbers := ContactNumbers(numbers);
      match callLog
      case Unavailable => (calls, messages, false)
      case Available(callRows) =>
        var calls' := ImportAllCalls(calls, callRows, contactNumbers);
        match sms
        case Unavailable => (calls', messages, false)
        case Available(smsRows) => (calls', ImportAllMessages(messages, smsRows, contactNumbers), true)
  }

  /** Running the initial sync twice against the same providers stores what
      running it once stores. */
  lemma PerformInitialSyncIdempotent(calls: CallDao.CallTable, messages: MessageDao.MessageTable,
                                     contacts: Snapshot<Option<string>>, callLog: Snapshot<RawCall>, sms: Snapshot<RawSms>)
    ensures var once := PerformInitialSync(calls, messages, contacts, callLog, sms);
      PerformInitialSync(once.0, once.1, contacts, callLog, sms) == once
  {
    if contacts.Available? && callLog.Available? {
      var contactNumbers := ContactNumbers(contacts.rows);
      ImportAllCallsIdempotent(calls, callLog.rows, contactNumbers);
      if sms.Available? {
        ImportAllMessagesIdempotent(messages, sms.rows, contactNumbers);
      }
    }
  }

  /** A completed initial sync leaves every stored row as it was and stores
      every call with a number and every message with an address. */
  lemma InitialSyncStoresEverything(calls: CallDao.CallTable, messages: MessageDao.MessageTable,
                                    contacts: Snapshot<Option<string>>, callLog: Snapshot<RawCall>, sms: Snapshot<RawSms>)
    requires PerformInitialSync(calls, messages, contacts, callLog, sms).2
    ensures var r := PerformInitialSync(calls, messages, contacts, callLog, sms);
      && (forall id :: id in calls ==> id in r.0 && r.0[id] == calls[id])
      && (forall id :: id in messages ==> id in r.1 && r.1[id] == messages[id])
      && (forall row :: row in callLog.rows && row.number.Some? ==> row.id in r.0)
      && (forall row :: row in sms.rows && row.address.Some? ==> row.id in r.1)
  {
  }

  // ---- The history of one number ----

  /** A stored call as the history lists it (`callCount` defaults to 1). */
  function CallEntry(c: CallEntity): CallLogEntry {
    SingleCall(c.id, c.number, c.name, c.typeCode, c.date, c.duration, c.isContactSaved)
  }

  /** A stored message as the history lists it (`messageCount` defaults to 1). */
  function MessageEntryOf(m: MessageEntity): MessageEntry {
    SingleMessage(m.id, m.address, m.name, m.typeCode, m.date, m.body, m.isContactSaved, m.read)
  }

  function CallEntries(s: seq<CallEntity>): (r: seq<CallLogEntry>)
    ensures |r| == |s|
    ensures forall i :: 0 <= i < |s| ==> r[i] == CallEntry(s[i])
  {
    seq(|s|, i requires 0 <= i < |s| => CallEntry(s[i]))
  }

  function MessageEntries(s: seq<MessageEntity>): (r: seq<MessageEntry>)
    ensures |r| == |s|
    ensures forall i :: 0 <= i < |s| ==> r[i] == MessageEntryOf(s[i])
  {
    seq(|s|, i requires 0 <= i < |s| => MessageEntryOf(s[i]))
  }

  /** `getDetailedHistory(phoneNumber)`: the stored calls and messages of the
      normalised number, merged newest first with calls ahead of messages on
      equal dates; it holds one item per stored call and one per stored
      message of that number. */
  ghost function DetailedHistory(calls: CallDao.CallTable, messages: MessageDao.MessageTable, phoneNumber: string)
    : (r: seq<HistoryItem>)
    ensures SortedThenBy(r, NewerOrSame, CallsFirst)
    ensures var k := Normalize(phoneNumber);
      CallItems(r) == |CallDao.CallsForNumber(calls, k)|
      && |r| - CallItems(r) == |MessageDao.MessagesForNumber(messages, k)|
  {
    var k := Normalize(phoneNumber);
    var cs := CallEntries(CallDao.CallsForNumber(calls, k));
    var ms := MessageEntries(MessageDao.MessagesForNumber(messages, k));
    MergeHistoryCounts(cs, ms);
    MergeHistory(cs, ms)
  }

  /** The merged history holds an item for each given call and message, and
      only those. */
  lemma MergedEntries(callRows: seq<CallEntity>, messageRows: seq<MessageEntity>)
    ensures var r := MergeHistory(CallEntries(callRows), MessageEntries(messageRows));
      && (forall c :: c in callRows ==> CallItem(CallEntry(c)) in r)
      && (forall x :: x in r && x.CallItem? ==> exists c :: c in callRows && x.call == CallEntry(c))
      && (forall m :: m in messageRows ==> MessageItem(MessageEntryOf(m)) in r)
      && (forall x :: x in r && x.MessageItem? ==> exists m :: m in messageRows && x.message == MessageEntryOf(m))
  {
    var cs := CallEntries(callRows);
    var ms := MessageEntries(messageRows);
    var r := MergeHistory(cs, ms);
    MergeHistoryContents(cs, ms);
    forall c | c in callRows ensures CallItem(CallEntry(c)) in r {
      var i :| 0 <= i < |callRows| && callRows[i] == c;
      assert cs[i] == CallEntry(c);
    }
    forall x | x in r && x.CallItem? ensures exists c :: c in callRows && x.call == CallEntry(c) {
      assert CallItem(x.call) in r;
      var i :| 0 <= i < |cs| && cs[i] == x.call;
      assert callRows[i] in callRows;
    }
    forall m | m in messageRows ensures MessageItem(MessageEntryOf(m)) in r {
      var i :| 0 <= i < |messageRows| && messageRows[i] == m;
      assert ms[i] == MessageEntryOf(m);
    }
    forall x | x in r && x.MessageItem? ensures exists m :: m in messageRows && x.message == MessageEntryOf(m) {
      assert MessageItem(x.message) in r;
      var i :| 0 <= i < |ms| && ms[i] == x.message;
      assert messageRows[i] in messageRows;
    }
  }

  /** The history lists exactly the stored calls whose normalised number is
      the normalised phone number, and exactly the stored messages whose
      normalised address is. */
  lemma DetailedHistoryContents(calls: CallDao.CallTable, messages: MessageDao.MessageTable, phoneNumber: string)
    ensures var r := DetailedHistory(calls, messages, phoneNumber);
      forall c :: c in calls.Values && c.normalizedNumber == Normalize(phoneNumber) ==> CallItem(CallEntry(c)) in r
    ensures var r := DetailedHistory(calls, messages, phoneNumber);
      forall x :: x in r && x.CallItem? ==>
        exists c :: c in calls.Values && c.normalizedNumber == Normalize(phoneNumber) && x.call == CallEntry(c)
    ensures var r := DetailedHistory(calls, messages, phoneNumber);
      forall m :: m in messages.Values && m.normalizedAddress == Normalize(phoneNumber) ==> MessageItem(MessageEntryOf(m)) in r
    ensures var r := DetailedHistory(calls, messages, phoneNumber);
      forall x :: x in r && x.MessageItem? ==>
        exists m :: m in messages.Values && m.normalizedAddress == Normalize(phoneNumber) && x.message == MessageEntryOf(m)
  {
    var k := Normalize(phoneNumber);
    MergedEntries(CallDao.CallsForNumber(calls, k), MessageDao.MessagesForNumber(messages, k));
  }

  // ---- Observer registration ----

  /** The repository's two observer slots; a registered observer carries its
      own debounce state. */
  datatype Observers = Observers(callLog: Option<Debouncer>, sms: Option<Debouncer>)

  const NoObservers := Observers(None, None)

  /** `startObservers`: fills each empty slot with a freshly registered
      observer and leaves a registered one alone. The count is the number of
      `register()` calls made. */
  function StartObservers(o: Observers): (r: (Observers, nat))
    ensures r.0.callLog.Some? && r.0.sms.Some?
    ensures o.callLog.Some? ==> r.0.callLog == o.callLog
    ensures o.sms.Some? ==> r.0.sms == o.sms
    ensures o.callLog.None? ==> r.0.callLog == Some(Initial)
    ensures o.sms.None? ==> r.0.sms == Some(Initial)
    ensures r.1 == (if o.callLog.None? then 1 else 0) + (if o.sms.None? then 1 else 0)
  {
    var callLog := if o.callLog.None? then Some(Initial) else o.callLog;
    var sms := if o.sms.None? then Some(Initial) else o.sms;
    (Observers(callLog, sms), (if o.callLog.None? then 1 else 0) + (if o.sms.None? then 1 else 0))
  }

  /** `stopObservers`: unregisters whatever is registered and clears both slots. */
  function StopObservers(o: Observers): (r: (Observers, nat))
    ensures r.0 == NoObservers
    ensures r.1 <= 2
    ensures r.1 == 0 <==> o == NoObservers
  {
    (NoObservers, (if o.callLog.Some? then 1 else 0) + (if o.sms.Some? then 1 else 0))
  }

  /** Starting twice registers nothing the second time and keeps the observers
      (and their debounce state) as they were. */
  lemma StartObserversIdempotent(o: Observers)
    ensures var once := StartObservers(o).0;
      StartObservers(once) == (once, 0)
  {
  }

  /** Stopping then starting registers two new observers with fresh debounce
      state: the next notification on each is always measured from 0. */
  lemma RestartResets(o: Observers)
    ensures StartObservers(StopObservers(o).0) == (Observers(Some(Initial), Some(Initial)), 2)
  {
  }
}
