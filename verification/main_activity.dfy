/** The main screen's filters over the combined list, and the decision the
    content spinner makes between reloading the list and filtering it again.
    Whether two instants fall on the same calendar day depends on the time zone
    and calendar, so it is a parameter. */
module MainActivity {
  import opened Wrappers
  import opened Entities
  import opened Seqs

  const CALL_TYPE_ALL := 0
  const CALL_TYPE_INCOMING := 1
  const CALL_TYPE_OUTGOING := 2
  const CALL_TYPE_MISSED := 3
  const CONTACT_ALL := 0
  const CONTACT_SAVED := 1
  const CONTACT_UNSAVED := 2
  const CONTENT_TYPE_ALL := 0
  const CONTENT_TYPE_CALLS := 1
  const CONTENT_TYPE_MESSAGES := 2
  const CONTENT_TYPE_MESSAGES_NUMBERS_ONLY := 3

  /** The screen's filter state: the three spinners, the picked day, and the
      flag the list was last loaded with. */
  datatype Filters = Filters(
    contentType: int,
    callType: int,
    contactFilter: int,
    selectedDate: Option<int>,
    numbersOnlyMessages: bool)

  const INITIAL_FILTERS := Filters(CONTENT_TYPE_ALL, CALL_TYPE_ALL, CONTACT_ALL, None, false)

  /** Calls: rows with a call. Messages and numbers-only: rows a message won
      (so they carry the message-only type). Anything else: every row. */
  predicate ContentMatch(e: CallLogEntry, contentType: int) {
    if contentType == CONTENT_TYPE_CALLS then e.callCount > 0
    else if contentType == CONTENT_TYPE_MESSAGES || contentType == CONTENT_TYPE_MESSAGES_NUMBERS_ONLY then
      e.messageCount > 0 && e.typeCode == MESSAGE_ONLY_TYPE
    else true
  }

  /** A specific call type keeps exactly the rows of that type code. */
  predicate TypeMatch(e: CallLogEntry, callType: int) {
    if callType == CALL_TYPE_INCOMING then e.typeCode == TYPE_INCOMING
    else if callType == CALL_TYPE_OUTGOING then e.typeCode == TYPE_OUTGOING
    else if callType == CALL_TYPE_MISSED then e.typeCode == TYPE_MISSED
    else true
  }

  predicate ContactMatch(e: CallLogEntry, contactFilter: int) {
    if contactFilter == CONTACT_SAVED then e.isContactSaved
    else if contactFilter == CONTACT_UNSAVED then !e.isContactSaved
    else true
  }

  predicate DateMatch(e: CallLogEntry, selectedDate: Option<int>, sameDay: (int, int) -> bool) {
    selectedDate.Some? ==> sameDay(e.date, selectedDate.value)
  }

  /** The conjunction `applyFilters` keeps a row by. */
  predicate Keeps(f: Filters, sameDay: (int, int) -> bool, e: CallLogEntry) {
    ContentMatch(e, f.contentType) && TypeMatch(e, f.callType)
      && ContactMatch(e, f.contactFilter) && DateMatch(e, f.selectedDate, sameDay)
  }

  function Keep(f: Filters, sameDay: (int, int) -> bool): CallLogEntry -> bool {
    e => Keeps(f, sameDay, e)
  }

  lemma KeepHolds(f: Filters, sameDay: (int, int) -> bool, e: CallLogEntry)
    ensures Keep(f, sameDay)(e) <==> Keeps(f, sameDay, e)
  {
  }

  /** `applyFilters`: the rows every selected filter accepts, in list order. */
  function ApplyFilters(items: seq<CallLogEntry>, f: Filters, sameDay: (int, int) -> bool): (r: seq<CallLogEntry>)
    ensures Subsequence(r, items)
    ensures forall e :: e in r <==> e in items && Keeps(f, sameDay, e)
  {
    FilterSubsequence(items, Keep(f, sameDay));
    Filter(items, Keep(f, sameDay))
  }

  /** With no selection and no day the list is shown whole. */
  lemma NoSelectionKeepsAll(items: seq<CallLogEntry>, sameDay: (int, int) -> bool)
    ensures ApplyFilters(items, INITIAL_FILTERS, sameDay) == items
  {
    FilterKeepsAll(items, Keep(INITIAL_FILTERS, sameDay));
  }

  /** A specific call type keeps only rows of exactly that code, so no row a
      message won is left. */
  lemma CallTypeExcludesMessageRows(items: seq<CallLogEntry>, f: Filters, sameDay: (int, int) -> bool)
    requires f.callType == CALL_TYPE_INCOMING || f.callType == CALL_TYPE_OUTGOING || f.callType == CALL_TYPE_MISSED
    ensures forall e :: e in ApplyFilters(items, f, sameDay) ==> e.typeCode == f.callType && e.typeCode != MESSAGE_ONLY_TYPE
  {
  }

  /** The content filters: calls keep rows with calls, and both message
      filters keep rows a message won. */
  lemma ContentFilters(items: seq<CallLogEntry>, f: Filters, sameDay: (int, int) -> bool)
    ensures f.contentType == CONTENT_TYPE_CALLS ==>
      forall e :: e in ApplyFilters(items, f, sameDay) ==> e.callCount > 0
    ensures f.contentType == CONTENT_TYPE_MESSAGES || f.contentType == CONTENT_TYPE_MESSAGES_NUMBERS_ONLY ==>
      forall e :: e in ApplyFilters(items, f, sameDay) ==> e.messageCount > 0 && e.typeCode == MESSAGE_ONLY_TYPE
  {
  }

  /** Selecting a message content type together with a call type always shows
      an empty list: the first wants the message-only type, the second a call
      type. */
  lemma MessagesWithCallTypeEmpty(items: seq<CallLogEntry>, f: Filters, sameDay: (int, int) -> bool)
    requires f.contentType == CONTENT_TYPE_MESSAGES || f.contentType == CONTENT_TYPE_MESSAGES_NUMBERS_ONLY
    requires f.callType == CALL_TYPE_INCOMING || f.callType == CALL_TYPE_OUTGOING || f.callType == CALL_TYPE_MISSED
    ensures ApplyFilters(items, f, sameDay) == []
  {
    forall i | 0 <= i < |items| ensures !Keep(f, sameDay)(items[i]) {
      KeepHolds(f, sameDay, items[i]);
    }
    FilterKeepsNone(items, Keep(f, sameDay));
  }

  function WithContact(f: Filters, contactFilter: int): Filters {
    f.(contactFilter := contactFilter)
  }

  /** The saved and the unsaved filter split the rows the other filters keep:
      every such row is in exactly one of the two lists. */
  lemma {:induction false} SavedUnsavedPartition(items: seq<CallLogEntry>, f: Filters, sameDay: (int, int) -> bool)
    requires f.contactFilter == CONTACT_ALL
    ensures |ApplyFilters(items, WithContact(f, CONTACT_SAVED), sameDay)|
          + |ApplyFilters(items, WithContact(f, CONTACT_UNSAVED), sameDay)|
         == |ApplyFilters(items, f, sameDay)|
    ensures multiset(ApplyFilters(items, WithContact(f, CONTACT_SAVED), sameDay))
          + multiset(ApplyFilters(items, WithContact(f, CONTACT_UNSAVED), sameDay))
         == multiset(ApplyFilters(items, f, sameDay))
    decreases |items|
  {
    if |items| > 0 {
      SavedUnsavedPartition(items[1..], f, sameDay);
      var e := items[0];
      KeepHolds(f, sameDay, e);
      KeepHolds(WithContact(f, CONTACT_SAVED), sameDay, e);
      KeepHolds(WithContact(f, CONTACT_UNSAVED), sameDay, e);
      assert items == [e] + items[1..];
    }
  }

  /** `numbersOnlyMessages` always says whether the numbers-only content type
      is selected. */
  predicate NumbersOnlyAgrees(f: Filters) {
    f.numbersOnlyMessages == (f.contentType == CONTENT_TYPE_MESSAGES_NUMBERS_ONLY)
  }

  /** The content spinner's `onItemSelected`: the new state, and whether the
      list is reloaded (otherwise it is only filtered again). */
  function OnContentSelected(f: Filters, position: int): (r: (Filters, bool))
    ensures r.0.contentType == position
    ensures r.0.callType == f.callType && r.0.contactFilter == f.contactFilter && r.0.selectedDate == f.selectedDate
    ensures r.1 ==> r.0.numbersOnlyMessages == (position == CONTENT_TYPE_MESSAGES_NUMBERS_ONLY)
    ensures !r.1 ==> r.0.numbersOnlyMessages == f.numbersOnlyMessages
  {
    var numbersOnly := position == CONTENT_TYPE_MESSAGES_NUMBERS_ONLY;
    var reload := numbersOnly != f.numbersOnlyMessages
      || position == CONTENT_TYPE_MESSAGES_NUMBERS_ONLY
      || f.contentType == CONTENT_TYPE_MESSAGES_NUMBERS_ONLY;
    if reload then (f.(contentType := position, numbersOnlyMessages := numbersOnly), true)
    else (f.(contentType := position), false)
  }

  /** From a state where the flag agrees with the spinner, the list is reloaded
      exactly when the numbers-only type is entered or left, and the flag agrees
      again afterwards. */
  lemma ContentSpinnerKeepsFlag(f: Filters, position: int)
    requires NumbersOnlyAgrees(f)
    ensures OnContentSelected(f, position).1 <==>
      position == CONTENT_TYPE_MESSAGES_NUMBERS_ONLY || f.contentType == CONTENT_TYPE_MESSAGES_NUMBERS_ONLY
    ensures NumbersOnlyAgrees(OnContentSelected(f, position).0)
  {
  }

  /** The screen starts in agreement. */
  lemma InitialFiltersAgree()
    ensures NumbersOnlyAgrees(INITIAL_FILTERS)
  {
  }
}
