/** The detail screen of one number: it reads that number's calls and messages
    straight from the providers, merges them newest first, shows totals, and
    decides what the header shows. The provider tables are passed in as rows;
    a missing cursor is an empty sequence. */
module CallHistoryActivity {
  import opened Wrappers
  import opened Entities
  import opened PhoneNumber
  import opened Sorting
  import opened Provider
  import opened Durations
  import opened History
  import opened Decimal

  /** The provider selection `column = ? OR column = ?` with the number as
      given and its digits-only form: a null column matches neither. */
  predicate Selected(column: Option<string>, phoneNumber: string) {
    column.Some? && (column.value == phoneNumber || column.value == Normalize(phoneNumber))
  }

  /** A call as the detail screen builds it: never marked as a saved contact. */
  function CallOfRow(row: RawCall): (c: CallLogEntry)
    requires row.number.Some?
    ensures c.id == row.id && c.number == row.number.value && c.name == row.cachedName
    ensures c.typeCode == row.typeCode && c.date == row.date && c.duration == row.duration
    ensures !c.isContactSaved && c.callCount == 1
  {
    SingleCall(row.id, row.number.value, row.cachedName, row.typeCode, row.date, row.duration, false)
  }

  /** A message as the detail screen builds it: it carries the name the screen
      was opened with, and counts as a saved contact exactly when there is one. */
  function MessageOfRow(row: RawSms, contactName: Option<string>): (m: MessageEntry)
    requires row.address.Some?
    ensures m.id == row.id && m.number == row.address.value
    ensures m.name == contactName && (m.isContactSaved <==> contactName.Some?)
    ensures m.typeCode == row.typeCode && m.date == row.date
    ensures m.body == (if row.body.Some? then row.body.value else "")
    ensures m.read <==> row.read == 1
    ensures m.messageCount == 1
  {
    SingleMessage(row.id, row.address.value, contactName, row.typeCode, row.date,
                  row.body.GetOr(""), contactName.Some?, row.read == 1)
  }

  /** `fetchCallsForNumber`: the selected rows, in cursor order. */
  function FetchCalls(rows: seq<RawCall>, phoneNumber: string): (r: seq<CallLogEntry>)
    ensures |r| <= |rows|
    ensures forall c :: c in r ==> exists row :: row in rows && Selected(row.number, phoneNumber) && c == CallOfRow(row)
    ensures forall row :: row in rows && Selected(row.number, phoneNumber) ==> CallOfRow(row) in r
    decreases |rows|
  {
    if |rows| == 0 then []
    else
      assert forall row :: row in rows ==> row == rows[0] || row in rows[1..];
      (if Selected(rows[0].number, phoneNumber) then [CallOfRow(rows[0])] else [])
        + FetchCalls(rows[1..], phoneNumber)
  }

  /** `fetchMessagesForNumber`: the selected rows, in cursor order. */
  function FetchMessages(rows: seq<RawSms>, phoneNumber: string, contactName: Option<string>): (r: seq<MessageEntry>)
    ensures |r| <= |rows|
    ensures forall m :: m in r ==> exists row :: row in rows && Selected(row.address, phoneNumber) && m == MessageOfRow(row, contactName)
    ensures forall row :: row in rows && Selected(row.address, phoneNumber) ==> MessageOfRow(row, contactName) in r
    decreases |rows|
  {
    if |rows| == 0 then []
    else
      assert forall row :: row in rows ==> row == rows[0] || row in rows[1..];
      (if Selected(rows[0].address, phoneNumber) then [MessageOfRow(rows[0], contactName)] else [])
        + FetchMessages(rows[1..], phoneNumber, contactName)
  }

  /** Every call fetched for a number was dialled as that number or as its
      digits, and every message carries the screen's name. */
  lemma FetchedBelongToNumber(callRows: seq<RawCall>, smsRows: seq<RawSms>, phoneNumber: string, contactName: Option<string>)
    ensures forall c :: c in FetchCalls(callRows, phoneNumber) ==>
              (c.number == phoneNumber || c.number == Normalize(phoneNumber)) && !c.isContactSaved
    ensures forall m :: m in FetchMessages(smsRows, phoneNumber, contactName) ==>
              (m.number == phoneNumber || m.number == Normalize(phoneNumber))
              && m.name == contactName && (m.isContactSaved <==> contactName.Some?)
  {
  }

  /** `sumOf { it.duration }` over calls: with no negative duration the total
      is at least every single call's duration. */
  function SumDurations(calls: seq<CallLogEntry>): (total: int)
    ensures (forall i :: 0 <= i < |calls| ==> calls[i].duration >= 0) ==>
              total >= 0 && forall i :: 0 <= i < |calls| ==> calls[i].duration <= total
    decreases |calls|
  {
    if |calls| == 0 then 0
    else
      var rest := SumDurations(calls[1..]);
      assert forall i :: 1 <= i < |calls| ==> calls[i] == calls[1..][i - 1];
      calls[0].duration + rest
  }

  /** The talk time of a history: the durations of its calls; messages add
      nothing, so a history of messages alone has none. */
  function TalkTime(s: seq<HistoryItem>): (total: int)
    ensures (forall i :: 0 <= i < |s| && s[i].CallItem? ==> s[i].call.duration >= 0) ==> total >= 0
    ensures (forall i :: 0 <= i < |s| ==> s[i].MessageItem?) ==> total == 0
    decreases |s|
  {
    if |s| == 0 then 0
    else
      var rest := TalkTime(s[1..]);
      assert forall i :: 1 <= i < |s| ==> s[i] == s[1..][i - 1];
      (if s[0].CallItem? then s[0].call.duration else 0) + rest
  }

  lemma {:induction false} TalkTimeSplit(a: seq<HistoryItem>, b: seq<HistoryItem>)
    ensures TalkTime(a + b) == TalkTime(a) + TalkTime(b)
    decreases |a|
  {
    if |a| > 0 {
      assert (a + b)[0] == a[0];
      assert (a + b)[1..] == a[1..] + b;
      TalkTimeSplit(a[1..], b);
    } else {
      assert a + b == b;
    }
  }

  lemma {:induction false} TalkTimeOfInsert(x: HistoryItem, s: seq<HistoryItem>, le: (HistoryItem, HistoryItem) -> bool)
    ensures TalkTime(Insert(x, s, le)) == TalkTime([x]) + TalkTime(s)
    decreases |s|
  {
    if |s| == 0 || le(x, s[0]) {
      TalkTimeSplit([x], s);
    } else {
      TalkTimeOfInsert(x, s[1..], le);
      TalkTimeSplit([s[0]], Insert(x, s[1..], le));
      TalkTimeSplit([s[0]], s[1..]);
      assert [s[0]] + s[1..] == s;
    }
  }

  /** Sorting rearranges, so it keeps the talk time. */
  lemma {:induction false} TalkTimeOfSort(s: seq<HistoryItem>, le: (HistoryItem, HistoryItem) -> bool)
    ensures TalkTime(Sort(s, le)) == TalkTime(s)
    decreases |s|
  {
    if |s| > 0 {
      TalkTimeOfSort(s[1..], le);
      TalkTimeOfInsert(s[0], Sort(s[1..], le), le);
      TalkTimeSplit([s[0]], s[1..]);
      assert [s[0]] + s[1..] == s;
    }
  }

  lemma {:induction false} TalkTimeOfItems(calls: seq<CallLogEntry>, messages: seq<MessageEntry>)
    ensures TalkTime(Items(calls, messages)) == SumDurations(calls)
    decreases |calls|
  {
    if |calls| > 0 {
      TalkTimeOfItems(calls[1..], messages);
      assert Items(calls, messages)[1..] == Items(calls[1..], messages);
    } else {
      NoTalkTime(messages);
    }
  }

  lemma {:induction false} NoTalkTime(messages: seq<MessageEntry>)
    ensures TalkTime(Items([], messages)) == 0
    decreases |messages|
  {
    if |messages| > 0 {
      NoTalkTime(messages[1..]);
      assert Items([], messages)[1..] == Items([], messages[1..]);
    }
  }

  /** The talk time over the merged history is the sum of the fetched calls'
      durations: merging loses and invents no call. */
  lemma MergeKeepsTalkTime(calls: seq<CallLogEntry>, messages: seq<MessageEntry>)
    ensures TalkTime(MergeHistory(calls, messages)) == SumDurations(calls)
  {
    TalkTimeOfSort(Items(calls, messages), NewerOrSame);
    TalkTimeOfItems(calls, messages);
  }

  /** The total talk time as the screen writes it: `"0s"` for zero, otherwise
      the largest non-zero unit first. The zero case is what the general rule
      gives anyway, so the text is the hours-minutes-seconds text throughout. */
  function FormatDuration(seconds: int): (text: string)
    ensures text == HmsText(seconds)
  {
    if seconds == 0 then ZeroSeconds(seconds); "0s" else HmsText(seconds)
  }

  /** The totals line: calls, messages and the summed talk time. */
  datatype Totals = Totals(calls: nat, messages: nat, talkTime: int, talkTimeText: string)

  /** The screen after loading: the merged history, and the totals unless the
      history is empty (then the empty-state text shows instead). */
  datatype Screen = Screen(items: seq<HistoryItem>, totals: Option<Totals>)

  /** The merged list and its totals, from the fetched calls and messages. */
  function Assemble(calls: seq<CallLogEntry>, messages: seq<MessageEntry>): (r: Screen)
    ensures SortedThenBy(r.items, NewerOrSame, CallsFirst)
    ensures r.totals.None? <==> r.items == []
    ensures r.totals.Some? ==> r.totals.value.calls == CallItems(r.items)
    ensures r.totals.Some? ==> r.totals.value.messages == |r.items| - CallItems(r.items)
    ensures r.totals.Some? ==> r.totals.value.talkTime == TalkTime(r.items)
    ensures r.totals.Some? ==> r.totals.value.talkTimeText == "Total: " + HmsText(TalkTime(r.items))
    ensures |r.items| == |calls| + |messages|
    ensures r.totals.Some? ==> r.totals.value.calls == |calls| && r.totals.value.messages == |messages|
    ensures r.totals.None? <==> calls == [] && messages == []
    ensures r.totals.Some? ==> r.totals.value.talkTime == SumDurations(calls)
  {
    var items := MergeHistory(calls, messages);
    MergeHistoryCounts(calls, messages);
    MergeKeepsTalkTime(calls, messages);
    var total := SumDurations(calls);
    if |items| == 0 then Screen(items, None)
    else Screen(items, Some(Totals(|calls|, |messages|, total, "Total: " + FormatDuration(total))))
  }

  /** `loadCallHistory`: fetch both kinds for the number, merge newest first,
      and total them; the empty state shows exactly when nothing was fetched. */
  function LoadHistory(callRows: seq<RawCall>, smsRows: seq<RawSms>, phoneNumber: string,
                       contactName: Option<string>): (r: Screen)
    ensures SortedThenBy(r.items, NewerOrSame, CallsFirst)
    ensures r.totals.None? <==>
              FetchCalls(callRows, phoneNumber) == [] && FetchMessages(smsRows, phoneNumber, contactName) == []
    ensures r.totals.Some? ==>
              r.totals.value.calls == |FetchCalls(callRows, phoneNumber)|
              && r.totals.value.messages == |FetchMessages(smsRows, phoneNumber, contactName)|
              && r.totals.value.talkTime == SumDurations(FetchCalls(callRows, phoneNumber))
  {
    var calls := FetchCalls(callRows, phoneNumber);
    var messages := FetchMessages(smsRows, phoneNumber, contactName);
    Assemble(calls, messages)
  }

  /** Nothing is fetched exactly when no row is selected, so the empty state
      means the providers hold nothing for the number. */
  lemma {:induction false} NoCallSelected(rows: seq<RawCall>, phoneNumber: string)
    ensures FetchCalls(rows, phoneNumber) == [] <==> forall row :: row in rows ==> !Selected(row.number, phoneNumber)
    decreases |rows|
  {
    if |rows| > 0 {
      NoCallSelected(rows[1..], phoneNumber);
      assert forall row :: row in rows <==> row == rows[0] || row in rows[1..];
    }
  }

  lemma {:induction false} NoMessageSelected(rows: seq<RawSms>, phoneNumber: string, contactName: Option<string>)
    ensures FetchMessages(rows, phoneNumber, contactName) == [] <==> forall row :: row in rows ==> !Selected(row.address, phoneNumber)
    decreases |rows|
  {
    if |rows| > 0 {
      NoMessageSelected(rows[1..], phoneNumber, contactName);
      assert forall row :: row in rows <==> row == rows[0] || row in rows[1..];
    }
  }

  /** The loaded history holds exactly the selected calls and messages. */
  lemma LoadHistoryContents(callRows: seq<RawCall>, smsRows: seq<RawSms>, phoneNumber: string,
                            contactName: Option<string>)
    ensures forall c :: CallItem(c) in LoadHistory(callRows, smsRows, phoneNumber, contactName).items
              <==> c in FetchCalls(callRows, phoneNumber)
    ensures forall m :: MessageItem(m) in LoadHistory(callRows, smsRows, phoneNumber, contactName).items
              <==> m in FetchMessages(smsRows, phoneNumber, contactName)
  {
    MergeHistoryContents(FetchCalls(callRows, phoneNumber), FetchMessages(smsRows, phoneNumber, contactName));
  }

  /** The header: its title, whether the number line under it shows, and
      whether the add-contact button shows. */
  datatype Header = Header(title: string, numberVisible: bool, addContactVisible: bool)

  /** The name is worth showing only when there is one and it is not just the
      number again. */
  predicate ShowsName(contactName: Option<string>, phoneNumber: string) {
    contactName.Some? && contactName.value != phoneNumber
  }

  /** `setupToolbar` and the add-contact rule of `setupActionButtons`. */
  function SetupHeader(contactName: Option<string>, phoneNumber: string): (h: Header)
    ensures h.numberVisible <==> contactName.Some? && contactName.value != phoneNumber
    ensures h.addContactVisible <==> !h.numberVisible
    ensures h.title == contactName.GetOr(phoneNumber)
  {
    if ShowsName(contactName, phoneNumber) then Header(contactName.value, true, false)
    else Header(phoneNumber, false, true)
  }
}
