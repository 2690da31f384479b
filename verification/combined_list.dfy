/** The main list (`getCombinedCommunicationList`): one row per normalised
    number that has calls or messages, from whichever of its two summaries is
    more recent, newest first. */
module CombinedList {
  import opened Wrappers
  import opened Entities
  import opened Seqs
  import opened Sorting
  import opened Tables
  import opened KotlinMath
  import CallDao
  import MessageDao

  type CallSummary = CallDao.NumberSummary
  type MessageSummary = MessageDao.NumberMessageSummary

  /** `associateBy { it.normalizedNumber }`: a later summary with the same key
      replaces an earlier one. */
  function CallMap(s: seq<CallSummary>): (r: map<string, CallSummary>)
    ensures r.Keys == KeySet(s, CallDao.SummaryKey)
    ensures forall k :: k in r ==> r[k] in s && r[k].normalizedNumber == k
    ensures forall i :: 0 <= i < |s| && LastWithKey(s, CallDao.SummaryKey, i) ==> r[s[i].normalizedNumber] == s[i]
  {
    UpsertAllRowsFrom(map[], s, CallDao.SummaryKey);
    UpsertAll(map[], s, CallDao.SummaryKey)
  }

  /** `associateBy { it.normalizedAddress }`. */
  function MessageMap(s: seq<MessageSummary>): (r: map<string, MessageSummary>)
    ensures r.Keys == KeySet(s, MessageDao.SummaryKey)
    ensures forall k :: k in r ==> r[k] in s && r[k].normalizedAddress == k
    ensures forall i :: 0 <= i < |s| && LastWithKey(s, MessageDao.SummaryKey, i) ==> r[s[i].normalizedAddress] == s[i]
  {
    UpsertAllRowsFrom(map[], s, MessageDao.SummaryKey);
    UpsertAll(map[], s, MessageDao.SummaryKey)
  }

  function CallKeys(s: seq<CallSummary>): (r: seq<string>)
    ensures forall k :: k in r <==> k in KeySet(s, CallDao.SummaryKey)
  {
    var r := seq(|s|, i requires 0 <= i < |s| => s[i].normalizedNumber);
    assert forall k :: k in KeySet(s, CallDao.SummaryKey) ==> k in r by {
      forall k | k in KeySet(s, CallDao.SummaryKey) ensures k in r {
        var i :| 0 <= i < |s| && CallDao.SummaryKey(s[i]) == k;
        assert r[i] == k;
      }
    }
    r
  }

  function MessageKeys(s: seq<MessageSummary>): (r: seq<string>)
    ensures forall k :: k in r <==> k in KeySet(s, MessageDao.SummaryKey)
  {
    var r := seq(|s|, i requires 0 <= i < |s| => s[i].normalizedAddress);
    assert forall k :: k in KeySet(s, MessageDao.SummaryKey) ==> k in r by {
      forall k | k in KeySet(s, MessageDao.SummaryKey) ensures k in r {
        var i :| 0 <= i < |s| && MessageDao.SummaryKey(s[i]) == k;
        assert r[i] == k;
      }
    }
    r
  }

  /** `(callMap.keys + messageMap.keys).toSet()`: every key once, call keys
      first, in first-occurrence order. */
  function AllNumbers(calls: seq<CallSummary>, messages: seq<MessageSummary>): (r: seq<string>)
    ensures forall k :: k in r ==> k in KeySet(calls, CallDao.SummaryKey) + KeySet(messages, MessageDao.SummaryKey)
    ensures forall k :: k in KeySet(calls, CallDao.SummaryKey) + KeySet(messages, MessageDao.SummaryKey) ==> k in r
    ensures forall i, j :: 0 <= i < j < |r| ==> r[i] != r[j]
  {
    Dedup(CallKeys(calls) + MessageKeys(messages))
  }

  /** The row for key `k` from its call summary `c` and its message summary
      `m`: the call's data when the call is at least as recent as the message
      (ties go to the call), the message's data otherwise, with both counts
      either way. No row when neither exists. */
  function MergeRow(k: string, c: Option<CallSummary>, m: Option<MessageSummary>): (r: Option<CallLogEntry>)
    ensures r.None? <==> c.None? && m.None?
    ensures r.Some? ==> r.value.id == k
    ensures r.Some? ==> r.value.callCount == (if c.Some? then c.value.callCount else 0)
    ensures r.Some? ==> r.value.messageCount == (if m.Some? then m.value.messageCount else 0)
    ensures r.Some? ==> (c.Some? ==> r.value.date >= c.value.date) && (m.Some? ==> r.value.date >= m.value.date)
    ensures r.Some? ==> (c.Some? && r.value.date == c.value.date) || (m.Some? && r.value.date == m.value.date)
    ensures c.Some? && (m.None? || c.value.date >= m.value.date) ==>
              r.value.number == c.value.number && r.value.name == c.value.name
              && r.value.typeCode == c.value.typeCode && r.value.isContactSaved == c.value.isContactSaved
              && r.value.duration == TruncDiv(c.value.totalDuration, MaxInt(c.value.callCount, 1))
    ensures m.Some? && (c.None? || c.value.date < m.value.date) ==>
              r.value.number == m.value.address && r.value.name == m.value.name
              && r.value.typeCode == MESSAGE_ONLY_TYPE && r.value.isContactSaved == m.value.isContactSaved
              && r.value.duration == 0
  {
    var useCall := match c
      case None => false
      case Some(call) => m.None? || call.date >= m.value.date;
    if useCall && c.Some? then
      var call := c.value;
      Some(CallLogEntry(k, call.number, call.name, call.typeCode, call.date,
                        TruncDiv(call.totalDuration, MaxInt(call.callCount, 1)),
                        call.isContactSaved, call.callCount, if m.Some? then m.value.messageCount else 0))
    else if m.Some? then
      var msg := m.value;
      Some(CallLogEntry(k, msg.address, msg.name, MESSAGE_ONLY_TYPE, msg.date, 0,
                        msg.isContactSaved, if c.Some? then c.value.callCount else 0, msg.messageCount))
    else None
  }

  /** The average duration of a call row: with at least one call and a
      non-negative total, `duration * callCount` is the total rounded down to a
      multiple of `callCount`. */
  lemma AverageDuration(total: int, count: int)
    requires total >= 0 && count >= 1
    ensures var d := TruncDiv(total, MaxInt(count, 1));
      d >= 0 && d * count <= total < (d + 1) * count
  {
    var d := TruncDiv(total, MaxInt(count, 1));
    assert Abs(d) * Abs(count) <= Abs(total) < (Abs(d) + 1) * Abs(count);
  }

  /** `allNumbers.mapNotNull { … }`: the merged row of each key, in key order,
      dropping the keys that have neither summary. */
  function CombinedRows(keys: seq<string>, calls: map<string, CallSummary>, messages: map<string, MessageSummary>)
    : (r: seq<CallLogEntry>)
    ensures |r| <= |keys|
    ensures forall e :: e in r ==> e.id in keys && MergeRow(e.id, Lookup(calls, e.id), Lookup(messages, e.id)) == Some(e)
    decreases |keys|
  {
    if |keys| == 0 then []
    else
      var rest := CombinedRows(keys[1..], calls, messages);
      match MergeRow(keys[0], Lookup(calls, keys[0]), Lookup(messages, keys[0]))
      case None => rest
      case Some(e) => [e] + rest
  }

  /** When every key has a summary, no key is dropped: one row per key, in key
      order. */
  lemma {:induction false} CombinedRowsOneEach(keys: seq<string>, calls: map<string, CallSummary>, messages: map<string, MessageSummary>)
    requires forall i :: 0 <= i < |keys| ==> keys[i] in calls || keys[i] in messages
    ensures |CombinedRows(keys, calls, messages)| == |keys|
    ensures forall i :: 0 <= i < |keys| ==> CombinedRows(keys, calls, messages)[i].id == keys[i]
    decreases |keys|
  {
    if |keys| > 0 {
      var tail := keys[1..];
      assert forall i :: 0 <= i < |tail| ==> tail[i] == keys[i + 1];
      CombinedRowsOneEach(tail, calls, messages);
      var rest := CombinedRows(tail, calls, messages);
      var e := MergeRow(keys[0], Lookup(calls, keys[0]), Lookup(messages, keys[0]));
      assert e.Some?;
      assert CombinedRows(keys, calls, messages) == [e.value] + rest;
    }
  }

  function EntryId(e: CallLogEntry): string { e.id }

  /** `sortedByDescending { it.date }`. */
  predicate NewerFirst(a: CallLogEntry, b: CallLogEntry) {
    a.date >= b.date
  }

  /** The combined list: exactly one row per key of either summary list, each
      row the merge of that key's summaries, newest first. */
  function Combined(calls: seq<CallSummary>, messages: seq<MessageSummary>): (r: seq<CallLogEntry>)
    ensures KeySet(r, EntryId) == KeySet(calls, CallDao.SummaryKey) + KeySet(messages, MessageDao.SummaryKey)
    ensures DistinctBy(r, EntryId)
    ensures SortedBy(r, NewerFirst)
    ensures forall e :: e in r ==> MergeRow(e.id, Lookup(CallMap(calls), e.id), Lookup(MessageMap(messages), e.id)) == Some(e)
  {
    var cm := CallMap(calls);
    var mm := MessageMap(messages);
    var keys := AllNumbers(calls, messages);
    var rows := CombinedRows(keys, cm, mm);
    CombinedSorted(keys, cm, mm, KeySet(calls, CallDao.SummaryKey) + KeySet(messages, MessageDao.SummaryKey));
    Sort(rows, NewerFirst)
  }

  lemma CombinedSorted(keys: seq<string>, cm: map<string, CallSummary>, mm: map<string, MessageSummary>, all: set<string>)
    requires forall k :: k in keys ==> k in all
    requires forall k :: k in all ==> k in keys
    requires all == cm.Keys + mm.Keys
    requires forall i, j :: 0 <= i < j < |keys| ==> keys[i] != keys[j]
    ensures var r := Sort(CombinedRows(keys, cm, mm), NewerFirst);
      && KeySet(r, EntryId) == all
      && DistinctBy(r, EntryId)
      && SortedBy(r, NewerFirst)
      && (forall e :: e in r ==> e in CombinedRows(keys, cm, mm))
  {
    RowsPerKey(keys, cm, mm, all);
    SortKeepsRows(CombinedRows(keys, cm, mm), all);
  }

  /** Sorting newest first keeps one row per key and the rows themselves. */
  lemma SortKeepsRows(rows: seq<CallLogEntry>, all: set<string>)
    requires KeySet(rows, EntryId) == all
    requires DistinctBy(rows, EntryId)
    ensures KeySet(Sort(rows, NewerFirst), EntryId) == all
    ensures DistinctBy(Sort(rows, NewerFirst), EntryId)
    ensures SortedBy(Sort(rows, NewerFirst), NewerFirst)
    ensures forall e :: e in Sort(rows, NewerFirst) ==> e in rows
  {
    var r := Sort(rows, NewerFirst);
    assert TotalPreorder(NewerFirst);
    SortSorted(rows, NewerFirst);
    SortDistinct(rows, NewerFirst, EntryId);
    KeySetOfPermutation(rows, r, EntryId);
    SortSameElements(rows, NewerFirst);
  }

  /** Before sorting there is one row per key, in key order. */
  lemma RowsPerKey(keys: seq<string>, cm: map<string, CallSummary>, mm: map<string, MessageSummary>, all: set<string>)
    requires forall k :: k in keys ==> k in all
    requires forall k :: k in all ==> k in keys
    requires all == cm.Keys + mm.Keys
    requires forall i, j :: 0 <= i < j < |keys| ==> keys[i] != keys[j]
    ensures KeySet(CombinedRows(keys, cm, mm), EntryId) == all
    ensures DistinctBy(CombinedRows(keys, cm, mm), EntryId)
  {
    var rows := CombinedRows(keys, cm, mm);
    assert forall i :: 0 <= i < |keys| ==> keys[i] in cm || keys[i] in mm by {
      forall i | 0 <= i < |keys| ensures keys[i] in cm || keys[i] in mm {
        assert keys[i] in keys;
      }
    }
    CombinedRowsOneEach(keys, cm, mm);
    AlignedRows(rows, keys, all);
  }

  /** Rows whose ids are the keys, position by position, have exactly those
      keys, once each when the keys are distinct. */
  lemma AlignedRows(rows: seq<CallLogEntry>, keys: seq<string>, all: set<string>)
    requires |rows| == |keys|
    requires forall i :: 0 <= i < |keys| ==> rows[i].id == keys[i]
    requires forall k :: k in keys <==> k in all
    requires forall i, j :: 0 <= i < j < |keys| ==> keys[i] != keys[j]
    ensures KeySet(rows, EntryId) == all
    ensures DistinctBy(rows, EntryId)
  {
    forall k | k in all ensures k in KeySet(rows, EntryId) {
      var i :| 0 <= i < |keys| && keys[i] == k;
      assert EntryId(rows[i]) == k;
    }
    forall k | k in KeySet(rows, EntryId) ensures k in all {
      var i :| 0 <= i < |rows| && EntryId(rows[i]) == k;
      assert keys[i] in keys;
    }
  }

  /** Over the stored tables: the list has one row per number with a stored
      call or a stored message whose raw address holds a digit ... */
  lemma CombinedKeys(calls: CallDao.CallTable, messages: MessageDao.MessageTable)
    ensures var r := Combined(CallDao.UniqueNumbersWithCallCount(calls), MessageDao.UniqueNumbersWithMessageCount(messages));
      KeySet(r, EntryId) == GroupKeys(calls, CallKey) + GroupKeys(MessageDao.DigitRows(messages), MessageKey)
  {
    var cs := CallDao.UniqueNumbersWithCallCount(calls);
    var ms := MessageDao.UniqueNumbersWithMessageCount(messages);
    assert KeySet(cs, CallDao.SummaryKey) == GroupKeys(calls, CallKey);
  }

  /** ... and each row's counts are the numbers of those calls and messages,
      at least one in all. */
  lemma CombinedCounts(calls: CallDao.CallTable, messages: MessageDao.MessageTable)
    ensures var r := Combined(CallDao.UniqueNumbersWithCallCount(calls), MessageDao.UniqueNumbersWithMessageCount(messages));
      forall e :: e in r ==>
        && e.callCount == |GroupOf(calls, CallKey, e.id)|
        && e.messageCount == |GroupOf(MessageDao.DigitRows(messages), MessageKey, e.id)|
        && e.callCount + e.messageCount >= 1
  {
    SummaryCounts(calls, CallDao.UniqueNumbersWithCallCount(calls),
                  MessageDao.DigitRows(messages), MessageDao.UniqueNumbersWithMessageCount(messages));
  }

  /** The counts of merged rows over any summary lists that summarise the
      groups of two tables. */
  lemma SummaryCounts(calls: CallDao.CallTable, cs: seq<CallSummary>, messages: MessageDao.MessageTable, ms: seq<MessageSummary>)
    requires forall i :: 0 <= i < |cs| ==> CallDao.SummarizesGroup(calls, cs[i])
    requires KeySet(cs, CallDao.SummaryKey) == GroupKeys(calls, CallKey)
    requires forall i :: 0 <= i < |ms| ==> MessageDao.SummarizesGroup(messages, ms[i])
    requires KeySet(ms, MessageDao.SummaryKey) == GroupKeys(messages, MessageKey)
    ensures forall e :: e in Combined(cs, ms) ==>
              && e.callCount == |GroupOf(calls, CallKey, e.id)|
              && e.messageCount == |GroupOf(messages, MessageKey, e.id)|
              && e.callCount + e.messageCount >= 1
  {
    forall e | e in Combined(cs, ms)
      ensures && e.callCount == |GroupOf(calls, CallKey, e.id)|
              && e.messageCount == |GroupOf(messages, MessageKey, e.id)|
              && e.callCount + e.messageCount >= 1
    {
      var c := Lookup(CallMap(cs), e.id);
      var m := Lookup(MessageMap(ms), e.id);
      EntryCallCount(calls, cs, m, e);
      EntryMessageCount(messages, ms, c, e);
    }
  }

  lemma EntryCallCount(calls: CallDao.CallTable, cs: seq<CallSummary>, m: Option<MessageSummary>, e: CallLogEntry)
    requires forall i :: 0 <= i < |cs| ==> CallDao.SummarizesGroup(calls, cs[i])
    requires KeySet(cs, CallDao.SummaryKey) == GroupKeys(calls, CallKey)
    requires MergeRow(e.id, Lookup(CallMap(cs), e.id), m) == Some(e)
    ensures e.callCount == |GroupOf(calls, CallKey, e.id)|
    ensures Lookup(CallMap(cs), e.id).Some? ==> e.callCount >= 1
  {
    var cm := CallMap(cs);
    if e.id in cm {
      var i :| 0 <= i < |cs| && cs[i] == cm[e.id];
      assert CallDao.SummarizesGroup(calls, cs[i]);
    } else {
      assert GroupOf(calls, CallKey, e.id) == map[];
    }
  }

  lemma EntryMessageCount(messages: MessageDao.MessageTable, ms: seq<MessageSummary>, c: Option<CallSummary>, e: CallLogEntry)
    requires forall i :: 0 <= i < |ms| ==> MessageDao.SummarizesGroup(messages, ms[i])
    requires KeySet(ms, MessageDao.SummaryKey) == GroupKeys(messages, MessageKey)
    requires MergeRow(e.id, c, Lookup(MessageMap(ms), e.id)) == Some(e)
    ensures e.messageCount == |GroupOf(messages, MessageKey, e.id)|
    ensures Lookup(MessageMap(ms), e.id).Some? ==> e.messageCount >= 1
  {
    var mm := MessageMap(ms);
    if e.id in mm {
      var i :| 0 <= i < |ms| && ms[i] == mm[e.id];
      assert MessageDao.SummarizesGroup(messages, ms[i]);
    } else {
      assert GroupOf(messages, MessageKey, e.id) == map[];
    }
  }
}
