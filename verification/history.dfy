/** One number's history as the detail screen lists it: its calls and its
    messages in one list, newest first. Both `getDetailedHistory` and the detail
    screen build it as `(calls + messages).sortedByDescending { date }`, a
    stable sort, so on equal dates calls stay ahead of messages. */
module History {
  import opened Sorting
  import opened Entities

  datatype HistoryItem = CallItem(call: CallLogEntry) | MessageItem(message: MessageEntry)

  function ItemDate(x: HistoryItem): int {
    match x
    case CallItem(c) => c.date
    case MessageItem(m) => m.date
  }

  /** `sortedByDescending { date }`. */
  predicate NewerOrSame(a: HistoryItem, b: HistoryItem) {
    ItemDate(a) >= ItemDate(b)
  }

  /** Calls before messages; the order `calls + messages` already has. */
  predicate CallsFirst(a: HistoryItem, b: HistoryItem) {
    a.CallItem? || b.MessageItem?
  }

  lemma Orders()
    ensures TotalPreorder(NewerOrSame)
    ensures TotalPreorder(CallsFirst)
  {
  }

  /** `calls + messages`, before sorting. */
  function Items(calls: seq<CallLogEntry>, messages: seq<MessageEntry>): (r: seq<HistoryItem>)
    ensures |r| == |calls| + |messages|
    ensures forall i :: 0 <= i < |calls| ==> r[i] == CallItem(calls[i])
    ensures forall j :: 0 <= j < |messages| ==> r[|calls| + j] == MessageItem(messages[j])
  {
    seq(|calls|, i requires 0 <= i < |calls| => CallItem(calls[i]))
      + seq(|messages|, j requires 0 <= j < |messages| => MessageItem(messages[j]))
  }

  /** The merged history: a rearrangement of the calls and messages, newest
      first, calls ahead of messages on equal dates. */
  function MergeHistory(calls: seq<CallLogEntry>, messages: seq<MessageEntry>): (r: seq<HistoryItem>)
    ensures multiset(r) == multiset(Items(calls, messages))
    ensures |r| == |calls| + |messages|
    ensures SortedThenBy(r, NewerOrSame, CallsFirst)
  {
    var items := Items(calls, messages);
    Orders();
    SortStable(items, NewerOrSame, CallsFirst);
    Sort(items, NewerOrSame)
  }

  /** Every call and every message appears in the merged history, and nothing
      else does. */
  lemma MergeHistoryContents(calls: seq<CallLogEntry>, messages: seq<MessageEntry>)
    ensures forall c :: CallItem(c) in MergeHistory(calls, messages) <==> c in calls
    ensures forall m :: MessageItem(m) in MergeHistory(calls, messages) <==> m in messages
  {
    var items := Items(calls, messages);
    SortSameElements(items, NewerOrSame);
    forall c ensures CallItem(c) in items <==> c in calls {
      if CallItem(c) in items {
        var i :| 0 <= i < |items| && items[i] == CallItem(c);
      }
      if c in calls {
        var i :| 0 <= i < |calls| && calls[i] == c;
        assert items[i] == CallItem(c);
      }
    }
    forall m ensures MessageItem(m) in items <==> m in messages {
      if MessageItem(m) in items {
        var i :| 0 <= i < |items| && items[i] == MessageItem(m);
        assert i >= |calls|;
        assert items[|calls| + (i - |calls|)] == MessageItem(messages[i - |calls|]);
      }
      if m in messages {
        var j :| 0 <= j < |messages| && messages[j] == m;
        assert items[|calls| + j] == MessageItem(m);
      }
    }
  }

  /** Merging only rearranges: as many calls and messages come out as went in. */
  function CallItems(s: seq<HistoryItem>): (n: nat)
    ensures n <= |s|
    decreases |s|
  {
    if |s| == 0 then 0 else (if s[0].CallItem? then 1 else 0) + CallItems(s[1..])
  }

  lemma {:induction false} CallItemsOfInsert(x: HistoryItem, s: seq<HistoryItem>, le: (HistoryItem, HistoryItem) -> bool)
    ensures CallItems(Insert(x, s, le)) == CallItems([x]) + CallItems(s)
    decreases |s|
  {
    if |s| == 0 || le(x, s[0]) {
      CallItemsSplit([x], s);
    } else {
      CallItemsOfInsert(x, s[1..], le);
      CallItemsSplit([s[0]], Insert(x, s[1..], le));
      CallItemsSplit([s[0]], s[1..]);
      assert [s[0]] + s[1..] == s;
    }
  }

  lemma {:induction false} CallItemsOfSort(s: seq<HistoryItem>, le: (HistoryItem, HistoryItem) -> bool)
    ensures CallItems(Sort(s, le)) == CallItems(s)
    decreases |s|
  {
    if |s| > 0 {
      CallItemsOfSort(s[1..], le);
      CallItemsOfInsert(s[0], Sort(s[1..], le), le);
      CallItemsSplit([s[0]], s[1..]);
      assert [s[0]] + s[1..] == s;
    }
  }

  lemma {:induction false} CallItemsSplit(a: seq<HistoryItem>, b: seq<HistoryItem>)
    ensures CallItems(a + b) == CallItems(a) + CallItems(b)
    decreases |a|
  {
    if |a| > 0 {
      assert (a + b)[0] == a[0];
      assert (a + b)[1..] == a[1..] + b;
      CallItemsSplit(a[1..], b);
    } else {
      assert a + b == b;
    }
  }

  lemma {:induction false} CallItemsOfItems(calls: seq<CallLogEntry>, messages: seq<MessageEntry>)
    ensures CallItems(Items(calls, messages)) == |calls|
    decreases |calls|
  {
    if |calls| > 0 {
      CallItemsOfItems(calls[1..], messages);
      var items := Items(calls, messages);
      assert items[1..] == Items(calls[1..], messages);
    } else {
      NoCallItems(messages);
    }
  }

  lemma {:induction false} NoCallItems(messages: seq<MessageEntry>)
    ensures CallItems(Items([], messages)) == 0
    decreases |messages|
  {
    if |messages| > 0 {
      NoCallItems(messages[1..]);
      assert Items([], messages)[1..] == Items([], messages[1..]);
    }
  }

  /** The merged history holds exactly `|calls|` calls and `|messages|`
      messages: the totals the detail screen shows. */
  lemma MergeHistoryCounts(calls: seq<CallLogEntry>, messages: seq<MessageEntry>)
    ensures CallItems(MergeHistory(calls, messages)) == |calls|
    ensures |MergeHistory(calls, messages)| - CallItems(MergeHistory(calls, messages)) == |messages|
  {
    CallItemsOfSort(Items(calls, messages), NewerOrSame);
    CallItemsOfItems(calls, messages);
  }
}
