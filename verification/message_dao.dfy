/** `MessageDao`: the `messages` table (primary key `id`) and its queries, each a
    pure function of the current table. */
module MessageDao {
  import opened Wrappers
  import opened Entities
  import opened Sorting
  import opened Tables
  import opened PhoneNumber

  type MessageTable = map<string, MessageEntity>

  /** The table never holds two rows with one id. */
  ghost predicate Valid(t: MessageTable) {
    KeyedBy(t, MessageId)
  }

  /** Every writer of the table stores `normalizedAddress = normalize(address)`. */
  ghost predicate KeysNormalized(t: MessageTable) {
    forall id :: id in t ==> t[id].normalizedAddress == Normalize(t[id].address)
  }

  /** `ORDER BY date DESC`. */
  predicate NewerOrSame(a: MessageEntity, b: MessageEntity) {
    a.date >= b.date
  }

  /** `NumberMessageSummary`. */
  datatype NumberMessageSummary = NumberMessageSummary(
    normalizedAddress: string,
    address: string,
    name: Option<string>,
    date: int,
    messageCount: int,
    typeCode: int,
    isContactSaved: bool,
    read: bool)

  function SummaryKey(s: NumberMessageSummary): string { s.normalizedAddress }

  predicate SummaryNewerOrSame(a: NumberMessageSummary, b: NumberMessageSummary) {
    a.date >= b.date
  }

  /** `getAllMessages`: every stored message exactly once, newest first. */
  ghost function AllMessages(t: MessageTable): (r: seq<MessageEntity>)
    ensures |r| == |t|
    ensures forall m :: m in r ==> m in t.Values
    ensures forall m :: m in t.Values ==> m in r
    ensures Valid(t) ==> DistinctBy(r, MessageId)
    ensures SortedBy(r, NewerOrSame)
  {
    assert TotalPreorder(NewerOrSame);
    assert Valid(t) ==> DistinctBy(SortedRows(t, NewerOrSame), MessageId) by {
      if Valid(t) {
        SortedRowsDistinct(t, NewerOrSame, MessageId);
      }
    }
    SortedRows(t, NewerOrSame)
  }

  /** `getMessageCountForNumber`: `COUNT(*)` of the rows whose normalised address is `k`. */
  function MessageCountForNumber(t: MessageTable, k: string): (n: nat)
    ensures n == 0 <==> k !in GroupKeys(t, MessageKey)
    ensures n <= |t|
  {
    var g := GroupOf(t, MessageKey, k);
    assert g.Keys <= t.Keys;
    assert |g.Keys| <= |t.Keys| by { SubsetCard(g.Keys, t.Keys); }
    |g|
  }

  lemma SubsetCard<K>(a: set<K>, b: set<K>)
    requires a <= b
    ensures |a| <= |b|
  {
    assert b == a + (b - a);
  }

  /** `getMessagesForNumber(Sync)`: exactly the stored messages whose normalised
      address is `k`, newest first. */
  ghost function MessagesForNumber(t: MessageTable, k: string): (r: seq<MessageEntity>)
    ensures forall m :: m in r ==> m in t.Values && m.normalizedAddress == k
    ensures forall m :: m in t.Values && m.normalizedAddress == k ==> m in r
    ensures Valid(t) ==> DistinctBy(r, MessageId)
    ensures SortedBy(r, NewerOrSame)
    ensures |r| == MessageCountForNumber(t, k)
  {
    var g := GroupOf(t, MessageKey, k);
    assert forall m :: m in t.Values && m.normalizedAddress == k ==> m in g.Values by {
      forall m | m in t.Values && m.normalizedAddress == k ensures m in g.Values {
        var id :| id in t && t[id] == m;
        assert id in g;
      }
    }
    AllMessages(g)
  }

  /** What a GROUP BY row of an address promises: the latest date, the row count,
      the largest type code, and `address`/`name`/`isContactSaved`/`read` taken
      from some message of the group (SQLite's bare columns). */
  ghost predicate SummarizesGroup(t: MessageTable, s: NumberMessageSummary) {
    var g := GroupOf(t, MessageKey, s.normalizedAddress);
    && g != map[]
    && s.messageCount == |g|
    && (exists id :: id in g && g[id].date == s.date)
    && (forall id :: id in g ==> g[id].date <= s.date)
    && (exists id :: id in g && g[id].typeCode == s.typeCode)
    && (forall id :: id in g ==> g[id].typeCode <= s.typeCode)
    && (exists id :: id in g && g[id].address == s.address && g[id].name == s.name
                              && g[id].isContactSaved == s.isContactSaved && g[id].read == s.read)
  }

  ghost function Summarize(t: MessageTable, k: string): (s: NumberMessageSummary)
    requires k in GroupKeys(t, MessageKey)
    ensures s.normalizedAddress == k
    ensures SummarizesGroup(t, s)
  {
    var g := GroupOf(t, MessageKey, k);
    MapWitness(g);
    var rep :| rep in g;
    NumberMessageSummary(k, g[rep].address, g[rep].name, MaxOf(g, MessageDate).value, |g|,
                         MaxOf(g, MessageType).value, g[rep].isContactSaved, g[rep].read)
  }

  ghost function SummaryList(t: MessageTable, ks: seq<string>): (r: seq<NumberMessageSummary>)
    requires forall i :: 0 <= i < |ks| ==> ks[i] in GroupKeys(t, MessageKey)
    ensures |r| == |ks|
    ensures forall i :: 0 <= i < |r| ==> r[i].normalizedAddress == ks[i] && SummarizesGroup(t, r[i])
  {
    seq(|ks|, i requires 0 <= i < |ks| => Summarize(t, ks[i]))
  }

  /** The GROUP BY listing of a whole table: one summary per normalised address,
      latest activity first. */
  ghost function Summaries(t: MessageTable): (r: seq<NumberMessageSummary>)
    ensures KeySet(r, SummaryKey) == GroupKeys(t, MessageKey)
    ensures DistinctBy(r, SummaryKey)
    ensures forall i :: 0 <= i < |r| ==> SummarizesGroup(t, r[i])
    ensures SortedBy(r, SummaryNewerOrSame)
  {
    var ks := Enumerate(GroupKeys(t, MessageKey));
    SortedSummaries(t, ks);
    Sort(SummaryList(t, ks), SummaryNewerOrSame)
  }

  lemma SortedSummaries(t: MessageTable, ks: seq<string>)
    requires forall k :: k in ks <==> k in GroupKeys(t, MessageKey)
    requires DistinctBy(ks, (k: string) => k)
    ensures var r := Sort(SummaryList(t, ks), SummaryNewerOrSame);
      && KeySet(r, SummaryKey) == GroupKeys(t, MessageKey)
      && DistinctBy(r, SummaryKey)
      && (forall i :: 0 <= i < |r| ==> SummarizesGroup(t, r[i]))
      && SortedBy(r, SummaryNewerOrSame)
  {
    SummaryListCovers(t, ks);
    SortKeepsSummaries(t, SummaryList(t, ks));
  }

  /** Sorting a summary list by recency keeps its keys, their distinctness and
      what each summary says about its group. */
  lemma SortKeepsSummaries(t: MessageTable, pre: seq<NumberMessageSummary>)
    requires KeySet(pre, SummaryKey) == GroupKeys(t, MessageKey)
    requires DistinctBy(pre, SummaryKey)
    requires forall i :: 0 <= i < |pre| ==> SummarizesGroup(t, pre[i])
    ensures KeySet(Sort(pre, SummaryNewerOrSame), SummaryKey) == GroupKeys(t, MessageKey)
    ensures DistinctBy(Sort(pre, SummaryNewerOrSame), SummaryKey)
    ensures forall i :: 0 <= i < |Sort(pre, SummaryNewerOrSame)| ==> SummarizesGroup(t, Sort(pre, SummaryNewerOrSame)[i])
    ensures SortedBy(Sort(pre, SummaryNewerOrSame), SummaryNewerOrSame)
  {
    var r := Sort(pre, SummaryNewerOrSame);
    assert TotalPreorder(SummaryNewerOrSame);
    SortDistinct(pre, SummaryNewerOrSame, SummaryKey);
    KeySetOfPermutation(pre, r, SummaryKey);
    SortSorted(pre, SummaryNewerOrSame);
    SummariesCarryOver(t, pre, r);
  }

  lemma SummaryListCovers(t: MessageTable, ks: seq<string>)
    requires forall k :: k in ks <==> k in GroupKeys(t, MessageKey)
    requires DistinctBy(ks, (k: string) => k)
    ensures DistinctBy(SummaryList(t, ks), SummaryKey)
    ensures KeySet(SummaryList(t, ks), SummaryKey) == GroupKeys(t, MessageKey)
  {
    var pre := SummaryList(t, ks);
    forall k | k in GroupKeys(t, MessageKey) ensures k in KeySet(pre, SummaryKey) {
      var i :| 0 <= i < |ks| && ks[i] == k;
      assert SummaryKey(pre[i]) == k;
    }
  }

  lemma SummariesCarryOver(t: MessageTable, pre: seq<NumberMessageSummary>, r: seq<NumberMessageSummary>)
    requires multiset(r) == multiset(pre)
    requires forall i :: 0 <= i < |pre| ==> SummarizesGroup(t, pre[i])
    ensures forall i :: 0 <= i < |r| ==> SummarizesGroup(t, r[i])
  {
    forall i | 0 <= i < |r| ensures SummarizesGroup(t, r[i]) {
      assert r[i] in multiset(pre);
      var j :| 0 <= j < |pre| && pre[j] == r[i];
    }
  }

  /** `WHERE address GLOB '*[0-9]*'`: the rows whose raw address holds a digit. */
  function DigitRows(t: MessageTable): (r: MessageTable)
    ensures r.Keys <= t.Keys
    ensures forall id :: id in t ==> (id in r <==> ContainsDigit(t[id].address))
    ensures forall id :: id in r ==> r[id] == t[id]
  {
    map id | id in t && ContainsDigit(t[id].address) :: t[id]
  }

  /** `getUniqueNumbersWithMessageCount`: the GROUP BY listing of the rows whose
      raw address holds a digit. */
  ghost function UniqueNumbersWithMessageCount(t: MessageTable): (r: seq<NumberMessageSummary>)
    ensures KeySet(r, SummaryKey) == GroupKeys(DigitRows(t), MessageKey)
    ensures DistinctBy(r, SummaryKey)
    ensures forall i :: 0 <= i < |r| ==> SummarizesGroup(DigitRows(t), r[i])
    ensures SortedBy(r, SummaryNewerOrSame)
  {
    Summaries(DigitRows(t))
  }

  /** `getUniqueNumbersWithMessageCountAll`: the same listing without the filter. */
  ghost function UniqueNumbersWithMessageCountAll(t: MessageTable): (r: seq<NumberMessageSummary>)
    ensures KeySet(r, SummaryKey) == GroupKeys(t, MessageKey)
    ensures DistinctBy(r, SummaryKey)
    ensures forall i :: 0 <= i < |r| ==> SummarizesGroup(t, r[i])
    ensures SortedBy(r, SummaryNewerOrSame)
  {
    Summaries(t)
  }

  /** Every key of the filtered listing is a key of the unfiltered one. */
  lemma FilteredKeysSubset(t: MessageTable)
    ensures KeySet(UniqueNumbersWithMessageCount(t), SummaryKey)
         <= KeySet(UniqueNumbersWithMessageCountAll(t), SummaryKey)
  {
    forall k | k in GroupKeys(DigitRows(t), MessageKey) ensures k in GroupKeys(t, MessageKey) {
      var g := GroupOf(DigitRows(t), MessageKey, k);
      MapWitness(g);
      var id :| id in g;
      assert id in GroupOf(t, MessageKey, k);
    }
  }

  /** With normalised keys, a group other than the empty key is untouched by the
      digit filter: its raw addresses all hold a digit. */
  lemma FilterKeepsNonEmptyGroups(t: MessageTable, k: string)
    requires KeysNormalized(t)
    requires k != ""
    ensures GroupOf(DigitRows(t), MessageKey, k) == GroupOf(t, MessageKey, k)
  {
    var d := DigitRows(t);
    forall id | id in t && t[id].normalizedAddress == k ensures id in d {
      NormalizeEmptyIff(t[id].address);
    }
  }

  /** With normalised keys, the digit filter removes exactly the group of the empty
      key: the filtered listing has the unfiltered keys except `""`, and the same
      group behind each of them. */
  lemma FilteredKeysAreNonEmptyKeys(t: MessageTable)
    requires KeysNormalized(t)
    ensures KeySet(UniqueNumbersWithMessageCount(t), SummaryKey)
         == KeySet(UniqueNumbersWithMessageCountAll(t), SummaryKey) - {""}
    ensures forall i :: 0 <= i < |UniqueNumbersWithMessageCount(t)| ==>
              SummarizesGroup(t, UniqueNumbersWithMessageCount(t)[i])
  {
    FilteredGroupKeys(t);
    var r := UniqueNumbersWithMessageCount(t);
    forall i | 0 <= i < |r| ensures SummarizesGroup(t, r[i]) {
      assert r[i].normalizedAddress in KeySet(r, SummaryKey);
      FilterKeepsNonEmptyGroups(t, r[i].normalizedAddress);
    }
  }

  lemma FilteredGroupKeys(t: MessageTable)
    requires KeysNormalized(t)
    ensures GroupKeys(DigitRows(t), MessageKey) == GroupKeys(t, MessageKey) - {""}
  {
    forall k | k in GroupKeys(DigitRows(t), MessageKey) ensures k in GroupKeys(t, MessageKey) && k != "" {
      FilteredKeyIsKey(t, k);
    }
    forall k | k in GroupKeys(t, MessageKey) - {""} ensures k in GroupKeys(DigitRows(t), MessageKey) {
      FilterKeepsNonEmptyGroups(t, k);
    }
  }

  lemma FilteredKeyIsKey(t: MessageTable, k: string)
    requires KeysNormalized(t)
    requires k in GroupKeys(DigitRows(t), MessageKey)
    ensures k in GroupKeys(t, MessageKey) && k != ""
  {
    var g := GroupOf(DigitRows(t), MessageKey, k);
    MapWitness(g);
    var id :| id in g;
    NormalizeEmptyIff(t[id].address);
    assert id in GroupOf(t, MessageKey, k);
  }

  /** With normalised keys every row of the filtered listing has a non-empty key. */
  lemma FilteredKeysNonEmpty(t: MessageTable)
    requires KeysNormalized(t)
    ensures forall i :: 0 <= i < |UniqueNumbersWithMessageCount(t)| ==>
              UniqueNumbersWithMessageCount(t)[i].normalizedAddress != ""
  {
    var r := UniqueNumbersWithMessageCount(t);
    FilteredKeysAreNonEmptyKeys(t);
    forall i | 0 <= i < |r| ensures r[i].normalizedAddress != "" {
      assert r[i].normalizedAddress in KeySet(r, SummaryKey);
    }
  }

  /** `insertMessages`: rows are written in order with REPLACE on `id`. */
  function InsertMessages(t: MessageTable, messages: seq<MessageEntity>): (r: MessageTable)
    ensures Valid(t) ==> Valid(r)
    ensures r.Keys == t.Keys + KeySet(messages, MessageId)
    ensures forall id :: id in t && id !in KeySet(messages, MessageId) ==> r[id] == t[id]
    ensures forall i :: 0 <= i < |messages| && LastWithKey(messages, MessageId, i) ==>
              r[messages[i].id] == messages[i]
  {
    UpsertAll(t, messages, MessageId)
  }

  /** `insertMessage`: REPLACE on `id`. */
  function InsertMessage(t: MessageTable, m: MessageEntity): (r: MessageTable)
    ensures Valid(t) ==> Valid(r)
    ensures r.Keys == t.Keys + {m.id}
    ensures r[m.id] == m
    ensures forall id :: id in t && id != m.id ==> r[id] == t[id]
  {
    Upsert(t, m, MessageId)
  }

  /** `deleteMessage`: removes the row with that id and no other. */
  function DeleteMessage(t: MessageTable, id: string): (r: MessageTable)
    ensures Valid(t) ==> Valid(r)
    ensures r.Keys == t.Keys - {id}
    ensures forall other :: other in r ==> r[other] == t[other]
  {
    Remove(t, id)
  }

  /** `deleteAllMessages`. */
  function DeleteAllMessages(t: MessageTable): (r: MessageTable)
    ensures |r| == 0
  {
    map[]
  }

  /** `getLastSyncTimestamp`: `MAX(date)`, null exactly when the table is empty. */
  function LastSyncTimestamp(t: MessageTable): (r: Option<int>)
    ensures r.None? <==> t == map[]
    ensures r.Some? ==> (exists id :: id in t && t[id].date == r.value)
    ensures r.Some? ==> (forall id :: id in t ==> t[id].date <= r.value)
  {
    MaxOf(t, MessageDate)
  }
}
