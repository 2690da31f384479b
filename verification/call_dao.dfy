/** `CallDao`: the `calls` table (primary key `id`) and its queries, each a pure
    function of the current table. */
module CallDao {
  import opened Wrappers
  import opened Entities
  import opened Sorting
  import opened Tables
  import opened PhoneNumber

  type CallTable = map<string, CallEntity>

  /** The table never holds two rows with one id. */
  ghost predicate Valid(t: CallTable) {
    KeyedBy(t, CallId)
  }

  /** Every writer of the table stores `normalizedNumber = normalize(number)`. */
  ghost predicate KeysNormalized(t: CallTable) {
    forall id :: id in t ==> t[id].normalizedNumber == Normalize(t[id].number)
  }

  /** `ORDER BY date DESC`. */
  predicate NewerOrSame(a: CallEntity, b: CallEntity) {
    a.date >= b.date
  }

  /** One row of `getUniqueNumbersWithCallCount`. */
  datatype NumberSummary = NumberSummary(
    normalizedNumber: string,
    number: string,
    name: Option<string>,
    date: int,
    callCount: int,
    totalDuration: int,
    typeCode: int,
    isContactSaved: bool)

  function SummaryKey(s: NumberSummary): string { s.normalizedNumber }

  predicate SummaryNewerOrSame(a: NumberSummary, b: NumberSummary) {
    a.date >= b.date
  }

  /** `getAllCalls`: every stored call exactly once, newest first. */
  ghost function AllCalls(t: CallTable): (r: seq<CallEntity>)
    ensures |r| == |t|
    ensures forall c :: c in r ==> c in t.Values
    ensures forall c :: c in t.Values ==> c in r
    ensures Valid(t) ==> DistinctBy(r, CallId)
    ensures SortedBy(r, NewerOrSame)
  {
    assert TotalPreorder(NewerOrSame);
    assert Valid(t) ==> DistinctBy(SortedRows(t, NewerOrSame), CallId) by {
      if Valid(t) {
        SortedRowsDistinct(t, NewerOrSame, CallId);
      }
    }
    SortedRows(t, NewerOrSame)
  }

  /** `getCallsForNumber(Sync)`: exactly the stored calls whose normalised number
      is `k`, newest first. */
  ghost function CallsForNumber(t: CallTable, k: string): (r: seq<CallEntity>)
    ensures forall c :: c in r ==> c in t.Values && c.normalizedNumber == k
    ensures forall c :: c in t.Values && c.normalizedNumber == k ==> c in r
    ensures Valid(t) ==> DistinctBy(r, CallId)
    ensures SortedBy(r, NewerOrSame)
  {
    var g := GroupOf(t, CallKey, k);
    assert forall c :: c in t.Values && c.normalizedNumber == k ==> c in g.Values by {
      forall c | c in t.Values && c.normalizedNumber == k ensures c in g.Values {
        var id :| id in t && t[id] == c;
        assert id in g;
      }
    }
    AllCalls(g)
  }

  /** What the GROUP BY row of a number promises: the latest date of its calls,
      their count, their summed duration, their largest type code (not the type
      of the latest call), and `number`/`name`/`isContactSaved` taken from some
      call of the group (SQLite's bare columns). */
  ghost predicate SummarizesGroup(t: CallTable, s: NumberSummary) {
    var g := GroupOf(t, CallKey, s.normalizedNumber);
    && g != map[]
    && s.callCount == |g|
    && s.totalDuration == SumOf(g, CallDuration)
    && (exists id :: id in g && g[id].date == s.date)
    && (forall id :: id in g ==> g[id].date <= s.date)
    && (exists id :: id in g && g[id].typeCode == s.typeCode)
    && (forall id :: id in g ==> g[id].typeCode <= s.typeCode)
    && (exists id :: id in g && g[id].number == s.number && g[id].name == s.name
                              && g[id].isContactSaved == s.isContactSaved)
  }

  ghost function Summarize(t: CallTable, k: string): (s: NumberSummary)
    requires k in GroupKeys(t, CallKey)
    ensures s.normalizedNumber == k
    ensures SummarizesGroup(t, s)
  {
    var g := GroupOf(t, CallKey, k);
    MapWitness(g);
    var rep :| rep in g;
    NumberSummary(k, g[rep].number, g[rep].name, MaxOf(g, CallDate).value, |g|,
                  SumOf(g, CallDuration), MaxOf(g, CallType).value, g[rep].isContactSaved)
  }

  ghost function SummaryList(t: CallTable, ks: seq<string>): (r: seq<NumberSummary>)
    requires forall i :: 0 <= i < |ks| ==> ks[i] in GroupKeys(t, CallKey)
    ensures |r| == |ks|
    ensures forall i :: 0 <= i < |r| ==> r[i].normalizedNumber == ks[i] && SummarizesGroup(t, r[i])
  {
    seq(|ks|, i requires 0 <= i < |ks| => Summarize(t, ks[i]))
  }

  /** `getUniqueNumbersWithCallCount`: one summary per distinct normalised number
      of the table, latest activity first. */
  ghost function UniqueNumbersWithCallCount(t: CallTable): (r: seq<NumberSummary>)
    ensures KeySet(r, SummaryKey) == GroupKeys(t, CallKey)
    ensures DistinctBy(r, SummaryKey)
    ensures forall i :: 0 <= i < |r| ==> SummarizesGroup(t, r[i])
    ensures SortedBy(r, SummaryNewerOrSame)
  {
    var ks := Enumerate(GroupKeys(t, CallKey));
    SortedSummaries(t, ks);
    Sort(SummaryList(t, ks), SummaryNewerOrSame)
  }

  lemma SortedSummaries(t: CallTable, ks: seq<string>)
    requires forall k :: k in ks <==> k in GroupKeys(t, CallKey)
    requires DistinctBy(ks, (k: string) => k)
    ensures var r := Sort(SummaryList(t, ks), SummaryNewerOrSame);
      && KeySet(r, SummaryKey) == GroupKeys(t, CallKey)
      && DistinctBy(r, SummaryKey)
      && (forall i :: 0 <= i < |r| ==> SummarizesGroup(t, r[i]))
      && SortedBy(r, SummaryNewerOrSame)
  {
    SummaryListCovers(t, ks);
    SortKeepsSummaries(t, SummaryList(t, ks));
  }

  /** Sorting a summary list by recency keeps its keys, their distinctness and
      what each summary says about its group. */
  lemma SortKeepsSummaries(t: CallTable, pre: seq<NumberSummary>)
    requires KeySet(pre, SummaryKey) == GroupKeys(t, CallKey)
    requires DistinctBy(pre, SummaryKey)
    requires forall i :: 0 <= i < |pre| ==> SummarizesGroup(t, pre[i])
    ensures KeySet(Sort(pre, SummaryNewerOrSame), SummaryKey) == GroupKeys(t, CallKey)
    ensures DistinctBy(Sort(pre, SummaryNewerOrSame), SummaryKey)
    ensures forall i :: 0 <= i < |Sort(pre, SummaryNewerOrSame)| ==> SummarizesGroup(t, Sort(pre, SummaryNewerOrSame)[i])
    ensures SortedBy(Sort(pre, SummaryNewerOrSame), SummaryNewerOrSame)
  {
    var r := Sort(pre, SummaryNewerOrSame);
    assert TotalPreorder(SummaryNewerOrSame);
    SortDistinct(pre, SummaryNewerOrSame, SummaryKey);
    KeySetOfPermutation(pre, r, SummaryKey);
    SortSorted(pre, SummaryNewerOrSame);
    SummariesCarryOver(t, pre, r);
  }

  lemma SummaryListCovers(t: CallTable, ks: seq<string>)
    requires forall k :: k in ks <==> k in GroupKeys(t, CallKey)
    requires DistinctBy(ks, (k: string) => k)
    ensures DistinctBy(SummaryList(t, ks), SummaryKey)
    ensures KeySet(SummaryList(t, ks), SummaryKey) == GroupKeys(t, CallKey)
  {
    var pre := SummaryList(t, ks);
    forall k | k in GroupKeys(t, CallKey) ensures k in KeySet(pre, SummaryKey) {
      var i :| 0 <= i < |ks| && ks[i] == k;
      assert SummaryKey(pre[i]) == k;
    }
  }

  lemma SummariesCarryOver(t: CallTable, pre: seq<NumberSummary>, r: seq<NumberSummary>)
    requires multiset(r) == multiset(pre)
    requires forall i :: 0 <= i < |pre| ==> SummarizesGroup(t, pre[i])
    ensures forall i :: 0 <= i < |r| ==> SummarizesGroup(t, r[i])
  {
    forall i | 0 <= i < |r| ensures SummarizesGroup(t, r[i]) {
      assert r[i] in multiset(pre);
      var j :| 0 <= j < |pre| && pre[j] == r[i];
    }
  }

  /** `insertCalls`: rows are written in order with REPLACE on `id`. */
  function InsertCalls(t: CallTable, calls: seq<CallEntity>): (r: CallTable)
    ensures Valid(t) ==> Valid(r)
    ensures r.Keys == t.Keys + KeySet(calls, CallId)
    ensures forall id :: id in t && id !in KeySet(calls, CallId) ==> r[id] == t[id]
    ensures forall i :: 0 <= i < |calls| && LastWithKey(calls, CallId, i) ==> r[calls[i].id] == calls[i]
  {
    UpsertAll(t, calls, CallId)
  }

  /** `insertCall`: REPLACE on `id`. */
  function InsertCall(t: CallTable, c: CallEntity): (r: CallTable)
    ensures Valid(t) ==> Valid(r)
    ensures r.Keys == t.Keys + {c.id}
    ensures r[c.id] == c
    ensures forall id :: id in t && id != c.id ==> r[id] == t[id]
  {
    Upsert(t, c, CallId)
  }

  /** `deleteCall`: removes the row with that id and no other. */
  function DeleteCall(t: CallTable, id: string): (r: CallTable)
    ensures Valid(t) ==> Valid(r)
    ensures r.Keys == t.Keys - {id}
    ensures forall other :: other in r ==> r[other] == t[other]
  {
    Remove(t, id)
  }

  /** `deleteAllCalls`. */
  function DeleteAllCalls(t: CallTable): (r: CallTable)
    ensures |r| == 0
  {
    map[]
  }

  /** `getLastSyncTimestamp`: `MAX(date)`, null exactly when the table is empty. */
  function LastSyncTimestamp(t: CallTable): (r: Option<int>)
    ensures r.None? <==> t == map[]
    ensures r.Some? ==> (exists id :: id in t && t[id].date == r.value)
    ensures r.Some? ==> (forall id :: id in t ==> t[id].date <= r.value)
  {
    MaxOf(t, CallDate)
  }

  /** Upserting a row whose id is stored replaces it: one row per id, holding the
      newer values. */
  lemma ReinsertReplaces(t: CallTable, calls: seq<CallEntity>, c: CallEntity)
    requires Valid(t)
    requires c.id in InsertCalls(t, calls)
    ensures var r := InsertCall(InsertCalls(t, calls), c);
      Valid(r) && r[c.id] == c && |r| == |InsertCalls(t, calls)|
  {
    var m := InsertCalls(t, calls);
    assert InsertCall(m, c).Keys == m.Keys;
  }
}
