/** `CallLogObserver`: on a call-log change notification it debounces, then
    imports the calls dated after the stored watermark. The provider is a
    snapshot of the call log at the moment the import runs; `Unavailable`
    stands for a failed query, whose exception the observer swallows. */
module CallLogObserver {
  import opened Wrappers
  import opened Entities
  import opened PhoneNumber
  import opened Seqs
  import opened Sorting
  import opened Tables
  import opened Provider
  import opened CallDao
  import opened DeltaSync
  import opened Debounce

  /** The observer stores every call as not saved; nothing refreshes the flag. */
  function NeverSaved(normalized: string): bool { false }

  /** `fetchRecentCalls(since)`: the provider rows dated strictly after `since`
      that have a number, in cursor order, as entities. */
  function FetchRecentCalls(rows: seq<RawCall>, since: int): (r: seq<CallEntity>)
    ensures forall c :: c in r ==> c.date > since && !c.isContactSaved && c.normalizedNumber == Normalize(c.number)
    ensures forall row :: row in rows && row.number.Some? && row.date > since ==> CallFromRow(row, NeverSaved) in r
  {
    var dated := Filter(rows, After(RawCallDate, since));
    assert forall row :: row in rows && row.date > since ==> row in dated by {
      forall row | row in rows && row.date > since ensures row in dated {
        AfterHolds(RawCallDate, since, row);
      }
    }
    assert forall row :: row in dated ==> row.date > since by {
      forall row | row in dated ensures row.date > since {
        AfterHolds(RawCallDate, since, row);
      }
    }
    CallEntities(dated, NeverSaved)
  }

  /** `syncRecentCalls`: the new table and whether `onSyncComplete` ran. The
      watermark is `MAX(date)` or 0; rows are written, and the callback runs,
      only when something newer was fetched. */
  function SyncRecentCalls(t: CallTable, provider: Snapshot<RawCall>): (r: (CallTable, bool))
    ensures provider.Unavailable? ==> r == (t, false)
    ensures !r.1 ==> r.0 == t
    ensures Valid(t) ==> Valid(r.0)
    ensures KeysNormalized(t) ==> KeysNormalized(r.0)
    ensures r.1 ==> exists c :: c in r.0.Values && c.date > Watermark(t, CallDate)
  {
    var since := LastSyncTimestamp(t).GetOr(0);
    match provider
    case Unavailable => (t, false)
    case Available(rows) =>
      var newCalls := FetchRecentCalls(rows, since);
      if |newCalls| > 0 then
        UpsertAllRowsFrom(t, newCalls, CallId);
        assert newCalls[0].id in KeySet(newCalls, CallId);
        (InsertCalls(t, newCalls), true)
      else (t, false)
  }

  /** The observer's import is the generic delta import over the provider's
      calls that have a number. */
  lemma SyncRecentCallsIsImport(t: CallTable, rows: seq<RawCall>)
    ensures SyncRecentCalls(t, Available(rows)) == Import(t, CallEntities(rows, NeverSaved), CallId, CallDate)
  {
    var since := Watermark(t, CallDate);
    var fetched := FetchRecentCalls(rows, since);
    var batch := Newer(CallEntities(rows, NeverSaved), CallDate, since);
    CallEntitiesOfDated(rows, NeverSaved, since);
    assert LastSyncTimestamp(t).GetOr(0) == since;
  }

  /** A second sync against an unchanged call log finds nothing newer: it writes
      nothing and runs no callback. */
  lemma SyncRecentCallsIdempotent(t: CallTable, rows: seq<RawCall>)
    requires forall i, j :: 0 <= i < j < |rows| ==> rows[i].id != rows[j].id
    ensures var once := SyncRecentCalls(t, Available(rows)).0;
      SyncRecentCalls(once, Available(rows)) == (once, false)
  {
    var candidates := CallEntities(rows, NeverSaved);
    CallEntitiesDistinct(rows, NeverSaved);
    SyncRecentCallsIsImport(t, rows);
    ImportIdempotent(t, candidates, CallId, CallDate);
    SyncRecentCallsIsImport(Import(t, candidates, CallId, CallDate).0, rows);
  }

  /** A sync that writes raises the watermark strictly, so the next one asks
      the provider for a strictly later range. */
  lemma SyncRecentCallsRaisesWatermark(t: CallTable, provider: Snapshot<RawCall>)
    ensures var r := SyncRecentCalls(t, provider);
      r.1 ==> Watermark(r.0, CallDate) > Watermark(t, CallDate)
  {
    if provider.Available? {
      SyncRecentCallsIsImport(t, provider.rows);
      ImportRaisesWatermark(t, CallEntities(provider.rows, NeverSaved), CallId, CallDate);
    }
  }

  /** `onChange` at time `now`: the debounce decides; a started sync runs
      against the provider as it is. Returns the new mark, the new table and
      whether the callback ran. */
  function OnChange(d: Debouncer, t: CallTable, now: int, provider: Snapshot<RawCall>): (r: (Debouncer, CallTable, bool))
    ensures !Debounce.OnChange(d, now).1 ==> r == (d, t, false)
    ensures Debounce.OnChange(d, now).1 ==> r.0 == Debouncer(now)
    ensures r.2 ==> now > d.lastSyncTime + WINDOW_MS
  {
    var step := Debounce.OnChange(d, now);
    if step.1 then
      var sync := SyncRecentCalls(t, provider);
      (step.0, sync.0, sync.1)
    else (d, t, false)
  }

  /** Once a notification has started a sync, later notifications against an
      unchanged call log add nothing and run no callback, whether they are
      dropped or not. */
  lemma OnChangeAfterSync(d: Debouncer, t: CallTable, first: int, second: int, rows: seq<RawCall>)
    requires forall i, j :: 0 <= i < j < |rows| ==> rows[i].id != rows[j].id
    requires Debounce.OnChange(d, first).1
    ensures var r1 := OnChange(d, t, first, Available(rows));
      var r2 := OnChange(r1.0, r1.1, second, Available(rows));
      r2.1 == r1.1 && !r2.2
  {
    SyncRecentCallsIdempotent(t, rows);
  }
}
