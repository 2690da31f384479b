/** `SmsObserver`: on an SMS-store change notification it debounces, then
    imports the messages dated after the stored watermark. The provider is a
    snapshot of the SMS store at the moment the import runs; `Unavailable`
    stands for a failed query, whose exception the observer swallows. */
module SmsObserver {
  import opened Wrappers
  import opened Entities
  import opened PhoneNumber
  import opened Seqs
  import opened Sorting
  import opened Tables
  import opened Provider
  import opened MessageDao
  import opened DeltaSync
  import opened Debounce

  /** The observer stores every message as not saved; nothing refreshes the flag. */
  function NeverSaved(normalized: string): bool { false }

  /** `fetchRecentMessages(since)`: the provider rows dated strictly after
      `since` that have an address, in cursor order, as entities. */
  function FetchRecentMessages(rows: seq<RawSms>, since: int): (r: seq<MessageEntity>)
    ensures forall m :: m in r ==>
              m.date > since && !m.isContactSaved && m.name == None && m.normalizedAddress == Normalize(m.address)
    ensures forall row :: row in rows && row.address.Some? && row.date > since ==> MessageFromRow(row, NeverSaved) in r
  {
    var dated := Filter(rows, After(RawSmsDate, since));
    assert forall row :: row in rows && row.date > since ==> row in dated by {
      forall row | row in rows && row.date > since ensures row in dated {
        AfterHolds(RawSmsDate, since, row);
      }
    }
    assert forall row :: row in dated ==> row.date > since by {
      forall row | row in dated ensures row.date > since {
        AfterHolds(RawSmsDate, since, row);
      }
    }
    MessageEntities(dated, NeverSaved)
  }

  /** `syncRecentMessages`: the new table and whether `onSyncComplete` ran. The
      watermark is `MAX(date)` or 0; rows are written, and the callback runs,
      only when something newer was fetched. */
  function SyncRecentMessages(t: MessageTable, provider: Snapshot<RawSms>): (r: (MessageTable, bool))
    ensures provider.Unavailable? ==> r == (t, false)
    ensures !r.1 ==> r.0 == t
    ensures Valid(t) ==> Valid(r.0)
    ensures KeysNormalized(t) ==> KeysNormalized(r.0)
    ensures r.1 ==> exists c :: c in r.0.Values && c.date > Watermark(t, MessageDate)
  {
    var since := LastSyncTimestamp(t).GetOr(0);
    match provider
    case Unavailable => (t, false)
    case Available(rows) =>
      var newMessages := FetchRecentMessages(rows, since);
      if |newMessages| > 0 then
        UpsertAllRowsFrom(t, newMessages, MessageId);
        assert newMessages[0].id in KeySet(newMessages, MessageId);
        (InsertMessages(t, newMessages), true)
      else (t, false)
  }

  /** The observer's import is the generic delta import over the provider's
      messages that have an address. */
  lemma SyncRecentMessagesIsImport(t: MessageTable, rows: seq<RawSms>)
    ensures SyncRecentMessages(t, Available(rows)) == Import(t, MessageEntities(rows, NeverSaved), MessageId, MessageDate)
  {
    var since := Watermark(t, MessageDate);
    var fetched := FetchRecentMessages(rows, since);
    var batch := Newer(MessageEntities(rows, NeverSaved), MessageDate, since);
    MessageEntitiesOfDated(rows, NeverSaved, since);
    assert LastSyncTimestamp(t).GetOr(0) == since;
  }

  /** A second sync against an unchanged SMS store finds nothing newer: it writes
      nothing and runs no callback. */
  lemma SyncRecentMessagesIdempotent(t: MessageTable, rows: seq<RawSms>)
    requires forall i, j :: 0 <= i < j < |rows| ==> rows[i].id != rows[j].id
    ensures var once := SyncRecentMessages(t, Available(rows)).0;
      SyncRecentMessages(once, Available(rows)) == (once, false)
  {
    var candidates := MessageEntities(rows, NeverSaved);
    MessageEntitiesDistinct(rows, NeverSaved);
    SyncRecentMessagesIsImport(t, rows);
    ImportIdempotent(t, candidates, MessageId, MessageDate);
    SyncRecentMessagesIsImport(Import(t, candidates, MessageId, MessageDate).0, rows);
  }

  /** A sync that writes raises the watermark strictly, so the next one asks
      the provider for a strictly later range. */
  lemma SyncRecentMessagesRaisesWatermark(t: MessageTable, provider: Snapshot<RawSms>)
    ensures var r := SyncRecentMessages(t, provider);
      r.1 ==> Watermark(r.0, MessageDate) > Watermark(t, MessageDate)
  {
    if provider.Available? {
      SyncRecentMessagesIsImport(t, provider.rows);
      ImportRaisesWatermark(t, MessageEntities(provider.rows, NeverSaved), MessageId, MessageDate);
    }
  }

  /** `onChange` at time `now`: the debounce decides; a started sync runs
      against the provider as it is. Returns the new mark, the new table and
      whether the callback ran. */
  function OnChange(d: Debouncer, t: MessageTable, now: int, provider: Snapshot<RawSms>): (r: (Debouncer, MessageTable, bool))
    ensures !Debounce.OnChange(d, now).1 ==> r == (d, t, false)
    ensures Debounce.OnChange(d, now).1 ==> r.0 == Debouncer(now)
    ensures r.2 ==> now > d.lastSyncTime + WINDOW_MS
  {
    var step := Debounce.OnChange(d, now);
    if step.1 then
      var sync := SyncRecentMessages(t, provider);
      (step.0, sync.0, sync.1)
    else (d, t, false)
  }

  /** Once a notification has started a sync, later notifications against an
      unchanged SMS store add nothing and run no callback, whether they are
      dropped or not. */
  lemma OnChangeAfterSync(d: Debouncer, t: MessageTable, first: int, second: int, rows: seq<RawSms>)
    requires forall i, j :: 0 <= i < j < |rows| ==> rows[i].id != rows[j].id
    requires Debounce.OnChange(d, first).1
    ensures var r1 := OnChange(d, t, first, Available(rows));
      var r2 := OnChange(r1.0, r1.1, second, Available(rows));
      r2.1 == r1.1 && !r2.2
  {
    SyncRecentMessagesIdempotent(t, rows);
  }
}
