/** `ContactRepository`: the sorted contact listings, and the incremental and full
    synchronisation of the `contacts` table from the system contacts provider.
    The provider is a parameter: its rows (with the answer of the per-contact
    phone lookup folded in), or the failure of the query. */
module ContactRepository {
  import opened Wrappers
  import opened Entities
  import opened Sorting
  import opened Tables
  import opened Text
  import opened ContactDao

  datatype SortOption = NameAsc | NameDesc | LastUpdated | MostContacted

  /** The sort key of `NAME_DESC`: `name?.lowercase() ?: ""`, with the locale's
      lower-casing passed in. */
  function LoweredName(c: ContactEntity, lower: string -> string): string {
    match c.name
    case None => ""
    case Some(n) => lower(n)
  }

  /** `sortedByDescending { lowered name }`: a larger key may come first. */
  function NameDescending(lower: string -> string): (ContactEntity, ContactEntity) -> bool {
    (a: ContactEntity, b: ContactEntity) => StrLe(LoweredName(b, lower), LoweredName(a, lower))
  }

  lemma NameDescendingOrders(lower: string -> string)
    ensures TotalPreorder(NameDescending(lower))
  {
    var le := NameDescending(lower);
    forall a: ContactEntity, b: ContactEntity ensures le(a, b) || le(b, a) {
      StrLeTotal(LoweredName(a, lower), LoweredName(b, lower));
    }
    forall a: ContactEntity, b: ContactEntity, c: ContactEntity | le(a, b) && le(b, c)
      ensures le(a, c)
    {
      StrLeTrans(LoweredName(c, lower), LoweredName(b, lower), LoweredName(a, lower));
    }
  }

  /** `getContacts(sortBy)`: every stored contact once, in the order the option
      names. `NAME_DESC` re-sorts the by-name listing with a stable sort, so
      contacts whose lowered names are equal stay in ascending name order. */
  ghost function GetContacts(t: ContactTable, sortBy: SortOption, lower: string -> string): (r: seq<ContactEntity>)
    ensures |r| == |t|
    ensures forall c :: c in r ==> c in t.Values
    ensures forall c :: c in t.Values ==> c in r
    ensures Valid(t) ==> DistinctBy(r, ContactKey)
    ensures sortBy == NameAsc ==> SortedBy(r, NameAscending)
    ensures sortBy == NameDesc ==> SortedThenBy(r, NameDescending(lower), NameAscending)
    ensures sortBy == LastUpdated ==> SortedBy(r, RecentlyUpdatedFirst)
    ensures sortBy == MostContacted ==> SortedBy(r, MostContactedFirst)
  {
    match sortBy
    case NameAsc => AllContacts(t)
    case NameDesc =>
      var byName := AllContacts(t);
      NameDescendingOrders(lower);
      SortStable(byName, NameDescending(lower), NameAscending);
      SortSameElements(byName, NameDescending(lower));
      assert Valid(t) ==> DistinctBy(Sort(byName, NameDescending(lower)), ContactKey) by {
        if Valid(t) {
          SortDistinct(byName, NameDescending(lower), ContactKey);
        }
      }
      Sort(byName, NameDescending(lower))
    case LastUpdated => AllContactsByLastUpdated(t)
    case MostContacted => AllContactsByTimesContacted(t)
  }

  /** A row of the provider's contacts table, together with what the phone lookup
      for its id returns (the first phone number, or null). */
  datatype ProviderContact = ProviderContact(
    id: int,
    displayName: Option<string>,
    photoUri: Option<string>,
    lastUpdated: int,
    timesContacted: int,
    lastTimeContacted: int,
    hasPhoneNumber: int,
    primaryPhone: Option<string>)

  function ProviderId(p: ProviderContact): int { p.id }

  /** The contacts provider: its rows in display-name order (or the failure of
      the query), and whether its cursor carries the last-updated column. */
  datatype ContactsProvider = ContactsProvider(
    rows: Snapshot<ProviderContact>,
    reportsLastUpdated: bool)

  /** The selection of `fetchContactsFromProvider`: no filter for a watermark of
      0 or less, otherwise the contacts updated strictly after it. */
  predicate Selected(p: ProviderContact, since: int) {
    since <= 0 || p.lastUpdated > since
  }

  /** The entity built from one cursor row. */
  function ToEntity(p: ProviderContact, reportsLastUpdated: bool): (c: ContactEntity)
    ensures c.contactId == p.id
    ensures p.hasPhoneNumber <= 0 ==> c.phoneNumber == None
    ensures p.hasPhoneNumber > 0 ==> c.phoneNumber == p.primaryPhone
    ensures c.email == None
    ensures !reportsLastUpdated ==> c.lastUpdatedTimestamp == 0
    ensures reportsLastUpdated ==> c.lastUpdatedTimestamp == p.lastUpdated
  {
    ContactEntity(
      p.id,
      p.displayName,
      if p.hasPhoneNumber > 0 then p.primaryPhone else None,
      None,
      p.photoUri,
      if reportsLastUpdated then p.lastUpdated else 0,
      p.timesContacted,
      p.lastTimeContacted)
  }

  /** The entities of the selected rows, in cursor order. */
  function Fetched(rows: seq<ProviderContact>, since: int, reportsLastUpdated: bool): (r: seq<ContactEntity>)
    ensures |r| <= |rows|
    ensures forall c :: c in r ==>
              exists j :: 0 <= j < |rows| && Selected(rows[j], since) && ToEntity(rows[j], reportsLastUpdated) == c
    ensures forall j :: 0 <= j < |rows| && Selected(rows[j], since) ==> ToEntity(rows[j], reportsLastUpdated) in r
    ensures since <= 0 ==> |r| == |rows|
  {
    if |rows| == 0 then []
    else
      var rest := Fetched(rows[1..], since, reportsLastUpdated);
      assert forall c :: c in rest ==>
               exists j :: 0 <= j < |rows| && Selected(rows[j], since) && ToEntity(rows[j], reportsLastUpdated) == c by {
        forall c | c in rest
          ensures exists j :: 0 <= j < |rows| && Selected(rows[j], since) && ToEntity(rows[j], reportsLastUpdated) == c
        {
          var j :| 0 <= j < |rows[1..]| && Selected(rows[1..][j], since) && ToEntity(rows[1..][j], reportsLastUpdated) == c;
          assert rows[j + 1] == rows[1..][j];
        }
      }
      assert forall j :: 1 <= j < |rows| ==> rows[j] == rows[1..][j - 1];
      if Selected(rows[0], since) then [ToEntity(rows[0], reportsLastUpdated)] + rest else rest
  }

  /** `fetchContactsFromProvider(since)`. */
  function FetchContacts(p: ContactsProvider, since: int): (r: Snapshot<ContactEntity>)
    ensures r.Available? <==> p.rows.Available?
    ensures r.Available? ==> r.rows == Fetched(p.rows.rows, since, p.reportsLastUpdated)
  {
    match p.rows
    case Unavailable => Unavailable
    case Available(rows) => Available(Fetched(rows, since, p.reportsLastUpdated))
  }

  /** `syncContacts`: fetch what changed since the stored watermark (0 for an
      empty table) and upsert it, writing only when something was fetched.
      Reports false, with the table unchanged, when the provider fails. */
  function SyncContacts(t: ContactTable, p: ContactsProvider): (r: (bool, ContactTable))
    ensures r.0 <==> p.rows.Available?
    ensures !r.0 ==> r.1 == t
    ensures Valid(t) ==> Valid(r.1)
    ensures t.Keys <= r.1.Keys
    ensures r.0 ==>
      var fetched := Fetched(p.rows.rows, Watermark(t, ContactUpdated), p.reportsLastUpdated);
              && r.1.Keys == t.Keys + KeySet(fetched, ContactKey)
              && (forall id :: id in t && id !in KeySet(fetched, ContactKey) ==> r.1[id] == t[id])
              && (forall i :: 0 <= i < |fetched| && LastWithKey(fetched, ContactKey, i) ==>
                    r.1[fetched[i].contactId] == fetched[i])
  {
    var since := LastSyncTimestamp(t).GetOr(0);
    assert since == Watermark(t, ContactUpdated);
    match FetchContacts(p, since)
    case Unavailable => (false, t)
    case Available(contacts) =>
      if |contacts| > 0 then (true, InsertContacts(t, contacts)) else (true, t)
  }

  /** Below a positive watermark the selection is "everything". */
  lemma {:induction false} FetchedNonPositive(rows: seq<ProviderContact>, since: int, reportsLastUpdated: bool)
    requires since <= 0
    ensures Fetched(rows, since, reportsLastUpdated) == Fetched(rows, 0, reportsLastUpdated)
    decreases |rows|
  {
    if |rows| > 0 {
      FetchedNonPositive(rows[1..], since, reportsLastUpdated);
    }
  }

  /** Provider rows with distinct ids give entities with distinct ids. */
  lemma {:induction false} FetchedDistinct(rows: seq<ProviderContact>, since: int, reportsLastUpdated: bool)
    requires DistinctBy(rows, ProviderId)
    ensures DistinctBy(Fetched(rows, since, reportsLastUpdated), ContactKey)
    decreases |rows|
  {
    if |rows| > 0 {
      assert DistinctBy(rows[1..], ProviderId);
      FetchedDistinct(rows[1..], since, reportsLastUpdated);
      var rest := Fetched(rows[1..], since, reportsLastUpdated);
      forall i | 0 <= i < |rest| ensures ContactKey(rest[i]) != rows[0].id {
        assert rest[i] in rest;
        var j :| 0 <= j < |rows[1..]| && Selected(rows[1..][j], since)
                 && ToEntity(rows[1..][j], reportsLastUpdated) == rest[i];
        assert rows[1..][j] == rows[j + 1];
      }
    }
  }

  /** With the last-updated column reported, an incremental sync never lowers a
      positive watermark: a replaced row is replaced by a newer one. */
  lemma WatermarkKeeps(t: ContactTable, p: ContactsProvider)
    requires p.reportsLastUpdated && p.rows.Available?
    requires Watermark(t, ContactUpdated) > 0
    ensures Watermark(SyncContacts(t, p).1, ContactUpdated) >= Watermark(t, ContactUpdated)
  {
    var w0 := Watermark(t, ContactUpdated);
    var once := SyncContacts(t, p).1;
    var fetched := Fetched(p.rows.rows, w0, true);
    var top := MaxWitness(t, ContactUpdated);
    if top in KeySet(fetched, ContactKey) {
      var i := LastIndex(fetched, ContactKey, top);
      assert fetched[i] in fetched;
      assert once[top] == fetched[i];
    } else {
      assert once[top] == t[top];
    }
  }

  /** After an incremental sync with a positive watermark, the provider holds
      nothing newer than the table. */
  lemma NothingNewerAfterSync(t: ContactTable, p: ContactsProvider)
    requires p.reportsLastUpdated && p.rows.Available?
    requires DistinctBy(p.rows.rows, ProviderId)
    requires Watermark(SyncContacts(t, p).1, ContactUpdated) > 0
    ensures forall j :: 0 <= j < |p.rows.rows| ==>
              !Selected(p.rows.rows[j], Watermark(SyncContacts(t, p).1, ContactUpdated))
  {
    var rows := p.rows.rows;
    var w0 := Watermark(t, ContactUpdated);
    var f1 := Fetched(rows, w0, true);
    var once := SyncContacts(t, p).1;
    var w1 := Watermark(once, ContactUpdated);
    if w0 > 0 {
      WatermarkKeeps(t, p);
    }
    FetchedDistinct(rows, w0, true);
    forall j | 0 <= j < |rows| ensures rows[j].lastUpdated <= w1 {
      if Selected(rows[j], w0) {
        var e := ToEntity(rows[j], true);
        assert e in f1;
        var i :| 0 <= i < |f1| && f1[i] == e;
        assert once[e.contactId] == e;
      }
    }
  }

  /** Nothing selected, nothing fetched. */
  lemma FetchedNothing(rows: seq<ProviderContact>, since: int, reportsLastUpdated: bool)
    requires forall j :: 0 <= j < |rows| ==> !Selected(rows[j], since)
    ensures Fetched(rows, since, reportsLastUpdated) == []
  {
  }

  /** Re-running `syncContacts` against an unchanged provider changes nothing,
      provided the provider reports last-updated times and its ids are distinct
      (the contacts table's `_ID`). */
  lemma SyncContactsIdempotent(t: ContactTable, p: ContactsProvider)
    requires p.reportsLastUpdated
    requires p.rows.Available? ==> DistinctBy(p.rows.rows, ProviderId)
    ensures SyncContacts(SyncContacts(t, p).1, p).1 == SyncContacts(t, p).1
  {
    if p.rows.Available? {
      var rows := p.rows.rows;
      var w0 := Watermark(t, ContactUpdated);
      var once := SyncContacts(t, p).1;
      var w1 := Watermark(once, ContactUpdated);
      if w1 <= 0 {
        if w0 > 0 {
          WatermarkKeeps(t, p);
        }
        FetchedNonPositive(rows, w0, true);
        FetchedNonPositive(rows, w1, true);
        UpsertAllIdempotent(t, Fetched(rows, w0, true), ContactKey);
      } else {
        NothingNewerAfterSync(t, p);
        FetchedNothing(rows, w1, true);
      }
    }
  }

  /** `performFullSync`: fetch everything, and only then replace the table's
      contents. A failed fetch leaves the table untouched. */
  function PerformFullSync(t: ContactTable, p: ContactsProvider): (r: (bool, ContactTable))
    ensures r.0 <==> p.rows.Available?
    ensures !r.0 ==> r.1 == t
    ensures Valid(r.1) || !r.0
    ensures r.0 ==> r.1.Keys == KeySet(p.rows.rows, ProviderId)
    ensures r.0 ==> forall j :: 0 <= j < |p.rows.rows| && LastWithKey(p.rows.rows, ProviderId, j) ==>
              r.1[p.rows.rows[j].id] == ToEntity(p.rows.rows[j], p.reportsLastUpdated)
  {
    match FetchContacts(p, 0)
    case Unavailable => (false, t)
    case Available(contacts) =>
      FullSyncContents(p.rows.rows, p.reportsLastUpdated);
      (true, InsertContacts(DeleteAllContacts(t), contacts))
  }

  /** The rows of a full fetch, written into an empty table, are the provider's
      contacts: one per id, the last row of each id winning. */
  lemma FullSyncContents(rows: seq<ProviderContact>, reportsLastUpdated: bool)
    ensures var fetched := Fetched(rows, 0, reportsLastUpdated);
      && KeySet(fetched, ContactKey) == KeySet(rows, ProviderId)
      && (forall j :: 0 <= j < |rows| && LastWithKey(rows, ProviderId, j) ==>
            LastWithKey(fetched, ContactKey, j) && fetched[j] == ToEntity(rows[j], reportsLastUpdated))
  {
    var fetched := Fetched(rows, 0, reportsLastUpdated);
    FullFetchAligned(rows, reportsLastUpdated);
    assert forall j :: 0 <= j < |rows| ==> ContactKey(fetched[j]) == ProviderId(rows[j]);
  }

  /** A full fetch keeps every row in place. */
  lemma {:induction false} FullFetchAligned(rows: seq<ProviderContact>, reportsLastUpdated: bool)
    ensures |Fetched(rows, 0, reportsLastUpdated)| == |rows|
    ensures forall j :: 0 <= j < |rows| ==> Fetched(rows, 0, reportsLastUpdated)[j] == ToEntity(rows[j], reportsLastUpdated)
    decreases |rows|
  {
    if |rows| > 0 {
      FullFetchAligned(rows[1..], reportsLastUpdated);
      assert forall j :: 1 <= j < |rows| ==> rows[j] == rows[1..][j - 1];
    }
  }

  /** `hasContacts`: `getContactCount() > 0`. */
  function HasContacts(t: ContactTable): (b: bool)
    ensures b <==> t != map[]
  {
    ContactCount(t) > 0
  }
}
