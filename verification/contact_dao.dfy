/** `ContactDao`: the `contacts` table, whose unique index on `contactId` decides
    which stored row an insert replaces. */
module ContactDao {
  import opened Wrappers
  import opened Entities
  import opened Sorting
  import opened Tables
  import opened Text

  type ContactTable = map<int, ContactEntity>

  /** The unique index: never two rows with one `contactId`. */
  ghost predicate Valid(t: ContactTable) {
    KeyedBy(t, ContactKey)
  }

  /** `ORDER BY name ASC`: SQLite puts NULL first, then compares text
      lexicographically. */
  predicate NameAscending(a: ContactEntity, b: ContactEntity) {
    match a.name
    case None => true
    case Some(x) => b.name.Some? && StrLe(x, b.name.value)
  }

  /** `ORDER BY lastUpdatedTimestamp DESC`. */
  predicate RecentlyUpdatedFirst(a: ContactEntity, b: ContactEntity) {
    a.lastUpdatedTimestamp >= b.lastUpdatedTimestamp
  }

  /** `ORDER BY timesContacted DESC`. */
  predicate MostContactedFirst(a: ContactEntity, b: ContactEntity) {
    a.timesContacted >= b.timesContacted
  }

  lemma NameAscendingOrders()
    ensures TotalPreorder(NameAscending)
  {
    forall a: ContactEntity, b: ContactEntity ensures NameAscending(a, b) || NameAscending(b, a) {
      if a.name.Some? && b.name.Some? {
        StrLeTotal(a.name.value, b.name.value);
      }
    }
    forall a: ContactEntity, b: ContactEntity, c: ContactEntity
      | NameAscending(a, b) && NameAscending(b, c)
      ensures NameAscending(a, c)
    {
      if a.name.Some? {
        StrLeTrans(a.name.value, b.name.value, c.name.value);
      }
    }
  }

  /** `getAllContacts`: every stored contact once, by name. */
  ghost function AllContacts(t: ContactTable): (r: seq<ContactEntity>)
    ensures |r| == |t|
    ensures forall c :: c in r ==> c in t.Values
    ensures forall c :: c in t.Values ==> c in r
    ensures Valid(t) ==> DistinctBy(r, ContactKey)
    ensures SortedBy(r, NameAscending)
  {
    NameAscendingOrders();
    assert Valid(t) ==> DistinctBy(SortedRows(t, NameAscending), ContactKey) by {
      if Valid(t) {
        SortedRowsDistinct(t, NameAscending, ContactKey);
      }
    }
    SortedRows(t, NameAscending)
  }

  /** `getAllContactsByLastUpdated`: every stored contact once, most recently
      updated first. */
  ghost function AllContactsByLastUpdated(t: ContactTable): (r: seq<ContactEntity>)
    ensures |r| == |t|
    ensures forall c :: c in r ==> c in t.Values
    ensures forall c :: c in t.Values ==> c in r
    ensures Valid(t) ==> DistinctBy(r, ContactKey)
    ensures SortedBy(r, RecentlyUpdatedFirst)
  {
    assert TotalPreorder(RecentlyUpdatedFirst);
    assert Valid(t) ==> DistinctBy(SortedRows(t, RecentlyUpdatedFirst), ContactKey) by {
      if Valid(t) {
        SortedRowsDistinct(t, RecentlyUpdatedFirst, ContactKey);
      }
    }
    SortedRows(t, RecentlyUpdatedFirst)
  }

  /** `getAllContactsByTimesContacted`: every stored contact once, most contacted
      first. */
  ghost function AllContactsByTimesContacted(t: ContactTable): (r: seq<ContactEntity>)
    ensures |r| == |t|
    ensures forall c :: c in r ==> c in t.Values
    ensures forall c :: c in t.Values ==> c in r
    ensures Valid(t) ==> DistinctBy(r, ContactKey)
    ensures SortedBy(r, MostContactedFirst)
  {
    assert TotalPreorder(MostContactedFirst);
    assert Valid(t) ==> DistinctBy(SortedRows(t, MostContactedFirst), ContactKey) by {
      if Valid(t) {
        SortedRowsDistinct(t, MostContactedFirst, ContactKey);
      }
    }
    SortedRows(t, MostContactedFirst)
  }

  /** `getContactById`: the row with that `contactId`, or null. */
  function ContactById(t: ContactTable, contactId: int): (r: Option<ContactEntity>)
    ensures Valid(t) ==> (r.Some? <==> exists c :: c in t.Values && c.contactId == contactId)
    ensures Valid(t) && r.Some? ==> r.value.contactId == contactId && r.value in t.Values
  {
    assert Valid(t) && (exists c :: c in t.Values && c.contactId == contactId) ==> contactId in t by {
      if Valid(t) && exists c :: c in t.Values && c.contactId == contactId {
        var c :| c in t.Values && c.contactId == contactId;
        var id := KeyOf(t, c);
      }
    }
    if contactId in t then Some(t[contactId]) else None
  }

  /** `getLastSyncTimestamp`: `MAX(lastUpdatedTimestamp)`, null exactly when the
      table is empty. */
  function LastSyncTimestamp(t: ContactTable): (r: Option<int>)
    ensures r.None? <==> t == map[]
    ensures r.Some? ==> (exists id :: id in t && t[id].lastUpdatedTimestamp == r.value)
    ensures r.Some? ==> (forall id :: id in t ==> t[id].lastUpdatedTimestamp <= r.value)
  {
    var r := MaxOf(t, ContactUpdated);
    assert r.Some? ==> exists id :: id in t && t[id].lastUpdatedTimestamp == r.value by {
      if r.Some? {
        var id := MaxWitness(t, ContactUpdated);
      }
    }
    r
  }

  /** `getContactCount`: `COUNT(*)`. */
  function ContactCount(t: ContactTable): (n: nat)
    ensures n == 0 <==> t == map[]
    ensures n == |AllContacts(t)|
  {
    |t|
  }

  /** `insertContacts`: rows are written in order, each replacing the stored row
      with its `contactId`. */
  function InsertContacts(t: ContactTable, contacts: seq<ContactEntity>): (r: ContactTable)
    ensures Valid(t) ==> Valid(r)
    ensures r.Keys == t.Keys + KeySet(contacts, ContactKey)
    ensures forall id :: id in t && id !in KeySet(contacts, ContactKey) ==> r[id] == t[id]
    ensures forall i :: 0 <= i < |contacts| && LastWithKey(contacts, ContactKey, i) ==>
              r[contacts[i].contactId] == contacts[i]
  {
    UpsertAll(t, contacts, ContactKey)
  }

  /** `insertContact`. */
  function InsertContact(t: ContactTable, c: ContactEntity): (r: ContactTable)
    ensures Valid(t) ==> Valid(r)
    ensures r.Keys == t.Keys + {c.contactId}
    ensures r[c.contactId] == c
    ensures forall id :: id in t && id != c.contactId ==> r[id] == t[id]
  {
    Upsert(t, c, ContactKey)
  }

  /** `deleteContact`: removes the row with that `contactId` and no other. */
  function DeleteContact(t: ContactTable, contactId: int): (r: ContactTable)
    ensures Valid(t) ==> Valid(r)
    ensures r.Keys == t.Keys - {contactId}
    ensures forall other :: other in r ==> r[other] == t[other]
  {
    Remove(t, contactId)
  }

  /** `deleteAllContacts`. */
  function DeleteAllContacts(t: ContactTable): (r: ContactTable)
    ensures |r| == 0
  {
    map[]
  }

  /** `getContactsUpdatedAfter`: exactly the rows updated strictly after
      `timestamp` (in no particular order). */
  ghost function ContactsUpdatedAfter(t: ContactTable, timestamp: int): (r: seq<ContactEntity>)
    ensures forall c :: c in r ==> c in t.Values && c.lastUpdatedTimestamp > timestamp
    ensures forall c :: c in t.Values && c.lastUpdatedTimestamp > timestamp ==> c in r
    ensures Valid(t) ==> DistinctBy(r, ContactKey)
  {
    var newer := map id | id in t && t[id].lastUpdatedTimestamp > timestamp :: t[id];
    assert forall c :: c in t.Values && c.lastUpdatedTimestamp > timestamp ==> c in newer.Values by {
      forall c | c in t.Values && c.lastUpdatedTimestamp > timestamp ensures c in newer.Values {
        var id := KeyOf(t, c);
        assert newer[id] == c;
      }
    }
    assert Valid(t) ==> DistinctBy(Rows(newer), ContactKey) by {
      if Valid(t) {
        RowsDistinct(newer, ContactKey);
      }
    }
    Rows(newer)
  }

  /** A contact written by an insert is what the lookup by its id then finds;
      after a delete the lookup finds nothing. */
  lemma LookupAfterWrite(t: ContactTable, c: ContactEntity, other: int)
    requires Valid(t)
    ensures ContactById(InsertContact(t, c), c.contactId) == Some(c)
    ensures ContactById(DeleteContact(t, other), other) == None
    ensures other != c.contactId ==> ContactById(InsertContact(t, c), other) == ContactById(t, other)
  {
  }
}
