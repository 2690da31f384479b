/** The contacts screen: the sort spinner, the listing it shows, and the full
    synchronisation it starts when the table holds no contact yet. */
module ContactsActivity {
  import opened Wrappers
  import opened Entities
  import opened Sorting
  import opened Tables
  import opened Decimal
  import opened PhoneNumber
  import opened ContactDao
  import opened ContactRepository

  /** Spinner positions. */
  const SORT_BY_NAME_ASC := 0
  const SORT_BY_NAME_DESC := 1
  const SORT_BY_LAST_UPDATED := 2
  const SORT_BY_MOST_CONTACTED := 3

  /** The option the screen starts with, and the position the spinner is set
      to on creation. */
  const INITIAL_SORT_OPTION := LastUpdated
  const INITIAL_POSITION := SORT_BY_LAST_UPDATED

  /** `onItemSelected`: the option a spinner position selects; an unknown
      position sorts by name. */
  function SortOptionFor(position: int): (o: SortOption)
    ensures !(0 <= position <= 3) ==> o == NameAsc
  {
    if position == SORT_BY_NAME_ASC then NameAsc
    else if position == SORT_BY_NAME_DESC then NameDesc
    else if position == SORT_BY_LAST_UPDATED then LastUpdated
    else if position == SORT_BY_MOST_CONTACTED then MostContacted
    else NameAsc
  }

  /** The spinner position that shows an option. */
  function PositionOf(o: SortOption): (position: int)
    ensures 0 <= position <= 3
    ensures SortOptionFor(position) == o
  {
    match o
    case NameAsc => SORT_BY_NAME_ASC
    case NameDesc => SORT_BY_NAME_DESC
    case LastUpdated => SORT_BY_LAST_UPDATED
    case MostContacted => SORT_BY_MOST_CONTACTED
  }

  /** The four positions and the four options correspond one to one, and the
      spinner's initial position selects the screen's initial option. */
  lemma SortOptionRoundTrip(o: SortOption, position: int)
    ensures SortOptionFor(PositionOf(o)) == o
    ensures 0 <= position <= 3 ==> PositionOf(SortOptionFor(position)) == position
    ensures SortOptionFor(INITIAL_POSITION) == INITIAL_SORT_OPTION
  {
  }

  /** `toContactEntry`: the row as the list shows it, `contactId` becoming the
      entry's id. */
  function ToContactEntry(c: ContactEntity): (e: ContactEntry)
    ensures e.id == c.contactId && e.name == c.name && e.phoneNumber == c.phoneNumber
  {
    ContactEntry(c.contactId, c.name, c.phoneNumber, c.email, c.photoUri,
                 c.lastUpdatedTimestamp, c.timesContacted, c.lastTimeContacted)
  }

  /** The row an entry was made from. */
  function FromContactEntry(e: ContactEntry): (c: ContactEntity)
    ensures c.contactId == e.id
  {
    ContactEntity(e.id, e.name, e.phoneNumber, e.email, e.photoUri,
                  e.lastUpdatedTimestamp, e.timesContacted, e.lastTimeContacted)
  }

  /** The conversion copies every field: it loses nothing and adds nothing. */
  lemma ContactEntryRoundTrip(c: ContactEntity, e: ContactEntry)
    ensures FromContactEntry(ToContactEntry(c)) == c
    ensures ToContactEntry(FromContactEntry(e)) == e
  {
  }

  function EntryId(e: ContactEntry): int { e.id }

  /** `map { it.toContactEntry() }`: one entry per row, in row order. */
  function Entries(cs: seq<ContactEntity>): (r: seq<ContactEntry>)
    ensures |r| == |cs|
    ensures forall i :: 0 <= i < |r| ==> r[i] == ToContactEntry(cs[i])
    ensures forall e :: e in r ==> FromContactEntry(e) in cs
    ensures forall c :: c in cs ==> ToContactEntry(c) in r
    ensures DistinctBy(cs, ContactKey) ==> DistinctBy(r, EntryId)
  {
    var r := seq(|cs|, i requires 0 <= i < |cs| => ToContactEntry(cs[i]));
    assert forall e :: e in r ==> FromContactEntry(e) in cs by {
      forall e | e in r ensures FromContactEntry(e) in cs {
        var i :| 0 <= i < |r| && r[i] == e;
        assert FromContactEntry(e) == cs[i];
      }
    }
    assert forall c :: c in cs ==> ToContactEntry(c) in r by {
      forall c | c in cs ensures ToContactEntry(c) in r {
        var i :| 0 <= i < |cs| && cs[i] == c;
        assert r[i] == ToContactEntry(c);
      }
    }
    assert DistinctBy(cs, ContactKey) ==> DistinctBy(r, EntryId) by {
      if DistinctBy(cs, ContactKey) {
        forall i, j | 0 <= i < j < |r| ensures EntryId(r[i]) != EntryId(r[j]) {
          assert ContactKey(cs[i]) != ContactKey(cs[j]);
        }
      }
    }
    r
  }

  /** The list the screen submits for an option: every stored contact once, as
      an entry, in the option's order. */
  ghost function ContactList(t: ContactTable, sortBy: SortOption, lower: string -> string): (r: seq<ContactEntry>)
    ensures |r| == |t|
    ensures forall e :: e in r ==> FromContactEntry(e) in t.Values
    ensures forall c :: c in t.Values ==> ToContactEntry(c) in r
    ensures Valid(t) ==> DistinctBy(r, EntryId)
    ensures forall i :: 0 <= i < |r| ==> r[i] == ToContactEntry(GetContacts(t, sortBy, lower)[i])
  {
    Entries(GetContacts(t, sortBy, lower))
  }

  /** The result count, `"N contacts"`: the leading digits read back as the
      number of stored contacts. */
  function CountText(t: ContactTable): (text: string)
    ensures text == NatToString(|t|) + " contacts"
    ensures |text| > 9 && text[|text| - 9..] == " contacts"
    ensures AllDigits(text[..|text| - 9]) && ParseNat(text[..|text| - 9]) == |t|
  {
    var count := IntToString(|t|);
    ParseNatToString(|t|);
    assert (count + " contacts")[..|count|] == count;
    count + " contacts"
  }

  /** `loadContacts`'s background step: a full sync exactly when the table has
      no contact. */
  function OpenScreen(t: ContactTable, p: ContactsProvider): (r: ContactTable)
    ensures t != map[] ==> r == t
    ensures t == map[] && p.rows.Available? ==> r.Keys == KeySet(p.rows.rows, ProviderId)
    ensures t == map[] && !p.rows.Available? ==> r == map[]
  {
    if !HasContacts(t) then PerformFullSync(t, p).1 else t
  }

  /** Opening the screen again changes nothing: either the table now has
      contacts, or the full sync found none and would find none again. */
  lemma OpenScreenIdempotent(t: ContactTable, p: ContactsProvider)
    ensures OpenScreen(OpenScreen(t, p), p) == OpenScreen(t, p)
  {
    var once := OpenScreen(t, p);
    if t == map[] && once == map[] {
      assert OpenScreen(once, p) == PerformFullSync(t, p).1;
    }
  }
}
