/** What one row of the contacts list shows, and the rules by which the list
    decides that two rows are the same contact or unchanged. Upper-casing a
    character follows the platform's Unicode tables, so it is a parameter. */
module ContactsAdapter {
  import opened Wrappers
  import opened Entities
  import opened Decimal

  /** The name line: the name, or `"Unknown"`. */
  function NameText(e: ContactEntry): (text: string)
    ensures e.name.Some? ==> text == e.name.value
    ensures e.name.None? ==> text == "Unknown"
  {
    e.name.GetOr("Unknown")
  }

  /** The phone line: the number, or `"No phone number"`. */
  function PhoneText(e: ContactEntry): (text: string)
    ensures e.phoneNumber.Some? ==> text == e.phoneNumber.value
    ensures e.phoneNumber.None? ==> text == "No phone number"
  {
    e.phoneNumber.GetOr("No phone number")
  }

  /** `"Contacted: N times"`. */
  function TimesContactedText(e: ContactEntry): (text: string)
    ensures |text| == |IntToString(e.timesContacted)| + 17
    ensures text[..11] == "Contacted: " && text[|text| - 6..] == " times"
    ensures e.timesContacted >= 0 ==> text[11..|text| - 6] == NatToString(e.timesContacted)
  {
    var count := IntToString(e.timesContacted);
    var text := "Contacted: " + count + " times";
    assert text[11..|text| - 6] == count;
    text
  }

  /** The avatar letter: the upper-cased first character of the name, or `"?"`
      when there is no name or it is empty. */
  function Initial(e: ContactEntry, upper: char -> char): (text: string)
    ensures |text| == 1
    ensures e.name.Some? && |e.name.value| > 0 ==> text[0] == upper(e.name.value[0])
    ensures e.name.None? || e.name.value == "" ==> text == "?"
  {
    match e.name
    case Some(n) => if |n| > 0 then [upper(n[0])] else "?"
    case None => "?"
  }

  /** The avatar depends on the first letter only: names that start alike
      show the same avatar. */
  lemma InitialOfFirstLetter(a: ContactEntry, b: ContactEntry, upper: char -> char)
    requires a.name.Some? && b.name.Some? && |a.name.value| > 0 && |b.name.value| > 0
    requires a.name.value[0] == b.name.value[0]
    ensures Initial(a, upper) == Initial(b, upper)
  {
  }

  /** `areItemsTheSame`: the same contact when the ids agree. */
  predicate SameItem(a: ContactEntry, b: ContactEntry) {
    a.id == b.id
  }

  /** `areContentsTheSame`: unchanged when the whole entry is. */
  predicate SameContents(a: ContactEntry, b: ContactEntry) {
    a == b
  }

  /** An unchanged row is the same contact; a contact whose count changed is
      the same row with new contents. */
  lemma SameContentsIsSameItem(a: ContactEntry, b: ContactEntry)
    ensures SameContents(a, b) ==> SameItem(a, b)
    ensures SameItem(a, b) && a.timesContacted != b.timesContacted ==> !SameContents(a, b)
  {
  }
}
