/** What one row of the main list shows: the name line, the number line, the
    duration in clock notation and the call-type label, and the rules by which
    the list decides that two rows are the same row or unchanged. */
module CallLogAdapter {
  import opened Wrappers
  import opened Entities
  import opened PhoneNumber
  import opened Decimal
  import opened Durations

  /** The labels of call types 1 to 6, in type-code order. */
  const CALL_TYPE_LABELS: seq<string> :=
    ["Incoming", "Outgoing", "Missed", "Voicemail", "Rejected", "Blocked"]

  /** The call-type label; both list adapters use the same table. */
  function CallTypeLabel(code: int): (text: string)
    ensures 1 <= code <= 6 ==> text == CALL_TYPE_LABELS[code - 1]
    ensures !(1 <= code <= 6) ==> text == "Unknown"
  {
    if code == TYPE_INCOMING then "Incoming"
    else if code == TYPE_OUTGOING then "Outgoing"
    else if code == TYPE_MISSED then "Missed"
    else if code == TYPE_VOICEMAIL then "Voicemail"
    else if code == TYPE_REJECTED then "Rejected"
    else if code == TYPE_BLOCKED then "Blocked"
    else "Unknown"
  }

  /** Reading a label back: the type code it names, if it names one. */
  function CallTypeOfLabel(text: string): (code: Option<int>)
    ensures code.Some? ==> 1 <= code.value <= 6 && CALL_TYPE_LABELS[code.value - 1] == text
    ensures code.None? ==> text !in CALL_TYPE_LABELS
  {
    if text == "Incoming" then Some(1)
    else if text == "Outgoing" then Some(2)
    else if text == "Missed" then Some(3)
    else if text == "Voicemail" then Some(4)
    else if text == "Rejected" then Some(5)
    else if text == "Blocked" then Some(6)
    else None
  }

  /** The label identifies the type: every known code reads back as itself, and
      every other code shows the one label that names no type. */
  lemma CallTypeLabelRoundTrip(code: int)
    ensures 1 <= code <= 6 ==> CallTypeOfLabel(CallTypeLabel(code)) == Some(code)
    ensures !(1 <= code <= 6) ==> CallTypeOfLabel(CallTypeLabel(code)).None?
  {
  }

  /** The name line: the name, or the number when there is none. */
  function DisplayName(e: CallLogEntry): (text: string)
    ensures e.name.Some? ==> text == e.name.value
    ensures e.name.None? ==> text == e.number
  {
    e.name.GetOr(e.number)
  }

  /** The number line, `"number (callCount)"`: the number, then the count in
      parentheses. */
  function NumberLine(e: CallLogEntry): (text: string)
    ensures |text| == |e.number| + |IntToString(e.callCount)| + 3
    ensures text[..|e.number|] == e.number
    ensures text[|e.number|..|e.number| + 2] == " (" && text[|text| - 1] == ')'
    ensures e.callCount >= 0 ==> text[|e.number| + 2..|text| - 1] == NatToString(e.callCount)
  {
    e.number + " (" + IntToString(e.callCount) + ")"
  }

  /** The duration shown on a row: nothing for zero, `m:ss` below an hour and
      `h:mm:ss` from one hour on. */
  function FormatDuration(seconds: int): (text: string)
    ensures seconds == 0 <==> text == ""
  {
    if seconds == 0 then ""
    else
      var c := Split(seconds);
      if c.hours > 0 then IntToString(c.hours) + ":" + Pad2(c.minutes) + ":" + Pad2(c.seconds)
      else IntToString(c.minutes) + ":" + Pad2(c.seconds)
  }

  /** For a positive duration, the text in terms of the Euclidean decomposition. */
  lemma FormatDurationOfNatural(seconds: int)
    requires seconds > 0
    ensures seconds >= 3600 ==>
      FormatDuration(seconds) == NatToString(seconds / 3600) + ":" + Pad2((seconds / 60) % 60) + ":" + Pad2(seconds % 60)
    ensures seconds < 3600 ==> FormatDuration(seconds) == NatToString(seconds / 60) + ":" + Pad2(seconds % 60)
  {
    var c := Split(seconds);
    assert c == Clock(seconds / 3600, (seconds / 60) % 60, seconds % 60);
  }

  /** Two texts that end in a colon and a field of the same width agree on both
      sides of that colon when they are equal. */
  lemma LastField(a: string, r: string, b: string, q: string)
    requires |r| == |q|
    requires a + ":" + r == b + ":" + q
    ensures a == b && r == q
  {
    var x := a + ":" + r;
    assert a == x[..|x| - |r| - 1] == b;
    assert r == x[|x| - |r|..] == q;
  }

  /** A padded clock field is two digits wide. */
  lemma Pad2Width(i: int)
    requires 0 <= i < 60
    ensures |Pad2(i)| == 2
  {
  }

  /** Distinct non-negative durations are shown as distinct texts. */
  lemma FormatDurationInjective(s: int, t: int)
    requires s >= 0 && t >= 0
    requires FormatDuration(s) == FormatDuration(t)
    ensures s == t
  {
    if s != 0 && t != 0 {
      FormatDurationOfNatural(s);
      FormatDurationOfNatural(t);
      if s >= 3600 && t >= 3600 {
        FieldsOfLong(s, t);
      } else if s < 3600 && t < 3600 {
        FieldsOfShort(s, t);
      } else if s >= 3600 {
        ShapesDiffer(t, s);
      } else {
        ShapesDiffer(s, t);
      }
    }
  }

  lemma FieldsOfLong(s: int, t: int)
    requires s >= 3600 && t >= 3600
    requires NatToString(s / 3600) + ":" + Pad2((s / 60) % 60) + ":" + Pad2(s % 60)
          == NatToString(t / 3600) + ":" + Pad2((t / 60) % 60) + ":" + Pad2(t % 60)
    ensures s == t
  {
    var h, m, c := NatToString(s / 3600), Pad2((s / 60) % 60), Pad2(s % 60);
    var h', m', c' := NatToString(t / 3600), Pad2((t / 60) % 60), Pad2(t % 60);
    Pad2Width(s % 60);
    Pad2Width(t % 60);
    Pad2Width((s / 60) % 60);
    Pad2Width((t / 60) % 60);
    LastField(h + ":" + m, c, h' + ":" + m', c');
    LastField(h, m, h', m');
    NatToStringInjective(s / 3600, t / 3600);
    ParseNatToString((s / 60) % 60);
    ParseNatToString(s % 60);
    NestedDivision(s);
    NestedDivision(t);
  }

  lemma FieldsOfShort(s: int, t: int)
    requires 0 < s < 3600 && 0 < t < 3600
    requires NatToString(s / 60) + ":" + Pad2(s % 60) == NatToString(t / 60) + ":" + Pad2(t % 60)
    ensures s == t
  {
    Pad2Width(s % 60);
    Pad2Width(t % 60);
    LastField(NatToString(s / 60), Pad2(s % 60), NatToString(t / 60), Pad2(t % 60));
    NatToStringInjective(s / 60, t / 60);
  }

  /** A text with one colon never equals one with two: the minutes field would
      have to hold a colon. */
  lemma ShapesDiffer(s: int, t: int)
    requires 0 < s < 3600 && t >= 3600
    ensures NatToString(s / 60) + ":" + Pad2(s % 60)
         != NatToString(t / 3600) + ":" + Pad2((t / 60) % 60) + ":" + Pad2(t % 60)
  {
    var m, c := NatToString(s / 60), Pad2(s % 60);
    var h', m', c' := NatToString(t / 3600), Pad2((t / 60) % 60), Pad2(t % 60);
    Pad2Width(s % 60);
    Pad2Width(t % 60);
    if m + ":" + c == h' + ":" + m' + ":" + c' {
      LastField(m, c, h' + ":" + m', c');
    }
  }

  /** `areItemsTheSame`: rows are the same row when their ids agree. */
  predicate SameItem(a: CallLogEntry, b: CallLogEntry) {
    a.id == b.id
  }

  /** `areContentsTheSame`: a row is unchanged when the whole record is. */
  predicate SameContents(a: CallLogEntry, b: CallLogEntry) {
    a == b
  }

  /** An unchanged row is the same row, and rows that differ only in what they
      show are the same row with changed contents. */
  lemma SameContentsIsSameItem(a: CallLogEntry, b: CallLogEntry)
    ensures SameContents(a, b) ==> SameItem(a, b)
    ensures SameItem(a, b) && a.date != b.date ==> !SameContents(a, b)
  {
  }
}
