/** Splitting a duration in seconds as the screens do it:
    `TimeUnit.SECONDS.toHours(s)`, `TimeUnit.SECONDS.toMinutes(s) % 60` and
    `s % 60`, all with Kotlin's truncating division. */
module Durations {
  import opened KotlinMath
  import opened Decimal
  import opened PhoneNumber

  datatype Clock = Clock(hours: int, minutes: int, seconds: int)

  /** For a non-negative duration the three fields are the usual
      hours/minutes/seconds decomposition and recombine to it. */
  function Split(s: int): (c: Clock)
    ensures s >= 0 ==> c.hours >= 0 && 0 <= c.minutes < 60 && 0 <= c.seconds < 60
    ensures s >= 0 ==> c.hours * 3600 + c.minutes * 60 + c.seconds == s
    ensures s >= 0 ==> c == Clock(s / 3600, (s / 60) % 60, s % 60)
  {
    var c := Clock(TruncDiv(s, 3600), TruncRem(TruncDiv(s, 60), 60), TruncRem(s, 60));
    if s >= 0 then
      TruncAgreesOnNatural(s, 3600);
      TruncAgreesOnNatural(s, 60);
      TruncAgreesOnNatural(s / 60, 60);
      NestedDivision(s);
      c
    else c
  }

  /** Minutes of minutes are hours: `(s / 60) / 60 == s / 3600`. */
  lemma NestedDivision(s: nat)
    ensures (s / 60) / 60 == s / 3600
    ensures s == (s / 3600) * 3600 + ((s / 60) % 60) * 60 + s % 60
  {
    var q := s / 60;
    var r := s % 60;
    var h := q / 60;
    var m := q % 60;
    assert s == h * 3600 + (m * 60 + r);
    assert 0 <= m * 60 + r < 3600;
  }

  /** `"%dh %dm %ds"`, `"%dm %ds"` or `"%ds"`, the largest non-zero unit
      first. */
  function HmsText(s: int): (text: string)
    ensures |text| >= 2 && text[|text| - 1] == 's'
    ensures s >= 0 ==> IsDigit(text[0])
    ensures s >= 0 ==> ('h' in text <==> s >= 3600)
    ensures s >= 0 ==> ('m' in text <==> s >= 60)
  {
    var c := Split(s);
    if c.hours > 0 then IntToString(c.hours) + "h " + IntToString(c.minutes) + "m " + IntToString(c.seconds) + "s"
    else if c.minutes > 0 then IntToString(c.minutes) + "m " + IntToString(c.seconds) + "s"
    else IntToString(c.seconds) + "s"
  }

  /** For a non-negative duration, the text in terms of the Euclidean
      decomposition: hours are shown from one hour, minutes from one minute. */
  lemma HmsTextOfNatural(s: int)
    requires s >= 0
    ensures s >= 3600 ==>
      HmsText(s) == NatToString(s / 3600) + "h " + NatToString((s / 60) % 60) + "m " + NatToString(s % 60) + "s"
    ensures 60 <= s < 3600 ==> HmsText(s) == NatToString(s / 60) + "m " + NatToString(s % 60) + "s"
    ensures s < 60 ==> HmsText(s) == NatToString(s) + "s"
  {
    if s >= 3600 {
      HoursShown(s);
    } else if s >= 60 {
      MinutesShown(s);
    } else {
      SecondsShown(s);
    }
  }

  lemma HoursShown(s: int)
    requires s >= 3600
    ensures HmsText(s) == NatToString(s / 3600) + "h " + NatToString((s / 60) % 60) + "m " + NatToString(s % 60) + "s"
  {
    assert Split(s).hours == s / 3600 >= 1;
  }

  lemma MinutesShown(s: int)
    requires 60 <= s < 3600
    ensures HmsText(s) == NatToString(s / 60) + "m " + NatToString(s % 60) + "s"
  {
    assert Split(s) == Clock(0, s / 60, s % 60);
  }

  lemma SecondsShown(s: int)
    requires 0 <= s < 60
    ensures HmsText(s) == NatToString(s) + "s"
  {
    assert Split(s) == Clock(0, 0, s);
  }

  /** Zero seconds reads `"0s"`. */
  lemma ZeroSeconds(s: int)
    requires s == 0
    ensures HmsText(s) == "0s"
  {
    SecondsShown(s);
    ZeroText();
  }

  lemma ZeroText()
    ensures NatToString(0) + "s" == "0s"
  {
    assert NatToString(0) == ['0'];
  }
}
