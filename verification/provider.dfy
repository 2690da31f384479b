/** The rows the system providers hand the app (the call log and the SMS store,
    with the columns the app projects), and the entities the app builds from
    them. A cursor loop that `continue`s past a null number or address keeps
    the remaining rows in cursor order. */
module Provider {
  import opened Wrappers
  import opened Entities
  import opened PhoneNumber
  import opened Seqs

  /** A `CallLog.Calls` row: `_ID`, `NUMBER`, `CACHED_NAME`, `TYPE`, `DATE`,
      `DURATION`. */
  datatype RawCall = RawCall(
    id: string,
    number: Option<string>,
    cachedName: Option<string>,
    typeCode: int,
    date: int,
    duration: int)

  /** A `Telephony.Sms` row: `_ID`, `ADDRESS`, `TYPE`, `DATE`, `BODY`, `READ`. */
  datatype RawSms = RawSms(
    id: string,
    address: Option<string>,
    typeCode: int,
    date: int,
    body: Option<string>,
    read: int)

  /** The entity stored for a call-log row with a number; `saved` decides
      `isContactSaved` from the normalised number. */
  function CallFromRow(row: RawCall, saved: string -> bool): (c: CallEntity)
    requires row.number.Some?
    ensures c.id == row.id && c.number == row.number.value
    ensures c.normalizedNumber == Normalize(c.number)
    ensures c.isContactSaved == saved(c.normalizedNumber)
    ensures c.name == row.cachedName && c.typeCode == row.typeCode
    ensures c.date == row.date && c.duration == row.duration
  {
    var number := row.number.value;
    CallEntity(row.id, number, Normalize(number), row.cachedName, row.typeCode,
               row.date, row.duration, saved(Normalize(number)))
  }

  /** The entity stored for an SMS row with an address: no name, a null body
      read as `""`, and `read` exactly when the raw flag is 1. */
  function MessageFromRow(row: RawSms, saved: string -> bool): (m: MessageEntity)
    requires row.address.Some?
    ensures m.id == row.id && m.address == row.address.value
    ensures m.normalizedAddress == Normalize(m.address)
    ensures m.isContactSaved == saved(m.normalizedAddress)
    ensures m.name == None
    ensures m.typeCode == row.typeCode && m.date == row.date
    ensures row.body.Some? ==> m.body == row.body.value
    ensures row.body.None? ==> m.body == ""
    ensures m.read <==> row.read == 1
  {
    var address := row.address.value;
    MessageEntity(row.id, address, Normalize(address), None, row.typeCode, row.date,
                  row.body.GetOr(""), saved(Normalize(address)), row.read == 1)
  }

  function RawCallDate(row: RawCall): int { row.date }
  function RawSmsDate(row: RawSms): int { row.date }

  predicate HasNumber(row: RawCall) { row.number.Some? }
  predicate HasAddress(row: RawSms) { row.address.Some? }

  /** The cursor loop over call-log rows: rows without a number are skipped, the
      others become entities in cursor order. */
  function CallEntities(rows: seq<RawCall>, saved: string -> bool): (r: seq<CallEntity>)
    ensures |r| == |Filter(rows, HasNumber)|
    ensures forall c :: c in r ==> exists row :: row in rows && row.number.Some? && c == CallFromRow(row, saved)
    ensures forall row :: row in rows && row.number.Some? ==> CallFromRow(row, saved) in r
    decreases |rows|
  {
    if |rows| == 0 then []
    else
      assert forall row :: row in rows ==> row == rows[0] || row in rows[1..];
      (if rows[0].number.Some? then [CallFromRow(rows[0], saved)] else []) + CallEntities(rows[1..], saved)
  }

  /** The cursor loop over SMS rows: rows without an address are skipped. */
  function MessageEntities(rows: seq<RawSms>, saved: string -> bool): (r: seq<MessageEntity>)
    ensures |r| == |Filter(rows, HasAddress)|
    ensures forall m :: m in r ==> exists row :: row in rows && row.address.Some? && m == MessageFromRow(row, saved)
    ensures forall row :: row in rows && row.address.Some? ==> MessageFromRow(row, saved) in r
    decreases |rows|
  {
    if |rows| == 0 then []
    else
      assert forall row :: row in rows ==> row == rows[0] || row in rows[1..];
      (if rows[0].address.Some? then [MessageFromRow(rows[0], saved)] else []) + MessageEntities(rows[1..], saved)
  }

  lemma CallEntitiesCons(row: RawCall, rest: seq<RawCall>, saved: string -> bool)
    ensures row.number.Some? ==> CallEntities([row] + rest, saved) == [CallFromRow(row, saved)] + CallEntities(rest, saved)
    ensures row.number.None? ==> CallEntities([row] + rest, saved) == CallEntities(rest, saved)
  {
    assert ([row] + rest)[0] == row && ([row] + rest)[1..] == rest;
  }

  lemma MessageEntitiesCons(row: RawSms, rest: seq<RawSms>, saved: string -> bool)
    ensures row.address.Some? ==> MessageEntities([row] + rest, saved) == [MessageFromRow(row, saved)] + MessageEntities(rest, saved)
    ensures row.address.None? ==> MessageEntities([row] + rest, saved) == MessageEntities(rest, saved)
  {
    assert ([row] + rest)[0] == row && ([row] + rest)[1..] == rest;
  }

  /** Selecting rows by date before building entities is selecting entities by
      date afterwards: an entity carries its row's date. */
  lemma {:induction false} CallEntitiesOfDated(rows: seq<RawCall>, saved: string -> bool, since: int)
    ensures CallEntities(Filter(rows, After(RawCallDate, since)), saved)
         == Filter(CallEntities(rows, saved), After(CallDate, since))
    decreases |rows|
  {
    var p := After(RawCallDate, since);
    var q := After(CallDate, since);
    if |rows| > 0 {
      var row, rest := rows[0], rows[1..];
      assert rows == [row] + rest;
      CallEntitiesOfDated(rest, saved, since);
      var keptRest := Filter(rest, p);
      var builtRest := CallEntities(rest, saved);
      assert CallEntities(keptRest, saved) == Filter(builtRest, q);
      AfterHolds(RawCallDate, since, row);
      FilterCons(row, rest, p);
      CallEntitiesCons(row, rest, saved);
      if p(row) {
        CallEntitiesCons(row, keptRest, saved);
      }
      if row.number.Some? {
        var c := CallFromRow(row, saved);
        AfterHolds(CallDate, since, c);
        FilterCons(c, builtRest, q);
        if p(row) {
          assert CallEntities(Filter(rows, p), saved) == [c] + CallEntities(keptRest, saved);
          assert Filter(CallEntities(rows, saved), q) == [c] + Filter(builtRest, q);
        } else {
          assert CallEntities(Filter(rows, p), saved) == CallEntities(keptRest, saved);
          assert Filter(CallEntities(rows, saved), q) == Filter(builtRest, q);
        }
      } else {
        assert CallEntities(Filter(rows, p), saved) == CallEntities(keptRest, saved);
        assert Filter(CallEntities(rows, saved), q) == Filter(builtRest, q);
      }
    }
  }

  lemma {:induction false} MessageEntitiesOfDated(rows: seq<RawSms>, saved: string -> bool, since: int)
    ensures MessageEntities(Filter(rows, After(RawSmsDate, since)), saved)
         == Filter(MessageEntities(rows, saved), After(MessageDate, since))
    decreases |rows|
  {
    var p := After(RawSmsDate, since);
    var q := After(MessageDate, since);
    if |rows| > 0 {
      var row, rest := rows[0], rows[1..];
      assert rows == [row] + rest;
      MessageEntitiesOfDated(rest, saved, since);
      var keptRest := Filter(rest, p);
      var builtRest := MessageEntities(rest, saved);
      assert MessageEntities(keptRest, saved) == Filter(builtRest, q);
      AfterHolds(RawSmsDate, since, row);
      FilterCons(row, rest, p);
      MessageEntitiesCons(row, rest, saved);
      if p(row) {
        MessageEntitiesCons(row, keptRest, saved);
      }
      if row.address.Some? {
        var m := MessageFromRow(row, saved);
        AfterHolds(MessageDate, since, m);
        FilterCons(m, builtRest, q);
        if p(row) {
          assert MessageEntities(Filter(rows, p), saved) == [m] + MessageEntities(keptRest, saved);
          assert Filter(MessageEntities(rows, saved), q) == [m] + Filter(builtRest, q);
        } else {
          assert MessageEntities(Filter(rows, p), saved) == MessageEntities(keptRest, saved);
          assert Filter(MessageEntities(rows, saved), q) == Filter(builtRest, q);
        }
      } else {
        assert MessageEntities(Filter(rows, p), saved) == MessageEntities(keptRest, saved);
        assert Filter(MessageEntities(rows, saved), q) == Filter(builtRest, q);
      }
    }
  }

  /** Rows with distinct ids give entities with distinct ids. */
  lemma {:induction false} CallEntitiesDistinct(rows: seq<RawCall>, saved: string -> bool)
    requires forall i, j :: 0 <= i < j < |rows| ==> rows[i].id != rows[j].id
    ensures forall i, j :: 0 <= i < j < |CallEntities(rows, saved)| ==>
              CallEntities(rows, saved)[i].id != CallEntities(rows, saved)[j].id
    decreases |rows|
  {
    if |rows| > 0 {
      CallEntitiesDistinct(rows[1..], saved);
      var rest := CallEntities(rows[1..], saved);
      forall k | 0 <= k < |rest| ensures rest[k].id != rows[0].id {
        assert rest[k] in rest;
        var row :| row in rows[1..] && row.number.Some? && rest[k] == CallFromRow(row, saved);
      }
    }
  }

  lemma {:induction false} MessageEntitiesDistinct(rows: seq<RawSms>, saved: string -> bool)
    requires forall i, j :: 0 <= i < j < |rows| ==> rows[i].id != rows[j].id
    ensures forall i, j :: 0 <= i < j < |MessageEntities(rows, saved)| ==>
              MessageEntities(rows, saved)[i].id != MessageEntities(rows, saved)[j].id
    decreases |rows|
  {
    if |rows| > 0 {
      MessageEntitiesDistinct(rows[1..], saved);
      var rest := MessageEntities(rows[1..], saved);
      forall k | 0 <= k < |rest| ensures rest[k].id != rows[0].id {
        assert rest[k] in rest;
        var row :| row in rows[1..] && row.address.Some? && rest[k] == MessageFromRow(row, saved);
      }
    }
  }
}
