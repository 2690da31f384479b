/** `ContactObserver`: on a contacts change notification it debounces, then runs
    the repository's incremental contact sync and the completion callback. */
module ContactObserver {
  import opened Sorting
  import opened ContactDao
  import opened ContactRepository
  import opened Debounce

  /** `onChange` at time `now`: the new mark, the new table and whether the
      callback ran. `syncContacts` reports failure by returning false rather
      than throwing, so a started sync always reaches the callback. */
  function OnChange(d: Debouncer, t: ContactTable, now: int, p: ContactsProvider): (r: (Debouncer, ContactTable, bool))
    ensures r.2 <==> now > d.lastSyncTime + WINDOW_MS
    ensures !r.2 ==> r == (d, t, false)
    ensures r.2 ==> r.0 == Debouncer(now)
    ensures r.2 && p.rows.Unavailable? ==> r.1 == t
    ensures Valid(t) ==> Valid(r.1)
  {
    var step := Debounce.OnChange(d, now);
    if step.1 then
      var sync := SyncContacts(t, p);
      (step.0, sync.1, true)
    else (d, t, false)
  }

  /** A sequence of notifications against one provider state: the final mark,
      the final table and how many callbacks ran, which is exactly the number
      of notifications the debounce let through. */
  function RunAll(d: Debouncer, t: ContactTable, times: seq<int>, p: ContactsProvider): (r: (Debouncer, ContactTable, nat))
    ensures r.0 == Run(d, times).0
    ensures r.2 == SyncsStarted(Run(d, times).1)
    decreases |times|
  {
    if |times| == 0 then (d, t, 0)
    else
      var step := OnChange(d, t, times[0], p);
      var rest := RunAll(step.0, step.1, times[1..], p);
      var fired := Run(d, times).1;
      assert fired[0] == step.2 && fired[1..] == Run(step.0, times[1..]).1;
      (rest.0, rest.1, (if step.2 then 1 else 0) + rest.2)
  }

  /** Against a provider that reports update times and lists each contact
      once, any burst of notifications leaves the table a single incremental
      sync would, or untouched when every notification was dropped. */
  lemma {:induction false} RunAllSyncsOnce(d: Debouncer, t: ContactTable, times: seq<int>, p: ContactsProvider)
    requires p.reportsLastUpdated
    requires p.rows.Available? ==> DistinctBy(p.rows.rows, ProviderId)
    ensures var r := RunAll(d, t, times, p);
      r.1 == if r.2 > 0 then SyncContacts(t, p).1 else t
    decreases |times|
  {
    if |times| > 0 {
      var step := OnChange(d, t, times[0], p);
      RunAllSyncsOnce(step.0, step.1, times[1..], p);
      if step.2 {
        SyncContactsIdempotent(t, p);
      }
    }
  }
}
