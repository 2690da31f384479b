/** The leading-edge debounce every content observer keeps: a notification at
    time `now` starts a sync only when more than a second has passed since the
    last sync it started, and only a started sync moves the mark. The clock is
    a parameter. */
module Debounce {

  /** The debounce window, in milliseconds. */
  const WINDOW_MS := 1000

  datatype Debouncer = Debouncer(lastSyncTime: int)

  /** A new observer has never synced; its mark is 0. */
  const Initial := Debouncer(0)

  /** `onChange` at time `now`: the next state and whether a sync starts. */
  function OnChange(d: Debouncer, now: int): (r: (Debouncer, bool))
    ensures r.1 ==> now > d.lastSyncTime + WINDOW_MS && r.0 == Debouncer(now)
    ensures !r.1 ==> now <= d.lastSyncTime + WINDOW_MS && r.0 == d
  {
    if now - d.lastSyncTime > WINDOW_MS then (Debouncer(now), true) else (d, false)
  }

  /** A sequence of notifications: the final state and, for each, whether it
      started a sync. */
  function Run(d: Debouncer, times: seq<int>): (r: (Debouncer, seq<bool>))
    ensures |r.1| == |times|
    decreases |times|
  {
    if |times| == 0 then (d, [])
    else
      var step := OnChange(d, times[0]);
      var rest := Run(step.0, times[1..]);
      (rest.0, [step.1] + rest.1)
  }

  /** How many notifications started a sync. */
  function SyncsStarted(fired: seq<bool>): (n: nat)
    ensures n <= |fired|
    ensures n == 0 <==> forall i :: 0 <= i < |fired| ==> !fired[i]
    decreases |fired|
  {
    if |fired| == 0 then 0
    else
      assert forall i :: 1 <= i < |fired| ==> fired[i] == fired[1..][i - 1];
      (if fired[0] then 1 else 0) + SyncsStarted(fired[1..])
  }

  /** Every started sync is more than a window after the starting mark, and any
      two started syncs are more than a window apart, whatever the clock does in
      between. */
  lemma {:induction false} RunSpaced(d: Debouncer, times: seq<int>)
    ensures var fired := Run(d, times).1;
      forall i :: 0 <= i < |times| && fired[i] ==> times[i] > d.lastSyncTime + WINDOW_MS
    ensures var fired := Run(d, times).1;
      forall i, j :: 0 <= i < j < |times| && fired[i] && fired[j] ==> times[j] > times[i] + WINDOW_MS
    decreases |times|
  {
    if |times| > 0 {
      var step := OnChange(d, times[0]);
      RunSpaced(step.0, times[1..]);
      var fired := Run(d, times).1;
      var rest := Run(step.0, times[1..]).1;
      assert forall k :: 0 <= k < |rest| ==> fired[k + 1] == rest[k] && times[k + 1] == times[1..][k];
    }
  }

  /** The final mark is the time of the last started sync, or the starting mark
      when nothing started. */
  lemma {:induction false} RunFinalMark(d: Debouncer, times: seq<int>)
    ensures var r := Run(d, times);
      (forall i :: 0 <= i < |times| ==> !r.1[i]) ==> r.0 == d
    ensures var r := Run(d, times);
      forall i :: 0 <= i < |times| && r.1[i] && (forall j :: i < j < |times| ==> !r.1[j]) ==>
        r.0 == Debouncer(times[i])
    decreases |times|
  {
    if |times| > 0 {
      var step := OnChange(d, times[0]);
      RunFinalMark(step.0, times[1..]);
      var r := Run(d, times);
      var rest := Run(step.0, times[1..]);
      assert forall k :: 0 <= k < |rest.1| ==> r.1[k + 1] == rest.1[k] && times[k + 1] == times[1..][k];
      assert r.0 == rest.0 && r.1[0] == step.1;
      if forall i :: 0 <= i < |times| ==> !r.1[i] {
        assert step.0 == d;
      }
    }
  }

  /** A burst of notifications within a window of the mark is dropped whole and
      leaves the state as it was. */
  lemma {:induction false} BurstDropped(d: Debouncer, times: seq<int>)
    requires forall i :: 0 <= i < |times| ==> times[i] <= d.lastSyncTime + WINDOW_MS
    ensures Run(d, times).0 == d
    ensures forall i :: 0 <= i < |times| ==> !Run(d, times).1[i]
    decreases |times|
  {
    if |times| > 0 {
      BurstDropped(d, times[1..]);
      var r := Run(d, times);
      var rest := Run(d, times[1..]);
      assert forall k :: 0 <= k < |rest.1| ==> r.1[k + 1] == rest.1[k];
    }
  }

  /** A burst right after a started sync yields that one sync only. */
  lemma LeadingEdge(d: Debouncer, first: int, burst: seq<int>)
    requires first > d.lastSyncTime + WINDOW_MS
    requires forall i :: 0 <= i < |burst| ==> first <= burst[i] <= first + WINDOW_MS
    ensures var r := Run(d, [first] + burst);
      r.0 == Debouncer(first) && r.1[0] && forall i :: 1 <= i <= |burst| ==> !r.1[i]
  {
    BurstDropped(Debouncer(first), burst);
    assert ([first] + burst)[1..] == burst;
    var r := Run(d, [first] + burst);
    var rest := Run(Debouncer(first), burst);
    assert forall k :: 0 <= k < |rest.1| ==> r.1[k + 1] == rest.1[k];
  }

  /** One notification, then the rest. */
  lemma RunCons(d: Debouncer, now: int, rest: seq<int>)
    ensures var step := OnChange(d, now);
      Run(d, [now] + rest) == (Run(step.0, rest).0, [step.1] + Run(step.0, rest).1)
  {
    assert ([now] + rest)[1..] == rest;
  }

  /** Notifications at 0, 200, 400 and 1500 ms on a new observer: the first is
      within a window of the initial mark, so only the last starts a sync. */
  lemma FromStart()
    ensures Run(Initial, [0, 200, 400, 1500]) == (Debouncer(1500), [false, false, false, true])
  {
    var d := Initial;
    RunCons(d, 1500, []);
    RunCons(d, 400, [1500]);
    RunCons(d, 200, [400, 1500]);
    RunCons(d, 0, [200, 400, 1500]);
    assert [1500] + [] == [1500];
    assert [400] + [1500] == [400, 1500];
    assert [200] + [400, 1500] == [200, 400, 1500];
    assert [0] + [200, 400, 1500] == [0, 200, 400, 1500];
    assert [false] + ([false] + ([false] + ([true] + []))) == [false, false, false, true];
  }

  /** The same burst pattern well after the start: the first and the last start
      syncs. */
  lemma LaterBurst(t: int)
    requires t > WINDOW_MS
    ensures Run(Initial, [t, t + 200, t + 400, t + 1500]) ==
            (Debouncer(t + 1500), [true, false, false, true])
  {
    var d := Debouncer(t);
    RunCons(d, t + 1500, []);
    RunCons(d, t + 400, [t + 1500]);
    RunCons(d, t + 200, [t + 400, t + 1500]);
    RunCons(Initial, t, [t + 200, t + 400, t + 1500]);
    assert [t + 1500] + [] == [t + 1500];
    assert [t + 400] + [t + 1500] == [t + 400, t + 1500];
    assert [t + 200] + [t + 400, t + 1500] == [t + 200, t + 400, t + 1500];
    assert [t] + [t + 200, t + 400, t + 1500] == [t, t + 200, t + 400, t + 1500];
    assert [true] + ([false] + ([false] + ([true] + []))) == [true, false, false, true];
  }
}
