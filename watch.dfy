/**
 One watch cycle: the startup callback, then one sample per poll tick fed to
 the debouncer, with every callback's transport error ending the cycle.

 The callback (an HTTP GET in the program) is abstracted as `getOk`: the
 GET with sequence number `n`, counted over the whole run of the program,
 succeeds iff `getOk(n)`. The endless loop is modelled over a finite
 sequence of snapshots, one per poll tick.
 */
module Watch {
  import opened Configuration
  import opened Matcher
  import opened Debounce

  /** How a cycle ends within the modelled ticks: still watching when the
      ticks run out, or with the error of a failed callback. */
  datatype CycleEnd = Watching | Errored

  /** The callbacks a cycle made, in order, and how it ended. */
  datatype CycleRun = CycleRun(calls: seq<bool>, end: CycleEnd)

  /** The matcher's verdict at each tick. */
  ghost function Samples(required: seq<string>, ticks: seq<Snapshot>): (s: seq<bool>)
    ensures |s| == |ticks|
    ensures forall t :: 0 <= t < |ticks| ==> s[t] == AnyMatch(required, ticks[t])
  {
    if |ticks| == 0 then [] else Samples(required, ticks[..|ticks| - 1]) + [AnyMatch(required, ticks[|ticks| - 1])]
  }

  /** The callbacks a cycle makes when none fails: the startup `false`, then
      one per change of the sampled value. */
  ghost function Intended(required: seq<string>, ticks: seq<Snapshot>): seq<bool> {
    [false] + Notifications(false, Samples(required, ticks))
  }

  /** The offset, from `base`, of the first failing GET among the next `len`
      ones, or `len` if they all succeed. */
  ghost function FirstFailure(getOk: nat -> bool, base: nat, len: nat): (k: nat)
    ensures k <= len
    ensures forall n :: base <= n < base + k ==> getOk(n)
    ensures k < len ==> !getOk(base + k)
    decreases len
  {
    if len == 0 || !getOk(base) then 0 else 1 + FirstFailure(getOk, base + 1, len - 1)
  }

  /** The first failure is the only offset with those properties. */
  lemma FirstFailureAt(getOk: nat -> bool, base: nat, len: nat, k: nat)
    requires k <= len
    requires forall n :: base <= n < base + k ==> getOk(n)
    requires k < len ==> !getOk(base + k)
    ensures FirstFailure(getOk, base, len) == k
  {
  }

  /**
   A cycle whose first GET has number `base`: it makes the intended callbacks
   up to and including the first one that fails, and ends with an error there;
   if none fails it makes them all and is still watching.
   */
  ghost function Cycle(required: seq<string>, ticks: seq<Snapshot>, getOk: nat -> bool, base: nat): (r: CycleRun)
    ensures |r.calls| >= 1
  {
    var intended := Intended(required, ticks);
    var k := FirstFailure(getOk, base, |intended|);
    if k < |intended| then CycleRun(intended[..k + 1], Errored) else CycleRun(intended, Watching)
  }

  /** What a cycle does: the startup `false` first; a prefix of the intended
      callbacks; every callback but the last succeeded; the cycle ended with
      an error iff the last one failed, and otherwise made them all. */
  lemma CycleProperties(required: seq<string>, ticks: seq<Snapshot>, getOk: nat -> bool, base: nat)
    ensures var r := Cycle(required, ticks, getOk, base);
      && 1 <= |r.calls| <= |Intended(required, ticks)|
      && r.calls == Intended(required, ticks)[..|r.calls|]
      && r.calls[0] == false
      && (forall n :: base <= n < base + |r.calls| - 1 ==> getOk(n))
      && (r.end == Errored <==> !getOk(base + |r.calls| - 1))
      && (r.end == Watching ==> r.calls == Intended(required, ticks))
  {
  }

  /** The loop's state after tick `t`: a callback with the sample is added
      iff the sample differs from the stored state, which becomes the sample. */
  lemma TickStep(samples: seq<bool>, t: nat, calls: seq<bool>, currentlyOn: bool)
    requires t < |samples|
    requires calls == [false] + Notifications(false, samples[..t])
    requires currentlyOn == LastOr(false, samples[..t])
    ensures (if samples[t] != currentlyOn then calls + [samples[t]] else calls)
            == [false] + Notifications(false, samples[..t + 1])
    ensures samples[t] == LastOr(false, samples[..t + 1])
  {
    assert samples[..t + 1] == samples[..t] + [samples[t]];
    Tick(false, samples[..t], samples[t]);
    if samples[t] != currentlyOn {
      assert calls + [samples[t]] == [false] + (Notifications(false, samples[..t]) + [samples[t]]);
    }
  }

  /** The state after `t` ticks: `false` at startup, then the latest sample. */
  ghost function StateAfter(samples: seq<bool>, t: nat): bool
    requires t <= |samples|
  {
    if t == 0 then false else samples[t - 1]
  }

  /** The callbacks of the loop after `t` ticks, one tick at a time: the
      startup `false`, then the sample at each tick that differs from the state. */
  ghost function CallsAfter(samples: seq<bool>, t: nat): (calls: seq<bool>)
    requires t <= |samples|
    ensures 1 <= |calls| <= t + 1 && calls[0] == false
  {
    if t == 0 then [false]
    else if samples[t - 1] != StateAfter(samples, t - 1) then CallsAfter(samples, t - 1) + [samples[t - 1]]
    else CallsAfter(samples, t - 1)
  }

  /** Tick by tick, the loop makes the debouncer's callbacks and keeps its state. */
  lemma {:induction false} CallsAfterNotifications(samples: seq<bool>, t: nat)
    requires t <= |samples|
    ensures CallsAfter(samples, t) == [false] + Notifications(false, samples[..t])
    ensures StateAfter(samples, t) == LastOr(false, samples[..t])
  {
    if t > 0 {
      CallsAfterNotifications(samples, t - 1);
      TickStep(samples, t - 1, CallsAfter(samples, t - 1), StateAfter(samples, t - 1));
    }
  }

  /** When tick `m` made a callback, the calls after it are one more than
      the debouncer's for the ticks before it. */
  lemma LastTickCalled(samples: seq<bool>, m: nat)
    requires 0 < m <= |samples|
    requires samples[m - 1] != StateAfter(samples, m - 1)
    ensures |CallsAfter(samples, m)| == 1 + |[false] + Notifications(false, samples[..m - 1])|
  {
    CallsAfterNotifications(samples, m - 1);
  }

  /** A cycle whose callbacks after `m` ticks all succeed but the last ends
      there, with an error, having made the debouncer's callbacks. */
  lemma CycleErrorsAt(required: seq<string>, ticks: seq<Snapshot>, getOk: nat -> bool, base: nat, m: nat, calls: seq<bool>)
    requires m <= |ticks|
    requires calls == CallsAfter(Samples(required, ticks), m)
    requires forall n :: base <= n < base + |calls| - 1 ==> getOk(n)
    requires !getOk(base + |calls| - 1)
    ensures calls == [false] + Notifications(false, Samples(required, ticks)[..m])
    ensures Cycle(required, ticks, getOk, base) == CycleRun(calls, Errored)
  {
    var samples := Samples(required, ticks);
    CallsAfterNotifications(samples, m);
    assert samples == samples[..m] + samples[m..];
    NotificationsAppend(false, samples[..m], samples[m..]);
    assert calls == Intended(required, ticks)[..|calls|];
    FirstFailureAt(getOk, base, |Intended(required, ticks)|, |calls| - 1);
  }

  /** A cycle whose callbacks over all ticks succeed is still watching, having
      made the debouncer's callbacks. */
  lemma CycleWatchesThrough(required: seq<string>, ticks: seq<Snapshot>, getOk: nat -> bool, base: nat, calls: seq<bool>)
    requires calls == CallsAfter(Samples(required, ticks), |ticks|)
    requires forall n :: base <= n < base + |calls| ==> getOk(n)
    ensures calls == [false] + Notifications(false, Samples(required, ticks)[..|ticks|])
    ensures Cycle(required, ticks, getOk, base) == CycleRun(calls, Watching)
  {
    var samples := Samples(required, ticks);
    CallsAfterNotifications(samples, |ticks|);
    assert samples[..|ticks|] == samples;
    assert calls == Intended(required, ticks);
    NoFailureNoError(required, ticks, getOk, base);
  }

  /** How a cycle ends once the loop stops after `t` ticks, with the GET of
      its last callback failed or not. */
  lemma CycleOutcome(required: seq<string>, ticks: seq<Snapshot>, getOk: nat -> bool, base: nat,
                     t: nat, calls: seq<bool>, failed: bool)
    requires t <= |ticks|
    requires calls == CallsAfter(Samples(required, ticks), t)
    requires forall n :: base <= n < base + |calls| - 1 ==> getOk(n)
    requires failed <==> !getOk(base + |calls| - 1)
    requires !failed ==> t == |ticks|
    requires failed && t > 0 ==> Samples(required, ticks)[t - 1] != StateAfter(Samples(required, ticks), t - 1)
    ensures CycleRun(calls, if failed then Errored else Watching) == Cycle(required, ticks, getOk, base)
    ensures calls == [false] + Notifications(false, Samples(required, ticks)[..t])
    ensures failed ==> (t == 0 <==> |calls| == 1)
    ensures failed && t > 0 ==> |calls| == 1 + |[false] + Notifications(false, Samples(required, ticks)[..t - 1])|
  {
    if failed {
      if t > 0 {
        LastTickCalled(Samples(required, ticks), t);
      }
      CycleErrorsAt(required, ticks, getOk, base, t, calls);
    } else {
      CycleWatchesThrough(required, ticks, getOk, base, calls);
    }
  }

  /**
   The watch loop: state `false` and a startup callback with `false`, then at
   each tick the matcher's verdict, and a callback with the new state whenever
   it differs from the stored one. A failing callback ends the cycle at once
   (the `?` on each `send_get`), which the loop guard `failed` stands for:
   the ghost `examined` is the number of ticks sampled, none when the startup
   callback fails and otherwise up to the tick whose callback failed, and the
   calls made are exactly the debouncer's for them.
   */
  method WatchLoop(config: Config, ticks: seq<Snapshot>, getOk: nat -> bool, base: nat)
    returns (calls: seq<bool>, end: CycleEnd, ghost examined: nat)
    ensures CycleRun(calls, end) == Cycle(config.process.requiredArguments, ticks, getOk, base)
    ensures examined <= |ticks|
    ensures calls == [false] + Notifications(false, Samples(config.process.requiredArguments, ticks)[..examined])
    ensures end == Watching ==> examined == |ticks|
    ensures end == Errored ==> (examined == 0 <==> |calls| == 1)
    ensures end == Errored && examined > 0 ==>
      |calls| == 1 + |[false] + Notifications(false, Samples(config.process.requiredArguments, ticks)[..examined - 1])|
  {
    var required := config.process.requiredArguments;
    ghost var samples := Samples(required, ticks);
    var currentlyOn := false;
    calls := [false];
    var failed := !getOk(base);
    var t := 0;
    while t < |ticks| && !failed
      invariant 0 <= t <= |ticks|
      invariant calls == CallsAfter(samples, t)
      invariant currentlyOn == StateAfter(samples, t)
      invariant forall n :: base <= n < base + |calls| - 1 ==> getOk(n)
      invariant failed <==> !getOk(base + |calls| - 1)
      invariant failed && t > 0 ==> samples[t - 1] != StateAfter(samples, t - 1)
    {
      var isNowOn, _ := IsNowOn(required, ticks[t]);
      if isNowOn != currentlyOn {
        currentlyOn := isNowOn;
        calls := calls + [currentlyOn];
        failed := !getOk(base + |calls| - 1);
      }
      t := t + 1;
    }
    examined := t;
    end := if failed then Errored else Watching;
    CycleOutcome(required, ticks, getOk, base, t, calls, failed);
  }

  /** The callback arguments `false`, `true`, `false`, ... in turn. */
  ghost predicate Alternates(calls: seq<bool>) {
    forall j :: 0 <= j < |calls| ==> calls[j] == (j % 2 == 1)
  }

  /** A sequence whose first element is `first` and whose elements each differ
      from the one before holds `first` at even and `!first` at odd positions. */
  lemma {:induction false} AlternatingParity(d: seq<bool>, first: bool, i: nat)
    requires d != [] ==> d[0] == first
    requires forall j :: 0 < j < |d| ==> d[j] == !d[j - 1]
    requires i < |d|
    ensures d[i] == (if i % 2 == 0 then first else !first)
  {
    if i > 0 {
      AlternatingParity(d, first, i - 1);
    }
  }

  /** The callbacks of a cycle carry `false`, `true`, `false`, ... in turn:
      the startup `false`, then alternately on and off. */
  lemma IntendedAlternates(required: seq<string>, ticks: seq<Snapshot>)
    ensures Alternates(Intended(required, ticks))
  {
    var d := Notifications(false, Samples(required, ticks));
    NotificationsAlternate(false, Samples(required, ticks));
    forall i | 0 <= i < |Intended(required, ticks)| ensures Intended(required, ticks)[i] == (i % 2 == 1) {
      if i > 0 {
        AlternatingParity(d, true, i - 1);
      }
    }
  }

  /** A cycle without failures makes one callback more than there are value
      changes in `false, s1, ..., sN`. */
  lemma IntendedCount(required: seq<string>, ticks: seq<Snapshot>)
    ensures |Intended(required, ticks)| == 1 + Flips([false] + Samples(required, ticks))
  {
    NotificationsCountChanges(false, Samples(required, ticks));
  }

  /** A cycle still watching has last told the remote the latest sample (or
      `false` before the first tick). */
  lemma WatchingReportsLatestSample(required: seq<string>, ticks: seq<Snapshot>, getOk: nat -> bool, base: nat)
    requires Cycle(required, ticks, getOk, base).end == Watching
    ensures var calls := Cycle(required, ticks, getOk, base).calls;
      calls[|calls| - 1] == LastOr(false, Samples(required, ticks))
  {
    CycleProperties(required, ticks, getOk, base);
    var samples := Samples(required, ticks);
    var d := Notifications(false, samples);
    NotificationsTrackLastSample(false, samples);
    LastOrAppend(false, [false], d);
  }

  /** A cycle whose callbacks all succeed is still watching when the ticks
      run out, having made every intended callback. */
  lemma NoFailureNoError(required: seq<string>, ticks: seq<Snapshot>, getOk: nat -> bool, base: nat)
    requires forall n :: base <= n < base + |Intended(required, ticks)| ==> getOk(n)
    ensures Cycle(required, ticks, getOk, base) == CycleRun(Intended(required, ticks), Watching)
  {
  }

  /** The callbacks of any cycle, including one cut short by an error, carry
      `false`, `true`, `false`, ... in turn. */
  lemma CycleAlternates(required: seq<string>, ticks: seq<Snapshot>, getOk: nat -> bool, base: nat)
    ensures Alternates(Cycle(required, ticks, getOk, base).calls)
  {
    IntendedAlternates(required, ticks);
    CycleProperties(required, ticks, getOk, base);
  }
}
