/**
 The debouncer of the watch loop: the stored state `currently_on` and the
 callbacks it makes as samples arrive. A callback is made exactly when a
 sample differs from the stored state, and carries the new state.
 */
module Debounce {

  /** The callbacks made by a debouncer in state `prev` that receives the
      samples `s` in order (the startup callback is not included). */
  function Notifications(prev: bool, s: seq<bool>): seq<bool>
    decreases |s|
  {
    if |s| == 0 then []
    else (if s[0] != prev then [s[0]] else []) + Notifications(s[0], s[1..])
  }

  /** The state after the samples `s`, starting from `prev`. */
  function LastOr(prev: bool, s: seq<bool>): bool {
    if |s| == 0 then prev else s[|s| - 1]
  }

  /** The number of adjacent positions of `s` holding different values. */
  function Flips(s: seq<bool>): nat
    decreases |s|
  {
    if |s| < 2 then 0 else (if s[0] != s[1] then 1 else 0) + Flips(s[1..])
  }

  /** The state after two stretches of samples. */
  lemma LastOrAppend(prev: bool, a: seq<bool>, b: seq<bool>)
    ensures LastOr(prev, a + b) == LastOr(LastOr(prev, a), b)
  {
  }

  /** Feeding two stretches of samples one after the other. */
  lemma {:induction false} NotificationsAppend(prev: bool, a: seq<bool>, b: seq<bool>)
    ensures Notifications(prev, a + b) == Notifications(prev, a) + Notifications(LastOr(prev, a), b)
    decreases |a|
  {
    if |a| == 0 {
      assert a + b == b;
    } else {
      var head: seq<bool> := if a[0] != prev then [a[0]] else [];
      var ab := a + b;
      assert ab[0] == a[0] && ab[1..] == a[1..] + b;
      NotificationsAppend(a[0], a[1..], b);
      calc {
        Notifications(prev, ab);
        head + Notifications(a[0], a[1..] + b);
        head + (Notifications(a[0], a[1..]) + Notifications(LastOr(a[0], a[1..]), b));
        (head + Notifications(a[0], a[1..])) + Notifications(LastOr(a[0], a[1..]), b);
      }
      assert LastOr(a[0], a[1..]) == LastOr(prev, a);
    }
  }

  /** One poll tick: a callback is made iff the sample differs from the stored
      state, it carries the sample, and afterwards the state is the sample. */
  lemma Tick(prev: bool, s: seq<bool>, sample: bool)
    ensures Notifications(prev, s + [sample])
            == Notifications(prev, s) + (if sample != LastOr(prev, s) then [sample] else [])
    ensures LastOr(prev, s + [sample]) == sample
  {
    NotificationsAppend(prev, s, [sample]);
    LastOrAppend(prev, s, [sample]);
    assert [sample][1..] == [];
  }

  /** The number of callbacks is the number of value changes in the sequence
      `prev, s[0], s[1], ...`. */
  lemma {:induction false} NotificationsCountChanges(prev: bool, s: seq<bool>)
    ensures |Notifications(prev, s)| == Flips([prev] + s)
    decreases |s|
  {
    if s != [] {
      NotificationsCountChanges(s[0], s[1..]);
      assert ([prev] + s)[1..] == [s[0]] + s[1..];
    }
  }

  /** Callbacks alternate: the first carries the opposite of the initial state
      and each later one the opposite of the one before. */
  lemma {:induction false} NotificationsAlternate(prev: bool, s: seq<bool>)
    ensures var d := Notifications(prev, s);
      (d != [] ==> d[0] == !prev) && forall i :: 0 < i < |d| ==> d[i] == !d[i - 1]
    decreases |s|
  {
    if s != [] {
      NotificationsAlternate(s[0], s[1..]);
    }
  }

  /** What was last reported is the last sample: after the samples, the
      remote has been told the current state. */
  lemma {:induction false} NotificationsTrackLastSample(prev: bool, s: seq<bool>)
    ensures LastOr(prev, Notifications(prev, s)) == LastOr(prev, s)
    decreases |s|
  {
    if s != [] {
      var head: seq<bool> := if s[0] != prev then [s[0]] else [];
      var rest := Notifications(s[0], s[1..]);
      assert Notifications(prev, s) == head + rest;
      NotificationsTrackLastSample(s[0], s[1..]);
      LastOrAppend(prev, head, rest);
      assert LastOr(prev, head) == s[0];
      LastOrAppend(prev, [s[0]], s[1..]);
      assert [s[0]] + s[1..] == s;
    }
  }

  /** No callback is made iff every sample equals the stored state. */
  lemma {:induction false} SilentIffStable(prev: bool, s: seq<bool>)
    ensures Notifications(prev, s) == [] <==> forall i :: 0 <= i < |s| ==> s[i] == prev
    decreases |s|
  {
    if s != [] {
      SilentIffStable(s[0], s[1..]);
      if s[0] == prev {
        assert forall i :: 0 < i < |s| ==> s[i] == s[1..][i - 1];
      }
    }
  }

  /** Once a value has been sampled, repeating it produces no further
      callbacks. */
  lemma RepeatedSamplesAreSilent(prev: bool, s: seq<bool>, sample: bool, repeats: seq<bool>)
    requires forall i :: 0 <= i < |repeats| ==> repeats[i] == sample
    ensures Notifications(prev, s + [sample] + repeats) == Notifications(prev, s + [sample])
  {
    NotificationsAppend(prev, s + [sample], repeats);
    Tick(prev, s, sample);
    SilentIffStable(sample, repeats);
  }
}
