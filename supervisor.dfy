/**
 The supervisor: `main` runs watch cycles forever, and after a cycle ends with
 an error it waits and starts a new cycle from scratch. The model runs a
 bounded number of cycles, each observing its own sequence of snapshots.
 */
module Supervisor {
  import opened Configuration
  import opened Address
  import opened Watch

  /** The number of GETs issued by the runs, which is the number of the
      next GET. */
  function TotalCalls(runs: seq<CycleRun>): nat {
    if |runs| == 0 then 0 else TotalCalls(runs[..|runs| - 1]) + |runs[|runs| - 1].calls|
  }

  /** The number of runs that ended with an error. */
  function ErrorCount(runs: seq<CycleRun>): nat {
    if |runs| == 0 then 0 else ErrorCount(runs[..|runs| - 1]) + (if runs[|runs| - 1].end == Errored then 1 else 0)
  }

  /** Run `i` is a whole fresh cycle over the snapshots `cycles[i]`, whose
      first GET is numbered on from those of the runs before it. */
  ghost predicate FreshRun(required: seq<string>, cycles: seq<seq<Snapshot>>, getOk: nat -> bool, runs: seq<CycleRun>, i: nat)
    requires i < |runs| && i < |cycles|
  {
    runs[i] == Cycle(required, cycles[i], getOk, TotalCalls(runs[..i]))
  }

  /**
   What the restart loop does with the snapshots `cycles` each cycle would
   observe: run `i` is a whole fresh cycle over `cycles[i]`, numbering its GETs
   on from those before it; every run but the last ended with an error; and
   the runs stop before the cycles run out only at a run still watching,
   which never returns.
   */
  ghost predicate Supervised(required: seq<string>, cycles: seq<seq<Snapshot>>, getOk: nat -> bool, runs: seq<CycleRun>) {
    && |runs| <= |cycles|
    && (cycles != [] ==> runs != [])
    && (forall i :: 0 <= i < |runs| ==> FreshRun(required, cycles, getOk, runs, i))
    && (forall i :: 0 <= i < |runs| - 1 ==> runs[i].end == Errored)
    && (|runs| < |cycles| ==> runs[|runs| - 1].end == Watching)
  }

  /**
   The restart loop of `main`: run a cycle; on an error, count a restart and
   run the next cycle afresh, with the GET numbering carried on. Every run
   starts with the startup `false` callback and alternates from there.
   */
  method Supervise(config: Config, cycles: seq<seq<Snapshot>>, getOk: nat -> bool)
    returns (runs: seq<CycleRun>, restarts: nat)
    ensures Supervised(config.process.requiredArguments, cycles, getOk, runs)
    ensures forall i :: 0 <= i < |runs| ==> Alternates(runs[i].calls)
    ensures restarts == ErrorCount(runs)
  {
    var required := config.process.requiredArguments;
    runs, restarts := [], 0;
    var c := 0;
    var base: nat := 0;
    var watching := false;
    while c < |cycles| && !watching
      invariant 0 <= c <= |cycles| && |runs| == c
      invariant !watching ==> base == TotalCalls(runs)
      invariant restarts == ErrorCount(runs)
      invariant forall i :: 0 <= i < c ==> FreshRun(required, cycles, getOk, runs, i)
      invariant forall i :: 0 <= i < c ==> Alternates(runs[i].calls)
      invariant !watching ==> forall i :: 0 <= i < c ==> runs[i].end == Errored
      invariant watching ==> 0 < c && runs[c - 1].end == Watching
      invariant watching ==> forall i :: 0 <= i < c - 1 ==> runs[i].end == Errored
    {
      var calls, end, _ := WatchLoop(config, cycles[c], getOk, base);
      var run := CycleRun(calls, end);
      CycleAlternates(required, cycles[c], getOk, base);
      ghost var before := runs;
      runs := runs + [run];
      assert runs[..c] == before;
      forall i | 0 <= i < c + 1 ensures FreshRun(required, cycles, getOk, runs, i) {
        if i < c {
          assert FreshRun(required, cycles, getOk, before, i);
          assert runs[..i] == before[..i];
        }
      }
      if end == Errored {
        // Something went wrong: wait, then watch again from scratch.
        restarts := restarts + 1;
        base := base + |calls|;
      } else {
        watching := true;
      }
      c := c + 1;
    }
  }

  /** Two sequences of runs that both fit agree on their first `n` runs:
      each run is the cycle numbered on from the same runs before it. */
  lemma {:induction false} SupervisedPrefixesAgree(required: seq<string>, cycles: seq<seq<Snapshot>>, getOk: nat -> bool,
                                                   runs: seq<CycleRun>, other: seq<CycleRun>, n: nat)
    requires Supervised(required, cycles, getOk, runs)
    requires Supervised(required, cycles, getOk, other)
    requires n <= |runs| && n <= |other|
    ensures runs[..n] == other[..n]
    decreases n
  {
    if n > 0 {
      SupervisedPrefixesAgree(required, cycles, getOk, runs, other, n - 1);
      assert FreshRun(required, cycles, getOk, runs, n - 1);
      assert FreshRun(required, cycles, getOk, other, n - 1);
      assert runs[..n] == runs[..n - 1] + [runs[n - 1]];
      assert other[..n] == other[..n - 1] + [other[n - 1]];
    }
  }

  /** The runs are determined by the snapshots and the transport: no two
      different sequences of runs both fit. */
  lemma SupervisedUnique(required: seq<string>, cycles: seq<seq<Snapshot>>, getOk: nat -> bool,
                         runs: seq<CycleRun>, other: seq<CycleRun>)
    requires Supervised(required, cycles, getOk, runs)
    requires Supervised(required, cycles, getOk, other)
    ensures runs == other
  {
    var n := if |runs| < |other| then |runs| else |other|;
    SupervisedPrefixesAgree(required, cycles, getOk, runs, other, n);
    assert |runs| == |other|;
    assert runs == runs[..n] && other == other[..n];
  }

  /** One restart per error: every run but the last is followed by a restart,
      and so is the last one if it failed. */
  lemma {:induction false} RestartsMatchFailures(runs: seq<CycleRun>)
    requires runs != []
    requires forall i :: 0 <= i < |runs| - 1 ==> runs[i].end == Errored
    ensures ErrorCount(runs) == if runs[|runs| - 1].end == Errored then |runs| else |runs| - 1
    decreases |runs|
  {
    var init := runs[..|runs| - 1];
    if init != [] {
      assert forall i :: 0 <= i < |init| ==> init[i] == runs[i];
      RestartsMatchFailures(init);
    }
  }

  /** A transport that never fails gives a single run, still watching, with
      no restart. */
  lemma NoFailureNoRestart(required: seq<string>, cycles: seq<seq<Snapshot>>, getOk: nat -> bool, runs: seq<CycleRun>)
    requires forall n :: getOk(n)
    requires cycles != []
    requires Supervised(required, cycles, getOk, runs)
    ensures |runs| == 1 && runs[0].end == Watching && ErrorCount(runs) == 0
  {
    assert FreshRun(required, cycles, getOk, runs, 0);
    assert runs[..0] == [];
    NoFailureNoError(required, cycles[0], getOk, 0);
  }

  /** The GET targets of one run's callbacks, in order. */
  function Requests(config: Config, run: CycleRun): (urls: seq<string>)
    ensures |urls| == |run.calls|
  {
    seq(|run.calls|, j requires 0 <= j < |run.calls| => GetAddress(config, run.calls[j]))
  }

  /** The GET targets of every run are the off address, the on address, the
      off address, ...: `http://` with the host and the route of the state. */
  lemma RequestsAlternate(config: Config, run: CycleRun, j: nat)
    requires Alternates(run.calls)
    requires j < |run.calls|
    ensures Requests(config, run)[j] == Scheme + config.remote.ip
      + (if j % 2 == 1 then config.remote.routeOn else config.remote.routeOff)
  {
  }
}
