/**
 The process matcher: decides, for one snapshot of the processes carrying the
 configured name, whether one of them has every required argument.
 */
module Matcher {
  import opened Configuration

  /** Every required argument occurs, as a whole element, in `cmd`. */
  ghost predicate AllArgsSatisfy(required: seq<string>, cmd: seq<string>) {
    forall k :: 0 <= k < |required| ==> required[k] in cmd
  }

  /** Some process of the snapshot carries every required argument. */
  ghost predicate AnyMatch(required: seq<string>, procs: Snapshot) {
    exists p :: p in procs && AllArgsSatisfy(required, p.cmd)
  }

  /** The set of strings occurring in a sequence. */
  ghost function Elements(s: seq<string>): set<string> {
    set a | a in s
  }

  /**
   The per-tick scan of the watch loop. For each process it folds
   `all_args_satisfy && cmd.contains(arg)` over every required argument, and
   stops at the first process for which the fold stays true. The ghost
   `scanned` is how many processes were looked at.
   */
  method IsNowOn(required: seq<string>, procs: Snapshot) returns (isNowOn: bool, ghost scanned: nat)
    ensures isNowOn == AnyMatch(required, procs)
    ensures scanned <= |procs|
    ensures isNowOn ==> 0 < scanned && AllArgsSatisfy(required, procs[scanned - 1].cmd)
    ensures !isNowOn ==> scanned == |procs|
    ensures forall j :: 0 <= j < scanned - 1 ==> !AllArgsSatisfy(required, procs[j].cmd)
  {
    isNowOn := false;
    scanned := |procs|;
    var i := 0;
    while i < |procs|
      invariant 0 <= i <= |procs|
      invariant forall j :: 0 <= j < i ==> !AllArgsSatisfy(required, procs[j].cmd)
    {
      var allArgsSatisfy := true;
      var k := 0;
      while k < |required|
        invariant 0 <= k <= |required|
        invariant allArgsSatisfy <==> forall m :: 0 <= m < k ==> required[m] in procs[i].cmd
      {
        allArgsSatisfy := allArgsSatisfy && required[k] in procs[i].cmd;
        k := k + 1;
      }
      if allArgsSatisfy {
        // The process matches all requirements.
        assert procs[i] in procs;
        isNowOn := true;
        scanned := i + 1;
        break;
      }
      i := i + 1;
    }
    if !isNowOn {
      forall p | p in procs ensures !AllArgsSatisfy(required, p.cmd) {
        var j :| 0 <= j < |procs| && procs[j] == p;
      }
    }
  }

  /** Containment is per element: a process matches exactly when the set of
      required arguments is a subset of the set of its arguments, so neither
      the order nor the repetition of either list matters. */
  lemma AllArgsSatisfyIsSubset(required: seq<string>, cmd: seq<string>)
    ensures AllArgsSatisfy(required, cmd) <==> Elements(required) <= Elements(cmd)
  {
    if Elements(required) <= Elements(cmd) {
      forall k | 0 <= k < |required| ensures required[k] in cmd {
        assert required[k] in Elements(required);
      }
    }
  }

  /** Reordering the snapshot (or the scan order of duplicates) does not
      change the outcome. */
  lemma AnyMatchOrderInsensitive(required: seq<string>, procs: Snapshot, other: Snapshot)
    requires multiset(procs) == multiset(other)
    ensures AnyMatch(required, procs) <==> AnyMatch(required, other)
  {
    forall p ensures p in procs <==> p in other {
      assert p in procs <==> p in multiset(procs);
      assert p in other <==> p in multiset(other);
    }
  }

  /** With no required arguments, any process of the snapshot matches, and an
      empty snapshot matches nothing. */
  lemma NoRequiredArguments(procs: Snapshot)
    ensures AnyMatch([], procs) <==> procs != []
  {
    if procs != [] {
      assert procs[0] in procs && AllArgsSatisfy([], procs[0].cmd);
    }
  }

  /** In a snapshot whose processes all have no arguments, only an empty
      requirement matches, and then iff there is a process at all. */
  lemma EmptyCommandLineNeverMatches(required: seq<string>, procs: Snapshot)
    requires forall i :: 0 <= i < |procs| ==> procs[i].cmd == []
    ensures AnyMatch(required, procs) <==> required == [] && procs != []
  {
    if required == [] {
      NoRequiredArguments(procs);
    } else {
      forall p | p in procs ensures !AllArgsSatisfy(required, p.cmd) {
        assert required[0] !in p.cmd;
      }
    }
  }
}
