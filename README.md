# ProcessWatcher presence watcher, modelled in Dafny

ProcessWatcher polls the operating system for a process with a configured
name. When one of those processes carries every configured argument, the
watcher is "on"; otherwise it is "off". Each time this changes, it sends an
HTTP GET to a relay: to `http://{ip}{route_on}` when the process appears and to
`http://{ip}{route_off}` when it goes away. A failed GET ends the current watch
cycle. The program's `main` then waits and starts a new cycle from scratch.

This project models the core of `src/main.rs` and proves its properties:

- `config.dfy` (module `Configuration`) holds the `Process`, `Remote` and
  `Config` records. It also holds `OsProcess`, a process-table entry with its
  argument vector, and the `Snapshot` of such entries seen at one tick.
- `matcher.dfy` (module `Matcher`) is the per-tick scan, written as nested
  loops with an early exit (`IsNowOn`). It is proved against the predicate
  "some process carries every required argument".
- `address.dfy` (module `Address`) is `get_address`.
- `debounce.dfy` (module `Debounce`) describes the `currently_on` state
  machine. It defines `Notifications`, the callbacks made for a sequence of
  samples, and proves lemmas about it: per-tick behaviour, counting,
  alternation, silence on repeated samples, and tracking of the last sample.
- `watch.dfy` (module `Watch`) is `watch_loop` as a method over a finite
  sequence of ticks (`WatchLoop`). It is proved equal to `Cycle`, which means:
  the intended callbacks (the startup `false`, then the debouncer's), cut off
  at the first failing one.
- `supervisor.dfy` (module `Supervisor`) is the restart loop of `main` over a
  bounded number of cycles (`Supervise`).
- `scenarios.dfy` (module `Scenarios`) holds two concrete runs.

The callback's outcome is a parameter `getOk: nat -> bool`: the GET with
sequence number `n`, counted over the whole run, succeeds iff `getOk(n)`.
Process enumeration is also a parameter: each tick's snapshot is given, already
filtered by name.

The watcher always makes a `false` callback before the first sample
(`src/main.rs:44`), even though no process has been seen yet. So the scenario
"absent, present, present, absent" makes three callbacks (`false`, `true`,
`false`), not two.

## Model

| member | source | states |
|---|---|---|
| `Matcher.IsNowOn` | src/main.rs:50-62 | the scan yields true iff some process of the snapshot has every required argument as an element of its `cmd`; the scan stops at the first such process and every earlier one fails |
| `Matcher.AllArgsSatisfyIsSubset` | src/main.rs:53-56 | a process satisfies the requirement iff the set of required arguments is a subset of the set of its arguments: containment per element, independent of order and repetition |
| `Matcher.AnyMatchOrderInsensitive` | src/main.rs:51-62 | reordering the snapshot does not change the verdict |
| `Matcher.NoRequiredArguments` | src/main.rs:50-59 | with no required arguments, any process makes the verdict true, and an empty snapshot gives false |
| `Matcher.EmptyCommandLineNeverMatches` | src/main.rs:51-59 | in a snapshot whose processes all have no arguments, the verdict is true iff the requirement is empty and some process is present |
| `Address.GetAddress` | src/main.rs:81-90 | the address has three parts: `http://`, then the host, then the route of the requested state, with nothing else appended |
| `Address.AddressesDistinct` | src/main.rs:84-88 | the on and off addresses are equal iff the two routes are equal |
| `Debounce.NotificationsAppend` | src/main.rs:64-67 | feeding two stretches of samples one after the other makes the first stretch's callbacks, then those of the second stretch started from the state the first left |
| `Debounce.Tick` | src/main.rs:64-67 | one tick makes a callback iff its sample differs from the stored state; the callback carries the sample; afterwards the state is the sample |
| `Debounce.NotificationsCountChanges` | src/main.rs:64-66 | the number of callbacks is the number of value changes in `prev, s1, ..., sN` |
| `Debounce.NotificationsAlternate` | src/main.rs:64-66 | the first callback carries the opposite of the initial state; each later one carries the opposite of the one before |
| `Debounce.NotificationsTrackLastSample` | src/main.rs:64-65 | the value last reported is the last sample |
| `Debounce.SilentIffStable` | src/main.rs:64 | no callback is made iff every sample equals the stored state |
| `Debounce.RepeatedSamplesAreSilent` | src/main.rs:64-67 | repeating a sample after it has been taken makes no further callbacks |
| `Watch.FirstFailure` | src/main.rs:66 | the first failing GET among the next `len`: all before it succeed and it fails, or all succeed |
| `Watch.CycleProperties` | src/main.rs:43-67 | a cycle's callbacks start with the startup `false` and are a prefix of the intended ones; all but the last succeeded; it ends in error iff the last failed; otherwise it made them all |
| `Watch.CallsAfterNotifications` | src/main.rs:43-67 | the loop's state machine, stepped tick by tick, makes exactly the debouncer's callbacks after the startup `false`, and its stored state is the last sample taken |
| `Watch.CycleErrorsAt` | src/main.rs:44-66 | a cycle whose callbacks up to some tick succeeded except the last ends there with an error, having made the debouncer's callbacks for those ticks |
| `Watch.CycleWatchesThrough` | src/main.rs:43-70 | a cycle whose callbacks all succeeded over every tick is still watching, having made the debouncer's callbacks for all of them |
| `Watch.CycleOutcome` | src/main.rs:43-70 | when the loop stops, the cycle ends in error iff the last GET failed; its calls are the debouncer's for the ticks sampled; after a failed callback other than the startup one, the last tick sampled is the one that made it |
| `Watch.WatchLoop` | src/main.rs:39-71 | the loop's callbacks and ending equal `Cycle`; they are exactly the debouncer's for the ticks sampled; a cycle still watching sampled every tick; a failed startup callback samples none, and any other failed callback is the one made at the last tick sampled |
| `Watch.IntendedAlternates` | src/main.rs:43-66 | the intended callbacks carry `false`, `true`, `false`, ... in turn |
| `Watch.IntendedCount` | src/main.rs:44-66 | without failures, a cycle makes 1 plus the number of value changes in `false, s1, ..., sN` callbacks |
| `Watch.CycleAlternates` | src/main.rs:44-66 | a cycle's callbacks alternate from `false` even when an error cuts the cycle short |
| `Watch.WatchingReportsLatestSample` | src/main.rs:64-66 | a cycle still watching last reported the latest sample (or `false` before any tick) |
| `Watch.NoFailureNoError` | src/main.rs:44-66 | if every callback succeeds, the cycle makes all intended callbacks and does not end in error |
| `Supervisor.Supervise` | src/main.rs:95-105 | each run is a whole fresh cycle on its own snapshots, starting again from `false` with a startup callback; every run but the last failed; an early stop happens only at a run still watching; runs alternate; restarts are counted once per error |
| `Supervisor.SupervisedPrefixesAgree` | src/main.rs:95-105 | two sequences of supervised runs over the same snapshots and transport agree on every common prefix |
| `Supervisor.SupervisedUnique` | src/main.rs:95-105 | the snapshots and the transport determine the supervised runs |
| `Supervisor.RestartsMatchFailures` | src/main.rs:101-104 | there is exactly one restart per failed run |
| `Supervisor.NoFailureNoRestart` | src/main.rs:95-105 | with a transport that never fails there is one run, still watching, and no restart |
| `Supervisor.RequestsAlternate` | src/main.rs:97-98 | the j-th GET of a run targets `http://` + host + `route_off` for even j and `route_on` for odd j |
| `Scenarios.GameGoesFullscreenAndBack` | src/main.rs:43-67 | for `game.exe` requiring `-fullscreen`, the samples absent, present, present, absent give the callbacks `false`, `true`, `false` |
| `Scenarios.ContinuouslyPresent` | src/main.rs:43-67 | ten ticks of continuous presence give only the startup `false` and one `true` |

## Left out

- `load_config` (src/main.rs:31-36) reads and parses `config.json` with library code. The model takes a `Config` value as given.
- `send_get` (src/main.rs:74-78) performs the HTTP GET and prints the response body. It is modelled only by its success or failure, given as `getOk` by GET number. The error value and the printed body are not modelled.
- Process enumeration and refresh through `sysinfo` (src/main.rs:41, 48, 51) are foreign calls. In particular, the name-matching rule of `get_process_by_name` is not visible, so each tick's snapshot is given, already filtered by name.
- The sleeps (`sleep_time_sec` per tick, 60 seconds before a restart) and the restart message (src/main.rs:69, 102-103) are not modelled, because durations and console output are not observable in the model.
- `Arc`, the closure around `send_get` and `windows_subsystem` (src/main.rs:2, 97-99) are plumbing. Only the composition "GET of `get_address`" is kept, in `Supervisor.Requests`.
- Non-termination: `watch_loop` runs over a finite sequence of ticks, and `main` over a finite sequence of cycles. A cycle that is still watching when its ticks run out never returns in the program. The supervisor therefore stops there, and `Watching` marks that case.
- `Supervisor.Requests` only states its length; what each address is, is stated by `Supervisor.RequestsAlternate` and `Address.GetAddress`.
- `Watch.Cycle` states only that a cycle makes at least one call; its full meaning is stated by `Watch.CycleProperties`.
