/**
 The configuration of the watcher and the view of the operating system's
 process table that the watch loop samples.
 */
module Configuration {

  /** An unsigned 64-bit integer, the width of the configured sleep time. */
  newtype u64 = x: int | 0 <= x < 0x1_0000_0000_0000_0000

  /** The process to look for: its name and the arguments it must carry. */
  datatype Process = Process(name: string, requiredArguments: seq<string>)

  /** The relay to notify: its host (with port) and the two routes it serves. */
  datatype Remote = Remote(ip: string, routeOn: string, routeOff: string)

  /** The whole configuration, read once at startup and never changed. */
  datatype Config = Config(process: Process, remote: Remote, sleepTimeSec: u64)

  /** One entry of the operating system's process table: its name and its
      command-line argument vector. */
  datatype OsProcess = OsProcess(name: string, cmd: seq<string>)

  /** The processes the operating system reports for the configured name at
      one poll tick. */
  type Snapshot = seq<OsProcess>
}
