/**
 * The interface the garbage-collection scripts need from the Manta object store
 * and its job service: outcomes of the client calls, the error objects they carry,
 * and the failure values the scripts themselves produce.
 *
 * No store is implemented here. A `Client` is the environment: each call's outcome
 * is a fixed function of its arguments.
 */
module Manta {

  datatype Option<+T> = None | Some(value: T)

  /** An error object passed to a callback by the Manta client: its `name` and `code` fields. */
  datatype StoreError = StoreError(name: string, code: string)

  /** Every failure a callback can receive, including the `Error`s the scripts build themselves. */
  datatype Fault =
    | Store(error: StoreError)
      // "<objPath> contains a bad line: <line>"
    | BadLine(objPath: string, line: string)
      // "No shards specified."
    | NoShards
      // "Couldnt find latest backups for all shards."
    | ShardsIncomplete
      // "Couldnt find objects for <shard> in past <hours> hours before <date>"
    | NotFoundInPast(shard: string, hours: int, before: int)
      // "Couldn't determine earliest dump from mako dumps."
    | NoEarliestMakoDump
      // "Earliest mako dumps are too  old: <earliest>"
    | MakoDumpsTooOld(earliest: int)

  datatype Result<+T> = Ok(value: T) | Err(fault: Fault)

  /** The outcome of a call that reports only success or an error. */
  datatype Status = Success | Failure(fault: Fault)

  /** One entry of a directory listing; `mtime` is in milliseconds since the epoch. */
  datatype Entry = Entry(name: string, mtime: int)

  /**
   * The outcome of `client.ls(dir)`: the callback's own error, an 'error' event on the
   * result stream, or every 'object' event up to 'end'.
   */
  datatype Listing =
    | LsFailed(error: StoreError)
    | StreamFailed(error: StoreError)
    | Listed(entries: seq<Entry>)

  /** The `stats` object of a job record, reduced to its `errors` count. */
  datatype JobStats = JobStats(errors: int)

  /**
   * A job record. `inputDone` and `cancelled` are `None` when the field is absent;
   * the scripts compare them with `=== false` and `=== true`, so absence matters.
   */
  datatype Job = Job(state: string, inputDone: Option<bool>, stats: Option<JobStats>, cancelled: Option<bool>)

  /**
   * An operand as JavaScript sees it after `line.split(' ')[i]`: a string, or
   * `undefined` when the line has too few words.
   */
  type Arg = Option<string>

  /**
   * The Manta client as the scripts use it:
   *   job       — `client.job(id)`
   *   get       — `client.get(path)` with its stream read to the end
   *   parseJob  — `JSON.parse` of an archived job record
   *   ls        — `client.ls(dir)`
   *   mkdirp, ln, unlink — the three calls that change the store
   */
  datatype Client = Client(
    user: string,
    job: string -> Result<Job>,
    get: string -> Result<string>,
    parseJob: string -> Job,
    ls: string -> Listing,
    mkdirp: Arg -> Status,
    ln: (Arg, Arg) -> Status,
    unlink: string -> Status)
}
