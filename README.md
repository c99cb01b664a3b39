# Manta garbage-collection core: link replay and dump discovery

A Dafny model of two parts of the Manta garbage collector's scripts.

- `lib/common.js` (module `Common`): the string helpers, job lookup with a fallback to
  the archived job record, and the discovery of a consistent set of dumps. Discovery
  finds the latest Mako dumps, then walks back hour by hour through each shard's
  Manatee backup directories for the moray dumps in the hour directory of the earliest Mako dump or in one of the
  23 hour directories before it.
- `bin/gc_create_links.js` (module `GcCreateLinks`): the replay of deferred link files.
  Each file in the pending directory names a job. If the job is still running, the
  file is left alone. If the job failed or was cancelled, the file is deleted. Otherwise
  the file is parsed, every directory in it is created, every link in it is made, and
  then the file is deleted.

Supporting modules:

- `Manta`: the outcomes of the client calls. A `Client` value is the environment. For
  every argument it fixes what `job`, `get`, `ls`, `mkdirp`, `ln` and `unlink` report.
- `JsRuntime`: the JavaScript built-ins the scripts use, on strings as character
  sequences. These are `slice`, `indexOf`, `split`, `substring`, `String(n)` for
  integers and Node's `path.basename`.
- `Calendar`: the `Date` getters `getFullYear`, `getMonth`, `getDate` and `getHours`,
  for an instant in milliseconds.

Pure code becomes functions and lemmas. Code that loops or updates state becomes methods
proved against those functions. These are `startsWithOneOf`, the hourly walk of
`findShardObjects`, the gathering loops of `findObjectsForShards` and
`findLatestMakoObjects`, and the steps of `findMorayMakoObjects`. In
`gc_create_links.js` they are the parse loop, the replay phases and `AUDIT.count`.
The script's run is the class `GcRun`. Its fields are the audit record's `count` and
`cronFailed`, and the log `calls` of every store-changing call issued so far. Its
invariant is that `count` equals the number of deletes in `calls`.

Assumptions:

- The clock is a parameter `now`, in milliseconds.
- The local time zone of the `Date` getters is taken to be UTC.
- Listing entries carry their `mtime` as integer milliseconds.
- Each store call's outcome is a fixed function of its arguments, given by the `Client` value.

The code behaves in these ways, which the model keeps:

- An existing but empty Mako directory is an error ("Couldn't determine earliest dump
  from mako dumps"), not an empty success.
- A missing Mako directory does not end `findMorayMakoObjects`. The moray step still
  runs and searches back from `now`.
- `cancelled === true` discards a job only when the record has a `stats` object.
- A link-file line is accepted when it merely starts with `mmkdir` or `mln`, so
  `mmkdirx a` counts as a directory line. An operand missing from a line is
  `undefined`, modelled as `None`.
- The pending directory it lists is not ready when the error's `code` is
  `ResourceNotFound`. `findShardObjects` checks for the code `NotFoundError`, and
  `findLatestMakoObjects` checks for the name `ResourceNotFoundError` or the code
  `NotFoundError`. The model keeps each site's own test.
- In `findShardObjects`, an `error` event on the listing stream always stops the
  search, whatever its code. Only an error from the `ls` callback itself can be skipped.

## Model

| member | source | states |
|---|---|---|
| Common.StartsWith | lib/common.js:24-26 | The result is true exactly when `prefix` is a prefix of `str`. |
| Common.StartsWithOneOf | lib/common.js:29-35 | The fold over the prefixes returns true exactly when some prefix is a prefix of `str`, and false for an empty list. |
| Common.EndsWith | lib/common.js:38-40 | The `indexOf` test is true exactly when `suffix` fits in `str` and its last characters equal `suffix`. |
| Common.Pad | lib/common.js:43-45 | For 0..9 the result is '0' then the digit. For 10..99 it is the two digits. For 0..99 it is two decimal digits whose value is `n`. |
| Common.HourDirectory | lib/common.js:206-215 | The path `/<user>/stor/manatee_backups/<shard>/YYYY/MM/DD/HH` of the hour holding the instant. Its properties are `HourDirectoryDeterminesFields` and `SameDirectoryIffSameHour`. |
| Common.SearchDirectory | lib/common.js:205-215 | The directory of the hour `iteration` hours before the timestamp. `SearchDirectoriesDiffer` shows that different iterations give different directories. |
| Common.GetJob | lib/common.js:142-168 | A live record is returned as found. On ResourceNotFoundError the parsed archived record is returned if it is readable. Otherwise the result is the original error. The result is a record exactly when one of those two cases holds. |
| Common.HourDirectoryDeterminesFields | lib/common.js:206-215 | Equal hour directories of one shard name the same calendar year, month, date and hour. |
| Common.HourDirectoriesDistinct | lib/common.js:206-215 | Instants in different hours are looked up in different directories. |
| Common.SameDirectoryIffSameHour | lib/common.js:206-215 | Two instants map to the same directory exactly when they fall in the same hour. |
| Common.Matching | lib/common.js:239-248 | Every kept object carries `directory = dir` and `path = dir + '/' + name` and matches a prefix, every matching entry is kept, and no more objects are kept than listed. |
| Common.MatchingOne | lib/common.js:240-246 | One listed object is kept, tagged, exactly when its name starts with a table prefix. |
| Common.MatchingAppend | lib/common.js:239-246 | The objects kept from `a + b` are those kept from `a` followed by those kept from `b`. With `MatchingOne` this fixes `filtered` element by element, so its length, tested against the prefix count, is that of the matching entries. |
| Common.ListHour | lib/common.js:217-253 | One hour's listing. An `ls` error other than NotFoundError stops with that error, and NotFoundError skips to the next hour. A stream error stops. A listing with as many matches as prefixes stops with them, and any other listing skips. |
| Common.HourStep | lib/common.js:217-253 | One hour's outcome as a value. `ListHour` is proved equal to it, and `StopObjects` and `StopFaults` state what it reports. |
| Common.FilterListing | lib/common.js:239-246 | The `forEach` over one listing keeps exactly the objects that `Matching` keeps, tagged and in listing order. |
| Common.FirstStop | lib/common.js:198-227 | The search stops at the first iteration within the bound that does not skip. Every earlier iteration skipped. |
| Common.FirstStopIs | lib/common.js:218-227 | An iteration preceded only by skipping hours, that itself decides the search, is where the search stops. |
| Common.StopsAt | lib/common.js:198-227 | Where the search stops, and that it lists every directory up to and including that hour's. |
| Common.SearchLength | lib/common.js:187-203 | The search lists at most `maxHoursInPast - iteration` directories, and none when `iteration >= maxHoursInPast`. |
| Common.SearchRecursion | lib/common.js:198-227 | The recursion of `findShardObjects`: fail past the bound, try the next iteration on a skip, otherwise report this hour's result. |
| Common.Search | lib/common.js:198-227 | The result of the first hour within the bound that does not skip, or the bound-exhausted error. `SearchRecursion` shows it follows the source's recursion. |
| Common.ShardSearch | lib/common.js:198-253 | The search over the shard's hour directories. `ShardSearchFaults` and `ShardSearchObjects` state what it returns. |
| Common.ShardSearchFaults | lib/common.js:198-237 | A shard search fails only with a store error or with the bound-exhausted error. |
| Common.SearchFaults | lib/common.js:198-237 | The same fault statement as `ShardSearchFaults`, for a search over any directory function. |
| Common.ShardSearchObjects | lib/common.js:206-252 | A successful shard search returns as many objects as there are prefixes. All come from the directory of one hour within the bound, and each has a matching name and the path `dir/name`. They are exactly the matching entries of that directory's listing, in listing order, and every earlier hour of the search was skipped. |
| Common.StopObjects | lib/common.js:239-252 | The objects of the hour the search stops at, for any directory function: the matching entries of that hour's listing, in order, after every earlier hour skipped, as in `ShardSearchObjects`. |
| Common.StopFaults | lib/common.js:217-252 | The hour the search stops at reports objects or a store error. |
| Common.Exhausted | lib/common.js:198-203 | Starting at or past the bound fails at once and lists nothing. |
| Common.Dirs | lib/common.js:205-215 | The list of directories visited, one per iteration, in order. |
| Common.DirsDistinct | lib/common.js:205-220 | If the directory function never repeats, no run of iterations lists a directory twice. |
| Calendar.HoursBefore | lib/common.js:206 | The instant `n` hours before `t` lies exactly `n` hours earlier in the hour count. |
| Common.SearchDirectoriesDiffer | lib/common.js:206-215 | Different iterations search different directories. |
| Common.DirOfInjective | lib/common.js:206-215 | The search's directory function never revisits a directory. |
| Common.SearchedDirectoriesDistinct | lib/common.js:205-227 | `findShardObjects` never lists the same directory twice. |
| Common.WalkBack | lib/common.js:198-253 | Walks back one hour per round. It returns where the search stopped, that hour's step and every directory listed, as the specification functions define them. |
| Common.VisitHour | lib/common.js:205-217 | One round lists the directory of that iteration and takes its step. |
| Common.FindShardObjects | lib/common.js:171-255 | Fills in the defaults (24 hours, iteration 0, `now`). Its result and the directories it lists are the shard search's. |
| Common.Earliest | lib/common.js:292-300 | `None` for no mtimes. Otherwise one of the mtimes, and at most every one of them. |
| Common.SearchShards | lib/common.js:273-283 | There is one search result per shard, in shard order. |
| Common.FirstFault | lib/common.js:283-286 | `None` exactly when every shard succeeded. Otherwise the error of the first failed shard. |
| Common.Successes | lib/common.js:287 | When every shard succeeded, there is one success per shard holding that shard's objects. |
| Common.ForShardsOutcome | lib/common.js:267-290 | No shards is an error. The search succeeds exactly when every shard succeeded, and otherwise fails with the first failed shard's error. |
| Common.ForShards | lib/common.js:258-314 | The outcome of `findObjectsForShards` as a value. `ForShardsOutcome` and `ForShardsFound` state it. |
| Common.NeverIncomplete | lib/common.js:287-290 | The "not all shards" check never fires, because every shard failure has already been reported. |
| Common.ForShardsFound | lib/common.js:292-312 | The result is the shards' object paths, shard after shard. `earliestMorayDump` is the least mtime among them, or none when there are no objects. |
| Common.EarliestOfObjects | lib/common.js:296-301 | The earliest mtime belongs to one of the objects and is at most every object's mtime. |
| Common.GatherObject | lib/common.js:296-305 | Taking in one more object appends its path and keeps `earliestMorayDump` the least mtime seen so far. |
| Common.SearchEveryShard | lib/common.js:273-283 | The fan-out searches every shard in order. |
| Common.GatherShard | lib/common.js:296-307 | Folding one shard's objects appends their paths and keeps the running minimum mtime. |
| Common.Gather | lib/common.js:292-309 | The gathering loop yields the paths of all objects in order and their earliest mtime. |
| Common.FindObjectsForShards | lib/common.js:258-314 | The method computes the `findObjectsForShards` outcome for the shards, the prefixes and the timestamp. |
| Common.LatestMakoOutcome | lib/common.js:329-368 | A missing Mako directory gives `[]` and no error, and another listing error is returned. An empty listing is an error. Otherwise the earliest mtime is taken. Dumps more than 3 days before `now` are an error, and otherwise every full path is returned. |
| Common.LatestMako | lib/common.js:317-370 | The outcome of `findLatestMakoObjects` as a value. `LatestMakoOutcome` and `LatestMakoFresh` state it. |
| Common.LatestMakoFresh | lib/common.js:353-368 | Dumps that are found are within 3 days of `now`, and the paths returned are `dir/name` of every listed dump, in listing order. |
| Common.EarliestDump | lib/common.js:339-347 | The loop's `earliestDump` is the least mtime of the listed dumps, or none for an empty listing. |
| Common.FindLatestMakoObjects | lib/common.js:317-370 | The listing loop and the staleness check compute the `findLatestMakoObjects` outcome. |
| Common.MorayMakoOutcome | lib/common.js:382-444 | The Mako step's error ends the pipeline, and so does the moray step's. The moray step searches back from the earliest Mako dump, or from `now` when none was found. `objects` is the Mako paths followed by the moray paths. |
| Common.MorayMako | lib/common.js:382-444 | The outcome of `findMorayMakoObjects` as a value. `MorayMakoOutcome` and `MorayDumpsPrecedeMako` state it. |
| Common.EveryShardSucceeded | lib/common.js:283-290 | After a successful `findObjectsForShards`, every shard's search succeeded. |
| Common.MorayDumpsPrecedeMako | lib/common.js:406-409 | When Mako dumps were found, each shard's moray dumps come from one hour directory. That directory is for the hour of the earliest Mako dump or one of the 23 hours before it. |
| Common.ConcatUnlessEmpty | lib/common.js:403-423 | Skipping the concatenation of an empty result changes nothing. |
| Common.FindMorayMakoObjects | lib/common.js:382-444 | The two pipeline steps compute the `findMorayMakoObjects` outcome. |
| JsRuntime.SplitHead | bin/gc_create_links.js:176 | `split('-X-')[0]` is a prefix of the name that holds no `-X-`. No `-X-` of the name starts inside it, and when it is not the whole name the separator follows it, so the cut is at the first `-X-`. |
| JsRuntime.IndexOf | lib/common.js:38-40 | `indexOf` returns a position at or after the clamped start where the string occurs, or -1, and no earlier such position exists. |
| JsRuntime.Split | bin/gc_create_links.js:110 | `split` on one character gives at least one piece and no piece holds the separator. `JoinSplit` shows that joining gives back the string. |
| JsRuntime.JoinSplit | bin/gc_create_links.js:110 | Joining the lines of a split body gives back the body. |
| JsRuntime.BasenameOfChild | bin/gc_create_links.js:175 | The basename of `dir/name` is `name`. |
| JsRuntime.Basename | bin/gc_create_links.js:175 | `path.basename` drops trailing slashes and keeps what follows the last slash. `BasenameOfChild` states its result on `dir/name`. |
| JsRuntime.NatStringRoundTrip | lib/common.js:212 | Reading back the decimal form of a natural number gives the number. |
| JsRuntime.IntString | lib/common.js:212 | `String(i)` starts with '-' exactly for negative integers. `IntStringInjective` shows distinct integers print differently. |
| JsRuntime.IntStringInjective | lib/common.js:212 | Distinct years have distinct decimal forms. |
| Calendar.FieldsOf | lib/common.js:212-215 | The month is 0..11, the date is within the month's length and the hour is 0..23. |
| Calendar.YearOf | lib/common.js:212 | The year holding a day count, with the day's position in it, which lies within that year's length. |
| Calendar.MonthOf | lib/common.js:213-214 | The month (0..11) holding a day of the year, with the day within that month's length. |
| Calendar.FieldsRoundTrip | lib/common.js:206-215 | The year, month, date and hour name the hour of the instant exactly. |
| Calendar.FieldsOfSameHour | lib/common.js:206-215 | Instants in the same hour have the same fields. |
| GcCreateLinks.Word | bin/gc_create_links.js:118-125 | `parts[i]` is present exactly when the line has that many words. |
| GcCreateLinks.ParseLine | bin/gc_create_links.js:114-132 | One line read into the file so far. `ParseMkdirLine` and `ParseLnLine` state its two good cases. |
| GcCreateLinks.ParseLines | bin/gc_create_links.js:113-134 | The lines read in order, stopping at the first bad one. `ParseAppend` and `ParseOutcome` state it. |
| GcCreateLinks.Parse | bin/gc_create_links.js:110-134 | The body split at newlines and parsed. `ParseRender` shows it reads back a written file. |
| GcCreateLinks.ParseAppend | bin/gc_create_links.js:113-134 | Parsing is compositional: the lines of `a + b` give `a`'s directories and links followed by `b`'s. A bad line in `a` wins over one in `b`. |
| GcCreateLinks.ParseOutcome | bin/gc_create_links.js:113-133 | A file fails exactly when it has a non-empty line that starts with neither `mmkdir` nor `mln`, and it fails with the first such line. |
| GcCreateLinks.ParseOkClean | bin/gc_create_links.js:113-133 | A file that parses has no bad line. |
| GcCreateLinks.ParseFailsAtFirstBad | bin/gc_create_links.js:113-133 | A file that fails to parse fails with its first bad line. |
| GcCreateLinks.ParseMkdirLine | bin/gc_create_links.js:119-120 | An `mmkdir` line appends its operand to the directories and changes nothing else. |
| GcCreateLinks.ParseLnLine | bin/gc_create_links.js:121-125 | An `mln` line appends its link from word 1 to word 2 and changes nothing else. |
| GcCreateLinks.ParseRender | bin/gc_create_links.js:110-134 | Parsing a written link file gives back its directories and links, in order. |
| GcCreateLinks.ParseLinkFile | bin/gc_create_links.js:110-134 | The parse loop pushes into `dirs` and `links` and computes the parse of the whole body. |
| GcCreateLinks.ParseNextLine | bin/gc_create_links.js:113-125 | After good lines, the next line is read into the file parsed so far. |
| GcCreateLinks.ParseStopsAt | bin/gc_create_links.js:126-132 | A bad line after good ones makes the whole file fail with that line, whatever follows it. |
| GcCreateLinks.JobIdOf | bin/gc_create_links.js:175-177 | The job id holds no slash. |
| GcCreateLinks.JobIdOfLinkPath | bin/gc_create_links.js:167-177 | For a file named `<20-character date><job id>-X-<rest>`, the extracted id is the job id. |
| GcCreateLinks.Classify | bin/gc_create_links.js:188-207 | Defer exactly when the job is running or its input is not done. Otherwise Discard exactly when `stats` is present and there are errors or the job was cancelled. Otherwise Proceed. |
| GcCreateLinks.AllOf | bin/gc_create_links.js:137-158 | A phase succeeds exactly when every call in it succeeded. Otherwise it reports the first failure. |
| GcCreateLinks.ReplayFile | bin/gc_create_links.js:136-160 | The three phases of a parsed file as a value. `ReplayLinkFile` computes it in place. |
| GcCreateLinks.Replay | bin/gc_create_links.js:98-164 | `processLinkFile` as a value. `ReplayDeletesLast`, `ReplayLinksAfterDirs` and `ReplayBadFile` state it: every directory first, then every link once all directories exist, then the delete once everything was made, and no other call. |
| GcCreateLinks.DeletesAppend | bin/gc_create_links.js:91 | The number of deletes is additive over call logs. |
| GcCreateLinks.ReplayDeletesLast | bin/gc_create_links.js:98-164 | The calls go directories, then links, then the delete. The file is deleted, as the last call, exactly when it was read and parsed and every directory and link was made. Success means that delete succeeded too. |
| GcCreateLinks.ReplayLinksAfterDirs | bin/gc_create_links.js:137-158 | Every directory of a parsed file is attempted first. A link is attempted only when every directory was created. Once every directory was created, every link is attempted in file order. The calls are a prefix of the file's directories, then its links, then its own delete, so no other call is issued. |
| GcCreateLinks.ReplayBadFile | bin/gc_create_links.js:104-133 | An unreadable file, or one with a bad line, issues no call. The error names the first bad line. |
| GcCreateLinks.Dispose | bin/gc_create_links.js:187-208 | Defer, discard or replay as a value. `DisposeDeletesOnlyItself` states it. |
| GcCreateLinks.Verify | bin/gc_create_links.js:172-210 | `findAndVerifyJob` as a value. `VerifyDeferred`, `VerifyDiscarded`, `VerifyReplays` and `VerifyDeletesOnlyItself` state it. |
| GcCreateLinks.VerifyDeferred | bin/gc_create_links.js:188-193 | A running job, or one whose input is not done, gives success with no call. |
| GcCreateLinks.VerifyDiscarded | bin/gc_create_links.js:195-205 | A failed or cancelled job gives only the delete of the file. |
| GcCreateLinks.VerifyReplays | bin/gc_create_links.js:182-207 | A failed lookup gives its error with no call. Any other job replays the file. |
| GcCreateLinks.DisposeDeletesOnlyItself | bin/gc_create_links.js:182-208 | At most the file itself is deleted, once and last. This happens exactly when the job is discarded, or replayed with every directory and link made. |
| GcCreateLinks.VerifyDeletesOnlyItself | bin/gc_create_links.js:172-210 | The same for `findAndVerifyJob` with the job looked up by the id taken from the file name. |
| GcCreateLinks.DeletesLastCount | bin/gc_create_links.js:160 | A log whose only delete is last holds one delete exactly when it ends with one. |
| GcCreateLinks.PendingDir | bin/gc_create_links.js:72 | A given non-empty `-d` directory is used. Otherwise the default `/<user>/stor/manta_gc/all/do` is used. |
| GcCreateLinks.HandleAll | bin/gc_create_links.js:235-241 | The fan-out over the listed files as a value. `HandleAllOutcome` states it. |
| GcCreateLinks.HandleAllOutcome | bin/gc_create_links.js:235-241 | The fan-out succeeds exactly when every file's handling did, and otherwise reports the first failure. It deletes only listed files. Each path is deleted once per time it is listed if its own handling deletes it, and never otherwise, whatever the other files' handling did. |
| GcCreateLinks.DeletesOfOnly | bin/gc_create_links.js:89-95 | Calls whose deletes are all of `q` delete `q` that many times and no other path. |
| GcCreateLinks.HandleAllCountStep | bin/gc_create_links.js:235-241 | The per-path delete count of the fan-out, carried over one more file. |
| GcCreateLinks.VerifyAllOutcome | bin/gc_create_links.js:235-241 | The same for `findAndVerifyJob` over every listed file, including the per-path delete count. |
| GcCreateLinks.CreateLinksQuiet | bin/gc_create_links.js:218-233 | A `ResourceNotFound` listing error is success with no call, and so is an empty listing. Any other listing error is returned with no call. |
| GcCreateLinks.CreateLinks | bin/gc_create_links.js:213-243 | `createGcLinks` as a value. `CreateLinksQuiet` and `CreateLinksListed` state it. |
| GcCreateLinks.CreateLinksListed | bin/gc_create_links.js:218-241 | Over a listing, the run succeeds exactly when every file's handling did. Only listed files are deleted, each once per listing exactly when its own `findAndVerifyJob` deletes it. |
| GcCreateLinks.CreateLinksDeletesOnce | bin/gc_create_links.js:218-241 | A listing whose entries have distinct names has each file deleted at most once. |
| GcCreateLinks.ChildPathsDistinct | lib/common.js:99-107 | Entries with distinct names give distinct paths `dir/name`. |
| GcCreateLinks.GcRun.constructor | bin/gc_create_links.js:37-43 | `count` starts at 0, `cronFailed` at 1, and no call has been issued. |
| GcCreateLinks.GcRun.DeleteObject | bin/gc_create_links.js:89-95 | `AUDIT.count` goes up by exactly 1 and the unlink of the file is issued. Its status is the unlink's. |
| GcCreateLinks.GcRun.MakeDirectories | bin/gc_create_links.js:137-144 | Every directory is created in order. The status is the first failure, and the count does not change. |
| GcCreateLinks.GcRun.MakeLinks | bin/gc_create_links.js:146-158 | Every link is made in order. The status is the first failure, and the count does not change. |
| GcCreateLinks.GcRun.ReplayLinkFile | bin/gc_create_links.js:136-160 | The calls issued and the status are those of the directories, links and delete phases. |
| GcCreateLinks.GcRun.ProcessLinkFile | bin/gc_create_links.js:98-164 | The calls issued and the status are those of `processLinkFile`, and the count stays equal to the deletes issued. |
| GcCreateLinks.GcRun.DisposeLinkFile | bin/gc_create_links.js:187-208 | Defer, discard or replay according to the looked-up job. |
| GcCreateLinks.GcRun.FindAndVerifyJob | bin/gc_create_links.js:172-210 | The calls issued and the status are those of `findAndVerifyJob`. |
| GcCreateLinks.GcRun.FindAndVerifyJobs | bin/gc_create_links.js:235-241 | Every listed file is handled in order, and the status is the first failure. |
| GcCreateLinks.GcRun.CreateGcLinks | bin/gc_create_links.js:213-243 | The calls issued and the status are those of `createGcLinks`. |
| GcCreateLinks.GcRun.Run | bin/gc_create_links.js:249-256 | The run handles the pending directory. `cronFailed` becomes 0 exactly when that succeeded. |

## Left out

- Streams: the bodies `get` reads and the entries `ls` emits are whole values. Buffering
  in `getObject` and `getObjectsInDir` is not modelled, nor a stream that reports both
  an error and an end.
- `getObjectToFile` is not part of this model. It pipes to the local filesystem.
- Concurrency: `vasync.forEachParallel` and `vasync.pipeline` run their inputs one after
  another in input order.
  - Every mkdir, every link and every file is attempted, and the error reported is the
    first in input order. vasync's combining of several errors into one is not modelled.
  - `results.successes` is taken in shard order. vasync records it in completion order.
- `JSON.parse` of an archived job record is the abstract `parseJob`. A body that does not
  parse is not modelled.
- Logging, `getopt` parsing, `usage`, `process.exit` and the audit record's timing fields
  (`startTime`, `endTime`, `cronRunMillis`) are not modelled, nor the record's `opts`.
- Clock and time zone: `new Date()` is the parameter `now`, and the `Date` getters are
  assumed to run in UTC. Timestamps outside the `Date` range, and non-integer numeric
  options, are not modelled.
- The `returnObjects` option of `findObjectsForShards` is always off: paths are returned.
- Mako `mtime`s are ISO 8601 strings that the source compares as strings. They are
  modelled as integer milliseconds, which order the same way for well-formed UTC times.
- The error texts are fault constructors carrying the values the messages print. The
  `Date` printed in the bound-exhausted message is the timestamp in milliseconds.
- Strings: JavaScript strings are sequences of UTF-16 code units, while the model's strings
  are sequences of Unicode characters. The only index-sensitive use is `substring(20)` in
  `findAndVerifyJob`, so the job id differs only when a file name has a character at
  U+10000 or above among its first 20 code units.
- `job.stats.errors` is an integer. A `stats` object without `errors` is not modelled.
- GcCreateLinks.VerifyDeferred, GcCreateLinks.VerifyDiscarded, GcCreateLinks.VerifyReplays
  and GcCreateLinks.CreateLinksQuiet follow directly from the definitions. They restate the
  branches of `findAndVerifyJob` and `createGcLinks` as properties. The deeper statements are
  `DisposeDeletesOnlyItself` and `CreateLinksListed`.
