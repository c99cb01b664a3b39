/**
 * lib/common.js: string helpers, job lookup with fallback to the archived job
 * record, and discovery of the latest consistent set of Manatee (moray) and Mako
 * dumps. Every function here that lists a directory takes the `Client` whose `ls`
 * decides what is listed, and the current time `now` where the source reads the clock.
 */
module Common {
  import opened Manta
  import opened JsRuntime
  import Calendar

  /** How many hours the backup search walks back by default. */
  const MaxHoursInPast: int := 24

  /** Mako dumps more than three days older than now are fatal. */
  const MaxMillisMakoDumpsInPast: int := 1000 * 60 * 60 * 24 * 3

  /** One more element of a prefix. */
  lemma TakeOneMore<T>(s: seq<T>, j: nat)
    requires j < |s|
    ensures s[..j + 1] == s[..j] + [s[j]]
  {
  }

  /** A non-empty sequence is its front followed by its last element. */
  lemma FrontLast<T>(s: seq<T>)
    requires s != []
    ensures s[..|s| - 1] + [s[|s| - 1]] == s
    ensures multiset(s) == multiset(s[..|s| - 1]) + multiset{s[|s| - 1]}
  {
    assert s[..|s| - 1] + [s[|s| - 1]] == s;
  }

  /** An element occurs at most once in a sequence without repeats. */
  lemma {:induction false} DistinctCount<T>(s: seq<T>, x: T)
    requires forall i, j :: 0 <= i < j < |s| ==> s[i] != s[j]
    ensures multiset(s)[x] <= 1
    decreases |s|
  {
    if s != [] {
      var init := s[..|s| - 1];
      assert forall i :: 0 <= i < |init| ==> init[i] == s[i];
      DistinctCount(init, x);
      FrontLast(s);
      if x == s[|s| - 1] {
        assert forall i :: 0 <= i < |init| ==> init[i] != x;
      }
    }
  }

  /** Concatenation regroups. */
  lemma AppendRegroup<T>(a: seq<T>, b: seq<T>, c: seq<T>)
    ensures (a + b) + c == a + (b + c)
  {
  }

  /** One more element of `s` after `a` and a prefix of `s`. */
  lemma PrefixSnoc<T>(a: seq<T>, s: seq<T>, j: nat)
    requires j < |s|
    ensures a + s[..j + 1] == (a + s[..j]) + [s[j]]
  {
    TakeOneMore(s, j);
  }

  // ---------------------------------------------------------------- strings

  function StartsWith(str: string, prefix: string): (r: bool)
    ensures r <==> prefix <= str
  {
    Take(str, |prefix|) == prefix
  }

  /** Some element of `prefixes` is a prefix of `str`. */
  predicate MatchesOneOf(str: string, prefixes: seq<string>)
  {
    exists i :: 0 <= i < |prefixes| && prefixes[i] <= str
  }

  /** Folds `sw = sw || startsWith(str, prefix)` over the prefixes. */
  method StartsWithOneOf(str: string, prefixes: seq<string>) returns (sw: bool)
    ensures sw <==> MatchesOneOf(str, prefixes)
    ensures prefixes == [] ==> !sw
  {
    sw := false;
    for i := 0 to |prefixes|
      invariant sw <==> exists j :: 0 <= j < i && prefixes[j] <= str
    {
      sw := sw || StartsWith(str, prefixes[i]);
    }
  }

  /** `str.indexOf(suffix, str.length - suffix.length) !== -1`. */
  function EndsWith(str: string, suffix: string): (r: bool)
    ensures r <==> |suffix| <= |str| && str[|str| - |suffix|..] == suffix
  {
    var k := IndexOf(str, suffix, |str| - |suffix|);
    assert |suffix| <= |str| ==> StartPosition(str, |str| - |suffix|) == |str| - |suffix|;
    k != -1
  }

  /** Two-digit zero padding: `n < 10 ? '0' + n : '' + n`. */
  function Pad(n: int): (r: string)
    ensures 0 <= n < 10 ==> r == ['0', DigitChar(n)]
    ensures 10 <= n < 100 ==> r == [DigitChar(n / 10), DigitChar(n % 10)]
    ensures 0 <= n < 100 ==> |r| == 2 && '0' <= r[0] <= '9' && '0' <= r[1] <= '9' && DecimalValue(r) == n
  {
    if n < 10 then
      PadOneDigit(n);
      "0" + IntString(n)
    else
      PadTwoDigits(n);
      IntString(n)
  }

  /** A one-digit number behind a `'0'`. */
  lemma PadOneDigit(n: int)
    requires n < 10
    ensures 0 <= n ==> "0" + IntString(n) == ['0', DigitChar(n)]
    ensures 0 <= n ==> DecimalValue("0" + IntString(n)) == n
  {
    if 0 <= n {
      assert IntString(n) == [DigitChar(n)];
      assert DigitChar(0) == '0';
      TwoDigitValue(0, n);
    }
  }

  /** A two-digit number as it is. */
  lemma PadTwoDigits(n: int)
    requires 10 <= n
    ensures n < 100 ==> IntString(n) == [DigitChar(n / 10), DigitChar(n % 10)]
    ensures n < 100 ==> DecimalValue(IntString(n)) == n
  {
    if n < 100 {
      assert IntString(n) == NatString(n / 10) + [DigitChar(n % 10)];
      TwoDigitValue(n / 10, n % 10);
    }
  }

  /** Numbers below 100 have distinct padded forms. */
  lemma PadInjective(a: int, b: int)
    requires 0 <= a < 100 && 0 <= b < 100 && Pad(a) == Pad(b)
    ensures a == b
  {
  }

  lemma TwoDigitValue(a: nat, b: nat)
    requires a < 10 && b < 10
    ensures DecimalValue([DigitChar(a), DigitChar(b)]) == 10 * a + b
  {
    var s := [DigitChar(a), DigitChar(b)];
    var s1 := [DigitChar(a)];
    assert s[..1] == s1 && s1[..0] == [];
    assert DecimalValue(s1) == 10 * DecimalValue([]) + DigitValue(DigitChar(a)) == a;
    assert DecimalValue(s) == 10 * DecimalValue(s1) + DigitValue(DigitChar(b));
  }

  // ---------------------------------------------------------------- jobs

  /** Where a job's record is kept once the job service has archived it. */
  function ArchivedJobPath(user: string, jobId: string): string
  {
    "/" + user + "/jobs/" + jobId + "/job.json"
  }

  predicate IsResourceNotFound(r: Result<Job>)
  {
    r.Err? && r.fault.Store? && r.fault.error.name == "ResourceNotFoundError"
  }

  /**
   * `getJob`: the live job record; when the job service reports ResourceNotFoundError,
   * the archived record instead; when that cannot be read either, the original error.
   */
  function GetJob(client: Client, jobId: string): (r: Result<Job>)
    ensures client.job(jobId).Ok? ==> r == client.job(jobId)
    ensures r.Err? ==> r == client.job(jobId)
    ensures r.Ok? <==>
      client.job(jobId).Ok? ||
      (IsResourceNotFound(client.job(jobId)) && client.get(ArchivedJobPath(client.user, jobId)).Ok?)
    ensures r.Ok? && client.job(jobId).Err? ==>
      r.value == client.parseJob(client.get(ArchivedJobPath(client.user, jobId)).value)
  {
    var live := client.job(jobId);
    if IsResourceNotFound(live) then
      match client.get(ArchivedJobPath(client.user, jobId))
      case Ok(body) => Ok(client.parseJob(body))
      case Err(_) => live
    else live
  }

  // ---------------------------------------------------------------- hourly backup directories

  function BackupRoot(user: string, shard: string): string
  {
    "/" + user + "/stor/manatee_backups/" + shard
  }

  /** `…/manatee_backups/<shard>/YYYY/MM/DD/HH` for the hour holding instant `t`. */
  function HourDirectory(user: string, shard: string, t: int): string
  {
    var f := Calendar.FieldsOf(t);
    BackupRoot(user, shard) + "/" + IntString(f.year) + "/" + Pad(f.month + 1) + "/"
      + Pad(f.date) + "/" + Pad(f.hours)
  }

  /** A path ending in three two-character components splits after its head. */
  lemma {:induction false} HourPathSplit(root: string, y: string, m: string, d: string, h: string)
    requires |m| == 2 && |d| == 2 && |h| == 2
    ensures var p := root + "/" + y + "/" + m + "/" + d + "/" + h;
      |p| >= 9 && p[..|p| - 9] == root + "/" + y && p[|p| - 9..] == "/" + m + "/" + d + "/" + h
  {
    var p := root + "/" + y + "/" + m + "/" + d + "/" + h;
    var head, tail := root + "/" + y, "/" + m + "/" + d + "/" + h;
    assert p == head + tail;
  }

  /** Two such paths with the same root agree component by component. */
  lemma {:induction false} HourPathComponents(root: string, y1: string, m1: string, d1: string, h1: string,
                                              y2: string, m2: string, d2: string, h2: string)
    requires |m1| == 2 && |d1| == 2 && |h1| == 2 && |m2| == 2 && |d2| == 2 && |h2| == 2
    requires root + "/" + y1 + "/" + m1 + "/" + d1 + "/" + h1 == root + "/" + y2 + "/" + m2 + "/" + d2 + "/" + h2
    ensures y1 == y2 && m1 == m2 && d1 == d2 && h1 == h2
  {
    HourPathSplit(root, y1, m1, d1, h1);
    HourPathSplit(root, y2, m2, d2, h2);
    var tail1, tail2 := "/" + m1 + "/" + d1 + "/" + h1, "/" + m2 + "/" + d2 + "/" + h2;
    assert tail1 == tail2;
    assert m1 == tail1[1..3] && m2 == tail2[1..3];
    assert d1 == tail1[4..6] && d2 == tail2[4..6];
    assert h1 == tail1[7..9] && h2 == tail2[7..9];
    var head := root + "/";
    assert head + y1 == head + y2;
    assert y1 == (head + y1)[|head|..] && y2 == (head + y2)[|head|..];
  }

  /** Equal hour directories of one shard name the same calendar hour. */
  lemma HourDirectoryDeterminesFields(user: string, shard: string, t1: int, t2: int)
    ensures HourDirectory(user, shard, t1) == HourDirectory(user, shard, t2) ==>
            Calendar.FieldsOf(t1) == Calendar.FieldsOf(t2)
  {
    if HourDirectory(user, shard, t1) == HourDirectory(user, shard, t2) {
      var f1, f2 := Calendar.FieldsOf(t1), Calendar.FieldsOf(t2);
      HourPathComponents(BackupRoot(user, shard),
                         IntString(f1.year), Pad(f1.month + 1), Pad(f1.date), Pad(f1.hours),
                         IntString(f2.year), Pad(f2.month + 1), Pad(f2.date), Pad(f2.hours));
      IntStringInjective(f1.year, f2.year);
      PadInjective(f1.month + 1, f2.month + 1);
      PadInjective(f1.date, f2.date);
      PadInjective(f1.hours, f2.hours);
    }
  }

  /** Instants in different hours are looked for in different directories. */
  lemma HourDirectoriesDistinct(user: string, shard: string, t1: int, t2: int)
    requires t1 / Calendar.MillisPerHour != t2 / Calendar.MillisPerHour
    ensures HourDirectory(user, shard, t1) != HourDirectory(user, shard, t2)
  {
    Calendar.FieldsDistinguishHours(t1, t2);
    HourDirectoryDeterminesFields(user, shard, t1, t2);
  }

  /** Two instants are looked for in the same directory exactly when they fall in the same hour. */
  lemma SameDirectoryIffSameHour(user: string, shard: string, t1: int, t2: int)
    ensures HourDirectory(user, shard, t1) == HourDirectory(user, shard, t2) <==>
            t1 / Calendar.MillisPerHour == t2 / Calendar.MillisPerHour
  {
    if t1 / Calendar.MillisPerHour == t2 / Calendar.MillisPerHour {
      Calendar.FieldsOfSameHour(t1, t2);
    } else {
      HourDirectoriesDistinct(user, shard, t1, t2);
    }
  }

  // ---------------------------------------------------------------- findShardObjects

  /** A listed object tagged with its directory and full path (`o.directory`, `o.path`). */
  datatype ShardObject = ShardObject(directory: string, name: string, mtime: int, path: string)

  function Tag(dir: string, e: Entry): ShardObject
  {
    ShardObject(dir, e.name, e.mtime, dir + "/" + e.name)
  }

  /** `filtered`: the listed objects whose name starts with a table prefix, in listing order. */
  function Matching(dir: string, entries: seq<Entry>, prefixes: seq<string>): (r: seq<ShardObject>)
    ensures |r| <= |entries|
    ensures forall o :: o in r ==>
      o.directory == dir && o.path == dir + "/" + o.name && MatchesOneOf(o.name, prefixes)
    ensures forall o :: o in r ==> exists e :: e in entries && o == Tag(dir, e)
    ensures forall e :: e in entries && MatchesOneOf(e.name, prefixes) ==> Tag(dir, e) in r
    decreases |entries|
  {
    if entries == [] then []
    else
      var init := entries[..|entries| - 1];
      var e := entries[|entries| - 1];
      assert entries == init + [e];
      var rest := Matching(dir, init, prefixes);
      if MatchesOneOf(e.name, prefixes) then rest + [Tag(dir, e)] else rest
  }

  /** One listed object on its own is kept, tagged, exactly when its name starts with a prefix. */
  lemma MatchingOne(dir: string, e: Entry, prefixes: seq<string>)
    ensures Matching(dir, [e], prefixes) == if MatchesOneOf(e.name, prefixes) then [Tag(dir, e)] else []
  {
    assert [e][..0] == [];
  }

  /**
   * Filtering keeps listing order: the objects kept from `a + b` are those kept from
   * `a` followed by those kept from `b`.
   */
  lemma {:induction false} MatchingAppend(dir: string, a: seq<Entry>, b: seq<Entry>, prefixes: seq<string>)
    ensures Matching(dir, a + b, prefixes) == Matching(dir, a, prefixes) + Matching(dir, b, prefixes)
    decreases |b|
  {
    if b == [] {
      assert a + b == a;
    } else {
      var init := b[..|b| - 1];
      assert (a + b)[..|a + b| - 1] == a + init;
      assert (a + b)[|a + b| - 1] == b[|b| - 1];
      MatchingAppend(dir, a, init, prefixes);
    }
  }

  /** What one hour of the search makes of the listing of its directory. */
  datatype Step = Skip | Stop(result: Result<seq<ShardObject>>)

  function HourStep(listing: Listing, dir: string, prefixes: seq<string>): Step
  {
    match listing
    case LsFailed(e) => if e.code != "NotFoundError" then Stop(Err(Store(e))) else Skip
    case StreamFailed(e) => Stop(Err(Store(e)))
    case Listed(entries) =>
      var filtered := Matching(dir, entries, prefixes);
      if |filtered| == |prefixes| then Stop(Ok(filtered)) else Skip
  }

  /** The directory searched at `iteration`: `iteration` hours before `timestamp`. */
  function SearchDirectory(client: Client, shard: string, timestamp: int, iteration: int): string
  {
    HourDirectory(client.user, shard, Calendar.HoursBefore(timestamp, iteration))
  }

  /** Every iteration's directory. */
  function DirOf(client: Client, shard: string, timestamp: int): int -> string
  {
    j => SearchDirectory(client, shard, timestamp, j)
  }

  /** Every iteration's step, for a given directory per iteration. */
  function StepsOf(client: Client, dirOf: int -> string, prefixes: seq<string>): int -> Step
  {
    j => HourStep(client.ls(dirOf(j)), dirOf(j), prefixes)
  }

  /**
   * The first iteration from `iteration` on whose step stops the search, or `maxHours`
   * when every hour up to the bound skips (`iteration` itself when it is already past it).
   */
  function FirstStop(steps: int -> Step, iteration: int, maxHours: int): (k: int)
    ensures iteration < maxHours ==> iteration <= k <= maxHours
    ensures iteration >= maxHours ==> k == iteration
    ensures forall j :: iteration <= j < k ==> steps(j).Skip?
    ensures k < maxHours ==> steps(k).Stop?
    decreases maxHours - iteration
  {
    if iteration >= maxHours || steps(iteration).Stop? then iteration
    else FirstStop(steps, iteration + 1, maxHours)
  }

  /** Where a search with every hour from `from` to `k` skipping, and hour `k` deciding, stops. */
  lemma {:induction false} FirstStopIs(steps: int -> Step, from: int, k: int, maxHours: int)
    requires from <= k && (k <= maxHours || k == from)
    requires forall j :: from <= j < k ==> steps(j).Skip?
    requires k < maxHours ==> steps(k).Stop?
    ensures FirstStop(steps, from, maxHours) == k
    decreases k - from
  {
    if from < k {
      FirstStopIs(steps, from + 1, k, maxHours);
    }
  }

  /** How many directories a search from `iteration` lists: up to and including the one it stops at. */
  function SearchLength(steps: int -> Step, iteration: int, maxHours: int): (n: nat)
    ensures n <= if iteration < maxHours then maxHours - iteration else 0
  {
    var k := FirstStop(steps, iteration, maxHours);
    var end := if k < maxHours then k + 1 else maxHours;
    if iteration < end then end - iteration else 0
  }

  /**
   * The result a search over `steps` reports when it starts at `iteration`: what the
   * first hour that does not skip reports, or, when every hour up to `maxHours` skips,
   * the error naming the shard, the hours searched and the timestamp.
   */
  function Search(steps: int -> Step, shard: string, timestamp: int, iteration: int, maxHours: int)
    : Result<seq<ShardObject>>
  {
    var k := FirstStop(steps, iteration, maxHours);
    if k >= maxHours then Err(NotFoundInPast(shard, k, timestamp)) else steps(k).result
  }

  /**
   * The recursion of `findShardObjects`: past the bound it fails at once; otherwise an
   * hour that skips searches on from the next iteration, and one that stops reports.
   */
  lemma SearchRecursion(steps: int -> Step, shard: string, timestamp: int, iteration: int, maxHours: int)
    ensures Search(steps, shard, timestamp, iteration, maxHours) ==
      if iteration >= maxHours then Err(NotFoundInPast(shard, iteration, timestamp))
      else if steps(iteration).Skip? then Search(steps, shard, timestamp, iteration + 1, maxHours)
      else steps(iteration).result
  {
  }

  /** `findShardObjects` for one shard, starting at `iteration`. */
  function ShardSearch(client: Client, shard: string, prefixes: seq<string>, timestamp: int,
                       iteration: int, maxHours: int): Result<seq<ShardObject>>
  {
    Search(StepsOf(client, DirOf(client, shard, timestamp), prefixes), shard, timestamp, iteration, maxHours)
  }

  /** A shard search fails only with a store error or after running out of hours. */
  lemma ShardSearchFaults(client: Client, shard: string, prefixes: seq<string>, timestamp: int,
                          iteration: int, maxHours: int)
    ensures var r := ShardSearch(client, shard, prefixes, timestamp, iteration, maxHours);
      r.Err? ==> r.fault.Store? ||
                 r.fault == NotFoundInPast(shard, if iteration < maxHours then maxHours else iteration, timestamp)
  {
    SearchFaults(client, DirOf(client, shard, timestamp), prefixes, shard, timestamp, iteration, maxHours);
  }

  /** `ShardSearchFaults` for any directory function. */
  lemma SearchFaults(client: Client, dirOf: int -> string, prefixes: seq<string>, shard: string,
                     timestamp: int, iteration: int, maxHours: int)
    ensures var r := Search(StepsOf(client, dirOf, prefixes), shard, timestamp, iteration, maxHours);
      r.Err? ==> r.fault.Store? ||
                 r.fault == NotFoundInPast(shard, if iteration < maxHours then maxHours else iteration, timestamp)
  {
    StopFaults(client, dirOf, prefixes, iteration, maxHours);
  }

  /** Objects that all carry directory `dir`, each named with a prefix and with path `dir/name`. */
  predicate FromDirectory(objs: seq<ShardObject>, dir: string, prefixes: seq<string>)
  {
    forall o :: o in objs ==> o.directory == dir && o.path == dir + "/" + o.name && MatchesOneOf(o.name, prefixes)
  }

  /** `objs` are exactly the prefix-matching entries of the listing of `dir`, in listing order. */
  predicate ListedIn(client: Client, objs: seq<ShardObject>, dir: string, prefixes: seq<string>)
  {
    client.ls(dir).Listed? && objs == Matching(dir, client.ls(dir).entries, prefixes)
  }

  /**
   * What a successful shard search finds: one object per prefix, all from the directory
   * of one hour within the bound, each named with a prefix and with path `dir/name`.
   * They are the matching entries of that hour's listing, and every hour searched
   * before it was skipped.
   */
  lemma ShardSearchObjects(client: Client, shard: string, prefixes: seq<string>, timestamp: int,
                           iteration: int, maxHours: int)
    ensures var r := ShardSearch(client, shard, prefixes, timestamp, iteration, maxHours);
      r.Ok? ==> (|r.value| == |prefixes| &&
        exists k :: iteration <= k < maxHours &&
          FromDirectory(r.value, SearchDirectory(client, shard, timestamp, k), prefixes) &&
          ListedIn(client, r.value, SearchDirectory(client, shard, timestamp, k), prefixes) &&
          SkipsUntil(StepsOf(client, DirOf(client, shard, timestamp), prefixes), iteration, k))
  {
    var dirOf := DirOf(client, shard, timestamp);
    StopObjects(client, dirOf, prefixes, iteration, maxHours);
    var k := FirstStop(StepsOf(client, dirOf, prefixes), iteration, maxHours);
    var r := ShardSearch(client, shard, prefixes, timestamp, iteration, maxHours);
    if r.Ok? {
      assert dirOf(k) == SearchDirectory(client, shard, timestamp, k);
      assert FromDirectory(r.value, SearchDirectory(client, shard, timestamp, k), prefixes);
      assert ListedIn(client, r.value, SearchDirectory(client, shard, timestamp, k), prefixes);
    }
  }

  /**
   * The objects of the hour a search stops at: the first hour from `iteration` on that
   * does not skip, whose listing's matching entries they are.
   */
  lemma StopObjects(client: Client, dirOf: int -> string, prefixes: seq<string>, iteration: int, maxHours: int)
    ensures var steps := StepsOf(client, dirOf, prefixes);
      var k := FirstStop(steps, iteration, maxHours);
      k < maxHours && steps(k).result.Ok? ==> (iteration <= k && |steps(k).result.value| == |prefixes| &&
        FromDirectory(steps(k).result.value, dirOf(k), prefixes) &&
        ListedIn(client, steps(k).result.value, dirOf(k), prefixes) &&
        SkipsUntil(steps, iteration, k))
  {
    var steps := StepsOf(client, dirOf, prefixes);
    var k := FirstStop(steps, iteration, maxHours);
    if k < maxHours {
      assert steps(k) == HourStep(client.ls(dirOf(k)), dirOf(k), prefixes);
    }
  }

  /** Starting at or past the bound fails at once and lists nothing. */
  lemma Exhausted(client: Client, shard: string, prefixes: seq<string>, timestamp: int,
                  iteration: int, maxHours: int)
    requires iteration >= maxHours
    ensures ShardSearch(client, shard, prefixes, timestamp, iteration, maxHours)
            == Err(NotFoundInPast(shard, iteration, timestamp))
    ensures SearchedDirectories(client, shard, prefixes, timestamp, iteration, maxHours) == []
  {
  }

  /** The hour a search stops at reports objects or a store error. */
  lemma StopFaults(client: Client, dirOf: int -> string, prefixes: seq<string>, iteration: int, maxHours: int)
    ensures var steps := StepsOf(client, dirOf, prefixes);
      var k := FirstStop(steps, iteration, maxHours);
      k < maxHours ==> steps(k).result.Ok? || steps(k).result.fault.Store?
  {
    var steps := StepsOf(client, dirOf, prefixes);
    var k := FirstStop(steps, iteration, maxHours);
    if k < maxHours {
      assert steps(k) == HourStep(client.ls(dirOf(k)), dirOf(k), prefixes);
    }
  }

  /** The directories looked at by `count` iterations from `from` on, in order. */
  function Dirs(dirOf: int -> string, from: int, count: nat): (ds: seq<string>)
    ensures |ds| == count
    ensures forall k :: 0 <= k < count ==> ds[k] == dirOf(from + k)
    decreases count
  {
    if count == 0 then []
    else Dirs(dirOf, from, count - 1) + [dirOf(from + count - 1)]
  }

  /** One more iteration lists one more directory. */
  lemma DirsOneMore(dirOf: int -> string, from: int, count: nat)
    ensures Dirs(dirOf, from, count + 1) == Dirs(dirOf, from, count) + [dirOf(from + count)]
  {
  }

  /** The directories `findShardObjects` lists, in order, when it starts at `iteration`. */
  function SearchedDirectories(client: Client, shard: string, prefixes: seq<string>, timestamp: int,
                               iteration: int, maxHours: int): seq<string>
  {
    var dirOf := DirOf(client, shard, timestamp);
    Dirs(dirOf, iteration, SearchLength(StepsOf(client, dirOf, prefixes), iteration, maxHours))
  }

  /** When later iterations never revisit a directory, neither does any run of them. */
  lemma DirsDistinct(dirOf: int -> string, from: int, count: nat)
    requires forall a, b :: a < b ==> dirOf(a) != dirOf(b)
    ensures var ds := Dirs(dirOf, from, count);
      forall k, l :: 0 <= k < l < count ==> ds[k] != ds[l]
  {
    var ds := Dirs(dirOf, from, count);
    forall k, l | 0 <= k < l < count ensures ds[k] != ds[l] {
      assert dirOf(from + k) != dirOf(from + l);
    }
  }

  /** Different iterations look in different directories. */
  lemma SearchDirectoriesDiffer(client: Client, shard: string, timestamp: int, a: int, b: int)
    requires a < b
    ensures SearchDirectory(client, shard, timestamp, a) != SearchDirectory(client, shard, timestamp, b)
  {
    HourDirectoriesDistinct(client.user, shard, Calendar.HoursBefore(timestamp, a), Calendar.HoursBefore(timestamp, b));
  }

  /** The search's directory function never revisits a directory. */
  lemma DirOfInjective(client: Client, shard: string, timestamp: int)
    ensures var dirOf := DirOf(client, shard, timestamp);
      forall a, b :: a < b ==> dirOf(a) != dirOf(b)
  {
    var dirOf := DirOf(client, shard, timestamp);
    forall a, b | a < b ensures dirOf(a) != dirOf(b) {
      SearchDirectoriesDiffer(client, shard, timestamp, a, b);
    }
  }

  /** The search never lists the same directory twice. */
  lemma SearchedDirectoriesDistinct(client: Client, shard: string, prefixes: seq<string>,
                                    timestamp: int, iteration: int, maxHours: int)
    ensures var ds := SearchedDirectories(client, shard, prefixes, timestamp, iteration, maxHours);
      forall k, l :: 0 <= k < l < |ds| ==> ds[k] != ds[l]
  {
    var dirOf := DirOf(client, shard, timestamp);
    DirOfInjective(client, shard, timestamp);
    DirsDistinct(dirOf, iteration, SearchLength(StepsOf(client, dirOf, prefixes), iteration, maxHours));
  }

  /**
   * The `ls` callback for one hour directory: a listing error other than NotFoundError
   * or a stream error stops the search with that error; otherwise the listed objects
   * are tagged and filtered, and the search stops when one object per prefix is found.
   */
  method ListHour(client: Client, dir: string, prefixes: seq<string>) returns (step: Step)
    ensures step == HourStep(client.ls(dir), dir, prefixes)
  {
    match client.ls(dir) {
      case LsFailed(e) =>
        step := if e.code != "NotFoundError" then Stop(Err(Store(e))) else Skip;
      case StreamFailed(e) =>
        step := Stop(Err(Store(e)));
      case Listed(objs) =>
        var filtered := FilterListing(dir, objs, prefixes);
        step := if |filtered| == |prefixes| then Stop(Ok(filtered)) else Skip;
    }
  }

  /** The loop over one listing that keeps, tagged, the objects named after a table prefix. */
  method FilterListing(dir: string, objs: seq<Entry>, prefixes: seq<string>) returns (filtered: seq<ShardObject>)
    ensures filtered == Matching(dir, objs, prefixes)
  {
    filtered := [];
    for i := 0 to |objs|
      invariant filtered == Matching(dir, objs[..i], prefixes)
    {
      TakeOneMore(objs, i);
      var sw := StartsWithOneOf(objs[i].name, prefixes);
      if sw {
        filtered := filtered + [Tag(dir, objs[i])];
      }
    }
    assert objs[..|objs|] == objs;
  }

  /**
   * The recursion of `findShardObjects`, one hour per round, over the directory of
   * every iteration: returns the iteration it stopped at, that hour's step (`Skip` when
   * it ran out of hours) and every directory it listed, in order.
   */
  method WalkBack(client: Client, dirOf: int -> string, prefixes: seq<string>, iteration: int, maxHours: int)
    returns (k: int, step: Step, listed: seq<string>)
    ensures k == FirstStop(StepsOf(client, dirOf, prefixes), iteration, maxHours)
    ensures step == if k < maxHours then StepsOf(client, dirOf, prefixes)(k) else Skip
    ensures listed == Dirs(dirOf, iteration, SearchLength(StepsOf(client, dirOf, prefixes), iteration, maxHours))
  {
    ghost var steps := StepsOf(client, dirOf, prefixes);
    k, step, listed := iteration, Skip, [];
    while k < maxHours
      invariant iteration <= k && (k <= maxHours || k == iteration)
      invariant SkipsUntil(steps, iteration, k)
      invariant listed == Dirs(dirOf, iteration, k - iteration)
      invariant step == Skip
      decreases maxHours - k
    {
      var dir;
      dir, step := VisitHour(client, dirOf, prefixes, k);
      DirsOneMore(dirOf, iteration, k - iteration);
      listed := listed + [dir];
      if step.Stop? {
        StopsAt(steps, iteration, k, maxHours);
        return;
      }
      SkipsOneMore(steps, iteration, k);
      k := k + 1;
    }
    StopsAt(steps, iteration, k, maxHours);
  }

  /** One round of the walk: the directory of iteration `k` and its listing's step. */
  method VisitHour(client: Client, dirOf: int -> string, prefixes: seq<string>, k: int)
    returns (dir: string, step: Step)
    ensures dir == dirOf(k) && step == StepsOf(client, dirOf, prefixes)(k)
  {
    dir := dirOf(k);
    step := ListHour(client, dir, prefixes);
  }

  /** Every iteration from `from` up to `k` skips. */
  ghost predicate SkipsUntil(steps: int -> Step, from: int, k: int)
  {
    forall j :: from <= j < k ==> steps(j).Skip?
  }

  lemma SkipsOneMore(steps: int -> Step, from: int, k: int)
    requires SkipsUntil(steps, from, k) && steps(k).Skip?
    ensures SkipsUntil(steps, from, k + 1)
  {
  }

  /** Where a search stops, by `FirstStopIs`, and how many directories it lists by then. */
  lemma StopsAt(steps: int -> Step, from: int, k: int, maxHours: int)
    requires from <= k && (k <= maxHours || k == from)
    requires SkipsUntil(steps, from, k)
    requires k < maxHours ==> steps(k).Stop?
    ensures FirstStop(steps, from, maxHours) == k
    ensures SearchLength(steps, from, maxHours) == if k < maxHours then k - from + 1 else k - from
  {
    FirstStopIs(steps, from, k, maxHours);
  }

  /** The options `findShardObjects` reads; `None` where the caller leaves one out. */
  datatype ShardOptions = ShardOptions(
    shard: string,
    tablePrefixes: seq<string>,
    maxHoursInPast: Option<int>,
    iteration: Option<int>,
    timestamp: Option<int>)

  function OrElse(o: Option<int>, default: int): int
  {
    if o.Some? then o.value else default
  }

  /**
   * `findShardObjects`: fills in the defaults (24 hours, iteration 0, now), walks back
   * one hour at a time until an hour directory holds as many prefix-matching objects
   * as there are prefixes. `listed` is every directory it lists, in order.
   */
  method FindShardObjects(client: Client, opts: ShardOptions, now: int)
    returns (r: Result<seq<ShardObject>>, listed: seq<string>)
    ensures var maxHours := OrElse(opts.maxHoursInPast, MaxHoursInPast);
      var iteration := OrElse(opts.iteration, 0);
      var timestamp := OrElse(opts.timestamp, now);
      r == ShardSearch(client, opts.shard, opts.tablePrefixes, timestamp, iteration, maxHours) &&
      listed == SearchedDirectories(client, opts.shard, opts.tablePrefixes, timestamp, iteration, maxHours)
  {
    var maxHours := OrElse(opts.maxHoursInPast, MaxHoursInPast);
    var iteration := OrElse(opts.iteration, 0);
    var timestamp := OrElse(opts.timestamp, now);
    var k, step;
    k, step, listed := WalkBack(client, DirOf(client, opts.shard, timestamp), opts.tablePrefixes,
                                iteration, maxHours);
    r := if step.Stop? then step.result else Err(NotFoundInPast(opts.shard, k, timestamp));
  }

  // ---------------------------------------------------------------- findObjectsForShards

  /** The earliest of some modification times, `None` for none (`earliestMorayDump`, `earliestDump`). */
  function Earliest(mtimes: seq<int>): (r: Option<int>)
    ensures r.None? <==> mtimes == []
    ensures r.Some? ==> r.value in mtimes && forall i :: 0 <= i < |mtimes| ==> r.value <= mtimes[i]
    decreases |mtimes|
  {
    if mtimes == [] then None
    else
      var init := mtimes[..|mtimes| - 1];
      var m := mtimes[|mtimes| - 1];
      assert mtimes == init + [m];
      var e := Earliest(init);
      if e.None? || m < e.value then Some(m) else e
  }

  function MTimes(objs: seq<ShardObject>): seq<int>
  {
    seq(|objs|, i requires 0 <= i < |objs| => objs[i].mtime)
  }

  function PathsOf(objs: seq<ShardObject>): seq<string>
  {
    seq(|objs|, i requires 0 <= i < |objs| => objs[i].path)
  }

  /** Every shard's search as `findObjectsForShards` starts it: from `timestamp`, or now. */
  function SearchOf(client: Client, prefixes: seq<string>, timestamp: Option<int>, now: int)
    : string -> Result<seq<ShardObject>>
  {
    shard => ShardSearch(client, shard, prefixes, OrElse(timestamp, now), 0, MaxHoursInPast)
  }

  /** The per-shard results, in shard order. */
  function SearchShards(search: string -> Result<seq<ShardObject>>, shards: seq<string>)
    : (r: seq<Result<seq<ShardObject>>>)
    ensures |r| == |shards|
    ensures forall i :: 0 <= i < |shards| ==> r[i] == search(shards[i])
    decreases |shards|
  {
    if shards == [] then []
    else SearchShards(search, shards[..|shards| - 1]) + [search(shards[|shards| - 1])]
  }

  /** The fault of the first failed shard, if any. */
  function FirstFault(results: seq<Result<seq<ShardObject>>>): (f: Option<Fault>)
    ensures f.None? <==> forall i :: 0 <= i < |results| ==> results[i].Ok?
    ensures f.Some? ==> exists i :: 0 <= i < |results| && results[i] == Err(f.value) &&
                                   forall j :: 0 <= j < i ==> results[j].Ok?
    decreases |results|
  {
    if results == [] then None
    else if results[0].Err? then Some(results[0].fault)
    else
      var f := FirstFault(results[1..]);
      if f.Some? then
        var i :| 0 <= i < |results[1..]| && results[1..][i] == Err(f.value) &&
                 forall j :: 0 <= j < i ==> results[1..][j].Ok?;
        assert results[i + 1] == Err(f.value);
        f
      else f
  }

  /** `results.successes`: the values of the successful results, in order. */
  function Successes(results: seq<Result<seq<ShardObject>>>): (r: seq<seq<ShardObject>>)
    ensures |r| <= |results|
    ensures (forall i :: 0 <= i < |results| ==> results[i].Ok?) ==>
      |r| == |results| && forall i :: 0 <= i < |results| ==> r[i] == results[i].value
    decreases |results|
  {
    if results == [] then []
    else
      var init := Successes(results[..|results| - 1]);
      var last := results[|results| - 1];
      if last.Ok? then init + [last.value] else init
  }

  function Flatten(groups: seq<seq<ShardObject>>): (r: seq<ShardObject>)
    decreases |groups|
  {
    if groups == [] then [] else Flatten(groups[..|groups| - 1]) + groups[|groups| - 1]
  }

  /** What `findObjectsForShards` reports: the object paths and `earliestMorayDump`. */
  datatype ShardsFound = ShardsFound(paths: seq<string>, earliestMorayDump: Option<int>)

  /** What `findObjectsForShards` reports when every shard is searched with `search`. */
  function ForShards(search: string -> Result<seq<ShardObject>>, shards: seq<string>): Result<ShardsFound>
  {
    if shards == [] then Err(NoShards)
    else
      var results := SearchShards(search, shards);
      match FirstFault(results)
      case Some(f) => Err(f)
      case None =>
        var successes := Successes(results);
        if |successes| != |shards| then Err(ShardsIncomplete)
        else
          var objs := Flatten(successes);
          Ok(ShardsFound(PathsOf(objs), Earliest(MTimes(objs))))
  }

  /**
   * The outcome of `findObjectsForShards`: no shards is an error; otherwise it succeeds
   * exactly when every shard's search succeeds, and fails with the first failed
   * shard's error.
   */
  lemma ForShardsOutcome(search: string -> Result<seq<ShardObject>>, shards: seq<string>)
    ensures shards == [] ==> ForShards(search, shards) == Err(NoShards)
    ensures ForShards(search, shards).Ok? ==>
      shards != [] && forall i :: 0 <= i < |shards| ==> SearchShards(search, shards)[i].Ok?
    ensures shards != [] && (forall i :: 0 <= i < |shards| ==> SearchShards(search, shards)[i].Ok?) ==>
      ForShards(search, shards).Ok?
    ensures ForShards(search, shards).Err? && shards != [] ==>
      exists i :: 0 <= i < |shards| && SearchShards(search, shards)[i] == Err(ForShards(search, shards).fault) &&
                  forall j :: 0 <= j < i ==> SearchShards(search, shards)[j].Ok?
  {
    var results := SearchShards(search, shards);
    if shards != [] && FirstFault(results).None? {
      assert |Successes(results)| == |shards|;
    }
  }

  /** The check for fewer successes than shards never fires: every failure is reported first. */
  lemma NeverIncomplete(search: string -> Result<seq<ShardObject>>, shards: seq<string>)
    requires forall i :: 0 <= i < |shards| ==> search(shards[i]) != Err(ShardsIncomplete)
    ensures ForShards(search, shards) != Err(ShardsIncomplete)
  {
    var results := SearchShards(search, shards);
    if shards != [] && FirstFault(results).None? {
      assert |Successes(results)| == |shards|;
    }
  }

  /**
   * What `findObjectsForShards` finds: the paths of every shard's objects, shard after
   * shard, and as `earliestMorayDump` the least mtime among them (none when no shard
   * holds any object).
   */
  lemma ForShardsFound(search: string -> Result<seq<ShardObject>>, shards: seq<string>)
    ensures var r := ForShards(search, shards);
      r.Ok? ==>
        var objs := Flatten(seq(|shards|, i requires 0 <= i < |shards| => search(shards[i]).value));
        r.value.paths == PathsOf(objs) &&
        (r.value.earliestMorayDump.None? <==> objs == []) &&
        (r.value.earliestMorayDump.Some? ==>
          (exists o :: o in objs && o.mtime == r.value.earliestMorayDump.value) &&
          forall o :: o in objs ==> r.value.earliestMorayDump.value <= o.mtime)
  {
    var r := ForShards(search, shards);
    if r.Ok? {
      var results := SearchShards(search, shards);
      var successes := Successes(results);
      var values := seq(|shards|, i requires 0 <= i < |shards| => search(shards[i]).value);
      assert successes == values;
      EarliestOfObjects(Flatten(successes));
    }
  }

  /** The earliest of the objects' mtimes is one of them and at most every one of them. */
  lemma EarliestOfObjects(objs: seq<ShardObject>)
    ensures var e := Earliest(MTimes(objs));
      (e.None? <==> objs == []) &&
      (e.Some? ==> (exists o :: o in objs && o.mtime == e.value) && forall o :: o in objs ==> e.value <= o.mtime)
  {
    var ms := MTimes(objs);
    var e := Earliest(ms);
    if e.Some? {
      var i :| 0 <= i < |ms| && ms[i] == e.value;
      assert objs[i] in objs;
      forall o | o in objs ensures e.value <= o.mtime {
        var k :| 0 <= k < |objs| && objs[k] == o;
        assert ms[k] == o.mtime;
      }
    }
  }

  lemma FlattenSnoc(groups: seq<seq<ShardObject>>, g: seq<ShardObject>)
    ensures Flatten(groups + [g]) == Flatten(groups) + g
  {
    assert (groups + [g])[..|groups|] == groups;
  }

  lemma PathsOfAppend(objs: seq<ShardObject>, o: ShardObject)
    ensures PathsOf(objs + [o]) == PathsOf(objs) + [o.path]
  {
  }

  lemma EarliestAppend(mtimes: seq<int>, m: int)
    ensures Earliest(mtimes + [m]) == if Earliest(mtimes).None? || m < Earliest(mtimes).value
                                      then Some(m) else Earliest(mtimes)
  {
    assert (mtimes + [m])[..|mtimes|] == mtimes;
  }

  lemma MTimesAppend(objs: seq<ShardObject>, o: ShardObject)
    ensures MTimes(objs + [o]) == MTimes(objs) + [o.mtime]
  {
  }

  lemma SuccessesAppend(results: seq<Result<seq<ShardObject>>>, x: Result<seq<ShardObject>>)
    ensures Successes(results + [x]) == if x.Ok? then Successes(results) + [x.value] else Successes(results)
  {
    assert (results + [x])[..|results|] == results;
  }

  /** `search` agrees with the search of every shard from `timestamp` (or now). */
  ghost predicate SearchesAs(search: string -> Result<seq<ShardObject>>, client: Client, prefixes: seq<string>,
                       timestamp: Option<int>, now: int)
  {
    forall shard {:trigger SearchOf(client, prefixes, timestamp, now)(shard)} ::
      search(shard) == SearchOf(client, prefixes, timestamp, now)(shard)
  }

  /** One input of the fan-out: `findShardObjects` with the shard, the prefixes and the timestamp. */
  method SearchShard(client: Client, shard: string, prefixes: seq<string>, timestamp: Option<int>, now: int,
                     ghost search: string -> Result<seq<ShardObject>>)
    returns (res: Result<seq<ShardObject>>)
    requires SearchesAs(search, client, prefixes, timestamp, now)
    ensures res == search(shard)
  {
    var listed;
    res, listed := FindShardObjects(client, ShardOptions(shard, prefixes, None, None, timestamp), now);
    assert res == SearchOf(client, prefixes, timestamp, now)(shard);
  }

  /** The fan-out of `findObjectsForShards`: every shard's search, in shard order. */
  method SearchEveryShard(client: Client, shards: seq<string>, prefixes: seq<string>,
                          timestamp: Option<int>, now: int, ghost search: string -> Result<seq<ShardObject>>)
    returns (results: seq<Result<seq<ShardObject>>>)
    requires SearchesAs(search, client, prefixes, timestamp, now)
    ensures results == SearchShards(search, shards)
  {
    results := [];
    for i := 0 to |shards|
      invariant results == SearchShards(search, shards[..i])
    {
      assert shards[..i + 1][..i] == shards[..i];
      var res := SearchShard(client, shards[i], prefixes, timestamp, now, search);
      results := results + [res];
    }
    assert shards[..|shards|] == shards;
  }

  /** Adds one object: its path, and its mtime if it is the earliest so far. */
  method GatherObject(objects: seq<string>, earliestMorayDump: Option<int>, o: ShardObject,
                      ghost seen: seq<ShardObject>)
    returns (objects': seq<string>, earliestMorayDump': Option<int>)
    requires objects == PathsOf(seen)
    requires earliestMorayDump == Earliest(MTimes(seen))
    ensures objects' == PathsOf(seen + [o])
    ensures earliestMorayDump' == Earliest(MTimes(seen + [o]))
  {
    PathsOfAppend(seen, o);
    MTimesAppend(seen, o);
    EarliestAppend(MTimes(seen), o.mtime);
    earliestMorayDump' := earliestMorayDump;
    if earliestMorayDump'.None? || o.mtime < earliestMorayDump'.value {
      earliestMorayDump' := Some(o.mtime);
    }
    objects' := objects + [o.path];
  }

  /** Adds one shard's objects: their paths in order, and the earliest mtime so far. */
  method GatherShard(objects: seq<string>, earliestMorayDump: Option<int>, res: seq<ShardObject>,
                     ghost before: seq<ShardObject>)
    returns (objects': seq<string>, earliestMorayDump': Option<int>)
    requires objects == PathsOf(before)
    requires earliestMorayDump == Earliest(MTimes(before))
    ensures objects' == PathsOf(before + res)
    ensures earliestMorayDump' == Earliest(MTimes(before + res))
  {
    objects', earliestMorayDump' := objects, earliestMorayDump;
    ghost var seen := before;
    for j := 0 to |res|
      invariant seen == before + res[..j]
      invariant objects' == PathsOf(seen)
      invariant earliestMorayDump' == Earliest(MTimes(seen))
    {
      objects', earliestMorayDump' := GatherObject(objects', earliestMorayDump', res[j], seen);
      PrefixSnoc(before, res, j);
      seen := seen + [res[j]];
    }
    assert res[..|res|] == res;
  }

  /**
   * The gathering loop of `findObjectsForShards`: every object's path, shard after
   * shard, and the earliest mtime seen.
   */
  method Gather(successes: seq<seq<ShardObject>>) returns (objects: seq<string>, earliestMorayDump: Option<int>)
    ensures objects == PathsOf(Flatten(successes))
    ensures earliestMorayDump == Earliest(MTimes(Flatten(successes)))
  {
    objects, earliestMorayDump := [], None;
    for i := 0 to |successes|
      invariant objects == PathsOf(Flatten(successes[..i]))
      invariant earliestMorayDump == Earliest(MTimes(Flatten(successes[..i])))
    {
      objects, earliestMorayDump := GatherShard(objects, earliestMorayDump, successes[i], Flatten(successes[..i]));
      assert successes[..i + 1] == successes[..i] + [successes[i]];
      FlattenSnoc(successes[..i], successes[i]);
    }
    assert successes[..|successes|] == successes;
  }

  /**
   * `findObjectsForShards`: every shard is searched (the source fans out in parallel;
   * here one after another), then the found objects are gathered shard by shard.
   */
  method FindObjectsForShards(client: Client, shards: seq<string>, prefixes: seq<string>,
                              timestamp: Option<int>, now: int) returns (r: Result<ShardsFound>)
    ensures r == ForShards(SearchOf(client, prefixes, timestamp, now), shards)
  {
    if |shards| == 0 {
      return Err(NoShards);
    }
    ghost var search := SearchOf(client, prefixes, timestamp, now);
    var results := SearchEveryShard(client, shards, prefixes, timestamp, now, search);
    var fault := FirstFault(results);
    if fault.Some? {
      return Err(fault.value);
    }
    var successes := Successes(results);
    if |successes| != |shards| {
      return Err(ShardsIncomplete);
    }
    var objects, earliestMorayDump := Gather(successes);
    r := Ok(ShardsFound(objects, earliestMorayDump));
  }

  // ---------------------------------------------------------------- findLatestMakoObjects

  function MakoDirectory(user: string): string
  {
    "/" + user + "/stor/mako"
  }

  /** The listing errors `findLatestMakoObjects` takes to mean there are no Mako dumps yet. */
  predicate IsMissing(e: StoreError)
  {
    e.name == "ResourceNotFoundError" || e.code == "NotFoundError"
  }

  /** What `findLatestMakoObjects` reports: the dumps' full paths and `earliestMakoDump`. */
  datatype MakoFound = MakoFound(paths: seq<string>, earliestMakoDump: Option<int>)

  function EntryMTimes(entries: seq<Entry>): seq<int>
  {
    seq(|entries|, i requires 0 <= i < |entries| => entries[i].mtime)
  }

  /** `fullPath` of every listed object, in listing order. */
  function FullPaths(dir: string, entries: seq<Entry>): seq<string>
  {
    seq(|entries|, i requires 0 <= i < |entries| => dir + "/" + entries[i].name)
  }

  /**
   * `findLatestMakoObjects`: a missing Mako directory yields no dumps and no error; an
   * empty one is an error; so are dumps whose earliest is more than three days before
   * `now`; otherwise every dump's path, and the earliest mtime.
   */
  function LatestMako(client: Client, now: int): Result<MakoFound>
  {
    var dir := MakoDirectory(client.user);
    match client.ls(dir)
    case LsFailed(e) => if IsMissing(e) then Ok(MakoFound([], None)) else Err(Store(e))
    case StreamFailed(e) => if IsMissing(e) then Ok(MakoFound([], None)) else Err(Store(e))
    case Listed(entries) =>
      match Earliest(EntryMTimes(entries))
      case None => Err(NoEarliestMakoDump)
      case Some(earliest) =>
        if now - MaxMillisMakoDumpsInPast > earliest then Err(MakoDumpsTooOld(earliest))
        else Ok(MakoFound(FullPaths(dir, entries), Some(earliest)))
  }

  /** The outcomes of `findLatestMakoObjects`, listing by listing. */
  lemma LatestMakoOutcome(client: Client, now: int)
    ensures var r := LatestMako(client, now);
      var dir := MakoDirectory(client.user);
      var listing := client.ls(dir);
      (!listing.Listed? ==> r == if IsMissing(listing.error) then Ok(MakoFound([], None)) else Err(Store(listing.error))) &&
      (listing == Listed([]) ==> r == Err(NoEarliestMakoDump)) &&
      (listing.Listed? && listing.entries != [] ==>
        exists i :: 0 <= i < |listing.entries| &&
          var earliest := listing.entries[i].mtime;
          (forall j :: 0 <= j < |listing.entries| ==> earliest <= listing.entries[j].mtime) &&
          r == if now - MaxMillisMakoDumpsInPast > earliest then Err(MakoDumpsTooOld(earliest))
               else Ok(MakoFound(FullPaths(dir, listing.entries), Some(earliest))))
  {
    var listing := client.ls(MakoDirectory(client.user));
    if listing.Listed? && listing.entries != [] {
      var ms := EntryMTimes(listing.entries);
      var i :| 0 <= i < |ms| && ms[i] == Earliest(ms).value;
      assert forall j :: 0 <= j < |listing.entries| ==> ms[j] == listing.entries[j].mtime;
    }
  }

  /** Found Mako dumps are never more than three days older than `now`, and are all listed. */
  lemma LatestMakoFresh(client: Client, now: int)
    ensures var r := LatestMako(client, now);
      r.Ok? && r.value.paths != [] ==>
        r.value.earliestMakoDump.Some? &&
        now - MaxMillisMakoDumpsInPast <= r.value.earliestMakoDump.value &&
        client.ls(MakoDirectory(client.user)).Listed? &&
        |r.value.paths| == |client.ls(MakoDirectory(client.user)).entries| &&
        r.value.paths == FullPaths(MakoDirectory(client.user), client.ls(MakoDirectory(client.user)).entries)
  {
  }

  /** The loop over the listing in `findLatestMakoObjects`: the earliest mtime, `None` for none. */
  method EarliestDump(objects: seq<Entry>) returns (earliestDump: Option<int>)
    ensures earliestDump == Earliest(EntryMTimes(objects))
  {
    earliestDump := None;
    for i := 0 to |objects|
      invariant earliestDump == Earliest(EntryMTimes(objects[..i]))
    {
      var o := objects[i];
      assert EntryMTimes(objects[..i + 1]) == EntryMTimes(objects[..i]) + [o.mtime];
      EarliestAppend(EntryMTimes(objects[..i]), o.mtime);
      if earliestDump == None || earliestDump.value > o.mtime {
        earliestDump := Some(o.mtime);
      }
    }
    assert objects[..|objects|] == objects;
  }

  /**
   * `findLatestMakoObjects`: one pass over the listing for the earliest mtime, then
   * the staleness check against `now`.
   */
  method FindLatestMakoObjects(client: Client, now: int) returns (r: Result<MakoFound>)
    ensures r == LatestMako(client, now)
  {
    var dir := MakoDirectory(client.user);
    var listing := client.ls(dir);
    if !listing.Listed? {
      var err := listing.error;
      if IsMissing(err) {
        return Ok(MakoFound([], None));
      }
      return Err(Store(err));
    }
    var objects := listing.entries;
    var earliestDump := EarliestDump(objects);
    if earliestDump == None {
      return Err(NoEarliestMakoDump);
    }
    var eTime := earliestDump.value;
    if now - MaxMillisMakoDumpsInPast > eTime {
      return Err(MakoDumpsTooOld(eTime));
    }
    r := Ok(MakoFound(FullPaths(dir, objects), earliestDump));
  }

  // ---------------------------------------------------------------- findMorayMakoObjects

  /** What `findMorayMakoObjects` reports. */
  datatype DumpSet = DumpSet(objects: seq<string>, earliestMakoDump: Option<int>, earliestMorayDump: Option<int>)

  /** The timestamp the moray step searches back from: the earliest Mako dump, when any was found. */
  function MorayTimestamp(mako: MakoFound): Option<int>
  {
    if |mako.paths| < 1 then None else mako.earliestMakoDump
  }

  /**
   * `findMorayMakoObjects`: the Mako step, then the moray step searching back from the
   * earliest Mako dump; the first error ends the pipeline.
   */
  function MorayMako(client: Client, shards: seq<string>, prefixes: seq<string>, now: int): Result<DumpSet>
  {
    match LatestMako(client, now)
    case Err(f) => Err(f)
    case Ok(mako) =>
      match ForShards(SearchOf(client, prefixes, MorayTimestamp(mako), now), shards)
      case Err(f) => Err(f)
      case Ok(moray) => Ok(DumpSet(mako.paths + moray.paths, mako.earliestMakoDump, moray.earliestMorayDump))
  }

  /**
   * The pipeline's outcome: it succeeds exactly when both steps do, every Mako dump comes
   * before every moray dump in `objects`, and the moray dumps are searched for from the
   * earliest Mako dump back (from `now` when no Mako dump exists).
   */
  lemma MorayMakoOutcome(client: Client, shards: seq<string>, prefixes: seq<string>, now: int)
    ensures var r := MorayMako(client, shards, prefixes, now);
      var mako := LatestMako(client, now);
      (mako.Err? ==> r == Err(mako.fault)) &&
      (mako.Ok? ==>
        var timestamp := if mako.value.paths == [] then None else mako.value.earliestMakoDump;
        var moray := ForShards(SearchOf(client, prefixes, timestamp, now), shards);
        (moray.Err? ==> r == Err(moray.fault)) &&
        (moray.Ok? ==> r.Ok? && r.value.objects[..|mako.value.paths|] == mako.value.paths &&
                       r.value.objects[|mako.value.paths|..] == moray.value.paths &&
                       r.value.earliestMakoDump == mako.value.earliestMakoDump &&
                       r.value.earliestMorayDump == moray.value.earliestMorayDump))
  {
    var mako := LatestMako(client, now);
    if mako.Ok? {
      var moray := ForShards(SearchOf(client, prefixes, MorayTimestamp(mako.value), now), shards);
      if moray.Ok? {
        var objects := mako.value.paths + moray.value.paths;
        assert objects[..|mako.value.paths|] == mako.value.paths;
        assert objects[|mako.value.paths|..] == moray.value.paths;
      }
    }
  }

  /** A successful `findObjectsForShards` had every shard's search succeed. */
  lemma EveryShardSucceeded(search: string -> Result<seq<ShardObject>>, shards: seq<string>, i: int)
    requires 0 <= i < |shards| && ForShards(search, shards).Ok?
    ensures search(shards[i]).Ok?
  {
    ForShardsOutcome(search, shards);
    assert SearchShards(search, shards)[i] == search(shards[i]);
  }

  /**
   * When Mako dumps were found, every shard's moray dumps come from the hour directory
   * of one of the 24 hours ending with the hour of the earliest Mako dump, never a later one.
   */
  lemma MorayDumpsPrecedeMako(client: Client, shards: seq<string>, prefixes: seq<string>, now: int, i: int)
    requires 0 <= i < |shards|
    requires MorayMako(client, shards, prefixes, now).Ok?
    requires LatestMako(client, now).Ok? && LatestMako(client, now).value.paths != []
    ensures LatestMako(client, now).value.earliestMakoDump.Some?
    ensures var t := LatestMako(client, now).value.earliestMakoDump.value;
      var res := ShardSearch(client, shards[i], prefixes, t, 0, MaxHoursInPast);
      res.Ok? &&
      exists k :: 0 <= k < MaxHoursInPast && forall o :: o in res.value ==>
        o.directory == SearchDirectory(client, shards[i], t, k)
  {
    LatestMakoFresh(client, now);
    var mako := LatestMako(client, now).value;
    var t := mako.earliestMakoDump.value;
    var search := SearchOf(client, prefixes, Some(t), now);
    assert MorayTimestamp(mako) == Some(t);
    EveryShardSucceeded(search, shards, i);
    assert search(shards[i]) == ShardSearch(client, shards[i], prefixes, t, 0, MaxHoursInPast);
    ShardSearchObjects(client, shards[i], prefixes, t, 0, MaxHoursInPast);
  }

  /** Skipping the concatenation of an empty list changes nothing. */
  lemma ConcatUnlessEmpty(objects: seq<string>, found: seq<string>)
    ensures (if |found| >= 1 then objects + found else objects) == objects + found
  {
    if |found| < 1 {
      assert objects + found == objects;
    }
  }

  /**
   * `findMorayMakoObjects`: runs the Mako step; when it found dumps, the moray step
   * searches back from the earliest of them; `objects` is the Mako paths followed by
   * the moray paths.
   */
  method FindMorayMakoObjects(client: Client, shards: seq<string>, prefixes: seq<string>, now: int)
    returns (r: Result<DumpSet>)
    ensures r == MorayMako(client, shards, prefixes, now)
  {
    var objects: seq<string> := [];
    var timestamp: Option<int> := None;
    var mako := FindLatestMakoObjects(client, now);
    if mako.Err? {
      return Err(mako.fault);
    }
    var makoPaths := mako.value.paths;
    if |makoPaths| >= 1 {
      timestamp := mako.value.earliestMakoDump;
      objects := objects + makoPaths;
    }
    assert objects == makoPaths;
    assert timestamp == MorayTimestamp(mako.value);
    var moray := FindObjectsForShards(client, shards, prefixes, timestamp, now);
    if moray.Err? {
      return Err(moray.fault);
    }
    var morayPaths := moray.value.paths;
    ConcatUnlessEmpty(objects, morayPaths);
    if |morayPaths| >= 1 {
      objects := objects + morayPaths;
    }
    assert objects == makoPaths + morayPaths;
    r := Ok(DumpSet(objects, mako.value.earliestMakoDump, moray.value.earliestMorayDump));
  }
}
