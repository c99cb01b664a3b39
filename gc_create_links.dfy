/**
 * bin/gc_create_links.js: replay of the deferred link files that the garbage
 * collector leaves in a pending directory. Each file names one job and lists the
 * directories to create and the links to make once that job has finished cleanly.
 * A file is parsed completely before anything is issued, its directories are
 * created before any link is made, and the file is deleted only once every
 * directory and every link has been made, or when its job failed and the file is
 * discarded unreplayed.
 */
module GcCreateLinks {
  import opened Manta
  import opened JsRuntime
  import opened Common

  // ---------------------------------------------------------------- link files

  /** `{from: parts[1], to: parts[2]}` of an `mln` line. */
  datatype Link = Link(from: Arg, to: Arg)

  /** What a link file asks for: directories to create and links to make, in file order. */
  datatype LinkFile = LinkFile(dirs: seq<Arg>, links: seq<Link>)

  /** `parts[i]` of `line.split(' ')`: `undefined` past the last word. */
  function Word(parts: seq<string>, i: nat): (w: Arg)
    ensures w.Some? <==> i < |parts|
    ensures w.Some? ==> w.value == parts[i]
  {
    if i < |parts| then Some(parts[i]) else None
  }

  /**
   * One line read into the file parsed so far: empty lines are skipped, an
   * `mmkdir` line adds its first operand to the directories, an `mln` line adds a
   * link from its first operand to its second, and any other line is an error.
   */
  function ParseLine(objPath: string, file: LinkFile, line: string): Result<LinkFile>
  {
    var parts := Split(line, ' ');
    if line == "" then Ok(file)
    else if StartsWith(line, "mmkdir") then Ok(file.(dirs := file.dirs + [Word(parts, 1)]))
    else if StartsWith(line, "mln") then Ok(file.(links := file.links + [Link(Word(parts, 1), Word(parts, 2))]))
    else Err(BadLine(objPath, line))
  }

  /** A line the parser rejects. */
  predicate IsBadLine(line: string)
  {
    line != "" && !StartsWith(line, "mmkdir") && !StartsWith(line, "mln")
  }

  /** Line `i` is the first bad line. */
  predicate FirstBadLine(lines: seq<string>, i: int)
  {
    0 <= i < |lines| && IsBadLine(lines[i]) && forall j :: 0 <= j < i ==> !IsBadLine(lines[j])
  }

  /** The lines parsed in order; the first bad line fails the whole file. */
  function ParseLines(objPath: string, lines: seq<string>): Result<LinkFile>
    decreases |lines|
  {
    if lines == [] then Ok(LinkFile([], []))
    else
      match ParseLines(objPath, lines[..|lines| - 1])
      case Err(f) => Err(f)
      case Ok(file) => ParseLine(objPath, file, lines[|lines| - 1])
  }

  /** A link file's body, split into lines at `'\n'`. */
  function Parse(objPath: string, data: string): Result<LinkFile>
  {
    ParseLines(objPath, Split(data, '\n'))
  }

  /** The directories and links of `x` followed by those of `y`. */
  function Concat(x: LinkFile, y: LinkFile): LinkFile
  {
    LinkFile(x.dirs + y.dirs, x.links + y.links)
  }

  /** A line read after `before` has been read adds what it adds to `f` alone. */
  lemma ParseLineAfter(objPath: string, before: LinkFile, f: LinkFile, line: string)
    ensures ParseLine(objPath, f, line).Err? ==>
      ParseLine(objPath, Concat(before, f), line) == ParseLine(objPath, f, line)
    ensures ParseLine(objPath, f, line).Ok? ==>
      ParseLine(objPath, Concat(before, f), line) == Ok(Concat(before, ParseLine(objPath, f, line).value))
  {
    var parts := Split(line, ' ');
    var w, l := Word(parts, 1), Link(Word(parts, 1), Word(parts, 2));
    assert before.dirs + f.dirs + [w] == before.dirs + (f.dirs + [w]);
    assert before.links + f.links + [l] == before.links + (f.links + [l]);
  }

  /**
   * Parsing is compositional: the lines of `a + b` parse to the directories and
   * links of `a` followed by those of `b`, and a bad line in `a` wins over one in `b`.
   */
  lemma {:induction false} ParseAppend(objPath: string, a: seq<string>, b: seq<string>)
    ensures ParseLines(objPath, a).Err? ==> ParseLines(objPath, a + b) == ParseLines(objPath, a)
    ensures ParseLines(objPath, a).Ok? && ParseLines(objPath, b).Err? ==>
      ParseLines(objPath, a + b) == ParseLines(objPath, b)
    ensures ParseLines(objPath, a).Ok? && ParseLines(objPath, b).Ok? ==>
      ParseLines(objPath, a + b) == Ok(Concat(ParseLines(objPath, a).value, ParseLines(objPath, b).value))
    decreases |b|
  {
    if b == [] {
      assert a + b == a;
      if ParseLines(objPath, a).Ok? {
        var fa := ParseLines(objPath, a).value;
        assert fa.dirs + [] == fa.dirs && fa.links + [] == fa.links;
      }
    } else {
      var init := b[..|b| - 1];
      var line := b[|b| - 1];
      assert (a + b)[..|a + b| - 1] == a + init;
      assert (a + b)[|a + b| - 1] == line;
      ParseAppend(objPath, a, init);
      if ParseLines(objPath, a).Ok? && ParseLines(objPath, init).Ok? {
        ParseLineAfter(objPath, ParseLines(objPath, a).value, ParseLines(objPath, init).value, line);
      }
    }
  }

  /** A single line on its own. */
  lemma ParseOneLine(objPath: string, line: string)
    ensures ParseLines(objPath, [line]) == ParseLine(objPath, LinkFile([], []), line)
  {
    assert [line][..0] == [];
  }

  /**
   * The file fails exactly when it has a bad line, and then with the first one;
   * otherwise every line was blank, an `mmkdir` or an `mln`.
   */
  lemma ParseOutcome(objPath: string, lines: seq<string>)
    ensures ParseLines(objPath, lines).Err? <==> exists i :: 0 <= i < |lines| && IsBadLine(lines[i])
    ensures ParseLines(objPath, lines).Err? ==>
      exists i :: FirstBadLine(lines, i) && ParseLines(objPath, lines).fault == BadLine(objPath, lines[i])
  {
    ParseOkClean(objPath, lines);
    ParseFailsAtFirstBad(objPath, lines);
  }

  /** A file that parses has no bad line. */
  lemma {:induction false} ParseOkClean(objPath: string, lines: seq<string>)
    ensures ParseLines(objPath, lines).Ok? ==> forall j :: 0 <= j < |lines| ==> !IsBadLine(lines[j])
    decreases |lines|
  {
    if lines != [] {
      var init := lines[..|lines| - 1];
      ParseOkClean(objPath, init);
      if ParseLines(objPath, lines).Ok? {
        forall j | 0 <= j < |init| ensures !IsBadLine(lines[j]) {
          assert init[j] == lines[j];
        }
      }
    }
  }

  /** A file that fails to parse fails with its first bad line. */
  lemma {:induction false} ParseFailsAtFirstBad(objPath: string, lines: seq<string>)
    ensures ParseLines(objPath, lines).Err? ==>
      exists i :: FirstBadLine(lines, i) && ParseLines(objPath, lines).fault == BadLine(objPath, lines[i])
    decreases |lines|
  {
    if lines != [] {
      var init := lines[..|lines| - 1];
      ParseFailsAtFirstBad(objPath, init);
      ParseOkClean(objPath, init);
      if ParseLines(objPath, init).Err? {
        var i :| FirstBadLine(init, i) && ParseLines(objPath, init).fault == BadLine(objPath, init[i]);
        assert forall j :: 0 <= j <= i ==> init[j] == lines[j];
        assert FirstBadLine(lines, i);
      } else if IsBadLine(lines[|lines| - 1]) {
        assert forall j :: 0 <= j < |init| ==> init[j] == lines[j];
        assert FirstBadLine(lines, |lines| - 1);
      }
    }
  }

  // ---------------------------------------------------------------- writing a link file

  /** An operand the writer can put on a line: present, with no space and no newline. */
  predicate IsWord(w: Arg)
  {
    w.Some? && ' ' !in w.value && '\n' !in w.value
  }

  predicate Writable(f: LinkFile)
  {
    (forall i :: 0 <= i < |f.dirs| ==> IsWord(f.dirs[i])) &&
    (forall i :: 0 <= i < |f.links| ==> IsWord(f.links[i].from) && IsWord(f.links[i].to))
  }

  function MkdirLine(dir: string): string
  {
    "mmkdir " + dir
  }

  function LnLine(from: string, to: string): string
  {
    "mln " + from + " " + to
  }

  function MkdirLines(dirs: seq<Arg>): (lines: seq<string>)
    requires forall i :: 0 <= i < |dirs| ==> IsWord(dirs[i])
    ensures |lines| == |dirs|
  {
    seq(|dirs|, i requires 0 <= i < |dirs| && IsWord(dirs[i]) => MkdirLine(dirs[i].value))
  }

  function LnLines(links: seq<Link>): (lines: seq<string>)
    requires forall i :: 0 <= i < |links| ==> IsWord(links[i].from) && IsWord(links[i].to)
    ensures |lines| == |links|
  {
    seq(|links|, i requires 0 <= i < |links| && IsWord(links[i].from) && IsWord(links[i].to) =>
      LnLine(links[i].from.value, links[i].to.value))
  }

  /** A link file written out: its `mmkdir` lines, then its `mln` lines, joined by newlines. */
  function Render(f: LinkFile): string
    requires Writable(f)
  {
    Join(MkdirLines(f.dirs) + LnLines(f.links), '\n')
  }

  /** Splitting a join of pieces that hold no separator gives back the pieces. */
  lemma {:induction false} SplitJoin(pieces: seq<string>, c: char)
    requires pieces != []
    requires forall i :: 0 <= i < |pieces| ==> c !in pieces[i]
    ensures Split(Join(pieces, c), c) == pieces
    decreases |pieces|
  {
    if |pieces| == 1 {
      SplitWithoutSeparator(pieces[0], c);
    } else {
      SplitJoin(pieces[1..], c);
      SplitAtSeparator(pieces[0], c, Join(pieces[1..], c));
      assert [pieces[0]] + pieces[1..] == pieces;
    }
  }

  /** An `mmkdir` line adds its operand to the directories and nothing else. */
  lemma ParseMkdirLine(objPath: string, file: LinkFile, dir: string)
    requires ' ' !in dir
    ensures ParseLine(objPath, file, MkdirLine(dir)) == Ok(LinkFile(file.dirs + [Some(dir)], file.links))
  {
    var line := MkdirLine(dir);
    assert "mmkdir" <= line;
    assert line == "mmkdir" + [' '] + dir;
    SplitAtSeparator("mmkdir", ' ', dir);
    SplitWithoutSeparator(dir, ' ');
    assert Split(line, ' ') == ["mmkdir", dir];
  }

  /** An `mln` line adds its link and nothing else. */
  lemma ParseLnLine(objPath: string, file: LinkFile, from: string, to: string)
    requires ' ' !in from && ' ' !in to
    ensures ParseLine(objPath, file, LnLine(from, to)) ==
      Ok(LinkFile(file.dirs, file.links + [Link(Some(from), Some(to))]))
  {
    var line := LnLine(from, to);
    assert line[1] == 'l';
    assert !("mmkdir" <= line);
    assert "mln" <= line;
    assert line == "mln" + [' '] + (from + [' '] + to);
    SplitAtSeparator("mln", ' ', from + [' '] + to);
    SplitAtSeparator(from, ' ', to);
    SplitWithoutSeparator(to, ' ');
    assert Split(line, ' ') == ["mln", from, to];
  }

  lemma {:induction false} ParseMkdirLines(objPath: string, dirs: seq<Arg>)
    requires forall i :: 0 <= i < |dirs| ==> IsWord(dirs[i])
    ensures ParseLines(objPath, MkdirLines(dirs)) == Ok(LinkFile(dirs, []))
    decreases |dirs|
  {
    if dirs != [] {
      var init, last := dirs[..|dirs| - 1], dirs[|dirs| - 1];
      var lines := MkdirLines(dirs);
      assert lines[..|lines| - 1] == MkdirLines(init);
      ParseMkdirLines(objPath, init);
      ParseMkdirLine(objPath, LinkFile(init, []), last.value);
      assert init + [Some(last.value)] == dirs;
    }
  }

  lemma {:induction false} ParseLnLines(objPath: string, links: seq<Link>)
    requires forall i :: 0 <= i < |links| ==> IsWord(links[i].from) && IsWord(links[i].to)
    ensures ParseLines(objPath, LnLines(links)) == Ok(LinkFile([], links))
    decreases |links|
  {
    if links != [] {
      var init, last := links[..|links| - 1], links[|links| - 1];
      var lines := LnLines(links);
      assert lines[..|lines| - 1] == LnLines(init);
      ParseLnLines(objPath, init);
      ParseLnLine(objPath, LinkFile([], init), last.from.value, last.to.value);
      assert init + [Link(Some(last.from.value), Some(last.to.value))] == links;
    }
  }

  /** No written line holds a newline. */
  lemma RenderedLines(f: LinkFile)
    requires Writable(f)
    ensures forall i :: 0 <= i < |MkdirLines(f.dirs) + LnLines(f.links)| ==>
      '\n' !in (MkdirLines(f.dirs) + LnLines(f.links))[i]
  {
    var ms, ls := MkdirLines(f.dirs), LnLines(f.links);
    assert forall i :: 0 <= i < |ms| ==> '\n' !in ms[i] by {
      forall i | 0 <= i < |ms| ensures '\n' !in ms[i] {
        assert ms[i] == "mmkdir " + f.dirs[i].value;
      }
    }
    assert forall i :: 0 <= i < |ls| ==> '\n' !in ls[i] by {
      forall i | 0 <= i < |ls| ensures '\n' !in ls[i] {
        assert ls[i] == "mln " + f.links[i].from.value + " " + f.links[i].to.value;
      }
    }
  }

  /** Parsing reads back exactly what was written, in the same order. */
  lemma ParseRender(objPath: string, f: LinkFile)
    requires Writable(f)
    ensures Parse(objPath, Render(f)) == Ok(f)
  {
    var lines := MkdirLines(f.dirs) + LnLines(f.links);
    ParseMkdirLines(objPath, f.dirs);
    ParseLnLines(objPath, f.links);
    ParseAppend(objPath, MkdirLines(f.dirs), LnLines(f.links));
    assert f.dirs + [] == f.dirs && [] + f.links == f.links;
    if lines == [] {
      assert Split(Join(lines, '\n'), '\n') == [""];
      ParseOneLine(objPath, "");
    } else {
      RenderedLines(f);
      SplitJoin(lines, '\n');
    }
  }

  /** Reading line `i` after the lines before it. */
  lemma ParseNextLine(objPath: string, lines: seq<string>, i: nat)
    requires i < |lines| && ParseLines(objPath, lines[..i]).Ok?
    ensures ParseLines(objPath, lines[..i + 1]) == ParseLine(objPath, ParseLines(objPath, lines[..i]).value, lines[i])
  {
    assert lines[..i + 1][..i] == lines[..i];
  }

  /** A bad line after good ones fails the whole file with that line. */
  lemma ParseStopsAt(objPath: string, lines: seq<string>, i: nat)
    requires i < |lines| && ParseLines(objPath, lines[..i]).Ok?
    requires ParseLine(objPath, ParseLines(objPath, lines[..i]).value, lines[i]).Err?
    ensures ParseLines(objPath, lines) == Err(BadLine(objPath, lines[i]))
  {
    ParseNextLine(objPath, lines, i);
    ParseAppend(objPath, lines[..i + 1], lines[i + 1..]);
    assert lines[..i + 1] + lines[i + 1..] == lines;
  }

  /** The method form of the parse loop in `processLinkFile`. */
  method ParseLinkFile(objPath: string, data: string) returns (r: Result<LinkFile>)
    ensures r == Parse(objPath, data)
  {
    var lines := Split(data, '\n');
    var dirs: seq<Arg> := [];
    var links: seq<Link> := [];
    for i := 0 to |lines|
      invariant ParseLines(objPath, lines[..i]) == Ok(LinkFile(dirs, links))
    {
      var line := lines[i];
      ParseNextLine(objPath, lines, i);
      if line == "" {
        continue;
      }
      var parts := Split(line, ' ');
      if StartsWith(line, "mmkdir") {
        dirs := dirs + [Word(parts, 1)];
      } else if StartsWith(line, "mln") {
        links := links + [Link(Word(parts, 1), Word(parts, 2))];
      } else {
        ParseStopsAt(objPath, lines, i);
        return Err(BadLine(objPath, line));
      }
    }
    assert lines[..|lines|] == lines;
    return Ok(LinkFile(dirs, links));
  }

  // ---------------------------------------------------------------- jobs

  /** Link files are named `<date>-<job uuid>-X-<random uuid>-links`; `<date>-` is 20 characters. */
  const JobSeparator: string := "-X-"
  const StampLength: nat := 20

  /** The job a link file belongs to: its basename up to the first `-X-`, without the first 20 characters. */
  function JobIdOf(objPath: string): (jobId: string)
    ensures '/' !in jobId
  {
    var name := Basename(objPath);
    var head := SplitHead(name, JobSeparator);
    SuffixOfPrefixHas(name, head, StampLength, '/');
    Substring(head, StampLength)
  }

  /** A character missing from `s` is missing from the tail of any prefix of `s`. */
  lemma SuffixOfPrefixHas(s: string, head: string, start: nat, c: char)
    requires head <= s && c !in s
    ensures c !in Substring(head, start)
  {
    var r := Substring(head, start);
    forall i | 0 <= i < |r| ensures r[i] != c {
      assert r[i] == s[start + i];
    }
  }

  /** When `head` holds no `X`, the first `-X-` of `head + "-X-" + rest` is the one after `head`. */
  lemma SplitHeadAtSeparator(head: string, rest: string)
    requires 'X' !in head
    ensures SplitHead(head + JobSeparator + rest, JobSeparator) == head
  {
    var name := head + JobSeparator + rest;
    var n := |head|;
    assert name[n..n + 3] == JobSeparator;
    forall j | 0 <= j < n
      ensures !OccursAt(name, JobSeparator, j)
    {
      if j + 1 < n {
        assert name[j + 1] == head[j + 1];
      } else {
        assert name[j + 1] == '-';
      }
      assert name[j + 1] != JobSeparator[1];
    }
    assert OccursAt(name, JobSeparator, n);
    var k := IndexOf(name, JobSeparator, 0);
    assert k != -1 && !(k < n) && !(n < k);
    assert name[..n] == head;
  }

  /** For a file named as the garbage collector names them, the extracted id is the job's id. */
  lemma JobIdOfLinkPath(dir: string, stamp: string, jobId: string, rest: string)
    requires |stamp| == StampLength
    requires 'X' !in stamp && 'X' !in jobId
    requires '/' !in stamp && '/' !in jobId && '/' !in rest
    ensures JobIdOf(dir + "/" + stamp + jobId + JobSeparator + rest) == jobId
  {
    var head := stamp + jobId;
    var name := head + JobSeparator + rest;
    assert dir + "/" + stamp + jobId + JobSeparator + rest == dir + "/" + name;
    assert '/' !in name by {
      assert forall c :: c in name ==> c in stamp || c in jobId || c in JobSeparator || c in rest;
    }
    assert 'X' !in head;
    BasenameOfChild(dir, name);
    SplitHeadAtSeparator(head, rest);
    assert head[StampLength..] == jobId;
  }

  /** What `findAndVerifyJob` does with a link file once its job record is known. */
  datatype Decision =
    | Defer    // the job is still running: leave the file for a later run
    | Discard  // the job failed or was cancelled: delete the file without replaying it
    | Proceed  // replay the file

  /** The running check comes first, so a running job is deferred whatever its error count. */
  function Classify(job: Job): (d: Decision)
    ensures d == Defer <==> job.state == "running" || job.inputDone == Some(false)
    ensures d == Discard <==>
      d != Defer && job.stats.Some? && (job.stats.value.errors > 0 || job.cancelled == Some(true))
  {
    if job.state == "running" || job.inputDone == Some(false) then Defer
    else if job.stats.Some? && (job.stats.value.errors > 0 || job.cancelled == Some(true)) then Discard
    else Proceed
  }

  // ---------------------------------------------------------------- what a run issues

  /** A call that changes the store. */
  datatype Call = Mkdirp(dir: Arg) | Ln(from: Arg, to: Arg) | Unlink(path: string)

  /** What handling a path reports to its callback and the calls it issues, in order. */
  datatype Outcome = Outcome(status: Status, calls: seq<Call>)

  /** The first failure of two. */
  function Then(a: Status, b: Status): (s: Status)
    ensures s.Success? <==> a.Success? && b.Success?
  {
    if a.Failure? then a else b
  }

  /** The outcome of calls issued together: success when all succeed, else the first failure. */
  function AllOf(statuses: seq<Status>): (s: Status)
    ensures s.Success? <==> forall i :: 0 <= i < |statuses| ==> statuses[i].Success?
    ensures s.Failure? ==>
      exists i :: 0 <= i < |statuses| && statuses[i] == s && forall j :: 0 <= j < i ==> statuses[j].Success?
    decreases |statuses|
  {
    if statuses == [] then Success
    else
      var init := statuses[..|statuses| - 1];
      assert forall i :: 0 <= i < |init| ==> init[i] == statuses[i];
      Then(AllOf(init), statuses[|statuses| - 1])
  }

  function MkdirCalls(dirs: seq<Arg>): (calls: seq<Call>)
    ensures |calls| == |dirs|
  {
    seq(|dirs|, i requires 0 <= i < |dirs| => Mkdirp(dirs[i]))
  }

  function LnCalls(links: seq<Link>): (calls: seq<Call>)
    ensures |calls| == |links|
  {
    seq(|links|, i requires 0 <= i < |links| => Ln(links[i].from, links[i].to))
  }

  function MkdirStatuses(client: Client, dirs: seq<Arg>): (statuses: seq<Status>)
    ensures |statuses| == |dirs|
  {
    seq(|dirs|, i requires 0 <= i < |dirs| => client.mkdirp(dirs[i]))
  }

  function LnStatuses(client: Client, links: seq<Link>): (statuses: seq<Status>)
    ensures |statuses| == |links|
  {
    seq(|links|, i requires 0 <= i < |links| => client.ln(links[i].from, links[i].to))
  }

  /** The number of deletes among the calls: what `AUDIT.count` counts. */
  function Deletes(calls: seq<Call>): nat
    decreases |calls|
  {
    if calls == [] then 0
    else Deletes(calls[..|calls| - 1]) + (if calls[|calls| - 1].Unlink? then 1 else 0)
  }

  lemma {:induction false} DeletesAppend(a: seq<Call>, b: seq<Call>)
    ensures Deletes(a + b) == Deletes(a) + Deletes(b)
    decreases |b|
  {
    if b == [] {
      assert a + b == a;
    } else {
      assert (a + b)[..|a + b| - 1] == a + b[..|b| - 1];
      DeletesAppend(a, b[..|b| - 1]);
    }
  }

  /** How many of the calls delete `p`. */
  function DeletesOf(calls: seq<Call>, p: string): (n: nat)
    ensures n <= Deletes(calls)
    decreases |calls|
  {
    if calls == [] then 0
    else DeletesOf(calls[..|calls| - 1], p) + (if calls[|calls| - 1] == Unlink(p) then 1 else 0)
  }

  lemma {:induction false} DeletesOfAppend(a: seq<Call>, b: seq<Call>, p: string)
    ensures DeletesOf(a + b, p) == DeletesOf(a, p) + DeletesOf(b, p)
    decreases |b|
  {
    if b == [] {
      assert a + b == a;
    } else {
      assert (a + b)[..|a + b| - 1] == a + b[..|b| - 1];
      DeletesOfAppend(a, b[..|b| - 1], p);
    }
  }

  /** When every delete among the calls is of `q`, they delete `q` that many times and nothing else. */
  lemma {:induction false} DeletesOfOnly(calls: seq<Call>, q: string, p: string)
    requires forall i :: 0 <= i < |calls| && calls[i].Unlink? ==> calls[i] == Unlink(q)
    ensures DeletesOf(calls, p) == if p == q then Deletes(calls) else 0
    decreases |calls|
  {
    if calls != [] {
      var init := calls[..|calls| - 1];
      assert forall i :: 0 <= i < |init| ==> init[i] == calls[i];
      DeletesOfOnly(init, q, p);
    }
  }

  /**
   * The second half of `processLinkFile`, once the file is parsed: create every
   * directory; if all were created, make every link; if all were made, delete the file.
   */
  function ReplayFile(client: Client, objPath: string, file: LinkFile): Outcome
  {
    var made := AllOf(MkdirStatuses(client, file.dirs));
    if made.Failure? then Outcome(made, MkdirCalls(file.dirs))
    else
      var linked := AllOf(LnStatuses(client, file.links));
      if linked.Failure? then Outcome(linked, MkdirCalls(file.dirs) + LnCalls(file.links))
      else Outcome(client.unlink(objPath), MkdirCalls(file.dirs) + LnCalls(file.links) + [Unlink(objPath)])
  }

  /** `processLinkFile`: read and parse the whole file, then replay it. */
  function Replay(client: Client, objPath: string): Outcome
  {
    match client.get(objPath)
    case Err(f) => Outcome(Failure(f), [])
    case Ok(data) =>
      match Parse(objPath, data)
      case Err(f) => Outcome(Failure(f), [])
      case Ok(file) => ReplayFile(client, objPath, file)
  }

  /** What `findAndVerifyJob` does once the lookup of the file's job has come back. */
  function Dispose(client: Client, objPath: string, found: Result<Job>): Outcome
  {
    match found
    case Err(f) => Outcome(Failure(f), [])
    case Ok(job) =>
      match Classify(job)
      case Defer => Outcome(Success, [])
      case Discard => Outcome(client.unlink(objPath), [Unlink(objPath)])
      case Proceed => Replay(client, objPath)
  }

  /** `findAndVerifyJob`: look the job up, then defer, discard or replay the file. */
  function Verify(client: Client, objPath: string): Outcome
  {
    Dispose(client, objPath, GetJob(client, JobIdOf(objPath)))
  }

  /** The file was read and parsed, and every directory and every link in it was made. */
  predicate ReplayReady(client: Client, objPath: string)
  {
    client.get(objPath).Ok? && Parse(objPath, client.get(objPath).value).Ok? &&
    var file := Parse(objPath, client.get(objPath).value).value;
    (forall i :: 0 <= i < |file.dirs| ==> client.mkdirp(file.dirs[i]).Success?) &&
    (forall i :: 0 <= i < |file.links| ==> client.ln(file.links[i].from, file.links[i].to).Success?)
  }

  /** The phase a call belongs to: directories, then links, then the delete. */
  function Rank(c: Call): nat
  {
    match c
    case Mkdirp(_) => 0
    case Ln(_, _) => 1
    case Unlink(_) => 2
  }

  /** No call of a later phase comes before a call of an earlier one. */
  predicate Phased(calls: seq<Call>)
  {
    forall i, j :: 0 <= i < j < |calls| ==> Rank(calls[i]) <= Rank(calls[j])
  }

  /** A delete, if any, is of `objPath` and is the last call. */
  predicate DeletesLast(calls: seq<Call>, objPath: string)
  {
    forall i :: 0 <= i < |calls| && calls[i].Unlink? ==> i == |calls| - 1 && calls[i] == Unlink(objPath)
  }

  lemma ReplayCallsPhased(dirs: seq<Arg>, links: seq<Link>, objPath: string)
    ensures Phased(MkdirCalls(dirs))
    ensures Phased(MkdirCalls(dirs) + LnCalls(links))
    ensures Phased(MkdirCalls(dirs) + LnCalls(links) + [Unlink(objPath)])
    ensures DeletesLast(MkdirCalls(dirs), objPath)
    ensures DeletesLast(MkdirCalls(dirs) + LnCalls(links), objPath)
    ensures DeletesLast(MkdirCalls(dirs) + LnCalls(links) + [Unlink(objPath)], objPath)
  {
    var ms: seq<Call> := MkdirCalls(dirs);
    var ls: seq<Call> := LnCalls(links);
    assert forall i :: 0 <= i < |ms + ls| ==> Rank((ms + ls)[i]) == if i < |ms| then 0 else 1;
    var all := ms + ls + [Unlink(objPath)];
    assert forall i :: 0 <= i < |all| ==> Rank(all[i]) == if i < |ms| then 0 else if i < |ms + ls| then 1 else 2;
  }

  /**
   * Replaying a file issues directories, then links, then the delete, and deletes
   * the file, as its last call, exactly when every directory and every link in it
   * was made. It reports success exactly when that delete succeeded too.
   */
  lemma ReplayDeletesLast(client: Client, objPath: string)
    ensures Phased(Replay(client, objPath).calls)
    ensures DeletesLast(Replay(client, objPath).calls, objPath)
    ensures (exists i :: 0 <= i < |Replay(client, objPath).calls| && Replay(client, objPath).calls[i].Unlink?)
      <==> ReplayReady(client, objPath)
    ensures Replay(client, objPath).status.Success? <==>
      ReplayReady(client, objPath) && client.unlink(objPath).Success?
  {
    var o := Replay(client, objPath);
    if client.get(objPath).Ok? && Parse(objPath, client.get(objPath).value).Ok? {
      var file := Parse(objPath, client.get(objPath).value).value;
      ReplayCallsPhased(file.dirs, file.links, objPath);
      var ms: seq<Call> := MkdirCalls(file.dirs);
      var ls: seq<Call> := LnCalls(file.links);
      assert forall i :: 0 <= i < |ms + ls| ==> !(ms + ls)[i].Unlink?;
      var ss, ts := MkdirStatuses(client, file.dirs), LnStatuses(client, file.links);
      assert forall i :: 0 <= i < |file.dirs| ==> ss[i] == client.mkdirp(file.dirs[i]);
      assert forall i :: 0 <= i < |file.links| ==> ts[i] == client.ln(file.links[i].from, file.links[i].to);
      if ReplayReady(client, objPath) {
        assert o.calls[|o.calls| - 1].Unlink?;
      }
    }
  }

  /**
   * Links are made only once every directory was created, and every directory of
   * a parsed file is attempted, in file order, before anything else. Once every
   * directory was created every link is attempted, in file order, and no call is
   * issued beyond the file's directories, its links and its own delete.
   */
  lemma ReplayLinksAfterDirs(client: Client, objPath: string)
    ensures client.get(objPath).Ok? && Parse(objPath, client.get(objPath).value).Ok? ==>
      MkdirCalls(Parse(objPath, client.get(objPath).value).value.dirs) <= Replay(client, objPath).calls
    ensures client.get(objPath).Ok? && Parse(objPath, client.get(objPath).value).Ok? ==>
      var file := Parse(objPath, client.get(objPath).value).value;
      Replay(client, objPath).calls <= MkdirCalls(file.dirs) + LnCalls(file.links) + [Unlink(objPath)]
    ensures client.get(objPath).Ok? && Parse(objPath, client.get(objPath).value).Ok? ==>
      var file := Parse(objPath, client.get(objPath).value).value;
      (forall i :: 0 <= i < |file.dirs| ==> client.mkdirp(file.dirs[i]).Success?) ==>
        MkdirCalls(file.dirs) + LnCalls(file.links) <= Replay(client, objPath).calls
    ensures (exists i :: 0 <= i < |Replay(client, objPath).calls| && Replay(client, objPath).calls[i].Ln?) ==>
      client.get(objPath).Ok? && Parse(objPath, client.get(objPath).value).Ok? &&
      var file := Parse(objPath, client.get(objPath).value).value;
      (forall i :: 0 <= i < |file.dirs| ==> client.mkdirp(file.dirs[i]).Success?) &&
      MkdirCalls(file.dirs) + LnCalls(file.links) <= Replay(client, objPath).calls
  {
    var o := Replay(client, objPath);
    if client.get(objPath).Ok? && Parse(objPath, client.get(objPath).value).Ok? {
      var file := Parse(objPath, client.get(objPath).value).value;
      var ms: seq<Call> := MkdirCalls(file.dirs);
      var ls: seq<Call> := LnCalls(file.links);
      var ss := MkdirStatuses(client, file.dirs);
      assert forall i :: 0 <= i < |file.dirs| ==> ss[i] == client.mkdirp(file.dirs[i]);
      assert forall i :: 0 <= i < |ms| ==> !ms[i].Ln?;
      assert ms <= ms + ls <= ms + ls + [Unlink(objPath)];
    }
  }

  /**
   * A file that cannot be read, or that has a bad line, issues nothing; the bad-line
   * error names the first bad line.
   */
  lemma ReplayBadFile(client: Client, objPath: string)
    ensures client.get(objPath).Err? ==>
      Replay(client, objPath) == Outcome(Failure(client.get(objPath).fault), [])
    ensures client.get(objPath).Ok? && Parse(objPath, client.get(objPath).value).Err? ==>
      Replay(client, objPath).calls == [] &&
      exists i :: FirstBadLine(Split(client.get(objPath).value, '\n'), i) &&
        Replay(client, objPath).status == Failure(BadLine(objPath, Split(client.get(objPath).value, '\n')[i]))
  {
    if client.get(objPath).Ok? && Parse(objPath, client.get(objPath).value).Err? {
      var r := Parse(objPath, client.get(objPath).value);
      var lines := Split(client.get(objPath).value, '\n');
      ParseOutcome(objPath, lines);
      var i :| FirstBadLine(lines, i) && r.fault == BadLine(objPath, lines[i]);
      assert Replay(client, objPath) == Outcome(Failure(r.fault), []);
      assert Replay(client, objPath).status == Failure(BadLine(objPath, lines[i]));
      assert Replay(client, objPath).calls == [];
    }
  }

  /**
   * A job that is still running, or whose input is not done, is left alone: no
   * call is issued and no error reported.
   */
  lemma VerifyDeferred(client: Client, objPath: string)
    requires GetJob(client, JobIdOf(objPath)).Ok?
    requires var job := GetJob(client, JobIdOf(objPath)).value;
      job.state == "running" || job.inputDone == Some(false)
    ensures Verify(client, objPath) == Outcome(Success, [])
  {
  }

  /**
   * A finished job with errors, or a cancelled one, gets its link file deleted and
   * nothing else: no parse, no directory, no link.
   */
  lemma VerifyDiscarded(client: Client, objPath: string)
    requires GetJob(client, JobIdOf(objPath)).Ok?
    requires var job := GetJob(client, JobIdOf(objPath)).value;
      job.state != "running" && job.inputDone != Some(false) &&
      job.stats.Some? && (job.stats.value.errors > 0 || job.cancelled == Some(true))
    ensures Verify(client, objPath) == Outcome(client.unlink(objPath), [Unlink(objPath)])
  {
  }

  /** Any other job with a record has its file replayed; a failed lookup issues nothing. */
  lemma VerifyReplays(client: Client, objPath: string)
    ensures GetJob(client, JobIdOf(objPath)).Err? ==>
      Verify(client, objPath) == Outcome(Failure(client.job(JobIdOf(objPath)).fault), [])
    ensures GetJob(client, JobIdOf(objPath)).Ok? ==>
      var job := GetJob(client, JobIdOf(objPath)).value;
      job.state != "running" && job.inputDone != Some(false) &&
      !(job.stats.Some? && (job.stats.value.errors > 0 || job.cancelled == Some(true))) ==>
        Verify(client, objPath) == Replay(client, objPath)
  {
  }

  /** Whatever the lookup found, at most the file itself is deleted, as the last call. */
  lemma DisposeDeletesOnlyItself(client: Client, objPath: string, found: Result<Job>)
    ensures Phased(Dispose(client, objPath, found).calls)
    ensures DeletesLast(Dispose(client, objPath, found).calls, objPath)
    ensures Deletes(Dispose(client, objPath, found).calls) <= 1
    ensures Deletes(Dispose(client, objPath, found).calls) == 1 <==>
      found.Ok? && (Classify(found.value) == Discard ||
                    (Classify(found.value) == Proceed && ReplayReady(client, objPath)))
  {
    var o := Dispose(client, objPath, found);
    if found.Ok? && Classify(found.value) == Proceed {
      ReplayDeletesLast(client, objPath);
      DeletesLastCount(o.calls, objPath);
    } else if found.Ok? && Classify(found.value) == Discard {
      assert o.calls[..0] == [];
    }
  }

  /**
   * Handling one link file deletes at most that file, as its last call, and only
   * when the job was discarded or the file fully replayed.
   */
  lemma VerifyDeletesOnlyItself(client: Client, objPath: string)
    ensures Phased(Verify(client, objPath).calls)
    ensures DeletesLast(Verify(client, objPath).calls, objPath)
    ensures Deletes(Verify(client, objPath).calls) <= 1
    ensures Deletes(Verify(client, objPath).calls) == 1 <==>
      GetJob(client, JobIdOf(objPath)).Ok? &&
      (Classify(GetJob(client, JobIdOf(objPath)).value) == Discard ||
       (Classify(GetJob(client, JobIdOf(objPath)).value) == Proceed && ReplayReady(client, objPath)))
  {
    DisposeDeletesOnlyItself(client, objPath, GetJob(client, JobIdOf(objPath)));
  }

  /** Calls whose only delete is the last one hold at most one delete, and one exactly when the last call is a delete. */
  lemma DeletesLastCount(calls: seq<Call>, objPath: string)
    requires DeletesLast(calls, objPath)
    ensures Deletes(calls) <= 1
    ensures Deletes(calls) == 1 <==> exists i :: 0 <= i < |calls| && calls[i].Unlink?
  {
    if calls != [] {
      var init := calls[..|calls| - 1];
      NoDeletes(init);
      assert forall i :: 0 <= i < |init| ==> init[i] == calls[i];
    }
  }

  lemma {:induction false} NoDeletes(calls: seq<Call>)
    requires forall i :: 0 <= i < |calls| ==> !calls[i].Unlink?
    ensures Deletes(calls) == 0
    decreases |calls|
  {
    if calls != [] {
      NoDeletes(calls[..|calls| - 1]);
    }
  }

  /** `findAndVerifyJob` as a function value, for the fan-out over a listing. */
  function VerifierOf(client: Client): string -> Outcome
  {
    objPath => Verify(client, objPath)
  }

  /**
   * The fan-out of `createGcLinks`, with `handle` giving what each path's handling
   * does: the first failure, and all calls in path order.
   */
  function HandleAll(handle: string -> Outcome, paths: seq<string>): (o: Outcome)
    decreases |paths|
  {
    if paths == [] then Outcome(Success, [])
    else
      var before := HandleAll(handle, paths[..|paths| - 1]);
      var last := handle(paths[|paths| - 1]);
      Outcome(Then(before.status, last.status), before.calls + last.calls)
  }

  /** Every path of the listing handled by `findAndVerifyJob`. */
  function VerifyAll(client: Client, paths: seq<string>): Outcome
  {
    HandleAll(VerifierOf(client), paths)
  }

  /** The paths `getObjectsInDir` reports for a listing. */
  function ChildPaths(dir: string, entries: seq<Entry>): (paths: seq<string>)
    ensures |paths| == |entries|
  {
    seq(|entries|, i requires 0 <= i < |entries| => dir + "/" + entries[i].name)
  }

  /** Entries with distinct names give distinct paths. */
  lemma ChildPathsDistinct(dir: string, entries: seq<Entry>)
    requires forall i, j :: 0 <= i < j < |entries| ==> entries[i].name != entries[j].name
    ensures forall i, j :: 0 <= i < j < |entries| ==> ChildPaths(dir, entries)[i] != ChildPaths(dir, entries)[j]
  {
    var paths := ChildPaths(dir, entries);
    forall i, j | 0 <= i < j < |entries| ensures paths[i] != paths[j] {
      assert paths[i][|dir| + 1..] == entries[i].name;
      assert paths[j][|dir| + 1..] == entries[j].name;
    }
  }

  /** A listing error that means the pending directory does not exist yet. */
  predicate IsNotReady(e: StoreError)
  {
    e.code == "ResourceNotFound"
  }

  /** `createGcLinks`: list the pending directory and handle every file in it. */
  function CreateLinks(client: Client, dir: string): Outcome
  {
    match client.ls(dir)
    case LsFailed(e) => if IsNotReady(e) then Outcome(Success, []) else Outcome(Failure(Store(e)), [])
    case StreamFailed(e) => if IsNotReady(e) then Outcome(Success, []) else Outcome(Failure(Store(e)), [])
    case Listed(entries) =>
      if |entries| == 0 then Outcome(Success, [])
      else VerifyAll(client, ChildPaths(dir, entries))
  }

  /** The pending directory used when none is given on the command line. */
  function DefaultPendingDir(user: string): string
  {
    "/" + user + "/stor/manta_gc/all/do"
  }

  /** `opts.mantaDir || MANTA_DIR`: an absent or empty option falls back to the default. */
  function PendingDir(user: string, mantaDir: Option<string>): (dir: string)
    ensures mantaDir.Some? && mantaDir.value != "" ==> dir == mantaDir.value
    ensures mantaDir == None || mantaDir == Some("") ==> dir == DefaultPendingDir(user)
  {
    if mantaDir.Some? && mantaDir.value != "" then mantaDir.value else DefaultPendingDir(user)
  }

  /** What each path's handling reports, in path order. */
  function Statuses(handle: string -> Outcome, paths: seq<string>): (statuses: seq<Status>)
    ensures |statuses| == |paths|
  {
    seq(|paths|, i requires 0 <= i < |paths| => handle(paths[i]).status)
  }

  /** Every delete among the calls is of one of the paths. */
  predicate DeletesOneOf(calls: seq<Call>, paths: seq<string>)
  {
    forall i :: 0 <= i < |calls| && calls[i].Unlink? ==> calls[i].path in paths
  }

  /** The handling of each path deletes at most that path, at most once. */
  ghost predicate DeletesOnlyOwn(handle: string -> Outcome)
  {
    forall p :: DeletesLast(handle(p).calls, p) && Deletes(handle(p).calls) <= 1
  }

  /**
   * The fan-out reports the first failure in path order, deletes only listed paths,
   * and deletes each path exactly as often as that path's own handling does, once
   * per time it is listed, whatever the other paths' handling did.
   */
  lemma {:induction false} HandleAllOutcome(handle: string -> Outcome, paths: seq<string>)
    requires DeletesOnlyOwn(handle)
    ensures HandleAll(handle, paths).status == AllOf(Statuses(handle, paths))
    ensures DeletesOneOf(HandleAll(handle, paths).calls, paths)
    ensures Deletes(HandleAll(handle, paths).calls) <= |paths|
    ensures forall p :: DeletesOf(HandleAll(handle, paths).calls, p) == OwnDeletes(handle, paths, p)
    decreases |paths|
  {
    if paths == [] {
      forall p ensures DeletesOf(HandleAll(handle, paths).calls, p) == OwnDeletes(handle, paths, p) {
      }
    } else {
      var init, last := paths[..|paths| - 1], paths[|paths| - 1];
      var before, after := HandleAll(handle, init), handle(last);
      HandleAllOutcome(handle, init);
      DeletesAppend(before.calls, after.calls);
      forall p ensures DeletesOf(HandleAll(handle, paths).calls, p) == OwnDeletes(handle, paths, p) {
        HandleAllCountStep(handle, paths, p);
      }
      assert Statuses(handle, paths)[..|paths| - 1] == Statuses(handle, init);
      var calls := before.calls + after.calls;
      forall i | 0 <= i < |calls| && calls[i].Unlink?
        ensures calls[i].path in paths
      {
        if i < |before.calls| {
          assert calls[i] == before.calls[i];
          assert calls[i].path in init;
        } else {
          assert calls[i] == after.calls[i - |before.calls|];
        }
      }
    }
  }

  /**
   * How often handling every path deletes `p` when each path's handling deletes at
   * most itself, at most once: once per listing of `p` if its own handling deletes it.
   */
  ghost function OwnDeletes(handle: string -> Outcome, paths: seq<string>, p: string): nat
  {
    if Deletes(handle(p).calls) == 0 then 0 else multiset(paths)[p]
  }

  /** The per-path delete count of `HandleAllOutcome`, carried over one more path. */
  lemma HandleAllCountStep(handle: string -> Outcome, paths: seq<string>, p: string)
    requires paths != [] && DeletesLast(handle(paths[|paths| - 1]).calls, paths[|paths| - 1])
    requires Deletes(handle(p).calls) <= 1
    requires DeletesOf(HandleAll(handle, paths[..|paths| - 1]).calls, p)
      == OwnDeletes(handle, paths[..|paths| - 1], p)
    ensures DeletesOf(HandleAll(handle, paths).calls, p) == OwnDeletes(handle, paths, p)
  {
    var init, last := paths[..|paths| - 1], paths[|paths| - 1];
    var before, after := HandleAll(handle, init), handle(last);
    assert HandleAll(handle, paths).calls == before.calls + after.calls;
    DeletesOfAppend(before.calls, after.calls, p);
    DeletesOfOnly(after.calls, last, p);
    FrontLast(paths);
    if p == last {
      assert multiset(paths)[p] == multiset(init)[p] + 1;
    } else {
      assert multiset(paths)[p] == multiset(init)[p];
    }
  }

  lemma VerifierDeletesOnlyOwn(client: Client)
    ensures DeletesOnlyOwn(VerifierOf(client))
  {
    forall p
      ensures DeletesLast(VerifierOf(client)(p).calls, p) && Deletes(VerifierOf(client)(p).calls) <= 1
    {
      VerifyDeletesOnlyItself(client, p);
    }
  }

  /**
   * Handling every path reports success exactly when each path's handling did, and
   * otherwise the first failure in path order; it deletes only listed paths, at
   * most one delete per path.
   */
  lemma VerifyAllOutcome(client: Client, paths: seq<string>)
    ensures VerifyAll(client, paths).status == AllOf(Statuses(VerifierOf(client), paths))
    ensures DeletesOneOf(VerifyAll(client, paths).calls, paths)
    ensures Deletes(VerifyAll(client, paths).calls) <= |paths|
    ensures forall p :: DeletesOf(VerifyAll(client, paths).calls, p) == OwnDeletes(VerifierOf(client), paths, p)
  {
    VerifierDeletesOnlyOwn(client);
    HandleAllOutcome(VerifierOf(client), paths);
  }

  /**
   * A pending directory that does not exist yet, or that is empty, is success with
   * nothing done; any other listing error is returned with nothing done.
   */
  lemma CreateLinksQuiet(client: Client, dir: string)
    ensures (client.ls(dir).LsFailed? || client.ls(dir).StreamFailed?) && IsNotReady(client.ls(dir).error) ==>
      CreateLinks(client, dir) == Outcome(Success, [])
    ensures (client.ls(dir).LsFailed? || client.ls(dir).StreamFailed?) && !IsNotReady(client.ls(dir).error) ==>
      CreateLinks(client, dir) == Outcome(Failure(Store(client.ls(dir).error)), [])
    ensures client.ls(dir) == Listed([]) ==> CreateLinks(client, dir) == Outcome(Success, [])
  {
  }

  /**
   * Over a listing, the run succeeds exactly when every file's handling did, and
   * deletes only listed files, at most one delete each.
   */
  lemma CreateLinksListed(client: Client, dir: string)
    requires client.ls(dir).Listed?
    ensures var paths := ChildPaths(dir, client.ls(dir).entries);
      CreateLinks(client, dir).status == AllOf(Statuses(VerifierOf(client), paths)) &&
      DeletesOneOf(CreateLinks(client, dir).calls, paths) &&
      Deletes(CreateLinks(client, dir).calls) <= |paths| &&
      forall p :: DeletesOf(CreateLinks(client, dir).calls, p) == OwnDeletes(VerifierOf(client), paths, p)
  {
    var paths := ChildPaths(dir, client.ls(dir).entries);
    VerifyAllOutcome(client, paths);
    if paths == [] {
      assert CreateLinks(client, dir) == Outcome(Success, []);
    }
  }

  /** A listing whose entries have distinct names has each of its files deleted at most once. */
  lemma CreateLinksDeletesOnce(client: Client, dir: string)
    requires client.ls(dir).Listed?
    requires var entries := client.ls(dir).entries;
      forall i, j :: 0 <= i < j < |entries| ==> entries[i].name != entries[j].name
    ensures forall p :: DeletesOf(CreateLinks(client, dir).calls, p) <= 1
  {
    var entries := client.ls(dir).entries;
    var paths := ChildPaths(dir, entries);
    CreateLinksListed(client, dir);
    ChildPathsDistinct(dir, entries);
    forall p ensures DeletesOf(CreateLinks(client, dir).calls, p) <= 1 {
      DistinctCount(paths, p);
    }
  }

  // ---------------------------------------------------------------- the run

  /** `handle` agrees with `findAndVerifyJob` on every path. */
  ghost predicate Verifies(handle: string -> Outcome, client: Client)
  {
    forall p {:trigger VerifierOf(client)(p)} :: handle(p) == VerifierOf(client)(p)
  }

  /**
   * One run of the script: the client it talks to, the audit record's `count` and
   * `cronFailed`, and the store-changing calls issued so far, in order.
   */
  class GcRun {
    const client: Client
    var count: nat
    var cronFailed: int
    var calls: seq<Call>

    /** `AUDIT.count` is the number of deletes issued. */
    ghost predicate Valid()
      reads this
    {
      count == Deletes(calls)
    }

    constructor (client: Client)
      ensures this.client == client && count == 0 && cronFailed == 1 && calls == []
      ensures Valid()
    {
      this.client := client;
      count := 0;
      cronFailed := 1;
      calls := [];
    }

    /** `deleteObject`: count the delete, then issue it. */
    method DeleteObject(objPath: string) returns (s: Status)
      requires Valid()
      modifies this
      ensures Valid()
      ensures count == old(count) + 1
      ensures calls == old(calls) + [Unlink(objPath)]
      ensures s == client.unlink(objPath)
      ensures cronFailed == old(cronFailed)
    {
      DeletesAppend(calls, [Unlink(objPath)]);
      assert [Unlink(objPath)][..0] == [];
      count := count + 1;
      s := client.unlink(objPath);
      calls := calls + [Unlink(objPath)];
    }

    /** Every directory is created; the first failure, if any, is reported. */
    method MakeDirectories(dirs: seq<Arg>) returns (s: Status)
      requires Valid()
      modifies this
      ensures Valid()
      ensures s == AllOf(MkdirStatuses(client, dirs))
      ensures calls == old(calls) + MkdirCalls(dirs)
      ensures count == old(count) && cronFailed == old(cronFailed)
    {
      s := Success;
      for i := 0 to |dirs|
        invariant s == AllOf(MkdirStatuses(client, dirs[..i]))
        invariant calls == old(calls) + MkdirCalls(dirs[..i])
        invariant count == old(count) && cronFailed == old(cronFailed)
      {
        assert MkdirStatuses(client, dirs[..i + 1])[..i] == MkdirStatuses(client, dirs[..i]);
        assert MkdirCalls(dirs[..i + 1]) == MkdirCalls(dirs[..i]) + [Mkdirp(dirs[i])];
        s := Then(s, client.mkdirp(dirs[i]));
        calls := calls + [Mkdirp(dirs[i])];
      }
      assert dirs[..|dirs|] == dirs;
      MkdirsDeleteNothing(old(calls), dirs);
    }

    /** Every link is made; the first failure, if any, is reported. */
    method MakeLinks(links: seq<Link>) returns (s: Status)
      requires Valid()
      modifies this
      ensures Valid()
      ensures s == AllOf(LnStatuses(client, links))
      ensures calls == old(calls) + LnCalls(links)
      ensures count == old(count) && cronFailed == old(cronFailed)
    {
      s := Success;
      for i := 0 to |links|
        invariant s == AllOf(LnStatuses(client, links[..i]))
        invariant calls == old(calls) + LnCalls(links[..i])
        invariant count == old(count) && cronFailed == old(cronFailed)
      {
        assert LnStatuses(client, links[..i + 1])[..i] == LnStatuses(client, links[..i]);
        assert LnCalls(links[..i + 1]) == LnCalls(links[..i]) + [Ln(links[i].from, links[i].to)];
        s := Then(s, client.ln(links[i].from, links[i].to));
        calls := calls + [Ln(links[i].from, links[i].to)];
      }
      assert links[..|links|] == links;
      LinksDeleteNothing(old(calls), links);
    }

    /** `processLinkFile` once the file is parsed: directories, then links, then the delete. */
    method ReplayLinkFile(objPath: string, file: LinkFile) returns (s: Status)
      requires Valid()
      modifies this
      ensures Valid()
      ensures s == ReplayFile(client, objPath, file).status
      ensures calls == old(calls) + ReplayFile(client, objPath, file).calls
      ensures cronFailed == old(cronFailed)
    {
      ghost var before := calls;
      s := MakeDirectories(file.dirs);
      if s.Failure? {
        return;
      }
      s := MakeLinks(file.links);
      AppendRegroup(before, MkdirCalls(file.dirs), LnCalls(file.links));
      if s.Failure? {
        return;
      }
      s := DeleteObject(objPath);
      AppendRegroup(before, MkdirCalls(file.dirs) + LnCalls(file.links), [Unlink(objPath)]);
    }

    /** `processLinkFile`. */
    method ProcessLinkFile(objPath: string) returns (s: Status)
      requires Valid()
      modifies this
      ensures Valid()
      ensures s == Replay(client, objPath).status
      ensures calls == old(calls) + Replay(client, objPath).calls
      ensures cronFailed == old(cronFailed)
    {
      assert calls + [] == calls;
      var read := client.get(objPath);
      if read.Err? {
        return Failure(read.fault);
      }
      var parsed := ParseLinkFile(objPath, read.value);
      if parsed.Err? {
        return Failure(parsed.fault);
      }
      s := ReplayLinkFile(objPath, parsed.value);
    }

    /** What `findAndVerifyJob` does once the job lookup has come back with `found`. */
    method DisposeLinkFile(objPath: string, found: Result<Job>) returns (s: Status)
      requires Valid()
      modifies this
      ensures Valid()
      ensures s == Dispose(client, objPath, found).status
      ensures calls == old(calls) + Dispose(client, objPath, found).calls
      ensures cronFailed == old(cronFailed)
    {
      assert calls + [] == calls;
      if found.Err? {
        return Failure(found.fault);
      }
      match Classify(found.value)
      case Defer =>
        s := Success;
      case Discard =>
        s := DeleteObject(objPath);
      case Proceed =>
        s := ProcessLinkFile(objPath);
    }

    /** `findAndVerifyJob`. */
    method FindAndVerifyJob(objPath: string) returns (s: Status)
      requires Valid()
      modifies this
      ensures Valid()
      ensures s == Verify(client, objPath).status
      ensures calls == old(calls) + Verify(client, objPath).calls
      ensures cronFailed == old(cronFailed)
    {
      var jobId := JobIdOf(objPath);
      var found := GetJob(client, jobId);
      s := DisposeLinkFile(objPath, found);
    }

    /** One input of the fan-out, `findAndVerifyJob` as `handle` describes it. */
    method HandleLinkFile(objPath: string, ghost handle: string -> Outcome) returns (s: Status)
      requires Valid() && Verifies(handle, client)
      modifies this
      ensures Valid()
      ensures s == handle(objPath).status
      ensures calls == old(calls) + handle(objPath).calls
      ensures cronFailed == old(cronFailed)
    {
      s := FindAndVerifyJob(objPath);
      assert Verify(client, objPath) == VerifierOf(client)(objPath);
    }

    /** `createGcLinks` on directory `dir`. */
    method CreateGcLinks(dir: string) returns (s: Status)
      requires Valid()
      modifies this
      ensures Valid()
      ensures s == CreateLinks(client, dir).status
      ensures calls == old(calls) + CreateLinks(client, dir).calls
      ensures cronFailed == old(cronFailed)
    {
      assert calls + [] == calls;
      var listing := client.ls(dir);
      if listing.LsFailed? || listing.StreamFailed? {
        if IsNotReady(listing.error) {
          return Success;
        }
        return Failure(Store(listing.error));
      }
      var objs := ChildPaths(dir, listing.entries);
      if |objs| == 0 {
        return Success;
      }
      ghost var handle := VerifierOf(client);
      assert Verifies(handle, client);
      s := FindAndVerifyJobs(objs, handle);
    }

    /** The fan-out of `createGcLinks`: every path handled, in path order. */
    method FindAndVerifyJobs(objs: seq<string>, ghost handle: string -> Outcome) returns (s: Status)
      requires Valid() && Verifies(handle, client)
      modifies this
      ensures Valid()
      ensures s == HandleAll(handle, objs).status
      ensures calls == old(calls) + HandleAll(handle, objs).calls
      ensures cronFailed == old(cronFailed)
    {
      assert calls + [] == calls;
      s := Success;
      for i := 0 to |objs|
        invariant s == HandleAll(handle, objs[..i]).status
        invariant calls == old(calls) + HandleAll(handle, objs[..i]).calls
        invariant Valid() && cronFailed == old(cronFailed)
      {
        assert objs[..i + 1][..i] == objs[..i];
        var t := HandleLinkFile(objs[i], handle);
        s := Then(s, t);
      }
      assert objs[..|objs|] == objs;
    }

    /**
     * The main program: handle the pending directory and clear `cronFailed` when that
     * succeeded; it stays at 1, its initial value, otherwise.
     */
    method Run(mantaDir: Option<string>)
      requires Valid()
      modifies this
      ensures Valid()
      ensures calls == old(calls) + CreateLinks(client, PendingDir(client.user, mantaDir)).calls
      ensures cronFailed == if CreateLinks(client, PendingDir(client.user, mantaDir)).status.Success? then 0
                            else old(cronFailed)
    {
      var s := CreateGcLinks(PendingDir(client.user, mantaDir));
      if s.Success? {
        cronFailed := 0;
      }
    }
  }

  lemma MkdirsDeleteNothing(before: seq<Call>, dirs: seq<Arg>)
    ensures Deletes(before + MkdirCalls(dirs)) == Deletes(before)
  {
    NoDeletes(MkdirCalls(dirs));
    DeletesAppend(before, MkdirCalls(dirs));
  }

  lemma LinksDeleteNothing(before: seq<Call>, links: seq<Link>)
    ensures Deletes(before + LnCalls(links)) == Deletes(before)
  {
    NoDeletes(LnCalls(links));
    DeletesAppend(before, LnCalls(links));
  }
}
