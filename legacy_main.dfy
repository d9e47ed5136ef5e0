/**
 * The stand-alone program in `main.rs`: a counting pass over the CSV, a
 * dispatch loop that skips chapters already on disk and keeps at most 20
 * tasks in flight, a final drain, and the `scrape` task with its own copy of
 * the text-node loop.
 */
module LegacyMain {
  import opened Wrappers
  import opened Text
  import opened Types
  import opened CsvReader
  import WebScraper

  const MaxConcurrentTasks := 20
  const OutDir := "./out"
  const OutPrefix := "./out/chapter_"
  const TxtSuffix := ".txt"
  /** `.skip(5)` in `scrape` */
  const SkippedNodes := 5

  // ---------------------------------------------------------------------------
  // File names

  /** `format!("./out/chapter_{chapn}.txt")` */
  function LegacyFileName(chapn: string): string
  {
    OutPrefix + chapn + TxtSuffix
  }

  /** The hard-coded path is the output directory joined with `ChapterRecord::file_name`. */
  lemma LegacyFileNameIsChapterPath(chapn: string)
    ensures LegacyFileName(chapn) == ChapterPath(OutDir, chapn)
    ensures LegacyFileName(chapn) == JoinPath(OutDir, FileName(ChapterRecord("", chapn)))
  {
    assert OutDir[|OutDir| - 1] == 't';
    assert OutPrefix == OutDir + "/" + "chapter_";
  }

  /**
   * `chapter_name`: the chapter number between the fixed prefix and `.txt`,
   * or "unknown". When the name has that shape, rebuilding the file name from
   * the result gives the name back.
   */
  function ChapterName(fileName: string): (name: string)
    ensures IsPrefix(OutPrefix, fileName) && IsSuffix(TxtSuffix, fileName[|OutPrefix|..]) ==>
      LegacyFileName(name) == fileName
    ensures !(IsPrefix(OutPrefix, fileName) && IsSuffix(TxtSuffix, fileName[|OutPrefix|..])) ==>
      name == "unknown"
  {
    if IsPrefix(OutPrefix, fileName) then
      var rest := fileName[|OutPrefix|..];
      if IsSuffix(TxtSuffix, rest) then
        var name := rest[..|rest| - |TxtSuffix|];
        assert rest == name + TxtSuffix;
        assert fileName == OutPrefix + rest;
        name
      else "unknown"
    else "unknown"
  }

  /** `chapter_name` recovers the chapter number from every hard-coded file name. */
  lemma ChapterNameRoundTrip(chapn: string)
    ensures ChapterName(LegacyFileName(chapn)) == chapn
  {
    var f := LegacyFileName(chapn);
    assert f[..|OutPrefix|] == OutPrefix;
    var rest := f[|OutPrefix|..];
    assert rest == chapn + TxtSuffix;
    assert rest[|rest| - |TxtSuffix|..] == TxtSuffix;
    assert rest[..|rest| - |TxtSuffix|] == chapn;
  }

  // ---------------------------------------------------------------------------
  // The text-node loop of `scrape`

  /** What one node past the skip count adds before its newline: nothing when it starts with the tag. */
  function Piece(node: string): string
  {
    if IsPrefix(WebScraper.PubfutureTag, node) then "" else node
  }

  /** The text `scrape` writes: every node after the first five contributes its piece and a newline. */
  function LegacyText(nodes: seq<string>): string
    decreases |nodes|
  {
    if |nodes| <= SkippedNodes then ""
    else LegacyText(nodes[..|nodes| - 1]) + Piece(nodes[|nodes| - 1]) + "\n"
  }

  /** The loop over the first element matched by `.content-inner`; with no match the `unwrap` panics (`None`). */
  method ScrapeText(elements: seq<seq<string>>) returns (out: Option<string>)
    ensures elements == [] ==> out.None?
    ensures elements != [] ==> out == Some(LegacyText(elements[0]))
  {
    if elements == [] {
      return None;
    }
    var nodes := elements[0];
    var text := "";
    if |nodes| > SkippedNodes {
      assert LegacyText(nodes[..SkippedNodes]) == "";
      for i := SkippedNodes to |nodes|
        invariant text == LegacyText(nodes[..i])
      {
        assert nodes[..i + 1][..i] == nodes[..i];
        if !IsPrefix(WebScraper.PubfutureTag, nodes[i]) {
          text := text + nodes[i];
        } else {
          assert text + "" == text;
        }
        text := text + "\n";
      }
      assert nodes[..|nodes|] == nodes;
    }
    return Some(text);
  }

  /** Without newlines inside the nodes, the output has one line per node past the fifth, filtered or not. */
  lemma {:induction false} LegacyNewlines(nodes: seq<string>)
    requires forall j :: 0 <= j < |nodes| ==> '\n' !in nodes[j]
    ensures NewlineCount(LegacyText(nodes)) == if |nodes| <= SkippedNodes then 0 else |nodes| - SkippedNodes
    decreases |nodes|
  {
    if |nodes| > SkippedNodes {
      var front := nodes[..|nodes| - 1];
      var last := nodes[|nodes| - 1];
      LegacyNewlines(front);
      NoNewlineCount(Piece(last));
      NewlineCountAppend(LegacyText(front), Piece(last));
      NewlineCountAppend(LegacyText(front) + Piece(last), "\n");
      assert NewlineCount("\n") == 1 by {
        assert "\n"[..0] == "";
      }
    }
  }

  /** Where nothing is filtered, this loop and `ContentExtractor` with skip count 5 write the same text. */
  lemma {:induction false} LegacyAgreesWhenNothingFiltered(nodes: seq<string>)
    requires forall j :: SkippedNodes <= j < |nodes| ==> !IsPrefix(WebScraper.PubfutureTag, nodes[j])
    ensures LegacyText(nodes) ==
      WebScraper.Lines(WebScraper.Kept(nodes, SkippedNodes, [WebScraper.PubfutureTag]))
    decreases |nodes|
  {
    var pats := [WebScraper.PubfutureTag];
    if nodes == [] {
    } else if |nodes| <= SkippedNodes {
      var front := nodes[..|nodes| - 1];
      LegacyAgreesWhenNothingFiltered(front);
      assert LegacyText(front) == "";
      var k := WebScraper.Kept(front, SkippedNodes, pats);
      assert WebScraper.Kept(nodes, SkippedNodes, pats) == k + [];
      assert k + [] == k;
    } else {
      var front := nodes[..|nodes| - 1];
      var last := nodes[|nodes| - 1];
      LegacyAgreesWhenNothingFiltered(front);
      assert !WebScraper.ShouldFilterText(pats, last);
      var k := WebScraper.Kept(front, SkippedNodes, pats);
      assert WebScraper.Kept(nodes, SkippedNodes, pats) == k + [last];
      WebScraper.LinesSnoc(k, last);
    }
  }

  /** Where a node is filtered the two copies differ: this loop still writes its newline. */
  lemma FilteredNodeStillEndsALine()
    ensures var nodes := ["a", "b", "c", "d", "e", WebScraper.PubfutureTag];
      && LegacyText(nodes) == "\n"
      && WebScraper.Lines(WebScraper.Kept(nodes, SkippedNodes, [WebScraper.PubfutureTag])) == ""
  {
    var nodes := ["a", "b", "c", "d", "e", WebScraper.PubfutureTag];
    var pats := [WebScraper.PubfutureTag];
    assert IsPrefix(WebScraper.PubfutureTag, nodes[5]);
    assert WebScraper.ShouldFilterText(pats, nodes[5]);
    assert nodes[..5][..4][..3][..2][..1][..0] == [];
    assert LegacyText(nodes[..5]) == "";
    assert LegacyText(nodes) == "" + "" + "\n";
    var k := WebScraper.Kept(nodes[..5], SkippedNodes, pats);
    WebScraper.KeptBound(nodes[..5], SkippedNodes, pats);
    assert WebScraper.Kept(nodes, SkippedNodes, pats) == [];
  }

  // ---------------------------------------------------------------------------
  // One task

  /** How a joined task ended: `Ok(Ok(_))`, `Ok(Err(e))`, or `Err(join_error)` for a panic. */
  datatype TaskResult = Succeeded | Failed(error: string) | Panicked(reason: string)

  /**
   * `scrape`, with the network and the file system as inputs: `fetched` is
   * the download, as the text nodes of every `.content-inner` match, and
   * `saveError` whether creating or writing the file failed.
   */
  method Scrape(fetched: Result<seq<seq<string>>, string>, saveError: Option<string>)
    returns (result: TaskResult, written: Option<string>)
    ensures fetched.Err? ==> result == Failed(fetched.error) && written.None?
    ensures fetched.Ok? && fetched.value == [] ==> result.Panicked? && written.None?
    ensures fetched.Ok? && fetched.value != [] && saveError.Some? ==> result == Failed(saveError.value) && written.None?
    ensures fetched.Ok? && fetched.value != [] && saveError.None? ==>
      result == Succeeded && written == Some(LegacyText(fetched.value[0]))
  {
    if fetched.Err? {
      return Failed(fetched.error), None;
    }
    var out := ScrapeText(fetched.value);
    if out.None? {
      return Panicked("called `Option::unwrap()` on a `None` value"), None;
    }
    if saveError.Some? {
      return Failed(saveError.value), None;
    }
    return Succeeded, out;
  }

  // ---------------------------------------------------------------------------
  // The run

  datatype RunOutcome =
    | NothingToProcess
    | Aborted(error: CsvError)
    | Finished(successCount: nat, errorCount: nat)

  /** A record with a link column and a chapter column. */
  predicate HasBothColumns(row: CsvRow)
  {
    row.Record? && |row.fields| >= 2
  }

  /**
   * How the dispatch loop reads a row: column 1 first, then column 0. Once
   * column 1 exists so does column 0, so the missing-link error cannot occur.
   */
  function DispatchRow(row: CsvRow): (r: Result<(string, string), CsvError>)
    ensures r.Ok? <==> HasBothColumns(row)
    ensures row.Malformed? ==> r == Err(ReadFailed(row.reason))
    ensures row.Record? && |row.fields| < 2 ==> r == Err(MissingChapterNumber)
  {
    match row
    case Malformed(reason) => Err(ReadFailed(reason))
    case Record(fields) =>
      if |fields| < 2 then Err(MissingChapterNumber)
      else Ok((fields[0], LegacyFileName(fields[1])))
  }

  /** The dispatch loop accepts each of the first `n` rows. */
  predicate AcceptedUpTo(rows: seq<CsvRow>, n: int)
  {
    forall j :: 0 <= j < n && j < |rows| ==> HasBothColumns(rows[j])
  }

  lemma AcceptedUpToNext(rows: seq<CsvRow>, n: nat)
    requires AcceptedUpTo(rows, n) && n < |rows| && HasBothColumns(rows[n])
    ensures AcceptedUpTo(rows, n + 1)
  {
  }

  /** Row `k` is the first one the dispatch loop rejects. */
  predicate FirstRejected(rows: seq<CsvRow>, k: int)
  {
    0 <= k < |rows| && DispatchRow(rows[k]).Err? && forall i :: 0 <= i < k ==> DispatchRow(rows[i]).Ok?
  }

  /** The task one row starts: none when it is rejected or its file exists. */
  function RowTasks(row: CsvRow, fileExists: string -> bool, runTask: (string, string) -> TaskResult): (ts: seq<TaskResult>)
    ensures |ts| <= 1
    ensures |ts| == 1 <==> HasBothColumns(row) && !fileExists(LegacyFileName(row.fields[1]))
  {
    match DispatchRow(row)
    case Ok(job) => if fileExists(job.1) then [] else [runTask(job.0, job.1)]
    case Err(_) => []
  }

  /** The results of the spawned tasks in spawn order: one for each accepted row whose file is absent. */
  function Spawned(rows: seq<CsvRow>, fileExists: string -> bool, runTask: (string, string) -> TaskResult): seq<TaskResult>
    decreases |rows|
  {
    if rows == [] then []
    else Spawned(rows[..|rows| - 1], fileExists, runTask) + RowTasks(rows[|rows| - 1], fileExists, runTask)
  }

  /** One more row adds its own task, if any. */
  lemma SpawnedSnoc(rows: seq<CsvRow>, i: nat, fileExists: string -> bool, runTask: (string, string) -> TaskResult)
    requires i < |rows|
    ensures Spawned(rows[..i + 1], fileExists, runTask) ==
      Spawned(rows[..i], fileExists, runTask) + RowTasks(rows[i], fileExists, runTask)
  {
    assert rows[..i + 1][..i] == rows[..i];
  }

  function CountSucceeded(results: seq<TaskResult>): nat
    decreases |results|
  {
    if results == [] then 0
    else CountSucceeded(results[..|results| - 1]) + (if results[|results| - 1].Succeeded? then 1 else 0)
  }

  lemma CountSucceededSnoc(results: seq<TaskResult>, ts: seq<TaskResult>)
    requires |ts| <= 1
    ensures CountSucceeded(results + ts) == CountSucceeded(results) + CountSucceeded(ts)
  {
    if ts != [] {
      assert (results + ts)[..|results|] == results;
      assert ts[..0] == [];
    } else {
      assert results + ts == results;
    }
  }

  /** The counting pass: every row counts; rows whose hard-coded file exists count as existing. */
  method CountPass(rows: seq<CsvRow>, fileExists: string -> bool) returns (r: Result<(nat, nat), CsvError>)
    ensures r.Ok? <==> forall i :: 0 <= i < |rows| ==> rows[i].Record?
    ensures r.Ok? ==> r.value.0 == |rows| && r.value.1 == CountExisting(rows, OutDir, fileExists)
    ensures r.Ok? ==> r.value.1 <= r.value.0
    ensures r.Err? ==> exists k :: FirstMalformed(rows, k) && r.error == ReadFailed(rows[k].reason)
  {
    var total, existing := 0, 0;
    var i := 0;
    while i < |rows|
      invariant 0 <= i <= |rows|
      invariant forall j :: 0 <= j < i ==> rows[j].Record?
      invariant total == i && existing == CountExisting(rows[..i], OutDir, fileExists)
    {
      assert rows[..i + 1][..i] == rows[..i];
      var row := rows[i];
      if row.Malformed? {
        assert FirstMalformed(rows, i);
        return Err(ReadFailed(row.reason));
      }
      total := total + 1;
      if |row.fields| >= 2 {
        var fileName := LegacyFileName(row.fields[1]);
        LegacyFileNameIsChapterPath(row.fields[1]);
        if fileExists(fileName) {
          existing := existing + 1;
        }
      }
      i := i + 1;
    }
    assert rows[..|rows|] == rows;
    CountExistingBound(rows, OutDir, fileExists);
    return Ok((total, existing));
  }

  /** `after` is `before` with exactly one of its tasks taken out. */
  ghost predicate OneJoined(before: multiset<TaskResult>, after: multiset<TaskResult>)
  {
    exists o :: o in before && after == before - multiset{o}
  }

  /**
   * Wait-then-spawn at capacity 20: below it `t` simply joins the set; at it
   * exactly one pending task leaves first, and `t` joins anyway.
   */
  ghost predicate Admitted(before: multiset<TaskResult>, after: multiset<TaskResult>, t: TaskResult)
  {
    if |before| < MaxConcurrentTasks then after == before + multiset{t}
    else exists o :: o in before && after == before - multiset{o} + multiset{t}
  }

  /**
   * `set.join_next()` and the match on its result: some task finishes, leaves
   * the set, and counts once, as a success or (an error or a panic) as an error.
   */
  method JoinNext(joinSet: multiset<TaskResult>, successCount: nat, errorCount: nat)
    returns (rest: multiset<TaskResult>, successes: nat, errors: nat)
    requires joinSet != multiset{}
    ensures OneJoined(joinSet, rest)
    ensures |rest| == |joinSet| - 1 && rest <= joinSet
    ensures successes + rest[Succeeded] == successCount + joinSet[Succeeded]
    ensures successes + errors + |rest| == successCount + errorCount + |joinSet|
  {
    var t :| t in joinSet;
    rest := joinSet - multiset{t};
    if t.Succeeded? {
      successes, errors := successCount + 1, errorCount;
    } else {
      successes, errors := successCount, errorCount + 1;
    }
  }

  /**
   * One admission of the dispatch loop: at 20 tasks in flight one of them is
   * joined and counted first, and the new task is then spawned anyway.
   */
  method WaitThenSpawn(joinSet: multiset<TaskResult>, successCount: nat, errorCount: nat, t: TaskResult)
    returns (next: multiset<TaskResult>, successes: nat, errors: nat)
    requires |joinSet| <= MaxConcurrentTasks
    ensures Admitted(joinSet, next, t)
    ensures t in next && |next| <= MaxConcurrentTasks
    ensures |joinSet| < MaxConcurrentTasks ==> successes == successCount && errors == errorCount
    ensures successes + next[Succeeded] == successCount + joinSet[Succeeded] + (if t == Succeeded then 1 else 0)
    ensures successes + errors + |next| == successCount + errorCount + |joinSet| + 1
  {
    next, successes, errors := joinSet, successCount, errorCount;
    if |joinSet| >= MaxConcurrentTasks {
      next, successes, errors := JoinNext(joinSet, successCount, errorCount);
      ghost var o :| o in joinSet && next == joinSet - multiset{o};
      next := next + multiset{t};
      assert next == joinSet - multiset{o} + multiset{t};
    } else {
      next := next + multiset{t};
    }
  }

  /**
   * One pass of the dispatch loop over an accepted row: a row whose file
   * exists is skipped, any other is run and admitted by wait-then-spawn.
   */
  method Admit(row: CsvRow, joinSet: multiset<TaskResult>, successCount: nat, errorCount: nat,
               fileExists: string -> bool, runTask: (string, string) -> TaskResult)
    returns (next: multiset<TaskResult>, successes: nat, errors: nat)
    requires HasBothColumns(row) && |joinSet| <= MaxConcurrentTasks
    ensures |next| <= MaxConcurrentTasks
    ensures fileExists(LegacyFileName(row.fields[1])) ==> next == joinSet && successes == successCount && errors == errorCount
    ensures !fileExists(LegacyFileName(row.fields[1])) ==>
      Admitted(joinSet, next, runTask(row.fields[0], LegacyFileName(row.fields[1])))
    ensures successes + next[Succeeded] == successCount + joinSet[Succeeded] + CountSucceeded(RowTasks(row, fileExists, runTask))
    ensures successes + errors + |next| == successCount + errorCount + |joinSet| + |RowTasks(row, fileExists, runTask)|
  {
    var link, fileName := DispatchRow(row).value.0, DispatchRow(row).value.1;
    if fileExists(fileName) {
      return joinSet, successCount, errorCount;
    }
    var t := runTask(link, fileName);
    assert RowTasks(row, fileExists, runTask) == [t];
    assert CountSucceeded([t]) == if t == Succeeded then 1 else 0 by {
      assert [t][..0] == [];
    }
    next, successes, errors := WaitThenSpawn(joinSet, successCount, errorCount, t);
  }

  /**
   * The dispatch loop and the drain. At 20 tasks in flight one is joined
   * first and the new one is spawned anyway. Every joined task counts once,
   * as a success or (an error or a panic) as an error.
   */
  method DispatchAndDrain(rows: seq<CsvRow>, fileExists: string -> bool, runTask: (string, string) -> TaskResult)
    returns (outcome: RunOutcome)
    ensures !outcome.NothingToProcess?
    ensures outcome.Aborted? <==> exists k :: 0 <= k < |rows| && DispatchRow(rows[k]).Err?
    ensures outcome.Aborted? ==> exists k :: FirstRejected(rows, k) && DispatchRow(rows[k]) == Err(outcome.error)
    ensures outcome.Finished? ==> outcome.successCount == CountSucceeded(Spawned(rows, fileExists, runTask))
    ensures outcome.Finished? ==> outcome.successCount + outcome.errorCount == |Spawned(rows, fileExists, runTask)|
  {
    var joinSet: multiset<TaskResult> := multiset{};
    var successCount: nat, errorCount: nat := 0, 0;
    ghost var spawned: seq<TaskResult> := [];
    var i := 0;
    while i < |rows|
      invariant 0 <= i <= |rows|
      invariant AcceptedUpTo(rows, i)
      invariant spawned == Spawned(rows[..i], fileExists, runTask)
      invariant |joinSet| <= MaxConcurrentTasks
      invariant successCount + joinSet[Succeeded] == CountSucceeded(spawned)
      invariant successCount + errorCount + |joinSet| == |spawned|
    {
      if !HasBothColumns(rows[i]) {
        assert FirstRejected(rows, i);
        return Aborted(DispatchRow(rows[i]).error);
      }
      var ts := RowTasks(rows[i], fileExists, runTask);
      joinSet, successCount, errorCount := Admit(rows[i], joinSet, successCount, errorCount, fileExists, runTask);
      SpawnedSnoc(rows, i, fileExists, runTask);
      AcceptedUpToNext(rows, i);
      CountSucceededSnoc(spawned, ts);
      spawned := spawned + ts;
      i := i + 1;
    }
    while joinSet != multiset{}
      invariant successCount + joinSet[Succeeded] == CountSucceeded(spawned)
      invariant successCount + errorCount + |joinSet| == |spawned|
      decreases |joinSet|
    {
      joinSet, successCount, errorCount := JoinNext(joinSet, successCount, errorCount);
    }
    assert rows[..|rows|] == rows;
    return Finished(successCount, errorCount);
  }

  /** Every file-less row becomes a task, so the tasks number the records left to process. */
  lemma {:induction false} SpawnedCount(rows: seq<CsvRow>, fileExists: string -> bool, runTask: (string, string) -> TaskResult)
    requires forall i :: 0 <= i < |rows| ==> DispatchRow(rows[i]).Ok?
    ensures |Spawned(rows, fileExists, runTask)| + CountExisting(rows, OutDir, fileExists) == |rows|
    decreases |rows|
  {
    if rows != [] {
      var front := rows[..|rows| - 1];
      var last := rows[|rows| - 1];
      SpawnedCount(front, fileExists, runTask);
      LegacyFileNameIsChapterPath(last.fields[1]);
    }
  }

  /** The row has a chapter number and its hard-coded file exists. */
  predicate NamesExistingFile(row: CsvRow, fileExists: string -> bool)
  {
    row.Record? && |row.fields| >= 2 && fileExists(LegacyFileName(row.fields[1]))
  }

  /** All rows are skipped, i.e. the counting pass finds nothing to do, exactly when every row names an existing file. */
  lemma {:induction false} AllExistIff(rows: seq<CsvRow>, fileExists: string -> bool)
    ensures CountExisting(rows, OutDir, fileExists) == |rows| <==>
      forall i :: 0 <= i < |rows| ==> NamesExistingFile(rows[i], fileExists)
    decreases |rows|
  {
    if rows != [] {
      var front := rows[..|rows| - 1];
      var last := rows[|rows| - 1];
      AllExistIff(front, fileExists);
      CountExistingBound(front, OutDir, fileExists);
      var counted := last.Record? && |last.fields| >= 2 && fileExists(ChapterPath(OutDir, last.fields[1]));
      assert CountExisting(rows, OutDir, fileExists) == CountExisting(front, OutDir, fileExists) + (if counted then 1 else 0);
      assert counted <==> NamesExistingFile(last, fileExists) by {
        if last.Record? && |last.fields| >= 2 {
          LegacyFileNameIsChapterPath(last.fields[1]);
        }
      }
      if CountExisting(rows, OutDir, fileExists) == |rows| {
        forall i | 0 <= i < |rows|
          ensures NamesExistingFile(rows[i], fileExists)
        {
          if i < |front| {
            assert rows[i] == front[i];
          }
        }
      }
      if forall i :: 0 <= i < |rows| ==> NamesExistingFile(rows[i], fileExists) {
        forall i | 0 <= i < |front|
          ensures NamesExistingFile(front[i], fileExists)
        {
          assert front[i] == rows[i];
        }
        assert NamesExistingFile(rows[|rows| - 1], fileExists);
      }
    }
  }

  /**
   * `main`: the counting pass, the early exit when every file exists, then
   * the dispatch loop. A finished run accounts for every record to process
   * exactly once; it aborts exactly when some row is rejected.
   */
  method Run(rows: seq<CsvRow>, fileExists: string -> bool, runTask: (string, string) -> TaskResult)
    returns (outcome: RunOutcome)
    ensures (exists k :: FirstMalformed(rows, k)) ==>
      exists k :: FirstMalformed(rows, k) && outcome == Aborted(ReadFailed(rows[k].reason))
    ensures outcome.Aborted? <==> exists k :: 0 <= k < |rows| && DispatchRow(rows[k]).Err?
    ensures outcome.Aborted? && !(exists k :: FirstMalformed(rows, k)) ==>
      exists k :: FirstRejected(rows, k) && DispatchRow(rows[k]) == Err(outcome.error)
    ensures outcome.NothingToProcess? <==> forall i :: 0 <= i < |rows| ==> NamesExistingFile(rows[i], fileExists)
    ensures outcome.Finished? ==>
      outcome.successCount + outcome.errorCount == |rows| - CountExisting(rows, OutDir, fileExists)
    ensures outcome.Finished? ==> outcome.successCount == CountSucceeded(Spawned(rows, fileExists, runTask))
  {
    var counted := CountPass(rows, fileExists);
    if counted.Err? {
      ghost var k :| FirstMalformed(rows, k) && counted.error == ReadFailed(rows[k].reason);
      assert DispatchRow(rows[k]).Err?;
      return Aborted(counted.error);
    }
    var total, existing := counted.value.0, counted.value.1;
    AllExistIff(rows, fileExists);
    var recordsToProcess := total - existing;
    if recordsToProcess == 0 {
      forall k | 0 <= k < |rows|
        ensures DispatchRow(rows[k]).Ok?
      {
        assert NamesExistingFile(rows[k], fileExists);
      }
      return NothingToProcess;
    }
    outcome := DispatchAndDrain(rows, fileExists, runTask);
    if outcome.Finished? {
      SpawnedCount(rows, fileExists, runTask);
    }
  }
}
