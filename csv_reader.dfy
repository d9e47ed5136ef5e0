/**
 * `CsvReader`: turning CSV records into `ChapterRecord`s, and the counting
 * pass that finds how many chapters already have an output file.
 */
module CsvReader {
  import opened Wrappers
  import opened Types

  /**
   * One item of the record stream after the header line: a record's fields,
   * or the decoder's failure to read the next record.
   */
  datatype CsvRow = Record(fields: seq<string>) | Malformed(reason: string)

  datatype CsvError = ReadFailed(reason: string) | MissingUrl | MissingChapterNumber

  /** The per-record step of `read_records`: column 0 is the URL, column 1 the chapter number. */
  function RowToRecord(row: CsvRow): (r: Result<ChapterRecord, CsvError>)
    ensures r.Ok? <==> row.Record? && |row.fields| >= 2
    ensures r.Ok? ==> r.value == ChapterRecord(row.fields[0], row.fields[1])
    ensures row.Malformed? ==> r == Err(ReadFailed(row.reason))
    ensures row.Record? && |row.fields| == 0 ==> r == Err(MissingUrl)
    ensures row.Record? && |row.fields| == 1 ==> r == Err(MissingChapterNumber)
  {
    match row
    case Malformed(reason) => Err(ReadFailed(reason))
    case Record(fields) =>
      if |fields| < 1 then Err(MissingUrl)
      else if |fields| < 2 then Err(MissingChapterNumber)
      else Ok(NewChapterRecord(fields[0], fields[1]))
  }

  /** Row `k` is the first one `read_records` rejects. */
  predicate FirstFailure(rows: seq<CsvRow>, k: int)
  {
    0 <= k < |rows| && RowToRecord(rows[k]).Err? && forall i :: 0 <= i < k ==> RowToRecord(rows[i]).Ok?
  }

  /** Row `k` is the first item the decoder failed to read. */
  predicate FirstMalformed(rows: seq<CsvRow>, k: int)
  {
    0 <= k < |rows| && rows[k].Malformed? && forall i :: 0 <= i < k ==> rows[i].Record?
  }

  /**
   * `read_records`: one record per row, in order; the first row that fails
   * makes the whole call fail with that row's error.
   */
  method ReadRecords(rows: seq<CsvRow>) returns (r: Result<seq<ChapterRecord>, CsvError>)
    ensures r.Ok? <==> forall i :: 0 <= i < |rows| ==> RowToRecord(rows[i]).Ok?
    ensures r.Ok? ==> |r.value| == |rows|
    ensures r.Ok? ==> forall i :: 0 <= i < |rows| ==> r.value[i] == ChapterRecord(rows[i].fields[0], rows[i].fields[1])
    ensures r.Err? ==> exists k :: FirstFailure(rows, k) && RowToRecord(rows[k]) == Err(r.error)
  {
    var chapterRecords: seq<ChapterRecord> := [];
    var i := 0;
    while i < |rows|
      invariant 0 <= i <= |rows|
      invariant |chapterRecords| == i
      invariant forall j :: 0 <= j < i ==> RowToRecord(rows[j]).Ok? && chapterRecords[j] == RowToRecord(rows[j]).value
    {
      var step := RowToRecord(rows[i]);
      if step.Err? {
        assert FirstFailure(rows, i);
        return Err(step.error);
      }
      chapterRecords := chapterRecords + [step.value];
      i := i + 1;
    }
    return Ok(chapterRecords);
  }

  /** The path the counting pass tests for a chapter number. */
  function ChapterPath(outputDir: string, chapterNumber: string): string
  {
    JoinPath(outputDir, "chapter_" + chapterNumber + ".txt")
  }

  /** The counting pass tests the very file that `ChapterRecord::file_name` names. */
  lemma ChapterPathIsFileName(outputDir: string, record: ChapterRecord)
    ensures ChapterPath(outputDir, record.chapterNumber) == JoinPath(outputDir, FileName(record))
  {
  }

  /** How many rows have a chapter number whose output file exists. */
  function CountExisting(rows: seq<CsvRow>, outputDir: string, fileExists: string -> bool): nat
    decreases |rows|
  {
    if rows == [] then 0
    else
      var last := rows[|rows| - 1];
      CountExisting(rows[..|rows| - 1], outputDir, fileExists)
        + (if last.Record? && |last.fields| >= 2 && fileExists(ChapterPath(outputDir, last.fields[1])) then 1 else 0)
  }

  /** More files cannot exist than there are rows. */
  lemma {:induction false} CountExistingBound(rows: seq<CsvRow>, outputDir: string, fileExists: string -> bool)
    ensures CountExisting(rows, outputDir, fileExists) <= |rows|
    decreases |rows|
  {
    if rows != [] {
      CountExistingBound(rows[..|rows| - 1], outputDir, fileExists);
    }
  }

  /**
   * `count_records_and_existing`: every row counts towards the total; rows with
   * a chapter number whose file exists also count as existing. Only a read
   * failure is an error.
   */
  method CountRecordsAndExisting(rows: seq<CsvRow>, outputDir: string, fileExists: string -> bool)
    returns (r: Result<ScrapingStats, CsvError>)
    ensures r.Ok? <==> forall i :: 0 <= i < |rows| ==> rows[i].Record?
    ensures r.Ok? ==> fresh(r.value)
    ensures r.Ok? ==> r.value.total == |rows| && r.value.existing == CountExisting(rows, outputDir, fileExists)
    ensures r.Ok? ==> r.value.existing <= r.value.total
    ensures r.Ok? ==> r.value.successCount == 0 && r.value.errorCount == 0
    ensures r.Err? ==> exists k :: FirstMalformed(rows, k) && r.error == ReadFailed(rows[k].reason)
  {
    var stats := new ScrapingStats();
    var i := 0;
    while i < |rows|
      invariant 0 <= i <= |rows|
      invariant forall j :: 0 <= j < i ==> rows[j].Record?
      invariant stats.total == i && stats.existing == CountExisting(rows[..i], outputDir, fileExists)
      invariant stats.successCount == 0 && stats.errorCount == 0
      modifies stats
    {
      assert rows[..i + 1][..i] == rows[..i];
      var row := rows[i];
      if row.Malformed? {
        assert FirstMalformed(rows, i);
        return Err(ReadFailed(row.reason));
      }
      stats.total := stats.total + 1;
      if |row.fields| >= 2 {
        var filePath := ChapterPath(outputDir, row.fields[1]);
        if fileExists(filePath) {
          stats.existing := stats.existing + 1;
        }
      }
      i := i + 1;
    }
    assert rows[..|rows|] == rows;
    CountExistingBound(rows, outputDir, fileExists);
    return Ok(stats);
  }
}
