/** The record read from the CSV, its output file name, and the run's counters. */
module Types {
  import opened Text

  /** One CSV row: the page to fetch and the chapter it holds. */
  datatype ChapterRecord = ChapterRecord(url: string, chapterNumber: string)

  const FileNamePrefix := "chapter_"
  const FileNameSuffix := ".txt"

  function NewChapterRecord(url: string, chapterNumber: string): (r: ChapterRecord)
    ensures r.url == url && r.chapterNumber == chapterNumber
  {
    ChapterRecord(url, chapterNumber)
  }

  /** `chapter_<n>.txt`: the chapter number can be read back between the fixed prefix and suffix. */
  function FileName(r: ChapterRecord): (name: string)
    ensures IsPrefix(FileNamePrefix, name) && IsSuffix(FileNameSuffix, name)
    ensures |name| == |FileNamePrefix| + |r.chapterNumber| + |FileNameSuffix|
    ensures name[|FileNamePrefix|..|name| - |FileNameSuffix|] == r.chapterNumber
  {
    var name := FileNamePrefix + r.chapterNumber + FileNameSuffix;
    assert name[..|FileNamePrefix|] == FileNamePrefix;
    assert name[|name| - |FileNameSuffix|..] == FileNameSuffix;
    assert name[|FileNamePrefix|..|name| - |FileNameSuffix|] == r.chapterNumber;
    name
  }

  /** Records with different chapter numbers never share an output file. */
  lemma FileNameInjective(a: ChapterRecord, b: ChapterRecord)
    requires FileName(a) == FileName(b)
    ensures a.chapterNumber == b.chapterNumber
  {
    var n := FileName(a);
    assert a.chapterNumber == n[|FileNamePrefix|..|n| - |FileNameSuffix|];
  }

  /**
   * `Path::join` on Unix: an absolute name replaces the directory; otherwise one
   * separator is put between the two unless the directory is empty or already
   * ends with one.
   */
  function JoinPath(dir: string, name: string): (p: string)
    ensures name != [] && name[0] == '/' ==> p == name
  {
    if name != [] && name[0] == '/' then name
    else if dir == [] || dir[|dir| - 1] == '/' then dir + name
    else dir + "/" + name
  }

  /** The joined path ends with the name and, for a relative name, starts with the directory. */
  lemma JoinPathEnds(dir: string, name: string)
    ensures IsSuffix(name, JoinPath(dir, name))
    ensures name != [] && name[0] != '/' ==> IsPrefix(dir, JoinPath(dir, name))
  {
    var p := JoinPath(dir, name);
    if name != [] && name[0] == '/' {
      assert p[|p| - |name|..] == name;
    } else if dir == [] || dir[|dir| - 1] == '/' {
      assert p[|p| - |name|..] == name;
      assert p[..|dir|] == dir;
    } else {
      assert p == dir + "/" + name;
      assert p[|p| - |name|..] == name;
      assert p[..|dir|] == dir;
    }
  }

  /** The run's counters (`ScrapingStats`), updated in place. */
  class ScrapingStats {
    var total: nat
    var existing: nat
    var successCount: nat
    var errorCount: nat

    /** `ScrapingStats::default()`: every counter at zero. */
    constructor ()
      ensures total == 0 && existing == 0 && successCount == 0 && errorCount == 0
    {
      total, existing, successCount, errorCount := 0, 0, 0, 0;
    }

    /**
     * `total - existing` as a `usize` subtraction; the model requires
     * `existing <= total` instead of modelling the debug-build panic or the
     * release-build wrap-around.
     */
    function RecordsToProcess(): (r: nat)
      reads this
      requires existing <= total
      ensures r + existing == total
    {
      total - existing
    }

    method IncrementSuccess()
      modifies this
      ensures successCount == old(successCount) + 1
      ensures total == old(total) && existing == old(existing) && errorCount == old(errorCount)
    {
      successCount := successCount + 1;
    }

    method IncrementError()
      modifies this
      ensures errorCount == old(errorCount) + 1
      ensures total == old(total) && existing == old(existing) && successCount == old(successCount)
    {
      errorCount := errorCount + 1;
    }
  }
}
