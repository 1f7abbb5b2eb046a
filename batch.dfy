/**
 * `start_injects`: run the injector over every file, write each tree it
 * returns under the output directory, classify every file as saved, not
 * saved or nested, and report the three counts with the per-file stats.
 * `inject` and `tree.write` are not part of this model: each file comes with
 * what they did to it.
 */
module Batch {
  import opened Wrappers

  /** The error tag `inject` reports for a `<tspan>` nested in a `<tspan>`. */
  const NestedError := "structure-error-nested-tspans-not-supported"

  /** The error tag a failed write leaves in the stats. */
  const WriteFailed := "write-failed"

  /** A value of a stats dict: the loop reads and writes only the strings under "error" and "file_path". */
  datatype StatValue = Text(text: string) | Other(id: int)

  type Stats = map<string, StatValue>

  /**
   * One input file and what the collaborators do with it: `file.name`,
   * whether `inject` returned a tree, the stats it returned, and whether
   * `tree.write` to the output path succeeds.
   */
  datatype FileRun = FileRun(name: string, hasTree: bool, stats: Stats, writeOk: bool)

  /** The counter a file adds one to. */
  datatype Outcome = Saved | NoSave | Nested

  /** The dictionary `start_injects` returns. */
  datatype Report = Report(savedDone: nat, noSave: nat, nestedFiles: nat, files: map<string, Stats>)

  /** `output_dir_translated / file.name`, as the string stored in "file_path". */
  function OutputPath(dir: string, name: string): (r: string)
    ensures |r| > 0
  {
    dir + "/" + name
  }

  /** `stats.get("error") == NestedError` */
  predicate HasNestedError(stats: Stats) {
    "error" in stats && stats["error"] == Text(NestedError)
  }

  /** Which counter a file increments. */
  function Classify(f: FileRun): (r: Outcome)
    ensures r == Nested <==> !f.hasTree && HasNestedError(f.stats)
    ensures r == Saved <==> f.hasTree && f.writeOk
    ensures r == NoSave <==> (!f.hasTree && !HasNestedError(f.stats)) || (f.hasTree && !f.writeOk)
  {
    if !f.hasTree then (if HasNestedError(f.stats) then Nested else NoSave)
    else if f.writeOk then Saved
    else NoSave
  }

  /** The stats stored for a file once the loop is done with it. */
  function FinalStats(f: FileRun, dir: string): (r: Stats)
    ensures "file_path" in r
    ensures r.Keys == f.stats.Keys + {"file_path"} + (if f.hasTree && !f.writeOk then {"error"} else {})
    ensures r["file_path"] == Text("") <==> Classify(f) != Saved
    ensures Classify(f) == Saved ==> r["file_path"] == Text(OutputPath(dir, f.name))
    ensures f.hasTree && !f.writeOk ==> "error" in r && r["error"] == Text(WriteFailed)
    ensures !f.hasTree || f.writeOk ==> forall k :: k in f.stats && k != "file_path" ==> k in r && r[k] == f.stats[k]
    ensures forall k :: k in f.stats && k != "file_path" && k != "error" ==> k in r && r[k] == f.stats[k]
  {
    var stats := f.stats["file_path" := Text("")];
    if !f.hasTree then stats
    else if f.writeOk then stats["file_path" := Text(OutputPath(dir, f.name))]
    else stats["error" := Text(WriteFailed)]["file_path" := Text("")]
  }

  /** How many of the files end in outcome `o`. */
  function Count(files: seq<FileRun>, o: Outcome): (r: nat)
    ensures r <= |files|
  {
    if |files| == 0 then 0
    else Count(files[..|files| - 1], o) + if Classify(files[|files| - 1]) == o then 1 else 0
  }

  /** `files_stats` after the loop has visited `files`: keyed by file name, a later file with the same name overwriting. */
  function FilesStats(files: seq<FileRun>, dir: string): map<string, Stats> {
    if |files| == 0 then map[]
    else
      var f := files[|files| - 1];
      FilesStats(files[..|files| - 1], dir)[f.name := FinalStats(f, dir)]
  }

  /** `start_injects`: the loop over the files and the report it returns. */
  method StartInjects(files: seq<FileRun>, outputDir: string) returns (report: Report)
    ensures report.savedDone == Count(files, Saved)
    ensures report.noSave == Count(files, NoSave)
    ensures report.nestedFiles == Count(files, Nested)
    ensures report.files == FilesStats(files, outputDir)
  {
    var savedDone, noSave, nestedFiles := 0, 0, 0;
    var filesStats: map<string, Stats> := map[];
    var i := 0;
    while i < |files|
      invariant i <= |files|
      invariant savedDone == Count(files[..i], Saved)
      invariant noSave == Count(files[..i], NoSave)
      invariant nestedFiles == Count(files[..i], Nested)
      invariant filesStats == FilesStats(files[..i], outputDir)
    {
      var file := files[i];
      var stats := file.stats["file_path" := Text("")];
      var outputFile := OutputPath(outputDir, file.name);
      ghost var done := files[..i + 1];
      assert done[..i] == files[..i] && done[i] == file;
      assert FilesStats(done, outputDir) == filesStats[file.name := FinalStats(file, outputDir)];
      if !file.hasTree {
        if "error" in stats && stats["error"] == Text(NestedError) {
          nestedFiles := nestedFiles + 1;
        } else {
          noSave := noSave + 1;
        }
        filesStats := filesStats[file.name := stats];
        i := i + 1;
        continue;
      }
      if file.writeOk {
        stats := stats["file_path" := Text(outputFile)];
        savedDone := savedDone + 1;
      } else {
        stats := stats["error" := Text(WriteFailed)];
        stats := stats["file_path" := Text("")];
        noSave := noSave + 1;
      }
      filesStats := filesStats[file.name := stats];
      i := i + 1;
    }
    assert files[..i] == files;
    report := Report(savedDone, noSave, nestedFiles, filesStats);
  }

  /** Every file increments exactly one counter: the three counts add up to the number of files. */
  lemma {:induction false} CountsPartition(files: seq<FileRun>)
    ensures Count(files, Saved) + Count(files, NoSave) + Count(files, Nested) == |files|
  {
    if |files| > 0 {
      CountsPartition(files[..|files| - 1]);
    }
  }

  /** The last file named `name`, if any. */
  function LastNamed(files: seq<FileRun>, name: string): (r: Option<nat>)
    ensures r.Some? ==> r.value < |files| && files[r.value].name == name
    ensures r.Some? ==> forall j :: r.value < j < |files| ==> files[j].name != name
    ensures r.None? ==> forall j :: 0 <= j < |files| ==> files[j].name != name
  {
    if |files| == 0 then None
    else if files[|files| - 1].name == name then Some(|files| - 1)
    else LastNamed(files[..|files| - 1], name)
  }

  /**
   * Every file's stats are stored under its name, the last file of a name
   * winning; a file that was not saved has an empty "file_path".
   */
  lemma {:induction false} FilesStatsEntry(files: seq<FileRun>, dir: string, name: string)
    ensures name in FilesStats(files, dir) <==> LastNamed(files, name).Some?
    ensures name in FilesStats(files, dir) ==>
      FilesStats(files, dir)[name] == FinalStats(files[LastNamed(files, name).value], dir)
  {
    if |files| > 0 {
      FilesStatsEntry(files[..|files| - 1], dir, name);
    }
  }

  /** Files sharing a name share one entry: there are never more entries than files. */
  lemma {:induction false} FilesStatsSize(files: seq<FileRun>, dir: string)
    ensures |FilesStats(files, dir)| <= |files|
  {
    if |files| > 0 {
      var init := files[..|files| - 1];
      FilesStatsSize(init, dir);
      assert FilesStats(files, dir).Keys == FilesStats(init, dir).Keys + {files[|files| - 1].name};
    }
  }

  /**
   * Three files: one whose injection hits the nested-tspan error, one that
   * is written, one whose write fails. One count each, three entries.
   */
  lemma ThreeFiles(a: Stats, b: Stats, c: Stats)
    requires HasNestedError(a)
    ensures var files := [FileRun("a.svg", false, a, false), FileRun("b.svg", true, b, true), FileRun("c.svg", true, c, false)];
      var stats := FilesStats(files, "out");
      && Count(files, Saved) == 1 && Count(files, NoSave) == 1 && Count(files, Nested) == 1
      && stats.Keys == {"a.svg", "b.svg", "c.svg"}
      && "b.svg" in stats && "file_path" in stats["b.svg"] && stats["b.svg"]["file_path"] == Text("out/b.svg")
      && "c.svg" in stats && "error" in stats["c.svg"] && stats["c.svg"]["error"] == Text(WriteFailed)
  {
    var f0, f1, f2 := FileRun("a.svg", false, a, false), FileRun("b.svg", true, b, true), FileRun("c.svg", true, c, false);
    var files := [f0, f1, f2];
    assert Classify(f0) == Nested && Classify(f1) == Saved && Classify(f2) == NoSave;
    assert files[..2] == [f0, f1];
    assert [f0, f1][..1] == [f0];
    assert [f0][..0] == [];
    assert Count([f0], Nested) == 1 && Count([f0], Saved) == 0 && Count([f0], NoSave) == 0;
    assert Count([f0, f1], Nested) == 1 && Count([f0, f1], Saved) == 1 && Count([f0, f1], NoSave) == 0;
    assert FilesStats([f0], "out") == map["a.svg" := FinalStats(f0, "out")];
    assert FilesStats([f0, f1], "out") == map["a.svg" := FinalStats(f0, "out"), "b.svg" := FinalStats(f1, "out")];
    assert OutputPath("out", "b.svg") == "out/b.svg";
  }
}
