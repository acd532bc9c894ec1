/** `clean.py`: every CSV score table of a folder is rewritten with its first
    column labelled "Model" and every `normalized_` removed from that column;
    a file whose processing raises is reported and skipped. */
module CleanScores {
  import opened Types
  import opened PyStr
  import opened Tables

  type CsvTable = t: Table | WellFormed(t) witness Table([], [])

  /** Why cleaning one table raises (and is reported by the `except`). */
  datatype CleanError =
    | NoColumns       // `df.columns[0]` on a table without columns
    | SeveralModels   // after the rename, `df["Model"]` is not one column

  /** `df.rename(columns={from: to})`: every label equal to `from` becomes `to`. */
  function Rename(columns: seq<string>, from: string, to: string): (r: seq<string>)
    ensures |r| == |columns|
    ensures forall k :: 0 <= k < |columns| ==> r[k] == if columns[k] == from then to else columns[k]
  {
    seq(|columns|, k requires 0 <= k < |columns| => if columns[k] == from then to else columns[k])
  }

  /** `str.replace("normalized_", "", regex=False)` on one cell: a single
      left-to-right pass removing every occurrence it meets. */
  function CleanCell(cell: string): (r: string)
    ensures |r| <= |cell|
    ensures !Contains(cell, "normalized_") ==> r == cell
  {
    RemoveAll(cell, "normalized_")
  }

  /** A cleaned value is 11 characters shorter per `normalized_` that
      `count` finds in it. */
  lemma {:induction false} CleanCellLength(cell: string)
    ensures |CleanCell(cell)| + 11 * CountOccurrences(cell, "normalized_") == |cell|
  {
    RemoveAllLength(cell, "normalized_");
  }

  /** The body of the `try` on one table that `read_csv` returned: the first
      column is renamed "Model" (and so is any other column with the same
      label) and its cells are cleaned; the rows, their order and every other
      cell are kept. */
  function CleanTable(t: CsvTable): (r: Result<CsvTable, CleanError>)
    ensures r.Ok? <==>
      && t.columns != []
      && forall k :: 1 <= k < |t.columns| ==> t.columns[k] != t.columns[0] && t.columns[k] != "Model"
    ensures t.columns == [] ==> r == Err(NoColumns)
    ensures r.Ok? ==> r.value.columns == ["Model"] + t.columns[1..]
    ensures r.Ok? ==> |r.value.rows| == |t.rows|
    ensures r.Ok? ==> forall k :: 0 <= k < |t.rows| ==>
      r.value.rows[k] == [CleanCell(t.rows[k][0])] + t.rows[k][1..]
  {
    if t.columns == [] then Err(NoColumns)
    else
      var columns := Rename(t.columns, t.columns[0], "Model");
      if "Model" in columns[1..] then
        assert exists k :: 1 <= k < |t.columns| && columns[k] == "Model" by {
          var k :| 0 <= k < |columns[1..]| && columns[1..][k] == "Model";
          assert columns[k + 1] == "Model";
        }
        Err(SeveralModels)
      else
        assert forall k :: 1 <= k < |t.columns| ==> columns[k] != "Model" by {
          forall k | 1 <= k < |t.columns| ensures columns[k] != "Model" {
            assert columns[k] == columns[1..][k - 1];
          }
        }
        assert columns == ["Model"] + t.columns[1..];
        var rows := seq(|t.rows|, k requires 0 <= k < |t.rows| => [CleanCell(t.rows[k][0])] + t.rows[k][1..]);
        Ok(Table(columns, rows))
  }

  /** A model name written `normalized_<name>`, where `<name>` holds no
      `normalized_`, is cleaned to `<name>`, the key `merge.py` reduces it to. */
  lemma {:induction false} CleanCellDropsPrefix(name: string)
    requires !Contains(name, "normalized_")
    ensures CleanCell("normalized_" + name) == name
  {
    var s := "normalized_" + name;
    assert OccursAt(s, "normalized_", 0);
    assert Find(s, "normalized_") == Some(0);
    assert s[11..] == name;
  }

  /** The single pass can leave a `normalized_` behind: `clean.py` turns
      "normalnormalized_ized_" into "normalized_", while the key `merge.py`
      takes is "ized_". */
  lemma CleanCellIsSinglePass()
    ensures CleanCell("normal" + "normalized_" + "ized_") == "normalized_"
    ensures Contains(CleanCell("normal" + "normalized_" + "ized_"), "normalized_")
  {
    FirstOccurrenceAtSix();
    NoOccurrenceInTail();
    RemoveOneOccurrence("normal", "normalized_", "ized_");
    assert "normal" + "ized_" == "normalized_";
    assert OccursAt("normalized_", "normalized_", 0);
  }

  /** Removing the first occurrence when no other follows it. */
  lemma {:induction false} RemoveOneOccurrence(a: string, p: string, b: string)
    requires p != "" && Find(a + p + b, p) == Some(|a|) && !Contains(b, p)
    ensures RemoveAll(a + p + b, p) == a + b
  {
    var s := a + p + b;
    RemoveAllStep(s, p, |a|);
    assert s[..|a|] == a;
    assert s[|a| + |p|..] == b;
  }

  lemma FirstOccurrenceAtSix()
    ensures Find("normal" + "normalized_" + "ized_", "normalized_") == Some(6)
  {
    var s := "normal" + "normalized_" + "ized_";
    assert OccursAt(s, "normalized_", 6);
    forall k: nat | k < 6 ensures !OccursAt(s, "normalized_", k) {
      assert s[k + 6] != "normalized_"[6];
    }
  }

  lemma NoOccurrenceInTail()
    ensures !Contains("ized_", "normalized_")
  {
  }

  /** The files written by the loop and the names it reported as failed. */
  datatype CleanRun = CleanRun(written: seq<Written>, failed: seq<string>)

  /** One iteration of `process_files_in_directory`'s loop; `read` gives the
      table at a path, None where `read_csv` raises. */
  function CleanStep(run: CleanRun, filename: string, read: string -> Option<CsvTable>,
                     scoresDir: string, cleanDir: string): CleanRun
  {
    if !EndsWith(filename, ".csv") then run
    else match read(JoinPath(scoresDir, filename))
      case None => CleanRun(run.written, run.failed + [filename])
      case Some(t) =>
        match CleanTable(t)
        case Err(_) => CleanRun(run.written, run.failed + [filename])
        case Ok(cleaned) => CleanRun(run.written + [Written(JoinPath(cleanDir, filename), cleaned)], run.failed)
  }

  /** The loop over the folder's entries. */
  function CleanAll(files: seq<string>, read: string -> Option<CsvTable>, scoresDir: string, cleanDir: string): CleanRun
    decreases |files|
  {
    if files == [] then CleanRun([], [])
    else CleanStep(CleanAll(files[..|files| - 1], read, scoresDir, cleanDir), files[|files| - 1], read, scoresDir, cleanDir)
  }

  /** `process_files_in_directory(scores_directory, clean_scores_directory)`
      for `listing` the folder's entries in `os.listdir` order. */
  method ProcessFilesInDirectory(listing: seq<string>, read: string -> Option<CsvTable>,
                                 scoresDir: string, cleanDir: string)
    returns (run: CleanRun)
    ensures run == CleanAll(listing, read, scoresDir, cleanDir)
  {
    var written: seq<Written> := [];
    var failed: seq<string> := [];
    for i := 0 to |listing|
      invariant CleanAll(listing[..i], read, scoresDir, cleanDir) == CleanRun(written, failed)
    {
      var filename := listing[i];
      assert listing[..i + 1][..i] == listing[..i];
      if EndsWith(filename, ".csv") {
        var filePath := JoinPath(scoresDir, filename);
        var df := read(filePath);
        if df.None? {
          failed := failed + [filename];
          continue;
        }
        var cleaned := CleanTable(df.value);
        if cleaned.Err? {
          failed := failed + [filename];
          continue;
        }
        var outputFilePath := JoinPath(cleanDir, filename);
        written := written + [Written(outputFilePath, cleaned.value)];
      }
    }
    assert listing[..|listing|] == listing;
    return CleanRun(written, failed);
  }

  /** The CSV entries of a listing, in order. */
  function CsvFiles(files: seq<string>): (csv: seq<string>)
    ensures |csv| <= |files|
    ensures forall f :: f in csv <==> f in files && EndsWith(f, ".csv")
    decreases |files|
  {
    if files == [] then []
    else
      var init := CsvFiles(files[..|files| - 1]);
      var f := files[|files| - 1];
      assert files == files[..|files| - 1] + [f];
      if EndsWith(f, ".csv") then init + [f] else init
  }

  /** A written table has "Model" as its first column. */
  predicate HasModelColumn(w: Written)
  {
    w.table.columns != [] && w.table.columns[0] == "Model"
  }

  /** One iteration handles a CSV entry once, as a written table or a
      reported failure, and leaves any other entry alone. */
  lemma {:induction false} CleanStepCounts(run: CleanRun, filename: string, read: string -> Option<CsvTable>,
                                           scoresDir: string, cleanDir: string)
    ensures var next := CleanStep(run, filename, read, scoresDir, cleanDir);
      |next.written| + |next.failed| == |run.written| + |run.failed| + (if EndsWith(filename, ".csv") then 1 else 0)
  {
  }

  /** Reading or cleaning the entry `filename` raises, so the `except`
      reports it. */
  predicate CleanFails(filename: string, read: string -> Option<CsvTable>, scoresDir: string)
  {
    var table := read(JoinPath(scoresDir, filename));
    table.None? || CleanTable(table.value).Err?
  }

  /** What is written for an entry whose cleaning does not raise: its cleaned
      table, under its own name in the clean folder. */
  function CleanedFile(filename: string, read: string -> Option<CsvTable>, scoresDir: string, cleanDir: string): (w: Written)
    requires !CleanFails(filename, read, scoresDir)
    ensures w.path == JoinPath(cleanDir, filename) && HasModelColumn(w)
    ensures CleanTable(read(JoinPath(scoresDir, filename)).value) == Ok(w.table)
  {
    Written(JoinPath(cleanDir, filename), CleanTable(read(JoinPath(scoresDir, filename)).value).value)
  }

  /** One iteration reports the CSV entry it reads exactly when reading or
      cleaning it raises, and nothing else. */
  lemma {:induction false} CleanStepFailed(run: CleanRun, filename: string, read: string -> Option<CsvTable>,
                                           scoresDir: string, cleanDir: string)
    ensures forall g :: g in CleanStep(run, filename, read, scoresDir, cleanDir).failed <==>
      g in run.failed || (g == filename && EndsWith(filename, ".csv") && CleanFails(filename, read, scoresDir))
  {
    var next := CleanStep(run, filename, read, scoresDir, cleanDir);
    if EndsWith(filename, ".csv") && CleanFails(filename, read, scoresDir) {
      assert next.failed == run.failed + [filename];
    } else {
      assert next.failed == run.failed;
    }
  }

  /** One iteration writes the cleaned table of the CSV entry it reads
      exactly when cleaning it does not raise, and nothing else. */
  lemma {:induction false} CleanStepWritten(run: CleanRun, filename: string, read: string -> Option<CsvTable>,
                                            scoresDir: string, cleanDir: string)
    ensures forall w :: w in CleanStep(run, filename, read, scoresDir, cleanDir).written <==>
      || w in run.written
      || (EndsWith(filename, ".csv") && !CleanFails(filename, read, scoresDir) &&
          w == CleanedFile(filename, read, scoresDir, cleanDir))
  {
    var next := CleanStep(run, filename, read, scoresDir, cleanDir);
    if EndsWith(filename, ".csv") && !CleanFails(filename, read, scoresDir) {
      assert next.written == run.written + [CleanedFile(filename, read, scoresDir, cleanDir)];
    } else {
      assert next.written == run.written;
    }
  }

  /** The `except` keeps the loop going: every CSV file of the folder is
      either written or reported, and other entries are ignored. */
  lemma {:induction false} EveryCsvFileIsHandled(files: seq<string>, read: string -> Option<CsvTable>,
                                                 scoresDir: string, cleanDir: string)
    ensures var run := CleanAll(files, read, scoresDir, cleanDir);
      |run.written| + |run.failed| == |CsvFiles(files)|
    decreases |files|
  {
    if files != [] {
      var init := files[..|files| - 1];
      var f := files[|files| - 1];
      EveryCsvFileIsHandled(init, read, scoresDir, cleanDir);
      CleanStepCounts(CleanAll(init, read, scoresDir, cleanDir), f, read, scoresDir, cleanDir);
      if EndsWith(f, ".csv") {
        assert CsvFiles(files) == CsvFiles(init) + [f];
      } else {
        assert CsvFiles(files) == CsvFiles(init);
      }
    }
  }

  /** Only CSV entries of the folder whose reading or cleaning raises are
      reported. */
  lemma {:induction false} OnlyCsvFilesFail(files: seq<string>, read: string -> Option<CsvTable>,
                                            scoresDir: string, cleanDir: string)
    ensures forall f :: f in CleanAll(files, read, scoresDir, cleanDir).failed ==>
      f in files && EndsWith(f, ".csv") && CleanFails(f, read, scoresDir)
    decreases |files|
  {
    if files != [] {
      var init := files[..|files| - 1];
      var f := files[|files| - 1];
      OnlyCsvFilesFail(init, read, scoresDir, cleanDir);
      CleanStepFailed(CleanAll(init, read, scoresDir, cleanDir), f, read, scoresDir, cleanDir);
      assert forall g :: g in init ==> g in files;
    }
  }

  /** Every file written is the cleaned table of a CSV entry of the folder,
      under that entry's name in the clean folder, with "Model" as its first
      column. */
  lemma {:induction false} WrittenAreCleanedCsvFiles(files: seq<string>, read: string -> Option<CsvTable>,
                                                     scoresDir: string, cleanDir: string)
    ensures forall w :: w in CleanAll(files, read, scoresDir, cleanDir).written ==>
      && HasModelColumn(w)
      && exists f :: f in files && EndsWith(f, ".csv") && !CleanFails(f, read, scoresDir) &&
           w == CleanedFile(f, read, scoresDir, cleanDir)
    decreases |files|
  {
    if files != [] {
      var init := files[..|files| - 1];
      var f := files[|files| - 1];
      WrittenAreCleanedCsvFiles(init, read, scoresDir, cleanDir);
      var run := CleanAll(init, read, scoresDir, cleanDir);
      CleanStepWritten(run, f, read, scoresDir, cleanDir);
      forall w | w in CleanAll(files, read, scoresDir, cleanDir).written
        ensures && HasModelColumn(w)
                && exists g :: g in files && EndsWith(g, ".csv") && !CleanFails(g, read, scoresDir) &&
                     w == CleanedFile(g, read, scoresDir, cleanDir)
      {
        if w in run.written {
          var g :| g in init && EndsWith(g, ".csv") && !CleanFails(g, read, scoresDir) &&
                   w == CleanedFile(g, read, scoresDir, cleanDir);
          assert g in files;
        } else {
          assert f in files;
        }
      }
    }
  }

  /** Each CSV entry of the folder gets its own outcome, whatever happened to
      the entries before it: it is reported exactly when reading or cleaning
      it raises, and otherwise its cleaned table is written. */
  lemma {:induction false} EachCsvFileGetsItsOutcome(files: seq<string>, read: string -> Option<CsvTable>,
                                                     scoresDir: string, cleanDir: string)
    ensures var run := CleanAll(files, read, scoresDir, cleanDir);
      forall f :: f in files && EndsWith(f, ".csv") ==>
        && (f in run.failed <==> CleanFails(f, read, scoresDir))
        && (!CleanFails(f, read, scoresDir) ==> CleanedFile(f, read, scoresDir, cleanDir) in run.written)
    decreases |files|
  {
    if files != [] {
      var init := files[..|files| - 1];
      var last := files[|files| - 1];
      assert files == init + [last];
      EachCsvFileGetsItsOutcome(init, read, scoresDir, cleanDir);
      OnlyCsvFilesFail(init, read, scoresDir, cleanDir);
      var run := CleanAll(init, read, scoresDir, cleanDir);
      var next := CleanAll(files, read, scoresDir, cleanDir);
      CleanStepFailed(run, last, read, scoresDir, cleanDir);
      CleanStepWritten(run, last, read, scoresDir, cleanDir);
      forall f | f in files && EndsWith(f, ".csv")
        ensures && (f in next.failed <==> CleanFails(f, read, scoresDir))
                && (!CleanFails(f, read, scoresDir) ==> CleanedFile(f, read, scoresDir, cleanDir) in next.written)
      {
        if f != last {
          assert f in init;
        }
      }
    }
  }
}
