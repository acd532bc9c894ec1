/** `merge.py`: joins each RSSD table with the metrics table of the same
    structure on the model name, after reducing every metrics key to the text
    after its last `normalized_`, and names the files involved after the
    structure id. The join itself is pandas' inner merge, stated here by the
    rows it keeps. */
module MergeScores {
  import opened Types
  import opened PyStr
  import opened Tables

  /** A table as `pd.read_csv` returns it: rectangular. */
  type CsvTable = t: Table | WellFormed(t) witness Table([], [])

  /** The labels `merge_metrics_and_rssd` gives the headerless metrics file. */
  const MetricsColumns: seq<string> := ["file", "RMSD", "MCQ", "TM-score"]

  /** `str.split("normalized_").str[-1]` on one metrics key: the text after
      the last `normalized_`, or the whole key when there is none. */
  function NormalizeKey(file: string): (key: string)
    ensures EndsWith(file, key)
    ensures !Contains(key, "normalized_")
    ensures !Contains(file, "normalized_") ==> key == file
    ensures Contains(file, "normalized_") ==> EndsWith(file, "normalized_" + key)
  {
    LastPiece(file, "normalized_")
  }

  /** Normalising a key twice gives what normalising it once gives. */
  lemma {:induction false} NormalizeKeyIdempotent(file: string)
    ensures NormalizeKey(NormalizeKey(file)) == NormalizeKey(file)
  {
  }

  /** The merged rows for one RSSD row: one per metrics row with the same
      key, the RSSD cells followed by the metrics cells other than the key. */
  function MatchRow(left: seq<string>, key: nat, right: seq<seq<string>>): seq<seq<string>>
    requires key < |left|
    requires forall j :: 0 <= j < |right| ==> |right[j]| >= 1
  {
    if right == [] then []
    else (if left[key] == right[0][0] then [left + right[0][1..]] else []) + MatchRow(left, key, right[1..])
  }

  /** `pd.merge(left, right, on=key, how="inner")` on rows, the key being
      column `key` on the left and the first column on the right. */
  function InnerJoin(left: seq<seq<string>>, key: nat, right: seq<seq<string>>): seq<seq<string>>
    requires forall i :: 0 <= i < |left| ==> key < |left[i]|
    requires forall j :: 0 <= j < |right| ==> |right[j]| >= 1
  {
    if left == [] then [] else MatchRow(left[0], key, right) + InnerJoin(left[1..], key, right)
  }

  lemma {:induction false} MatchRowHolds(left: seq<string>, key: nat, right: seq<seq<string>>, row: seq<string>)
    requires key < |left|
    requires forall j :: 0 <= j < |right| ==> |right[j]| >= 1
    ensures row in MatchRow(left, key, right) <==>
      exists j :: 0 <= j < |right| && left[key] == right[j][0] && row == left + right[j][1..]
  {
    if right != [] {
      MatchRowHolds(left, key, right[1..], row);
      if row in MatchRow(left, key, right[1..]) {
        var j :| 0 <= j < |right[1..]| && left[key] == right[1..][j][0] && row == left + right[1..][j][1..];
        assert right[j + 1] == right[1..][j];
      }
      if exists j :: 0 <= j < |right| && left[key] == right[j][0] && row == left + right[j][1..] {
        var j :| 0 <= j < |right| && left[key] == right[j][0] && row == left + right[j][1..];
        if j > 0 {
          assert right[1..][j - 1] == right[j];
        }
      }
    }
  }

  /** The inner join keeps exactly the pairs of rows whose keys agree:
      every merged row comes from an RSSD row and a metrics row with the same
      key, and every such pair gives a merged row. */
  lemma {:induction false} InnerJoinHolds(left: seq<seq<string>>, key: nat, right: seq<seq<string>>, row: seq<string>)
    requires forall i :: 0 <= i < |left| ==> key < |left[i]|
    requires forall j :: 0 <= j < |right| ==> |right[j]| >= 1
    ensures row in InnerJoin(left, key, right) <==>
      exists i, j :: 0 <= i < |left| && 0 <= j < |right| && left[i][key] == right[j][0] && row == left[i] + right[j][1..]
  {
    if left != [] {
      InnerJoinHolds(left[1..], key, right, row);
      MatchRowHolds(left[0], key, right, row);
      if row in InnerJoin(left[1..], key, right) {
        var i, j :| 0 <= i < |left[1..]| && 0 <= j < |right| && left[1..][i][key] == right[j][0] && row == left[1..][i] + right[j][1..];
        assert left[i + 1] == left[1..][i];
      }
      if exists i, j :: 0 <= i < |left| && 0 <= j < |right| && left[i][key] == right[j][0] && row == left[i] + right[j][1..] {
        var i, j :| 0 <= i < |left| && 0 <= j < |right| && left[i][key] == right[j][0] && row == left[i] + right[j][1..];
        if i > 0 {
          assert left[1..][i - 1] == left[i];
        }
      }
    }
  }

  /** Why `merge_metrics_and_rssd` raises. */
  datatype MergeError =
    | MetricsWidth      // the metrics file does not have exactly four columns
    | NoFileColumn      // the RSSD table has no "file" column to merge on

  /** The metrics rows with every key normalised. */
  function NormalizeKeys(rows: seq<seq<string>>): (r: seq<seq<string>>)
    requires forall j :: 0 <= j < |rows| ==> |rows[j]| >= 1
    ensures |r| == |rows|
    ensures forall j :: 0 <= j < |rows| ==> r[j] == [NormalizeKey(rows[j][0])] + rows[j][1..]
  {
    seq(|rows|, j requires 0 <= j < |rows| => [NormalizeKey(rows[j][0])] + rows[j][1..])
  }

  /** `row` joins an RSSD row whose "file" cell (column `key`) equals the
      normalised key of a metrics row with that row's other cells. */
  predicate JoinedRow(rssd: CsvTable, metrics: CsvTable, key: nat, row: seq<string>)
    requires key < |rssd.columns| && |metrics.columns| >= 1
  {
    exists i, j :: 0 <= i < |rssd.rows| && 0 <= j < |metrics.rows| &&
      rssd.rows[i][key] == NormalizeKey(metrics.rows[j][0]) && row == rssd.rows[i] + metrics.rows[j][1..]
  }

  /** `merge_metrics_and_rssd(rssd_file, metrics_file, output_file)` on the
      two tables read: the metrics columns are labelled file, RMSD, MCQ and
      TM-score, their keys normalised, and the tables joined on "file". */
  function MergeMetricsAndRssd(rssd: CsvTable, metrics: CsvTable): (r: Result<CsvTable, MergeError>)
    ensures r.Ok? <==> |metrics.columns| == 4 && "file" in rssd.columns
    ensures r.Ok? ==> r.value.columns == rssd.columns + ["RMSD", "MCQ", "TM-score"]
    ensures r.Ok? ==> forall row :: row in r.value.rows <==>
      JoinedRow(rssd, metrics, ColumnIndex(rssd.columns, "file").value, row)
  {
    if |metrics.columns| != 4 then Err(MetricsWidth)
    else match ColumnIndex(rssd.columns, "file")
      case None => Err(NoFileColumn)
      case Some(key) =>
        MergedRows(rssd, metrics, key);
        Ok(Table(rssd.columns + MetricsColumns[1..], InnerJoin(rssd.rows, key, NormalizeKeys(metrics.rows))))
  }

  /** The inner join of the two tables holds exactly the joined rows, each
      with one cell per merged column. */
  lemma {:induction false} MergedRows(rssd: CsvTable, metrics: CsvTable, key: nat)
    requires |metrics.columns| == 4 && key < |rssd.columns|
    ensures var rows := InnerJoin(rssd.rows, key, NormalizeKeys(metrics.rows));
      && (forall row :: row in rows <==> JoinedRow(rssd, metrics, key, row))
      && WellFormed(Table(rssd.columns + MetricsColumns[1..], rows))
  {
    var right := NormalizeKeys(metrics.rows);
    var rows := InnerJoin(rssd.rows, key, right);
    forall row
      ensures row in rows <==> JoinedRow(rssd, metrics, key, row)
    {
      InnerJoinHolds(rssd.rows, key, right, row);
    }
    forall k | 0 <= k < |rows|
      ensures |rows[k]| == |rssd.columns| + 3
    {
      assert rows[k] in rows;
      assert JoinedRow(rssd, metrics, key, rows[k]);
    }
  }

  const RssdFolder := "project/RSSD"
  const MetricsFolder := "data/SCORES"
  const OutputFolder := "project/MERGING"

  /** `os.path.splitext(rssd_file)[0].replace("rssd_", "")`. */
  function StructureId(rssdFile: string): string
  {
    RemoveAll(Root(rssdFile), "rssd_")
  }

  /** The three paths the main block derives from one RSSD file name. */
  datatype MergeJob = MergeJob(rssdPath: string, metricsPath: string, outputFile: string)

  function MergeJobFor(rssdFile: string): MergeJob
  {
    var id := StructureId(rssdFile);
    MergeJob(JoinPath(RssdFolder, rssdFile), JoinPath(MetricsFolder, id + ".csv"),
             JoinPath(OutputFolder, "merged_" + id + ".csv"))
  }

  /** `rssd_<id>.csv` belongs to structure `<id>`: it is merged with the
      metrics file `<id>.csv` into `merged_<id>.csv`. */
  lemma {:induction false} MergeNamesFollowStructureId(id: string)
    requires '/' !in id && !Contains(id, "rssd_")
    ensures StructureId("rssd_" + id + ".csv") == id
    ensures MergeJobFor("rssd_" + id + ".csv") ==
      MergeJob(JoinPath(RssdFolder, "rssd_" + id + ".csv"), JoinPath(MetricsFolder, id + ".csv"),
               JoinPath(OutputFolder, "merged_" + id + ".csv"))
  {
    var stem := "rssd_" + id;
    assert stem[0] == 'r';
    assert '/' !in stem by {
      forall k | 0 <= k < |stem| ensures stem[k] != '/' {
        if k >= 5 { assert stem[k] == id[k - 5]; }
      }
    }
    assert "rssd_" + id + ".csv" == stem + ".csv";
    RootOfExtension(stem, ".csv");
    assert OccursAt(stem, "rssd_", 0);
    assert Find(stem, "rssd_") == Some(0);
    assert stem[5..] == id;
  }

  /** What the main loop reads: the RSSD table at a path (None where
      `read_csv` raises), which metrics paths exist, and the metrics table at
      an existing path (None where `read_csv` raises). */
  datatype MergeInputs = MergeInputs(readRssd: string -> Option<CsvTable>, metricsExist: set<string>,
                                     readMetrics: string -> Option<CsvTable>)

  /** The merged files written so far, and whether an exception ended the
      script (nothing in the loop catches one). */
  datatype MergeRun = MergeRun(written: seq<Written>, aborted: bool)

  /** One iteration of the main loop on `rssdFile`. */
  function MergeStep(run: MergeRun, rssdFile: string, inputs: MergeInputs): MergeRun
  {
    if run.aborted || !EndsWith(rssdFile, ".csv") then run
    else
      var job := MergeJobFor(rssdFile);
      if job.metricsPath !in inputs.metricsExist then run
      else match (inputs.readRssd(job.rssdPath), inputs.readMetrics(job.metricsPath))
        case (Some(rssd), Some(metrics)) =>
          (match MergeMetricsAndRssd(rssd, metrics)
           case Ok(merged) => MergeRun(run.written + [Written(job.outputFile, merged)], false)
           case Err(_) => MergeRun(run.written, true))
        case _ => MergeRun(run.written, true)
  }

  /** The main loop over the RSSD folder's entries. */
  function MergeAll(files: seq<string>, inputs: MergeInputs): MergeRun
    decreases |files|
  {
    if files == [] then MergeRun([], false)
    else MergeStep(MergeAll(files[..|files| - 1], inputs), files[|files| - 1], inputs)
  }

  /** The main block of `merge.py`, for `listing` the entries of the RSSD
      folder in `os.listdir` order. */
  method MergeFolder(listing: seq<string>, inputs: MergeInputs) returns (run: MergeRun)
    ensures run == MergeAll(listing, inputs)
  {
    var written: seq<Written> := [];
    for i := 0 to |listing|
      invariant MergeAll(listing[..i], inputs) == MergeRun(written, false)
    {
      var rssdFile := listing[i];
      assert listing[..i + 1][..i] == listing[..i];
      if !EndsWith(rssdFile, ".csv") {
        continue;
      }
      var structureId := StructureId(rssdFile);
      var rssdPath := JoinPath(RssdFolder, rssdFile);
      var metricsPath := JoinPath(MetricsFolder, structureId + ".csv");
      var outputFile := JoinPath(OutputFolder, "merged_" + structureId + ".csv");
      if metricsPath !in inputs.metricsExist {
        continue;
      }
      var rssd := inputs.readRssd(rssdPath);
      var metrics := inputs.readMetrics(metricsPath);
      var merged: Result<CsvTable, MergeError> := Err(NoFileColumn);
      if rssd.Some? && metrics.Some? {
        merged := MergeMetricsAndRssd(rssd.value, metrics.value);
      }
      if merged.Err? {
        MergeAbortStays(listing, i + 1, inputs);
        return MergeRun(written, true);
      }
      written := written + [Written(outputFile, merged.value)];
    }
    assert listing[..|listing|] == listing;
    return MergeRun(written, false);
  }

  /** Once an exception has ended the script, later files change nothing. */
  lemma {:induction false} MergeAbortStays(files: seq<string>, j: nat, inputs: MergeInputs)
    requires j <= |files| && MergeAll(files[..j], inputs).aborted
    ensures MergeAll(files, inputs) == MergeAll(files[..j], inputs)
    decreases |files|
  {
    if j < |files| {
      var init := files[..|files| - 1];
      assert init[..j] == files[..j];
      MergeAbortStays(init, j, inputs);
    } else {
      assert files[..j] == files;
    }
  }

  /** The RSSD files that have a metrics file, in listing order. */
  function Mergeable(files: seq<string>, inputs: MergeInputs): seq<string>
    decreases |files|
  {
    if files == [] then []
    else
      var init := Mergeable(files[..|files| - 1], inputs);
      var f := files[|files| - 1];
      if HasMetrics(f, inputs) then init + [f] else init
  }

  /** Paths of some written files. */
  function Paths(written: seq<Written>): (paths: seq<string>)
    ensures |paths| == |written|
    ensures forall k :: 0 <= k < |written| ==> paths[k] == written[k].path
  {
    seq(|written|, k requires 0 <= k < |written| => written[k].path)
  }

  /** The merged file names for some RSSD file names. */
  function OutputFiles(files: seq<string>): (outputs: seq<string>)
    ensures |outputs| == |files|
    ensures forall k :: 0 <= k < |files| ==> outputs[k] == MergeJobFor(files[k]).outputFile
  {
    seq(|files|, k requires 0 <= k < |files| => MergeJobFor(files[k]).outputFile)
  }

  /** One loop iteration that does not raise writes the merged file of its
      RSSD file exactly when that file has a metrics file. */
  lemma {:induction false} MergeStepWrites(run: MergeRun, f: string, inputs: MergeInputs)
    requires !MergeStep(run, f, inputs).aborted
    ensures !run.aborted
    ensures Paths(MergeStep(run, f, inputs).written) ==
      Paths(run.written) + (if HasMetrics(f, inputs) then [MergeJobFor(f).outputFile] else [])
  {
    if run.aborted {
    } else if HasMetrics(f, inputs) {
      MergeStepMerges(run, f, inputs);
    } else {
      MergeStepSkips(run, f, inputs);
      assert Paths(run.written) + [] == Paths(run.written);
    }
  }

  lemma {:induction false} MergeStepSkips(run: MergeRun, f: string, inputs: MergeInputs)
    requires !HasMetrics(f, inputs)
    ensures MergeStep(run, f, inputs) == run
  {
  }

  lemma {:induction false} MergeStepMerges(run: MergeRun, f: string, inputs: MergeInputs)
    requires !run.aborted && HasMetrics(f, inputs) && !MergeStep(run, f, inputs).aborted
    ensures Paths(MergeStep(run, f, inputs).written) == Paths(run.written) + [MergeJobFor(f).outputFile]
  {
    var job := MergeJobFor(f);
    var rssd := inputs.readRssd(job.rssdPath);
    var metrics := inputs.readMetrics(job.metricsPath);
    assert rssd.Some? && metrics.Some?;
    var merged := MergeMetricsAndRssd(rssd.value, metrics.value);
    assert merged.Ok?;
    var w := Written(job.outputFile, merged.value);
    assert MergeStep(run, f, inputs).written == run.written + [w];
    PathsSnoc(run.written, w);
  }

  /** Whether the main loop merges `f`: a CSV file whose metrics file exists. */
  predicate HasMetrics(f: string, inputs: MergeInputs)
  {
    EndsWith(f, ".csv") && MergeJobFor(f).metricsPath in inputs.metricsExist
  }

  /** A structure without a metrics file is skipped and the loop goes on:
      unless a merge raised, one `merged_<id>.csv` is written per RSSD file
      that has a metrics file, in listing order. */
  lemma {:induction false} MergeWritesEveryMergeable(files: seq<string>, inputs: MergeInputs)
    ensures !MergeAll(files, inputs).aborted ==>
      Paths(MergeAll(files, inputs).written) == OutputFiles(Mergeable(files, inputs))
    decreases |files|
  {
    if files != [] && !MergeAll(files, inputs).aborted {
      var init := files[..|files| - 1];
      var f := files[|files| - 1];
      MergeStepWrites(MergeAll(init, inputs), f, inputs);
      MergeWritesEveryMergeable(init, inputs);
      var m := Mergeable(init, inputs);
      if HasMetrics(f, inputs) {
        OutputFilesSnoc(m, f);
      }
    }
  }

  lemma {:induction false} PathsSnoc(written: seq<Written>, w: Written)
    ensures Paths(written + [w]) == Paths(written) + [w.path]
  {
  }

  lemma {:induction false} OutputFilesSnoc(m: seq<string>, f: string)
    ensures OutputFiles(m + [f]) == OutputFiles(m) + [MergeJobFor(f).outputFile]
  {
  }
}
