/** The RSSD batch evaluator: `compute_rssd`, the loop of
    `process_pdb_folder` that scores every predicted `.pdb` file of a folder
    against one native structure, and the atom selector and output names
    chosen by the script's main block. */
module RssdBatch {
  import opened Types
  import opened PyStr
  import opened PdbParse
  import opened RmsdMetric

  /** `compute_rssd(true_atoms, predicted_atoms)`: a shape mismatch is refused
      with both shapes, before the aligner is consulted; otherwise the
      aligner's rotation and its residual, unnormalised. */
  function ComputeRssd(native: seq<Point>, predicted: seq<Point>, align: Aligner): (r: Result<Scored, MetricError>)
    ensures |native| != |predicted| <==> r == Err(ShapeMismatch(ShapeOf(native), ShapeOf(predicted)))
    ensures r.Ok? <==> |native| == |predicted| && align(native, predicted).Some?
    ensures r.Ok? ==>
      r.value.rotation == align(native, predicted).value.rotation &&
      r.value.value == align(native, predicted).value.residual
  {
    SameShapeIffSameCount(native, predicted);
    if ShapeOf(native) != ShapeOf(predicted) then Err(ShapeMismatch(ShapeOf(native), ShapeOf(predicted)))
    else match align(native, predicted)
      case None => Err(AlignFailed)
      case Some(al) => Ok(Scored(al.rotation, al.residual))
  }

  /** The mean-normalised metric of `compute_rmsd` is the summed metric of
      `compute_rssd` divided by the atom count, exactly, with the same
      rotation; the two fail on the same inputs once there is a point. */
  lemma {:induction false} RmsdIsRssdOverCount(native: seq<Point>, predicted: seq<Point>, align: Aligner)
    requires native != []
    ensures ComputeRmsd(native, predicted, align).Ok? <==> ComputeRssd(native, predicted, align).Ok?
    ensures ComputeRmsd(native, predicted, align).Ok? ==>
      ComputeRmsd(native, predicted, align).value ==
        Scored(ComputeRssd(native, predicted, align).value.rotation,
               ComputeRssd(native, predicted, align).value.value / (|native| as real))
  {
  }

  /** The RSSD cell of a result row: the residual, or the literal "Error". */
  datatype Score = Value(rssd: real) | ErrorMark

  /** One `{"Model": name, "RSSD": score}` row. */
  datatype Entry = Entry(model: string, rssd: Score)

  /** How `process_pdb_folder` ends: the native parse raised (uncaught, so the
      call raises), the native file held no selected atom (return before any
      prediction), or the rows written to the CSV file. */
  datatype FolderOutcome = NativeFailed | NoNativeAtoms | Results(entries: seq<Entry>)

  /** `plot_points(true, predicted, rotation, plot_file)`: false where it raises. */
  type Plotter = (seq<Point>, seq<Point>, Rotation, string) -> bool

  /** What the loop consults outside the model: reading a predicted file of
      the folder by name (None where `open` raises), `float()`, the aligner and
      the plotter. */
  datatype Env = Env(read: string -> Option<seq<string>>, parseFloat: FloatParser, align: Aligner, plot: Plotter)

  /** `[f for f in os.listdir(folder) if f.endswith(".pdb")]`. */
  function PdbFiles(listing: seq<string>): (files: seq<string>)
    ensures forall f :: f in files <==> f in listing && EndsWith(f, ".pdb")
    ensures |files| <= |listing|
    decreases |listing|
  {
    if listing == [] then []
    else
      var last := listing[|listing| - 1];
      var init := PdbFiles(listing[..|listing| - 1]);
      assert listing == listing[..|listing| - 1] + [last];
      if EndsWith(last, ".pdb") then init + [last] else init
  }

  /** `os.path.join(plots_folder, f"{os.path.splitext(pdb_file)[0]}.png")`. */
  function PlotFile(plotsFolder: string, pdbFile: string): string
  {
    JoinPath(plotsFolder, Root(pdbFile) + ".png")
  }

  /** The points of a predicted file; None where reading or parsing raises. */
  function PredictedPoints(name: string, sel: Selector, env: Env): Option<seq<Point>>
  {
    ParseFile(env.read(name), sel, env.parseFloat)
  }

  /** A prediction whose point count differs from the native one is skipped. */
  predicate Skipped(native: seq<Point>, name: string, sel: Selector, env: Env)
  {
    PredictedPoints(name, sel, env).Some? && |PredictedPoints(name, sel, env).value| != |native|
  }

  /** One pass of the `try` block for `pdb_file`: no row for a skipped file,
      an "Error" row when reading, parsing, aligning or plotting raises, and
      otherwise a row with the residual, added only once the plot is made. */
  function EvaluateOne(native: seq<Point>, name: string, sel: Selector, plotsFolder: string, env: Env): (r: Option<Entry>)
    ensures r.None? <==> Skipped(native, name, sel, env)
    ensures r.Some? ==> r.value.model == name
    ensures r.Some? && r.value.rssd.Value? ==>
      && PredictedPoints(name, sel, env).Some?
      && var pts := PredictedPoints(name, sel, env).value;
      && |pts| == |native|
      && env.align(native, pts).Some?
      && r.value.rssd.rssd == env.align(native, pts).value.residual
      && env.plot(native, pts, env.align(native, pts).value.rotation, PlotFile(plotsFolder, name))
    ensures r.Some? && r.value.rssd.ErrorMark? <==>
      || PredictedPoints(name, sel, env).None?
      || var pts := PredictedPoints(name, sel, env).value;
        && |pts| == |native|
        && (|| env.align(native, pts).None?
            || !env.plot(native, pts, env.align(native, pts).value.rotation, PlotFile(plotsFolder, name)))
  {
    match PredictedPoints(name, sel, env)
    case None => Some(Entry(name, ErrorMark))
    case Some(pts) =>
      SameShapeIffSameCount(native, pts);
      if ShapeOf(native) != ShapeOf(pts) then None
      else match ComputeRssd(native, pts, env.align)
        case Err(_) => Some(Entry(name, ErrorMark))
        case Ok(s) =>
          if env.plot(native, pts, s.rotation, PlotFile(plotsFolder, name)) then Some(Entry(name, Value(s.value)))
          else Some(Entry(name, ErrorMark))
  }

  /** The rows built for the predicted files, in their order. */
  function Evaluate(native: seq<Point>, files: seq<string>, sel: Selector, plotsFolder: string, env: Env): seq<Entry>
    decreases |files|
  {
    if files == [] then []
    else
      var rows := Evaluate(native, files[..|files| - 1], sel, plotsFolder, env);
      match EvaluateOne(native, files[|files| - 1], sel, plotsFolder, env)
      case None => rows
      case Some(e) => rows + [e]
  }

  /** One more predicted file: the rows so far, then that file's row if it has one. */
  lemma {:induction false} EvaluateSnoc(native: seq<Point>, files: seq<string>, i: nat, sel: Selector, plotsFolder: string, env: Env)
    requires i < |files|
    ensures Evaluate(native, files[..i + 1], sel, plotsFolder, env) ==
      Evaluate(native, files[..i], sel, plotsFolder, env) +
      (match EvaluateOne(native, files[i], sel, plotsFolder, env) case None => [] case Some(e) => [e])
  {
    assert files[..i + 1][..i] == files[..i];
  }

  /** `process_pdb_folder(native_pdb, predicted_folder, output_file,
      plots_folder, atom_names, all_atoms)`, for `listing` the entries of the
      predicted folder in `os.listdir` order. */
  method ProcessPdbFolder(nativeLines: Option<seq<string>>, listing: seq<string>, sel: Selector,
                          plotsFolder: string, env: Env)
    returns (out: FolderOutcome)
    ensures ParseFile(nativeLines, sel, env.parseFloat).None? ==> out == NativeFailed
    ensures ParseFile(nativeLines, sel, env.parseFloat) == Some([]) ==> out == NoNativeAtoms
    ensures ParseFile(nativeLines, sel, env.parseFloat).Some? && ParseFile(nativeLines, sel, env.parseFloat).value != [] ==>
      out == Results(Evaluate(ParseFile(nativeLines, sel, env.parseFloat).value, PdbFiles(listing), sel, plotsFolder, env))
  {
    if nativeLines.None? {
      return NativeFailed;
    }
    var trueAtoms := ParsePdb(nativeLines.value, sel, env.parseFloat);
    if trueAtoms.None? {
      return NativeFailed;
    }
    var native := trueAtoms.value;
    if |native| == 0 {
      return NoNativeAtoms;
    }
    var predictedFiles := PdbFiles(listing);
    var results: seq<Entry> := [];
    for i := 0 to |predictedFiles|
      invariant results == Evaluate(native, predictedFiles[..i], sel, plotsFolder, env)
    {
      var pdbFile := predictedFiles[i];
      EvaluateSnoc(native, predictedFiles, i, sel, plotsFolder, env);
      var lines := env.read(pdbFile);
      if lines.None? {
        results := results + [Entry(pdbFile, ErrorMark)];
        continue;
      }
      var predictedAtoms := ParsePdb(lines.value, sel, env.parseFloat);
      if predictedAtoms.None? {
        results := results + [Entry(pdbFile, ErrorMark)];
        continue;
      }
      if ShapeOf(native) != ShapeOf(predictedAtoms.value) {
        SameShapeIffSameCount(native, predictedAtoms.value);
        continue;
      }
      var rssd := ComputeRssd(native, predictedAtoms.value, env.align);
      if rssd.Err? {
        results := results + [Entry(pdbFile, ErrorMark)];
        continue;
      }
      var plotted := env.plot(native, predictedAtoms.value, rssd.value.rotation, PlotFile(plotsFolder, pdbFile));
      if !plotted {
        results := results + [Entry(pdbFile, ErrorMark)];
        continue;
      }
      results := results + [Entry(pdbFile, Value(rssd.value.value))];
    }
    assert predictedFiles[..|predictedFiles|] == predictedFiles;
    return Results(results);
  }

  /** The model names of some rows. */
  function Models(rows: seq<Entry>): (names: seq<string>)
    ensures |names| == |rows|
    ensures forall k :: 0 <= k < |rows| ==> names[k] == rows[k].model
  {
    seq(|rows|, k requires 0 <= k < |rows| => rows[k].model)
  }

  lemma {:induction false} ModelsSnoc(rows: seq<Entry>, e: Entry)
    ensures Models(rows + [e]) == Models(rows) + [e.model]
  {
  }

  /** `a` is `b` with some elements left out, the rest kept in order. */
  predicate IsSubsequence(a: seq<string>, b: seq<string>)
    decreases |b|
  {
    if a == [] then true
    else if b == [] then false
    else if a[|a| - 1] == b[|b| - 1] then IsSubsequence(a[..|a| - 1], b[..|b| - 1])
    else IsSubsequence(a, b[..|b| - 1])
  }

  lemma {:induction false} SubsequenceExtend(a: seq<string>, b: seq<string>, x: string)
    requires IsSubsequence(a, b)
    ensures IsSubsequence(a, b + [x])
    decreases |b|, 1
  {
    assert (b + [x])[..|b|] == b;
    if a != [] && a[|a| - 1] == x {
      SubsequenceDropLast(a, b);
    }
  }

  lemma {:induction false} SubsequenceDropLast(a: seq<string>, b: seq<string>)
    requires a != [] && IsSubsequence(a, b)
    ensures IsSubsequence(a[..|a| - 1], b)
    decreases |b|, 0
  {
    var a' := a[..|a| - 1];
    var b' := b[..|b| - 1];
    assert b == b' + [b[|b| - 1]];
    if a[|a| - 1] == b[|b| - 1] {
      SubsequenceExtend(a', b', b[|b| - 1]);
    } else {
      SubsequenceDropLast(a, b');
      SubsequenceExtend(a', b', b[|b| - 1]);
    }
  }

  /** The rows follow the order of the predicted files, at most one per file. */
  lemma {:induction false} EvaluateFollowsFileOrder(native: seq<Point>, files: seq<string>, sel: Selector, plotsFolder: string, env: Env)
    ensures IsSubsequence(Models(Evaluate(native, files, sel, plotsFolder, env)), files)
    ensures |Evaluate(native, files, sel, plotsFolder, env)| <= |files|
    decreases |files|
  {
    if files != [] {
      var init := files[..|files| - 1];
      var last := files[|files| - 1];
      assert files == init + [last];
      EvaluateFollowsFileOrder(native, init, sel, plotsFolder, env);
      var rows := Evaluate(native, init, sel, plotsFolder, env);
      var names := Models(rows);
      match EvaluateOne(native, last, sel, plotsFolder, env)
      case None =>
        assert Evaluate(native, files, sel, plotsFolder, env) == rows;
        SubsequenceExtend(names, init, last);
      case Some(e) =>
        assert Evaluate(native, files, sel, plotsFolder, env) == rows + [e];
        ModelsSnoc(rows, e);
        assert (names + [last])[..|names|] == names;
    }
  }

  /** A failing file never costs the batch anything: when no file is
      skipped for its point count, there is exactly one row per predicted
      file, in order, whether its score is a value or "Error". */
  lemma {:induction false} EvaluateOneRowPerFile(native: seq<Point>, files: seq<string>, sel: Selector, plotsFolder: string, env: Env)
    requires forall k :: 0 <= k < |files| ==> !Skipped(native, files[k], sel, env)
    ensures Models(Evaluate(native, files, sel, plotsFolder, env)) == files
    decreases |files|
  {
    if files != [] {
      var init := files[..|files| - 1];
      EvaluateOneRowPerFile(native, init, sel, plotsFolder, env);
    }
  }

  /** The atom selector of the main block: "all" in any letter case selects
      every atom, anything else is split on commas without trimming. */
  function SelectorFromInput(input: string): (sel: Selector)
    ensures sel.allAtoms <==>
      |input| == 3 && input[0] in {'a', 'A'} && input[1] in {'l', 'L'} && input[2] in {'l', 'L'}
    ensures sel.allAtoms ==> sel.atomNames.None?
    ensures !sel.allAtoms ==> sel.atomNames.Some? && sel.atomNames.value != {}
    ensures !sel.allAtoms ==> forall name :: name in sel.atomNames.value <==> name in Split(input, ",")
  {
    LowerIsAll(input);
    var allAtoms := Lower(input) == "all";
    var names := Split(input, ",");
    var nameSet := set name | name in names;
    assert names[0] in nameSet;
    Selector(if allAtoms then None else Some(nameSet), allAtoms)
  }

  /** A selector name kept with a space next to its comma never matches,
      since atom names are stripped: `"P, C5'"` selects P atoms but no C5'. */
  lemma SpaceAfterCommaDropsName()
    ensures Selects(SelectorFromInput("P, C5'"), "P")
    ensures !Selects(SelectorFromInput("P, C5'"), "C5'")
  {
    SplitKeepsSpaceAfterComma();
  }

  /** The names the main block derives from one native file. */
  datatype Job = Job(nativePdb: string, predictedFolder: string, outputFile: string, plotsFolder: string)

  /** For `native_file` in the native folder: its path, and the predicted
      folder, CSV file and plot folder named after its structure id. */
  function NativeJob(nativeFolder: string, predictedBase: string, outputBase: string, plotsBase: string,
                     nativeFile: string): Job
  {
    var structureId := Root(nativeFile);
    Job(JoinPath(nativeFolder, nativeFile),
        JoinPath(predictedBase, structureId),
        JoinPath(outputBase, structureId + ".csv"),
        JoinPath(plotsBase, structureId))
  }

  /** For `<id>.pdb` with an ordinary id, the structure id is `<id>`: the
      predictions are read from the folder `<id>`, the scores written to
      `<id>.csv`, the plots put in the folder `<id>`; and a prediction
      `<stem>.pdb` is plotted to `<stem>.png`. */
  lemma {:induction false} NamingFollowsStructureId(nativeFolder: string, predictedBase: string, outputBase: string, plotsBase: string,
                                 id: string, stem: string)
    requires '/' !in id && exists k :: 0 <= k < |id| && id[k] != '.'
    requires '/' !in stem && exists k :: 0 <= k < |stem| && stem[k] != '.'
    ensures NativeJob(nativeFolder, predictedBase, outputBase, plotsBase, id + ".pdb") ==
      Job(JoinPath(nativeFolder, id + ".pdb"), JoinPath(predictedBase, id),
          JoinPath(outputBase, id + ".csv"), JoinPath(plotsBase, id))
    ensures PlotFile(JoinPath(plotsBase, id), stem + ".pdb") == JoinPath(JoinPath(plotsBase, id), stem + ".png")
  {
    RootOfExtension(id, ".pdb");
    RootOfExtension(stem, ".pdb");
  }
}
