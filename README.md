# RNA structure scoring scripts, modelled in Dafny

This project models the deterministic logic around the structure scores of
the M2 GENIOMHE "BioInfo of RNA / AF2" scripts:

- the ATOM-record coordinate extractor `parse_pdb`: fixed-width columns 13-16
  hold the atom name, and 31-38, 39-46 and 47-54 hold x, y and z;
- the two scores built on one rigid superposition: `compute_rssd` returns the
  aligner's residual, and `compute_rmsd` / `compute_cgRMSD` return that
  residual divided by the atom count;
- the RSSD batch loop `process_pdb_folder`, with the atom selector and the
  output names of its main block;
- the `CustomCGRMSD` calculator class;
- the model-name key normalisation, the join and the file naming of
  `merge.py`;
- the `normalized_` cleaning loop of `clean.py`.

The superposition is `scipy`'s `Rotation.align_vectors`. It is an uninterpreted
`Aligner` parameter that may fail and otherwise returns a rotation and a
residual. `float()` is an uninterpreted `FloatParser` that may reject a field.
Plotting is a `Plotter` that may fail. Reading a file is a parameter that
returns the file's lines, or None where `open` or `read_csv` raises. Directory
listings are sequences given in `os.listdir` order.

Modules, one per source file, plus shared pieces:

| file | module | models |
|---|---|---|
| types.dfy | Types | Option, Result, points, rotations, the foreign-call types |
| pystr.dfy | PyStr | Python `str` slicing, `strip`, `lower`, `split`, `replace`, `split(...)[-1]`, `os.path.splitext`, `os.path.join` |
| tables.dfy | Tables | tables as pandas reads them (labels and rows of cells) |
| parse_pdb.dfy | PdbParse | `BIN/parse_pdb.py` and its copy in `BIN/RSSD.py` |
| compute_rmsd.dfy | RmsdMetric | `BIN/compute_rmsd.py` (and `compute_cgRMSD`, which is the same computation) |
| rssd.dfy | RssdBatch | `BIN/RSSD.py` |
| predict_cgrmsd.dfy | CgRmsdPredictor | `BIN2/predict_cgRMSD.py` |
| merge.dfy | MergeScores | `BIN/merge.py` |
| clean.dfy | CleanScores | `BIN/clean.py` |

How each kind of source code is modelled:

- Loops are methods. `ParsePdb`, `ProcessPdbFolder`, `MergeFolder` and
  `ProcessFilesInDirectory` each prove that they compute a recursive
  specification function defined over the prefix read so far. The lemmas state
  their properties about those functions.
- `CustomCGRMSD` is a class. Its two fields are set by the constructor and
  only read by `Predict`.
- Every exception path is a value. `parse_pdb` raising is None, a metric
  refusing its input is an `Err`, and an exception caught in a loop becomes
  the row or report that the `except` produces.

## Model

| member | source | states |
|---|---|---|
| PyStr.Slice | BIN/parse_pdb.py:17 | a Python slice `s[i:j]` clamps both bounds to the length: its length is `min(j,|s|)-i` or 0, and it holds the characters from `i` on |
| PyStr.Strip | BIN/parse_pdb.py:17 | `strip()` removes exactly the leading and trailing whitespace: the result is the stretch of `s` after its leading spaces, everything after it is whitespace, and its ends are not whitespace |
| PyStr.StripIdempotent | BIN/parse_pdb.py:17 | stripping a stripped string changes nothing |
| PyStr.PaddedIsNeverStripped | BIN/RSSD.py:30-31 | a name with whitespace at an end never equals a stripped field |
| PyStr.LowerIsAll | BIN/RSSD.py:153 | `lower() == "all"` holds exactly for the eight letter-case spellings of "all" |
| PyStr.Find | BIN/merge.py:34 | the first occurrence of a substring, None exactly when there is none |
| PyStr.Split | BIN/RSSD.py:154 | `split(sep)` gives at least one piece, no piece contains the separator, and joining the pieces with it gives back the input |
| PyStr.SplitKeepsSpaceAfterComma | BIN/RSSD.py:154 | `"P, C5'".split(",")` is `["P", " C5'"]`, with the space kept |
| PyStr.LastPiece | BIN/merge.py:34 | `split(sep)[-1]` is a suffix without the separator, the whole string when the separator is absent, and otherwise what follows the last separator found scanning left to right without overlaps |
| PyStr.RemoveAll | BIN/clean.py:29 | `replace(p, "")` never lengthens the string, and leaves a string without `p` unchanged |
| PyStr.RemoveAllLength | BIN/clean.py:29 | `replace(p, "")` shortens the string by exactly `|p|` per occurrence that `count` finds, scanning left to right without overlaps |
| PyStr.RemoveAllJoinsPieces | BIN/clean.py:29 | `replace(p, "")` is the concatenation of the pieces `split(p)` gives |
| PyStr.Root | BIN/RSSD.py:160 | `os.path.splitext(p)[0]` is a prefix of `p`, and when it is shorter what follows it is a `.` with no later `.` or `/` (that an extension is in fact removed is `PyStr.RootOfExtension`) |
| PyStr.RootOfExtension | BIN/RSSD.py:160 | for a stem without `/` that is not all dots, the root of `stem + ".pdb"` (or `".csv"`) is the stem |
| PyStr.JoinPath | BIN/RSSD.py:159 | `os.path.join(a, b)` ends with `b`, and starts with `a` when `b` is relative |
| PdbParse.ParsePoint | BIN/parse_pdb.py:19-22 | a contributing line gives the point whose x, y, z are `float()` of the stripped slices `[30:38]`, `[38:46]`, `[46:54]`, in that order, and it fails exactly when one of the three is rejected |
| PdbParse.ParsePdb | BIN/parse_pdb.py:13-23 | the loop returns what `Extract` specifies: one point appended per contributing line, and None from the first line whose coordinates do not parse |
| PdbParse.ContributingLines | BIN/parse_pdb.py:15-18 | the contributing lines are lines of the file that are ATOM records whose name the selector accepts, no more of them than lines |
| PdbParse.ExtractFailurePersists | BIN/parse_pdb.py:19-21 | once a contributing line has failed, the whole call fails, whatever follows |
| PdbParse.ParseEach | BIN/parse_pdb.py:19-22 | parsing a list of lines succeeds exactly when every line parses, and then gives one point per line, in order |
| PdbParse.ExtractParsesContributingLines | BIN/parse_pdb.py:13-23 | the result is the parse of the contributing lines and nothing else: it fails iff one of them fails, it holds exactly one point per contributing line in file order, and other lines are never parsed |
| PdbParse.AllAtomsTakesEveryAtomRecord | BIN/parse_pdb.py:18 | with `all_atoms` every ATOM record contributes, whatever the names |
| PdbParse.ContributingAreAtomRecords | BIN/parse_pdb.py:16 | only ATOM records contribute, so there are at most as many points as ATOM records |
| PdbParse.NoNamesYieldsEmpty | BIN/parse_pdb.py:18 | without `all_atoms` and with names None or empty, the result is empty, not an error |
| PdbParse.NoContributingLineYieldsEmpty | BIN/parse_pdb.py:13-23 | a file without a contributing line yields an empty result |
| PdbParse.ShortContributingLineFails | BIN/parse_pdb.py:19 | a contributing line of at most 30 characters has an empty x field, so a `float` that rejects "" makes the call fail |
| PdbParse.ShortLineFails | BIN/parse_pdb.py:19 | on a line of at most 30 characters the x field is empty, so a `float` that rejects "" fails on the line |
| PdbParse.FailingLineFails | BIN/parse_pdb.py:19-21 | a contributing line whose coordinates do not parse makes the lines read up to and including it fail |
| PdbParse.ContributingLineIsListed | BIN/parse_pdb.py:15-18 | every contributing line of the file is among the contributing lines |
| PdbParse.AtomNameShape | BIN/parse_pdb.py:17 | the atom name has at most four characters, no surrounding whitespace, and is empty on a line of 12 characters or fewer |
| RmsdMetric.ShapeOf | BIN/compute_rmsd.py:12 | the shape of an extraction is `(0,)` when it is empty and `(n, 3)` otherwise, `n` the number of points |
| RmsdMetric.SameShapeIffSameCount | BIN/compute_rmsd.py:12 | two extractions have the same shape exactly when they have the same number of points |
| RmsdMetric.ComputeRmsd | BIN/compute_rmsd.py:4-16 | different counts are refused with both shapes, whatever the aligner gives; a score exists iff the counts agree, there is a point, and the aligner succeeds; the rotation is the aligner's, and the score times `n` is the aligner's residual (no square root) |
| RssdBatch.ComputeRssd | BIN/RSSD.py:39-50 | different counts are refused with both shapes; otherwise the aligner's rotation and its residual, unnormalised |
| RssdBatch.RmsdIsRssdOverCount | BIN/compute_rmsd.py:14-16 | with at least one point, `compute_rmsd` succeeds exactly when `compute_rssd` does, with the same rotation and the RSSD divided by the point count |
| RssdBatch.PdbFiles | BIN/RSSD.py:104 | the predicted files are exactly the listed entries that end in `.pdb` |
| RssdBatch.EvaluateOne | BIN/RSSD.py:107-132 | a file whose point count differs from the native one gets no row; a file that cannot be read or parsed, or whose alignment or plot fails, gets exactly one "Error" row; otherwise one row carrying the aligner's residual, and only after the plot succeeded; every row is named after its file |
| RssdBatch.ProcessPdbFolder | BIN/RSSD.py:82-141 | a native parse that raises makes the call raise; an empty native extraction returns before any prediction; otherwise the rows written are `Evaluate` of the `.pdb` entries in listing order |
| RssdBatch.EvaluateFollowsFileOrder | BIN/RSSD.py:104-128 | the rows follow the order of the predicted files, at most one per file |
| RssdBatch.EvaluateOneRowPerFile | BIN/RSSD.py:111-132 | when no file is skipped for its count, there is exactly one row per file, in order: a failing file does not stop the loop |
| RssdBatch.SelectorFromInput | BIN/RSSD.py:152-154 | all atoms exactly for "all" in any letter case, and then no names; otherwise a non-empty set of names that are exactly the pieces of the comma split, untrimmed |
| RssdBatch.SpaceAfterCommaDropsName | BIN/RSSD.py:152-154 | with the input `"P, C5'"` the P atoms are selected but C5' atoms never are |
| RssdBatch.NamingFollowsStructureId | BIN/RSSD.py:158-163 | for `<id>.pdb` the predictions come from folder `<id>`, the scores go to `<id>.csv`, the plots to folder `<id>`, and a prediction `<stem>.pdb` is plotted to `<stem>.png` (line 124) |
| CgRmsdPredictor.Prediction | BIN2/predict_cgRMSD.py:16-35 | a file that does not parse is an error; an empty parse on either side is refused as "no atoms"; then different counts are refused with both shapes and a failing aligner is an error; a score exists exactly when both files parse with the same selector, neither is empty, the counts agree and the aligner succeeds, and the score times `n` is the residual |
| CgRmsdPredictor.NoNamesAlwaysRaises | BIN2/predict_cgRMSD.py:13 | a calculator with no names and not told to take all atoms fails on every prediction |
| CgRmsdPredictor.CustomCGRMSD.constructor | BIN2/predict_cgRMSD.py:6-14 | the names are kept as a set with the same members when there are any, otherwise None; `all_atoms` is kept and defaults to false |
| CgRmsdPredictor.CustomCGRMSD.Predict | BIN2/predict_cgRMSD.py:16-35 | the calculator is left unchanged and the result is `Prediction` for its selector: parse both files, refuse an empty parse, and return the score without the rotation |
| CgRmsdPredictor.StrippedNames | BIN2/predict_cgRMSD.py:41 | the interactive selector gives one stripped name per comma-separated piece, without surrounding whitespace |
| CgRmsdPredictor.StrippedNamesKeepSpacedName | BIN2/predict_cgRMSD.py:41-50 | with stripping, the input `"P, C5'"` gives a calculator that selects both P and C5' atoms |
| CgRmsdPredictor.InteractiveSelector | BIN2/predict_cgRMSD.py:41-50 | the interactive calculator selects by names, not all atoms, and its names are exactly the stripped comma-separated pieces |
| CgRmsdPredictor.StripSpacedName | BIN2/predict_cgRMSD.py:41 | `" C5'".strip()` is `"C5'"` |
| Tables.ColumnIndex | BIN/merge.py:37 | the position of the first column with a label, None exactly when there is no such column |
| MergeScores.NormalizeKey | BIN/merge.py:34 | the key is a suffix of the metrics name without `normalized_`; a name without `normalized_` is kept, and otherwise the key is what follows its last `normalized_` |
| MergeScores.NormalizeKeyIdempotent | BIN/merge.py:34 | normalising a key twice gives what normalising it once gives |
| MergeScores.NormalizeKeys | BIN/merge.py:34 | every metrics row keeps its cells and has its key normalised |
| MergeScores.MatchRowHolds | BIN/merge.py:37 | the merged rows for one RSSD row are that row joined with each metrics row with the same key |
| MergeScores.InnerJoinHolds | BIN/merge.py:37 | a merged row exists exactly for a pair of an RSSD row and a metrics row whose keys agree, and it is the RSSD row followed by the metrics cells other than the key |
| MergeScores.MergeMetricsAndRssd | BIN/merge.py:15-40 | the merge succeeds iff the metrics file has four columns and the RSSD table a "file" column; the columns are the RSSD ones then RMSD, MCQ, TM-score; the rows are exactly the joined pairs whose RSSD file equals the normalised metrics key |
| MergeScores.MergedRows | BIN/merge.py:37 | a row is merged exactly when it joins an RSSD row and a metrics row whose normalised key equals that RSSD row's `file` cell, and every merged row has one cell per merged column |
| MergeScores.MergeNamesFollowStructureId | BIN/merge.py:57-63 | for any id without `/` or `rssd_` (dots included), `rssd_<id>.csv` has structure id `<id>`, and is merged with `data/SCORES/<id>.csv` into `project/MERGING/merged_<id>.csv` |
| MergeScores.MergeFolder | BIN/merge.py:53-72 | the loop returns what `MergeAll` specifies: non-CSV entries and structures without a metrics file are skipped, and a read or merge that raises ends the script |
| MergeScores.MergeAbortStays | BIN/merge.py:72 | nothing catches an exception from a merge, so no later file is merged |
| MergeScores.MergeStepSkips | BIN/merge.py:55-68 | an iteration on a non-CSV entry, or on a structure without a metrics file, leaves the run unchanged |
| MergeScores.MergeStepMerges | BIN/merge.py:55-72 | an iteration on a CSV entry with a metrics file that does not raise adds exactly that structure's merged file to the written paths |
| MergeScores.MergeStepWrites | BIN/merge.py:55-72 | one iteration that does not raise writes the merged file of its RSSD file exactly when that file is a CSV file with a metrics file |
| MergeScores.MergeWritesEveryMergeable | BIN/merge.py:53-72 | a missing metrics file skips that structure and the loop goes on: unless a merge raised, one `merged_<id>.csv` is written per RSSD file that has a metrics file, in listing order |
| CleanScores.Rename | BIN/clean.py:26 | `rename` relabels every column equal to the old label and keeps the others |
| CleanScores.CleanCell | BIN/clean.py:29 | cleaning never lengthens a value, and leaves a value without `normalized_` unchanged |
| CleanScores.CleanCellLength | BIN/clean.py:29 | cleaning shortens a value by exactly 11 per `normalized_` counted left to right without overlaps |
| CleanScores.CleanTable | BIN/clean.py:23-29 | cleaning fails on a table without columns, or when another column already has the first label or "Model"; otherwise the columns are "Model" then the others unchanged, and every row keeps its place and its other cells, with its first cell cleaned |
| CleanScores.CleanCellDropsPrefix | BIN/clean.py:29 | `normalized_<name>` is cleaned to `<name>` when `<name>` has no `normalized_` |
| CleanScores.CleanCellIsSinglePass | BIN/clean.py:29 | the single pass turns `normalnormalized_ized_` into `normalized_`, which still holds `normalized_` |
| CleanScores.ProcessFilesInDirectory | BIN/clean.py:4-36 | the loop returns what `CleanAll` specifies: each CSV entry is written under its own name in the clean folder, or reported when reading or cleaning it raises |
| CleanScores.CsvFiles | BIN/clean.py:18 | the entries processed are exactly the listed entries that end in `.csv` |
| CleanScores.CleanStepCounts | BIN/clean.py:18-36 | one iteration adds exactly one written table or one report for a CSV entry, and nothing for any other entry |
| CleanScores.CleanStepFailed | BIN/clean.py:18-36 | one iteration reports the CSV entry it reads exactly when reading or cleaning it raises, and reports nothing else |
| CleanScores.CleanStepWritten | BIN/clean.py:18-33 | one iteration writes the cleaned table of the CSV entry it reads, under its name in the clean folder, exactly when cleaning it does not raise, and writes nothing else |
| CleanScores.EveryCsvFileIsHandled | BIN/clean.py:17-36 | the tables written and the files reported together number exactly the CSV entries |
| CleanScores.EachCsvFileGetsItsOutcome | BIN/clean.py:17-36 | the `except` keeps the loop going: each CSV entry, whatever happened before it, is reported exactly when reading or cleaning it raises, and otherwise its own cleaned table is written under its name |
| CleanScores.OnlyCsvFilesFail | BIN/clean.py:18-36 | only CSV entries of the folder whose reading or cleaning raises are ever reported |
| CleanScores.WrittenAreCleanedCsvFiles | BIN/clean.py:18-33 | every written file is the cleaned table of a CSV entry of the folder whose cleaning did not raise, written under that entry's name in the clean folder, with "Model" as its first column |

## Left out

- The superposition `Rotation.align_vectors` is an uninterpreted `Aligner`. Nothing is claimed about optimality, invariance or the floating-point value of the residual.
- `float()` is an uninterpreted `FloatParser`. Only `RejectsEmpty`, "`float("")` raises", is assumed, and only where stated.
- Scores are exact `real`s, so floating-point rounding in the division by `n` is not modelled.
- `plot_points` is a `Plotter` that succeeds or raises. The figure itself is not modelled.
- `print` output, `input` prompts, `ensure_dir_exists` and `os.makedirs` are not modelled. In `RSSD.py` this includes the output directory and the plot folder (lines 94-95); in `merge.py` and `clean.py` it includes the output folders.
- Writing a CSV file is modelled as always succeeding.
- Reading is a parameter that returns the file's content or None. In `ProcessPdbFolder` it is indexed by the entry name, and `os.path.join(predicted_folder, pdb_file)` is left to that parameter.
- The outer loop over native files in `RSSD.py` (lines 157-171) is not modelled as a loop, and neither is its check that the predicted folder exists. The names it derives are modelled by `RssdBatch.NativeJob`.
- The CSV text format of the RSSD rows (`csv.DictWriter`) is not modelled. Rows are `Entry` values.
- The dataframes of `merge.py` and `clean.py` are local objects that the scripts update in place. The model treats them as `Table` values: no aliasing exists to lose.
- Pandas dtypes are not modelled: every cell is text. A `.str` accessor raising on a non-text first column, NaN cells, and `read_csv` renaming duplicate labels are left out.
- MergeScores.MergeMetricsAndRssd: states which rows the inner join keeps, not their order or how often each appears. It also omits pandas' `_x`/`_y` suffixes for column labels shared by both tables.
- MergeScores.MergeFolder: `os.listdir` raising on a missing RSSD folder is not modelled; the listing is a parameter.
- CleanScores.CleanTable: a table that `read_csv` rejects is a read failure (None). `to_csv` failing inside the `try` is not modelled.
- RssdBatch.SelectorFromInput: Python's `lower()` is modelled on ASCII letters only. No other character lowercases to `a` or `l`, so the verdict for "all" is the same.
- `BIN/my_custom_rmsd.py`, `BIN/merged.py`, `BIN2/main_all.py`, the correlation scripts and `BIN/setup.py` are not part of this model.

## Notes

- The atom selector differs between two scripts:
  - `RSSD.py` (line 154) splits the names on commas and does not strip them, so `"P, C5'"` never selects C5' atoms (`RssdBatch.SpaceAfterCommaDropsName`);
  - `predict_cgRMSD.py` (line 41) strips every piece, so the same input does select them (`CgRmsdPredictor.StrippedNamesKeepSpacedName`).
- `clean.py` and `merge.py` reduce model names differently:
  - `clean.py` removes `normalized_` in one pass;
  - `merge.py` keeps what follows the last `normalized_`;
  - they agree on `normalized_<name>` (`CleanScores.CleanCellDropsPrefix`, `MergeScores.NormalizeKey`) but not on `normalnormalized_ized_` (`CleanScores.CleanCellIsSinglePass`).
- With zero points, `compute_rmsd` divides by zero. Before that, scipy rejects the `(0,)`-shaped arrays of an empty extraction. The model returns `NoPoints` there, and `predict` never reaches that case, because of its empty-parse guard.
