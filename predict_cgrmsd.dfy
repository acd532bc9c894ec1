/** `CustomCGRMSD`: a calculator configured once with an atom selection that
    scores a predicted structure against a native one with the
    mean-normalised metric, refusing files in which nothing is selected. */
module CgRmsdPredictor {
  import opened Types
  import opened PyStr
  import opened PdbParse
  import opened RmsdMetric

  /** Why `predict` raises. */
  datatype PredictError =
    | ParseFailed       // `parse_pdb` raised on one of the two files
    | NoAtoms           // "No atoms found in one or both PDB files."
    | Metric(error: MetricError)

  /** What `predict` computes with a given selector: both files parsed with
      that one selector (the native first), an empty parse on either side
      refused before any score is computed, and then only the score of
      `compute_cgRMSD`, the rotation being dropped. */
  function Prediction(sel: Selector, nativeFile: Option<seq<string>>, predictedFile: Option<seq<string>>,
                      parseFloat: FloatParser, align: Aligner): (r: Result<real, PredictError>)
    ensures r.Ok? ==>
      && ParseFile(nativeFile, sel, parseFloat).Some?
      && ParseFile(predictedFile, sel, parseFloat).Some?
      && var native := ParseFile(nativeFile, sel, parseFloat).value;
      && var predicted := ParseFile(predictedFile, sel, parseFloat).value;
      && native != [] && |predicted| == |native|
      && align(native, predicted).Some?
      && r.value * (|native| as real) == align(native, predicted).value.residual
    ensures ParseFile(nativeFile, sel, parseFloat).None? || ParseFile(predictedFile, sel, parseFloat).None? ==>
      r == Err(ParseFailed)
    ensures ParseFile(nativeFile, sel, parseFloat).Some? && ParseFile(predictedFile, sel, parseFloat).Some? &&
            (ParseFile(nativeFile, sel, parseFloat).value == [] || ParseFile(predictedFile, sel, parseFloat).value == []) ==>
      r == Err(NoAtoms)
    ensures ParseFile(nativeFile, sel, parseFloat).Some? && ParseFile(predictedFile, sel, parseFloat).Some? ==>
      var native := ParseFile(nativeFile, sel, parseFloat).value;
      var predicted := ParseFile(predictedFile, sel, parseFloat).value;
      native != [] && predicted != [] ==>
        && (|native| != |predicted| ==> r == Err(Metric(ShapeMismatch(ShapeOf(native), ShapeOf(predicted)))))
        && (|native| == |predicted| && align(native, predicted).None? ==> r == Err(Metric(AlignFailed)))
        && (|native| == |predicted| && align(native, predicted).Some? ==> r.Ok?)
  {
    match (ParseFile(nativeFile, sel, parseFloat), ParseFile(predictedFile, sel, parseFloat))
    case (None, _) => Err(ParseFailed)
    case (_, None) => Err(ParseFailed)
    case (Some(native), Some(predicted)) =>
      if native == [] || predicted == [] then Err(NoAtoms)
      else match ComputeRmsd(native, predicted, align)
        case Err(e) => Err(Metric(e))
        case Ok(scored) => Ok(scored.value)
  }

  /** A calculator given no atom names and not told to take all atoms
      selects nothing, so every prediction it makes raises. */
  lemma {:induction false} NoNamesAlwaysRaises(sel: Selector, nativeFile: Option<seq<string>>, predictedFile: Option<seq<string>>,
                            parseFloat: FloatParser, align: Aligner)
    requires sel.atomNames.None? && !sel.allAtoms
    ensures Prediction(sel, nativeFile, predictedFile, parseFloat, align).Err?
  {
    if nativeFile.Some? {
      NoNamesYieldsEmpty(nativeFile.value, sel, parseFloat);
    }
    if predictedFile.Some? {
      NoNamesYieldsEmpty(predictedFile.value, sel, parseFloat);
    }
  }

  /** The calculator's configuration, set by `__init__` and only read after. */
  class CustomCGRMSD {
    var atomNames: Option<set<string>>
    var allAtoms: bool

    /** `__init__(atom_names=None, all_atoms=False)`: the names are kept as a
        set when there are any, otherwise as None. */
    constructor (atomNames: Option<seq<string>> := None, allAtoms: bool := false)
      ensures this.atomNames.Some? <==> atomNames.Some? && atomNames.value != []
      ensures this.atomNames.Some? ==> forall name :: name in this.atomNames.value <==> name in atomNames.value
      ensures this.allAtoms == allAtoms
    {
      this.atomNames := if atomNames.Some? && atomNames.value != [] then Some(set name | name in atomNames.value) else None;
      this.allAtoms := allAtoms;
    }

    /** The selector both files are parsed with. */
    function CurrentSelector(): Selector
      reads this
    {
      Selector(atomNames, allAtoms)
    }

    /** `predict(native_path, predicted_path)`: changes nothing in the
        calculator and returns what `Prediction` gives for its selector. */
    method Predict(nativeFile: Option<seq<string>>, predictedFile: Option<seq<string>>,
                   parseFloat: FloatParser, align: Aligner)
      returns (r: Result<real, PredictError>)
      ensures r == Prediction(CurrentSelector(), nativeFile, predictedFile, parseFloat, align)
    {
      var sel := Selector(atomNames, allAtoms);
      if nativeFile.None? {
        return Err(ParseFailed);
      }
      var trueAtoms := ParsePdb(nativeFile.value, sel, parseFloat);
      if trueAtoms.None? {
        return Err(ParseFailed);
      }
      if predictedFile.None? {
        return Err(ParseFailed);
      }
      var predictedAtoms := ParsePdb(predictedFile.value, sel, parseFloat);
      if predictedAtoms.None? {
        return Err(ParseFailed);
      }
      if |trueAtoms.value| == 0 || |predictedAtoms.value| == 0 {
        return Err(NoAtoms);
      }
      var scored := ComputeRmsd(trueAtoms.value, predictedAtoms.value, align);
      if scored.Err? {
        return Err(Metric(scored.error));
      }
      return Ok(scored.value.value);
    }
  }

  /** `[atom.strip() for atom in atom_types_input.split(",")]`: the
      interactive selector, one stripped name per comma-separated piece. */
  function StrippedNames(input: string): (names: seq<string>)
    ensures |names| == |Split(input, ",")| && names != []
    ensures forall k :: 0 <= k < |names| ==> names[k] == Strip(Split(input, ",")[k])
    ensures forall k :: 0 <= k < |names| ==> names[k] == [] || (!IsSpace(names[k][0]) && !IsSpace(names[k][|names[k]| - 1]))
  {
    var pieces := Split(input, ",");
    seq(|pieces|, k requires 0 <= k < |pieces| => Strip(pieces[k]))
  }

  /** The selector of the interactive run: `CustomCGRMSD(atom_names=...)`
      built from the stripped names, with `all_atoms` left at its default. */
  function InteractiveSelector(input: string): (sel: Selector)
    ensures !sel.allAtoms && sel.atomNames.Some?
    ensures forall name :: name in sel.atomNames.value <==> name in StrippedNames(input)
  {
    Selector(Some(set name | name in StrippedNames(input)), false)
  }

  /** With stripped names, a piece written with spaces around it selects the
      atoms named by its stripped form: `"P, C5'"` selects both P and C5'
      atoms here. */
  lemma StrippedNamesKeepSpacedName()
    ensures Selects(InteractiveSelector("P, C5'"), "P")
    ensures Selects(InteractiveSelector("P, C5'"), "C5'")
  {
    SplitKeepsSpaceAfterComma();
    StripSpacedName();
    assert Strip("P") == "P" by {
      assert LeadingSpaces("P") == 0 && TrailingSpaces("P") == 0;
    }
    var names := StrippedNames("P, C5'");
    assert names[0] == "P" && names[1] == "C5'";
    assert "P" in names && "C5'" in names;
  }

  lemma StripSpacedName()
    ensures Strip(" C5'") == "C5'"
  {
    assert LeadingSpaces(" C5'") == 1;
    assert " C5'"[1..] == "C5'";
    assert TrailingSpaces("C5'") == 0;
  }
}
