/** The coordinate extractor `parse_pdb`: the ATOM records of a PDB file
    (columns 13-16 the atom name, 31-38, 39-46 and 47-54 the x, y and z
    coordinates) filtered by an atom selector, one point per selected record,
    in file order. A file is the sequence of its lines as Python's iteration
    over an open file yields them. */
module PdbParse {
  import opened Types
  import opened PyStr

  /** The `(atom_names, all_atoms)` pair: `atomNames` is None for Python's
      None, otherwise the names (a list or a set: only membership and
      emptiness matter). */
  datatype Selector = Selector(atomNames: Option<set<string>>, allAtoms: bool)

  predicate IsAtomRecord(line: string)
  {
    StartsWith(line, "ATOM")
  }

  /** `line[12:16].strip()`. */
  function AtomName(line: string): string
  {
    Strip(Slice(line, 12, 16))
  }

  /** `all_atoms or (atom_names and current_atom in atom_names)`. */
  predicate Selects(sel: Selector, name: string)
  {
    sel.allAtoms || (sel.atomNames.Some? && sel.atomNames.value != {} && name in sel.atomNames.value)
  }

  /** The line is an ATOM record whose atom name the selector accepts. */
  predicate Contributes(sel: Selector, line: string)
  {
    IsAtomRecord(line) && Selects(sel, AtomName(line))
  }

  /** The three coordinate fields, stripped, in the order x, y, z. */
  function CoordinateFields(line: string): seq<string>
  {
    [Strip(Slice(line, 30, 38)), Strip(Slice(line, 38, 46)), Strip(Slice(line, 46, 54))]
  }

  /** The point a contributing line yields; None where one `float()` raises. */
  function ParsePoint(line: string, parseFloat: FloatParser): (r: Option<Point>)
    ensures r.None? <==> exists k :: 0 <= k < 3 && parseFloat(CoordinateFields(line)[k]).None?
    ensures r.Some? ==>
      [Some(r.value.x), Some(r.value.y), Some(r.value.z)] ==
      [parseFloat(CoordinateFields(line)[0]), parseFloat(CoordinateFields(line)[1]), parseFloat(CoordinateFields(line)[2])]
  {
    var f := CoordinateFields(line);
    match (parseFloat(f[0]), parseFloat(f[1]), parseFloat(f[2]))
    case (Some(x), Some(y), Some(z)) => Some(Point(x, y, z))
    case _ => None
  }

  /** The result of `parse_pdb` on the lines read so far: None once a
      contributing line failed to parse (the exception ends the call). */
  function Extract(lines: seq<string>, sel: Selector, parseFloat: FloatParser): Option<seq<Point>>
    decreases |lines|
  {
    if lines == [] then Some([])
    else
      var last := lines[|lines| - 1];
      match Extract(lines[..|lines| - 1], sel, parseFloat)
      case None => None
      case Some(pts) =>
        if !Contributes(sel, last) then Some(pts)
        else match ParsePoint(last, parseFloat)
          case None => None
          case Some(p) => Some(pts + [p])
  }

  /** `parse_pdb` on a file that may not open: None where `open` raises. */
  function ParseFile(file: Option<seq<string>>, sel: Selector, parseFloat: FloatParser): Option<seq<Point>>
  {
    match file
    case None => None
    case Some(lines) => Extract(lines, sel, parseFloat)
  }

  /** The lines that contribute a point, in file order. */
  function ContributingLines(lines: seq<string>, sel: Selector): (c: seq<string>)
    ensures |c| <= |lines|
    ensures forall k :: 0 <= k < |c| ==> Contributes(sel, c[k]) && c[k] in lines
    decreases |lines|
  {
    if lines == [] then []
    else
      var last := lines[|lines| - 1];
      var c := ContributingLines(lines[..|lines| - 1], sel);
      if Contributes(sel, last) then c + [last] else c
  }

  /** The ATOM records of the file, in file order. */
  function AtomLines(lines: seq<string>): seq<string>
    decreases |lines|
  {
    if lines == [] then []
    else
      var last := lines[|lines| - 1];
      var c := AtomLines(lines[..|lines| - 1]);
      if IsAtomRecord(last) then c + [last] else c
  }

  /** One more line read: the extraction so far, extended by that line. */
  lemma {:induction false} ExtractSnoc(init: seq<string>, line: string, sel: Selector, parseFloat: FloatParser)
    ensures Extract(init + [line], sel, parseFloat) ==
      match Extract(init, sel, parseFloat)
      case None => None
      case Some(pts) =>
        if !Contributes(sel, line) then Some(pts)
        else match ParsePoint(line, parseFloat)
          case None => None
          case Some(p) => Some(pts + [p])
  {
    assert (init + [line])[..|init|] == init;
  }

  /** Once a contributing line has failed, the whole file fails: the
      exception is not caught inside `parse_pdb`. */
  lemma {:induction false} ExtractFailurePersists(lines: seq<string>, j: nat, sel: Selector, parseFloat: FloatParser)
    requires j <= |lines| && Extract(lines[..j], sel, parseFloat).None?
    ensures Extract(lines, sel, parseFloat).None?
    decreases |lines|
  {
    if j < |lines| {
      var init := lines[..|lines| - 1];
      assert init[..j] == lines[..j];
      ExtractFailurePersists(init, j, sel, parseFloat);
    } else {
      assert lines[..j] == lines;
    }
  }

  /** `parse_pdb(pdb_file, atom_names, all_atoms)` on the lines of an open
      file: a loop that appends one point per contributing line and stops at
      the first coordinate field `float()` rejects. */
  method ParsePdb(lines: seq<string>, sel: Selector, parseFloat: FloatParser)
    returns (atoms: Option<seq<Point>>)
    ensures atoms == Extract(lines, sel, parseFloat)
  {
    var acc: seq<Point> := [];
    for i := 0 to |lines|
      invariant Extract(lines[..i], sel, parseFloat) == Some(acc)
    {
      var line := lines[i];
      ExtractSnoc(lines[..i], line, sel, parseFloat);
      assert lines[..i] + [line] == lines[..i + 1];
      if StartsWith(line, "ATOM") {
        var currentAtom := Strip(Slice(line, 12, 16));
        if sel.allAtoms || (sel.atomNames.Some? && sel.atomNames.value != {} && currentAtom in sel.atomNames.value) {
          var x := parseFloat(Strip(Slice(line, 30, 38)));
          if x.None? {
            ExtractFailurePersists(lines, i + 1, sel, parseFloat);
            return None;
          }
          var y := parseFloat(Strip(Slice(line, 38, 46)));
          if y.None? {
            ExtractFailurePersists(lines, i + 1, sel, parseFloat);
            return None;
          }
          var z := parseFloat(Strip(Slice(line, 46, 54)));
          if z.None? {
            ExtractFailurePersists(lines, i + 1, sel, parseFloat);
            return None;
          }
          acc := acc + [Point(x.value, y.value, z.value)];
        }
      }
    }
    assert lines[..|lines|] == lines;
    return Some(acc);
  }

  /** Parse every given line into a point with `parse`, in order; None if
      one fails. */
  function ParseEach(c: seq<string>, parse: string -> Option<Point>): (r: Option<seq<Point>>)
    ensures r.Some? <==> forall k :: 0 <= k < |c| ==> parse(c[k]).Some?
    ensures r.Some? ==> |r.value| == |c| && forall k :: 0 <= k < |c| ==> Some(r.value[k]) == parse(c[k])
    decreases |c|
  {
    if c == [] then Some([])
    else
      match ParseEach(c[..|c| - 1], parse)
      case None => None
      case Some(pts) =>
        match parse(c[|c| - 1])
        case None => None
        case Some(p) => Some(pts + [p])
  }

  /** The extraction is the parse of the contributing lines and of nothing
      else: it succeeds exactly when every contributing line parses, and then
      holds one point per contributing line, in file order. */
  lemma {:induction false} ExtractParsesContributingLines(lines: seq<string>, sel: Selector, parseFloat: FloatParser)
    ensures Extract(lines, sel, parseFloat) ==
      ParseEach(ContributingLines(lines, sel), line => ParsePoint(line, parseFloat))
    decreases |lines|
  {
    var parse := line => ParsePoint(line, parseFloat);
    if lines != [] {
      var init := lines[..|lines| - 1];
      var last := lines[|lines| - 1];
      ExtractParsesContributingLines(init, sel, parseFloat);
      var ci := ContributingLines(init, sel);
      if Contributes(sel, last) {
        assert ContributingLines(lines, sel) == ci + [last];
        ParseEachSnoc(ci, last, parse);
        assert parse(last) == ParsePoint(last, parseFloat);
      } else {
        assert ContributingLines(lines, sel) == ci;
      }
    }
  }

  /** Parsing one more line extends the parse of the lines before it. */
  lemma {:induction false} ParseEachSnoc(c: seq<string>, line: string, parse: string -> Option<Point>)
    ensures ParseEach(c + [line], parse) ==
      match ParseEach(c, parse)
      case None => None
      case Some(pts) =>
        match parse(line)
        case None => None
        case Some(p) => Some(pts + [p])
  {
    assert (c + [line])[..|c|] == c;
  }

  /** With `all_atoms`, every ATOM record contributes, whatever the names. */
  lemma {:induction false} AllAtomsTakesEveryAtomRecord(lines: seq<string>, sel: Selector)
    requires sel.allAtoms
    ensures ContributingLines(lines, sel) == AtomLines(lines)
    decreases |lines|
  {
    if lines != [] {
      AllAtomsTakesEveryAtomRecord(lines[..|lines| - 1], sel);
    }
  }

  /** Only ATOM records contribute, so at most one point per ATOM record. */
  lemma {:induction false} ContributingAreAtomRecords(lines: seq<string>, sel: Selector)
    ensures |ContributingLines(lines, sel)| <= |AtomLines(lines)|
    decreases |lines|
  {
    if lines != [] {
      ContributingAreAtomRecords(lines[..|lines| - 1], sel);
    }
  }

  /** Without `all_atoms` and with no names (None or empty), nothing is
      selected, and the result is empty rather than an error. */
  lemma {:induction false} NoNamesYieldsEmpty(lines: seq<string>, sel: Selector, parseFloat: FloatParser)
    requires !sel.allAtoms && (sel.atomNames.None? || sel.atomNames.value == {})
    ensures Extract(lines, sel, parseFloat) == Some([])
    decreases |lines|
  {
    if lines != [] {
      NoNamesYieldsEmpty(lines[..|lines| - 1], sel, parseFloat);
    }
  }

  /** A file without a contributing line yields an empty result, not an error. */
  lemma {:induction false} NoContributingLineYieldsEmpty(lines: seq<string>, sel: Selector, parseFloat: FloatParser)
    requires forall k :: 0 <= k < |lines| ==> !Contributes(sel, lines[k])
    ensures Extract(lines, sel, parseFloat) == Some([])
    decreases |lines|
  {
    if lines != [] {
      NoContributingLineYieldsEmpty(lines[..|lines| - 1], sel, parseFloat);
    }
  }

  /** A contributing line too short to reach column 31 has an empty x field,
      and `float("")` raising makes the whole extraction fail. */
  lemma {:induction false} ShortContributingLineFails(lines: seq<string>, sel: Selector, parseFloat: FloatParser, k: nat)
    requires RejectsEmpty(parseFloat)
    requires k < |lines| && Contributes(sel, lines[k]) && |lines[k]| <= 30
    ensures Extract(lines, sel, parseFloat) == None
  {
    ShortLineFails(lines[k], parseFloat);
    FailingLineFails(lines, k, sel, parseFloat);
    ExtractFailurePersists(lines, k + 1, sel, parseFloat);
  }

  /** A contributing line that does not parse makes the lines read up to it fail. */
  lemma {:induction false} FailingLineFails(lines: seq<string>, k: nat, sel: Selector, parseFloat: FloatParser)
    requires k < |lines| && Contributes(sel, lines[k]) && ParsePoint(lines[k], parseFloat).None?
    ensures Extract(lines[..k + 1], sel, parseFloat).None?
  {
    var upTo := lines[..k + 1];
    assert upTo[|upTo| - 1] == lines[k];
  }

  lemma {:induction false} ShortLineFails(line: string, parseFloat: FloatParser)
    requires RejectsEmpty(parseFloat) && |line| <= 30
    ensures ParsePoint(line, parseFloat).None?
  {
    assert Slice(line, 30, 38) == "";
    assert CoordinateFields(line)[0] == "";
  }

  /** Every contributing line of the file appears among the contributing lines. */
  lemma {:induction false} ContributingLineIsListed(lines: seq<string>, sel: Selector, k: nat)
    requires k < |lines| && Contributes(sel, lines[k])
    ensures lines[k] in ContributingLines(lines, sel)
    decreases |lines|
  {
    if k < |lines| - 1 {
      ContributingLineIsListed(lines[..|lines| - 1], sel, k);
    }
  }

  /** The atom name is the stripped slice of columns 13-16: at most four
      characters, without surrounding whitespace, empty on a line of 12
      characters or fewer. */
  lemma {:induction false} AtomNameShape(line: string)
    ensures |AtomName(line)| <= 4
    ensures AtomName(line) == [] || (!IsSpace(AtomName(line)[0]) && !IsSpace(AtomName(line)[|AtomName(line)| - 1]))
    ensures |line| <= 12 ==> AtomName(line) == ""
  {
  }
}
