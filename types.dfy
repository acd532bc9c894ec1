/** Values shared by the coordinate extractor, the deviation metrics and the
    batch evaluator. */
module Types {

  datatype Option<+T> = None | Some(value: T)

  datatype Result<+T, +E> = Ok(value: T) | Err(error: E)

  /** One atom position, the `[x, y, z]` row that `parse_pdb` appends. */
  datatype Point = Point(x: real, y: real, z: real)

  /** The rotation object returned by the aligner; the model only carries it. */
  datatype Rotation = Rotation(matrix: seq<seq<real>>)

  /** What `Rotation.align_vectors` returns: a rotation and the residual. */
  datatype Alignment = Alignment(rotation: Rotation, residual: real)

  /** Python's `float()` on a coordinate field: None where it raises. */
  type FloatParser = string -> Option<real>

  /** scipy's `Rotation.align_vectors(native, predicted)`: None where it raises. */
  type Aligner = (seq<Point>, seq<Point>) -> Option<Alignment>

  /** `float("")` raises, whatever else the parser accepts. */
  predicate RejectsEmpty(parseFloat: FloatParser)
  {
    parseFloat("").None?
  }
}
