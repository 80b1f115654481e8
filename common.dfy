/** Shared entities of the contact-sheet generator: the error taxonomy, the
    grid shape, a captured frame, and the default values the program uses. */
module Common {

  datatype Option<+T> = None | Some(value: T)

  /** The program's error taxonomy. `Panic` is not one of the program's
      errors: it marks the places where the program aborts the thread
      (an `unwrap` or an integer underflow) instead of returning one. */
  datatype Error =
    | ArgumentError(message: string)
    | ColourError(message: string)
    | GridShape
    | IoError(message: string)
    | MediaError
    | TimestampError(message: string)
    | VideoStreamError
    | Panic(site: string)

  datatype Result<+T> = Ok(value: T) | Err(error: Error)

  /** A grid shape: `x` columns by `y` rows, or a cell size `x` by `y` pixels. */
  datatype Grid = Grid(x: nat, y: nat)

  /** A captured frame. Seconds and scores are exact reals; the program's
      `f32` rounding is not modelled. */
  datatype Frame = Frame(avgColour: real, blurriness: real, filename: string, timestamp: real)

  const U32_MAX: nat := 0xFFFF_FFFF

  const DEFAULT_ACCURATE_DELAY_SECONDS: real := 1.0
  const DEFAULT_CONTACT_SHEET_WIDTH: nat := 1500
  const DEFAULT_CAPTURE_ALPHA: nat := 255
  const DEFAULT_GRID_HORIZONTAL_SPACING: nat := 5
  const DEFAULT_GRID_VERTICAL_SPACING: nat := DEFAULT_GRID_HORIZONTAL_SPACING
  const DEFAULT_GRID_SIZE: Grid := Grid(4, 4)
  const DEFAULT_METADATA_MARGIN: nat := 10
  /** The number of temporal groups the pipeline starts from before it is reconciled. */
  const INITIAL_NUM_GROUPS: nat := 5

  /** Floor division leaves less than one divisor over. */
  lemma DivBounds(a: nat, b: nat)
    requires b > 0
    ensures b * (a / b) <= a < b * (a / b) + b
  {
  }
}
