/** The rows of the SCHEMATIC sheet as the classifier sees them: the
    "S.No" and "Description" cells, either of which may be empty. */
module Sheet {

  /** A spreadsheet cell: empty (pandas NaN) or holding text. */
  datatype Cell = Missing | Value(text: string)

  /** One checklist row. The incoming "D1" cell is not kept: the classifier
      overwrites that column before anything reads it. */
  datatype Row = Row(serial: Cell, description: Cell)

  /** Python's `str()` of a cell: an empty cell reads as "nan". */
  function Str(c: Cell): string
  {
    match c
    case Missing => "nan"
    case Value(t) => t
  }

  /** The columns the sheet must have before anything is classified. */
  const RequiredColumns: set<string> := {"S.No", "Description", "D1"}
}
