// The cell-type codes stored in byte 1 of a cell storage buffer. The TSTArchives codes come
// from the iWork table schema; the currency code is numbers-parser's own.

module CellTypes {
  const GenericCellType := 0
  const NumberCellType := 2
  const TextCellType := 3
  const DateCellType := 5
  const BoolCellType := 6
  const DurationCellType := 7
  const FormulaErrorCellType := 8
  const AutomaticCellType := 9
  /** The value type written for an empty cell; it coincides with GenericCellType. */
  const EmptyCellValueType := 0
  const CurrencyCellType := 10
}
