/**
 * The table values the scraper handles: a pandas DataFrame seen column by
 * column, and the ways handling one can fail.
 */
module Frames {

  /**
   * One cell. `Null` is pandas' missing value (NaN); `Text` is a Python
   * string; `Other` is any other value (number, date), carried only as the
   * text `str(value)` would give for it.
   */
  datatype Cell = Null | Text(s: string) | Other(shown: string)

  /** One column: its header label, whether its dtype is `object`, and its cells top to bottom. */
  datatype Column = Column(name: string, isText: bool, cells: seq<Cell>)

  /** A DataFrame: its columns left to right and its row count `len(df)`. */
  datatype Frame = Frame(columns: seq<Column>, rows: nat)

  /** Every column holds one cell per row. */
  predicate WellFormed(f: Frame)
  {
    forall k | 0 <= k < |f.columns| :: |f.columns[k].cells| == f.rows
  }

  /** Every cell is missing (vacuously so when there are no cells). */
  predicate AllNull(cells: seq<Cell>)
  {
    forall i | 0 <= i < |cells| :: cells[i].Null?
  }

  /** Why extracting the Orders table fails. */
  datatype ScrapeError =
    | TableParseFailed      // `pd.read_html` raised on a table a known selector matched
    | PageParseFailed       // `pd.read_html` raised something other than `ValueError` on the whole page
    | NoTablesFound         // no table at all in the page: "No HTML tables found on Orders page."
    | DuplicateColumnLabel  // two kept columns share a label, so `df[col].dtype` raises
}
