/**
 * `YBSNowScraper._clean_df`: normalise the header labels, drop the columns
 * whose cells are all missing, and strip the cells of text (`object`) columns.
 */
module Cleaning {
  import opened Wrappers
  import opened Strings
  import opened Frames

  /** One header label after `str(c).strip().replace("\n", " ")`. */
  function NormalizeHeader(h: string): string
  {
    ReplaceNewlines(Strip(h))
  }

  /**
   * A normalised label is the stripped label with every line break turned
   * into a space; it has no line break and no whitespace at either end; and
   * a label that is already normal is left as it is.
   */
  lemma NormalizeHeaderFacts(h: string)
    ensures var r, s := NormalizeHeader(h), Strip(h);
      && |r| == |s|
      && (forall i | 0 <= i < |s| :: r[i] == (if s[i] == '\n' then ' ' else s[i]))
      && '\n' !in r && NoEdgeSpace(r)
      && ('\n' !in h && NoEdgeSpace(h) ==> r == h)
  {
    var s := Strip(h);
    var r := ReplaceNewlines(s);
    if r != [] {
      assert !IsSpace(s[0]) && !IsSpace(s[|s| - 1]);
      assert r[0] == s[0] && r[|r| - 1] == s[|s| - 1];
    }
    if '\n' !in h && NoEdgeSpace(h) {
      assert s == h;
      assert forall i | 0 <= i < |s| :: r[i] == s[i];
    }
  }

  /** A column with its label normalised and its kind and cells untouched. */
  function Renamed(c: Column): Column
  {
    Column(NormalizeHeader(c.name), c.isText, c.cells)
  }

  /** The assignment to `df.columns`: every label normalised, nothing else touched. */
  function RenameColumns(cols: seq<Column>): (r: seq<Column>)
    ensures |r| == |cols|
  {
    if cols == [] then [] else [Renamed(cols[0])] + RenameColumns(cols[1..])
  }

  /** The positions of the columns that are not all missing, left to right. */
  function KeptIndices(cols: seq<Column>): (ks: seq<nat>)
    ensures forall k | 0 <= k < |ks| :: ks[k] < |cols|
    ensures forall k, l | 0 <= k < l < |ks| :: ks[k] < ks[l]
    ensures forall i | 0 <= i < |cols| :: i in ks <==> !AllNull(cols[i].cells)
  {
    if cols == [] then []
    else
      var n := |cols| - 1;
      KeptIndices(cols[..n]) + (if AllNull(cols[n].cells) then [] else [n])
  }

  /** `df.dropna(axis=1, how="all")`: the columns that are not all missing, in their order. */
  function DropEmpty(cols: seq<Column>): seq<Column>
  {
    if cols == [] then []
    else
      var n := |cols| - 1;
      DropEmpty(cols[..n]) + (if AllNull(cols[n].cells) then [] else [cols[n]])
  }

  /** `str(v).strip()` for a cell of an `object` column: pandas renders a missing value as "nan". */
  function TrimCell(c: Cell): (r: Cell)
    ensures r.Text? && NoEdgeSpace(r.s)
    ensures c.Null? ==> r.s == "nan"
    ensures c.Text? ==> r.s == Strip(c.s)
    ensures c.Other? ==> r.s == Strip(c.shown)
  {
    match c
    case Null => Text("nan")
    case Text(s) => Text(Strip(s))
    case Other(shown) => Text(Strip(shown))
  }

  /** `.astype(str).str.strip()` over a column's cells. */
  function TrimCells(cells: seq<Cell>): (r: seq<Cell>)
    ensures |r| == |cells|
  {
    if cells == [] then [] else [TrimCell(cells[0])] + TrimCells(cells[1..])
  }

  /** `df[col] = df[col].astype(str).str.strip()` when the column is `object`; otherwise the column unchanged. */
  function TrimColumn(col: Column): Column
  {
    if col.isText then col.(cells := TrimCells(col.cells)) else col
  }

  /** `TrimColumn` applied to every column. */
  function TrimColumns(cols: seq<Column>): (r: seq<Column>)
    ensures |r| == |cols|
  {
    if cols == [] then [] else [TrimColumn(cols[0])] + TrimColumns(cols[1..])
  }

  /** Some label names two columns. */
  predicate HasDuplicateNames(cols: seq<Column>)
  {
    exists i, j | 0 <= i < j < |cols| :: cols[i].name == cols[j].name
  }

  /** What the stripping loop makes of the kept columns, or the error it raises. */
  function StripSpec(kept: seq<Column>): Result<seq<Column>, ScrapeError>
  {
    if HasDuplicateNames(kept) then Failure(DuplicateColumnLabel) else Success(TrimColumns(kept))
  }

  /** What `_clean_df` returns for `df`, or the error it raises. */
  function CleanSpec(df: Frame): Result<Frame, ScrapeError>
  {
    match StripSpec(DropEmpty(RenameColumns(df.columns)))
    case Success(cols) => Success(Frame(cols, df.rows))
    case Failure(e) => Failure(e)
  }

  /**
   * `_clean_df` as the script runs it: reassign the labels, drop the empty
   * columns, then run the stripping loop.
   */
  method CleanFrame(df: Frame) returns (r: Result<Frame, ScrapeError>)
    ensures r == CleanSpec(df)
  {
    var cols := RenameColumns(df.columns);
    cols := DropEmpty(cols);
    var stripped := StripTextColumns(cols);
    match stripped
    case Success(cs) => r := Success(Frame(cs, df.rows));
    case Failure(e) => r := Failure(e);
  }

  /**
   * The `for col in df.columns` loop: overwrite each `object` column in place
   * with its stripped text. Looking up a label that two columns share yields
   * a DataFrame rather than a Series, and reading its `.dtype` raises.
   */
  method StripTextColumns(kept: seq<Column>) returns (r: Result<seq<Column>, ScrapeError>)
    ensures r == StripSpec(kept)
  {
    var cols := kept;
    for i := 0 to |cols|
      invariant |cols| == |kept|
      invariant forall k | 0 <= k < |kept| :: cols[k] == if k < i then TrimColumn(kept[k]) else kept[k]
      invariant forall k | 0 <= k < |kept| :: cols[k].name == kept[k].name
      invariant forall k | 0 <= k < i :: UniqueAt(kept, k)
    {
      if !UniqueAt(cols, i) {
        DuplicateWitness(kept, i);
        return Failure(DuplicateColumnLabel);
      }
      if cols[i].isText {
        cols := cols[i := TrimColumn(cols[i])];
      }
    }
    NoDuplicates(kept);
    TrimColumnsAt(kept);
    assert cols == TrimColumns(kept);
    r := Success(cols);
  }

  /** No other column carries the label of column `i`. */
  predicate UniqueAt(cols: seq<Column>, i: int)
    requires 0 <= i < |cols|
  {
    forall j | 0 <= j < |cols| && j != i :: cols[j].name != cols[i].name
  }

  lemma DuplicateWitness(cols: seq<Column>, i: int)
    requires 0 <= i < |cols| && !UniqueAt(cols, i)
    ensures HasDuplicateNames(cols)
  {
    var j :| 0 <= j < |cols| && j != i && cols[j].name == cols[i].name;
    if j < i { assert cols[j].name == cols[i].name; } else { assert cols[i].name == cols[j].name; }
  }

  lemma NoDuplicates(cols: seq<Column>)
    requires forall k | 0 <= k < |cols| :: UniqueAt(cols, k)
    ensures !HasDuplicateNames(cols)
  {
    forall i, j | 0 <= i < j < |cols| ensures cols[i].name != cols[j].name {
      assert UniqueAt(cols, i);
    }
  }

  lemma {:induction false} TrimColumnsAt(cols: seq<Column>)
    ensures forall k | 0 <= k < |cols| :: TrimColumns(cols)[k] == TrimColumn(cols[k])
  {
    if cols != [] {
      TrimColumnsAt(cols[1..]);
    }
  }
}
