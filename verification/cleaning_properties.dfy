/** What `_clean_df` promises about the frame it returns. */
module CleaningProperties {
  import opened Wrappers
  import opened Strings
  import opened Frames
  import opened Cleaning

  lemma {:induction false} RenameColumnsAt(cols: seq<Column>)
    ensures forall k | 0 <= k < |cols| :: RenameColumns(cols)[k] == Renamed(cols[k])
  {
    if cols != [] {
      var tail := cols[1..];
      RenameColumnsAt(tail);
      var r := RenameColumns(cols);
      assert r == [Renamed(cols[0])] + RenameColumns(tail);
      forall k | 0 <= k < |cols| ensures r[k] == Renamed(cols[k]) {
        if k > 0 {
          assert r[k] == RenameColumns(tail)[k - 1];
          assert tail[k - 1] == cols[k];
        }
      }
    }
  }

  /** The dropped-to columns are exactly the columns at `KeptIndices`, in that order. */
  lemma {:induction false} DropEmptyAt(cols: seq<Column>)
    ensures |DropEmpty(cols)| == |KeptIndices(cols)|
    ensures forall k | 0 <= k < |KeptIndices(cols)| :: DropEmpty(cols)[k] == cols[KeptIndices(cols)[k]]
  {
    if cols != [] {
      var n := |cols| - 1;
      var front := cols[..n];
      DropEmptyAt(front);
      var d, ks := DropEmpty(front), KeptIndices(front);
      if AllNull(cols[n].cells) {
        assert DropEmpty(cols) == d && KeptIndices(cols) == ks;
        forall k | 0 <= k < |ks| ensures d[k] == cols[ks[k]] {
          assert d[k] == front[ks[k]];
        }
      } else {
        assert DropEmpty(cols) == d + [cols[n]] && KeptIndices(cols) == ks + [n];
        forall k | 0 <= k < |ks| + 1 ensures (d + [cols[n]])[k] == cols[(ks + [n])[k]] {
          if k < |ks| {
            assert d[k] == front[ks[k]];
          }
        }
      }
    }
  }

  /** Renaming the labels does not change which columns are all missing. */
  lemma {:induction false} KeptIndicesIgnoreNames(cols: seq<Column>)
    ensures KeptIndices(RenameColumns(cols)) == KeptIndices(cols)
  {
    if cols != [] {
      var n := |cols| - 1;
      RenameColumnsAt(cols);
      RenameColumnsAt(cols[..n]);
      assert RenameColumns(cols)[..n] == RenameColumns(cols[..n]);
      KeptIndicesIgnoreNames(cols[..n]);
    }
  }

  /** When no column is all missing, every column is kept. */
  lemma {:induction false} KeptIndicesAll(cols: seq<Column>)
    requires forall k | 0 <= k < |cols| :: !AllNull(cols[k].cells)
    ensures KeptIndices(cols) == seq(|cols|, k => k)
  {
    if cols != [] {
      var n := |cols| - 1;
      KeptIndicesAll(cols[..n]);
      assert !AllNull(cols[n].cells);
    }
  }

  /** The columns the stripping loop receives: the kept input columns, relabelled. */
  lemma KeptColumns(df: Frame)
    ensures var kept := DropEmpty(RenameColumns(df.columns));
            var ks := KeptIndices(df.columns);
      && |kept| == |ks|
      && forall k | 0 <= k < |ks| ::
           kept[k] == Renamed(df.columns[ks[k]])
  {
    var renamed := RenameColumns(df.columns);
    RenameColumnsAt(df.columns);
    KeptIndicesIgnoreNames(df.columns);
    DropEmptyAt(renamed);
  }

  lemma {:induction false} TrimCellsAt(cells: seq<Cell>)
    ensures forall i | 0 <= i < |cells| :: TrimCells(cells)[i] == TrimCell(cells[i])
  {
    if cells != [] {
      TrimCellsAt(cells[1..]);
    }
  }

  /**
   * Stripping a column keeps its label, its kind and its length; an `object`
   * column comes out as stripped text only; a column that was not all missing
   * still is not.
   */
  lemma TrimColumnFacts(c: Column)
    ensures TrimColumn(c).name == c.name && TrimColumn(c).isText == c.isText
    ensures |TrimColumn(c).cells| == |c.cells|
    ensures c.isText ==> forall i | 0 <= i < |c.cells| ::
      TrimColumn(c).cells[i].Text? && NoEdgeSpace(TrimColumn(c).cells[i].s)
    ensures !c.isText ==> TrimColumn(c) == c
    ensures !AllNull(c.cells) ==> !AllNull(TrimColumn(c).cells)
  {
    TrimCellsAt(c.cells);
    if !AllNull(c.cells) {
      var i :| 0 <= i < |c.cells| && !c.cells[i].Null?;
      assert !TrimColumn(c).cells[i].Null?;
    }
  }

  /**
   * The cleaned frame, column by column: with `ks` the positions of the
   * columns that are not all missing, the k-th cleaned column is the
   * `ks[k]`-th input column with its label normalised and, if it is an
   * `object` column, its cells stripped. The row count is unchanged.
   */
  lemma CleanColumns(df: Frame, f: Frame)
    requires CleanSpec(df) == Success(f)
    ensures f.rows == df.rows
    ensures var ks := KeptIndices(df.columns);
      && |f.columns| == |ks|
      && forall k | 0 <= k < |ks| ::
           f.columns[k] == TrimColumn(Renamed(df.columns[ks[k]]))
  {
    KeptColumns(df);
    TrimColumnsAt(DropEmpty(RenameColumns(df.columns)));
  }

  /** `_clean_df` raises exactly when two kept columns end up with the same normalised label. */
  lemma CleanFailsOnSharedLabel(df: Frame)
    ensures var ks := KeptIndices(df.columns);
      CleanSpec(df).Failure? <==>
        exists k, l | 0 <= k < l < |ks| ::
          NormalizeHeader(df.columns[ks[k]].name) == NormalizeHeader(df.columns[ks[l]].name)
    ensures CleanSpec(df).Failure? ==> CleanSpec(df).error == DuplicateColumnLabel
  {
    KeptColumns(df);
    var ks := KeptIndices(df.columns);
    var kept := DropEmpty(RenameColumns(df.columns));
    assert CleanSpec(df).Failure? <==> HasDuplicateNames(kept);
    if HasDuplicateNames(kept) {
      var k, l :| 0 <= k < l < |kept| && kept[k].name == kept[l].name;
      var nk, nl := NormalizeHeader(df.columns[ks[k]].name), NormalizeHeader(df.columns[ks[l]].name);
      assert kept[k].name == nk && kept[l].name == nl;
      assert nk == nl;
    } else {
      forall k, l | 0 <= k < l < |ks|
        ensures NormalizeHeader(df.columns[ks[k]].name) != NormalizeHeader(df.columns[ks[l]].name)
      {
        assert kept[k].name != kept[l].name;
      }
    }
  }

  /** Every cleaned label is trimmed and free of line breaks. */
  lemma CleanHeaders(df: Frame, f: Frame)
    requires CleanSpec(df) == Success(f)
    ensures forall k | 0 <= k < |f.columns| :: '\n' !in f.columns[k].name && NoEdgeSpace(f.columns[k].name)
  {
    CleanColumns(df, f);
    var ks := KeptIndices(df.columns);
    forall k | 0 <= k < |f.columns| ensures '\n' !in f.columns[k].name && NoEdgeSpace(f.columns[k].name) {
      var c := df.columns[ks[k]];
      NormalizeHeaderFacts(c.name);
      TrimColumnFacts(Renamed(c));
    }
  }

  /**
   * In the cleaned frame an `object` column holds only stripped text (a
   * missing cell became "nan"); no column is all missing; and a well-formed
   * frame stays well-formed.
   */
  lemma CleanCells(df: Frame, f: Frame)
    requires CleanSpec(df) == Success(f)
    ensures forall k, i | 0 <= k < |f.columns| && f.columns[k].isText && 0 <= i < |f.columns[k].cells| ::
      f.columns[k].cells[i].Text? && NoEdgeSpace(f.columns[k].cells[i].s)
    ensures forall k | 0 <= k < |f.columns| :: !AllNull(f.columns[k].cells)
    ensures WellFormed(df) ==> WellFormed(f)
  {
    CleanColumns(df, f);
    var ks := KeptIndices(df.columns);
    forall k | 0 <= k < |f.columns|
      ensures |f.columns[k].cells| == |df.columns[ks[k]].cells|
      ensures !AllNull(f.columns[k].cells)
      ensures f.columns[k].isText ==> forall i | 0 <= i < |f.columns[k].cells| ::
        f.columns[k].cells[i].Text? && NoEdgeSpace(f.columns[k].cells[i].s)
    {
      var c := df.columns[ks[k]];
      TrimColumnFacts(Renamed(c));
    }
  }

  /** Stripping an already stripped column changes nothing. */
  lemma TrimColumnIdempotent(c: Column)
    requires c.isText ==> forall i | 0 <= i < |c.cells| :: c.cells[i].Text? && NoEdgeSpace(c.cells[i].s)
    ensures TrimColumn(c) == c
  {
    if c.isText {
      TrimCellsAt(c.cells);
      assert TrimCells(c.cells) == c.cells;
    }
  }

  /** Cleaning a cleaned frame gives it back unchanged: same labels, same columns, same cells. */
  lemma CleanIdempotent(df: Frame, f: Frame)
    requires CleanSpec(df) == Success(f)
    ensures CleanSpec(f) == Success(f)
  {
    CleanHeaders(df, f);
    CleanCells(df, f);
    RenameFixed(f.columns);
    DropFixed(f.columns);
    CleanedLabelsDistinct(df, f);
    TrimColumnsAt(f.columns);
    forall k | 0 <= k < |f.columns| ensures TrimColumn(f.columns[k]) == f.columns[k] {
      TrimColumnIdempotent(f.columns[k]);
    }
    assert TrimColumns(f.columns) == f.columns;
  }

  lemma RenameFixed(cols: seq<Column>)
    requires forall k | 0 <= k < |cols| :: '\n' !in cols[k].name && NoEdgeSpace(cols[k].name)
    ensures RenameColumns(cols) == cols
  {
    RenameColumnsAt(cols);
    forall k | 0 <= k < |cols| ensures RenameColumns(cols)[k] == cols[k] {
      NormalizeHeaderFacts(cols[k].name);
    }
  }

  lemma DropFixed(cols: seq<Column>)
    requires forall k | 0 <= k < |cols| :: !AllNull(cols[k].cells)
    ensures DropEmpty(cols) == cols
  {
    KeptIndicesAll(cols);
    DropEmptyAt(cols);
  }

  lemma CleanedLabelsDistinct(df: Frame, f: Frame)
    requires CleanSpec(df) == Success(f)
    ensures !HasDuplicateNames(f.columns)
  {
    var kept := DropEmpty(RenameColumns(df.columns));
    assert !HasDuplicateNames(kept) && f.columns == TrimColumns(kept);
    TrimColumnsAt(kept);
    forall k | 0 <= k < |kept| ensures f.columns[k].name == kept[k].name {
      TrimColumnFacts(kept[k]);
    }
  }
}
