/**
 * The in-place column operations the mappers apply to a capacity table, one
 * row at a time, as pandas does: a column is an array of cells.
 */
module Columns {
  import opened Wrappers
  import opened Cells
  import opened Estimates

  /** `table[new] = table[col].replace(0, np.nan)`: a new column. */
  method ZeroToMissingColumn(src: seq<Cell>) returns (col: array<Cell>)
    ensures fresh(col) && col.Length == |src|
    ensures forall k :: 0 <= k < |src| ==> col[k] == ZeroToMissing(src[k])
  {
    col := new Cell[|src|];
    for i := 0 to |src|
      invariant forall k :: 0 <= k < i ==> col[k] == ZeroToMissing(src[k])
    {
      col[i] := ZeroToMissing(src[i]);
    }
  }

  /** `col.replace(0, np.nan, inplace=True)`. */
  method ZeroToMissingInPlace(col: array<Cell>)
    modifies col
    ensures forall k :: 0 <= k < col.Length ==> col[k] == ZeroToMissing(old(col[k]))
  {
    for i := 0 to col.Length
      invariant forall k :: 0 <= k < i ==> col[k] == ZeroToMissing(old(col[k]))
      invariant forall k :: i <= k < col.Length ==> col[k] == old(col[k])
    {
      col[i] := ZeroToMissing(col[i]);
    }
  }

  /** `col.fillna(other, inplace=True)`. */
  method FillMissingInPlace(col: array<Cell>, other: seq<Cell>)
    requires |other| == col.Length
    modifies col
    ensures forall k :: 0 <= k < col.Length ==> col[k] == FillMissing(old(col[k]), other[k])
  {
    for i := 0 to col.Length
      invariant forall k :: 0 <= k < i ==> col[k] == FillMissing(old(col[k]), other[k])
      invariant forall k :: i <= k < col.Length ==> col[k] == old(col[k])
    {
      col[i] := FillMissing(col[i], other[i]);
    }
  }

  /** `table[col] = table[col] + table[other]`. */
  method AddInPlace(col: array<Cell>, other: seq<Cell>)
    requires |other| == col.Length
    modifies col
    ensures forall k :: 0 <= k < col.Length ==> col[k] == Add(old(col[k]), other[k])
  {
    for i := 0 to col.Length
      invariant forall k :: 0 <= k < i ==> col[k] == Add(old(col[k]), other[k])
      invariant forall k :: i <= k < col.Length ==> col[k] == old(col[k])
    {
      col[i] := Add(col[i], other[i]);
    }
  }

  /** The part of `table.fillna(0, inplace=True)` that touches one column. */
  method ZeroFillInPlace(col: array<Cell>)
    modifies col
    ensures forall k :: 0 <= k < col.Length ==> col[k] == Some(ZeroFill(old(col[k])))
  {
    for i := 0 to col.Length
      invariant forall k :: 0 <= k < i ==> col[k] == Some(ZeroFill(old(col[k])))
      invariant forall k :: i <= k < col.Length ==> col[k] == old(col[k])
    {
      col[i] := Some(ZeroFill(col[i]));
    }
  }

  /** `table[[a, b, c]].sum(axis=1)`: a new column of row sums that skip missing cells. */
  method RowSums(a: seq<Cell>, b: seq<Cell>, c: seq<Cell>) returns (col: array<Cell>)
    requires |a| == |b| == |c|
    ensures fresh(col) && col.Length == |a|
    ensures forall k :: 0 <= k < |a| ==> col[k] == Some(SumSkipMissing([a[k], b[k], c[k]]))
  {
    col := new Cell[|a|];
    for i := 0 to |a|
      invariant forall k :: 0 <= k < i ==> col[k] == Some(SumSkipMissing([a[k], b[k], c[k]]))
    {
      col[i] := Some(SumSkipMissing([a[i], b[i], c[i]]));
    }
  }

  /**
   * The two statements that build every estimate column: the primary column
   * with zeros replaced by NaN, then filled from the secondary column.
   */
  method ResolvedColumn(primary: seq<Cell>, secondary: seq<Cell>) returns (col: array<Cell>)
    requires |primary| == |secondary|
    ensures fresh(col) && col.Length == |primary|
    ensures forall k :: 0 <= k < |primary| ==> col[k] == Resolve(primary[k], secondary[k])
  {
    col := ZeroToMissingColumn(primary);
    FillMissingInPlace(col, secondary);
  }

  /**
   * The cross-tier fill over three scenario columns: zeros in neutral and
   * optimistic become NaN, neutral is filled from conservative, then
   * optimistic from neutral.
   */
  method CrossFillColumns(cons: array<Cell>, neu: array<Cell>, opt: array<Cell>)
    requires cons.Length == neu.Length == opt.Length
    requires cons != neu && cons != opt && neu != opt
    modifies neu, opt
    ensures forall k :: 0 <= k < cons.Length ==>
              TierCells(cons[k], neu[k], opt[k]) ==
              CrossFill(TierCells(old(cons[k]), old(neu[k]), old(opt[k])))
  {
    ZeroToMissingInPlace(neu);
    ZeroToMissingInPlace(opt);
    FillMissingInPlace(neu, cons[..]);
    FillMissingInPlace(opt, neu[..]);
  }
}
