/**
 * Table cells and the row-wise pandas operations the capacity derivation is
 * built from. A numeric cell is `Option<real>`, where `None` stands for NaN.
 * Capacities are exact reals: floating-point rounding is not modelled.
 */
module Cells {
  import opened Wrappers
  import Geometry

  /** A numeric cell; `None` is a missing value (NaN). */
  type Cell = Option<real>

  /** Present and non-zero: in the capacity tables a zero means "no estimate". */
  predicate Usable(c: Cell) {
    c.Some? && c.value != 0.0
  }

  /** `Series.replace(0, np.nan)`: a zero becomes missing. */
  function ZeroToMissing(c: Cell): Cell {
    if c == Some(0.0) then None else c
  }

  /** `Series.fillna(other)`: a missing cell takes the other column's cell. */
  function FillMissing(c: Cell, other: Cell): Cell {
    match c
    case Some(_) => c
    case None => other
  }

  /** `+` on two columns: NaN on either side gives NaN. */
  function Add(a: Cell, b: Cell): Cell {
    if a.Some? && b.Some? then Some(a.value + b.value) else None
  }

  /** `fillna(0)` of a numeric cell. */
  function ZeroFill(c: Cell): real {
    match c
    case Some(v) => v
    case None => 0.0
  }

  /**
   * The fallback rule: a primary estimate that is zero or missing is replaced
   * by the secondary one (which may itself be zero or missing); otherwise the
   * primary is kept as it is.
   */
  function Resolve(primary: Cell, secondary: Cell): (r: Cell)
    ensures Usable(primary) ==> r == primary
    ensures !Usable(primary) ==> r == secondary
  {
    FillMissing(ZeroToMissing(primary), secondary)
  }

  /**
   * `DataFrame.sum(axis=1)` over some cells of a row: missing cells are
   * skipped, so a row of missing cells sums to 0 rather than to NaN.
   */
  function SumSkipMissing(cs: seq<Cell>): real {
    if cs == [] then 0.0
    else match cs[0]
      case Some(v) => v + SumSkipMissing(cs[1..])
      case None => SumSkipMissing(cs[1..])
  }

  /** Summing three cells skips the missing ones, i.e. counts them as 0. */
  lemma SumOfThree(a: Cell, b: Cell, c: Cell)
    ensures SumSkipMissing([a, b, c]) == ZeroFill(a) + ZeroFill(b) + ZeroFill(c)
  {
    calc {
      SumSkipMissing([a, b, c]);
      { assert [a, b, c][1..] == [b, c]; }
      ZeroFill(a) + SumSkipMissing([b, c]);
      { assert [b, c][1..] == [c]; }
      ZeroFill(a) + ZeroFill(b) + SumSkipMissing([c]);
      { assert [c][1..] == []; }
      ZeroFill(a) + ZeroFill(b) + ZeroFill(c);
    }
  }

  /** A table value: a number (possibly NaN), a string, or a geometry. */
  datatype Value = Num(n: Cell) | Text(s: string) | Shape(g: Geometry.Geom)

  /** `DataFrame.fillna(0)` on a cell of a column that is not a capacity column. */
  function FillValue(v: Value): Value {
    if v == Num(None) then Num(Some(0.0)) else v
  }

  /** A row of a (geo)data frame, by column name. */
  type Row = map<string, Value>

  /** A table: its column set and its rows. Column order and row labels are not modelled. */
  datatype Table = Table(columns: set<string>, rows: seq<Row>)

  const GeometryColumn := "geometry"

  /** Every row has exactly the table's columns. */
  predicate WellFormed(t: Table) {
    forall i :: 0 <= i < |t.rows| ==> t.rows[i].Keys == t.columns
  }

  /** A geodata frame: well formed, with a geometry in the geometry column of every row. */
  predicate IsGeoTable(t: Table) {
    && WellFormed(t)
    && GeometryColumn in t.columns
    && forall i :: 0 <= i < |t.rows| ==> t.rows[i][GeometryColumn].Shape?
  }
}
