/**
 * The left merge of a capacity table onto the grouped geometry table,
 * `left.merge(right, left_on=..., right_on=..., how='left')`, and the
 * `drop(column, axis=1)` that removes the capacity table's key afterwards.
 */
module Join {
  import opened Wrappers
  import opened Cells
  import Geometry

  /** `row` holds every cell of `part`. */
  predicate Agrees(row: Row, part: Row) {
    forall c | c in part :: c in row && row[c] == part[c]
  }

  /** The cells a left row receives for the right-hand columns when nothing matches. */
  function MissingCells(cols: set<string>): (m: Row)
    ensures m.Keys == cols
    ensures forall c | c in cols :: m[c] == Num(None)
  {
    map c | c in cols :: Num(None)
  }

  /** A row of the grouped geometry table: one per (COUNTRY, COUNTRYCOD, ID) key. */
  datatype GeoRow = GeoRow(country: Value, countryCode: Value, id: Value, geometry: Geometry.Geom)

  const CountryColumn := "COUNTRY"
  const CountryCodeColumn := "COUNTRYCOD"
  const IdColumn := "ID"
  const GeoColumns: set<string> := {CountryColumn, CountryCodeColumn, IdColumn, GeometryColumn}

  function GeoCells(g: GeoRow): (r: Row)
    ensures r.Keys == GeoColumns
  {
    map[CountryColumn := g.country, CountryCodeColumn := g.countryCode, IdColumn := g.id,
        GeometryColumn := Shape(g.geometry)]
  }

  /** The grouped geometry table as a geodata frame. */
  function GeoTable(gs: seq<GeoRow>): (t: Table)
    ensures IsGeoTable(t) && t.columns == GeoColumns && |t.rows| == |gs|
    ensures forall i :: 0 <= i < |gs| ==> t.rows[i] == GeoCells(gs[i]) && t.rows[i][IdColumn] == gs[i].id
  {
    Table(GeoColumns, seq(|gs|, i requires 0 <= i < |gs| => GeoCells(gs[i])))
  }

  /** The right-hand rows whose key equals `key`, in their order. */
  function Matching(key: Value, right: seq<Row>, rightOn: string): (ms: seq<Row>)
    requires forall k :: 0 <= k < |right| ==> rightOn in right[k]
    ensures forall r :: r in ms <==> r in right && r[rightOn] == key
  {
    if right == [] then []
    else if right[0][rightOn] == key then [right[0]] + Matching(key, right[1..], rightOn)
    else Matching(key, right[1..], rightOn)
  }

  /** The rows one left row contributes: one per matching right row, or one with missing cells. */
  function MergeOne(l: Row, right: seq<Row>, leftOn: string, rightOn: string, rightCols: set<string>): seq<Row>
    requires leftOn in l
    requires forall k :: 0 <= k < |right| ==> rightOn in right[k]
  {
    var ms := Matching(l[leftOn], right, rightOn);
    if ms == [] then [l + MissingCells(rightCols)]
    else seq(|ms|, i requires 0 <= i < |ms| => l + ms[i])
  }

  function MergeRows(left: seq<Row>, right: seq<Row>, leftOn: string, rightOn: string, rightCols: set<string>): seq<Row>
    requires forall i :: 0 <= i < |left| ==> leftOn in left[i]
    requires forall k :: 0 <= k < |right| ==> rightOn in right[k]
  {
    if left == [] then []
    else MergeOne(left[0], right, leftOn, rightOn, rightCols) + MergeRows(left[1..], right, leftOn, rightOn, rightCols)
  }

  /** What the merge demands: both key columns exist and no other column name is shared. */
  predicate Mergeable(left: Table, right: Table, leftOn: string, rightOn: string) {
    && WellFormed(left) && WellFormed(right)
    && leftOn in left.columns && rightOn in right.columns
    && left.columns !! right.columns
  }

  /**
   * The left merge: every left row followed by each right row whose key equals
   * its key, or by missing cells in every right-hand column when none does.
   * The result has the columns of both tables.
   */
  function MergeLeft(left: Table, right: Table, leftOn: string, rightOn: string): (t: Table)
    requires Mergeable(left, right, leftOn, rightOn)
    ensures WellFormed(t)
    ensures t.columns == left.columns + right.columns
  {
    var rows := MergeRows(left.rows, right.rows, leftOn, rightOn, right.columns);
    MergeRowsKeys(left, right, leftOn, rightOn, left.rows);
    Table(left.columns + right.columns, rows)
  }

  lemma {:induction false} MergeRowsKeys(left: Table, right: Table, leftOn: string, rightOn: string, ls: seq<Row>)
    requires Mergeable(left, right, leftOn, rightOn)
    requires forall i :: 0 <= i < |ls| ==> ls[i].Keys == left.columns
    ensures forall j :: 0 <= j < |MergeRows(ls, right.rows, leftOn, rightOn, right.columns)| ==>
              MergeRows(ls, right.rows, leftOn, rightOn, right.columns)[j].Keys == left.columns + right.columns
  {
    if ls != [] {
      MergeRowsKeys(left, right, leftOn, rightOn, ls[1..]);
      var tail := MergeRows(ls[1..], right.rows, leftOn, rightOn, right.columns);
      var ms := Matching(ls[0][leftOn], right.rows, rightOn);
      var head := MergeOne(ls[0], right.rows, leftOn, rightOn, right.columns);
      forall j | 0 <= j < |head| ensures head[j].Keys == left.columns + right.columns {
        if ms != [] {
          assert ms[j] in ms;
          var k :| 0 <= k < |right.rows| && right.rows[k] == ms[j];
          assert head[j] == ls[0] + right.rows[k];
        }
      }
      assert MergeRows(ls, right.rows, leftOn, rightOn, right.columns) == head + tail;
    }
  }

  /** `table.drop(column, axis=1)`. */
  function DropColumn(t: Table, column: string): (r: Table)
    requires WellFormed(t)
    ensures WellFormed(r)
    ensures r.columns == t.columns - {column}
    ensures |r.rows| == |t.rows|
    ensures forall j :: 0 <= j < |r.rows| ==> Agrees(t.rows[j], r.rows[j])
  {
    Table(t.columns - {column}, seq(|t.rows|, j requires 0 <= j < |t.rows| => t.rows[j] - {column}))
  }

  /** No two right-hand rows share a key. */
  predicate UniqueKeys(right: seq<Row>, rightOn: string)
    requires forall k :: 0 <= k < |right| ==> rightOn in right[k]
  {
    forall k, m :: 0 <= k < m < |right| ==> right[k][rightOn] != right[m][rightOn]
  }

  /**
   * How an output row relates to the left row it comes from: it holds all of
   * that row's cells, and either all non-key cells of a right row with the
   * same key, or, when no right row has that key, a missing value in every
   * right-hand non-key column.
   */
  predicate MergedFrom(out: Row, l: Row, right: Table, leftOn: string, rightOn: string)
    requires leftOn in l
    requires WellFormed(right) && rightOn in right.columns
  {
    && Agrees(out, l)
    && ((exists k :: 0 <= k < |right.rows| && right.rows[k][rightOn] == l[leftOn] && Agrees(out, right.rows[k] - {rightOn}))
        || ((forall k :: 0 <= k < |right.rows| ==> right.rows[k][rightOn] != l[leftOn])
            && Agrees(out, MissingCells(right.columns - {rightOn}))))
  }

  lemma {:induction false} MergeOneFrom(left: Table, right: Table, leftOn: string, rightOn: string, l: Row, rows: seq<Row>)
    requires Mergeable(left, right, leftOn, rightOn)
    requires l.Keys == left.columns
    requires rows == MergeOne(l, right.rows, leftOn, rightOn, right.columns)
    ensures |rows| >= 1
    ensures forall j :: 0 <= j < |rows| ==> MergedFrom(rows[j], l, right, leftOn, rightOn)
  {
    var ms := Matching(l[leftOn], right.rows, rightOn);
    if ms == [] {
      assert forall k :: 0 <= k < |right.rows| ==> right.rows[k][rightOn] != l[leftOn] by {
        forall k | 0 <= k < |right.rows| ensures right.rows[k][rightOn] != l[leftOn] {
          assert right.rows[k] in right.rows;
        }
      }
    } else {
      forall j | 0 <= j < |rows| ensures MergedFrom(rows[j], l, right, leftOn, rightOn) {
        assert ms[j] in ms;
        var k :| 0 <= k < |right.rows| && right.rows[k] == ms[j];
        assert right.rows[k].Keys == right.columns;
        assert Agrees(rows[j], right.rows[k] - {rightOn});
      }
    }
  }

  /**
   * Every left row appears in the merge, once for each right row with the
   * same key, and every output row comes from a left row. How often a row
   * is repeated and in which order is stated for unique right-hand keys only,
   * by MergeLeftUniqueKeys.
   */
  lemma {:induction false} MergeLeftKeepsEveryLeftRow(left: Table, right: Table, leftOn: string, rightOn: string, t: Table)
    requires Mergeable(left, right, leftOn, rightOn)
    requires t == MergeLeft(left, right, leftOn, rightOn)
    ensures |t.rows| >= |left.rows|
    ensures forall i :: 0 <= i < |left.rows| ==> Covered(t.rows, left.rows[i], right, leftOn, rightOn)
    ensures forall i, k :: 0 <= i < |left.rows| && 0 <= k < |right.rows| && right.rows[k][rightOn] == left.rows[i][leftOn] ==>
              Joined(t.rows, left.rows[i], right.rows[k], rightOn)
    ensures forall j :: 0 <= j < |t.rows| ==> FromSome(t.rows[j], left.rows, right, leftOn, rightOn)
  {
    MergeRowsFrom(left, right, leftOn, rightOn, left.rows, t.rows);
    MergeRowsJoin(left, right, leftOn, rightOn, left.rows, t.rows);
  }

  /** Some row of `rows` holds every cell of `l` and every non-key cell of the right row `r`. */
  predicate Joined(rows: seq<Row>, l: Row, r: Row, rightOn: string) {
    exists j :: 0 <= j < |rows| && Agrees(rows[j], l) && Agrees(rows[j], r - {rightOn})
  }

  lemma MergeOneJoins(left: Table, right: Table, leftOn: string, rightOn: string, l: Row, rows: seq<Row>)
    requires Mergeable(left, right, leftOn, rightOn)
    requires l.Keys == left.columns
    requires rows == MergeOne(l, right.rows, leftOn, rightOn, right.columns)
    ensures forall k :: 0 <= k < |right.rows| && right.rows[k][rightOn] == l[leftOn] ==> Joined(rows, l, right.rows[k], rightOn)
  {
    var ms := Matching(l[leftOn], right.rows, rightOn);
    forall k | 0 <= k < |right.rows| && right.rows[k][rightOn] == l[leftOn]
      ensures Joined(rows, l, right.rows[k], rightOn)
    {
      assert right.rows[k] in right.rows;
      var m :| 0 <= m < |ms| && ms[m] == right.rows[k];
      assert rows[m] == l + right.rows[k];
      assert right.rows[k].Keys == right.columns;
      assert Agrees(rows[m], l);
    }
  }

  lemma {:induction false} MergeRowsJoin(left: Table, right: Table, leftOn: string, rightOn: string, ls: seq<Row>, rows: seq<Row>)
    requires Mergeable(left, right, leftOn, rightOn)
    requires forall i :: 0 <= i < |ls| ==> ls[i].Keys == left.columns
    requires rows == MergeRows(ls, right.rows, leftOn, rightOn, right.columns)
    ensures forall i, k :: 0 <= i < |ls| && 0 <= k < |right.rows| && right.rows[k][rightOn] == ls[i][leftOn] ==>
              Joined(rows, ls[i], right.rows[k], rightOn)
  {
    if ls != [] {
      var head := MergeOne(ls[0], right.rows, leftOn, rightOn, right.columns);
      var tail := MergeRows(ls[1..], right.rows, leftOn, rightOn, right.columns);
      assert rows == head + tail;
      MergeOneJoins(left, right, leftOn, rightOn, ls[0], head);
      MergeRowsJoin(left, right, leftOn, rightOn, ls[1..], tail);
      forall i, k | 0 <= i < |ls| && 0 <= k < |right.rows| && right.rows[k][rightOn] == ls[i][leftOn]
        ensures Joined(rows, ls[i], right.rows[k], rightOn)
      {
        if i == 0 {
          var j :| 0 <= j < |head| && Agrees(head[j], ls[0]) && Agrees(head[j], right.rows[k] - {rightOn});
          assert rows[j] == head[j];
        } else {
          assert ls[i] == ls[1..][i - 1];
          var j :| 0 <= j < |tail| && Agrees(tail[j], ls[i]) && Agrees(tail[j], right.rows[k] - {rightOn});
          assert rows[|head| + j] == tail[j];
        }
      }
    }
  }

  lemma {:induction false} MergeRowsFrom(left: Table, right: Table, leftOn: string, rightOn: string, ls: seq<Row>, rows: seq<Row>)
    requires Mergeable(left, right, leftOn, rightOn)
    requires forall i :: 0 <= i < |ls| ==> ls[i].Keys == left.columns
    requires rows == MergeRows(ls, right.rows, leftOn, rightOn, right.columns)
    ensures |rows| >= |ls|
    ensures forall i :: 0 <= i < |ls| ==> Covered(rows, ls[i], right, leftOn, rightOn)
    ensures forall j :: 0 <= j < |rows| ==> FromSome(rows[j], ls, right, leftOn, rightOn)
  {
    if ls != [] {
      var head := MergeOne(ls[0], right.rows, leftOn, rightOn, right.columns);
      var tail := MergeRows(ls[1..], right.rows, leftOn, rightOn, right.columns);
      assert rows == head + tail;
      assert ls == [ls[0]] + ls[1..];
      MergeOneFrom(left, right, leftOn, rightOn, ls[0], head);
      MergeRowsFrom(left, right, leftOn, rightOn, ls[1..], tail);
      BlocksCover(ls[0], ls[1..], head, tail, right, leftOn, rightOn, ls, rows);
      BlocksOrigin(ls[0], ls[1..], head, tail, right, leftOn, rightOn, ls, rows);
    }
  }

  /** Some row of `rows` is merged from the left row `l`. */
  predicate Covered(rows: seq<Row>, l: Row, right: Table, leftOn: string, rightOn: string)
    requires leftOn in l
    requires WellFormed(right) && rightOn in right.columns
  {
    exists j :: 0 <= j < |rows| && MergedFrom(rows[j], l, right, leftOn, rightOn)
  }

  /** `row` is merged from some left row of `ls`. */
  predicate FromSome(row: Row, ls: seq<Row>, right: Table, leftOn: string, rightOn: string)
    requires forall i :: 0 <= i < |ls| ==> leftOn in ls[i]
    requires WellFormed(right) && rightOn in right.columns
  {
    exists i :: 0 <= i < |ls| && MergedFrom(row, ls[i], right, leftOn, rightOn)
  }

  /** A block of rows merged from one left row, followed by rows that cover the remaining left rows. */
  lemma BlocksCover(l: Row, ls: seq<Row>, head: seq<Row>, tail: seq<Row>, right: Table, leftOn: string, rightOn: string,
                    ls': seq<Row>, rows: seq<Row>)
    requires leftOn in l && forall i :: 0 <= i < |ls| ==> leftOn in ls[i]
    requires WellFormed(right) && rightOn in right.columns
    requires |head| >= 1 && MergedFrom(head[0], l, right, leftOn, rightOn)
    requires forall i :: 0 <= i < |ls| ==> Covered(tail, ls[i], right, leftOn, rightOn)
    requires ls' == [l] + ls && rows == head + tail
    ensures forall i :: 0 <= i < |ls'| ==> Covered(rows, ls'[i], right, leftOn, rightOn)
  {
    forall i | 0 <= i < |ls'|
      ensures Covered(rows, ls'[i], right, leftOn, rightOn)
    {
      if i == 0 {
        assert rows[0] == head[0] && ls'[0] == l;
      } else {
        assert Covered(tail, ls[i - 1], right, leftOn, rightOn);
        var j' :| 0 <= j' < |tail| && MergedFrom(tail[j'], ls[i - 1], right, leftOn, rightOn);
        assert rows[|head| + j'] == tail[j'] && ls'[i] == ls[i - 1];
      }
    }
  }

  /** Rows merged from one left row, followed by rows that each come from one of the remaining left rows. */
  lemma BlocksOrigin(l: Row, ls: seq<Row>, head: seq<Row>, tail: seq<Row>, right: Table, leftOn: string, rightOn: string,
                     ls': seq<Row>, rows: seq<Row>)
    requires leftOn in l && forall i :: 0 <= i < |ls| ==> leftOn in ls[i]
    requires WellFormed(right) && rightOn in right.columns
    requires forall j :: 0 <= j < |head| ==> MergedFrom(head[j], l, right, leftOn, rightOn)
    requires forall j :: 0 <= j < |tail| ==> FromSome(tail[j], ls, right, leftOn, rightOn)
    requires ls' == [l] + ls && rows == head + tail
    ensures forall j :: 0 <= j < |rows| ==> FromSome(rows[j], ls', right, leftOn, rightOn)
  {
    forall j | 0 <= j < |rows|
      ensures FromSome(rows[j], ls', right, leftOn, rightOn)
    {
      if j < |head| {
        assert rows[j] == head[j] && ls'[0] == l;
        assert MergedFrom(rows[j], ls'[0], right, leftOn, rightOn);
      } else {
        assert FromSome(tail[j - |head|], ls, right, leftOn, rightOn);
        var i' :| 0 <= i' < |ls| && MergedFrom(tail[j - |head|], ls[i'], right, leftOn, rightOn);
        assert rows[j] == tail[j - |head|] && ls'[i' + 1] == ls[i'];
        assert MergedFrom(rows[j], ls'[i' + 1], right, leftOn, rightOn);
      }
    }
  }

  /**
   * With unique right-hand keys the merge keeps the left rows one for one and
   * in order, each extended by its match or by missing cells.
   */
  lemma {:induction false} MergeLeftUniqueKeys(left: Table, right: Table, leftOn: string, rightOn: string, t: Table)
    requires Mergeable(left, right, leftOn, rightOn)
    requires UniqueKeys(right.rows, rightOn)
    requires t == MergeLeft(left, right, leftOn, rightOn)
    ensures |t.rows| == |left.rows|
    ensures forall i :: 0 <= i < |left.rows| ==> MergedFrom(t.rows[i], left.rows[i], right, leftOn, rightOn)
  {
    MergeRowsUnique(left, right, leftOn, rightOn, left.rows, t.rows);
  }

  lemma {:induction false} MatchingNone(key: Value, right: seq<Row>, rightOn: string)
    requires forall k :: 0 <= k < |right| ==> rightOn in right[k] && right[k][rightOn] != key
    ensures Matching(key, right, rightOn) == []
  {
    if right != [] {
      MatchingNone(key, right[1..], rightOn);
    }
  }

  lemma {:induction false} MatchingUnique(key: Value, right: seq<Row>, rightOn: string)
    requires forall k :: 0 <= k < |right| ==> rightOn in right[k]
    requires UniqueKeys(right, rightOn)
    ensures |Matching(key, right, rightOn)| <= 1
  {
    if right != [] {
      MatchingUnique(key, right[1..], rightOn);
      if right[0][rightOn] == key {
        forall m | 0 <= m < |right[1..]| ensures right[1..][m][rightOn] != key {
          assert right[1..][m] == right[m + 1];
        }
        MatchingNone(key, right[1..], rightOn);
      }
    }
  }

  /** With unique right-hand keys each left row contributes exactly one row, in order. */
  lemma {:induction false} MergeRowsUniqueShape(ls: seq<Row>, right: seq<Row>, leftOn: string, rightOn: string,
                                                rightCols: set<string>, rows: seq<Row>)
    requires forall i :: 0 <= i < |ls| ==> leftOn in ls[i]
    requires forall k :: 0 <= k < |right| ==> rightOn in right[k]
    requires UniqueKeys(right, rightOn)
    requires rows == MergeRows(ls, right, leftOn, rightOn, rightCols)
    ensures |rows| == |ls|
    ensures forall i :: 0 <= i < |ls| ==> rows[i] == MergeOne(ls[i], right, leftOn, rightOn, rightCols)[0]
  {
    if ls != [] {
      var head := MergeOne(ls[0], right, leftOn, rightOn, rightCols);
      var tail := MergeRows(ls[1..], right, leftOn, rightOn, rightCols);
      MergeOneSingle(ls[0], right, leftOn, rightOn, rightCols);
      assert rows == head + tail;
      MergeRowsUniqueShape(ls[1..], right, leftOn, rightOn, rightCols, tail);
      forall i | 0 <= i < |ls| ensures rows[i] == MergeOne(ls[i], right, leftOn, rightOn, rightCols)[0] {
        if i > 0 {
          assert rows[i] == tail[i - 1] && ls[1..][i - 1] == ls[i];
        }
      }
    }
  }

  lemma MergeOneSingle(l: Row, right: seq<Row>, leftOn: string, rightOn: string, rightCols: set<string>)
    requires leftOn in l
    requires forall k :: 0 <= k < |right| ==> rightOn in right[k]
    requires UniqueKeys(right, rightOn)
    ensures |MergeOne(l, right, leftOn, rightOn, rightCols)| == 1
  {
    MatchingUnique(l[leftOn], right, rightOn);
  }

  lemma MergeRowsUnique(left: Table, right: Table, leftOn: string, rightOn: string, ls: seq<Row>, rows: seq<Row>)
    requires Mergeable(left, right, leftOn, rightOn)
    requires UniqueKeys(right.rows, rightOn)
    requires forall i :: 0 <= i < |ls| ==> ls[i].Keys == left.columns
    requires rows == MergeRows(ls, right.rows, leftOn, rightOn, right.columns)
    ensures |rows| == |ls|
    ensures forall i :: 0 <= i < |ls| ==> MergedFrom(rows[i], ls[i], right, leftOn, rightOn)
  {
    MergeRowsUniqueShape(ls, right.rows, leftOn, rightOn, right.columns, rows);
    forall i | 0 <= i < |ls| ensures MergedFrom(rows[i], ls[i], right, leftOn, rightOn) {
      MergeOneUnique(left, right, leftOn, rightOn, ls[i], MergeOne(ls[i], right.rows, leftOn, rightOn, right.columns));
    }
  }

  lemma MergeOneUnique(left: Table, right: Table, leftOn: string, rightOn: string, l: Row, head: seq<Row>)
    requires Mergeable(left, right, leftOn, rightOn)
    requires UniqueKeys(right.rows, rightOn)
    requires l.Keys == left.columns
    requires head == MergeOne(l, right.rows, leftOn, rightOn, right.columns)
    ensures |head| == 1 && MergedFrom(head[0], l, right, leftOn, rightOn)
  {
    MatchingUnique(l[leftOn], right.rows, rightOn);
    MergeOneFrom(left, right, leftOn, rightOn, l, head);
  }

  /**
   * The merge followed by dropping the right-hand key column, as both mappers
   * do: every column of both tables except that key.
   */
  function MergeLeftDropKey(left: Table, right: Table, leftOn: string, rightOn: string): (t: Table)
    requires Mergeable(left, right, leftOn, rightOn)
    ensures WellFormed(t)
    ensures t.columns == left.columns + (right.columns - {rightOn})
    ensures rightOn !in t.columns
  {
    DropColumn(MergeLeft(left, right, leftOn, rightOn), rightOn)
  }

  lemma DropKeepsMergedFrom(m: Row, d: Row, l: Row, left: Table, right: Table, leftOn: string, rightOn: string)
    requires Mergeable(left, right, leftOn, rightOn)
    requires l.Keys == left.columns
    requires m.Keys == left.columns + right.columns
    requires d.Keys == m.Keys - {rightOn} && Agrees(m, d)
    requires MergedFrom(m, l, right, leftOn, rightOn)
    ensures MergedFrom(d, l, right, leftOn, rightOn)
  {
    assert Agrees(d, l);
    if exists k :: 0 <= k < |right.rows| && right.rows[k][rightOn] == l[leftOn] && Agrees(m, right.rows[k] - {rightOn}) {
      var k :| 0 <= k < |right.rows| && right.rows[k][rightOn] == l[leftOn] && Agrees(m, right.rows[k] - {rightOn});
      assert right.rows[k].Keys == right.columns;
      assert Agrees(d, right.rows[k] - {rightOn});
    } else {
      assert Agrees(d, MissingCells(right.columns - {rightOn}));
    }
  }

  /** The rows of a merge with the key dropped: what the per-row transfer needs to know. */
  predicate KeyDropped(ms: seq<Row>, ds: seq<Row>, left: Table, right: Table, rightOn: string) {
    && |ds| == |ms|
    && forall j :: 0 <= j < |ms| ==>
         && ms[j].Keys == left.columns + right.columns
         && ds[j].Keys == ms[j].Keys - {rightOn}
         && Agrees(ms[j], ds[j])
  }

  lemma DropKeepsFromSome(ms: seq<Row>, ds: seq<Row>, left: Table, right: Table, leftOn: string, rightOn: string)
    requires Mergeable(left, right, leftOn, rightOn)
    requires KeyDropped(ms, ds, left, right, rightOn)
    requires forall j :: 0 <= j < |ms| ==> FromSome(ms[j], left.rows, right, leftOn, rightOn)
    ensures forall j :: 0 <= j < |ds| ==> FromSome(ds[j], left.rows, right, leftOn, rightOn)
  {
    forall j | 0 <= j < |ds| ensures FromSome(ds[j], left.rows, right, leftOn, rightOn) {
      assert FromSome(ms[j], left.rows, right, leftOn, rightOn);
      var i :| 0 <= i < |left.rows| && MergedFrom(ms[j], left.rows[i], right, leftOn, rightOn);
      DropKeepsMergedFrom(ms[j], ds[j], left.rows[i], left, right, leftOn, rightOn);
    }
  }

  lemma DropKeepsCovered(ms: seq<Row>, ds: seq<Row>, left: Table, right: Table, leftOn: string, rightOn: string)
    requires Mergeable(left, right, leftOn, rightOn)
    requires KeyDropped(ms, ds, left, right, rightOn)
    requires forall i :: 0 <= i < |left.rows| ==> Covered(ms, left.rows[i], right, leftOn, rightOn)
    ensures forall i :: 0 <= i < |left.rows| ==> Covered(ds, left.rows[i], right, leftOn, rightOn)
  {
    forall i | 0 <= i < |left.rows| ensures Covered(ds, left.rows[i], right, leftOn, rightOn) {
      assert Covered(ms, left.rows[i], right, leftOn, rightOn);
      var j :| 0 <= j < |ms| && MergedFrom(ms[j], left.rows[i], right, leftOn, rightOn);
      DropKeepsMergedFrom(ms[j], ds[j], left.rows[i], left, right, leftOn, rightOn);
    }
  }

  lemma DropKeepsAligned(ms: seq<Row>, ds: seq<Row>, left: Table, right: Table, leftOn: string, rightOn: string)
    requires Mergeable(left, right, leftOn, rightOn)
    requires KeyDropped(ms, ds, left, right, rightOn) && |ms| == |left.rows|
    requires forall i :: 0 <= i < |left.rows| ==> MergedFrom(ms[i], left.rows[i], right, leftOn, rightOn)
    ensures forall i :: 0 <= i < |left.rows| ==> MergedFrom(ds[i], left.rows[i], right, leftOn, rightOn)
  {
    forall i | 0 <= i < |left.rows| ensures MergedFrom(ds[i], left.rows[i], right, leftOn, rightOn) {
      DropKeepsMergedFrom(ms[i], ds[i], left.rows[i], left, right, leftOn, rightOn);
    }
  }

  lemma DropKeepsJoined(ms: seq<Row>, ds: seq<Row>, left: Table, right: Table, leftOn: string, rightOn: string)
    requires Mergeable(left, right, leftOn, rightOn)
    requires KeyDropped(ms, ds, left, right, rightOn)
    requires forall i :: 0 <= i < |left.rows| ==> left.rows[i].Keys == left.columns
    requires forall i, k :: 0 <= i < |left.rows| && 0 <= k < |right.rows| && right.rows[k][rightOn] == left.rows[i][leftOn] ==>
               Joined(ms, left.rows[i], right.rows[k], rightOn)
    ensures forall i, k :: 0 <= i < |left.rows| && 0 <= k < |right.rows| && right.rows[k][rightOn] == left.rows[i][leftOn] ==>
              Joined(ds, left.rows[i], right.rows[k], rightOn)
  {
    forall i, k | 0 <= i < |left.rows| && 0 <= k < |right.rows| && right.rows[k][rightOn] == left.rows[i][leftOn]
      ensures Joined(ds, left.rows[i], right.rows[k], rightOn)
    {
      var j :| 0 <= j < |ms| && Agrees(ms[j], left.rows[i]) && Agrees(ms[j], right.rows[k] - {rightOn});
      assert Agrees(ds[j], left.rows[i]);
      assert Agrees(ds[j], right.rows[k] - {rightOn});
    }
  }

  lemma MergeLeftDropKeyDropped(left: Table, right: Table, leftOn: string, rightOn: string, m: Table, t: Table)
    requires Mergeable(left, right, leftOn, rightOn)
    requires m == MergeLeft(left, right, leftOn, rightOn)
    requires t == MergeLeftDropKey(left, right, leftOn, rightOn)
    ensures KeyDropped(m.rows, t.rows, left, right, rightOn)
  {
  }

  /**
   * Every left row appears in the merged table with the key dropped, once for
   * each right row with the same key, and every output row is merged from a
   * left row.
   */
  lemma MergeLeftDropKeyKeepsEveryLeftRow(left: Table, right: Table, leftOn: string, rightOn: string, t: Table)
    requires Mergeable(left, right, leftOn, rightOn)
    requires t == MergeLeftDropKey(left, right, leftOn, rightOn)
    ensures |t.rows| >= |left.rows|
    ensures forall i :: 0 <= i < |left.rows| ==> Covered(t.rows, left.rows[i], right, leftOn, rightOn)
    ensures forall i, k :: 0 <= i < |left.rows| && 0 <= k < |right.rows| && right.rows[k][rightOn] == left.rows[i][leftOn] ==>
              Joined(t.rows, left.rows[i], right.rows[k], rightOn)
    ensures forall j :: 0 <= j < |t.rows| ==> FromSome(t.rows[j], left.rows, right, leftOn, rightOn)
  {
    var m := MergeLeft(left, right, leftOn, rightOn);
    MergeLeftKeepsEveryLeftRow(left, right, leftOn, rightOn, m);
    MergeLeftDropKeyDropped(left, right, leftOn, rightOn, m, t);
    DropKeepsFromSome(m.rows, t.rows, left, right, leftOn, rightOn);
    DropKeepsCovered(m.rows, t.rows, left, right, leftOn, rightOn);
    DropKeepsJoined(m.rows, t.rows, left, right, leftOn, rightOn);
  }

  /** With unique right-hand keys, row i of the result is merged from left row i. */
  lemma MergeLeftDropKeyUniqueKeys(left: Table, right: Table, leftOn: string, rightOn: string, t: Table)
    requires Mergeable(left, right, leftOn, rightOn)
    requires UniqueKeys(right.rows, rightOn)
    requires t == MergeLeftDropKey(left, right, leftOn, rightOn)
    ensures |t.rows| == |left.rows|
    ensures forall i :: 0 <= i < |left.rows| ==> MergedFrom(t.rows[i], left.rows[i], right, leftOn, rightOn)
  {
    var m := MergeLeft(left, right, leftOn, rightOn);
    MergeLeftUniqueKeys(left, right, leftOn, rightOn, m);
    MergeLeftDropKeyDropped(left, right, leftOn, rightOn, m, t);
    DropKeepsAligned(m.rows, t.rows, left, right, leftOn, rightOn);
  }

  lemma RowsFromGeoRowsHaveGeometry(rows: seq<Row>, left: Table, right: Table, leftOn: string, rightOn: string)
    requires Mergeable(left, right, leftOn, rightOn) && IsGeoTable(left)
    requires forall j :: 0 <= j < |rows| ==> FromSome(rows[j], left.rows, right, leftOn, rightOn)
    ensures forall j :: 0 <= j < |rows| ==> GeometryColumn in rows[j] && rows[j][GeometryColumn].Shape?
  {
    forall j | 0 <= j < |rows| ensures GeometryColumn in rows[j] && rows[j][GeometryColumn].Shape? {
      assert FromSome(rows[j], left.rows, right, leftOn, rightOn);
      var i :| 0 <= i < |left.rows| && MergedFrom(rows[j], left.rows[i], right, leftOn, rightOn);
      assert Agrees(rows[j], left.rows[i]);
    }
  }

  /** Joining data onto a geodata frame yields a geodata frame: every output row keeps its geometry. */
  lemma MergeLeftDropKeyKeepsGeometry(left: Table, right: Table, leftOn: string, rightOn: string, t: Table)
    requires Mergeable(left, right, leftOn, rightOn) && IsGeoTable(left)
    requires t == MergeLeftDropKey(left, right, leftOn, rightOn)
    ensures IsGeoTable(t)
  {
    MergeLeftDropKeyKeepsEveryLeftRow(left, right, leftOn, rightOn, t);
    RowsFromGeoRowsHaveGeometry(t.rows, left, right, leftOn, rightOn);
  }

  // ---------------------------------------------------------------------------
  // Joining a table keyed by one column
  // ---------------------------------------------------------------------------

  /** The shape of a reduced capacity table: per row a key and the cells of `columns`. */
  predicate KeyedRows(keyColumn: string, columns: set<string>, keys: seq<Value>, payloads: seq<Row>) {
    && |keys| == |payloads|
    && keyColumn !in columns
    && forall k :: 0 <= k < |payloads| ==> payloads[k].Keys == columns
  }

  /** The table whose row k is `payloads[k]` with `keys[k]` in the key column. */
  function KeyedTable(keyColumn: string, columns: set<string>, keys: seq<Value>, payloads: seq<Row>): (t: Table)
    requires KeyedRows(keyColumn, columns, keys, payloads)
    ensures WellFormed(t) && t.columns == {keyColumn} + columns && |t.rows| == |keys|
    ensures forall k :: 0 <= k < |keys| ==> t.rows[k][keyColumn] == keys[k] && t.rows[k] - {keyColumn} == payloads[k]
  {
    var t := Table({keyColumn} + columns, seq(|keys|, k requires 0 <= k < |keys| => payloads[k][keyColumn := keys[k]]));
    assert forall k :: 0 <= k < |keys| ==> t.rows[k] - {keyColumn} == payloads[k];
    t
  }

  predicate DistinctKeys(keys: seq<Value>) {
    forall k, m :: 0 <= k < |keys| && 0 <= m < |keys| && keys[k] == keys[m] ==> k == m
  }

  lemma KeyedRowMatched(out: Row, l: Row, leftOn: string, keyColumn: string, columns: set<string>,
                        keys: seq<Value>, payloads: seq<Row>, k: int)
    requires KeyedRows(keyColumn, columns, keys, payloads) && DistinctKeys(keys) && leftOn in l
    requires MergedFrom(out, l, KeyedTable(keyColumn, columns, keys, payloads), leftOn, keyColumn)
    requires 0 <= k < |keys| && keys[k] == l[leftOn]
    ensures Agrees(out, payloads[k])
  {
    var right := KeyedTable(keyColumn, columns, keys, payloads);
    assert right.rows[k][keyColumn] == l[leftOn];
    var k' :| 0 <= k' < |right.rows| && right.rows[k'][keyColumn] == l[leftOn] && Agrees(out, right.rows[k'] - {keyColumn});
    assert k' == k;
  }

  lemma KeyedRowUnmatched(out: Row, l: Row, leftOn: string, keyColumn: string, columns: set<string>,
                          keys: seq<Value>, payloads: seq<Row>)
    requires KeyedRows(keyColumn, columns, keys, payloads) && leftOn in l
    requires MergedFrom(out, l, KeyedTable(keyColumn, columns, keys, payloads), leftOn, keyColumn)
    requires forall k :: 0 <= k < |keys| ==> keys[k] != l[leftOn]
    ensures Agrees(out, MissingCells(columns))
  {
    var right := KeyedTable(keyColumn, columns, keys, payloads);
    assert right.columns - {keyColumn} == columns;
  }

  /**
   * Joining a keyed table with distinct keys onto `left`: one row per left
   * row, in order, holding the left row's cells and either the cells of the
   * row with the same key or missing values.
   */
  lemma {:induction false} KeyedMergeUnique(left: Table, leftOn: string, keyColumn: string, columns: set<string>,
                                            keys: seq<Value>, payloads: seq<Row>, t: Table)
    requires KeyedRows(keyColumn, columns, keys, payloads) && DistinctKeys(keys)
    requires Mergeable(left, KeyedTable(keyColumn, columns, keys, payloads), leftOn, keyColumn)
    requires t == MergeLeftDropKey(left, KeyedTable(keyColumn, columns, keys, payloads), leftOn, keyColumn)
    ensures |t.rows| == |left.rows|
    ensures forall i :: 0 <= i < |left.rows| ==> Agrees(t.rows[i], left.rows[i])
    ensures forall i, k :: 0 <= i < |left.rows| && 0 <= k < |keys| && keys[k] == left.rows[i][leftOn] ==>
              Agrees(t.rows[i], payloads[k])
    ensures forall i :: 0 <= i < |left.rows| && (forall k :: 0 <= k < |keys| ==> keys[k] != left.rows[i][leftOn]) ==>
              Agrees(t.rows[i], MissingCells(columns))
  {
    var right := KeyedTable(keyColumn, columns, keys, payloads);
    assert UniqueKeys(right.rows, keyColumn) by {
      forall k, m | 0 <= k < m < |right.rows| ensures right.rows[k][keyColumn] != right.rows[m][keyColumn] {
        assert right.rows[k][keyColumn] == keys[k] && right.rows[m][keyColumn] == keys[m];
      }
    }
    MergeLeftDropKeyUniqueKeys(left, right, leftOn, keyColumn, t);
    forall i, k | 0 <= i < |left.rows| && 0 <= k < |keys| && keys[k] == left.rows[i][leftOn]
      ensures Agrees(t.rows[i], payloads[k])
    {
      KeyedRowMatched(t.rows[i], left.rows[i], leftOn, keyColumn, columns, keys, payloads, k);
    }
    forall i | 0 <= i < |left.rows| && (forall k :: 0 <= k < |keys| ==> keys[k] != left.rows[i][leftOn])
      ensures Agrees(t.rows[i], MissingCells(columns))
    {
      KeyedRowUnmatched(t.rows[i], left.rows[i], leftOn, keyColumn, columns, keys, payloads);
    }
  }

  /** Some row holds all the cells of `part`. */
  predicate Present(rows: seq<Row>, part: Row) {
    exists j :: 0 <= j < |rows| && Agrees(rows[j], part)
  }

  /** Joining onto a geodata frame keeps it a geodata frame and keeps every one of its rows. */
  lemma {:induction false} MergeKeepsEveryGeoRow(left: Table, right: Table, leftOn: string, rightOn: string, t: Table)
    requires Mergeable(left, right, leftOn, rightOn) && IsGeoTable(left)
    requires t == MergeLeftDropKey(left, right, leftOn, rightOn)
    ensures IsGeoTable(t)
    ensures |t.rows| >= |left.rows|
    ensures forall i :: 0 <= i < |left.rows| ==> Present(t.rows, left.rows[i])
  {
    MergeLeftDropKeyKeepsGeometry(left, right, leftOn, rightOn, t);
    MergeLeftDropKeyKeepsEveryLeftRow(left, right, leftOn, rightOn, t);
    CoveredRowsAgree(t.rows, left, right, leftOn, rightOn);
  }

  lemma CoveredRowsAgree(rows: seq<Row>, left: Table, right: Table, leftOn: string, rightOn: string)
    requires Mergeable(left, right, leftOn, rightOn)
    requires forall i :: 0 <= i < |left.rows| ==> Covered(rows, left.rows[i], right, leftOn, rightOn)
    ensures forall i :: 0 <= i < |left.rows| ==> Present(rows, left.rows[i])
  {
    forall i | 0 <= i < |left.rows| ensures Present(rows, left.rows[i]) {
      assert Covered(rows, left.rows[i], right, leftOn, rightOn);
      var j :| 0 <= j < |rows| && MergedFrom(rows[j], left.rows[i], right, leftOn, rightOn);
      assert Agrees(rows[j], left.rows[i]);
    }
  }
}
