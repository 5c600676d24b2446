/**
 * The combiner: both capacity maps are widened to the union of their column
 * sets (a missing column becomes a column of zeros), their geometries are
 * reduced to two dimensions, and the storage-unit rows are followed by the
 * trap rows in one table. The two maps are updated in place, as the caller's
 * data frames are.
 */
module Combiner {
  import opened Wrappers
  import opened Cells
  import Geometry

  /** The value `frame[column] = 0` puts in every row. */
  const Zero: Value := Num(Some(0.0))

  function ZeroCells(cols: set<string>): (m: Row)
    ensures m.Keys == cols
    ensures forall c :: c in cols ==> m[c] == Zero
  {
    map c | c in cols :: Zero
  }

  /** Every row has a geometry. */
  predicate HasShapes(rows: seq<Row>) {
    forall i :: 0 <= i < |rows| ==> GeometryColumn in rows[i] && rows[i][GeometryColumn].Shape?
  }

  /** A row with a zero in each column of `cols` it lacks. */
  function Pad(row: Row, cols: set<string>): (p: Row)
    ensures p.Keys == row.Keys + cols
    ensures forall c :: c in p ==> p[c] == if c in row then row[c] else Zero
  {
    ZeroCells(cols) + row
  }

  /**
   * A table after a column of zeros has been added for every column of
   * `cols` it lacks: it has the columns of both, keeps every cell it had,
   * and holds 0 in each added column.
   */
  function Widen(t: Table, cols: set<string>): (w: Table)
    ensures w.columns == t.columns + cols && |w.rows| == |t.rows|
    ensures WellFormed(t) ==> WellFormed(w)
    ensures IsGeoTable(t) ==> IsGeoTable(w) && HasShapes(w.rows)
    ensures WellFormed(t) ==> forall i, c :: 0 <= i < |t.rows| && c in w.columns ==>
              c in w.rows[i] && w.rows[i][c] == if c in t.columns then t.rows[i][c] else Zero
  {
    Table(t.columns + cols, seq(|t.rows|, i requires 0 <= i < |t.rows| => Pad(t.rows[i], cols)))
  }

  /** Adding the columns of `cols`, then those of `more`, adds the columns of both. */
  lemma WidenTwice(t: Table, cols: set<string>, more: set<string>)
    ensures Widen(Widen(t, cols), more) == Widen(t, cols + more)
  {
    forall i | 0 <= i < |t.rows| ensures Pad(Pad(t.rows[i], cols), more) == Pad(t.rows[i], cols + more) {
    }
  }

  /** Adding no column changes nothing. */
  lemma WidenNothing(t: Table)
    requires WellFormed(t)
    ensures Widen(t, {}) == t
  {
    forall i | 0 <= i < |t.rows| ensures Pad(t.rows[i], {}) == t.rows[i] {
    }
  }

  /** Adding a column the table already has changes nothing. */
  lemma WidenPresent(t: Table, cols: set<string>, c: string)
    requires WellFormed(t) && c in t.columns + cols
    ensures Widen(t, cols + {c}) == Widen(t, cols)
  {
    forall i | 0 <= i < |t.rows| ensures Pad(t.rows[i], cols + {c}) == Pad(t.rows[i], cols) {
    }
  }

  /**
   * One geometry cell of a row passed through `remove_third_dimension`;
   * the other cells are kept.
   */
  function ReducedRow(row: Row): (r: Result<Row, Geometry.GeomError>)
    requires GeometryColumn in row && row[GeometryColumn].Shape?
    ensures r.Success? <==> Geometry.RemoveThirdDimension(row[GeometryColumn].g).Success?
    ensures r.Success? ==> r.value == row[GeometryColumn := Shape(Geometry.RemoveThirdDimension(row[GeometryColumn].g).value)]
    ensures r.Failure? ==> Geometry.RemoveThirdDimension(row[GeometryColumn].g) == Failure(r.error)
  {
    var g :- Geometry.RemoveThirdDimension(row[GeometryColumn].g);
    Success(row[GeometryColumn := Shape(g)])
  }

  /** The outcomes of a row-by-row operation, in order: every value, or the first error. */
  function Collect<T, E>(rs: seq<Result<T, E>>): (r: Result<seq<T>, E>)
    ensures r.Success? ==> |r.value| == |rs| && forall i :: 0 <= i < |rs| ==> rs[i] == Success(r.value[i])
    ensures r.Failure? ==> exists i :: 0 <= i < |rs| && rs[i] == Failure(r.error)
  {
    if rs == [] then Success([])
    else
      var v :- rs[0];
      var vs :- Collect(rs[1..]);
      Success([v] + vs)
  }

  /** When every outcome is a value, the collection is those values. */
  lemma {:induction false} CollectAll<T, E>(rs: seq<Result<T, E>>, vs: seq<T>)
    requires |vs| == |rs| && forall k :: 0 <= k < |rs| ==> rs[k] == Success(vs[k])
    ensures Collect(rs) == Success(vs)
  {
    if rs != [] {
      CollectAll(rs[1..], vs[1..]);
      assert vs == [vs[0]] + vs[1..];
    }
  }

  /** The collection fails with the error of the first outcome that is an error. */
  lemma {:induction false} CollectFirstFailure<T, E>(rs: seq<Result<T, E>>, i: int)
    requires 0 <= i < |rs| && rs[i].Failure?
    requires forall k :: 0 <= k < i ==> rs[k].Success?
    ensures Collect(rs) == Failure(rs[i].error)
  {
    if i > 0 {
      CollectFirstFailure(rs[1..], i - 1);
    }
  }

  /** The outcome of reducing each row's geometry. */
  function RowOutcomes(rows: seq<Row>): (rs: seq<Result<Row, Geometry.GeomError>>)
    requires HasShapes(rows)
    ensures |rs| == |rows| && forall i :: 0 <= i < |rows| ==> rs[i] == ReducedRow(rows[i])
  {
    seq(|rows|, i requires 0 <= i < |rows| => ReducedRow(rows[i]))
  }

  /**
   * `apply(remove_third_dimension)` over a geometry column: every row
   * reduced, or the error of the first row whose geometry cannot be.
   */
  function ReducedRows(rows: seq<Row>): (r: Result<seq<Row>, Geometry.GeomError>)
    requires HasShapes(rows)
    ensures r.Success? ==> |r.value| == |rows| && forall i :: 0 <= i < |rows| ==> ReducedRow(rows[i]) == Success(r.value[i])
    ensures r.Failure? ==> exists i :: 0 <= i < |rows| && ReducedRow(rows[i]) == Failure(r.error)
  {
    Collect(RowOutcomes(rows))
  }

  /** A data frame that the combiner updates in place. */
  class Frame {
    var columns: set<string>
    var rows: seq<Row>

    ghost predicate Valid()
      reads this
    {
      IsGeoTable(Table(columns, rows))
    }

    function Snapshot(): Table
      reads this
    {
      Table(columns, rows)
    }

    constructor (t: Table)
      requires IsGeoTable(t)
      ensures Valid() && Snapshot() == t
    {
      columns := t.columns;
      rows := t.rows;
    }

    /** `frame[name] = 0`: a new column holding 0 in every row. */
    method AddZeroColumn(name: string)
      requires Valid() && name !in columns
      modifies this
      ensures Valid()
      ensures Snapshot() == Widen(old(Snapshot()), {name})
    {
      var before := rows;
      rows := seq(|before|, i requires 0 <= i < |before| => Pad(before[i], {name}));
      columns := columns + {name};
    }

    /**
     * `frame['geometry'] = frame['geometry'].apply(remove_third_dimension)`:
     * the new column is built row by row and only stored when every row has
     * been reduced, so a failure leaves the frame as it was.
     */
    method ReduceGeometries() returns (r: Result<(), Geometry.GeomError>)
      requires Valid()
      modifies this
      ensures Valid() && columns == old(columns)
      ensures ReducedRows(old(rows)).Success? ==> r.Success? && rows == ReducedRows(old(rows)).value
      ensures ReducedRows(old(rows)).Failure? ==> r == Failure(ReducedRows(old(rows)).error) && rows == old(rows)
    {
      var reduced: seq<Row> := [];
      for i := 0 to |rows|
        invariant |reduced| == i
        invariant forall k :: 0 <= k < i ==> ReducedRow(rows[k]) == Success(reduced[k])
      {
        var row := ReducedRow(rows[i]);
        if row.Failure? {
          FirstFailure(rows, i);
          return Failure(row.error);
        }
        reduced := reduced + [row.value];
      }
      AllReduced(rows, reduced);
      rows := reduced;
      return Success(());
    }
  }

  /** When every row before `i` is reduced and row `i` is not, the column fails with row `i`'s error. */
  lemma FirstFailure(rows: seq<Row>, i: int)
    requires HasShapes(rows) && 0 <= i < |rows|
    requires forall k :: 0 <= k < i ==> ReducedRow(rows[k]).Success?
    requires ReducedRow(rows[i]).Failure?
    ensures ReducedRows(rows) == Failure(ReducedRow(rows[i]).error)
  {
    CollectFirstFailure(RowOutcomes(rows), i);
  }

  /** When every row is reduced, the column is the reduced rows. */
  lemma AllReduced(rows: seq<Row>, reduced: seq<Row>)
    requires HasShapes(rows) && |reduced| == |rows|
    requires forall k :: 0 <= k < |rows| ==> ReducedRow(rows[k]) == Success(reduced[k])
    ensures ReducedRows(rows) == Success(reduced)
  {
    CollectAll(RowOutcomes(rows), reduced);
  }

  /** The geometry of the `i`-th row has a part of a type that cannot be reduced. */
  predicate UnsupportedAt(t: Table, i: int) {
    && 0 <= i < |t.rows|
    && GeometryColumn in t.rows[i]
    && t.rows[i][GeometryColumn].Shape?
    && Geometry.HasUnsupported(t.rows[i][GeometryColumn].g)
  }

  /** Every geometry of the table is well formed in the geometry engine's sense. */
  predicate WellFormedShapes(t: Table) {
    forall i :: 0 <= i < |t.rows| && GeometryColumn in t.rows[i] && t.rows[i][GeometryColumn].Shape? ==>
      Geometry.WellFormed(t.rows[i][GeometryColumn].g)
  }

  /**
   * What `combination(trap_map, storage_map)` returns: both maps widened to
   * the union of their columns, the storage geometries reduced, then the trap
   * geometries, and the storage rows followed by the trap rows.
   */
  function Combined(trap: Table, storage: Table): (r: Result<Table, Geometry.GeomError>)
    requires IsGeoTable(trap) && IsGeoTable(storage)
    ensures r.Success? ==> IsGeoTable(r.value)
    ensures r.Success? ==> r.value.columns == trap.columns + storage.columns
    ensures r.Success? ==> |r.value.rows| == |storage.rows| + |trap.rows|
  {
    var u := trap.columns + storage.columns;
    var s :- ReducedRows(Widen(storage, u).rows);
    var t :- ReducedRows(Widen(trap, u).rows);
    ReducedKeepsColumns(Widen(storage, u), s);
    ReducedKeepsColumns(Widen(trap, u), t);
    Success(Table(u, s + t))
  }

  /** Reducing the geometries of a geodata frame keeps its columns and a geometry in every row. */
  lemma ReducedKeepsColumns(t: Table, reduced: seq<Row>)
    requires IsGeoTable(t) && HasShapes(t.rows) && ReducedRows(t.rows) == Success(reduced)
    ensures IsGeoTable(Table(t.columns, reduced))
  {
  }

  /** The rows a frame holds after its geometry column has been reduced, or left as they were on failure. */
  function AfterReduce(rows: seq<Row>): (r: seq<Row>)
    requires HasShapes(rows)
    ensures ReducedRows(rows).Success? ==> r == ReducedRows(rows).value
    ensures ReducedRows(rows).Failure? ==> r == rows
  {
    match ReducedRows(rows)
    case Success(reduced) => reduced
    case Failure(_) => rows
  }

  /**
   * The first loop of `combination`: every column of the union that a frame
   * lacks is added to it as a column of zeros, in whatever order the set
   * yields its columns.
   */
  method AlignColumns(trapMap: Frame, storageMap: Frame) returns (unionColumns: set<string>)
    requires trapMap != storageMap && trapMap.Valid() && storageMap.Valid()
    modifies trapMap, storageMap
    ensures unionColumns == old(trapMap.columns) + old(storageMap.columns)
    ensures trapMap.Valid() && storageMap.Valid()
    ensures trapMap.Snapshot() == Widen(old(trapMap.Snapshot()), unionColumns)
    ensures storageMap.Snapshot() == Widen(old(storageMap.Snapshot()), unionColumns)
  {
    ghost var trap0 := trapMap.Snapshot();
    ghost var storage0 := storageMap.Snapshot();
    unionColumns := trapMap.columns + storageMap.columns;
    var todo := unionColumns;
    WidenNothing(trap0);
    WidenNothing(storage0);
    while todo != {}
      invariant todo <= unionColumns
      invariant trapMap.Valid() && storageMap.Valid()
      invariant trapMap.Snapshot() == Widen(trap0, unionColumns - todo)
      invariant storageMap.Snapshot() == Widen(storage0, unionColumns - todo)
      decreases todo
    {
      var column :| column in todo;
      ghost var done := unionColumns - todo;
      if column !in trapMap.columns {
        trapMap.AddZeroColumn(column);
        WidenTwice(trap0, done, {column});
      } else {
        WidenPresent(trap0, done, column);
      }
      if column !in storageMap.columns {
        storageMap.AddZeroColumn(column);
        WidenTwice(storage0, done, {column});
      } else {
        WidenPresent(storage0, done, column);
      }
      todo := todo - {column};
      assert unionColumns - todo == done + {column};
    }
    assert unionColumns - todo == unionColumns;
  }

  /**
   * `combination`, on the two frames it is given: zero columns are added to
   * each frame in place, the storage geometries are reduced and stored, then
   * the trap geometries, and the two frames are concatenated. An unsupported
   * geometry stops it with the frames changed up to that point.
   */
  method Combination(trapMap: Frame, storageMap: Frame) returns (r: Result<Table, Geometry.GeomError>)
    requires trapMap != storageMap && trapMap.Valid() && storageMap.Valid()
    modifies trapMap, storageMap
    ensures r == Combined(old(trapMap.Snapshot()), old(storageMap.Snapshot()))
    ensures trapMap.Valid() && storageMap.Valid()
    ensures trapMap.columns == storageMap.columns == old(trapMap.columns) + old(storageMap.columns)
    ensures storageMap.rows ==
              AfterReduce(Widen(old(storageMap.Snapshot()), old(trapMap.columns) + old(storageMap.columns)).rows)
    ensures ReducedRows(Widen(old(storageMap.Snapshot()), old(trapMap.columns) + old(storageMap.columns)).rows).Success? ==>
              trapMap.rows ==
              AfterReduce(Widen(old(trapMap.Snapshot()), old(trapMap.columns) + old(storageMap.columns)).rows)
    ensures ReducedRows(Widen(old(storageMap.Snapshot()), old(trapMap.columns) + old(storageMap.columns)).rows).Failure? ==>
              trapMap.rows == Widen(old(trapMap.Snapshot()), old(trapMap.columns) + old(storageMap.columns)).rows
  {
    var unionColumns := AlignColumns(trapMap, storageMap);
    var reducedStorage := storageMap.ReduceGeometries();
    if reducedStorage.Failure? {
      return Failure(reducedStorage.error);
    }
    var reducedTrap := trapMap.ReduceGeometries();
    if reducedTrap.Failure? {
      return Failure(reducedTrap.error);
    }
    r := Success(Table(unionColumns, storageMap.rows + trapMap.rows));
  }

  /** The combination fails exactly when a row of either map has an unsupported geometry. */
  lemma CombinedFailsIffUnsupported(trap: Table, storage: Table)
    requires IsGeoTable(trap) && IsGeoTable(storage)
    ensures Combined(trap, storage).Failure? <==>
              (exists i :: UnsupportedAt(storage, i)) || (exists i :: UnsupportedAt(trap, i))
  {
    var u := trap.columns + storage.columns;
    ReducedRowsFailsIff(storage, Widen(storage, u));
    ReducedRowsFailsIff(trap, Widen(trap, u));
  }

  /** Reducing the rows of a widened table fails exactly when a row of the table has an unsupported geometry. */
  lemma ReducedRowsFailsIff(t: Table, w: Table)
    requires IsGeoTable(t)
    requires exists cols :: w == Widen(t, cols)
    ensures HasShapes(w.rows)
    ensures ReducedRows(w.rows).Failure? <==> exists i :: UnsupportedAt(t, i)
  {
    var cols :| w == Widen(t, cols);
    forall i | 0 <= i < |t.rows|
      ensures w.rows[i][GeometryColumn] == t.rows[i][GeometryColumn]
      ensures ReducedRow(w.rows[i]).Failure? <==> UnsupportedAt(t, i)
    {
      Geometry.RemoveFailsIffUnsupported(t.rows[i][GeometryColumn].g);
    }
    if ReducedRows(w.rows).Failure? {
      var i :| 0 <= i < |w.rows| && ReducedRow(w.rows[i]) == Failure(ReducedRows(w.rows).error);
      assert UnsupportedAt(t, i);
    }
  }

  /** A row of a widened table, reduced: the cell or 0 in every column, and the geometry reduced. */
  lemma ReducedWidenedRow(t: Table, u: set<string>, i: int, x: Row)
    requires IsGeoTable(t) && t.columns <= u && 0 <= i < |t.rows|
    requires ReducedRow(Widen(t, u).rows[i]) == Success(x)
    ensures x.Keys == u
    ensures forall c :: c in u && c != GeometryColumn ==> x[c] == if c in t.columns then t.rows[i][c] else Zero
    ensures Geometry.RemoveThirdDimension(t.rows[i][GeometryColumn].g) == Success(x[GeometryColumn].g)
  {
    assert Widen(t, u).rows[i][GeometryColumn] == t.rows[i][GeometryColumn];
  }

  /**
   * The `i`-th storage row of the combination: every column of the union,
   * the storage cell where the storage map has that column and 0 where it
   * does not, and the storage geometry reduced to two dimensions.
   */
  lemma CombinedStorageRow(trap: Table, storage: Table, out: Table, i: int)
    requires IsGeoTable(trap) && IsGeoTable(storage) && Combined(trap, storage) == Success(out)
    requires 0 <= i < |storage.rows|
    ensures out.rows[i].Keys == trap.columns + storage.columns
    ensures forall c :: c in trap.columns + storage.columns && c != GeometryColumn ==>
              out.rows[i][c] == if c in storage.columns then storage.rows[i][c] else Zero
    ensures Geometry.RemoveThirdDimension(storage.rows[i][GeometryColumn].g) == Success(out.rows[i][GeometryColumn].g)
  {
    var u := trap.columns + storage.columns;
    CombinedParts(trap, storage, out);
    RowBeforeTail(storage, u, ReducedRows(Widen(storage, u).rows).value, ReducedRows(Widen(trap, u).rows).value, i);
  }

  /** Row `i` of reduced rows followed by other rows is reduced row `i`. */
  lemma RowBeforeTail(t: Table, u: set<string>, reduced: seq<Row>, tail: seq<Row>, i: int)
    requires IsGeoTable(t) && t.columns <= u && 0 <= i < |t.rows|
    requires ReducedRows(Widen(t, u).rows) == Success(reduced)
    ensures (reduced + tail)[i].Keys == u
    ensures forall c :: c in u && c != GeometryColumn ==> (reduced + tail)[i][c] == if c in t.columns then t.rows[i][c] else Zero
    ensures Geometry.RemoveThirdDimension(t.rows[i][GeometryColumn].g) == Success((reduced + tail)[i][GeometryColumn].g)
  {
    assert (reduced + tail)[i] == reduced[i];
    ReducedWidenedRow(t, u, i, reduced[i]);
  }

  /** Row `n + i` of `n` other rows followed by reduced rows is reduced row `i`. */
  lemma RowAfterHead(t: Table, u: set<string>, rows: seq<Row>, head: seq<Row>, reduced: seq<Row>, n: int, i: int)
    requires IsGeoTable(t) && t.columns <= u && 0 <= i < |t.rows|
    requires ReducedRows(Widen(t, u).rows) == Success(reduced)
    requires rows == head + reduced && n == |head|
    ensures rows[n + i].Keys == u
    ensures forall c :: c in u && c != GeometryColumn ==> rows[n + i][c] == if c in t.columns then t.rows[i][c] else Zero
    ensures Geometry.RemoveThirdDimension(t.rows[i][GeometryColumn].g) == Success(rows[n + i][GeometryColumn].g)
  {
    assert rows[n + i] == reduced[i];
    ReducedWidenedRow(t, u, i, reduced[i]);
  }

  /**
   * The `i`-th trap row of the combination, which follows all the storage
   * rows: the trap cell or 0 in every column, and the trap geometry reduced.
   */
  lemma CombinedTrapRow(trap: Table, storage: Table, out: Table, i: int)
    requires IsGeoTable(trap) && IsGeoTable(storage) && Combined(trap, storage) == Success(out)
    requires 0 <= i < |trap.rows|
    ensures out.rows[|storage.rows| + i].Keys == trap.columns + storage.columns
    ensures forall c :: c in trap.columns + storage.columns && c != GeometryColumn ==>
              out.rows[|storage.rows| + i][c] == if c in trap.columns then trap.rows[i][c] else Zero
    ensures Geometry.RemoveThirdDimension(trap.rows[i][GeometryColumn].g) ==
              Success(out.rows[|storage.rows| + i][GeometryColumn].g)
  {
    var u := trap.columns + storage.columns;
    CombinedParts(trap, storage, out);
    RowAfterHead(trap, u, out.rows, ReducedRows(Widen(storage, u).rows).value, ReducedRows(Widen(trap, u).rows).value,
                 |storage.rows|, i);
  }

  /** The rows of the combination: the reduced storage rows, then the reduced trap rows. */
  lemma CombinedParts(trap: Table, storage: Table, out: Table)
    requires IsGeoTable(trap) && IsGeoTable(storage) && Combined(trap, storage) == Success(out)
    ensures ReducedRows(Widen(storage, trap.columns + storage.columns).rows).Success?
    ensures ReducedRows(Widen(trap, trap.columns + storage.columns).rows).Success?
    ensures |ReducedRows(Widen(storage, trap.columns + storage.columns).rows).value| == |storage.rows|
    ensures out.rows == ReducedRows(Widen(storage, trap.columns + storage.columns).rows).value +
                        ReducedRows(Widen(trap, trap.columns + storage.columns).rows).value
  {
  }

  /** A reduced row of a geodata frame whose geometries are well formed has a two-dimensional geometry. */
  lemma ReducedRowIsTwoDimensional(t: Table, u: set<string>, reduced: seq<Row>, i: int)
    requires IsGeoTable(t) && WellFormedShapes(t) && t.columns <= u
    requires ReducedRows(Widen(t, u).rows) == Success(reduced) && 0 <= i < |reduced|
    ensures GeometryColumn in reduced[i] && reduced[i][GeometryColumn].Shape?
    ensures Geometry.TwoDimensional(reduced[i][GeometryColumn].g)
  {
    ReducedWidenedRow(t, u, i, reduced[i]);
    Geometry.RemoveYieldsTwoDimensional(t.rows[i][GeometryColumn].g);
  }

  /** Concatenated reduced rows of two well-formed geodata frames all have two-dimensional geometries. */
  lemma ConcatenationIsTwoDimensional(storage: Table, trap: Table, u: set<string>, s: seq<Row>, t: seq<Row>)
    requires IsGeoTable(storage) && WellFormedShapes(storage) && storage.columns <= u
    requires IsGeoTable(trap) && WellFormedShapes(trap) && trap.columns <= u
    requires ReducedRows(Widen(storage, u).rows) == Success(s)
    requires ReducedRows(Widen(trap, u).rows) == Success(t)
    ensures forall i :: 0 <= i < |s + t| ==> GeometryColumn in (s + t)[i] && (s + t)[i][GeometryColumn].Shape?
    ensures forall i :: 0 <= i < |s + t| ==> Geometry.TwoDimensional((s + t)[i][GeometryColumn].g)
  {
    forall i | 0 <= i < |s + t|
      ensures GeometryColumn in (s + t)[i] && (s + t)[i][GeometryColumn].Shape?
      ensures Geometry.TwoDimensional((s + t)[i][GeometryColumn].g)
    {
      if i < |s| {
        ReducedRowIsTwoDimensional(storage, u, s, i);
      } else {
        ReducedRowIsTwoDimensional(trap, u, t, i - |s|);
      }
    }
  }

  /** When the input geometries are well formed, every coordinate of the combination is an (x, y) pair. */
  lemma CombinedIsTwoDimensional(trap: Table, storage: Table, out: Table)
    requires IsGeoTable(trap) && IsGeoTable(storage) && Combined(trap, storage) == Success(out)
    requires WellFormedShapes(trap) && WellFormedShapes(storage)
    ensures forall i :: 0 <= i < |out.rows| ==> Geometry.TwoDimensional(out.rows[i][GeometryColumn].g)
  {
    var u := trap.columns + storage.columns;
    CombinedParts(trap, storage, out);
    ConcatenationIsTwoDimensional(storage, trap, u, ReducedRows(Widen(storage, u).rows).value, ReducedRows(Widen(trap, u).rows).value);
  }
}
