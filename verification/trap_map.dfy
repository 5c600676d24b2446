/**
 * The trap mapper: per trap, an aquifer, an oil and a gas capacity in each
 * scenario, their sum as the trap's total, the cross-tier fill on the totals,
 * then a join onto the grouped trap geometries by identifier.
 */
module TrapMap {
  import opened Wrappers
  import opened Cells
  import opened Estimates
  import opened Columns
  import opened Join

  /** The columns of one trap capacity row that the mapper reads. */
  datatype TrapRecord = TrapRecord(
    trapId: Value,             // TRAP_ID
    estStoreCap: TierColumns,  // EST_STORECAP_MIN / _MEAN / _MAX
    storeCap: TierColumns,     // STORE_CAP_MIN / _MEAN / _MAX
    estOil: TierColumns,       // MIN_ / MEAN_ / MAX_EST_STORE_CAP_OIL
    calcOil: TierColumns,      // MIN_ / MEAN_ / MAX_CALC_STORE_CAP_OIL
    estGas: TierColumns,       // MIN_ / MEAN_ / MAX_EST_STORE_CAP_GAS
    calcGas: TierColumns)      // MIN_ / MEAN_ / MAX_CALC_STORE_CAP_GAS

  /** A row of the reduced trap table: the identifier, the totals and the three components. */
  datatype TrapCapacity = TrapCapacity(trapId: Value, total: Scenarios, aquifer: Scenarios, oil: Scenarios, gas: Scenarios)

  // ---------------------------------------------------------------------------
  // Loading the capacity tables
  // ---------------------------------------------------------------------------

  /** What the mapper is given to load: one table, a list of tables, or anything else. */
  datatype TableSource = Single(table: seq<TrapRecord>) | Several(tables: seq<seq<TrapRecord>>) | Neither

  /**
   * `Neither` is the ValueError the loader raises; `Unbound` is the error an
   * empty list of tables ends in, since no table is ever assigned then.
   */
  datatype LoadError = ValueError | Unbound

  /** `pd.concat` of a list of tables followed by a fresh index: the rows of each table, in order. */
  function Concat(ts: seq<seq<TrapRecord>>): (r: seq<TrapRecord>)
    ensures ts == [] ==> r == []
  {
    if ts == [] then [] else Concat(ts[..|ts| - 1]) + ts[|ts| - 1]
  }

  /** Concatenating two lists of tables concatenates their rows. */
  lemma {:induction false} ConcatAppend(a: seq<seq<TrapRecord>>, b: seq<seq<TrapRecord>>)
    ensures Concat(a + b) == Concat(a) + Concat(b)
    decreases |b|
  {
    if b == [] {
      assert a + b == a;
    } else {
      var b' := b[..|b| - 1];
      assert (a + b)[..|a + b| - 1] == a + b';
      ConcatAppend(a, b');
    }
  }

  /** A list of one table loads as that table. */
  lemma ConcatSingle(t: seq<TrapRecord>)
    ensures Concat([t]) == t
  {
    assert [t][..0] == [];
  }

  /** The concatenation has as many rows as all the tables together. */
  lemma {:induction false} ConcatLength(ts: seq<seq<TrapRecord>>)
    ensures |Concat(ts)| == SumOfLengths(ts)
  {
    if ts != [] {
      ConcatLength(ts[..|ts| - 1]);
    }
  }

  function SumOfLengths(ts: seq<seq<TrapRecord>>): nat {
    if ts == [] then 0 else SumOfLengths(ts[..|ts| - 1]) + |ts[|ts| - 1]|
  }

  /**
   * Step 1 of the trap mapper: a single table is read as it is; a list is
   * read table by table, the concatenation redone after each one; anything
   * else is an error.
   */
  method LoadTraps(src: TableSource) returns (r: Result<seq<TrapRecord>, LoadError>)
    ensures src.Single? ==> r == Success(src.table)
    ensures src.Several? && src.tables != [] ==> r == Success(Concat(src.tables))
    ensures src.Several? && src.tables == [] ==> r == Failure(Unbound)
    ensures src.Neither? ==> r == Failure(ValueError)
  {
    match src
    case Single(t) =>
      r := Success(t);
    case Several(ts) =>
      var tableList: seq<seq<TrapRecord>> := [];
      var trap: Option<seq<TrapRecord>> := None;
      for i := 0 to |ts|
        invariant tableList == ts[..i]
        invariant trap == if i == 0 then None else Some(Concat(tableList))
      {
        tableList := tableList + [ts[i]];
        trap := Some(Concat(tableList));
      }
      assert tableList == ts;
      if trap.None? {
        r := Failure(Unbound);
      } else {
        r := Success(trap.value);
      }
    case Neither =>
      r := Failure(ValueError);
  }

  // ---------------------------------------------------------------------------
  // The capacity derivation
  // ---------------------------------------------------------------------------

  /**
   * One component in one scenario: the estimated capacity, or the
   * calculated one when that is zero or missing.
   */
  function Component(est: TierColumns, fallback: TierColumns, t: Tier): Cell {
    Resolve(est.At(t), fallback.At(t))
  }

  /** A component's three scenarios after `fillna(0)`. */
  function FilledComponent(est: TierColumns, fallback: TierColumns): (s: Scenarios)
    ensures forall t :: s.At(t) == if Usable(est.At(t)) then est.At(t).value else ZeroFill(fallback.At(t))
  {
    Scenarios(ZeroFill(Component(est, fallback, Min)), ZeroFill(Component(est, fallback, Mean)), ZeroFill(Component(est, fallback, Max)))
  }

  /** The total of one scenario before the cross-tier fill: the row sum of its three components. */
  function TotalBase(r: TrapRecord, t: Tier): Cell {
    Some(SumSkipMissing([Component(r.estStoreCap, r.storeCap, t), Component(r.estOil, r.calcOil, t),
                         Component(r.estGas, r.calcGas, t)]))
  }

  function TotalCells(r: TrapRecord): TierCells {
    TierCells(TotalBase(r, Min), TotalBase(r, Mean), TotalBase(r, Max))
  }

  /** The sum of a reduced row's three components in one scenario. */
  function ComponentSum(c: TrapCapacity, t: Tier): real {
    c.aquifer.At(t) + c.oil.At(t) + c.gas.At(t)
  }

  /**
   * The reduced row of one trap: each component zero-filled; the
   * conservative total is the sum of its components; the neutral total is
   * its component sum unless that is 0, in which case it is the
   * conservative total; likewise optimistic falls back on neutral.
   */
  function TrapCapacityOf(r: TrapRecord): (c: TrapCapacity)
    ensures c.trapId == FillValue(r.trapId)
    ensures c.aquifer == FilledComponent(r.estStoreCap, r.storeCap)
    ensures c.oil == FilledComponent(r.estOil, r.calcOil)
    ensures c.gas == FilledComponent(r.estGas, r.calcGas)
    ensures c.total.conservative == ComponentSum(c, Min)
    ensures c.total.neutral == if ComponentSum(c, Mean) != 0.0 then ComponentSum(c, Mean) else c.total.conservative
    ensures c.total.optimistic == if ComponentSum(c, Max) != 0.0 then ComponentSum(c, Max) else c.total.neutral
  {
    var c := TrapCapacity(FillValue(r.trapId), FinalScenarios(TotalCells(r)),
                          FilledComponent(r.estStoreCap, r.storeCap),
                          FilledComponent(r.estOil, r.calcOil),
                          FilledComponent(r.estGas, r.calcGas));
    TotalIsComponentSum(r, Min);
    TotalIsComponentSum(r, Mean);
    TotalIsComponentSum(r, Max);
    c
  }

  lemma TotalIsComponentSum(r: TrapRecord, t: Tier)
    ensures TotalBase(r, t).value ==
              FilledComponent(r.estStoreCap, r.storeCap).At(t) + FilledComponent(r.estOil, r.calcOil).At(t)
              + FilledComponent(r.estGas, r.calcGas).At(t)
  {
    SumOfThree(Component(r.estStoreCap, r.storeCap, t), Component(r.estOil, r.calcOil, t),
               Component(r.estGas, r.calcGas, t));
  }

  /** A trap with no capacity figure at all gets 0 everywhere, the totals included. */
  lemma EmptyTrapIsZero(r: TrapRecord)
    requires r.estStoreCap == r.storeCap == r.estOil == r.calcOil == r.estGas == r.calcGas == TierColumns(None, None, None)
    ensures var c := TrapCapacityOf(r);
            c.total == c.aquifer == c.oil == c.gas == Scenarios(0.0, 0.0, 0.0)
  {
  }

  /**
   * Only the totals take part in the cross-tier fill: a trap whose only
   * figure is a conservative aquifer capacity has that total in every
   * scenario, while its neutral and optimistic aquifer components stay 0.
   */
  lemma CrossFillOnlyTotals(r: TrapRecord, v: real)
    requires v != 0.0
    requires r.estStoreCap == TierColumns(Some(v), None, None)
    requires r.storeCap == r.estOil == r.calcOil == r.estGas == r.calcGas == TierColumns(None, None, None)
    ensures var c := TrapCapacityOf(r);
            c.total == Scenarios(v, v, v) && c.aquifer == Scenarios(v, 0.0, 0.0)
  {
  }

  function TrapIds(table: seq<TrapRecord>): (col: seq<Value>)
    ensures |col| == |table|
  {
    seq(|table|, i requires 0 <= i < |table| => FillValue(table[i].trapId))
  }

  function Capacities(table: seq<TrapRecord>): (lite: seq<TrapCapacity>)
    ensures |lite| == |table|
  {
    seq(|table|, i requires 0 <= i < |table| => TrapCapacityOf(table[i]))
  }

  /** The scenario column of a pair of capacity columns, as one column. */
  function TierColumn(table: seq<TrapRecord>, select: TrapRecord -> TierColumns, t: Tier): (col: seq<Cell>)
    ensures |col| == |table|
  {
    seq(|table|, i requires 0 <= i < |table| => select(table[i]).At(t))
  }

  /** `fillna(0)` on a column whose cells are all present by now: the values. */
  function Values(col: seq<Cell>): (vs: seq<real>)
    requires forall k :: 0 <= k < |col| ==> col[k].Some?
    ensures |vs| == |col| && forall k :: 0 <= k < |col| ==> col[k] == Some(vs[k])
  {
    seq(|col|, k requires 0 <= k < |col| => col[k].value)
  }

  /**
   * The three component columns and the total column of one scenario, as
   * the source builds them. The components are zero-filled here rather than
   * with the rest of the table at the end; the cross-tier fill reads only
   * the totals, so the result is the same.
   */
  method TierTotals(table: seq<TrapRecord>, t: Tier) returns (aquifer: seq<real>, oil: seq<real>, gas: seq<real>, total: array<Cell>)
    ensures fresh(total) && total.Length == |aquifer| == |oil| == |gas| == |table|
    ensures forall k :: 0 <= k < |table| ==>
              && aquifer[k] == ZeroFill(Component(table[k].estStoreCap, table[k].storeCap, t))
              && oil[k] == ZeroFill(Component(table[k].estOil, table[k].calcOil, t))
              && gas[k] == ZeroFill(Component(table[k].estGas, table[k].calcGas, t))
              && total[k] == TotalBase(table[k], t)
  {
    var aq := ResolvedColumn(TierColumn(table, (r: TrapRecord) => r.estStoreCap, t), TierColumn(table, (r: TrapRecord) => r.storeCap, t));
    var ol := ResolvedColumn(TierColumn(table, (r: TrapRecord) => r.estOil, t), TierColumn(table, (r: TrapRecord) => r.calcOil, t));
    var gs := ResolvedColumn(TierColumn(table, (r: TrapRecord) => r.estGas, t), TierColumn(table, (r: TrapRecord) => r.calcGas, t));
    total := RowSums(aq[..], ol[..], gs[..]);
    ZeroFillInPlace(aq);
    ZeroFillInPlace(ol);
    ZeroFillInPlace(gs);
    aquifer, oil, gas := Values(aq[..]), Values(ol[..]), Values(gs[..]);
  }

  /**
   * Step 2 of the trap mapper: components and totals per scenario, the
   * cross-tier fill on the totals, `fillna(0)` on the totals, then the
   * identifier and the twelve capacity columns kept.
   */
  method TrapCapacities(table: seq<TrapRecord>) returns (lite: seq<TrapCapacity>)
    ensures |lite| == |table|
    ensures forall i :: 0 <= i < |table| ==> lite[i] == TrapCapacityOf(table[i])
  {
    var aqMin, oilMin, gasMin, totMin := TierTotals(table, Min);
    var aqMean, oilMean, gasMean, totMean := TierTotals(table, Mean);
    var aqMax, oilMax, gasMax, totMax := TierTotals(table, Max);
    CrossFillColumns(totMin, totMean, totMax);
    ghost var filled := seq(|table|, k requires 0 <= k < |table| reads totMin, totMean, totMax =>
                              TierCells(totMin[k], totMean[k], totMax[k]));
    ZeroFillInPlace(totMin);
    ZeroFillInPlace(totMean);
    ZeroFillInPlace(totMax);
    var cons, neu, opt := Values(totMin[..]), Values(totMean[..]), Values(totMax[..]);
    lite := seq(|table|, i requires 0 <= i < |table| =>
                  TrapCapacity(FillValue(table[i].trapId),
                               Scenarios(cons[i], neu[i], opt[i]),
                               Scenarios(aqMin[i], aqMean[i], aqMax[i]),
                               Scenarios(oilMin[i], oilMean[i], oilMax[i]),
                               Scenarios(gasMin[i], gasMean[i], gasMax[i])));
    forall i | 0 <= i < |table| ensures lite[i] == TrapCapacityOf(table[i]) {
      assert filled[i] == CrossFill(TotalCells(table[i]));
    }
  }

  // ---------------------------------------------------------------------------
  // The trap map
  // ---------------------------------------------------------------------------

  const TrapIdColumn := "TRAP_ID"
  const ConservativeAquiferColumn := "conservative estimate aquifer Mt"
  const ConservativeOilColumn := "conservative estimate OIL Mt"
  const ConservativeGasColumn := "conservative estimate GAS Mt"
  const NeutralAquiferColumn := "neutral estimate aquifer Mt"
  const NeutralOilColumn := "neutral estimate OIL Mt"
  const NeutralGasColumn := "neutral estimate GAS Mt"
  const OptimisticAquiferColumn := "optimistic estimate aquifer Mt"
  const OptimisticOilColumn := "optimistic estimate OIL Mt"
  const OptimisticGasColumn := "optimistic estimate GAS Mt"

  /** The twelve capacity columns the trap map carries. */
  const TrapCapacityColumns: set<string> :=
    ScenarioColumns
    + {ConservativeAquiferColumn, ConservativeOilColumn, ConservativeGasColumn,
       NeutralAquiferColumn, NeutralOilColumn, NeutralGasColumn,
       OptimisticAquiferColumn, OptimisticOilColumn, OptimisticGasColumn}

  /** The capacity cells a map row carries for a trap whose reduced row is `c`. */
  function CapacityCells(c: TrapCapacity): (r: Row)
    ensures r.Keys == TrapCapacityColumns
  {
    map[OptimisticColumn := Num(Some(c.total.optimistic)),
        NeutralColumn := Num(Some(c.total.neutral)),
        ConservativeColumn := Num(Some(c.total.conservative)),
        OptimisticAquiferColumn := Num(Some(c.aquifer.optimistic)),
        OptimisticOilColumn := Num(Some(c.oil.optimistic)),
        OptimisticGasColumn := Num(Some(c.gas.optimistic)),
        NeutralAquiferColumn := Num(Some(c.aquifer.neutral)),
        NeutralOilColumn := Num(Some(c.oil.neutral)),
        NeutralGasColumn := Num(Some(c.gas.neutral)),
        ConservativeAquiferColumn := Num(Some(c.aquifer.conservative)),
        ConservativeOilColumn := Num(Some(c.oil.conservative)),
        ConservativeGasColumn := Num(Some(c.gas.conservative))]
  }

  function Ids(lite: seq<TrapCapacity>): (ids: seq<Value>)
    ensures |ids| == |lite|
  {
    seq(|lite|, k requires 0 <= k < |lite| => lite[k].trapId)
  }

  function Payloads(lite: seq<TrapCapacity>): (ps: seq<Row>)
    ensures KeyedRows(TrapIdColumn, TrapCapacityColumns, Ids(lite), ps)
  {
    seq(|lite|, k requires 0 <= k < |lite| => CapacityCells(lite[k]))
  }

  /** The reduced table: TRAP_ID and the twelve capacity columns. */
  function LiteTable(lite: seq<TrapCapacity>): Table {
    KeyedTable(TrapIdColumn, TrapCapacityColumns, Ids(lite), Payloads(lite))
  }

  lemma ConservativeColumnsAreNew()
    ensures GeoColumns !! {ConservativeColumn, ConservativeAquiferColumn, ConservativeOilColumn, ConservativeGasColumn}
  {
  }

  lemma NeutralColumnsAreNew()
    ensures GeoColumns !! {NeutralColumn, NeutralAquiferColumn, NeutralOilColumn, NeutralGasColumn}
  {
  }

  lemma OptimisticColumnsAreNew()
    ensures GeoColumns !! {OptimisticColumn, OptimisticAquiferColumn, OptimisticOilColumn, OptimisticGasColumn}
  {
  }

  lemma LiteMergeable(grouped: seq<GeoRow>, lite: seq<TrapCapacity>)
    ensures Mergeable(GeoTable(grouped), LiteTable(lite), IdColumn, TrapIdColumn)
  {
    ConservativeColumnsAreNew();
    NeutralColumnsAreNew();
    OptimisticColumnsAreNew();
  }

  /**
   * Step 3: the grouped trap geometries joined with the reduced table on
   * ID = TRAP_ID, keeping every geometry row, and the key dropped.
   */
  function TrapMap(grouped: seq<GeoRow>, table: seq<TrapRecord>): (t: Table)
    ensures WellFormed(t) && t.columns == GeoColumns + TrapCapacityColumns
    ensures TrapIdColumn !in t.columns
  {
    LiteMergeable(grouped, Capacities(table));
    MergeLeftDropKey(GeoTable(grouped), LiteTable(Capacities(table)), IdColumn, TrapIdColumn)
  }

  /** The trap mapper without its file input and output: load, derive, join. */
  method GenerateTrapCapacityMap(src: TableSource, grouped: seq<GeoRow>) returns (r: Result<Table, LoadError>)
    ensures src.Neither? ==> r == Failure(ValueError)
    ensures src.Several? && src.tables == [] ==> r == Failure(Unbound)
    ensures src.Single? ==> r == Success(TrapMap(grouped, src.table))
    ensures src.Several? && src.tables != [] ==> r == Success(TrapMap(grouped, Concat(src.tables)))
  {
    var loaded := LoadTraps(src);
    if loaded.Failure? {
      return Failure(loaded.error);
    }
    var lite := TrapCapacities(loaded.value);
    assert lite == Capacities(loaded.value);
    LiteMergeable(grouped, lite);
    r := Success(MergeLeftDropKey(GeoTable(grouped), LiteTable(lite), IdColumn, TrapIdColumn));
  }

  /** The trap map is a geodata frame and holds every grouped geometry row. */
  lemma TrapMapKeepsEveryTrap(grouped: seq<GeoRow>, table: seq<TrapRecord>, t: Table)
    requires t == TrapMap(grouped, table)
    ensures IsGeoTable(t)
    ensures |t.rows| >= |grouped|
    ensures forall i :: 0 <= i < |grouped| ==> Present(t.rows, GeoCells(grouped[i]))
  {
    LiteMergeable(grouped, Capacities(table));
    MergeKeepsEveryGeoRow(GeoTable(grouped), LiteTable(Capacities(table)), IdColumn, TrapIdColumn, t);
  }

  /** No two trap rows share an identifier (once a missing identifier has become 0). */
  predicate UniqueIds(table: seq<TrapRecord>) {
    forall k, m :: 0 <= k < |table| && 0 <= m < |table| && FillValue(table[k].trapId) == FillValue(table[m].trapId) ==> k == m
  }

  /** The keys and the cells of the reduced table, row by row. */
  lemma CapacityKeys(table: seq<TrapRecord>)
    ensures forall k :: 0 <= k < |table| ==> Ids(Capacities(table))[k] == FillValue(table[k].trapId)
    ensures forall k :: 0 <= k < |table| ==> Payloads(Capacities(table))[k] == CapacityCells(TrapCapacityOf(table[k]))
    ensures UniqueIds(table) ==> DistinctKeys(Ids(Capacities(table)))
  {
  }

  /**
   * With unique identifiers the map has one row per grouped geometry, in
   * order: it carries the reduced capacities of the trap with the same
   * identifier, or missing values when the capacity table has no such trap.
   */
  lemma TrapMapMatchesTraps(grouped: seq<GeoRow>, table: seq<TrapRecord>, t: Table)
    requires UniqueIds(table)
    requires t == TrapMap(grouped, table)
    ensures |t.rows| == |grouped|
    ensures forall i :: 0 <= i < |grouped| ==> Agrees(t.rows[i], GeoCells(grouped[i]))
    ensures forall i, k :: 0 <= i < |grouped| && 0 <= k < |table| && FillValue(table[k].trapId) == grouped[i].id ==>
              Agrees(t.rows[i], CapacityCells(TrapCapacityOf(table[k])))
    ensures forall i :: 0 <= i < |grouped| && (forall k :: 0 <= k < |table| ==> FillValue(table[k].trapId) != grouped[i].id) ==>
              Agrees(t.rows[i], MissingCells(TrapCapacityColumns))
  {
    var lite := Capacities(table);
    var left := GeoTable(grouped);
    LiteMergeable(grouped, lite);
    CapacityKeys(table);
    KeyedMergeUnique(left, IdColumn, TrapIdColumn, TrapCapacityColumns, Ids(lite), Payloads(lite), t);
    forall i, k | 0 <= i < |grouped| && 0 <= k < |table| && FillValue(table[k].trapId) == grouped[i].id
      ensures Agrees(t.rows[i], CapacityCells(TrapCapacityOf(table[k])))
    {
      assert Ids(lite)[k] == left.rows[i][IdColumn];
    }
  }
}
