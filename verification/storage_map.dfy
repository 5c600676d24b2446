/**
 * The storage-unit mapper: a capacity per storage unit in three scenarios,
 * derived row by row from the capacity table, then joined onto the grouped
 * storage-unit geometries by identifier.
 */
module StorageMap {
  import opened Wrappers
  import opened Cells
  import opened Estimates
  import opened Columns
  import opened Join

  /** The columns of one storage-unit capacity row that the mapper reads. */
  datatype StorageUnitRecord = StorageUnitRecord(
    storageUnitId: Value,      // STORAGE_UNIT_ID
    estStoreCap: TierColumns,  // EST_STORECAP_MIN / _MEAN / _MAX
    storeCap: TierColumns,     // STORE_CAP_MIN / _MEAN / _MAX
    hcDaughter: Cell)          // STORE_CAP_HCDAUGHTER

  /** A row of the reduced capacity table: the identifier and the three scenarios. */
  datatype StorageCapacity = StorageCapacity(storageUnitId: Value, estimate: Scenarios)

  const StorageUnitIdColumn := "STORAGE_UNIT_ID"

  /**
   * A scenario before the cross-tier fill: the EST_STORECAP estimate, or the
   * STORE_CAP one when that is zero or missing, plus the hydrocarbon-daughter
   * capacity; missing as soon as either term is.
   */
  function ScenarioBase(r: StorageUnitRecord, t: Tier): (c: Cell)
    ensures Usable(r.estStoreCap.At(t)) && r.hcDaughter.Some? ==>
              c == Some(r.estStoreCap.At(t).value + r.hcDaughter.value)
    ensures !Usable(r.estStoreCap.At(t)) && r.storeCap.At(t).Some? && r.hcDaughter.Some? ==>
              c == Some(r.storeCap.At(t).value + r.hcDaughter.value)
    ensures r.hcDaughter.None? || (!Usable(r.estStoreCap.At(t)) && r.storeCap.At(t).None?) ==> c == None
  {
    Add(Resolve(r.estStoreCap.At(t), r.storeCap.At(t)), r.hcDaughter)
  }

  function BaseCells(r: StorageUnitRecord): TierCells {
    TierCells(ScenarioBase(r, Min), ScenarioBase(r, Mean), ScenarioBase(r, Max))
  }

  /**
   * The reduced row of one capacity record: the identifier with a missing
   * value turned into 0, conservative from the MIN columns, neutral from
   * MEAN unless that is zero or missing (then conservative), optimistic from
   * MAX unless that is zero or missing (then neutral).
   */
  function StorageCapacityOf(r: StorageUnitRecord): (c: StorageCapacity)
    ensures c.storageUnitId == FillValue(r.storageUnitId)
    ensures c.estimate.conservative == ZeroFill(ScenarioBase(r, Min))
    ensures c.estimate.neutral ==
              if Usable(ScenarioBase(r, Mean)) then ScenarioBase(r, Mean).value else c.estimate.conservative
    ensures c.estimate.optimistic ==
              if Usable(ScenarioBase(r, Max)) then ScenarioBase(r, Max).value else c.estimate.neutral
  {
    StorageCapacity(FillValue(r.storageUnitId), FinalScenarios(BaseCells(r)))
  }

  function Capacities(table: seq<StorageUnitRecord>): (lite: seq<StorageCapacity>)
    ensures |lite| == |table|
  {
    seq(|table|, i requires 0 <= i < |table| => StorageCapacityOf(table[i]))
  }

  function EstColumn(table: seq<StorageUnitRecord>, t: Tier): (col: seq<Cell>)
    ensures |col| == |table|
  {
    seq(|table|, i requires 0 <= i < |table| => table[i].estStoreCap.At(t))
  }

  function CapColumn(table: seq<StorageUnitRecord>, t: Tier): (col: seq<Cell>)
    ensures |col| == |table|
  {
    seq(|table|, i requires 0 <= i < |table| => table[i].storeCap.At(t))
  }

  /** One scenario column as the mapper first builds it: resolved, then the daughter capacity added. */
  method BaseColumn(table: seq<StorageUnitRecord>, t: Tier) returns (col: array<Cell>)
    ensures fresh(col) && col.Length == |table|
    ensures forall k :: 0 <= k < |table| ==> col[k] == ScenarioBase(table[k], t)
  {
    col := ResolvedColumn(EstColumn(table, t), CapColumn(table, t));
    AddInPlace(col, seq(|table|, i requires 0 <= i < |table| => table[i].hcDaughter));
  }

  /**
   * Step 2 of the storage-unit mapper, column by column as the source does
   * it: the three base columns, the cross-tier fill, `fillna(0)` over the
   * whole table, then the identifier and the scenario columns kept.
   */
  method StorageUnitCapacities(table: seq<StorageUnitRecord>) returns (lite: seq<StorageCapacity>)
    ensures |lite| == |table|
    ensures forall i :: 0 <= i < |table| ==> lite[i] == StorageCapacityOf(table[i])
  {
    var cons := BaseColumn(table, Min);
    var neu := BaseColumn(table, Mean);
    var opt := BaseColumn(table, Max);
    CrossFillColumns(cons, neu, opt);
    ghost var filled := seq(|table|, k requires 0 <= k < |table| reads cons, neu, opt =>
                              TierCells(cons[k], neu[k], opt[k]));
    ZeroFillInPlace(cons);
    ZeroFillInPlace(neu);
    ZeroFillInPlace(opt);
    var c, m, o := cons[..], neu[..], opt[..];
    lite := seq(|table|, i requires 0 <= i < |table| =>
                  StorageCapacity(FillValue(table[i].storageUnitId),
                                  Scenarios(ZeroFill(c[i]), ZeroFill(m[i]), ZeroFill(o[i]))));
    forall i | 0 <= i < |table| ensures lite[i] == StorageCapacityOf(table[i]) {
      assert filled[i] == CrossFill(BaseCells(table[i]));
    }
  }

  /** The scenario cells a map row carries for a unit whose reduced row is `s`. */
  function EstimateCells(s: Scenarios): (r: Row)
    ensures r.Keys == ScenarioColumns
  {
    map[ConservativeColumn := Num(Some(s.conservative)),
        NeutralColumn := Num(Some(s.neutral)),
        OptimisticColumn := Num(Some(s.optimistic))]
  }

  function Ids(lite: seq<StorageCapacity>): (ids: seq<Value>)
    ensures |ids| == |lite|
  {
    seq(|lite|, k requires 0 <= k < |lite| => lite[k].storageUnitId)
  }

  function Payloads(lite: seq<StorageCapacity>): (ps: seq<Row>)
    ensures KeyedRows(StorageUnitIdColumn, ScenarioColumns, Ids(lite), ps)
  {
    seq(|lite|, k requires 0 <= k < |lite| => EstimateCells(lite[k].estimate))
  }

  /** The reduced table: STORAGE_UNIT_ID and the three scenario columns. */
  function LiteTable(lite: seq<StorageCapacity>): Table {
    KeyedTable(StorageUnitIdColumn, ScenarioColumns, Ids(lite), Payloads(lite))
  }

  lemma LiteMergeable(grouped: seq<GeoRow>, lite: seq<StorageCapacity>)
    ensures Mergeable(GeoTable(grouped), LiteTable(lite), IdColumn, StorageUnitIdColumn)
  {
  }

  /**
   * Step 3: the grouped geometries joined with the reduced table on
   * ID = STORAGE_UNIT_ID, keeping every geometry row, and the key dropped.
   */
  function StorageMap(grouped: seq<GeoRow>, table: seq<StorageUnitRecord>): (t: Table)
    ensures WellFormed(t) && t.columns == GeoColumns + ScenarioColumns
    ensures StorageUnitIdColumn !in t.columns
  {
    LiteMergeable(grouped, Capacities(table));
    MergeLeftDropKey(GeoTable(grouped), LiteTable(Capacities(table)), IdColumn, StorageUnitIdColumn)
  }

  /** The storage-unit mapper without its file input and output. */
  method GenerateStorageCapacityMap(table: seq<StorageUnitRecord>, grouped: seq<GeoRow>) returns (t: Table)
    ensures t == StorageMap(grouped, table)
  {
    var lite := StorageUnitCapacities(table);
    assert lite == Capacities(table);
    LiteMergeable(grouped, lite);
    t := MergeLeftDropKey(GeoTable(grouped), LiteTable(lite), IdColumn, StorageUnitIdColumn);
  }

  /**
   * A worked case: MIN falls back from 0 to STORE_CAP_MIN, MEAN keeps its
   * estimate, MAX falls back from 0 to STORE_CAP_MAX, and the daughter
   * capacity is added to each.
   */
  lemma FallbackExample()
    ensures var r := StorageUnitRecord(Num(Some(1.0)),
                                       TierColumns(Some(0.0), Some(10.0), Some(0.0)),
                                       TierColumns(Some(5.0), None, Some(20.0)),
                                       Some(2.0));
            StorageCapacityOf(r).estimate == Scenarios(7.0, 12.0, 22.0)
  {
  }

  /**
   * A worked case of the cross-tier fill: MEAN and MAX have a zero estimate
   * and no STORE_CAP figure, so neutral takes the conservative 5 + 2 and
   * optimistic takes that filled neutral.
   */
  lemma CrossTierExample()
    ensures var r := StorageUnitRecord(Num(Some(1.0)),
                                       TierColumns(Some(0.0), Some(0.0), Some(0.0)),
                                       TierColumns(Some(5.0), None, None),
                                       Some(2.0));
            StorageCapacityOf(r).estimate == Scenarios(7.0, 7.0, 7.0)
  {
  }

  /** A missing daughter capacity makes every scenario missing, so all three end up 0. */
  lemma MissingDaughterGivesZero(r: StorageUnitRecord)
    requires r.hcDaughter.None?
    ensures StorageCapacityOf(r).estimate == Scenarios(0.0, 0.0, 0.0)
  {
  }

  /** The storage map is a geodata frame and holds every grouped geometry row. */
  lemma StorageMapKeepsEveryUnit(grouped: seq<GeoRow>, table: seq<StorageUnitRecord>, t: Table)
    requires t == StorageMap(grouped, table)
    ensures IsGeoTable(t)
    ensures |t.rows| >= |grouped|
    ensures forall i :: 0 <= i < |grouped| ==> Present(t.rows, GeoCells(grouped[i]))
  {
    LiteMergeable(grouped, Capacities(table));
    MergeKeepsEveryGeoRow(GeoTable(grouped), LiteTable(Capacities(table)), IdColumn, StorageUnitIdColumn, t);
  }

  /** No two capacity rows share an identifier (once a missing identifier has become 0). */
  predicate UniqueIds(table: seq<StorageUnitRecord>) {
    forall k, m :: 0 <= k < |table| && 0 <= m < |table| && FillValue(table[k].storageUnitId) == FillValue(table[m].storageUnitId) ==> k == m
  }

  /**
   * With unique identifiers the map has one row per grouped geometry, in
   * order: it carries the reduced capacities of the unit with the same
   * identifier, or missing values when the capacity table has no such unit.
   */
  lemma StorageMapMatchesUnits(grouped: seq<GeoRow>, table: seq<StorageUnitRecord>, t: Table)
    requires UniqueIds(table)
    requires t == StorageMap(grouped, table)
    ensures |t.rows| == |grouped|
    ensures forall i :: 0 <= i < |grouped| ==> Agrees(t.rows[i], GeoCells(grouped[i]))
    ensures forall i, k :: 0 <= i < |grouped| && 0 <= k < |table| && FillValue(table[k].storageUnitId) == grouped[i].id ==>
              Agrees(t.rows[i], EstimateCells(StorageCapacityOf(table[k]).estimate))
    ensures forall i :: 0 <= i < |grouped| && (forall k :: 0 <= k < |table| ==> FillValue(table[k].storageUnitId) != grouped[i].id) ==>
              Agrees(t.rows[i], MissingCells(ScenarioColumns))
  {
    var lite := Capacities(table);
    var left := GeoTable(grouped);
    LiteMergeable(grouped, lite);
    CapacityKeys(table);
    KeyedMergeUnique(left, IdColumn, StorageUnitIdColumn, ScenarioColumns, Ids(lite), Payloads(lite), t);
    forall i, k | 0 <= i < |grouped| && 0 <= k < |table| && FillValue(table[k].storageUnitId) == grouped[i].id
      ensures Agrees(t.rows[i], EstimateCells(StorageCapacityOf(table[k]).estimate))
    {
      assert Ids(lite)[k] == left.rows[i][IdColumn];
    }
  }

  /** The keys and the cells of the reduced table, row by row. */
  lemma CapacityKeys(table: seq<StorageUnitRecord>)
    ensures forall k :: 0 <= k < |table| ==> Ids(Capacities(table))[k] == FillValue(table[k].storageUnitId)
    ensures forall k :: 0 <= k < |table| ==> Payloads(Capacities(table))[k] == EstimateCells(StorageCapacityOf(table[k]).estimate)
    ensures UniqueIds(table) ==> DistinctKeys(Ids(Capacities(table)))
  {
  }
}
