# CO2 storage capacity map — a Dafny model

This project models the core of `script/create_co2_storage_map.py`, the script that builds a
geospatial map of CO2 storage capacity from two sources:

- **Storage units.** Each row of the storage-unit capacity table gets three scenario estimates:
  conservative (MIN), neutral (MEAN) and optimistic (MAX). Each estimate is the EST_STORECAP
  figure, or the STORE_CAP figure when that is zero or missing, plus the hydrocarbon-daughter
  capacity. Then comes the cross-tier fill: a missing or zero neutral value takes the
  conservative one, a missing or zero optimistic value takes the (filled) neutral one, and
  anything still missing becomes 0. The estimates are then left-joined on the unit ID onto the
  grouped boundary geometries, and the capacity-table key is dropped.
- **Traps.** The capacity tables are loaded from one path or a list of paths. For each scenario,
  aquifer, oil and gas components are resolved the same way, and their sum (missing values
  skipped) gives the scenario total. Only the totals go through the cross-tier fill. Then every
  remaining missing value becomes 0, and the join is the same as for storage units.
- **Combination.** Each of the two maps gets a zero column for every column only the other map
  has. Every geometry is reduced to two dimensions, by `remove_third_dimension`, which keeps x
  and y of every coordinate and rebuilds the geometry with the same structure. An unsupported
  geometry type is an error. The storage rows come first in the concatenation, then the trap
  rows.

Modules, one per concern:

- `Wrappers` holds `Option` and `Result`.
- `Geometry` holds the geometry values and the dimension reducer.
- `Cells` holds the NaN-aware cell arithmetic of the table library and the table shape. A NaN
  cell is `None`.
- `Estimates` holds the scenario tiers and the cross-tier fill.
- `Columns` holds the in-place column loops that the table library performs.
- `Join` holds the left join on a key and the dropping of the right-hand key.
- `StorageMap` and `TrapMap` hold the two mappers.
- `Combiner` holds the combination step. It has a `Frame` class because `combination` mutates
  the two frames it is given.

Three points about the code that the model makes explicit:

- **Missing capacity after the join is not zeroed.** `combination` only adds columns that a
  map lacks altogether (lines 259-263). A cell that the left join left missing stays missing.
  `Combiner.Widen` keeps every existing cell as it is.
- **No buffer repair in `combination`.** The zero-distance buffer repair of the combined
  polygons happens in the entry point (line 301), not in `combination`, and the entry point is
  not modelled.
- **The trap total equals the component sum.** The conservative trap total equals the sum of
  its three zero-filled components, because the row-wise sum skips missing components.
  `TrapMap.TrapCapacityOf` states the equality.

## Model

| member | source | states |
|---|---|---|
| Geometry.RemoveThirdDimension | script/create_co2_storage_map.py:7-66 | an empty geometry is returned unchanged; otherwise the result has the same variant; a point, line or ring keeps exactly the first two ordinates of each coordinate; a polygon's shell and every hole are reduced the same way and the hole count is kept; a multi-part geometry keeps its part count and reduces every part; a failure comes from some part |
| Geometry.RemoveAll | script/create_co2_storage_map.py:31-63 | the per-part loop of a collection: on success every part is reduced in order, one result per part; a failure is the error of some part |
| Geometry.XYs | script/create_co2_storage_map.py:23-29 | dropping the third ordinate keeps the number of coordinates; each result is a prefix of its coordinate with at most two ordinates, exactly its (x, y) pair when the coordinate has two or more |
| Geometry.RemoveFailsIffUnsupported | script/create_co2_storage_map.py:65-66 | the reducer fails exactly when a non-empty geometry of an unsupported type occurs somewhere in the geometry |
| Geometry.RemoveAllFailsIffUnsupported | script/create_co2_storage_map.py:31-63 | a collection's parts fail to reduce exactly when one of them contains an unsupported geometry |
| Geometry.RemoveIdempotent | script/create_co2_storage_map.py:7-66 | reducing an already reduced geometry changes nothing |
| Geometry.RemovePlanarUnchanged | script/create_co2_storage_map.py:22-29 | a two-dimensional geometry with only supported parts comes back unchanged |
| Geometry.RemoveYieldsTwoDimensional | script/create_co2_storage_map.py:7-66 | when every coordinate has two or three ordinates, every coordinate of the successfully reduced geometry is exactly an (x, y) pair |
| Cells.Resolve | script/create_co2_storage_map.py:94-95 | a non-zero, present primary value is kept; otherwise the secondary value is taken, missing or not |
| Cells.SumOfThree | script/create_co2_storage_map.py:183-185 | the row-wise sum of three cells skips missing cells, i.e. counts them as 0 |
| Estimates.CrossFill | script/create_co2_storage_map.py:112-117 | conservative is untouched; a zero or missing neutral takes conservative; a zero or missing optimistic takes the filled neutral |
| Estimates.FinalScenarios | script/create_co2_storage_map.py:112-119 | after the cross-tier fill and the final fill with 0, conservative is its own value or 0, neutral is its own usable value or else the final conservative, optimistic its own usable value or else the final neutral |
| Estimates.ConservativeReachesOptimistic | script/create_co2_storage_map.py:112-119 | when neutral and optimistic are both zero or missing, optimistic ends up equal to conservative |
| Estimates.OrderingNotEnforced | script/create_co2_storage_map.py:112-119 | the fill does not restore conservative <= neutral <= optimistic: values 10, 5, 7 stay out of order |
| Columns.ZeroToMissingColumn | script/create_co2_storage_map.py:94 | a new column holding each source cell with 0 turned into missing |
| Columns.ZeroToMissingInPlace | script/create_co2_storage_map.py:112-113 | every cell of the column becomes missing if it was 0 and is otherwise unchanged |
| Columns.FillMissingInPlace | script/create_co2_storage_map.py:115-117 | every missing cell takes the other column's cell in the same row; present cells are unchanged |
| Columns.AddInPlace | script/create_co2_storage_map.py:96 | every cell becomes the sum with the other column's cell, missing when either term is missing |
| Columns.ZeroFillInPlace | script/create_co2_storage_map.py:119 | every missing cell becomes 0; present cells are unchanged |
| Columns.RowSums | script/create_co2_storage_map.py:183-185 | a new column holding, per row, the sum of the three cells with missing ones skipped |
| Columns.ResolvedColumn | script/create_co2_storage_map.py:94-95 | a new column holding, per row, the primary cell resolved against the secondary one |
| Columns.CrossFillColumns | script/create_co2_storage_map.py:112-117 | the neutral and optimistic columns become, row by row, the cross-tier fill of the three old cells; conservative is not modified |
| StorageMap.ScenarioBase | script/create_co2_storage_map.py:94-106 | a scenario before the cross-tier fill is the usable estimate, or else the fallback figure, plus the daughter capacity; it is missing when the daughter capacity is missing or both figures are unusable/missing |
| StorageMap.StorageCapacityOf | script/create_co2_storage_map.py:94-125 | the ID is kept (0 when missing); conservative is the zero-filled base; neutral and optimistic fall back across tiers as the cross-tier fill prescribes |
| StorageMap.BaseColumn | script/create_co2_storage_map.py:94-106 | the column loop yields, row by row, the scenario base of that row |
| StorageMap.StorageUnitCapacities | script/create_co2_storage_map.py:94-125 | the column operations yield one reduced row per capacity row, equal to that row's storage capacity |
| StorageMap.StorageMap | script/create_co2_storage_map.py:129-131 | the joined map is well formed, its columns are the geometry columns plus the three scenarios, and the capacity key is gone |
| StorageMap.GenerateStorageCapacityMap | script/create_co2_storage_map.py:93-131 | the mapper's result is the left join of the computed capacities onto the grouped geometries, without the key |
| StorageMap.FallbackExample | script/create_co2_storage_map.py:94-119 | a zero MIN or MAX estimate falls back on the STORE_CAP figure while MEAN keeps its estimate: estimates (0,10,0), STORE_CAP (5,-,20) and daughter 2 give 7, 12, 22 |
| StorageMap.CrossTierExample | script/create_co2_storage_map.py:94-119 | with zero MEAN and MAX estimates and no STORE_CAP figure for them, neutral and optimistic take the conservative value: estimates (0,0,0), STORE_CAP (5,-,-) and daughter 2 give 7, 7, 7 |
| StorageMap.MissingDaughterGivesZero | script/create_co2_storage_map.py:96-119 | a missing daughter capacity makes all three scenarios 0 |
| StorageMap.StorageMapKeepsEveryUnit | script/create_co2_storage_map.py:129-131 | the joined map is a geospatial table, has at least one row per grouped unit, and every unit's geometry row appears in it |
| StorageMap.StorageMapMatchesUnits | script/create_co2_storage_map.py:129-131 | with unique capacity IDs there is exactly one row per unit, in order, carrying its geometry and the estimates of the matching capacity row, or missing estimates when no row matches |
| StorageMap.CapacityKeys | script/create_co2_storage_map.py:124-125 | the reduced table's key and estimate columns come from each capacity row; unique IDs give distinct keys |
| TrapMap.Concat | script/create_co2_storage_map.py:154-160 | concatenating no tables gives no rows |
| TrapMap.ConcatAppend | script/create_co2_storage_map.py:154-160 | concatenation distributes over appending lists of tables |
| TrapMap.ConcatLength | script/create_co2_storage_map.py:154-160 | the concatenation has as many rows as all tables together |
| TrapMap.LoadTraps | script/create_co2_storage_map.py:152-162 | one table is used as is; a non-empty list gives its concatenation; an empty list leaves the table unbound; anything else is a ValueError |
| TrapMap.FilledComponent | script/create_co2_storage_map.py:174-181 | each component is its usable estimate, or else the zero-filled calculated figure |
| TrapMap.TrapCapacityOf | script/create_co2_storage_map.py:174-239 | the ID is kept (0 when missing); each component is filled; the conservative total is the component sum; neutral and optimistic totals are their sums, or the lower tier's total when that sum is 0 |
| TrapMap.TotalIsComponentSum | script/create_co2_storage_map.py:183-185 | every scenario total before the cross-tier fill is aquifer + oil + gas of the filled components |
| TrapMap.EmptyTrapIsZero | script/create_co2_storage_map.py:174-224 | a trap without any capacity figure gets 0 in every component and every total |
| TrapMap.CrossFillOnlyTotals | script/create_co2_storage_map.py:218-224 | only the totals are cross-filled: an aquifer-only conservative figure v gives totals (v, v, v) but aquifer components (v, 0, 0) |
| TrapMap.TierTotals | script/create_co2_storage_map.py:174-215 | the column operations of one tier yield the zero-filled components and the row-wise sum of the resolved components |
| TrapMap.TrapCapacities | script/create_co2_storage_map.py:174-239 | the column operations yield one reduced row per trap row, equal to that trap's capacity |
| TrapMap.CapacityKeys | script/create_co2_storage_map.py:227-239 | the reduced table's key and twelve capacity columns come from each trap row; unique IDs give distinct keys |
| TrapMap.TrapMap | script/create_co2_storage_map.py:242-243 | the joined map is well formed, its columns are the geometry columns plus the twelve capacity columns, and the key is gone |
| TrapMap.GenerateTrapCapacityMap | script/create_co2_storage_map.py:152-243 | the loader's errors are passed on; otherwise the result is the left join of the loaded traps' capacities onto the grouped geometries |
| TrapMap.TrapMapKeepsEveryTrap | script/create_co2_storage_map.py:242-243 | the joined map is a geospatial table, has at least one row per grouped trap, and every trap's geometry row appears in it |
| TrapMap.TrapMapMatchesTraps | script/create_co2_storage_map.py:242-243 | with unique trap IDs there is exactly one row per trap, in order, carrying its geometry and the matching trap's capacities, or missing capacities when none matches |
| Join.GeoTable | script/create_co2_storage_map.py:84-87 | the grouped geometries form a geospatial table with COUNTRY, COUNTRYCOD, ID and geometry, one row per group |
| Join.Matching | script/create_co2_storage_map.py:129-130 | the matching right-hand rows are exactly those whose key equals the left key |
| Join.MergeLeft | script/create_co2_storage_map.py:129-130 | the left join is well formed and has the columns of both tables |
| Join.DropColumn | script/create_co2_storage_map.py:131 | dropping a column keeps the row count and every other cell, and removes that column |
| Join.MergeLeftDropKey | script/create_co2_storage_map.py:129-131 | the left join without the right key has the left columns plus the other right columns |
| Join.MergeLeftKeepsEveryLeftRow | script/create_co2_storage_map.py:129-130 | every left row appears in some output row merged from it; for every right row with the same key some output row holds both rows' cells; every output row comes from some left row |
| Join.MergeLeftUniqueKeys | script/create_co2_storage_map.py:129-130 | with unique right keys the join has one row per left row, in order, each merged from that left row |
| Join.MergeLeftDropKeyKeepsEveryLeftRow | script/create_co2_storage_map.py:129-131 | after dropping the key every left row is still covered, every pair of a left row and a right row with the same key still has an output row holding both, and every output row comes from some left row |
| Join.MergeLeftDropKeyUniqueKeys | script/create_co2_storage_map.py:129-131 | with unique right keys, the keyless join has one row per left row, in order, merged from that left row |
| Join.MergeLeftDropKeyKeepsGeometry | script/create_co2_storage_map.py:129-131 | joining onto a geospatial table gives a geospatial table |
| Join.KeyedMergeUnique | script/create_co2_storage_map.py:129-131 | with distinct keys, row i of the keyless join agrees with left row i and carries the payload of the matching key, or missing cells when no key matches |
| Join.MergeKeepsEveryGeoRow | script/create_co2_storage_map.py:129-131 | the keyless join onto a geospatial table is geospatial and every left row is present in it |
| Combiner.Widen | script/create_co2_storage_map.py:258-263 | the widened table has the old and the new columns and the same rows; every old cell is kept and every new cell is 0; a geospatial table stays geospatial |
| Combiner.WidenTwice | script/create_co2_storage_map.py:259-263 | adding zero columns one set after another is adding their union |
| Combiner.WidenPresent | script/create_co2_storage_map.py:260-263 | a column already present is not added again |
| Combiner.Frame.constructor | script/create_co2_storage_map.py:250 | a frame holds the columns and rows of the geospatial table it is given |
| Combiner.Frame.AddZeroColumn | script/create_co2_storage_map.py:261 | a new column of zeros is added to the frame and nothing else changes |
| Combiner.AlignColumns | script/create_co2_storage_map.py:258-263 | after the loop over the column union, each frame equals its old table widened by the union |
| Combiner.ReducedRow | script/create_co2_storage_map.py:265-266 | a row's geometry is replaced by its reduction and nothing else changes; the row fails exactly when its geometry fails |
| Combiner.ReducedRows | script/create_co2_storage_map.py:265-266 | on success every row is reduced, one result per row; a failure is the error of some row |
| Combiner.Frame.ReduceGeometries | script/create_co2_storage_map.py:265-266 | the frame's rows become their reductions and the columns stay; on the first failing row the error is returned and the rows are left as they were |
| Combiner.FirstFailure | script/create_co2_storage_map.py:265-266 | the error reported is the one of the first failing row |
| Combiner.AllReduced | script/create_co2_storage_map.py:265-266 | when every row reduces, the result is exactly the reduced rows |
| Combiner.Combined | script/create_co2_storage_map.py:258-268 | the combined map is geospatial, has the union of both column sets and as many rows as both maps together |
| Combiner.Combination | script/create_co2_storage_map.py:250-270 | the result is the combined map of the two frames' old contents; both frames end up with the union of the columns; the storage frame holds its reduced rows, and the trap frame holds its reduced rows only when the storage reduction succeeded |
| Combiner.CombinedFailsIffUnsupported | script/create_co2_storage_map.py:265-266 | combination fails exactly when a row of either map holds an unsupported geometry |
| Combiner.CombinedStorageRow | script/create_co2_storage_map.py:258-268 | the first rows of the combined map are the storage rows, with every old cell kept, a 0 in every column only the trap map has, and the geometry reduced |
| Combiner.CombinedTrapRow | script/create_co2_storage_map.py:258-268 | the trap rows follow the storage rows, with every old cell kept, a 0 in every column only the storage map has, and the geometry reduced |
| Combiner.CombinedIsTwoDimensional | script/create_co2_storage_map.py:265-268 | when every input coordinate has two or three ordinates, every coordinate of every geometry of the combined map is exactly an (x, y) pair |

## Left out

- File input and output are not modelled: `read_csv`, `read_file`, `to_file` (lines 79, 82, 134, 153, 157, 164, 246). The capacity rows and grouped geometries are parameters.
- Column selection, grouping by (COUNTRY, COUNTRYCOD, ID) and the `unary_union` of each group (lines 84-87, 165-167) are not modelled. The geometry engine's union is not modelled; the grouped rows are a parameter.
- The coordinate reference system tag (lines 87, 167, 268) is not modelled: it carries no data the model reasons about.
- The script's entry point (lines 273 onward) is not modelled. That includes the zero-distance buffer repair of the combined polygons.
- Floating point is not modelled: capacities are exact reals, so rounding in the sums is not captured.
- Column order and the row index labels of the tables are not modelled: a table's columns are a set. The index that `pd.concat` keeps in `combination` is not represented.
- Columns of the capacity tables other than those the mappers read are not modelled. Neither is the final zero fill of those other columns.
- Value types are not modelled: a key is compared by value equality. The zero column added by `combination` is an integer column in the source and the number 0 here.
- Join.Mergeable: the join requires the right table's non-key columns to be absent from the left table. The two mappers always satisfy this. The suffixing the library applies to clashing names is therefore not modelled.
- Combiner.Combination: the two frames must be distinct objects; calling `combination` with the same frame twice is not modelled.
- Combiner.AlignColumns: the loop visits the union's columns in an arbitrary order; the set iteration order of the source does not affect the outcome.
- Geometry.RemoveThirdDimension: constructing geometries from coordinates is not modelled, e.g. ring closure or validity checks. A geometry type outside the eight handled ones is `Other`, with its emptiness supplied, and `None` geometries are not modelled.
- StorageMap.StorageMapMatchesUnits: gives the row-by-row content only when capacity IDs are unique. For duplicate IDs, StorageMap.StorageMapKeepsEveryUnit states the weaker fact that every unit's row is present.
- TrapMap.TrapMapMatchesTraps: gives the row-by-row content only when trap IDs are unique. For duplicate IDs, TrapMap.TrapMapKeepsEveryTrap states the weaker fact that every trap's row is present.
- Join.MergeLeftKeepsEveryLeftRow: with duplicate right-hand keys it does not state how many output rows there are or their order. Join.MergeLeftUniqueKeys states both for unique keys, which is the case the per-row lemmas of the two mappers rely on.
- The chained in-place updates (`fillna(..., inplace=True)` and `replace(..., inplace=True)` on a selected column, lines 95-117 and 175-222) are modelled as changing the table, as the table library does without copy-on-write. Under copy-on-write semantics those statements would leave the table unchanged; that variant is not modelled.
- TrapMap.TierTotals: zero-fills each component as it is computed, not in the table-wide fill at line 224. The values are the same, because the components take no further part in the computation.
