/**
 * Scenario tiers and the cross-tier fill shared by the storage-unit and the
 * trap mapper: neutral falls back on conservative, then optimistic on the
 * (already filled) neutral, and whatever is still missing becomes 0.
 */
module Estimates {
  import opened Wrappers
  import opened Cells

  datatype Tier = Min | Mean | Max

  /** The MIN/MEAN/MAX columns of one estimate in a capacity table. */
  datatype TierColumns = TierColumns(min: Cell, mean: Cell, max: Cell) {
    function At(t: Tier): Cell {
      match t
      case Min => min
      case Mean => mean
      case Max => max
    }
  }

  const ConservativeColumn := "conservative estimate Mt"
  const NeutralColumn := "neutral estimate Mt"
  const OptimisticColumn := "optimistic estimate Mt"
  const ScenarioColumns: set<string> := {ConservativeColumn, NeutralColumn, OptimisticColumn}

  /** The three scenario cells of a row while they may still be missing. */
  datatype TierCells = TierCells(conservative: Cell, neutral: Cell, optimistic: Cell)

  /** The scenario values of a row once every fallback has been applied. */
  datatype Scenarios = Scenarios(conservative: real, neutral: real, optimistic: real) {
    function At(t: Tier): real {
      match t
      case Min => conservative
      case Mean => neutral
      case Max => optimistic
    }
  }

  /**
   * The cross-tier fill: zero counts as missing in neutral and optimistic; a
   * missing neutral takes conservative, then a missing optimistic takes the
   * filled neutral. Conservative itself is never changed.
   */
  function CrossFill(t: TierCells): (r: TierCells)
    ensures r.conservative == t.conservative
    ensures r.neutral == if Usable(t.neutral) then t.neutral else t.conservative
    ensures r.optimistic == if Usable(t.optimistic) then t.optimistic else r.neutral
  {
    var neutral := FillMissing(ZeroToMissing(t.neutral), t.conservative);
    var optimistic := FillMissing(ZeroToMissing(t.optimistic), neutral);
    TierCells(t.conservative, neutral, optimistic)
  }

  /** `fillna(0)` over the three scenario cells. */
  function ZeroFilled(t: TierCells): Scenarios {
    Scenarios(ZeroFill(t.conservative), ZeroFill(t.neutral), ZeroFill(t.optimistic))
  }

  /**
   * The scenario values that the cross-tier fill followed by `fillna(0)`
   * produces: conservative is its own cell zero-filled, neutral is its own
   * usable value or else the final conservative, optimistic is its own usable
   * value or else the final neutral.
   */
  function FinalScenarios(t: TierCells): (s: Scenarios)
    ensures s.conservative == ZeroFill(t.conservative)
    ensures s.neutral == if Usable(t.neutral) then t.neutral.value else s.conservative
    ensures s.optimistic == if Usable(t.optimistic) then t.optimistic.value else s.neutral
  {
    ZeroFilled(CrossFill(t))
  }

  /**
   * When neutral and optimistic are both zero or missing, the conservative
   * value is carried through neutral into optimistic.
   */
  lemma ConservativeReachesOptimistic(t: TierCells)
    requires !Usable(t.neutral) && !Usable(t.optimistic)
    ensures FinalScenarios(t).optimistic == FinalScenarios(t).conservative
  {
  }

  /** The fill only acts on missing values: it does not restore conservative <= neutral <= optimistic. */
  lemma OrderingNotEnforced()
    ensures var s := FinalScenarios(TierCells(Some(10.0), Some(5.0), Some(7.0)));
            s.conservative > s.neutral && s.neutral < s.optimistic
  {
  }
}
