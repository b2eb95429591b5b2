/** The four weight tables of the scorer and the lookup that falls back to the
    default table for an unknown strategy name. */
module Strategies {

  /** How much each normalised factor counts towards the score. */
  datatype Weights = Weights(urgency: real, importance: real, effort: real, dependency: real) {

    function Total(): real {
      urgency + importance + effort + dependency
    }

    predicate NonNegative() {
      urgency >= 0.0 && importance >= 0.0 && effort >= 0.0 && dependency >= 0.0
    }
  }

  const DefaultStrategy: string := "smart_balance"

  const SmartBalance: Weights := Weights(0.45, 0.35, 0.1, 0.1)
  const FastestWins: Weights := Weights(0.1, 0.1, 0.7, 0.1)
  const DeadlineDriven: Weights := Weights(0.8, 0.1, 0.05, 0.05)
  const HighImpact: Weights := Weights(0.1, 0.8, 0.05, 0.05)

  const Table: map<string, Weights> := map[
    "smart_balance" := SmartBalance,
    "fastest_wins" := FastestWins,
    "deadline_driven" := DeadlineDriven,
    "high_impact" := HighImpact
  ]

  /** A weight table: non-negative weights that add up to exactly one. */
  predicate IsDistribution(w: Weights) {
    w.NonNegative() && w.Total() == 1.0
  }

  /** The weights of a strategy name: its own table when it has one, the
      smart_balance weights for an unknown name. */
  function WeightsFor(strategy: string): (w: Weights)
    ensures strategy in Table ==> w == Table[strategy]
    ensures strategy !in Table ==> w == SmartBalance
    ensures w in Table.Values
    ensures IsDistribution(w)
    ensures 0.1 <= w.urgency <= 0.8
  {
    if strategy in Table then Table[strategy] else Table[DefaultStrategy]
  }

  /** Every table of the scorer is a distribution. */
  lemma TablesAreDistributions()
    ensures forall name :: name in Table ==> IsDistribution(Table[name])
  {
  }
}
