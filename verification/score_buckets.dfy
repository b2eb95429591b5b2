/** Where the backend's scores fall among the results page's priority buckets:
    the score bounds of each weight table set against the page's thresholds. */
module ScoreBuckets {
  import opened Tasks
  import opened Strategies
  import opened Factors
  import opened Cycles
  import opened Scoring
  import opened Frontend

  /** Only the "deadline_driven" table can put a task in the high bucket:
      with importance on the 0–10 scale every other table keeps the score at
      or below 1.45. */
  lemma OnlyDeadlineDrivenReachesHigh(t: Task, all: seq<Task>, strategy: string, daysUntil: string -> int)
    requires 0.0 <= Importance(t) <= 10.0
    requires WeightsFor(strategy) != DeadlineDriven
    ensures PriorityOf(CalculateScore(t, all, strategy, daysUntil).score) != High
  {
    var w := WeightsFor(strategy);
    assert w == SmartBalance || w == FastestWins || w == HighImpact by {
      assert w in Table.Values;
      var name :| name in Table && Table[name] == w;
    }
    ScoreBounds(t, all, strategy, daysUntil);
  }

  /** Under "deadline_driven" a long-overdue, important, quick task reaches
      the high bucket. */
  lemma DeadlineDrivenCanReachHigh(t: Task, daysUntil: string -> int)
    requires t == Task(Some(1), Some("Late"), Some("D"), Some(10.0), Some(1.0), Some([]))
    requires daysUntil("D") == -20
    ensures PriorityOf(CalculateScore(t, [t], "deadline_driven", daysUntil).score) == High
  {
    NoDependenciesNoCycle([t], 1);
    assert DependencyFactor(t, [t]) == 0.0;
    assert WeightsFor("deadline_driven") == DeadlineDriven;
    assert Normalised(t, [t], daysUntil) == FactorValues(2.0, 1.0, 1.0, 0.0);
  }
}
