/** `calculate_score`: the priority score of one task within its batch, and
    the explanation that goes with it.

    The score is the weighted sum of the four normalised factors, halved when a
    dependency cycle is reachable from the task. The explanation is the cycle
    message when there is such a cycle; otherwise it names the factor with the
    largest weighted value (ties go to the earlier of urgency, importance,
    effort, dependency, because the factors are ranked by a stable descending
    sort) provided that value exceeds 0.1; otherwise the task is "balanced".
 */
module Scoring {
  import opened Tasks
  import opened Strategies
  import opened Factors
  import opened Cycles
  import opened StableSort

  const CyclePenalty: real := 0.5
  const ExplanationThreshold: real := 0.1

  datatype FactorKind = UrgencyKind | ImportanceKind | EffortKind | DependencyKind

  /** The four factors of one task, either normalised or weighted. */
  datatype FactorValues = FactorValues(urgency: real, importance: real, effort: real, dependency: real)

  /** The explanation, tagged by message and carrying the values the message
      prints:
      - CircularDependency: "Circular Dependency Detected (Penalty Applied)."
      - OverdueBy(n): "High Urgency: Overdue by n days"
      - DueIn(n): "High Urgency: Due in n days"
      - HighImportance(level): "High Importance: Level level"
      - QuickWin(hours): "Quick Win: Only hours hours"
      - BlocksOtherTasks: "Critical: Blocks other tasks"
      - Balanced: "Balanced priority." */
  datatype Explanation =
    | CircularDependency
    | OverdueBy(days: int)
    | DueIn(days: int)
    | HighImportance(level: real)
    | QuickWin(hours: real)
    | BlocksOtherTasks
    | Balanced

  datatype Scored = Scored(score: real, explanation: Explanation)

  /** Days from today to the task's due date, `None` without a due date.
      `daysUntil` gives the whole days from today to an ISO date string. */
  function DaysUntilDue(t: Task, daysUntil: string -> int): Option<int> {
    if HasDueDate(t) then Some(daysUntil(t.dueDate.value)) else None
  }

  function Normalised(t: Task, all: seq<Task>, daysUntil: string -> int): FactorValues {
    FactorValues(
      Urgency(DaysUntilDue(t, daysUntil)),
      ImportanceFactor(Importance(t)),
      Effort(Hours(t)),
      DependencyFactor(t, all))
  }

  function Weigh(f: FactorValues, w: Weights): FactorValues {
    FactorValues(f.urgency * w.urgency, f.importance * w.importance,
                 f.effort * w.effort, f.dependency * w.dependency)
  }

  function Sum(f: FactorValues): real {
    f.urgency + f.importance + f.effort + f.dependency
  }

  /** The score before any cycle penalty. */
  function BaseScore(t: Task, all: seq<Task>, strategy: string, daysUntil: string -> int): real {
    Sum(Weigh(Normalised(t, all, daysUntil), WeightsFor(strategy)))
  }

  // ---------------------------------------------------------------------------
  // Choosing the explanation

  datatype Term = Term(value: real, kind: FactorKind)

  function TermValue(t: Term): real { t.value }

  /** The factor list of the source, in its order. */
  function Terms(f: FactorValues): seq<Term> {
    [Term(f.urgency, UrgencyKind), Term(f.importance, ImportanceKind),
     Term(f.effort, EffortKind), Term(f.dependency, DependencyKind)]
  }

  /** The factor on top once the factor list is sorted by descending value. */
  function TopTerm(f: FactorValues): Term {
    SortDesc(Terms(f), TermValue)[0]
  }

  function Largest(f: FactorValues): real {
    Max(Max(f.urgency, f.importance), Max(f.effort, f.dependency))
  }

  /** The first factor, in source order, whose value is the largest. */
  function FirstLargest(f: FactorValues): FactorKind {
    var m := Largest(f);
    if f.urgency == m then UrgencyKind
    else if f.importance == m then ImportanceKind
    else if f.effort == m then EffortKind
    else DependencyKind
  }

  /** The stable descending sort puts the first largest factor on top. */
  lemma TopTermIsFirstLargest(f: FactorValues)
    ensures TopTerm(f).kind == FirstLargest(f)
    ensures TopTerm(f).value == Largest(f)
  {
    var s := Terms(f);
    SortedHeadIsFirstMax(s, TermValue);
    var i :| IsFirstMax(s, TermValue, i) && SortDesc(s, TermValue)[0] == s[i];
    FirstMaxOfTerms(f, i);
  }

  /** The first largest term of the factor list is FirstLargest's factor. */
  lemma FirstMaxOfTerms(f: FactorValues, i: int)
    requires IsFirstMax(Terms(f), TermValue, i)
    ensures Terms(f)[i].kind == FirstLargest(f) && Terms(f)[i].value == Largest(f)
  {
    var s := Terms(f);
    assert TermValue(s[0]) == f.urgency && TermValue(s[1]) == f.importance;
    assert TermValue(s[2]) == f.effort && TermValue(s[3]) == f.dependency;
    assert TermValue(s[0]) <= TermValue(s[i]) && TermValue(s[1]) <= TermValue(s[i]);
    assert TermValue(s[2]) <= TermValue(s[i]) && TermValue(s[3]) <= TermValue(s[i]);
    if i == 0 {
    } else if i == 1 {
      assert TermValue(s[0]) < TermValue(s[1]);
    } else if i == 2 {
      assert TermValue(s[0]) < TermValue(s[2]) && TermValue(s[1]) < TermValue(s[2]);
    } else {
      assert TermValue(s[0]) < TermValue(s[3]) && TermValue(s[1]) < TermValue(s[3]);
      assert TermValue(s[2]) < TermValue(s[3]);
    }
  }

  /** The factor a message speaks of, none for the cycle and balanced messages. */
  function Names(e: Explanation): Option<FactorKind> {
    match e
    case OverdueBy(_) => Some(UrgencyKind)
    case DueIn(_) => Some(UrgencyKind)
    case HighImportance(_) => Some(ImportanceKind)
    case QuickWin(_) => Some(EffortKind)
    case BlocksOtherTasks => Some(DependencyKind)
    case _ => None
  }

  /** The message naming a factor. The urgency message needs a due date; when
      there is none the source keeps "Balanced priority.". */
  function Message(kind: FactorKind, days: Option<int>, importance: real, hours: real): (e: Explanation)
    ensures e != CircularDependency
    ensures e == Balanced <==> kind == UrgencyKind && days.None?
    ensures e != Balanced ==> Names(e) == Some(kind)
    ensures e.OverdueBy? ==> e.days > 0 && days == Some(-e.days)
    ensures e.DueIn? ==> e.days >= 0 && days == Some(e.days)
    ensures e.HighImportance? ==> e.level == importance
    ensures e.QuickWin? ==> e.hours == hours
  {
    match kind
    case UrgencyKind =>
      if days.Some? && days.value < 0 then OverdueBy(-days.value)
      else if days.Some? then DueIn(days.value)
      else Balanced
    case ImportanceKind => HighImportance(importance)
    case EffortKind => QuickWin(hours)
    case DependencyKind => BlocksOtherTasks
  }

  function Explain(weighted: FactorValues, inCycle: bool, days: Option<int>, importance: real, hours: real): (e: Explanation)
    ensures e == CircularDependency <==> inCycle
    ensures !inCycle && Largest(weighted) <= ExplanationThreshold ==> e == Balanced
    ensures !inCycle && Largest(weighted) > ExplanationThreshold ==>
              e == Message(FirstLargest(weighted), days, importance, hours)
  {
    if inCycle then
      CircularDependency
    else
      var top := TopTerm(weighted);
      TopTermIsFirstLargest(weighted);
      if top.value > ExplanationThreshold then Message(top.kind, days, importance, hours) else Balanced
  }

  // ---------------------------------------------------------------------------
  // The score

  /** Whether the cycle penalty applies to a task. */
  ghost predicate Penalised(t: Task, all: seq<Task>) {
    t.id.Some? && CycleReachable(all, t.id.value)
  }

  function CalculateScore(t: Task, all: seq<Task>, strategy: string, daysUntil: string -> int): (r: Scored)
    ensures var base := BaseScore(t, all, strategy, daysUntil);
            r.score == if Penalised(t, all) then CyclePenalty * base else base
    ensures r.explanation == CircularDependency <==> Penalised(t, all)
  {
    var w := WeightsFor(strategy);
    var days := DaysUntilDue(t, daysUntil);
    var weighted := Weigh(Normalised(t, all, daysUntil), w);
    var inCycle := InCycle(t, all);
    InCycleMeansCycleReachable(t, all);
    var base := Sum(weighted);
    var score := if inCycle then base * CyclePenalty else base;
    Scored(score, Explain(weighted, inCycle, days, Importance(t), Hours(t)))
  }

  /** A strategy name outside the weight tables scores like "smart_balance". */
  lemma UnknownStrategyScoresAsDefault(t: Task, all: seq<Task>, name: string, daysUntil: string -> int)
    requires name !in Table
    ensures CalculateScore(t, all, name, daysUntil) == CalculateScore(t, all, DefaultStrategy, daysUntil)
  {
    assert WeightsFor(name) == WeightsFor(DefaultStrategy);
  }

  /** The weighted factors that drive the explanation. */
  function WeightedFactors(t: Task, all: seq<Task>, strategy: string, daysUntil: string -> int): FactorValues {
    Weigh(Normalised(t, all, daysUntil), WeightsFor(strategy))
  }

  /** Without a cycle, the explanation names the first largest weighted factor
      when it exceeds the threshold; otherwise the task is balanced. */
  lemma ExplanationNamesLargestFactor(t: Task, all: seq<Task>, strategy: string, daysUntil: string -> int)
    requires !Penalised(t, all)
    ensures var f := WeightedFactors(t, all, strategy, daysUntil);
            var e := CalculateScore(t, all, strategy, daysUntil).explanation;
            && (Largest(f) > ExplanationThreshold ==>
                  e == Message(FirstLargest(f), DaysUntilDue(t, daysUntil), Importance(t), Hours(t)))
            && (Largest(f) <= ExplanationThreshold ==> e == Balanced)
  {
    InCycleMeansCycleReachable(t, all);
  }

  /** Explain answers "Balanced priority." exactly when there is no cycle and
      no weighted factor exceeds the threshold, provided a positive urgency
      always comes with a due date. */
  lemma ExplainBalancedIff(f: FactorValues, inCycle: bool, days: Option<int>, importance: real, hours: real)
    requires f.urgency > 0.0 ==> days.Some?
    ensures Explain(f, inCycle, days, importance, hours) == Balanced <==>
              !inCycle && Largest(f) <= ExplanationThreshold
  {
    var e := Explain(f, inCycle, days, importance, hours);
    if !inCycle && Largest(f) > ExplanationThreshold {
      var k := FirstLargest(f);
      assert e == Message(k, days, importance, hours);
      if k == UrgencyKind {
        assert f.urgency == Largest(f) > 0.0;
        assert days.Some?;
      }
    }
  }

  /** "Balanced priority." appears exactly when there is no cycle and no
      weighted factor exceeds the threshold: the urgency branch never falls
      back to it, because a task without a due date has zero urgency. */
  lemma BalancedExactlyWhenNothingStandsOut(t: Task, all: seq<Task>, strategy: string, daysUntil: string -> int)
    ensures var f := WeightedFactors(t, all, strategy, daysUntil);
            CalculateScore(t, all, strategy, daysUntil).explanation == Balanced <==>
              !Penalised(t, all) && Largest(f) <= ExplanationThreshold
  {
    var f := WeightedFactors(t, all, strategy, daysUntil);
    var days := DaysUntilDue(t, daysUntil);
    InCycleMeansCycleReachable(t, all);
    if days.None? {
      assert f.urgency == 0.0 * WeightsFor(strategy).urgency;
    }
    ExplainBalancedIff(f, InCycle(t, all), days, Importance(t), Hours(t));
  }

  // ---------------------------------------------------------------------------
  // Properties of the score

  /** Bounds of a weighted sum of factors in their ranges. */
  lemma WeightedSumBounds(n: FactorValues, w: Weights)
    requires 0.0 <= n.urgency <= 2.0 && 0.0 <= n.importance <= 1.0
    requires 0.0 <= n.effort <= 1.0 && 0.0 <= n.dependency <= 1.0
    requires w.NonNegative()
    ensures 0.0 <= Sum(Weigh(n, w)) <= 2.0 * w.urgency + w.importance + w.effort + w.dependency
  {
    WeightedSumMonotone(n, FactorValues(0.0, 0.0, 0.0, 0.0), w);
    WeightedSumMonotone(FactorValues(2.0, 1.0, 1.0, 1.0), n, w);
  }

  /** A weighted sum grows with each factor; strictly with urgency when its
      weight is positive. */
  lemma WeightedSumMonotone(n1: FactorValues, n2: FactorValues, w: Weights)
    requires w.NonNegative()
    requires n1.urgency >= n2.urgency && n1.importance >= n2.importance
    requires n1.effort >= n2.effort && n1.dependency >= n2.dependency
    ensures Sum(Weigh(n1, w)) >= Sum(Weigh(n2, w))
    ensures w.urgency > 0.0 && n1.urgency > n2.urgency ==> Sum(Weigh(n1, w)) > Sum(Weigh(n2, w))
  {
    MulMono(n2.urgency, n1.urgency, w.urgency);
    MulMono(n2.importance, n1.importance, w.importance);
    MulMono(n2.effort, n1.effort, w.effort);
    MulMono(n2.dependency, n1.dependency, w.dependency);
    if w.urgency > 0.0 && n1.urgency > n2.urgency {
      MulStrict(n2.urgency, n1.urgency, w.urgency);
    }
    AddMono(Weigh(n1, w), Weigh(n2, w));
  }

  lemma MulMono(x: real, y: real, w: real)
    requires x <= y && 0.0 <= w
    ensures x * w <= y * w
  {
  }

  lemma MulStrict(x: real, y: real, w: real)
    requires x < y && 0.0 < w
    ensures x * w < y * w
  {
  }

  /** Sums grow field by field; strictly when the urgency field grows. */
  lemma AddMono(f: FactorValues, g: FactorValues)
    requires f.urgency >= g.urgency && f.importance >= g.importance
    requires f.effort >= g.effort && f.dependency >= g.dependency
    ensures Sum(f) >= Sum(g)
    ensures f.urgency > g.urgency ==> Sum(f) > Sum(g)
  {
  }

  /** With importance on the 0–10 scale, the score lies between 0 and
      1 + (urgency weight), and never above 1.8: only overdue tasks can score
      above 1. */
  lemma ScoreBounds(t: Task, all: seq<Task>, strategy: string, daysUntil: string -> int)
    requires 0.0 <= Importance(t) <= 10.0
    ensures 0.0 <= CalculateScore(t, all, strategy, daysUntil).score <= 1.0 + WeightsFor(strategy).urgency
    ensures CalculateScore(t, all, strategy, daysUntil).score <= 1.8
  {
    var w := WeightsFor(strategy);
    var n := Normalised(t, all, daysUntil);
    WeightedSumBounds(n, w);
    var base := BaseScore(t, all, strategy, daysUntil);
    assert 0.0 <= base <= 1.0 + w.urgency;
  }

  /** Two tasks of one batch whose importance, hours, dependency bonus and
      cycle status agree: the one due sooner (or overdue for longer) scores at
      least as high, and strictly higher when its urgency is higher. */
  lemma SoonerDueScoresHigher(t1: Task, t2: Task, all: seq<Task>, strategy: string, daysUntil: string -> int)
    requires HasDueDate(t1) && HasDueDate(t2)
    requires daysUntil(t1.dueDate.value) <= daysUntil(t2.dueDate.value)
    requires Importance(t1) == Importance(t2) && Hours(t1) == Hours(t2)
    requires DependencyFactor(t1, all) == DependencyFactor(t2, all)
    requires Penalised(t1, all) == Penalised(t2, all)
    ensures CalculateScore(t1, all, strategy, daysUntil).score >= CalculateScore(t2, all, strategy, daysUntil).score
    ensures Urgency(DaysUntilDue(t1, daysUntil)) > Urgency(DaysUntilDue(t2, daysUntil)) ==>
              CalculateScore(t1, all, strategy, daysUntil).score > CalculateScore(t2, all, strategy, daysUntil).score
  {
    var w := WeightsFor(strategy);
    UrgencyAntitone(daysUntil(t1.dueDate.value), daysUntil(t2.dueDate.value));
    WeightedSumMonotone(Normalised(t1, all, daysUntil), Normalised(t2, all, daysUntil), w);
  }

  /** Under "fastest_wins", a task of at most two hours outscores a task of more
      than eight hours, whatever their importance on the 0–10 scale, when their
      urgency and dependency factors agree and neither is penalised. */
  lemma FastestWinsPrefersQuickTasks(quick: Task, long: Task, all: seq<Task>, daysUntil: string -> int)
    requires Hours(quick) <= 2.0 && Hours(long) > 8.0
    requires 0.0 <= Importance(quick) <= 10.0 && 0.0 <= Importance(long) <= 10.0
    requires Urgency(DaysUntilDue(quick, daysUntil)) == Urgency(DaysUntilDue(long, daysUntil))
    requires DependencyFactor(quick, all) == DependencyFactor(long, all)
    requires !Penalised(quick, all) && !Penalised(long, all)
    ensures CalculateScore(quick, all, "fastest_wins", daysUntil).score >
            CalculateScore(long, all, "fastest_wins", daysUntil).score
  {
    var w := WeightsFor("fastest_wins");
    assert w == FastestWins;
    var nq := Normalised(quick, all, daysUntil);
    var nl := Normalised(long, all, daysUntil);
    assert nq.effort == 1.0 && nl.effort == 0.0;
    assert Sum(Weigh(nq, w)) - Sum(Weigh(nl, w)) == 0.7 + 0.1 * (nq.importance - nl.importance);
  }

  /** The urgency scenario of the verification script: with equal importance
      (5) and hours (4) and no dependencies, a task overdue by 5 days outscores
      one due tomorrow, which outscores one due in 10 days. */
  lemma UrgencyScenario(overdue: Task, imminent: Task, future: Task, daysUntil: string -> int)
    requires overdue == Task(Some(1), Some("Overdue Task"), Some("A"), Some(5.0), Some(4.0), Some([]))
    requires imminent == Task(Some(2), Some("Imminent Task"), Some("B"), Some(5.0), Some(4.0), Some([]))
    requires future == Task(Some(3), Some("Future Task"), Some("C"), Some(5.0), Some(4.0), Some([]))
    requires daysUntil("A") == -5 && daysUntil("B") == 1 && daysUntil("C") == 10
    ensures var all := [overdue, imminent, future];
            CalculateScore(overdue, all, DefaultStrategy, daysUntil).score >
            CalculateScore(imminent, all, DefaultStrategy, daysUntil).score >
            CalculateScore(future, all, DefaultStrategy, daysUntil).score
  {
    var all := [overdue, imminent, future];
    NoDependenciesNoCycle(all, 1);
    NoDependenciesNoCycle(all, 2);
    NoDependenciesNoCycle(all, 3);
    assert DependencyFactor(overdue, all) == 0.0;
    assert DependencyFactor(imminent, all) == 0.0;
    assert DependencyFactor(future, all) == 0.0;
    UrgencyBandsOrdered(-5, 1, 10);
    SoonerDueScoresHigher(overdue, imminent, all, DefaultStrategy, daysUntil);
    SoonerDueScoresHigher(imminent, future, all, DefaultStrategy, daysUntil);
  }

  /** The overdue scenario of the unit tests: with equal importance (5) and
      hours (4) and no dependencies, a task one day overdue outscores one due
      in 30 days. */
  lemma OverdueBeatsFarFuture(overdue: Task, future: Task, daysUntil: string -> int)
    requires overdue == Task(Some(1), Some("Overdue Task"), Some("A"), Some(5.0), Some(4.0), Some([]))
    requires future == Task(Some(2), Some("Future Task"), Some("B"), Some(5.0), Some(4.0), Some([]))
    requires daysUntil("A") == -1 && daysUntil("B") == 30
    ensures var all := [overdue, future];
            CalculateScore(overdue, all, DefaultStrategy, daysUntil).score >
            CalculateScore(future, all, DefaultStrategy, daysUntil).score
  {
    var all := [overdue, future];
    NoDependenciesNoCycle(all, 1);
    NoDependenciesNoCycle(all, 2);
    assert DependencyFactor(overdue, all) == 0.0;
    assert DependencyFactor(future, all) == 0.0;
    assert Urgency(Some(-1)) > Urgency(Some(30));
    SoonerDueScoresHigher(overdue, future, all, DefaultStrategy, daysUntil);
  }

  /** Two tasks that depend on each other are both flagged, and so is a task
      that depends on itself. */
  lemma MutualAndSelfDependencyAreCycles(a: Task, b: Task, s: Task, daysUntil: string -> int)
    requires a.id == Some(1) && Deps(a) == [2]
    requires b.id == Some(2) && Deps(b) == [1]
    requires s.id == Some(3) && Deps(s) == [3]
    ensures CalculateScore(a, [a, b], DefaultStrategy, daysUntil).explanation == CircularDependency
    ensures CalculateScore(b, [a, b], DefaultStrategy, daysUntil).explanation == CircularDependency
    ensures CalculateScore(s, [s], DefaultStrategy, daysUntil).explanation == CircularDependency
  {
    var ab := [a, b];
    assert FindById(ab, 1) == Some(a);
    assert FindById(ab, 2) == Some(b);
    assert Successors(ab, 1) == [2] && Successors(ab, 2) == [1];
    assert IsPath(ab, [1, 2, 1]) && OnCycle(ab, 1);
    assert IsPath(ab, [2, 1, 2]) && OnCycle(ab, 2);
    ReachesSelf(ab, 1);
    ReachesSelf(ab, 2);
    assert FindById([s], 3) == Some(s);
    assert IsPath([s], [3, 3]) && OnCycle([s], 3);
    ReachesSelf([s], 3);
  }

  /** A task that merely depends on a cycle is flagged and penalised too,
      although it lies on no cycle itself: the search reports any cycle it can
      reach from the task. */
  lemma CycleDownstreamIsFlagged(a: Task, b: Task, c: Task, daysUntil: string -> int)
    requires a.id == Some(1) && Deps(a) == [2]
    requires b.id == Some(2) && Deps(b) == [1]
    requires c.id == Some(3) && Deps(c) == [1]
    ensures !OnCycle([a, b, c], 3)
    ensures CalculateScore(c, [a, b, c], DefaultStrategy, daysUntil).explanation == CircularDependency
  {
    var all := [a, b, c];
    assert FindById(all, 1) == Some(a);
    assert FindById(all, 2) == Some(b);
    assert FindById(all, 3) == Some(c);
    assert IsPath(all, [1, 2, 1]) && OnCycle(all, 1);
    assert IsPath(all, [3, 1]) && Reaches(all, 3, 1);
    forall p | IsPath(all, p) && |p| >= 2
      ensures p[|p| - 1] != 3
    {
      var x := p[|p| - 2];
      assert p[|p| - 1] in Successors(all, x);
      if FindById(all, x).Some? {
        FoundCarriesId(all, x);
      }
    }
  }
}
