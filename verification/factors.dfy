/** The four normalised factors of a task's score: urgency from the days left
    until the due date, importance, effort from the estimated hours, and the
    bonus for blocking another task of the batch. */
module Factors {
  import opened Tasks

  function Min(a: real, b: real): real { if a <= b then a else b }
  function Max(a: real, b: real): real { if a >= b then a else b }

  /** `x` clamped into the interval [lo, hi]. */
  function Clamp(lo: real, hi: real, x: real): real
    requires lo <= hi
  {
    Max(lo, Min(hi, x))
  }

  /** Urgency from the whole days until the due date (negative when overdue),
      `None` when the task has no due date.
      Overdue tasks grow by 0.05 per day from 1 up to 2; tasks due within two
      days score 1; later ones decay linearly over 21 days down to 0. */
  function Urgency(days: Option<int>): (u: real)
    ensures 0.0 <= u <= 2.0
    ensures days.None? ==> u == 0.0
    ensures days.Some? && days.value < 0 ==> 1.0 < u <= 2.0
    ensures days.Some? && days.value < 0 ==> u == Min(2.0, 1.0 + (-days.value) as real * 0.05)
    ensures days.Some? && days.value <= -20 ==> u == 2.0
    ensures days.Some? && 0 <= days.value <= 2 ==> u == 1.0
    ensures days.Some? && days.value > 2 ==> u < 1.0
    ensures days.Some? && days.value >= 23 ==> u == 0.0
    ensures days.Some? && days.value >= 0 ==>
              u == Clamp(0.0, 1.0, 1.0 - (days.value - 2) as real / 21.0)
  {
    match days
    case None => 0.0
    case Some(d) =>
      if d < 0 then
        var overdue := -d;
        Min(2.0, 1.0 + overdue as real * 0.05)
      else if d <= 2 then
        1.0
      else
        var remaining := d - 2;
        Max(0.0, 1.0 - remaining as real / 21.0)
  }

  /** A due date further away never makes a task more urgent. */
  lemma UrgencyAntitone(d1: int, d2: int)
    requires d1 <= d2
    ensures Urgency(Some(d1)) >= Urgency(Some(d2))
  {
  }

  /** The three bands order strictly: overdue above due within two days above
      due later. */
  lemma UrgencyBandsOrdered(overdue: int, imminent: int, later: int)
    requires overdue < 0 <= imminent <= 2 < later
    ensures Urgency(Some(overdue)) > Urgency(Some(imminent)) > Urgency(Some(later))
  {
  }

  /** Importance on the 0–10 scale, scaled down to a factor in [0, 1]. */
  function ImportanceFactor(importance: real): (f: real)
    ensures 0.0 <= importance <= 10.0 ==> 0.0 <= f <= 1.0
    ensures f * 10.0 == importance
  {
    importance / 10.0
  }

  /** Effort from the estimated hours: quick tasks (up to two hours) score 1,
      long ones (over eight) score 0, and the score falls linearly in between. */
  function Effort(hours: real): (e: real)
    ensures 0.0 <= e <= 1.0
    ensures e == Clamp(0.0, 1.0, (8.0 - hours) / 6.0)
  {
    if hours <= 2.0 then
      1.0
    else if hours > 8.0 then
      0.0
    else
      (8.0 - hours) / 6.0
  }

  /** More hours never make a task a quicker win. */
  lemma EffortAntitone(h1: real, h2: real)
    requires h1 <= h2
    ensures Effort(h1) >= Effort(h2)
  {
  }

  /** Whether some task of the batch lists `id` among its dependencies; the
      search of the scorer's loop, which stops at the first such task. */
  function ListedAsDependency(id: int, all: seq<Task>): (b: bool)
    ensures b <==> exists i :: 0 <= i < |all| && id in Deps(all[i])
  {
    if all == [] then false
    else if id in Deps(all[0]) then true
    else
      var rest := ListedAsDependency(id, all[1..]);
      assert forall i :: 1 <= i < |all| ==> all[i] == all[1..][i - 1];
      rest
  }

  /** The dependency bonus: 1 when the task has an id that some task of the
      batch (the task itself included) depends on, 0 otherwise. */
  function DependencyFactor(t: Task, all: seq<Task>): (f: real)
    ensures f == 1.0 <==> t.id.Some? && exists i :: 0 <= i < |all| && t.id.value in Deps(all[i])
    ensures f == 0.0 || f == 1.0
  {
    var blocks := t.id.Some? && ListedAsDependency(t.id.value, all);
    if blocks then 1.0 else 0.0
  }
}
