/** The analysis endpoint: reads the task list and the strategy of a request,
    scores every task against the whole batch and answers with the scored
    tasks ordered by descending score (a stable sort, so tasks with equal
    scores keep their request order). */
module Views {
  import opened Tasks
  import opened Strategies
  import opened Scoring
  import opened StableSort

  /** A task of the response: the request's task with its score and explanation added. */
  datatype ScoredTask = ScoredTask(task: Task, score: real, explanation: Explanation)

  function EntryScore(e: ScoredTask): real { e.score }

  /** The `tasks` key of the request body: absent, a list, or some other JSON value. */
  datatype TasksField = Missing | List(tasks: seq<Task>) | NotAList

  datatype Response = Analyzed(tasks: seq<ScoredTask>) | BadRequest(error: string) {
    function Status(): int {
      if Analyzed? then 200 else 400
    }
  }

  const NotAListError: string := "Tasks must be a list"

  /** The `strategy` query parameter, "smart_balance" when absent. */
  function StrategyParam(query: Option<string>): (s: string)
    ensures query.None? ==> s == DefaultStrategy
    ensures query.Some? ==> s == query.value
  {
    query.GetOr(DefaultStrategy)
  }

  /** `tasks` is the list of the request, `[]` when the key is absent. */
  function TaskList(field: TasksField): seq<Task>
    requires !field.NotAList?
  {
    if field.List? then field.tasks else []
  }

  function Entry(t: Task, all: seq<Task>, strategy: string, daysUntil: string -> int): (e: ScoredTask)
    ensures e.task == t
  {
    var r := CalculateScore(t, all, strategy, daysUntil);
    ScoredTask(t, r.score, r.explanation)
  }

  /** The scored tasks in request order, each scored against the whole batch. */
  function ScoredInOrder(tasks: seq<Task>, strategy: string, daysUntil: string -> int): (r: seq<ScoredTask>)
    ensures |r| == |tasks|
    ensures forall i :: 0 <= i < |r| ==> r[i].task == tasks[i]
  {
    seq(|tasks|, i requires 0 <= i < |tasks| => Entry(tasks[i], tasks, strategy, daysUntil))
  }

  /** The loop of the view: one scored copy per task, appended in request
      order. `score` is the scoring of one task against the whole batch. */
  method ScoreBatch(tasks: seq<Task>, score: Task -> ScoredTask) returns (entries: seq<ScoredTask>)
    ensures |entries| == |tasks|
    ensures forall i :: 0 <= i < |tasks| ==> entries[i] == score(tasks[i])
  {
    entries := [];
    var i := 0;
    while i < |tasks|
      invariant 0 <= i <= |tasks|
      invariant |entries| == i
      invariant forall k :: 0 <= k < i ==> entries[k] == score(tasks[k])
    {
      entries := entries + [score(tasks[i])];
      i := i + 1;
    }
  }

  /** `AnalyzeTasksView.post` on a well-formed JSON object body. */
  method AnalyzeTasks(field: TasksField, query: Option<string>, daysUntil: string -> int) returns (resp: Response)
    ensures field.NotAList? <==> resp.BadRequest?
    ensures field.NotAList? ==> resp.error == NotAListError && resp.Status() == 400
    ensures field.Missing? ==> resp == Analyzed([])
    ensures field.List? ==>
              var expected := ScoredInOrder(field.tasks, StrategyParam(query), daysUntil);
              && resp.Analyzed?
              && |resp.tasks| == |field.tasks|
              && multiset(resp.tasks) == multiset(expected)
              && NonIncreasing(resp.tasks, EntryScore)
              && (forall v :: WithKey(resp.tasks, EntryScore, v) == WithKey(expected, EntryScore, v))
  {
    var strategy := StrategyParam(query);
    if field.NotAList? {
      return BadRequest(NotAListError);
    }
    var tasks := TaskList(field);
    var analyzed := ScoreBatch(tasks, t => Entry(t, tasks, strategy, daysUntil));
    assert analyzed == ScoredInOrder(tasks, strategy, daysUntil);
    SortDescIsStableSort(analyzed, EntryScore);
    resp := Analyzed(SortDesc(analyzed, EntryScore));
  }

  /** Every task of the request appears in the response exactly as often as
      in the request, each with its own score. */
  lemma ResponseKeepsEveryTask(tasks: seq<Task>, strategy: string, daysUntil: string -> int, t: Task)
    ensures var sorted := SortDesc(ScoredInOrder(tasks, strategy, daysUntil), EntryScore);
            t in tasks <==> Entry(t, tasks, strategy, daysUntil) in sorted
  {
    var inOrder := ScoredInOrder(tasks, strategy, daysUntil);
    var e := Entry(t, tasks, strategy, daysUntil);
    SortKeepsMembers(inOrder, EntryScore, e);
    if t in tasks {
      var i :| 0 <= i < |tasks| && tasks[i] == t;
      assert inOrder[i] == e;
    }
    if e in inOrder {
      var i :| 0 <= i < |inOrder| && inOrder[i] == e;
      assert tasks[i] == t;
    }
  }

  /** An absent strategy parameter scores exactly like "smart_balance", and so
      does any name outside the weight tables. */
  lemma UnknownStrategyIsSmartBalance(tasks: seq<Task>, name: string, daysUntil: string -> int)
    requires name !in Table
    ensures ScoredInOrder(tasks, StrategyParam(None), daysUntil) == ScoredInOrder(tasks, name, daysUntil)
  {
    forall i | 0 <= i < |tasks|
      ensures Entry(tasks[i], tasks, DefaultStrategy, daysUntil) == Entry(tasks[i], tasks, name, daysUntil)
    {
      UnknownStrategyScoresAsDefault(tasks[i], tasks, name, daysUntil);
    }
  }
}
