# FirstPick task prioritisation, modelled in Dafny

FirstPick ranks a batch of tasks. The backend scores each task with
`calculate_score`:

- **Four factors.** The score weighs urgency (from the days until the due
  date), importance, effort (from the estimated hours) and a bonus for
  blocking another task.
- **Four strategies.** The weights come from one of four tables, selected by
  the strategy name.
- **Cycle penalty.** The score is halved when a dependency cycle can be
  reached from the task.
- **Explanation.** Each score comes with a one-line explanation.

The analysis endpoint scores every task of a request against the whole batch
and answers with the tasks in descending score order. The web page then puts
each score in a priority bucket, HTML-escapes the task text and renders one
card per task.

The model is split into modules:

- `Tasks` (tasks.dfy): a task record with its optional keys and defaults, and
  the lookup of a task by id.
- `Strategies` (strategies.dfy): the four weight tables and the lookup that
  falls back to `smart_balance`.
- `Factors` (factors.dfy): the four normalised factors.
- `Cycles` (cycles.dfy): the depth-first cycle search. It is proved equivalent
  to a graph property: the search reports a cycle exactly when, from the task,
  dependency edges lead to a node that lies on a cycle.
- `StableSort` (stable_sort.dfy): Python's stable `sort(reverse=True)`, as a
  stable descending insertion sort.
- `Scoring` (scoring.dfy): `calculate_score` and its properties.
- `Views` (views.dfy): the POST handler of the analysis endpoint.
- `Frontend` (frontend.dfy): `getPriorityClass`, `escapeHtml` and the pure part
  of `renderResults`.
- `ScoreBuckets` (score_buckets.dfy): which weight tables can put a backend
  score into the page's high bucket.

Modelling choices:

- **Numbers.** All arithmetic is on Dafny's exact `real`.
- **Today.** The current date enters as a parameter
  `daysUntil: string -> int`. It gives the whole days from today to an
  ISO date string, negative for a date in the past.
- **Missing keys.** A key that may be absent from a task is an `Option`.
- **Explanation text.** The explanation is a tagged datatype that carries the
  values its message prints.

The cycle search follows the code, not the comment beside it. The comment at
backend/tasks/scoring.py:89 says the search checks whether the task is "part
of" a cycle. The code returns true for any cycle reachable from the task.
`Scoring.CycleDownstreamIsFlagged` shows the consequence: a task that only
depends on a cycle is penalised and explained as a circular dependency,
although it lies on no cycle itself.

## Model

| member | source | states |
|---|---|---|
| Tasks.FindById | backend/tasks/scoring.py:77 | the lookup finds nothing exactly when no task of the batch has the id; otherwise it returns the first task carrying that id |
| Strategies.WeightsFor | backend/tasks/scoring.py:3-14 | a known strategy name gets its own table and an unknown one the smart_balance weights; every table's weights are non-negative and sum to 1; the urgency weight lies between 0.1 and 0.8 |
| Strategies.TablesAreDistributions | backend/tasks/scoring.py:3-8 | each of the four weight tables is non-negative and sums to 1 |
| Factors.Urgency | backend/tasks/scoring.py:17-36 | without a due date urgency is 0; a task d days overdue gets min(2, 1 + 0.05·d), which lies in (1, 2] and reaches 2 at 20 days; tasks due within 0–2 days get 1; later tasks drop below 1 and reach 0 at 23 days; for a due date not in the past, urgency is the clamp of 1 - (days - 2)/21 into [0, 1] |
| Factors.UrgencyAntitone | backend/tasks/scoring.py:24-36 | a due date further away never gives higher urgency |
| Factors.UrgencyBandsOrdered | backend/tasks/scoring.py:24-36 | overdue ranks strictly above due within two days, which ranks strictly above due later |
| Factors.ImportanceFactor | backend/tasks/scoring.py:39-40 | the factor is one tenth of the importance, and lies in [0, 1] for importance on the 0–10 scale |
| Factors.Effort | backend/tasks/scoring.py:43-53 | effort is the clamp of (8 - hours)/6 into [0, 1]: 1 up to two hours, 0 above eight |
| Factors.EffortAntitone | backend/tasks/scoring.py:45-53 | more estimated hours never give a higher effort factor |
| Factors.ListedAsDependency | backend/tasks/scoring.py:60-63 | the search finds the id exactly when some task of the batch lists it among its dependencies |
| Factors.DependencyFactor | backend/tasks/scoring.py:57-64 | the bonus is 1 exactly when the task has an id that some task of the batch depends on, and 0 otherwise |
| Cycles.Visit | backend/tasks/scoring.py:72-87 | a visit marks the current id, and every id marked before, as visited |
| Cycles.VisitDeps | backend/tasks/scoring.py:79-84 | the dependency loop never unmarks an id, and when it finds no cycle every dependency it walked is visited |
| Cycles.BackEdgeCloses | backend/tasks/scoring.py:83-84 | an edge back to an id that reaches the current id closes a cycle reachable from the current id |
| Cycles.VisitSound | backend/tasks/scoring.py:72-87 | when every id on the recursion stack reaches the current id, a reported cycle is a cycle reachable from the current id |
| Cycles.VisitComplete | backend/tasks/scoring.py:72-87 | when the visit reports no cycle, the finished ids stay closed under dependency edges and none of them lies on a cycle |
| Cycles.SearchFindsReachableCycle | backend/tasks/scoring.py:67-90 | the search started from an id with nothing visited reports a cycle exactly when a cycle can be reached from that id |
| Cycles.InCycleMeansCycleReachable | backend/tasks/scoring.py:67-90 | a task is flagged exactly when it has an id from which a dependency cycle can be reached |
| Cycles.NoDependenciesNoCycle | backend/tasks/scoring.py:78-84 | in a batch where no task lists a dependency, no cycle is reachable from any id |
| StableSort.SortDescIsStableSort | backend/tasks/views.py:31 | the sort permutes its input into non-increasing key order and keeps equal keys in input order |
| StableSort.SortDescPermutes | backend/tasks/views.py:31 | the sorted list has the same elements, with the same multiplicities, as the input |
| StableSort.SortDescSorted | backend/tasks/views.py:31 | keys never increase along the sorted list |
| StableSort.SortDescStable | backend/tasks/views.py:31 | for every key value, the elements with that key appear in the same relative order as in the input |
| StableSort.SortKeepsMembers | backend/tasks/views.py:31 | an element is in the sorted list exactly when it is in the input |
| StableSort.SortedHeadIsMax | backend/tasks/scoring.py:111 | no element has a larger key than the head of the sorted list |
| StableSort.SortedHeadIsFirstMax | backend/tasks/scoring.py:111 | the head of the sorted list is the earliest element among those with the largest key |
| Scoring.TopTermIsFirstLargest | backend/tasks/scoring.py:105-116 | the factor on top after the sort is the first of urgency, importance, effort, dependency that has the largest weighted value, and its value is that largest value |
| Scoring.Message | backend/tasks/scoring.py:116-127 | the message of a factor is never the cycle message; it speaks of exactly the factor it is given, except that urgency without a due date keeps "balanced"; an overdue message carries the positive number of days overdue, a due-in message the non-negative days left, and the importance and quick-win messages the task's own importance and hours |
| Scoring.Explain | backend/tasks/scoring.py:103-127 | the explanation is the cycle message exactly when there is a cycle; otherwise it is "balanced" when no weighted factor exceeds 0.1, and names the first largest weighted factor when one does |
| Scoring.CalculateScore | backend/tasks/scoring.py:92-114 | the score is the weighted sum of the factors, halved exactly when a cycle is reachable from the task; the explanation is the cycle message exactly when that penalty applies |
| Scoring.UnknownStrategyScoresAsDefault | backend/tasks/scoring.py:14 | a strategy name outside the tables scores and explains every task exactly as smart_balance does |
| Scoring.ExplanationNamesLargestFactor | backend/tasks/scoring.py:113-127 | without a cycle, the explanation names the first largest weighted factor when it exceeds 0.1, and is "balanced" otherwise |
| Scoring.ExplainBalancedIff | backend/tasks/scoring.py:104-127 | when positive urgency comes with a due date, the explanation is "balanced" exactly when there is no cycle and no weighted factor exceeds 0.1 |
| Scoring.BalancedExactlyWhenNothingStandsOut | backend/tasks/scoring.py:104-127 | a task is explained as "balanced" exactly when no cycle is reachable from it and none of its weighted factors exceeds 0.1 |
| Scoring.WeightedSumMonotone | backend/tasks/scoring.py:93-98 | with non-negative weights, raising any factor never lowers the weighted sum; raising urgency under a positive urgency weight strictly raises it |
| Scoring.WeightedSumBounds | backend/tasks/scoring.py:93-98 | with factors in their ranges and non-negative weights, the weighted sum lies between 0 and twice the urgency weight plus the other three weights |
| Scoring.ScoreBounds | backend/tasks/scoring.py:93-101 | for importance on the 0–10 scale, every score lies between 0 and 1 plus the urgency weight, so never above 1.8 |
| Scoring.SoonerDueScoresHigher | backend/tasks/scoring.py:93-101 | of two tasks in one batch that agree on importance, hours, dependency bonus and penalty, the one due sooner scores at least as high, and strictly higher when its urgency is higher |
| Scoring.FastestWinsPrefersQuickTasks | backend/tasks/tests.py:33-58 | under fastest_wins, a task of at most two hours outscores one of more than eight hours, whatever their importances on the 0–10 scale, when their urgency and dependency factors agree and neither is penalised |
| Scoring.UrgencyScenario | backend/verify_scoring.py:26-56 | with equal importance and hours and no dependencies, a task 5 days overdue outscores one due tomorrow, which outscores one due in 10 days |
| Scoring.OverdueBeatsFarFuture | backend/tasks/tests.py:6-31 | with equal importance and hours and no dependencies, a task one day overdue outscores one due in 30 days |
| Scoring.MutualAndSelfDependencyAreCycles | backend/tasks/tests.py:60-78 | two tasks that depend on each other are both explained as a circular dependency, and so is a task that depends on itself |
| Scoring.CycleDownstreamIsFlagged | backend/tasks/scoring.py:89-90 | a task that only depends on a two-task cycle lies on no cycle, yet is explained as a circular dependency |
| Views.StrategyParam | backend/tasks/views.py:14 | the strategy is the query parameter when present, and "smart_balance" when absent |
| Views.Entry | backend/tasks/views.py:23-27 | a scored entry carries the request's task unchanged |
| Views.ScoredInOrder | backend/tasks/views.py:20-28 | there is one scored entry per request task, in request order, each carrying its task |
| Views.ScoreBatch | backend/tasks/views.py:20-28 | the loop yields one entry per task: each entry is the given scorer applied to its task, in request order |
| Views.AnalyzeTasks | backend/tasks/views.py:13-33 | a non-list `tasks` gets a 400 response with "Tasks must be a list", and nothing else does; a missing `tasks` gives an empty list; otherwise the response permutes the in-order scored entries into non-increasing score order, keeping entries of equal score in request order |
| Views.ResponseKeepsEveryTask | backend/tasks/views.py:20-31 | a task's scored entry is in the sorted response exactly when the task is in the request |
| Views.UnknownStrategyIsSmartBalance | backend/tasks/views.py:14 | an absent strategy parameter scores a batch exactly as any name outside the weight tables does |
| Frontend.PriorityOf | frontend/script.js:82-86 | the bucket is high exactly at 1.5 and above, medium exactly in [0.8, 1.5), and low exactly below 0.8 |
| Frontend.PriorityClass | frontend/script.js:82-86 | the class is "high-priority" exactly at 1.5 and above, "medium-priority" exactly in [0.8, 1.5), and "low-priority" exactly below 0.8 |
| Frontend.PriorityMonotone | frontend/script.js:82-86 | a higher score never falls into a lower bucket |
| ScoreBuckets.OnlyDeadlineDrivenReachesHigh | frontend/script.js:83 | with importance on the 0–10 scale, no strategy other than deadline_driven can put a task in the high bucket |
| ScoreBuckets.DeadlineDrivenCanReachHigh | frontend/script.js:83 | under deadline_driven, a quick task of importance 10 that is 20 days overdue lands in the high bucket |
| Frontend.ReplaceAll | frontend/script.js:91-95 | after a global replacement, the replaced character is absent unless the replacement brings it; every other character not in the replacement is present exactly when it was before |
| Frontend.ReplaceAllConcat | frontend/script.js:91-95 | a global replacement of a concatenation is the concatenation of the replacements |
| Frontend.EscapeHtml | frontend/script.js:88-96 | a missing text escapes to the empty string; a present text escapes as if each character were replaced by its entity independently |
| Frontend.EscapeEach | frontend/script.js:88-96 | escaped text is inert (holds no `<`, `>`, `"` or `'`), is never shorter than its input, and is empty exactly when its input is |
| Frontend.EscapeChainOfChar | frontend/script.js:90-95 | the five replacements turn a single character into exactly its entity |
| Frontend.EscapeChainConcat | frontend/script.js:90-95 | the five-replacement chain distributes over concatenation |
| Frontend.EscapeChainIsPerCharacter | frontend/script.js:90-95 | because the ampersand is replaced first, the chain equals per-character escaping and never escapes an entity twice |
| Frontend.UnescapeEscape | frontend/script.js:88-96 | decoding the escaped text gives the original text back |
| Frontend.EscapeInjective | frontend/script.js:88-96 | two different texts never escape to the same markup |
| Frontend.DueDisplay | frontend/script.js:65 | the due-date text is never empty: it is the date when present and non-empty, and "No Date" otherwise |
| Frontend.RenderResults | frontend/script.js:51-80 | the page shows the "No tasks returned." placeholder exactly when the list is empty, and otherwise one card per task |
| Frontend.CardsShowTasksFaithfully | frontend/script.js:60-79 | each card has its task's priority class and score, shows the due date or "No Date", and shows title and explanation as inert markup that decodes back to the task's text |

## Left out

- **Dates.** Parsing the ISO due date and reading today's date are out. The day count is the parameter `daysUntil`. A due date that `date.fromisoformat` rejects raises, and the endpoint answers 500; that path is not modelled.
- **Floating point.** Python floats are modelled as exact reals. Rounding can matter at the 0.1 explanation threshold and at ties between factors. Some of the tables' weight sums are also not exactly 1.0 in binary floating point.
- **Value types.** A key that is present but null, a non-numeric importance or hour count, a non-list `dependencies`, and non-integer ids are not modelled; in the source these raise and lead to a 500 response or type-dependent comparisons. Tasks are records whose six keys are either absent or well-typed. Other keys of the task are not carried, so the view's overwriting of a `score` or `explanation` key the request already had is not visible in the model.
- **Recursion depth.** Python's recursion limit is not modelled: a very long dependency chain raises `RecursionError` in the source and the endpoint answers 500. The model's search has no depth limit.
- **Explanation wording.** The f-string formatting is out; the explanation is kept as a tagged value with the numbers it prints. The frontend's explanation text is an opaque string.
- **Request plumbing.** The endpoint's JSON decoding (a 400 "Invalid JSON" answer), non-object bodies and non-object tasks, the catch-all 500 answer, the debug `print` and the Django/CSRF wiring are out. `Views.AnalyzeTasks` starts from an already decoded `tasks` field and the query parameter.
- **Strategy channel.** The page sends the strategy in the JSON body (frontend/script.js:31-34), while the endpoint reads it from the query string (backend/tasks/views.py:14). A strategy chosen on the page therefore never reaches the scorer, which falls back to smart_balance. Each side is modelled as written, and `Views.UnknownStrategyIsSmartBalance` states the fallback.
- **Score display.** `toFixed(2)` in the score display is out; a card carries the raw score.
- **Browser side.** The `analyzeTasks` fetch, the DOM updates and the error messages on the page are out, because they are browser I/O.
- **Storage.** backend/tasks/models.py is not part of this model: the scorer never reads the database.
