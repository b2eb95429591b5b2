/** The task record the scoring pipeline works on.

    A task reaches the backend as a JSON object, and the scorer reads six of its
    keys, each of which may be missing. `None` stands for an absent key. For the
    id, the title and the due date a null value behaves the same way; for the
    numeric keys and the dependency list the scorer would fail on a null, and
    such records are not modelled.
 */
module Tasks {

  datatype Option<+T> = None | Some(value: T) {
    /** The value, or `default` when there is none: a dictionary lookup with a default. */
    function GetOr(default: T): T {
      match this
      case Some(v) => v
      case None => default
    }
  }

  datatype Task = Task(
    id: Option<int>,
    title: Option<string>,
    dueDate: Option<string>,
    importance: Option<real>,
    estimatedHours: Option<real>,
    dependencies: Option<seq<int>>)

  const DefaultImportance: real := 5.0
  const DefaultHours: real := 1.0

  /** The importance, 5 when the key is missing. */
  function Importance(t: Task): real {
    t.importance.GetOr(DefaultImportance)
  }

  /** The estimated hours, 1 when the key is missing. */
  function Hours(t: Task): real {
    t.estimatedHours.GetOr(DefaultHours)
  }

  /** The ids the task depends on, none when the key is missing. */
  function Deps(t: Task): seq<int> {
    t.dependencies.GetOr([])
  }

  /** Truthiness of an optional string, the same in Python and JavaScript:
      a missing, null or empty string counts as nothing. */
  predicate Present(s: Option<string>) {
    s.Some? && s.value != ""
  }

  /** Whether a task has a due date; an empty date counts as none. */
  predicate HasDueDate(t: Task) {
    Present(t.dueDate)
  }

  /** The ids carried by the tasks of a batch. */
  function BatchIds(all: seq<Task>): set<int> {
    set t | t in all && t.id.Some? :: t.id.value
  }

  /** The index of the first task of the batch whose id equals `id`. */
  ghost predicate IsFirstWithId(all: seq<Task>, id: int, i: int) {
    0 <= i < |all| && all[i].id == Some(id) &&
    forall j :: 0 <= j < i ==> all[j].id != Some(id)
  }

  /** The first task of the batch carrying `id`, or nothing when no task does. */
  function FindById(all: seq<Task>, id: int): (r: Option<Task>)
    ensures r.None? <==> id !in BatchIds(all)
    ensures r.Some? ==> exists i :: IsFirstWithId(all, id, i) && all[i] == r.value
  {
    if all == [] then None
    else if all[0].id == Some(id) then
      assert IsFirstWithId(all, id, 0);
      Some(all[0])
    else
      var r := FindById(all[1..], id);
      assert BatchIds(all) == BatchIds(all[1..]) + BatchIds(all[..1]);
      FirstWithIdShifts(all, id);
      r
  }

  /** A first occurrence in the tail is a first occurrence in the whole batch,
      one position later, when the head carries another id. */
  lemma FirstWithIdShifts(all: seq<Task>, id: int)
    requires all != [] && all[0].id != Some(id)
    ensures forall i :: IsFirstWithId(all[1..], id, i) ==> IsFirstWithId(all, id, i + 1)
  {
  }

  /** The task FindById returns carries the id and belongs to the batch. */
  lemma FoundCarriesId(all: seq<Task>, id: int)
    requires FindById(all, id).Some?
    ensures FindById(all, id).value.id == Some(id)
    ensures FindById(all, id).value in all
  {
    var i :| IsFirstWithId(all, id, i) && all[i] == FindById(all, id).value;
  }
}
