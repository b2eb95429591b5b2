/** The scorer's search for circular dependencies.

    The dependency graph of a batch has an edge from `x` to every id listed in
    the `dependencies` of the FIRST task whose id is `x`; an id no task carries
    has no outgoing edges. The search is a depth-first walk from the task's id
    with a `visited` set shared by the whole walk and a `stack` holding the ids
    of the current path. It reports a cycle when it meets an edge back into the
    stack. The walk is proved to terminate (each step visits a batch id that was
    not visited before) and to report exactly the ids from which some cycle of
    the graph is reachable.
 */
module Cycles {
  import opened Tasks

  /** The ids `x` depends on: the dependencies of the first task with id `x`. */
  function Successors(all: seq<Task>, x: int): seq<int> {
    match FindById(all, x)
    case None => []
    case Some(t) => Deps(t)
  }

  /** Result of a search: whether a cycle was met, and the ids visited so far. */
  datatype Search = Search(cyclic: bool, visited: set<int>)

  /** Marking a batch id as visited shrinks the set of unvisited batch ids. */
  lemma UnvisitedShrinks(ids: set<int>, visited: set<int>, x: int)
    requires x in ids && x !in visited
    ensures |ids - (visited + {x})| < |ids - visited|
  {
    assert ids - (visited + {x}) == (ids - visited) - {x};
  }

  /** Visiting more ids never enlarges the set of unvisited batch ids. */
  lemma UnvisitedNoLarger(ids: set<int>, visited: set<int>, more: set<int>)
    requires visited <= more
    ensures |ids - more| <= |ids - visited|
  {
    var big := ids - visited;
    var small := ids - more;
    assert big == small + (big - small);
    assert small * (big - small) == {};
  }

  /** `is_cyclic(cur)`: marks `cur` visited, pushes it on the stack, and walks
      the dependencies of the first task carrying `cur`. Popping `cur` again on
      a negative answer needs no code here: the stack is passed down, not
      returned. */
  function Visit(all: seq<Task>, cur: int, visited: set<int>, stack: set<int>): (r: Search)
    requires cur !in visited
    requires stack <= visited
    ensures visited + {cur} <= r.visited
    decreases |BatchIds(all) - visited|, 0
  {
    match FindById(all, cur)
    case None => Search(false, visited + {cur})
    case Some(t) =>
      FoundCarriesId(all, cur);
      UnvisitedShrinks(BatchIds(all), visited, cur);
      VisitDeps(all, Deps(t), visited + {cur}, stack + {cur})
  }

  /** The loop of `is_cyclic` over one task's dependencies: an unvisited id is
      searched recursively; a visited id still on the stack closes a cycle; a
      visited id off the stack is skipped. */
  function VisitDeps(all: seq<Task>, deps: seq<int>, visited: set<int>, stack: set<int>): (r: Search)
    requires stack <= visited
    ensures visited <= r.visited
    ensures !r.cyclic ==> forall d :: d in deps ==> d in r.visited
    decreases |BatchIds(all) - visited|, 1, |deps|
  {
    if deps == [] then
      Search(false, visited)
    else if deps[0] !in visited then
      var first := Visit(all, deps[0], visited, stack);
      if first.cyclic then
        first
      else
        UnvisitedNoLarger(BatchIds(all), visited, first.visited);
        VisitDeps(all, deps[1..], first.visited, stack)
    else if deps[0] in stack then
      Search(true, visited)
    else
      VisitDeps(all, deps[1..], visited, stack)
  }

  /** The cycle check of `calculate_score`: a task without an id is never in a
      cycle; otherwise the search starts from its id with nothing visited. */
  predicate InCycle(t: Task, all: seq<Task>) {
    t.id.Some? && Visit(all, t.id.value, {}, {}).cyclic
  }

  // ---------------------------------------------------------------------------
  // What the search means

  /** A walk along dependency edges (a single id is a walk of no edges). */
  ghost predicate IsPath(all: seq<Task>, p: seq<int>) {
    |p| >= 1 && forall i :: 1 <= i < |p| ==> p[i] in Successors(all, p[i - 1])
  }

  ghost predicate Reaches(all: seq<Task>, x: int, y: int) {
    exists p :: IsPath(all, p) && p[0] == x && p[|p| - 1] == y
  }

  /** `c` lies on a cycle: a walk of at least one edge leads from `c` back to `c`. */
  ghost predicate OnCycle(all: seq<Task>, c: int) {
    exists p :: IsPath(all, p) && |p| >= 2 && p[0] == c && p[|p| - 1] == c
  }

  /** Some cycle of the graph can be reached from `x`. */
  ghost predicate CycleReachable(all: seq<Task>, x: int) {
    exists c :: Reaches(all, x, c) && OnCycle(all, c)
  }

  /** Every edge out of `done` stays inside it. */
  ghost predicate Closed(all: seq<Task>, done: set<int>) {
    forall x :: x in done ==> EdgesInto(all, x, done)
  }

  /** Every edge out of `x` leads into `done`. */
  ghost predicate EdgesInto(all: seq<Task>, x: int, done: set<int>) {
    forall d :: d in Successors(all, x) ==> d in done
  }

  /** The ids whose search has finished without finding a cycle: closed under
      edges and none of them on a cycle. */
  ghost predicate Finished(all: seq<Task>, done: set<int>) {
    Closed(all, done) && forall x :: x in done ==> !OnCycle(all, x)
  }

  lemma EdgeLeadsInto(all: seq<Task>, x: int, d: int, done: set<int>)
    requires EdgesInto(all, x, done) && d in Successors(all, x)
    ensures d in done
  {
  }

  lemma ReachesSelf(all: seq<Task>, x: int)
    ensures Reaches(all, x, x)
  {
    assert IsPath(all, [x]);
  }

  /** A walk to `y` extends by one edge out of `y`. */
  lemma ReachesThenStep(all: seq<Task>, x: int, y: int, z: int)
    requires Reaches(all, x, y) && z in Successors(all, y)
    ensures Reaches(all, x, z)
  {
    var p :| IsPath(all, p) && p[0] == x && p[|p| - 1] == y;
    var q := p + [z];
    assert IsPath(all, q);
  }

  /** A walk from `y` extends by one edge into `y`. */
  lemma StepThenReaches(all: seq<Task>, x: int, y: int, z: int)
    requires y in Successors(all, x) && Reaches(all, y, z)
    ensures Reaches(all, x, z)
  {
    var p :| IsPath(all, p) && p[0] == y && p[|p| - 1] == z;
    var q := [x] + p;
    assert IsPath(all, q);
  }

  /** An edge from `u` back to an id `d` that reaches `u` closes a cycle, and
      that cycle is reachable from `u`. */
  lemma BackEdgeCloses(all: seq<Task>, u: int, d: int)
    requires Reaches(all, d, u) && d in Successors(all, u)
    ensures CycleReachable(all, u)
  {
    var p :| IsPath(all, p) && p[0] == d && p[|p| - 1] == u;
    var q := p + [d];
    assert IsPath(all, q);
    assert OnCycle(all, d);
    assert IsPath(all, [u, d]);
    assert Reaches(all, u, d);
  }

  /** Walks starting inside a closed set never leave it. */
  lemma {:induction false} ClosedHoldsWalks(all: seq<Task>, done: set<int>, p: seq<int>)
    requires Closed(all, done) && IsPath(all, p) && p[0] in done
    ensures p[|p| - 1] in done
    decreases |p|
  {
    if |p| > 1 {
      assert EdgesInto(all, p[0], done);
      var tail := p[1..];
      assert IsPath(all, tail) by {
        forall i | 1 <= i < |tail|
          ensures tail[i] in Successors(all, tail[i - 1])
        {
          assert tail[i] == p[i + 1] && tail[i - 1] == p[i];
        }
      }
      assert p[1] in Successors(all, p[0]);
      EdgeLeadsInto(all, p[0], p[1], done);
      ClosedHoldsWalks(all, done, tail);
    }
  }

  /** An id outside a closed set, whose edges all lead into the set, lies on
      no cycle: no walk can come back to it. */
  lemma OutsideNotOnCycle(all: seq<Task>, done: set<int>, c: int)
    requires Closed(all, done) && c !in done
    requires EdgesInto(all, c, done)
    ensures !OnCycle(all, c)
  {
    if OnCycle(all, c) {
      var p :| IsPath(all, p) && |p| >= 2 && p[0] == c && p[|p| - 1] == c;
      var tail := p[1..];
      assert IsPath(all, tail) by {
        forall i | 1 <= i < |tail|
          ensures tail[i] in Successors(all, tail[i - 1])
        {
          assert tail[i] == p[i + 1] && tail[i - 1] == p[i];
        }
      }
      assert p[1] in Successors(all, c);
      EdgeLeadsInto(all, c, p[1], done);
      ClosedHoldsWalks(all, done, tail);
      assert false;
    }
  }

  // ---------------------------------------------------------------------------
  // Soundness: a reported cycle exists

  lemma {:induction false} VisitSound(all: seq<Task>, cur: int, visited: set<int>, stack: set<int>)
    requires cur !in visited && stack <= visited
    requires forall s :: s in stack ==> Reaches(all, s, cur)
    ensures Visit(all, cur, visited, stack).cyclic ==> CycleReachable(all, cur)
    decreases |BatchIds(all) - visited|, 0
  {
    match FindById(all, cur)
    case None =>
    case Some(t) =>
      FoundCarriesId(all, cur);
      UnvisitedShrinks(BatchIds(all), visited, cur);
      ReachesSelf(all, cur);
      VisitDepsSound(all, cur, Deps(t), visited + {cur}, stack + {cur});
  }

  lemma {:induction false} VisitDepsSound(all: seq<Task>, u: int, deps: seq<int>, visited: set<int>, stack: set<int>)
    requires stack <= visited
    requires forall s :: s in stack ==> Reaches(all, s, u)
    requires forall d :: d in deps ==> d in Successors(all, u)
    ensures VisitDeps(all, deps, visited, stack).cyclic ==> CycleReachable(all, u)
    decreases |BatchIds(all) - visited|, 1, |deps|
  {
    if deps == [] {
    } else if deps[0] !in visited {
      var d := deps[0];
      assert d in Successors(all, u);
      forall s | s in stack
        ensures Reaches(all, s, d)
      {
        ReachesThenStep(all, s, u, d);
      }
      VisitSound(all, d, visited, stack);
      var first := Visit(all, d, visited, stack);
      if first.cyclic {
        var c :| Reaches(all, d, c) && OnCycle(all, c);
        StepThenReaches(all, u, d, c);
      } else {
        UnvisitedNoLarger(BatchIds(all), visited, first.visited);
        VisitDepsSound(all, u, deps[1..], first.visited, stack);
      }
    } else if deps[0] in stack {
      BackEdgeCloses(all, u, deps[0]);
    } else {
      VisitDepsSound(all, u, deps[1..], visited, stack);
    }
  }

  // ---------------------------------------------------------------------------
  // Completeness: a negative answer leaves only finished ids behind

  lemma {:induction false} VisitComplete(all: seq<Task>, cur: int, visited: set<int>, stack: set<int>)
    requires cur !in visited && stack <= visited
    requires Finished(all, visited - stack)
    ensures var r := Visit(all, cur, visited, stack);
            !r.cyclic ==> cur in r.visited - stack && Finished(all, r.visited - stack)
    decreases |BatchIds(all) - visited|, 0
  {
    var r := Visit(all, cur, visited, stack);
    match FindById(all, cur)
    case None =>
      var done := visited - stack;
      assert r.visited - stack == done + {cur};
      assert Successors(all, cur) == [];
      OutsideNotOnCycle(all, done, cur);
    case Some(t) =>
      FoundCarriesId(all, cur);
      UnvisitedShrinks(BatchIds(all), visited, cur);
      assert (visited + {cur}) - (stack + {cur}) == visited - stack;
      VisitDepsComplete(all, Deps(t), visited + {cur}, stack + {cur});
      if !r.cyclic {
        var done := r.visited - (stack + {cur});
        assert Successors(all, cur) == Deps(t);
        OutsideNotOnCycle(all, done, cur);
        assert r.visited - stack == done + {cur};
      }
  }

  lemma {:induction false} VisitDepsComplete(all: seq<Task>, deps: seq<int>, visited: set<int>, stack: set<int>)
    requires stack <= visited
    requires Finished(all, visited - stack)
    ensures var r := VisitDeps(all, deps, visited, stack);
            !r.cyclic ==> Finished(all, r.visited - stack) &&
                          forall d :: d in deps ==> d in r.visited - stack
    decreases |BatchIds(all) - visited|, 1, |deps|
  {
    if deps == [] {
    } else if deps[0] !in visited {
      VisitComplete(all, deps[0], visited, stack);
      var first := Visit(all, deps[0], visited, stack);
      if !first.cyclic {
        UnvisitedNoLarger(BatchIds(all), visited, first.visited);
        VisitDepsComplete(all, deps[1..], first.visited, stack);
        assert forall d :: d in deps ==> d == deps[0] || d in deps[1..];
      }
    } else if deps[0] in stack {
    } else {
      VisitDepsComplete(all, deps[1..], visited, stack);
      assert forall d :: d in deps ==> d == deps[0] || d in deps[1..];
    }
  }

  /** No cycle is reachable from a finished id. */
  lemma FinishedReachesNoCycle(all: seq<Task>, done: set<int>, x: int)
    requires Finished(all, done) && x in done
    ensures !CycleReachable(all, x)
  {
    if CycleReachable(all, x) {
      var c :| Reaches(all, x, c) && OnCycle(all, c);
      var p :| IsPath(all, p) && p[0] == x && p[|p| - 1] == c;
      ClosedHoldsWalks(all, done, p);
      assert false;
    }
  }

  /** A search started from `x` with nothing visited reports a cycle exactly
      when one is reachable from `x`. */
  lemma SearchFindsReachableCycle(all: seq<Task>, x: int)
    ensures Visit(all, x, {}, {}).cyclic <==> CycleReachable(all, x)
  {
    var none: set<int> := {};
    assert none - none == none;
    assert Finished(all, none);
    VisitSound(all, x, none, none);
    VisitComplete(all, x, none, none);
    var r := Visit(all, x, none, none);
    if !r.cyclic {
      assert r.visited - none == r.visited;
      FinishedReachesNoCycle(all, r.visited, x);
    }
  }

  /** The cycle check flags a task exactly when it has an id from which a
      dependency cycle can be reached. The task need not lie on the cycle
      itself: depending on a cycle is enough. */
  lemma InCycleMeansCycleReachable(t: Task, all: seq<Task>)
    ensures InCycle(t, all) <==> t.id.Some? && CycleReachable(all, t.id.value)
  {
    if t.id.Some? {
      SearchFindsReachableCycle(all, t.id.value);
    }
  }

  /** In a batch where no task lists a dependency, no id has a successor. */
  lemma NoDependenciesNoSuccessors(all: seq<Task>, x: int)
    requires forall i :: 0 <= i < |all| ==> Deps(all[i]) == []
    ensures Successors(all, x) == []
  {
    if FindById(all, x).Some? {
      FoundCarriesId(all, x);
    }
  }

  /** A batch in which no task lists a dependency has no cycles. */
  lemma NoDependenciesNoCycle(all: seq<Task>, x: int)
    requires forall i :: 0 <= i < |all| ==> Deps(all[i]) == []
    ensures !CycleReachable(all, x)
  {
    forall c | OnCycle(all, c)
      ensures false
    {
      var p :| IsPath(all, p) && |p| >= 2 && p[0] == c && p[|p| - 1] == c;
      assert p[1] in Successors(all, p[0]);
      NoDependenciesNoSuccessors(all, p[0]);
    }
  }
}
