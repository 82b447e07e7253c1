// The task graph: named tasks with dependency lists, cycle validation by a
// three-colour depth-first search, Kahn-style topological ordering, and the
// partition of the tasks into waves that may run concurrently.

module Dag {
  import opened Errors
  import opened Collections

  /** The built-in operations an Internal task stands for. */
  datatype InternalTask = Compile | Run | Test | Package | Clean | ResolveDeps

  datatype TaskAction =
    | Command(command: string)
    | Internal(internal: InternalTask)
    | Composite

  /** `dependsOn` lists the names this task waits for, in declaration order;
      a name may appear more than once. */
  datatype Task = Task(name: string, description: string, dependsOn: seq<string>, action: TaskAction)

  /** The DFS colours: not yet reached, on the current path, finished. */
  datatype Color = NotVisited | InProgress | Done

  /** Adjacency: task name to the names it depends on. */
  type Edges = map<string, seq<string>>

  // ---------------------------------------------------------------------
  // Specification of the graph, on values
  // ---------------------------------------------------------------------

  /** The dependencies of `n`; a name without an entry has none. */
  function DepsOf(edges: Edges, n: string): seq<string>
  {
    if n in edges then edges[n] else []
  }

  /** `path` is a closed walk along dependency edges: it starts and ends at
      the same name and each entry depends on the next one. */
  ghost predicate IsCycle(edges: Edges, path: seq<string>)
  {
    && |path| >= 2
    && path[0] == path[|path| - 1]
    && forall i :: 0 <= i < |path| - 1 ==> path[i + 1] in DepsOf(edges, path[i])
  }

  ghost predicate Acyclic(edges: Edges)
  {
    forall path :: !IsCycle(edges, path)
  }

  /** `referrer` lists `dep` as a dependency, and no task is named `dep`. */
  ghost predicate Dangling(edges: Edges, names: set<string>, referrer: string, dep: string)
  {
    referrer in edges && dep in edges[referrer] && dep !in names
  }

  /** Every dependency names an existing task. */
  ghost predicate Closed(edges: Edges, names: set<string>)
  {
    forall n, d :: n in edges && d in edges[n] ==> d in names
  }

  /** A numbering in which every dependency is numbered below its dependent
      (a DFS finishing order is one). */
  ghost predicate IsRanking(edges: Edges, rank: map<string, nat>)
  {
    forall n :: n in edges ==>
      n in rank && forall d :: d in edges[n] ==> d in rank && rank[d] < rank[n]
  }

  ghost predicate Ranked(edges: Edges)
  {
    exists rank :: IsRanking(edges, rank)
  }

  /** No task is listed twice in any dependency list. */
  ghost predicate NoDuplicateDeps(edges: Edges)
  {
    forall n :: n in edges ==> Distinct(edges[n])
  }

  /** A duplicate-free list of tasks in which every dependency of a listed
      task is listed before it. */
  ghost predicate IsTopologicalOrder(edges: Edges, order: seq<string>)
  {
    && Distinct(order)
    && (forall k :: 0 <= k < |order| ==> order[k] in edges)
    && (forall k :: 0 <= k < |order| ==> Elems(edges[order[k]]) <= Elems(order[..k]))
  }

  /** Non-empty, duplicate-free, pairwise disjoint waves covering `names`,
      where every dependency of a task in wave k lies in an earlier wave. */
  ghost predicate IsLevelPartition(edges: Edges, names: set<string>, levels: seq<seq<string>>)
  {
    IsLevelPrefix(edges, levels) && Elems(Flatten(levels)) == names
  }

  /** The text of the missing-task error: the missing name and who refers to it. */
  function DanglingMessage(dep: string, referrer: string): string
  {
    "'" + dep + "' (referenciada por '" + referrer + "')"
  }

  /** The errors `validate` can report, and what each one tells. */
  ghost predicate IsValidationError(edges: Edges, names: set<string>, e: ForgeError)
  {
    || (e.CyclicDependency? && IsCycle(edges, e.cycle))
    || (e.TaskNotFound? && Acyclic(edges) &&
        exists referrer, dep :: Dangling(edges, names, referrer, dep) && e.taskName == DanglingMessage(dep, referrer))
  }

  /** Every name of the graph: the tasks and every name they refer to. */
  ghost function AllNames(edges: Edges): set<string>
  {
    edges.Keys + (set n, d | n in edges && d in edges[n] :: d)
  }

  ghost function Visited(states: map<string, Color>): set<string>
  {
    set n | n in states && states[n] != NotVisited
  }

  /** The DFS state: the in-progress names are exactly the path, which walks
      along edges, and every finished name carries a rank above the ranks of
      its dependencies, all of which are finished. */
  ghost predicate DfsInv(edges: Edges, states: map<string, Color>, path: seq<string>,
                         rank: map<string, nat>, clock: nat)
  {
    PathInv(edges, states, path) && RankInv(edges, states, rank, clock)
  }

  /** The in-progress names are exactly the path, which walks along edges. */
  ghost predicate PathInv(edges: Edges, states: map<string, Color>, path: seq<string>)
  {
    && Distinct(path)
    && (forall i :: 0 <= i < |path| ==> path[i] in states && states[path[i]] == InProgress)
    && (forall n :: n in states && states[n] == InProgress ==> n in path)
    && (forall i :: 0 <= i < |path| - 1 ==> path[i + 1] in DepsOf(edges, path[i]))
  }

  /** The finished names are ranked below the clock, each above its
      dependencies, all of which are finished. */
  ghost predicate RankInv(edges: Edges, states: map<string, Color>, rank: map<string, nat>, clock: nat)
  {
    && (forall n :: n in rank <==> n in states && states[n] == Done)
    && (forall n :: n in rank ==>
          rank[n] < clock && forall d :: d in DepsOf(edges, n) ==> d in rank && rank[d] < rank[n])
  }

  /** What a successful DFS call leaves in place: names stay known, finished
      names stay finished with their rank, and visited names stay visited. */
  ghost predicate DfsGrows(states: map<string, Color>, states': map<string, Color>,
                           rank: map<string, nat>, rank': map<string, nat>)
  {
    && states.Keys <= states'.Keys
    && Visited(states) <= Visited(states')
    && (forall n :: n in rank ==> n in rank' && rank'[n] == rank[n])
  }

  // ---------------------------------------------------------------------
  // Lemmas about the specification
  // ---------------------------------------------------------------------

  lemma {:induction false} RankDescends(edges: Edges, rank: map<string, nat>, path: seq<string>, k: nat)
    requires IsRanking(edges, rank)
    requires |path| >= 2
    requires forall i :: 0 <= i < |path| - 1 ==> path[i + 1] in DepsOf(edges, path[i])
    requires 1 <= k < |path|
    ensures path[0] in rank && path[k] in rank && rank[path[k]] < rank[path[0]]
  {
    assert path[k] in DepsOf(edges, path[k - 1]);
    if k > 1 {
      RankDescends(edges, rank, path, k - 1);
    }
  }

  /** A graph with a ranking has no cycle. */
  lemma RankingAcyclic(edges: Edges, rank: map<string, nat>)
    requires IsRanking(edges, rank)
    ensures Acyclic(edges)
  {
    forall path | IsCycle(edges, path) ensures false {
      RankDescends(edges, rank, path, |path| - 1);
    }
  }

  /** `n` is a task waiting on some member of `s`. */
  ghost predicate WaitsOn(edges: Edges, s: set<string>, n: string)
  {
    n in edges && exists d :: d in edges[n] && d in s
  }

  /** A member of `s` of least rank. */
  ghost function LowestRanked(s: set<string>, rank: map<string, nat>): (m: string)
    requires s != {} && s <= rank.Keys
    ensures m in s && forall x :: x in s ==> rank[m] <= rank[x]
  {
    var x :| x in s;
    if s == {x} then x
    else
      var m := LowestRanked(s - {x}, rank);
      if rank[x] <= rank[m] then x else m
  }

  /** In a ranked graph no non-empty set of tasks has each member waiting
      on another member: its member of least rank would wait on a lower one. */
  lemma NoBlockedSet(edges: Edges, rank: map<string, nat>, s: set<string>)
    requires IsRanking(edges, rank)
    requires forall n :: n in s ==> WaitsOn(edges, s, n)
    ensures s == {}
  {
    if s != {} {
      forall n | n in s ensures n in rank {
        assert WaitsOn(edges, s, n);
      }
      var m := LowestRanked(s, rank);
    }
  }

  /** A dependency count of zero, |deps| minus the distinct finished
      dependencies, means: no duplicates and every dependency finished. */
  lemma ZeroRemaining(deps: seq<string>, done: set<string>)
    ensures |Elems(deps) * done| <= |Elems(deps)| <= |deps|
    ensures |Elems(deps) * done| == |deps| <==> Distinct(deps) && Elems(deps) <= done
  {
    ElemsCard(deps);
    SubsetCard(Elems(deps) * done, Elems(deps));
    if Elems(deps) <= done {
      assert Elems(deps) * done == Elems(deps);
    } else {
      assert Elems(deps) * done < Elems(deps);
    }
  }

  /** Finishing a dependency not finished before lowers the count by one. */
  lemma FinishOne(deps: seq<string>, done: set<string>, c: string)
    requires c !in done
    ensures c in deps ==> |Elems(deps) * (done + {c})| == |Elems(deps) * done| + 1
    ensures c !in deps ==> Elems(deps) * (done + {c}) == Elems(deps) * done
  {
    if c in deps {
      assert Elems(deps) * (done + {c}) == (Elems(deps) * done) + {c};
    }
  }

  /** Concatenating the waves gives a topological order that lists every
      task exactly once. */
  lemma {:induction false} LevelsAreTopological(edges: Edges, names: set<string>, levels: seq<seq<string>>)
    requires IsLevelPartition(edges, names, levels)
    ensures IsTopologicalOrder(edges, Flatten(levels))
    ensures Elems(Flatten(levels)) == names
  {
    if levels != [] {
      var init := levels[..|levels| - 1];
      var last := levels[|levels| - 1];
      assert levels == init + [last];
      assert forall k :: 0 <= k < |init| ==> init[..k] == levels[..k];
      forall k | 0 <= k < |init| ensures Elems(init[k]) !! Elems(last) {
        assert init[k] == levels[k];
      }
      LevelsAreTopological(edges, Elems(Flatten(init)), init);
      var f := Flatten(init);
      FlattenSnoc(init, last);
      forall x | x in last ensures x !in f && x in edges && Elems(edges[x]) <= Elems(f) {
        forall k | 0 <= k < |init| ensures x !in init[k] {
          assert x in Elems(last);
        }
        FlattenElems(init, x);
      }
      ConcatTopological(edges, f, last);
    }
  }

  /** A duplicate-free list of new tasks whose dependencies all lie in a
      topological order may follow it. */
  lemma {:induction false} ConcatTopological(edges: Edges, f: seq<string>, last: seq<string>)
    requires IsTopologicalOrder(edges, f) && Distinct(last)
    requires forall x :: x in last ==> x !in f && x in edges && Elems(edges[x]) <= Elems(f)
    ensures IsTopologicalOrder(edges, f + last)
    decreases |last|
  {
    if last == [] {
      assert f + last == f;
    } else {
      AppendTopological(edges, f, last[0]);
      var g := f + [last[0]];
      forall x | x in last[1..] ensures x !in g && x in edges && Elems(edges[x]) <= Elems(g) {
        assert x != last[0];
      }
      assert Distinct(last[1..]);
      ConcatTopological(edges, g, last[1..]);
      assert g + last[1..] == f + last;
    }
  }

  /** The tasks whose count is zero and that are not yet completed, in the
      order the count table is enumerated. */
  function Ready(keys: seq<string>, count: map<string, nat>, completed: set<string>): (r: seq<string>)
    requires forall n :: n in keys ==> n in count
    ensures forall n :: n in r <==> n in keys && count[n] == 0 && n !in completed
    ensures Distinct(keys) ==> Distinct(r)
  {
    if keys == [] then []
    else
      var rest := Ready(keys[1..], count, completed);
      assert Distinct(keys) ==> Distinct(keys[1..]) && keys[0] !in keys[1..] by {
        if Distinct(keys) {
          forall i, j | 0 <= i < j < |keys[1..]| ensures keys[1..][i] != keys[1..][j] {
            assert keys[1..][i] == keys[i + 1] && keys[1..][j] == keys[j + 1];
          }
        }
      }
      if count[keys[0]] == 0 && keys[0] !in completed then [keys[0]] + rest else rest
  }

  lemma DepsAreNames(edges: Edges, node: string)
    ensures forall d :: d in DepsOf(edges, node) ==> d in AllNames(edges)
  {
  }

  /** Entering a name not yet reached puts it on the path. */
  lemma DfsEnter(edges: Edges, states: map<string, Color>, path: seq<string>,
                 rank: map<string, nat>, clock: nat, node: string)
    requires DfsInv(edges, states, path, rank, clock)
    requires node !in states || states[node] == NotVisited
    requires path != [] ==> node in DepsOf(edges, path[|path| - 1])
    ensures DfsInv(edges, states[node := InProgress], path + [node], rank, clock)
    ensures DfsGrows(states, states[node := InProgress], rank, rank)
    ensures node in Visited(states[node := InProgress]) && node !in Visited(states)
  {
    PathPush(edges, states, path, node);
  }

  lemma PathPush(edges: Edges, states: map<string, Color>, path: seq<string>, node: string)
    requires PathInv(edges, states, path)
    requires node !in states || states[node] == NotVisited
    requires path != [] ==> node in DepsOf(edges, path[|path| - 1])
    ensures PathInv(edges, states[node := InProgress], path + [node])
  {
    var states', path' := states[node := InProgress], path + [node];
    assert node !in path;
    forall i, j | 0 <= i < j < |path'| ensures path'[i] != path'[j] {
      if j < |path| { assert path'[i] == path[i] && path'[j] == path[j]; }
      else { assert path'[i] == path[i]; }
    }
    forall i | 0 <= i < |path'| - 1 ensures path'[i + 1] in DepsOf(edges, path'[i]) {
      assert path'[i] == path[i];
      if i + 1 < |path| { assert path'[i + 1] == path[i + 1]; }
    }
    forall i | 0 <= i < |path'| ensures path'[i] in states' && states'[path'[i]] == InProgress {
      if i < |path| { assert path'[i] == path[i]; }
    }
  }

  /** Leaving a name whose dependencies are all finished finishes it with
      the next rank. */
  lemma DfsLeave(edges: Edges, states: map<string, Color>, path: seq<string>, node: string,
                 rank: map<string, nat>, clock: nat)
    requires DfsInv(edges, states, path + [node], rank, clock)
    requires forall d :: d in DepsOf(edges, node) ==> d in rank
    ensures DfsInv(edges, states[node := Done], path, rank[node := clock], clock + 1)
    ensures DfsGrows(states, states[node := Done], rank, rank[node := clock])
  {
    assert (path + [node])[|path|] == node;
    PathPop(edges, states, path, node);
    RankFinish(edges, states, rank, clock, node);
  }

  lemma PathPop(edges: Edges, states: map<string, Color>, path: seq<string>, node: string)
    requires PathInv(edges, states, path + [node])
    ensures PathInv(edges, states[node := Done], path)
  {
    var p := path + [node];
    assert p[|path|] == node;
    forall t | 0 <= t < |path| ensures path[t] != node {
      assert p[t] == path[t];
    }
    forall i | 0 <= i < |path| ensures path[i] in states && states[path[i]] == InProgress {
      assert p[i] == path[i];
    }
    forall i | 0 <= i < |path| - 1 ensures path[i + 1] in DepsOf(edges, path[i]) {
      assert p[i] == path[i] && p[i + 1] == path[i + 1];
    }
    forall i, j | 0 <= i < j < |path| ensures path[i] != path[j] {
      assert p[i] == path[i] && p[j] == path[j];
    }
    forall n | n in states && states[n] == InProgress && n != node ensures n in path {
      assert n in p;
    }
  }

  lemma RankFinish(edges: Edges, states: map<string, Color>, rank: map<string, nat>, clock: nat, node: string)
    requires RankInv(edges, states, rank, clock)
    requires node in states && states[node] == InProgress
    requires forall d :: d in DepsOf(edges, node) ==> d in rank
    ensures RankInv(edges, states[node := Done], rank[node := clock], clock + 1)
  {
    assert node !in rank;
  }

  /** Once every task is finished, the finishing ranks rank the graph. */
  lemma FinishedRanks(edges: Edges, states: map<string, Color>, rank: map<string, nat>, clock: nat)
    requires DfsInv(edges, states, [], rank, clock)
    requires forall n :: n in edges ==> n in rank
    ensures IsRanking(edges, rank)
  {
    forall n | n in edges ensures forall d :: d in edges[n] ==> d in rank && rank[d] < rank[n] {
      assert DepsOf(edges, n) == edges[n];
    }
  }

  /** |deps| minus the number of distinct dependencies already emitted. */
  ghost function Pending(deps: seq<string>, done: set<string>): int
  {
    |deps| - |Elems(deps) * done|
  }

  /** The state of Kahn's algorithm: emitted and queued tasks are distinct,
      every count is the pending count against the emitted tasks, and a task
      has been queued exactly when its count is zero. */
  ghost predicate KahnInv(edges: Edges, count: map<string, nat>, order: seq<string>, queue: seq<string>)
  {
    && Distinct(order + queue)
    && (forall n :: n in order + queue ==> n in edges)
    && (forall n :: n in edges ==> n in count && count[n] == Pending(edges[n], Elems(order)))
    && (forall n :: n in edges ==> (n in order + queue <==> count[n] == 0))
  }

  lemma InitialKahn(edges: Edges, count: map<string, nat>, queue: seq<string>)
    requires forall n :: n in edges ==> n in count && count[n] == |edges[n]|
    requires count.Keys == edges.Keys
    requires Distinct(queue)
    requires forall n :: n in queue <==> n in count && count[n] == 0
    ensures KahnInv(edges, count, [], queue)
  {
    assert [] + queue == queue;
    forall n | n in edges ensures count[n] == Pending(edges[n], Elems([])) {
      assert Elems(edges[n]) * Elems([]) == {};
    }
  }

  /** A task whose dependencies are all in a topological order may follow it. */
  lemma AppendTopological(edges: Edges, order: seq<string>, n: string)
    requires IsTopologicalOrder(edges, order)
    requires n in edges && n !in order
    requires Elems(edges[n]) <= Elems(order)
    ensures IsTopologicalOrder(edges, order + [n])
  {
    var o := order + [n];
    DistinctAppend(order, n);
    forall k | 0 <= k < |o| ensures o[k] in edges && Elems(edges[o[k]]) <= Elems(o[..k]) {
      if k < |order| {
        assert o[k] == order[k] && o[..k] == order[..k];
      } else {
        assert o[..k] == order;
      }
    }
  }

  /** The head of the queue is a task not yet emitted with nothing pending. */
  lemma KahnHead(edges: Edges, count: map<string, nat>, order: seq<string>, queue: seq<string>)
    requires KahnInv(edges, count, order, queue) && queue != []
    ensures queue[0] in edges && queue[0] !in order
    ensures Pending(edges[queue[0]], Elems(order)) == 0
  {
    DistinctSplit(order, queue);
    assert queue[0] in order + queue;
  }

  /** A task not yet emitted with nothing pending may be emitted next: all
      its dependencies are emitted already and it lists none twice. */
  lemma KahnEmit(edges: Edges, order: seq<string>, current: string, names: set<string>)
    requires current in edges && current !in order
    requires Pending(edges[current], Elems(order)) == 0
    requires IsTopologicalOrder(edges, order)
    requires forall n :: n in order ==> Distinct(edges[n])
    requires names == edges.Keys
    ensures IsTopologicalOrder(edges, order + [current])
    ensures forall n :: n in order + [current] ==> Distinct(edges[n])
    ensures names - Elems(order + [current]) < names - Elems(order)
  {
    ZeroRemaining(edges[current], Elems(order));
    AppendTopological(edges, order, current);
    forall n | n in order + [current] ensures Distinct(edges[n]) {
      if n != current { assert n in order; }
    }
    ElemsAppend(order, current);
    assert current in (names - Elems(order)) - (names - Elems(order + [current]));
  }

  /** When the queue runs dry on a closed ranked graph without repeated
      dependencies, every task has been emitted. */
  lemma KahnComplete(edges: Edges, count: map<string, nat>, order: seq<string>, names: set<string>)
    requires KahnInv(edges, count, order, [])
    requires Ranked(edges) && Closed(edges, names) && NoDuplicateDeps(edges)
    requires names == edges.Keys
    ensures Elems(order) == names
  {
    var rank :| IsRanking(edges, rank);
    assert order + [] == order;
    assert forall n :: n in edges && n !in Elems(order) ==> Pending(edges[n], Elems(order)) != 0;
    StuckTasksWait(edges, Elems(order), rank, names);
  }

  /** Tasks left with pending dependencies, on a closed ranked graph without
      repeated dependencies, cannot exist. */
  lemma StuckTasksWait(edges: Edges, done: set<string>, rank: map<string, nat>, names: set<string>)
    requires forall n :: n in edges && n !in done ==> Pending(edges[n], done) != 0
    requires IsRanking(edges, rank) && Closed(edges, names) && NoDuplicateDeps(edges)
    requires names == edges.Keys
    ensures names <= done
  {
    var left := names - done;
    forall n | n in left ensures WaitsOn(edges, left, n) {
      ZeroRemaining(edges[n], done);
      var d :| d in edges[n] && d !in done;
    }
    NoBlockedSet(edges, rank, left);
    forall n | n in names ensures n in done {
      assert n !in left;
    }
  }

  /** The state inside Kahn's inner loop, after `current` was emitted:
      tasks in `processed` are counted against the new order, the others
      still against the old one. */
  ghost predicate ReleaseInv(edges: Edges, count: map<string, nat>, order: seq<string>, prev: seq<string>,
                             queue0: seq<string>, queue: seq<string>, processed: set<string>)
  {
    && |queue0| <= |queue| && queue[..|queue0|] == queue0
    && Distinct(order + queue)
    && (forall n :: n in order + queue ==> n in edges)
    && (forall n :: n in edges ==> n in count)
    && (forall n :: n in edges && n in processed ==> count[n] == Pending(edges[n], Elems(order)))
    && (forall n :: n in edges && n !in processed ==> count[n] == Pending(edges[n], Elems(prev)))
    && (forall n :: n in edges ==> (n in order + queue <==> count[n] == 0))
  }

  lemma ReleaseStart(edges: Edges, count: map<string, nat>, prev: seq<string>, current: string, queue: seq<string>)
    requires KahnInv(edges, count, prev, [current] + queue)
    ensures ReleaseInv(edges, count, prev + [current], prev, queue, queue, {})
  {
    assert prev + ([current] + queue) == (prev + [current]) + queue;
  }

  lemma ReleaseEnd(edges: Edges, count: map<string, nat>, order: seq<string>, prev: seq<string>,
                   queue0: seq<string>, queue: seq<string>)
    requires ReleaseInv(edges, count, order, prev, queue0, queue, edges.Keys)
    ensures KahnInv(edges, count, order, queue)
  {
  }

  /** A task listing the task just emitted, not yet processed, still has a
      pending dependency, so its count does not underflow. */
  lemma ReleaseCanDecrement(edges: Edges, count: map<string, nat>, order: seq<string>, prev: seq<string>,
                            current: string, queue0: seq<string>, queue: seq<string>,
                            processed: set<string>, name: string)
    requires order == prev + [current] && current !in prev
    requires ReleaseInv(edges, count, order, prev, queue0, queue, processed)
    requires name in edges && name !in processed && current in edges[name]
    ensures count[name] >= 1
  {
    assert Elems(order) == Elems(prev) + {current};
    ZeroRemaining(edges[name], Elems(order));
    FinishOne(edges[name], Elems(prev), current);
  }

  lemma ReleaseStep(edges: Edges, count: map<string, nat>, order: seq<string>, prev: seq<string>,
                    current: string, queue0: seq<string>, queue: seq<string>, processed: set<string>,
                    name: string, count2: map<string, nat>, queue2: seq<string>)
    requires order == prev + [current] && current !in prev
    requires ReleaseInv(edges, count, order, prev, queue0, queue, processed)
    requires name in edges && name !in processed
    requires current !in edges[name] ==> count2 == count && queue2 == queue
    requires current in edges[name] ==>
      && count[name] >= 1
      && count2 == count[name := count[name] - 1]
      && queue2 == (if count2[name] == 0 then queue + [name] else queue)
    ensures ReleaseInv(edges, count2, order, prev, queue0, queue2, processed + {name})
  {
    assert Elems(order) == Elems(prev) + {current};
    FinishOne(edges[name], Elems(prev), current);
    if current in edges[name] {
      ReleaseHit(edges, count, order, prev, current, queue0, queue, processed, name, count2, queue2);
    } else {
      ReleaseSkip(edges, count, order, prev, queue0, queue, processed, name);
    }
  }

  lemma ReleaseSkip(edges: Edges, count: map<string, nat>, order: seq<string>, prev: seq<string>,
                    queue0: seq<string>, queue: seq<string>, processed: set<string>, name: string)
    requires ReleaseInv(edges, count, order, prev, queue0, queue, processed)
    requires name in edges && name !in processed
    requires Elems(edges[name]) * Elems(order) == Elems(edges[name]) * Elems(prev)
    ensures ReleaseInv(edges, count, order, prev, queue0, queue, processed + {name})
  {
  }

  lemma ReleaseHit(edges: Edges, count: map<string, nat>, order: seq<string>, prev: seq<string>,
                   current: string, queue0: seq<string>, queue: seq<string>, processed: set<string>,
                   name: string, count2: map<string, nat>, queue2: seq<string>)
    requires ReleaseInv(edges, count, order, prev, queue0, queue, processed)
    requires name in edges && name !in processed
    requires |Elems(edges[name]) * Elems(order)| == |Elems(edges[name]) * Elems(prev)| + 1
    requires count[name] >= 1
    requires count2 == count[name := count[name] - 1]
    requires queue2 == (if count2[name] == 0 then queue + [name] else queue)
    ensures ReleaseInv(edges, count2, order, prev, queue0, queue2, processed + {name})
  {
    if count2[name] == 0 {
      DistinctAppend(order + queue, name);
      assert order + (queue + [name]) == (order + queue) + [name];
      assert (queue + [name])[..|queue0|] == queue[..|queue0|];
    }
  }


  /** The waves so far are non-empty, duplicate-free and pairwise disjoint,
      and each task's dependencies lie in earlier waves. */
  ghost predicate IsLevelPrefix(edges: Edges, levels: seq<seq<string>>)
  {
    LevelsDisjoint(levels) && LevelsPrecede(edges, levels)
  }

  /** Non-empty, duplicate-free, pairwise disjoint waves. */
  ghost predicate LevelsDisjoint(levels: seq<seq<string>>)
  {
    && (forall k :: 0 <= k < |levels| ==> levels[k] != [] && Distinct(levels[k]))
    && (forall k1, k2 :: 0 <= k1 < k2 < |levels| ==> Elems(levels[k1]) !! Elems(levels[k2]))
  }

  /** Each task's dependencies lie in earlier waves. */
  ghost predicate LevelsPrecede(edges: Edges, levels: seq<seq<string>>)
  {
    forall k, n :: 0 <= k < |levels| && n in levels[k] ==>
      n in edges && Elems(edges[n]) <= Elems(Flatten(levels[..k]))
  }

  /** Every task not completed has as count its number of dependency
      positions outside `completed`. */
  ghost predicate CountsInv(edges: Edges, count: map<string, nat>, completed: set<string>)
  {
    forall n :: n in edges ==>
      n in count && (n !in completed ==> count[n] == |edges[n]| - CountIn(edges[n], completed))
  }

  /** The state of the wave loop. */
  ghost predicate WaveInv(edges: Edges, names: set<string>, countKeys: seq<string>,
                          levels: seq<seq<string>>, completed: set<string>, count: map<string, nat>)
  {
    && names == edges.Keys && Elems(countKeys) == names && Distinct(countKeys)
    && completed == Elems(Flatten(levels)) && completed <= names
    && IsLevelPrefix(edges, levels)
    && CountsInv(edges, count, completed)
  }

  lemma InitialWave(edges: Edges, names: set<string>, countKeys: seq<string>, count: map<string, nat>)
    requires names == edges.Keys && Elems(countKeys) == count.Keys && Distinct(countKeys)
    requires count == map n | n in edges :: |edges[n]|
    ensures WaveInv(edges, names, countKeys, [], {}, count)
  {
    assert count.Keys == edges.Keys;
    forall n | n in edges ensures CountIn(edges[n], {}) == 0 {
      CountInNone(edges[n]);
    }
  }

  lemma {:induction false} CountInNone(s: seq<string>)
    ensures CountIn(s, {}) == 0
  {
    if s != [] {
      CountInNone(s[1..]);
    }
  }

  /** A non-empty ready list is a valid next wave, and completing it
      shrinks what is left. */
  lemma NextLevel(edges: Edges, names: set<string>, countKeys: seq<string>, levels: seq<seq<string>>,
                  completed: set<string>, count: map<string, nat>, ready: seq<string>,
                  count': map<string, nat>)
    requires WaveInv(edges, names, countKeys, levels, completed, count)
    requires ready == Ready(countKeys, count, completed) && ready != []
    requires CountsInv(edges, count', completed + Elems(ready))
    ensures WaveInv(edges, names, countKeys, levels + [ready], completed + Elems(ready), count')
    ensures names - (completed + Elems(ready)) < names - completed
  {
    ReadyAreFree(edges, names, countKeys, levels, completed, count);
    AppendLevel(edges, levels, completed, ready);
    var x := ready[0];
    assert x in (names - completed) - (names - (completed + Elems(ready)));
  }

  /** A ready task is a task not yet completed whose dependencies are all
      completed. */
  lemma ReadyAreFree(edges: Edges, names: set<string>, countKeys: seq<string>, levels: seq<seq<string>>,
                     completed: set<string>, count: map<string, nat>)
    requires WaveInv(edges, names, countKeys, levels, completed, count)
    ensures var ready := Ready(countKeys, count, completed);
            Distinct(ready) &&
            forall n :: n in ready ==> n in edges && n !in completed && Elems(edges[n]) <= completed
  {
    forall n | n in Ready(countKeys, count, completed)
      ensures n in edges && n !in completed && Elems(edges[n]) <= completed
    {
      CountInAll(edges[n], completed);
    }
  }

  /** Appending a wave of new tasks whose dependencies are all in earlier
      waves keeps the waves well formed. */
  lemma AppendLevel(edges: Edges, levels: seq<seq<string>>, completed: set<string>, ready: seq<string>)
    requires IsLevelPrefix(edges, levels) && completed == Elems(Flatten(levels))
    requires ready != [] && Distinct(ready)
    requires forall n :: n in ready ==> n in edges && n !in completed && Elems(edges[n]) <= completed
    ensures IsLevelPrefix(edges, levels + [ready])
    ensures Elems(Flatten(levels + [ready])) == completed + Elems(ready)
  {
    FlattenSnoc(levels, ready);
    AppendDisjoint(levels, completed, ready);
    AppendPrecede(edges, levels, completed, ready);
  }

  lemma AppendDisjoint(levels: seq<seq<string>>, completed: set<string>, ready: seq<string>)
    requires LevelsDisjoint(levels) && completed == Elems(Flatten(levels))
    requires ready != [] && Distinct(ready)
    requires forall n :: n in ready ==> n !in completed
    ensures LevelsDisjoint(levels + [ready])
  {
    var ls := levels + [ready];
    forall k | 0 <= k < |levels| ensures Elems(levels[k]) !! Elems(ready) {
      forall x | x in levels[k] ensures x in completed {
        FlattenElems(levels, x);
      }
    }
    forall k | 0 <= k < |levels| ensures ls[k] == levels[k] {
    }
  }

  lemma AppendPrecede(edges: Edges, levels: seq<seq<string>>, completed: set<string>, ready: seq<string>)
    requires LevelsPrecede(edges, levels) && completed == Elems(Flatten(levels))
    requires forall n :: n in ready ==> n in edges && Elems(edges[n]) <= completed
    ensures LevelsPrecede(edges, levels + [ready])
  {
    var ls := levels + [ready];
    forall k | 0 <= k < |ls| ensures ls[..k] == if k < |levels| then levels[..k] else levels {
    }
  }

  /** With no ready task left, every task is completed (on a closed ranked
      graph), so the waves partition the tasks. */
  lemma LevelsComplete(edges: Edges, names: set<string>, countKeys: seq<string>, levels: seq<seq<string>>,
                       completed: set<string>, count: map<string, nat>)
    requires WaveInv(edges, names, countKeys, levels, completed, count)
    requires Ready(countKeys, count, completed) == []
    requires Ranked(edges) && Closed(edges, names)
    ensures IsLevelPartition(edges, names, levels)
  {
    var rank :| IsRanking(edges, rank);
    var left := names - completed;
    forall n | n in left ensures WaitsOn(edges, left, n) {
      assert n in countKeys;
      CountInAll(edges[n], completed);
      var d :| d in edges[n] && d !in completed;
    }
    NoBlockedSet(edges, rank, left);
    forall n | n in names ensures n in completed {
      assert n !in left;
    }
  }

  /** The state between two top-level searches: nothing in progress, every
      task known, and the tasks searched from so far finished. */
  ghost predicate SearchInv(edges: Edges, names: set<string>, order: seq<string>, i: nat,
                            states: map<string, Color>, rank: map<string, nat>, clock: nat)
  {
    && i <= |order|
    && DfsInv(edges, states, [], rank, clock)
    && names <= states.Keys
    && forall j :: 0 <= j < i ==> order[j] in rank
  }

  lemma SearchStep(edges: Edges, names: set<string>, order: seq<string>, i: nat,
                   states: map<string, Color>, rank: map<string, nat>,
                   states': map<string, Color>, rank': map<string, nat>, clock': nat)
    requires i < |order|
    requires forall j :: 0 <= j < i ==> order[j] in rank
    requires names <= states.Keys
    requires DfsInv(edges, states', [], rank', clock')
    requires order[i] in states' && states'[order[i]] == Done
    requires DfsGrows(states, states', rank, rank')
    ensures SearchInv(edges, names, order, i + 1, states', rank', clock')
  {
  }

  lemma SearchSkip(edges: Edges, names: set<string>, order: seq<string>, i: nat,
                   states: map<string, Color>, rank: map<string, nat>, clock: nat)
    requires SearchInv(edges, names, order, i, states, rank, clock) && i < |order|
    requires order[i] in states && states[order[i]] != NotVisited
    ensures SearchInv(edges, names, order, i + 1, states, rank, clock)
  {
  }

  /** After searching from every task, the finishing ranks rank the graph. */
  lemma SearchDone(edges: Edges, names: set<string>, order: seq<string>,
                   states: map<string, Color>, rank: map<string, nat>, clock: nat)
    requires SearchInv(edges, names, order, |order|, states, rank, clock)
    requires Elems(order) == names && names == edges.Keys
    ensures IsRanking(edges, rank)
  {
    assert forall n :: n in edges ==> n in rank;
    FinishedRanks(edges, states, rank, clock);
  }

  /** The state of the loop over the dependencies of `node`: the search
      state is consistent, has grown since entry, and the first `i`
      dependencies are finished. */
  ghost predicate DfsLoopInv(edges: Edges, states: map<string, Color>, rank: map<string, nat>,
                             node: string, deps: seq<string>, i: nat,
                             states': map<string, Color>, path': seq<string>,
                             rank': map<string, nat>, clock': nat)
  {
    && i <= |deps|
    && deps == DepsOf(edges, node)
    && path' != [] && path'[|path'| - 1] == node
    && DfsInv(edges, states', path', rank', clock')
    && DfsGrows(states, states', rank, rank')
    && node in Visited(states') && node !in Visited(states)
    && forall j :: 0 <= j < i ==> deps[j] in rank'
  }

  lemma DfsLoopCycle(edges: Edges, states: map<string, Color>, rank: map<string, nat>,
                     node: string, deps: seq<string>, i: nat,
                     states': map<string, Color>, path': seq<string>,
                     rank': map<string, nat>, clock': nat)
    requires DfsLoopInv(edges, states, rank, node, deps, i, states', path', rank', clock') && i < |deps|
    requires deps[i] in states' && states'[deps[i]] == InProgress
    ensures IsCycle(edges, (path' + [deps[i]])[IndexOf(path' + [deps[i]], deps[i])..])
  {
    CycleOnPath(edges, path', deps[i]);
  }

  /** A dependency not yet reached may be searched from, and the search
      measure goes down. */
  lemma DfsLoopDescend(edges: Edges, states: map<string, Color>, rank: map<string, nat>,
                       node: string, deps: seq<string>, i: nat,
                       states': map<string, Color>, path': seq<string>,
                       rank': map<string, nat>, clock': nat)
    requires DfsLoopInv(edges, states, rank, node, deps, i, states', path', rank', clock') && i < |deps|
    requires deps[i] !in states' || states'[deps[i]] == NotVisited
    ensures deps[i] in AllNames(edges)
    ensures deps[i] in DepsOf(edges, path'[|path'| - 1])
    ensures AllNames(edges) - Visited(states') < AllNames(edges) - Visited(states)
  {
    DepsAreNames(edges, node);
    assert node in AllNames(edges);
    assert node in (AllNames(edges) - Visited(states)) - (AllNames(edges) - Visited(states'));
  }

  lemma DfsLoopVisited(edges: Edges, states: map<string, Color>, rank: map<string, nat>,
                       node: string, deps: seq<string>, i: nat,
                       states0: map<string, Color>, rank0: map<string, nat>, clock0: nat,
                       states': map<string, Color>, path': seq<string>,
                       rank': map<string, nat>, clock': nat)
    requires DfsLoopInv(edges, states, rank, node, deps, i, states0, path', rank0, clock0) && i < |deps|
    requires DfsInv(edges, states', path', rank', clock')
    requires deps[i] in states' && states'[deps[i]] == Done
    requires DfsGrows(states0, states', rank0, rank')
    ensures DfsLoopInv(edges, states, rank, node, deps, i + 1, states', path', rank', clock')
  {
    GrowsTrans(states, states0, states', rank, rank0, rank');
  }

  lemma DfsLoopSkip(edges: Edges, states: map<string, Color>, rank: map<string, nat>,
                    node: string, deps: seq<string>, i: nat,
                    states': map<string, Color>, path': seq<string>,
                    rank': map<string, nat>, clock': nat)
    requires DfsLoopInv(edges, states, rank, node, deps, i, states', path', rank', clock') && i < |deps|
    requires deps[i] in states' && states'[deps[i]] == Done
    ensures DfsLoopInv(edges, states, rank, node, deps, i + 1, states', path', rank', clock')
  {
  }

  /** Once every dependency is finished, `node` is finished with the next rank. */
  lemma DfsLoopEnd(edges: Edges, states: map<string, Color>, rank: map<string, nat>,
                   node: string, deps: seq<string>,
                   states': map<string, Color>, path: seq<string>,
                   rank': map<string, nat>, clock': nat)
    requires DfsLoopInv(edges, states, rank, node, deps, |deps|, states', path + [node], rank', clock')
    ensures DfsInv(edges, states'[node := Done], path, rank'[node := clock'], clock' + 1)
    ensures DfsGrows(states, states'[node := Done], rank, rank'[node := clock'])
  {
    DfsLeave(edges, states', path, node, rank', clock');
    GrowsTrans(states, states', states'[node := Done], rank, rank', rank'[node := clock']);
  }

  lemma GrowsTrans(s1: map<string, Color>, s2: map<string, Color>, s3: map<string, Color>,
                   r1: map<string, nat>, r2: map<string, nat>, r3: map<string, nat>)
    requires DfsGrows(s1, s2, r1, r2) && DfsGrows(s2, s3, r2, r3)
    ensures DfsGrows(s1, s3, r1, r3)
  {
  }

  /** A dependency already on the path closes a cycle: the path from its
      first occurrence, followed by the dependency again. */
  lemma CycleOnPath(edges: Edges, path: seq<string>, dep: string)
    requires forall i :: 0 <= i < |path| - 1 ==> path[i + 1] in DepsOf(edges, path[i])
    requires path != [] && dep in DepsOf(edges, path[|path| - 1])
    requires dep in path
    ensures IsCycle(edges, (path + [dep])[IndexOf(path + [dep], dep)..])
  {
    var full := path + [dep];
    var start := IndexOf(full, dep);
    var c := full[start..];
    assert start < |path|;
    assert c[|c| - 1] == dep;
    forall k | 0 <= k < |c| - 1 ensures c[k + 1] in DepsOf(edges, c[k]) {
      assert c[k] == full[start + k] && c[k + 1] == full[start + k + 1];
      if start + k + 1 < |path| {
        assert full[start + k] == path[start + k] && full[start + k + 1] == path[start + k + 1];
      }
    }
  }

  /** The wave loop of `ParallelLevels`, entered once validation passed. */
  method ComputeLevels(edges: Edges, names: set<string>) returns (levels: seq<seq<string>>)
    requires edges.Keys == names && Closed(edges, names) && Ranked(edges)
    ensures IsLevelPartition(edges, names, levels)
  {
    var count: map<string, nat> := map n | n in edges :: |edges[n]|;
    var countKeys := EnumerateKeys(count.Keys);
    var edgeKeys := EnumerateKeys(edges.Keys);
    levels := [];
    var completed: set<string> := {};
    InitialWave(edges, names, countKeys, count);
    while true
      invariant WaveInv(edges, names, countKeys, levels, completed, count)
      decreases names - completed
    {
      var ready := Ready(countKeys, count, completed);
      if ready == [] {
        LevelsComplete(edges, names, countKeys, levels, completed, count);
        break;
      }
      ghost var count0 := count;
      var completed' := completed + Elems(ready);
      count := Recount(edges, count, completed', edgeKeys);
      NextLevel(edges, names, countKeys, levels, completed, count0, ready, count);
      completed := completed';
      levels := levels + [ready];
    }
  }

  /** Recomputes the pending count of every task not yet completed: its
      number of dependency positions that are not completed. */
  method Recount(edges: Edges, count: map<string, nat>, completed: set<string>, edgeKeys: seq<string>)
    returns (count': map<string, nat>)
    requires Elems(edgeKeys) == edges.Keys
    requires forall n :: n in edges ==> n in count
    ensures CountsInv(edges, count', completed)
  {
    count' := count;
    for j := 0 to |edgeKeys|
      invariant forall n :: n in edges ==> n in count'
      invariant forall n :: n in edges && n !in completed && n in Elems(edgeKeys[..j]) ==>
                  count'[n] == |edges[n]| - CountIn(edges[n], completed)
    {
      var name := edgeKeys[j];
      ElemsPrefix(edgeKeys, j);
      if name !in completed {
        var resolved := CountIn(edges[name], completed);
        count' := count'[name := |edges[name]| - resolved];
      }
    }
    ElemsWhole(edgeKeys);
  }

  /** The queue loop of `TopologicalOrder`. */
  method Kahn(edges: Edges, names: set<string>) returns (order: seq<string>)
    requires names == edges.Keys && Closed(edges, names) && Ranked(edges)
    ensures IsTopologicalOrder(edges, order)
    ensures forall n :: n in order ==> Distinct(edges[n])
    ensures NoDuplicateDeps(edges) ==> Elems(order) == names && |order| == |names|
  {
    // Remaining dependency count of every task: the length of its list.
    var count: map<string, nat> := map n | n in edges :: |edges[n]|;
    assert count.Keys == edges.Keys;
    var countKeys := EnumerateKeys(count.Keys);
    var queue: seq<string> := [];
    for j := 0 to |countKeys|
      invariant Distinct(queue)
      invariant forall n :: n in queue <==> n in Elems(countKeys[..j]) && n in count && count[n] == 0
    {
      var name := countKeys[j];
      ElemsPrefix(countKeys, j);
      if count[name] == 0 {
        DistinctAppend(queue, name);
        queue := queue + [name];
      }
    }
    ElemsWhole(countKeys);
    InitialKahn(edges, count, queue);

    var edgeKeys := EnumerateKeys(edges.Keys);
    order := [];
    while queue != []
      invariant KahnInv(edges, count, order, queue)
      invariant IsTopologicalOrder(edges, order)
      invariant forall n :: n in order ==> Distinct(edges[n])
      decreases names - Elems(order)
    {
      var current := queue[0];
      ghost var prev := order;
      KahnHead(edges, count, order, queue);
      KahnEmit(edges, order, current, names);
      HeadTail(queue);
      queue := queue[1..];
      order := order + [current];
      count, queue := Release(edges, current, count, queue, edgeKeys, prev);
    }

    if NoDuplicateDeps(edges) {
      KahnComplete(edges, count, order, names);
      ElemsCard(order);
    }
  }

  /** The inner loop of Kahn's algorithm: every task that lists `current`
      loses one pending dependency, and joins the queue when none is left. */
  method Release(edges: Edges, current: string, count: map<string, nat>, queue: seq<string>,
                 edgeKeys: seq<string>, ghost prev: seq<string>)
    returns (count': map<string, nat>, queue': seq<string>)
    requires Elems(edgeKeys) == edges.Keys && Distinct(edgeKeys)
    requires current !in prev
    requires KahnInv(edges, count, prev, [current] + queue)
    ensures KahnInv(edges, count', prev + [current], queue')
    ensures |queue| <= |queue'| && queue'[..|queue|] == queue
  {
    count', queue' := count, queue;
    var order := prev + [current];
    ReleaseStart(edges, count, prev, current, queue);
    ghost var processed: set<string> := {};
    var j := 0;
    while j < |edgeKeys|
      invariant 0 <= j <= |edgeKeys|
      invariant processed == Elems(edgeKeys[..j])
      invariant ReleaseInv(edges, count', order, prev, queue, queue', processed)
    {
      var name := edgeKeys[j];
      ElemsPrefix(edgeKeys, j);
      ghost var count0, queue0 := count', queue';
      if current in edges[name] {
        ReleaseCanDecrement(edges, count', order, prev, current, queue, queue', processed, name);
        count' := count'[name := count'[name] - 1];
        if count'[name] == 0 {
          queue' := queue' + [name];
        }
      }
      ReleaseStep(edges, count0, order, prev, current, queue, queue0, processed, name, count', queue');
      processed := processed + {name};
      j := j + 1;
    }
    ElemsWhole(edgeKeys);
    ReleaseEnd(edges, count', order, prev, queue, queue');
  }

  // ---------------------------------------------------------------------
  // The graph object
  // ---------------------------------------------------------------------

  class TaskGraph {
    /** Task name to task. */
    var tasks: map<string, Task>
    /** Task name to its dependency list, kept in step with `tasks`. */
    var edges: map<string, seq<string>>

    ghost predicate Valid()
      reads this
    {
      && edges.Keys == tasks.Keys
      && forall n :: n in tasks ==> tasks[n].name == n && edges[n] == tasks[n].dependsOn
    }

    constructor ()
      ensures Valid() && tasks == map[] && edges == map[]
    {
      tasks := map[];
      edges := map[];
    }

    /** Inserts (or replaces) a task; never fails and never validates. */
    method AddTask(task: Task) returns (r: Result<()>)
      requires Valid()
      modifies this
      ensures Valid() && r == Ok(())
      ensures tasks == old(tasks)[task.name := task]
      ensures edges == old(edges)[task.name := task.dependsOn]
    {
      tasks := tasks[task.name := task];
      edges := edges[task.name := task.dependsOn];
      r := Ok(());
    }

    function GetTask(name: string): (r: Option<Task>)
      reads this
      requires Valid()
      ensures r.Some? <==> name in tasks
      ensures r.Some? ==> r.value == tasks[name] && r.value.name == name && r.value.dependsOn == edges[name]
    {
      if name in tasks then Some(tasks[name]) else None
    }

    function Len(): (n: nat)
      reads this
      ensures n == |tasks.Keys|
    {
      |tasks|
    }

    function IsEmpty(): (b: bool)
      reads this
      ensures b <==> tasks == map[]
    {
      |tasks| == 0
    }

    /** One call of the recursive search, entered at a name not yet reached.
        On success the path is as before and `node` is finished; on failure
        the returned list is a cycle. */
    method Dfs(node: string, states: map<string, Color>, path: seq<string>,
               ghost rank: map<string, nat>, ghost clock: nat)
      returns (states': map<string, Color>, path': seq<string>,
               ghost rank': map<string, nat>, ghost clock': nat, cycle: Option<seq<string>>)
      requires node in AllNames(edges)
      requires node !in states || states[node] == NotVisited
      requires DfsInv(edges, states, path, rank, clock)
      requires path != [] ==> node in DepsOf(edges, path[|path| - 1])
      ensures cycle.Some? ==> IsCycle(edges, cycle.value)
      ensures cycle.None? ==>
        && path' == path
        && DfsInv(edges, states', path', rank', clock')
        && node in states' && states'[node] == Done
        && DfsGrows(states, states', rank, rank')
      decreases AllNames(edges) - Visited(states), 2
    {
      DfsEnter(edges, states, path, rank, clock, node);
      states', path', rank', clock', cycle :=
        VisitDeps(node, DepsOf(edges, node), states, rank, states[node := InProgress], path + [node], rank, clock);
      if cycle.None? {
        DfsLoopEnd(edges, states, rank, node, DepsOf(edges, node), states', path, rank', clock');
        path' := path;
        states' := states'[node := Done];
        rank' := rank'[node := clock'];
        clock' := clock' + 1;
      }
    }

    /** The loop of the search over the dependencies of `node`, which is on
        top of the path: stops at the first dependency found on the path,
        searches from each one not yet reached. */
    method VisitDeps(node: string, deps: seq<string>, ghost states0: map<string, Color>, ghost rank0: map<string, nat>,
                     states: map<string, Color>, path: seq<string>, ghost rank: map<string, nat>, ghost clock: nat)
      returns (states': map<string, Color>, path': seq<string>,
               ghost rank': map<string, nat>, ghost clock': nat, cycle: Option<seq<string>>)
      requires DfsLoopInv(edges, states0, rank0, node, deps, 0, states, path, rank, clock)
      ensures cycle.Some? ==> IsCycle(edges, cycle.value)
      ensures cycle.None? ==> path' == path && DfsLoopInv(edges, states0, rank0, node, deps, |deps|, states', path', rank', clock')
      decreases AllNames(edges) - Visited(states0), 1
    {
      states', path', rank', clock' := states, path, rank, clock;
      var i := 0;
      while i < |deps|
        invariant 0 <= i <= |deps|
        invariant path' == path
        invariant DfsLoopInv(edges, states0, rank0, node, deps, i, states', path', rank', clock')
      {
        states', rank', clock', cycle := VisitDep(node, deps, i, states0, rank0, states', path', rank', clock');
        if cycle.Some? {
          return;
        }
        i := i + 1;
      }
      cycle := None;
    }

    /** One turn of that loop, at the `i`-th dependency. */
    method VisitDep(node: string, deps: seq<string>, i: nat, ghost states0: map<string, Color>,
                    ghost rank0: map<string, nat>, states: map<string, Color>, path: seq<string>,
                    ghost rank: map<string, nat>, ghost clock: nat)
      returns (states': map<string, Color>, ghost rank': map<string, nat>, ghost clock': nat,
               cycle: Option<seq<string>>)
      requires DfsLoopInv(edges, states0, rank0, node, deps, i, states, path, rank, clock) && i < |deps|
      ensures cycle.Some? ==> IsCycle(edges, cycle.value)
      ensures cycle.None? ==> DfsLoopInv(edges, states0, rank0, node, deps, i + 1, states', path, rank', clock')
      decreases AllNames(edges) - Visited(states0), 0
    {
      var dep := deps[i];
      if dep in states && states[dep] == InProgress {
        // The dependency is on the current path: report the path from its
        // first occurrence back to it.
        var full := path + [dep];
        DfsLoopCycle(edges, states0, rank0, node, deps, i, states, path, rank, clock);
        return states, rank, clock, Some(full[IndexOf(full, dep)..]);
      } else if dep !in states || states[dep] == NotVisited {
        DfsLoopDescend(edges, states0, rank0, node, deps, i, states, path, rank, clock);
        var path';
        states', path', rank', clock', cycle := Dfs(dep, states, path, rank, clock);
        if cycle.None? {
          DfsLoopVisited(edges, states0, rank0, node, deps, i, states, rank, clock, states', path, rank', clock');
        }
      } else {
        DfsLoopSkip(edges, states0, rank0, node, deps, i, states, path, rank, clock);
        return states, rank, clock, None;
      }
    }

    /** The first half of validation: a depth-first search from every task,
        in map order, that stops at the first dependency found on the
        current path. Without a cycle, the finishing order ranks the graph. */
    method FindCycle() returns (cycle: Option<seq<string>>, ghost rank: map<string, nat>)
      requires Valid()
      ensures cycle.Some? ==> IsCycle(edges, cycle.value)
      ensures cycle.None? ==> IsRanking(edges, rank)
      ensures cycle.None? <==> Acyclic(edges)
    {
      var states: map<string, Color> := map n | n in tasks :: NotVisited;
      rank := map[];
      ghost var clock: nat := 0;
      assert DfsInv(edges, states, [], rank, clock);
      var names := EnumerateKeys(tasks.Keys);
      var i := 0;
      while i < |names|
        invariant 0 <= i <= |names|
        invariant SearchInv(edges, tasks.Keys, names, i, states, rank, clock)
      {
        var name := names[i];
        if states[name] == NotVisited {
          var path, c;
          ghost var states0, rank0 := states, rank;
          states, path, rank, clock, c := Dfs(name, states, [], rank, clock);
          if c.Some? {
            assert !Acyclic(edges) by {
              assert IsCycle(edges, c.value);
            }
            return c, rank;
          }
          SearchStep(edges, tasks.Keys, names, i, states0, rank0, states, rank, clock);
        } else {
          SearchSkip(edges, tasks.Keys, names, i, states, rank, clock);
        }
        i := i + 1;
      }
      SearchDone(edges, tasks.Keys, names, states, rank, clock);
      RankingAcyclic(edges, rank);
      cycle := None;
    }

    /** The second half of validation: the first dependency, in map order,
        that names no task, with the task that lists it. */
    method FindDangling() returns (found: Option<(string, string)>)
      ensures found.None? <==> Closed(edges, tasks.Keys)
      ensures found.Some? ==> Dangling(edges, tasks.Keys, found.value.0, found.value.1)
    {
      var referrers := EnumerateKeys(edges.Keys);
      var k := 0;
      while k < |referrers|
        invariant 0 <= k <= |referrers|
        invariant forall j, d :: 0 <= j < k && d in edges[referrers[j]] ==> d in tasks
      {
        var referrer := referrers[k];
        var deps := edges[referrer];
        var m := 0;
        while m < |deps|
          invariant 0 <= m <= |deps|
          invariant forall j :: 0 <= j < m ==> deps[j] in tasks
        {
          if deps[m] !in tasks {
            return Some((referrer, deps[m]));
          }
          m := m + 1;
        }
        k := k + 1;
      }
      assert forall n :: n in edges ==> n in Elems(referrers);
      found := None;
    }

    /** Fails with the cycle found first, or else with a dependency that names
        no task; succeeds exactly on closed acyclic graphs. */
    method Validate() returns (r: Result<()>)
      requires Valid()
      ensures r.Ok? <==> Closed(edges, tasks.Keys) && Acyclic(edges)
      ensures r.Ok? ==> Ranked(edges)
      ensures r.Err? ==> IsValidationError(edges, tasks.Keys, r.error)
    {
      var cycle, rank := FindCycle();
      if cycle.Some? {
        return Err(CyclicDependency(cycle.value));
      }
      var dangling := FindDangling();
      if dangling.Some? {
        var (referrer, dep) := dangling.value;
        return Err(TaskNotFound(DanglingMessage(dep, referrer)));
      }
      r := Ok(());
    }

    /** Kahn's algorithm over a validated graph: a task is emitted once all
        its dependencies have been; a task listing a dependency twice is
        never emitted. */
    method TopologicalOrder() returns (r: Result<seq<string>>)
      requires Valid()
      ensures r.Err? <==> !(Closed(edges, tasks.Keys) && Acyclic(edges))
      ensures r.Err? ==> IsValidationError(edges, tasks.Keys, r.error)
      ensures r.Ok? ==> IsTopologicalOrder(edges, r.value)
      ensures r.Ok? ==> forall n :: n in r.value ==> Distinct(edges[n])
      ensures r.Ok? && NoDuplicateDeps(edges) ==> Elems(r.value) == tasks.Keys && |r.value| == |tasks|
    {
      var v := Validate();
      if v.Err? {
        return Err(v.error);
      }
      var order := Kahn(edges, tasks.Keys);
      r := Ok(order);
    }

    /** The waves: repeatedly every task with no pending dependency that is
        not yet completed; pending counts are recomputed after each wave. */
    method ParallelLevels() returns (r: Result<seq<seq<string>>>)
      requires Valid()
      ensures r.Err? <==> !(Closed(edges, tasks.Keys) && Acyclic(edges))
      ensures r.Err? ==> IsValidationError(edges, tasks.Keys, r.error)
      ensures r.Ok? ==> IsLevelPartition(edges, tasks.Keys, r.value)
    {
      var v := Validate();
      if v.Err? {
        return Err(v.error);
      }
      var levels := ComputeLevels(edges, tasks.Keys);
      r := Ok(levels);
    }
  }
}
