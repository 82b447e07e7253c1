// The executor: runs the task graph level by level, every task of a level
// at once, collects the results and stops before the next level once
// anything failed.
//
// Subprocesses, clocks and the task runtime are inputs: `run` says, for each
// task name, what running it does (a subprocess outcome and a duration) or
// that it panicked; the join of a level is then the sequence of those
// outcomes in the order the tasks were spawned.

module Executor {
  import opened Errors
  import opened Collections
  import opened Strings
  import opened Dag
  import opened Cache

  /** The outcome of one task. */
  datatype TaskResult = TaskResult(name: string, success: bool, duration: nat,
                                   stdout: string, stderr: string, cached: bool)

  /** The outcome of a build. */
  datatype BuildResult = BuildResult(tasks: seq<TaskResult>, totalDuration: nat, success: bool)

  /** The error kinds of a failed spawn the executor tells apart. */
  datatype SpawnErrorKind = NotFound | OtherKind

  /** Spawning a command: it exits (with a success flag and its captured
      output) or it cannot be spawned. */
  datatype Spawn =
    | Exited(status: bool, stdout: string, stderr: string)
    | SpawnFailed(kind: SpawnErrorKind, message: string)

  /** What happens to one spawned task: it runs, taking `duration`, with
      `spawn` the outcome of its command if it has one; or it panics. */
  datatype Run = Ran(spawn: Spawn, duration: nat) | Panicked(message: string)

  /** What awaiting one task's handle gives. */
  datatype Joined = Finished(result: Result<TaskResult>) | Panic(message: string)

  /** The success flag and captured output of a command, or the error its
      spawn failure maps to. */
  function RunExternalCommand(command: string, workingDir: string, spawn: Spawn): Result<(bool, string, string)>
  {
    match spawn
    case Exited(status, stdout, stderr) => Ok((status, stdout, stderr))
    case SpawnFailed(kind, message) =>
      if kind == NotFound then Err(CommandNotFound(command))
      else Err(IoError(workingDir, "Error al ejecutar '" + command + "': " + message))
  }

  /** Runs one task: a command through the shell, anything else succeeds at
      once with no output. */
  function ExecuteSingleTask(task: Task, projectDir: string, spawn: Spawn, duration: nat): (r: Result<TaskResult>)
    ensures r.Ok? ==> r.value.name == task.name && r.value.duration == duration && !r.value.cached
    ensures !task.action.Command? ==>
              r.Ok? && r.value.success && r.value.stdout == "" && r.value.stderr == ""
    ensures task.action.Command? ==>
              (r.Ok? <==> spawn.Exited?) &&
              (r.Ok? ==> r.value.success == spawn.status &&
                         r.value.stdout == spawn.stdout && r.value.stderr == spawn.stderr)
    ensures task.action.Command? && spawn.SpawnFailed? && spawn.kind == NotFound ==>
              r == Err(CommandNotFound(task.action.command))
    ensures task.action.Command? && spawn.SpawnFailed? && spawn.kind == OtherKind ==>
              r.Err? && r.error.IoError? && r.error.path == projectDir
  {
    var outcome :=
      match task.action
      case Command(cmd) => RunExternalCommand(cmd, projectDir, spawn)
      case Internal(_) => Ok((true, "", ""))
      case Composite => Ok((true, "", ""));
    if outcome.Err? then Err(outcome.error)
    else
      var (success, stdout, stderr) := outcome.value;
      Ok(TaskResult(task.name, success, duration, stdout, stderr, false))
  }

  /** Spawning a task and awaiting its handle. */
  function Join(task: Task, projectDir: string, run: Run): Joined
  {
    match run
    case Ran(spawn, duration) => Finished(ExecuteSingleTask(task, projectDir, spawn, duration))
    case Panicked(message) => Panic(message)
  }

  /** The handles of one level, in spawn order. */
  function LevelUnits(tasks: map<string, Task>, projectDir: string, run: string -> Run,
                      level: seq<string>): (us: seq<Joined>)
    requires forall n :: n in level ==> n in tasks
    ensures |us| == |level|
  {
    seq(|level|, i requires 0 <= i < |level| => Join(tasks[level[i]], projectDir, run(level[i])))
  }

  /** The handles of every level. */
  function Units(tasks: map<string, Task>, projectDir: string, run: string -> Run,
                 levels: seq<seq<string>>): (uls: seq<seq<Joined>>)
    requires forall k, n :: 0 <= k < |levels| && n in levels[k] ==> n in tasks
    ensures |uls| == |levels|
  {
    seq(|levels|, k requires 0 <= k < |levels| => LevelUnits(tasks, projectDir, run, levels[k]))
  }

  /** The two variables the level loop updates. */
  datatype Progress = Progress(results: seq<TaskResult>, success: bool)

  /** Awaiting one handle: a result is recorded and a failed one clears the
      flag; an error or a panic clears the flag and records nothing. */
  function Await(p: Progress, u: Joined): Progress
  {
    match u
    case Finished(Ok(t)) => Progress(p.results + [t], p.success && t.success)
    case Finished(Err(_)) => Progress(p.results, false)
    case Panic(_) => Progress(p.results, false)
  }

  /** Awaiting every handle of a level, in order, with no early exit. */
  function AwaitAll(p: Progress, us: seq<Joined>): Progress
    decreases |us|
  {
    if us == [] then p else AwaitAll(Await(p, us[0]), us[1..])
  }

  /** The level loop: a level is started only while the flag holds. */
  function RunLevels(p: Progress, uls: seq<seq<Joined>>): Progress
    decreases |uls|
  {
    if uls == [] || !p.success then p else RunLevels(AwaitAll(p, uls[0]), uls[1..])
  }

  // ---------------------------------------------------------------------
  // The same outcome described level by level

  /** A unit that returned a successful result. */
  predicate UnitOk(u: Joined)
  {
    u.Finished? && u.result.Ok? && u.result.value.success
  }

  predicate LevelOk(us: seq<Joined>)
  {
    forall i :: 0 <= i < |us| ==> UnitOk(us[i])
  }

  /** Every unit of every level returned a successful result. */
  predicate AllOk(uls: seq<seq<Joined>>)
  {
    forall k :: 0 <= k < |uls| ==> LevelOk(uls[k])
  }

  /** The results the units returned, in order; errors and panics give
      none. */
  function OkResults(us: seq<Joined>): seq<TaskResult>
  {
    if us == [] then []
    else (if us[0].Finished? && us[0].result.Ok? then [us[0].result.value] else []) + OkResults(us[1..])
  }

  function ConcatOk(uls: seq<seq<Joined>>): seq<TaskResult>
  {
    if uls == [] then [] else OkResults(uls[0]) + ConcatOk(uls[1..])
  }

  /** How many levels are started: all up to and including the first level
      that does not fully succeed. */
  function Started(uls: seq<seq<Joined>>): (n: nat)
    ensures n <= |uls|
    ensures forall k :: 0 <= k < n - 1 ==> LevelOk(uls[k])
    ensures n < |uls| ==> n > 0 && !LevelOk(uls[n - 1])
    ensures n == |uls| && uls != [] && LevelOk(uls[n - 1]) ==> AllOk(uls)
  {
    if uls == [] then 0
    else if LevelOk(uls[0]) then 1 + Started(uls[1..])
    else 1
  }

  lemma LevelOkCons(us: seq<Joined>)
    requires us != []
    ensures LevelOk(us) <==> UnitOk(us[0]) && LevelOk(us[1..])
  {
    if UnitOk(us[0]) && LevelOk(us[1..]) {
      forall i | 0 <= i < |us| ensures UnitOk(us[i]) {
        if i > 0 { assert us[i] == us[1..][i - 1]; }
      }
    }
  }

  /** Awaiting a level appends its results in order and keeps the flag only
      if every unit succeeded. */
  lemma {:induction false} AwaitAllMeaning(p: Progress, us: seq<Joined>)
    ensures AwaitAll(p, us) == Progress(p.results + OkResults(us), p.success && LevelOk(us))
    decreases |us|
  {
    if us != [] {
      LevelOkCons(us);
      var q := Await(p, us[0]);
      AwaitAllMeaning(q, us[1..]);
      if us[0].Finished? && us[0].result.Ok? {
        assert q.results + OkResults(us[1..]) == p.results + ([us[0].result.value] + OkResults(us[1..]));
      }
    }
  }

  lemma LevelsOkCons(uls: seq<seq<Joined>>)
    requires uls != []
    ensures AllOk(uls) <==> LevelOk(uls[0]) && AllOk(uls[1..])
  {
    if LevelOk(uls[0]) && AllOk(uls[1..]) {
      forall k | 0 <= k < |uls| ensures LevelOk(uls[k]) {
        if k > 0 { assert uls[k] == uls[1..][k - 1]; }
      }
    }
    if AllOk(uls) {
      forall k | 0 <= k < |uls[1..]| ensures LevelOk(uls[1..][k]) {
        assert uls[1..][k] == uls[k + 1];
      }
    }
  }

  /** The build succeeds exactly when every unit of every level returned a
      successful result; its results are those of the started levels, level
      by level and in order within a level. */
  lemma {:induction false} RunLevelsMeaning(results: seq<TaskResult>, uls: seq<seq<Joined>>)
    ensures RunLevels(Progress(results, true), uls) ==
              Progress(results + ConcatOk(uls[..Started(uls)]),
                       AllOk(uls))
    decreases |uls|
  {
    if uls != [] {
      var p := AwaitAll(Progress(results, true), uls[0]);
      AwaitAllMeaning(Progress(results, true), uls[0]);
      LevelsOkCons(uls);
      var rest := uls[1..];
      assert RunLevels(Progress(results, true), uls) == RunLevels(p, rest);
      if LevelOk(uls[0]) {
        RunLevelsMeaning(results + OkResults(uls[0]), rest);
        StartedPrefix(uls);
        var more := ConcatOk(rest[..Started(rest)]);
        assert results + OkResults(uls[0]) + more == results + (OkResults(uls[0]) + more);
      } else {
        assert uls[..1] == [uls[0]];
        assert ConcatOk(uls[..1]) == OkResults(uls[0]) + ConcatOk([]);
      }
    }
  }

  /** The started prefix of a sequence whose first level succeeds is that
      level followed by the started prefix of the rest. */
  lemma StartedPrefix(uls: seq<seq<Joined>>)
    requires uls != [] && LevelOk(uls[0])
    ensures ConcatOk(uls[..Started(uls)]) == OkResults(uls[0]) + ConcatOk(uls[1..][..Started(uls[1..])])
  {
    var rest := uls[1..];
    var n := Started(rest);
    assert Started(uls) == 1 + n;
    var pre := uls[..1 + n];
    assert pre[0] == uls[0];
    assert pre[1..] == rest[..n];
  }

  /** Once a level fails, no later level is started: every recorded result
      comes from that level or an earlier one. */
  lemma {:induction false} NoLevelAfterFailure(uls: seq<seq<Joined>>, k: nat)
    requires k < |uls| && !LevelOk(uls[k])
    ensures Started(uls) <= k + 1
  {
    if k > 0 && LevelOk(uls[0]) {
      assert uls[1..][k - 1] == uls[k];
      NoLevelAfterFailure(uls[1..], k - 1);
    }
  }

  lemma {:induction false} OkResultsOrigin(us: seq<Joined>, t: TaskResult)
    requires t in OkResults(us)
    ensures Finished(Ok(t)) in us
  {
    if us[0].Finished? && us[0].result.Ok? && t == us[0].result.value {
    } else {
      OkResultsOrigin(us[1..], t);
    }
  }

  lemma {:induction false} ConcatOkOrigin(uls: seq<seq<Joined>>, t: TaskResult)
    requires t in ConcatOk(uls)
    ensures exists k :: 0 <= k < |uls| && Finished(Ok(t)) in uls[k]
  {
    if t in OkResults(uls[0]) {
      OkResultsOrigin(uls[0], t);
    } else {
      ConcatOkOrigin(uls[1..], t);
      var k :| 0 <= k < |uls[1..]| && Finished(Ok(t)) in uls[1..][k];
      assert uls[k + 1] == uls[1..][k];
    }
  }

  /** Every result a build records belongs to a task of one of the levels
      and was really run, never taken from the cache. */
  lemma RecordedResultsAreRun(tasks: map<string, Task>, projectDir: string, run: string -> Run,
                              levels: seq<seq<string>>, t: TaskResult)
    requires forall k, n :: 0 <= k < |levels| && n in levels[k] ==> n in tasks
    requires t in ConcatOk(Units(tasks, projectDir, run, levels))
    ensures !t.cached
    ensures exists k, i :: 0 <= k < |levels| && 0 <= i < |levels[k]| && tasks[levels[k][i]].name == t.name
  {
    var uls := Units(tasks, projectDir, run, levels);
    ConcatOkOrigin(uls, t);
    var k :| 0 <= k < |uls| && Finished(Ok(t)) in uls[k];
    var i :| 0 <= i < |uls[k]| && uls[k][i] == Finished(Ok(t));
    assert uls[k][i] == Join(tasks[levels[k][i]], projectDir, run(levels[k][i]));
  }

  /** The lines of a failed task's error output shown to the user: the first
      twenty, and none for a task that succeeded or wrote nothing there. */
  function StderrExcerpt(t: TaskResult): (lines: seq<string>)
    ensures |lines| <= 20 && |lines| <= |Lines(t.stderr)|
    ensures lines == Lines(t.stderr)[..|lines|]
    ensures lines == [] <==> t.success || t.stderr == []
    ensures |lines| < 20 && !t.success ==> lines == Lines(t.stderr)
  {
    if t.success || t.stderr == [] then []
    else
      var all := Lines(t.stderr);
      if |all| <= 20 then all else all[..20]
  }

  /** One level: spawn every task, then await every handle in spawn order. */
  method RunLevel(graph: TaskGraph, projectDir: string, run: string -> Run, level: seq<string>,
                  results: seq<TaskResult>, success: bool)
    returns (results': seq<TaskResult>, success': bool)
    requires graph.Valid()
    requires forall n :: n in level ==> n in graph.tasks
    ensures Progress(results', success') ==
              AwaitAll(Progress(results, success), LevelUnits(graph.tasks, projectDir, run, level))
  {
    ghost var us := LevelUnits(graph.tasks, projectDir, run, level);
    var handles: seq<Joined> := [];
    for j := 0 to |level|
      invariant handles == us[..j]
    {
      var task := graph.GetTask(level[j]);
      handles := handles + [Join(task.value, projectDir, run(level[j]))];
    }
    results', success' := results, success;
    for j := 0 to |handles|
      invariant AwaitAll(Progress(results', success'), handles[j..]) == AwaitAll(Progress(results, success), handles)
    {
      assert handles[j..][1..] == handles[j + 1..];
      match handles[j]
      case Finished(Ok(result)) =>
        if !result.success {
          success' := false;
        }
        results' := results' + [result];
      case Finished(Err(_)) =>
        success' := false;
      case Panic(_) =>
        success' := false;
    }
    assert handles[|handles|..] == [];
    assert handles == us by {
      assert us[..|level|] == us;
    }
  }

  class Executor {
    const projectDir: string
    var cache: BuildCache
    const verbose: bool
    /** The cache contents written to .forge/cache.json by this executor,
        in order. */
    ghost var saved: seq<map<string, string>>

    constructor (projectDir: string, cache: BuildCache, verbose: bool)
      ensures this.projectDir == projectDir && this.cache == cache && this.verbose == verbose
      ensures saved == []
    {
      this.projectDir := projectDir;
      this.cache := cache;
      this.verbose := verbose;
      saved := [];
    }

    /** An executor over the cache loaded from the project; a cache that
        cannot be loaded is an error. */
    static method New(projectDir: string, cacheFile: CacheFile, verbose: bool) returns (r: Result<Executor>)
      ensures r.Ok? <==> cacheFile.Absent? || (cacheFile.Stored? && cacheFile.parsed.Some?)
      ensures r.Ok? ==> fresh(r.value) && r.value.projectDir == projectDir && r.value.verbose == verbose &&
                        r.value.saved == []
      ensures cacheFile.Absent? ==> r.Ok? && r.value.cache.version == 1 && r.value.cache.fileHashes == map[]
    {
      var c := BuildCache.Load(projectDir, cacheFile);
      if c.Err? {
        return Err(c.error);
      }
      var e := new Executor(projectDir, c.value, verbose);
      r := Ok(e);
    }

    /** Runs the graph's levels in order. An invalid graph is reported before
        any task runs and nothing is saved; otherwise the cache is saved once
        after the loop whatever the outcome, and the build result is that of
        the level loop over the graph's levels. */
    method Execute(graph: TaskGraph, run: string -> Run, elapsed: nat, saveOutcome: Result<()>)
      returns (r: Result<BuildResult>, ghost levels: seq<seq<string>>)
      requires graph.Valid()
      modifies this`saved
      ensures !(Closed(graph.edges, graph.tasks.Keys) && Acyclic(graph.edges)) ==>
                r.Err? && IsValidationError(graph.edges, graph.tasks.Keys, r.error) && saved == old(saved)
      ensures Closed(graph.edges, graph.tasks.Keys) && Acyclic(graph.edges) ==>
                IsLevelPartition(graph.edges, graph.tasks.Keys, levels) &&
                (forall k, n :: 0 <= k < |levels| && n in levels[k] ==> n in graph.tasks)
      ensures Closed(graph.edges, graph.tasks.Keys) && Acyclic(graph.edges) ==>
                saved == old(saved) + [cache.fileHashes]
      ensures Closed(graph.edges, graph.tasks.Keys) && Acyclic(graph.edges) ==>
                var p := RunLevels(Progress([], true), Units(graph.tasks, projectDir, run, levels));
                r == if saveOutcome.Err? then Err(saveOutcome.error)
                     else Ok(BuildResult(p.results, elapsed, p.success))
    {
      var computed := graph.ParallelLevels();
      if computed.Err? {
        return Err(computed.error), [];
      }
      var lv := computed.value;
      levels := lv;
      forall k, n | 0 <= k < |lv| && n in lv[k] ensures n in graph.tasks {
        FlattenElems(lv, n);
      }
      ghost var uls := Units(graph.tasks, projectDir, run, lv);
      var allResults: seq<TaskResult> := [];
      var success := true;
      var i := 0;
      while i < |lv|
        invariant i <= |lv|
        invariant saved == old(saved)
        invariant RunLevels(Progress(allResults, success), uls[i..]) == RunLevels(Progress([], true), uls)
      {
        if !success {
          break;
        }
        assert uls[i..][1..] == uls[i + 1..];
        allResults, success := RunLevel(graph, projectDir, run, lv[i], allResults, success);
        i := i + 1;
      }
      saved := saved + [cache.fileHashes];
      if saveOutcome.Err? {
        return Err(saveOutcome.error), lv;
      }
      r := Ok(BuildResult(allResults, elapsed, success));
    }
  }
}
