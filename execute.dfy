/** Running the configured tasks and totalling their issues (src/task/execute.ts). */
module TaskExecution {
  import opened RunOptionsParser

  /** What a task reports through `getTotalErrors` and `getTotalWarnings`. */
  datatype TaskTotals = TaskTotals(errors: nat, warnings: nat)

  /** `calculateTotalIssues`: the `reduce` adding each task's errors and warnings, from the left. */
  function TotalIssues(tasks: seq<TaskTotals>): nat
  {
    if tasks == [] then 0
    else
      var last := tasks[|tasks| - 1];
      TotalIssues(tasks[..|tasks| - 1]) + last.errors + last.warnings
  }

  /** All errors of the tasks. */
  function SumErrors(tasks: seq<TaskTotals>): nat
  {
    if tasks == [] then 0 else tasks[0].errors + SumErrors(tasks[1..])
  }

  /** All warnings of the tasks. */
  function SumWarnings(tasks: seq<TaskTotals>): nat
  {
    if tasks == [] then 0 else tasks[0].warnings + SumWarnings(tasks[1..])
  }

  /** No tasks give 0 issues, and the total of two lists put together is the sum of their totals. */
  lemma {:induction false} TotalIssuesConcat(a: seq<TaskTotals>, b: seq<TaskTotals>)
    ensures TotalIssues([]) == 0
    ensures TotalIssues(a + b) == TotalIssues(a) + TotalIssues(b)
    decreases |b|
  {
    if b == [] {
      assert a + b == a;
    } else {
      assert (a + b)[..|a + b| - 1] == a + b[..|b| - 1];
      assert (a + b)[|a + b| - 1] == b[|b| - 1];
      TotalIssuesConcat(a, b[..|b| - 1]);
    }
  }

  lemma {:induction false} SumsConcat(a: seq<TaskTotals>, b: seq<TaskTotals>)
    ensures SumErrors(a + b) == SumErrors(a) + SumErrors(b)
    ensures SumWarnings(a + b) == SumWarnings(a) + SumWarnings(b)
  {
    if a == [] {
      assert a + b == b;
    } else {
      assert (a + b)[1..] == a[1..] + b;
      SumsConcat(a[1..], b);
    }
  }

  /** The total is all errors plus all warnings. */
  lemma {:induction false} TotalIssuesSplit(tasks: seq<TaskTotals>)
    ensures TotalIssues(tasks) == SumErrors(tasks) + SumWarnings(tasks)
  {
    if tasks != [] {
      var init := tasks[..|tasks| - 1];
      var last := tasks[|tasks| - 1];
      TotalIssuesSplit(init);
      assert tasks == init + [last];
      SumsConcat(init, [last]);
      assert [last][1..] == [];
    }
  }

  /** The total is 0 exactly when no task reports an error or a warning. */
  lemma {:induction false} TotalIssuesZero(tasks: seq<TaskTotals>)
    ensures TotalIssues(tasks) == 0 <==> forall i :: 0 <= i < |tasks| ==> tasks[i].errors == 0 && tasks[i].warnings == 0
  {
    if tasks != [] {
      var init := tasks[..|tasks| - 1];
      TotalIssuesZero(init);
      assert forall i :: 0 <= i < |init| ==> init[i] == tasks[i];
    }
  }

  /** Tasks with (1, 0), (0, 2) and (3, 1) give 7 issues. */
  lemma TotalIssuesExample()
    ensures TotalIssues([TaskTotals(1, 0), TaskTotals(0, 2), TaskTotals(3, 1)]) == 7
  {
    var s := [TaskTotals(1, 0), TaskTotals(0, 2), TaskTotals(3, 1)];
    var one := [TaskTotals(1, 0)];
    var two := [TaskTotals(1, 0), TaskTotals(0, 2)];
    assert one[..0] == [];
    assert TotalIssues(one) == 1;
    assert two[..1] == one;
    assert TotalIssues(two) == 3;
    assert s[..2] == two;
  }

  /** A callback a task fires while it runs. */
  datatype Hook = OnStart(task: nat) | OnFinish(task: nat)

  /** What `runTasks` does, in order: a render of the given list and options, or a task's `execute`. */
  datatype Event<T> = Render(tasks: seq<T>, options: RunOptions) | Execute(task: nat)

  /** The `execute` calls of the `map` over the first `n` tasks, in list order. */
  function Executions<T>(n: nat): (r: seq<Event<T>>)
    ensures |r| == n
  {
    if n == 0 then [] else Executions(n - 1) + [Execute(n - 1)]
  }

  /** `m` renders of the same list with the same options. */
  function Renders<T>(tasks: seq<T>, options: RunOptions, m: nat): (r: seq<Event<T>>)
    ensures |r| == m
  {
    if m == 0 then [] else Renders(tasks, options, m - 1) + [Render(tasks, options)]
  }

  /** The events `runTasks` produces when the tasks fire `hookCount` callbacks. */
  function RunTrace<T>(tasks: seq<T>, options: RunOptions, hookCount: nat): seq<Event<T>>
  {
    [Render(tasks, options)] + Executions(|tasks|) + Renders(tasks, options, hookCount)
  }

  /** The number of renders in a trace. */
  function RenderCount<T>(log: seq<Event<T>>): nat
  {
    if log == [] then 0 else RenderCount(log[..|log| - 1]) + (if log[|log| - 1].Render? then 1 else 0)
  }

  /** The number of `execute` calls of task `k` in a trace. */
  function ExecuteCount<T>(log: seq<Event<T>>, k: nat): nat
  {
    if log == [] then 0 else ExecuteCount(log[..|log| - 1], k) + (if log[|log| - 1] == Execute(k) then 1 else 0)
  }

  /** The trace seen so far by the `render` and `execute` doubles. */
  class TaskRun<T> {
    var log: seq<Event<T>>

    constructor()
      ensures log == []
    {
      log := [];
    }

    /** `render(config.tasks, runOptions)` */
    method RenderTasks(tasks: seq<T>, options: RunOptions)
      modifies this
      ensures log == old(log) + [Render(tasks, options)]
    {
      log := log + [Render(tasks, options)];
    }

    /**
     * `runTasks`, sequentialised: the first render, the `execute` call of each task in list
     * order, then one render per callback the tasks fire, in the order they fire them.
     */
    method RunTasks(tasks: seq<T>, options: RunOptions, hooks: seq<Hook>)
      modifies this
      ensures log == old(log) + RunTrace(tasks, options, |hooks|)
    {
      RenderTasks(tasks, options);
      for k := 0 to |tasks|
        invariant log == old(log) + [Render(tasks, options)] + Executions(k)
      {
        log := log + [Execute(k)];
      }
      for j := 0 to |hooks|
        invariant log == old(log) + [Render(tasks, options)] + Executions(|tasks|) + Renders(tasks, options, j)
      {
        RenderTasks(tasks, options);
      }
    }
  }

  lemma {:induction false} RenderCountConcat<T>(a: seq<Event<T>>, b: seq<Event<T>>)
    ensures RenderCount(a + b) == RenderCount(a) + RenderCount(b)
    ensures forall k: nat {:trigger ExecuteCount(a + b, k)} :: ExecuteCount(a + b, k) == ExecuteCount(a, k) + ExecuteCount(b, k)
    decreases |b|
  {
    if b == [] {
      assert a + b == a;
    } else {
      assert (a + b)[..|a + b| - 1] == a + b[..|b| - 1];
      assert (a + b)[|a + b| - 1] == b[|b| - 1];
      RenderCountConcat(a, b[..|b| - 1]);
    }
  }

  lemma {:induction false} ExecutionsCounts<T>(n: nat, k: nat)
    ensures RenderCount(Executions<T>(n)) == 0
    ensures ExecuteCount(Executions<T>(n), k) == if k < n then 1 else 0
  {
    if n > 0 {
      var e := Executions<T>(n);
      assert e[..n - 1] == Executions<T>(n - 1);
      ExecutionsCounts<T>(n - 1, k);
    }
  }

  lemma {:induction false} RendersCounts<T>(tasks: seq<T>, options: RunOptions, m: nat, k: nat)
    ensures RenderCount(Renders(tasks, options, m)) == m
    ensures ExecuteCount(Renders(tasks, options, m), k) == 0
  {
    if m > 0 {
      var r := Renders(tasks, options, m);
      assert r[..m - 1] == Renders(tasks, options, m - 1);
      RendersCounts(tasks, options, m - 1, k);
    }
  }

  /**
   * A run renders once before anything else and once per callback, and calls each task's
   * `execute` exactly once.
   */
  lemma RunTraceCounts<T>(tasks: seq<T>, options: RunOptions, hookCount: nat, k: nat)
    ensures RunTrace(tasks, options, hookCount)[0] == Render(tasks, options)
    ensures RenderCount(RunTrace(tasks, options, hookCount)) == 1 + hookCount
    ensures ExecuteCount(RunTrace(tasks, options, hookCount), k) == if k < |tasks| then 1 else 0
  {
    var first: seq<Event<T>> := [Render(tasks, options)];
    var ex := Executions<T>(|tasks|);
    var rs := Renders(tasks, options, hookCount);
    assert RunTrace(tasks, options, hookCount) == (first + ex) + rs;
    RenderCountConcat(first + ex, rs);
    RenderCountConcat(first, ex);
    assert first[..0] == [];
    assert RenderCount(first) == 1 && ExecuteCount(first, k) == 0;
    ExecutionsCounts<T>(|tasks|, k);
    RendersCounts(tasks, options, hookCount, k);
  }

  /** Every render of a run is of the same list with the same options. */
  lemma RunTraceRenders<T>(tasks: seq<T>, options: RunOptions, hookCount: nat)
    ensures forall e :: e in RunTrace(tasks, options, hookCount) && e.Render? ==> e == Render(tasks, options)
  {
    ExecutionsAreCalls<T>(|tasks|);
    RendersAgree(tasks, options, hookCount);
  }

  lemma {:induction false} ExecutionsAreCalls<T>(n: nat)
    ensures forall e :: e in Executions<T>(n) ==> e.Execute?
  {
    if n > 0 {
      ExecutionsAreCalls<T>(n - 1);
    }
  }

  lemma {:induction false} RendersAgree<T>(tasks: seq<T>, options: RunOptions, m: nat)
    ensures forall e :: e in Renders(tasks, options, m) ==> e == Render(tasks, options)
  {
    if m > 0 {
      RendersAgree(tasks, options, m - 1);
    }
  }

  /** The callbacks of `n` tasks that each start once and finish once. */
  function AllHooks(n: nat): (r: seq<Hook>)
    ensures |r| == 2 * n
  {
    if n == 0 then [] else AllHooks(n - 1) + [OnStart(n - 1), OnFinish(n - 1)]
  }

  /**
   * When each of the N tasks fires its start and its finish callback once, in any order,
   * the run renders 1 + 2N times.
   */
  lemma FullRunRenders<T>(tasks: seq<T>, options: RunOptions, hooks: seq<Hook>)
    requires multiset(hooks) == multiset(AllHooks(|tasks|))
    ensures RenderCount(RunTrace(tasks, options, |hooks|)) == 1 + 2 * |tasks|
  {
    assert |hooks| == |multiset(hooks)| == |multiset(AllHooks(|tasks|))| == 2 * |tasks|;
    RunTraceCounts(tasks, options, |hooks|, 0);
  }
}
