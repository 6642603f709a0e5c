/** The watch loop's single-flight guard, its ignore list and its exit code (src/task/watcher.ts). */
module TaskWatcher {
  import opened Wrappers
  import TaskExecution

  /** The kinds of file event the watcher reports; every kind goes to the same handler. */
  datatype FileEventKind = Add | AddDir | Change | Unlink | UnlinkDir

  /** What reaches the guard: a file event, or the end of the run in flight, normal or by a throw. */
  datatype WatchEvent = FileEvent(kind: FileEventKind) | RunSettled(threw: bool)

  /** The `isRunning` flag, with how many runs were started and how many have settled. */
  datatype GuardState = GuardState(running: bool, started: nat, settled: nat)

  const Idle := GuardState(false, 0, 0)

  /**
   * One event: a file event while running is dropped; otherwise it sets the flag and starts a
   * run. A settling run clears the flag whichever way it ended (the `finally`).
   */
  function Step(s: GuardState, e: WatchEvent): GuardState
  {
    match e
    case FileEvent(_) => if s.running then s else GuardState(true, s.started + 1, s.settled)
    case RunSettled(_) => if s.running then GuardState(false, s.started, s.settled + 1) else s
  }

  /** The state after the events, in order. */
  function Replay(s: GuardState, events: seq<WatchEvent>): GuardState
  {
    if events == [] then s else Step(Replay(s, events[..|events| - 1]), events[|events| - 1])
  }

  /** At most one run is in flight, and the flag says whether one is. */
  predicate SingleFlight(s: GuardState)
  {
    s.started == s.settled + (if s.running then 1 else 0)
  }

  /** `config.watchIgnore ?? […]`: the configured patterns, else the node_modules and .git trees. */
  function IgnorePatterns(watchIgnore: Option<seq<string>>): seq<string>
  {
    match watchIgnore
    case None => ["**/node_modules/**", "**/.git/**"]
    case Some(patterns) => patterns
  }

  /**
   * Without a configured list the dependency and repository trees are ignored; a configured list
   * replaces the defaults instead of adding to them, so an empty one ignores nothing.
   */
  lemma IgnorePatternsCases(watchIgnore: Option<seq<string>>)
    ensures watchIgnore.None? ==> "**/node_modules/**" in IgnorePatterns(watchIgnore) && "**/.git/**" in IgnorePatterns(watchIgnore)
    ensures watchIgnore.None? ==> |IgnorePatterns(watchIgnore)| == 2
    ensures watchIgnore.Some? ==> IgnorePatterns(watchIgnore) == watchIgnore.value
    ensures IgnorePatterns(Some([])) == []
  {
  }

  /** `handleExit`: 1 when the tasks hold any issue, else 0. */
  function ExitCode(tasks: seq<TaskExecution.TaskTotals>): (code: nat)
    ensures code == 1 <==> TaskExecution.TotalIssues(tasks) > 0
    ensures code == 0 <==> TaskExecution.TotalIssues(tasks) == 0
  {
    if TaskExecution.TotalIssues(tasks) > 0 then 1 else 0
  }

  /** The module-level guard and the runs it has let through. */
  class Watcher {
    var isRunning: bool
    /** How many times `runTasks` was called. */
    var started: nat
    /** How many of those runs have ended. */
    var settled: nat

    /** `let isRunning = false` */
    constructor()
      ensures isRunning == false && started == 0 && settled == 0
    {
      isRunning, started, settled := false, 0, 0;
    }

    function State(): GuardState
      reads this
    {
      GuardState(isRunning, started, settled)
    }

    /** `startWatcher`: chooses the ignore list and registers the handlers; it starts no run. */
    method StartWatcher(watchIgnore: Option<seq<string>>) returns (ignored: seq<string>)
      ensures ignored == IgnorePatterns(watchIgnore)
    {
      ignored := IgnorePatterns(watchIgnore);
    }

    /** The `all` handler: `rerunTasks` up to its `await`. */
    method OnFileEvent(kind: FileEventKind)
      modifies this
      ensures State() == Step(old(State()), FileEvent(kind))
    {
      if isRunning {
        return;
      }
      isRunning := true;
      started := started + 1;
    }

    /** The `finally` of `rerunTasks`, reached when `runTasks` resolves or throws. */
    method OnRunSettled(threw: bool)
      requires isRunning
      modifies this
      ensures State() == Step(old(State()), RunSettled(threw))
      ensures !isRunning
    {
      isRunning := false;
      settled := settled + 1;
    }

    /** The events in the order they arrive; a run settles only while one is in flight. */
    method Process(events: seq<WatchEvent>)
      modifies this
      ensures State() == Replay(old(State()), events)
    {
      for i := 0 to |events|
        invariant State() == Replay(old(State()), events[..i])
      {
        assert events[..i + 1][..i] == events[..i];
        match events[i]
        case FileEvent(kind) =>
          OnFileEvent(kind);
        case RunSettled(threw) =>
          if isRunning {
            OnRunSettled(threw);
          }
      }
      assert events[..|events|] == events;
    }
  }

  /** A file event during a run is dropped: nothing is queued and no run starts. */
  lemma DroppedWhileRunning(s: GuardState, kind: FileEventKind)
    requires s.running
    ensures Step(s, FileEvent(kind)) == s
  {
  }

  /** Every kind of file event has the same effect. */
  lemma AnyKindReruns(s: GuardState, a: FileEventKind, b: FileEventKind)
    ensures Step(s, FileEvent(a)) == Step(s, FileEvent(b))
    ensures !s.running ==> Step(s, FileEvent(a)).started == s.started + 1
  {
  }

  /** The flag is cleared however the run ended, and an event after that starts exactly one run. */
  lemma SettledThenRerun(s: GuardState, threw: bool, kind: FileEventKind)
    requires s.running
    ensures !Step(s, RunSettled(threw)).running
    ensures Step(Step(s, RunSettled(threw)), FileEvent(kind)) == GuardState(true, s.started + 1, s.settled + 1)
  {
  }

  /** Every event keeps at most one run in flight. */
  lemma StepSingleFlight(s: GuardState, e: WatchEvent)
    requires SingleFlight(s)
    ensures SingleFlight(Step(s, e))
    ensures Step(s, e).started >= s.started && Step(s, e).settled >= s.settled
  {
  }

  lemma {:induction false} ReplaySingleFlight(s: GuardState, events: seq<WatchEvent>)
    requires SingleFlight(s)
    ensures SingleFlight(Replay(s, events))
  {
    if events != [] {
      ReplaySingleFlight(s, events[..|events| - 1]);
      StepSingleFlight(Replay(s, events[..|events| - 1]), events[|events| - 1]);
    }
  }

  /** Any number of file events during a run leave the state as it was. */
  lemma {:induction false} BurstDropped(s: GuardState, events: seq<WatchEvent>)
    requires s.running
    requires forall i :: 0 <= i < |events| ==> events[i].FileEvent?
    ensures Replay(s, events) == s
  {
    if events != [] {
      BurstDropped(s, events[..|events| - 1]);
    }
  }

  /** Two events during one run start one run, and the first event after it ends starts one more. */
  lemma OverlapScenario(k1: FileEventKind, k2: FileEventKind, k3: FileEventKind)
    ensures Replay(Idle, [FileEvent(k1), FileEvent(k2)]).started == 1
    ensures Replay(Idle, [FileEvent(k1), FileEvent(k2), RunSettled(false), FileEvent(k3)]).started == 2
  {
    var two := [FileEvent(k1), FileEvent(k2)];
    var four := [FileEvent(k1), FileEvent(k2), RunSettled(false), FileEvent(k3)];
    assert two[..1][..0] == [];
    assert Replay(Idle, two[..1]) == GuardState(true, 1, 0);
    assert Replay(Idle, two) == GuardState(true, 1, 0);
    assert four[..3][..2] == two;
    assert Replay(Idle, four[..3]) == GuardState(false, 1, 1);
  }
}
