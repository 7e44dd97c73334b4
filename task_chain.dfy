// de.natrox.common.taskchain.TaskChainImpl: a FIFO queue of tasks that runs
// once, each task handing over to the next when it calls `next`, with a done
// callback told whether the chain finished. The executor is synchronous
// here: the async and main-thread hops run their runnable at once, so the
// execution type of a task decides nothing and the chain runs by direct
// recursion (`run` → `runNextTask` → container `run` → `next` → …).
module TaskChain {
  import opened JavaLang
  import NatroxCheck
  import Counters

  /** Where a task asks to run; with a synchronous executor all three run in place. */
  datatype ExecutionType = ASYNC | SYNC | CURRENT

  /**
   * What a task does when its container runs it: it hands over to the next
   * task once (a plain task returning, a future completing, a callback task
   * calling its callback once); it throws (or its future fails); it never
   * hands over (a callback never called, a future never completed); it is a
   * callback task calling its callback twice; or it calls its callback and
   * then throws.
   */
  datatype Behaviour = Completes | Throws | Stalls | NextTwice | NextThenThrow

  /** A task added by the user, or the task `abort()` adds before the chain runs, which throws AbortException. */
  datatype Task = UserTask(id: nat, behaviour: Behaviour) | AbortTask
  {
    function Does(): Behaviour {
      match this
      case UserTask(_, b) => b
      case AbortTask => Throws
    }
  }

  datatype Container = Container(executionType: ExecutionType, task: Task)

  /** The done callback; `None` is `null`. */
  datatype Callback = Callback(id: nat)

  /** What can be seen from outside: a task starting, and the done callback being called. */
  datatype Note = Ran(task: Task) | Reported(finished: bool)

  datatype ChainState = ChainState(queue: seq<Container>, executed: bool, done: bool, callback: Option<Callback>, log: seq<Note>)

  /** A chain fresh from the factory. */
  const NewChain := ChainState([], false, false, None, [])

  /** `done(finished)`: marks the chain done and calls the callback, if there is one. */
  function DoneState(s: ChainState, finished: bool): (r: ChainState)
    ensures r == s.(done := true, log := s.log + if s.callback.Some? then [Reported(finished)] else [])
  {
    s.(done := true, log := s.log + if s.callback.Some? then [Reported(finished)] else [])
  }

  /** `abortExecuted()`: the remaining tasks are dropped and the chain reports failure. */
  function AbortExecutedState(s: ChainState): ChainState
  {
    DoneState(s.(queue := []), false)
  }

  /**
   * `runNextTask()`: an empty queue ends the chain with `done(true)`;
   * otherwise the head container is taken off and its task run. A task that
   * throws (inside the container's `try`) aborts the chain; one that calls
   * `next` runs the rest of the chain first; a second `next` reports
   * `done(false)` and throws an IllegalStateException, which the container
   * catches as an abort.
   */
  function RunNext(s: ChainState): (r: ChainState)
    decreases |s.queue|
  {
    if |s.queue| == 0 then DoneState(s, true)
    else
      var t := s.queue[0].task;
      var started := s.(queue := s.queue[1..], log := s.log + [Ran(t)]);
      match t.Does()
      case Completes => RunNext(started)
      case Throws => AbortExecutedState(started)
      case Stalls => started
      case NextTwice => AbortExecutedState(DoneState(RunNext(started), false))
      case NextThenThrow => AbortExecutedState(RunNext(started))
  }

  /** `add(container)` behind `sync`, `async`, `current` and their future and callback forms: a null task is a NullPointerException; after `run` it is an IllegalStateException. */
  function AddState(s: ChainState, executionType: ExecutionType, task: Option<Task>): (r: Result<ChainState>)
    ensures r.Err? <==> task.None? || s.executed
    ensures task.None? ==> r == Err(NullPointerException)
    ensures task.Some? && s.executed ==> r == Err(IllegalStateException)
    ensures r.Ok? ==> r.value == s.(queue := s.queue + [Container(executionType, task.value)])
  {
    match NatroxCheck.NotNull(task, "task")
    case Some(f) => Err(f.exception)
    case None =>
      if s.executed then Err(IllegalStateException)
      else Ok(s.(queue := s.queue + [Container(executionType, task.value)]))
  }

  /** `delay(duration, timeUnit)`: a null unit is a NullPointerException; otherwise a callback task that the synchronous executor hands over at once. */
  function DelayState(s: ChainState, id: nat, duration: nat, timeUnit: Option<Counters.TimeUnit>): (r: Result<ChainState>)
    ensures timeUnit.None? ==> r == Err(NullPointerException)
    ensures timeUnit.Some? ==> r == AddState(s, CURRENT, Some(UserTask(id, Completes)))
  {
    match NatroxCheck.NotNull(timeUnit, "timeUnit")
    case Some(f) => Err(f.exception)
    case None => AddState(s, CURRENT, Some(UserTask(id, Completes)))
  }

  /** `abort()`: before `run` it adds a CURRENT task that throws; after `run` it throws AbortException itself. */
  function AbortState(s: ChainState): (r: Result<ChainState>)
    ensures s.executed <==> r.Err?
    ensures r.Err? ==> r.error == AbortException
    ensures r.Ok? ==> r.value == s.(queue := s.queue + [Container(CURRENT, AbortTask)])
  {
    if s.executed then Err(AbortException)
    else AddState(s, CURRENT, Some(AbortTask))
  }

  /**
   * `run(callback)`: the callback is stored first; then a chain already run
   * throws IllegalStateException; otherwise the chain is marked executed
   * and runs.
   */
  function RunState(s: ChainState, callback: Option<Callback>): (r: (Option<Exception>, ChainState))
    ensures s.executed ==> r == (Some(IllegalStateException), s.(callback := callback))
    ensures !s.executed ==> r == (None, RunNext(s.(callback := callback, executed := true)))
  {
    var stored := s.(callback := callback);
    if s.executed then (Some(IllegalStateException), stored)
    else (None, RunNext(stored.(executed := true)))
  }

  /** The note each task leaves when it runs, in queue order. */
  function Runs(q: seq<Container>): (r: seq<Note>)
    ensures |r| == |q| && forall i :: 0 <= i < |q| ==> r[i] == Ran(q[i].task)
  {
    if |q| == 0 then [] else [Ran(q[0].task)] + Runs(q[1..])
  }

  predicate AllComplete(q: seq<Container>)
  {
    forall i :: 0 <= i < |q| ==> q[i].task.Does() == Completes
  }

  /** The callback's note for `done(finished)`, if there is a callback. */
  function Report(callback: Option<Callback>, finished: bool): seq<Note>
  {
    if callback.Some? then [Reported(finished)] else []
  }

  /**
   * Tasks that all hand over run once each, in the order they were added,
   * and the chain then reports success once; with no callback nothing is
   * reported and nothing fails.
   */
  lemma {:induction false} RunsInOrder(s: ChainState)
    requires AllComplete(s.queue)
    ensures RunNext(s) == s.(queue := [], done := true, log := s.log + Runs(s.queue) + Report(s.callback, true))
    decreases |s.queue|
  {
    if |s.queue| > 0 {
      var started := s.(queue := s.queue[1..], log := s.log + [Ran(s.queue[0].task)]);
      RunNextCompletes(s);
      AllCompleteTail(s.queue);
      RunsInOrder(started);
      RunsCons(s.log, s.queue);
    }
  }

  /** A head task that hands over runs the rest of the queue. */
  lemma RunNextCompletes(s: ChainState)
    requires |s.queue| > 0 && s.queue[0].task.Does() == Completes
    ensures RunNext(s) == RunNext(s.(queue := s.queue[1..], log := s.log + [Ran(s.queue[0].task)]))
  {
  }

  /** The tasks after the head of a queue of handing-over tasks all hand over too. */
  lemma AllCompleteTail(q: seq<Container>)
    requires |q| > 0 && AllComplete(q)
    ensures AllComplete(q[1..])
  {
    forall i | 0 <= i < |q[1..]| ensures q[1..][i].task.Does() == Completes {
      assert q[1..][i] == q[i + 1];
    }
  }

  /** The notes of a queue are its head's note followed by the notes of its tail. */
  lemma RunsCons(log: seq<Note>, q: seq<Container>)
    requires |q| > 0
    ensures log + [Ran(q[0].task)] + Runs(q[1..]) == log + Runs(q)
  {
    assert Runs(q) == [Ran(q[0].task)] + Runs(q[1..]);
    AppendAssociates(log, [Ran(q[0].task)], Runs(q[1..]));
  }

  lemma AppendAssociates<T>(a: seq<T>, b: seq<T>, c: seq<T>)
    ensures a + b + c == a + (b + c)
  {
  }

  /**
   * A task that throws ends the chain: what was queued after it never runs,
   * the queue is emptied, and the chain reports failure once.
   */
  lemma {:induction false} ThrowStopsChain(s: ChainState, before: seq<Container>, failing: Container, after: seq<Container>)
    requires s.queue == before + [failing] + after && AllComplete(before) && failing.task.Does() == Throws
    ensures RunNext(s) == s.(queue := [], done := true, log := s.log + Runs(before) + [Ran(failing.task)] + Report(s.callback, false))
    decreases |before|
  {
    if |before| == 0 {
      assert s.queue[0] == failing && s.queue[1..] == after;
    } else {
      var started := s.(queue := s.queue[1..], log := s.log + [Ran(s.queue[0].task)]);
      assert s.queue[0] == before[0];
      assert started.queue == before[1..] + [failing] + after;
      RunNextCompletes(s);
      AllCompleteTail(before);
      ThrowStopsChain(started, before[1..], failing, after);
      RunsCons(s.log, before);
    }
  }

  /** A chain on which `abort()` was called before `run` runs the tasks added before the abort and reports failure. */
  lemma AbortBeforeRun(s: ChainState, callback: Option<Callback>, later: seq<Container>)
    requires !s.executed && AllComplete(s.queue)
    ensures var aborted := AbortState(s).value.(queue := s.queue + [Container(CURRENT, AbortTask)] + later);
      RunState(aborted, callback).0 == None &&
      RunState(aborted, callback).1 == aborted.(queue := [], executed := true, done := true, callback := callback,
        log := s.log + Runs(s.queue) + [Ran(AbortTask)] + Report(callback, false))
  {
    var aborted := AbortState(s).value.(queue := s.queue + [Container(CURRENT, AbortTask)] + later);
    ThrowStopsChain(aborted.(callback := callback, executed := true), s.queue, Container(CURRENT, AbortTask), later);
  }

  /**
   * A callback task calling its callback twice: the rest of the chain runs
   * and reports success, then the second call reports failure and throws,
   * and the container's catch aborts, reporting failure again.
   */
  lemma NextTwiceReportsFailure(s: ChainState, twice: Container)
    requires |s.queue| > 0 && s.queue[0] == twice && twice.task.Does() == NextTwice && AllComplete(s.queue[1..])
    ensures RunNext(s) == s.(queue := [], done := true,
      log := s.log + Runs(s.queue) + Report(s.callback, true) + Report(s.callback, false) + Report(s.callback, false))
  {
    var started := s.(queue := s.queue[1..], log := s.log + [Ran(twice.task)]);
    RunsInOrder(started);
    RunsCons(s.log, s.queue);
  }

  /**
   * After a chain has run, adding a task and running it again are rejected
   * and no task runs again; the rejected `run` still replaces the stored
   * done callback.
   */
  lemma RunOnce(s: ChainState, first: Option<Callback>, second: Option<Callback>, c: Container)
    ensures var ran := RunState(s, first).1;
      ran.executed &&
      AddState(ran, c.executionType, Some(c.task)) == Err(IllegalStateException) &&
      RunState(ran, second) == (Some(IllegalStateException), ran.(callback := second)) &&
      AbortState(ran) == Err(AbortException)
  {
    if !s.executed {
      RunNextExecuted(s.(callback := first, executed := true));
    }
    var ran := RunState(s, first).1;
    assert ran.executed;
    assert RunState(ran, second) == (Some(IllegalStateException), ran.(callback := second));
  }

  /** Running the queue never resets the executed flag or the callback. */
  lemma {:induction false} RunNextExecuted(s: ChainState)
    ensures RunNext(s).executed == s.executed && RunNext(s).callback == s.callback
    decreases |s.queue|
  {
    if |s.queue| > 0 {
      RunNextExecuted(s.(queue := s.queue[1..], log := s.log + [Ran(s.queue[0].task)]));
    }
  }

  /** An empty chain reports success once when it runs, or nothing if the callback is null. */
  lemma EmptyChainReportsSuccess(callback: Option<Callback>)
    ensures RunState(NewChain, callback).1.log == Report(callback, true)
  {
  }

  /** The chain object. */
  class Chain {
    var queue: seq<Container>
    var executed: bool
    var done: bool
    var callback: Option<Callback>
    var log: seq<Note>

    function State(): ChainState
      reads this
    {
      ChainState(queue, executed, done, callback, log)
    }

    constructor ()
      ensures State() == NewChain
    {
      queue := [];
      executed := false;
      done := false;
      callback := None;
      log := [];
    }

    method Add(executionType: ExecutionType, task: Option<Task>) returns (thrown: Option<Exception>)
      modifies this
      ensures AddState(old(State()), executionType, task).Err? ==>
        thrown == Some(AddState(old(State()), executionType, task).error) && State() == old(State())
      ensures AddState(old(State()), executionType, task).Ok? ==>
        thrown == None && State() == AddState(old(State()), executionType, task).value
    {
      if task.None? {
        return Some(NullPointerException);
      }
      if executed {
        return Some(IllegalStateException);
      }
      queue := queue + [Container(executionType, task.value)];
      thrown := None;
    }

    method Abort() returns (thrown: Option<Exception>)
      modifies this
      ensures AbortState(old(State())).Err? ==> thrown == Some(AbortException) && State() == old(State())
      ensures AbortState(old(State())).Ok? ==> thrown == None && State() == AbortState(old(State())).value
    {
      if executed {
        return Some(AbortException);
      }
      thrown := Add(CURRENT, Some(AbortTask));
    }

    method Done(finished: bool)
      modifies this
      ensures State() == DoneState(old(State()), finished)
    {
      done := true;
      if callback.None? {
        return;
      }
      log := log + [Reported(finished)];
    }

    method AbortExecuted()
      modifies this
      ensures State() == AbortExecutedState(old(State()))
    {
      queue := [];
      Done(false);
    }

    method RunNextTask()
      modifies this
      ensures State() == RunNext(old(State()))
      decreases |queue|
    {
      if |queue| == 0 {
        done := true;
        Done(true);
        return;
      }
      var current := queue[0];
      queue := queue[1..];
      log := log + [Ran(current.task)];
      match current.task.Does()
      case Completes =>
        RunNextTask();
      case Throws =>
        AbortExecuted();
      case Stalls =>
      case NextTwice =>
        RunNextTask();
        Done(false);
        AbortExecuted();
      case NextThenThrow =>
        RunNextTask();
        AbortExecuted();
    }

    method Run(callback: Option<Callback>) returns (thrown: Option<Exception>)
      modifies this
      ensures (thrown, State()) == RunState(old(State()), callback)
    {
      this.callback := callback;
      if executed {
        return Some(IllegalStateException);
      }
      executed := true;
      RunNextTask();
      thrown := None;
    }
  }

  /** `FactoryImpl`: a factory is closed once shut down or once its executor is found shut down. */
  class Factory {
    var shutdown: bool

    constructor ()
      ensures !shutdown
    {
      shutdown := false;
    }

    /** `create()`, given whether the executor reports itself shut down. */
    method Create(executorShutdown: bool) returns (thrown: Option<Exception>, chain: Chain?)
      modifies this
      ensures shutdown == (old(shutdown) || executorShutdown)
      ensures shutdown <==> thrown == Some(IllegalStateException)
      ensures shutdown <==> chain == null
      ensures chain != null ==> fresh(chain) && chain.State() == NewChain
    {
      if executorShutdown {
        shutdown := true;
      }
      if shutdown {
        return Some(IllegalStateException), null;
      }
      chain := new Chain();
      thrown := None;
    }

    method Shutdown()
      modifies this
      ensures shutdown
    {
      shutdown := true;
    }
  }
}
