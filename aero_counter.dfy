// org.aero.common.task.counter.CounterImpl: a counter whose count lives in a
// counting runnable. The runnable's condition is "the counter is running" (and
// runs the tick handler), its callback is the counter's finish check, and the
// stored start count is the builder's one step back.
module AeroCounter {
  import opened JavaLang
  import opened Counters
  import AeroCheck
  import CountingRunnables

  /**
   * The constructor's checks in order: a null tick unit, then a tick that is
   * not positive, each an IllegalArgumentException.
   */
  function Create(startCount: int, stopCount: int, tick: int, tickUnit: Option<TimeUnit>): (r: Result<Config>)
    ensures r.Err? <==> tickUnit.None? || tick <= 0
    ensures r.Err? ==> r.error == IllegalArgumentException
    ensures r.Ok? ==> r.value == Config(startCount, stopCount, tick, tickUnit.value)
  {
    match AeroCheck.NotNull(tickUnit, "tickUnit")
    case Some(f) => Err(f.exception)
    case None =>
      match AeroCheck.ArgCondition(tick <= 0, "tick")
      case Some(f) => Err(f.exception)
      case None => Ok(Config(startCount, stopCount, tick, tickUnit.value))
  }

  /** The stored start count, which `startCount()` answers: the builder's start count minus the step. */
  function StartCount(c: Config): (r: int)
    ensures InLong(c.startCount - c.step()) ==> r == c.startCount - c.step()
  {
    Wrap64(c.startCount - c.step())
  }

  /**
   * `start()`: with a task present it throws IllegalStateException and
   * changes nothing; otherwise a counting runnable starting at the stored
   * start count is built, the task is scheduled, the counter runs and the
   * start handler runs. No tick happens yet.
   */
  function StartState(c: Config, s: CounterState): (r: Result<CounterState>)
    ensures r.Err? <==> s.task
    ensures r.Err? ==> r.error == IllegalStateException
    ensures r.Ok? ==> r.value == CounterState(StartCount(c), RUNNING, true, s.log + [Started])
  {
    if s.task then Err(IllegalStateException)
    else Ok(CounterState(StartCount(c), RUNNING, true, s.log + [Started]))
  }

  /** `tick()`'s test, `step * (step - count + stopCount) <= 0` in `long` arithmetic: the count has gone one step past the stop count. */
  predicate Beyond(c: Config, count: int)
  {
    Wrap64(c.step() * Wrap64(Wrap64(c.step() - count) + c.stopCount)) <= 0
  }

  /** `tick()`, the runnable's callback: once the count is beyond the stop count, the finish handler runs and the counter is cancelled without its cancel handler. */
  function FinishCheckState(c: Config, s: CounterState): (r: CounterState)
    ensures !Beyond(c, s.current) ==> r == s
    ensures Beyond(c, s.current) ==> r == CancelState(s.(log := s.log + [Finished]), false)
  {
    if !Beyond(c, s.current) then s
    else CancelState(s.(log := s.log + [Finished]), false)
  }

  /**
   * One run of the scheduled counting runnable: its condition holds only
   * while the counter runs, and then also calls the tick handler; the count
   * grows by the step when it holds; the finish check runs every time, also
   * while paused.
   */
  function RunState(c: Config, s: CounterState): (r: CounterState)
    ensures TaskWhileActive(s) ==> TaskWhileActive(r)
  {
    var allowed := s.status == RUNNING;
    var afterCondition := if allowed then s.(log := s.log + [Ticked]) else s;
    var counted := CountingRunnables.AbstractRun(c.step(), CountingRunnables.AbstractState(afterCondition.current, 0), allowed);
    FinishCheckState(c, afterCondition.(current := counted.count))
  }

  function Runner(c: Config): CounterState -> CounterState
  {
    s => RunState(c, s)
  }

  /** Start and stop counts well inside the `long` range, so that `step - count + stopCount` cannot overflow during a run. */
  predicate Moderate(startCount: int, stopCount: int)
  {
    -0x2000_0000_0000_0000 <= startCount <= 0x2000_0000_0000_0000 &&
    -0x2000_0000_0000_0000 <= stopCount <= 0x2000_0000_0000_0000
  }

  /** Away from overflow, being beyond the stop count means being at least one step past it. */
  lemma BeyondIff(c: Config, x: int)
    requires Moderate(c.startCount, c.stopCount) && -0x4000_0000_0000_0000 <= x <= 0x4000_0000_0000_0000
    ensures c.step() == 1 ==> (Beyond(c, x) <==> x >= c.stopCount + 1)
    ensures c.step() == -1 ==> (Beyond(c, x) <==> x <= c.stopCount - 1)
  {
    var inner := c.step() - x + c.stopCount;
    assert Wrap64(c.step() - x) == c.step() - x;
    assert Wrap64(inner) == inner;
    if c.step() == 1 {
      assert c.step() * inner == inner;
    } else {
      assert c.step() * inner == -inner;
    }
  }

  /** One run of a running counter that is not past the stop count. */
  lemma RunFrom(c: Config, p: int, log: seq<Event>)
    requires Moderate(c.startCount, c.stopCount)
    requires c.step() == 1 ==> c.startCount - 1 <= p <= c.stopCount
    requires c.step() == -1 ==> c.stopCount <= p <= c.startCount + 1
    ensures p != c.stopCount ==>
      RunState(c, CounterState(p, RUNNING, true, log)) == CounterState(p + c.step(), RUNNING, true, log + [Ticked])
    ensures p == c.stopCount ==>
      RunState(c, CounterState(p, RUNNING, true, log)) == CounterState(p + c.step(), IDLING, false, log + [Ticked, Finished])
  {
    assert Wrap64(p + c.step()) == p + c.step();
    BeyondIff(c, p + c.step());
    assert log + [Ticked] + [Finished] == log + [Ticked, Finished];
  }

  /** Up to the run that lands one step past the stop count, each run calls the tick handler and advances the count by one step. */
  lemma {:induction false} CountsTowardsStop(c: Config, log: seq<Event>, k: nat)
    requires Moderate(c.startCount, c.stopCount) && k <= Distance(c.startCount, c.stopCount) + 1
    ensures Iterate(Runner(c), CounterState(c.startCount - c.step(), RUNNING, true, log), k) ==
      CounterState(Position(c.startCount - c.step(), c.step(), k), RUNNING, true, log + Ticks(k))
  {
    if k > 0 {
      var s0 := CounterState(c.startCount - c.step(), RUNNING, true, log);
      var p := Position(c.startCount - c.step(), c.step(), k - 1);
      var before := CounterState(p, RUNNING, true, log + Ticks(k - 1));
      CountsTowardsStop(c, log, k - 1);
      NextRun(c, log, k);
      IterateThen(Runner(c), s0, k - 1, before, Runner(c)(before));
    }
  }

  /** The `k`-th run, short of the stop count, calls the tick handler and advances the count by one step. */
  lemma NextRun(c: Config, log: seq<Event>, k: nat)
    requires Moderate(c.startCount, c.stopCount) && 0 < k <= Distance(c.startCount, c.stopCount) + 1
    ensures Runner(c)(CounterState(Position(c.startCount - c.step(), c.step(), k - 1), RUNNING, true, log + Ticks(k - 1))) ==
      CounterState(Position(c.startCount - c.step(), c.step(), k), RUNNING, true, log + Ticks(k))
  {
    var p := Position(c.startCount - c.step(), c.step(), k - 1);
    assert p != c.stopCount;
    RunFrom(c, p, log + Ticks(k - 1));
    assert log + Ticks(k - 1) + [Ticked] == log + Ticks(k);
  }

  /**
   * A whole run of a counter without a task: after `start`, the tick
   * handler is called once per count from the stored start count to the
   * stop count, that is `|startCount() - stopCount()| + 1` times, and the
   * run that makes the last of these calls also finishes the counter, one
   * step past the stop count.
   */
  lemma WholeRun(c: Config, s: CounterState)
    requires Moderate(c.startCount, c.stopCount) && !s.task
    ensures var d := Distance(c.startCount, c.stopCount);
      StartState(c, s).Ok? &&
      Iterate(Runner(c), StartState(c, s).value, d + 2) ==
      CounterState(c.stopCount + c.step(), IDLING, false, s.log + [Started] + Ticks(Distance(StartCount(c), c.stopCount) + 1) + [Finished])
  {
    StartFacts(c, s);
    RunToEnd(c, s.log + [Started]);
  }

  /** `start` sets the count to the stored start count, one step before the builder's, which is `d + 1` steps from the stop count. */
  lemma StartFacts(c: Config, s: CounterState)
    requires Moderate(c.startCount, c.stopCount) && !s.task
    ensures StartState(c, s) == Ok(CounterState(c.startCount - c.step(), RUNNING, true, s.log + [Started]))
    ensures Distance(StartCount(c), c.stopCount) + 1 == Distance(c.startCount, c.stopCount) + 2
  {
    assert StartCount(c) == c.startCount - c.step();
  }

  /** From one step before the start count, `d + 2` runs call the tick handler `d + 2` times and finish the counter. */
  lemma RunToEnd(c: Config, log: seq<Event>)
    requires Moderate(c.startCount, c.stopCount)
    ensures var d := Distance(c.startCount, c.stopCount);
      Iterate(Runner(c), CounterState(c.startCount - c.step(), RUNNING, true, log), d + 2) ==
      CounterState(c.stopCount + c.step(), IDLING, false, log + Ticks(d + 2) + [Finished])
  {
    var d := Distance(c.startCount, c.stopCount);
    var s0 := CounterState(c.startCount - c.step(), RUNNING, true, log);
    var before := CounterState(Position(c.startCount - c.step(), c.step(), d + 1), RUNNING, true, log + Ticks(d + 1));
    CountsTowardsStop(c, log, d + 1);
    LastRun(c, log);
    IterateThen(Runner(c), s0, d + 1, before, Runner(c)(before));
  }

  /** The run from the stop count calls the tick handler and finishes the counter one step past the stop count. */
  lemma LastRun(c: Config, log: seq<Event>)
    requires Moderate(c.startCount, c.stopCount)
    ensures var d := Distance(c.startCount, c.stopCount);
      RunState(c, CounterState(Position(c.startCount - c.step(), c.step(), d + 1), RUNNING, true, log + Ticks(d + 1))) ==
      CounterState(c.stopCount + c.step(), IDLING, false, log + Ticks(d + 2) + [Finished])
  {
    var d := Distance(c.startCount, c.stopCount);
    var p := Position(c.startCount - c.step(), c.step(), d + 1);
    assert p == c.stopCount;
    RunFrom(c, p, log + Ticks(d + 1));
    assert log + Ticks(d + 1) + [Ticked, Finished] == log + Ticks(d + 2) + [Finished];
  }

  /** `tickedCount()`: a NullPointerException before the first `start` has built the runnable. */
  function TickedCount(c: Config, built: bool, s: CounterState): (r: Result<int>)
    ensures r.Err? <==> !built
    ensures r.Err? ==> r.error == NullPointerException
  {
    if !built then Err(NullPointerException)
    else Ok(Counters.TickedCount(StartCount(c), c.step(), s.current))
  }

  /**
   * Any count between the stored start count and the stop count, set with
   * `currentCount(count)`, gives a ticked count of `|startCount() - count|`.
   */
  lemma TickedCountIsDifference(c: Config, s: CounterState, count: int)
    requires Moderate(c.startCount, c.stopCount)
    requires StartCount(c) <= count <= c.stopCount || c.stopCount <= count <= StartCount(c)
    ensures TickedCount(c, true, s.(current := count)) ==
      Ok(if StartCount(c) <= count then count - StartCount(c) else StartCount(c) - count)
  {
    TickedCountIsDistance(StartCount(c), c.step(), count);
  }

  /**
   * The life cycle the counter is used in: started it runs, paused it is
   * paused, resumed it runs, stopped it idles; the start handler and the
   * cancel handler ran once each; a second `start` before the `stop` throws
   * and one after it succeeds.
   */
  lemma LifeCycle(c: Config, s: CounterState)
    requires !s.task
    ensures var started := StartState(c, s).value;
      var stopped := StopState(ResumeState(PauseState(started)));
      started.status == RUNNING && PauseState(started).status == PAUSED &&
      ResumeState(PauseState(started)).status == RUNNING && stopped.status == IDLING &&
      stopped.log == s.log + [Started, Cancelled] &&
      StartState(c, started) == Err(IllegalStateException) &&
      StartState(c, stopped).Ok?
  {
  }

  class CounterImpl {
    const config: Config
    const startCount: int
    var runnable: CountingRunnables.AbstractCountingRunnable?
    var status: CounterStatus
    var task: bool
    var log: seq<Event>

    /** The counter's state; before the first `start` there is no runnable and its count reads as 0 here. */
    function State(): CounterState
      reads this, runnable
    {
      CounterState(if runnable == null then 0 else runnable.count, status, task, log)
    }

    ghost predicate Valid()
      reads this, runnable
    {
      config.Valid() && startCount == StartCount(config) &&
      (runnable != null ==> runnable.step == config.step() && InLong(runnable.count)) &&
      (task ==> runnable != null) && TaskWhileActive(State())
    }

    constructor (config: Config)
      requires config.Valid()
      ensures this.config == config && runnable == null && State() == Initial && Valid()
    {
      this.config := config;
      startCount := StartCount(config);
      runnable := null;
      status := IDLING;
      task := false;
      log := [];
    }

    method Start() returns (thrown: Option<Exception>)
      requires Valid()
      modifies this
      ensures Valid() && runnable != null
      ensures StartState(config, old(State())).Err? ==> thrown == Some(IllegalStateException) && State() == old(State())
      ensures StartState(config, old(State())).Ok? ==> thrown == None && fresh(runnable) && State() == StartState(config, old(State())).value
    {
      if task {
        return Some(IllegalStateException);
      }
      runnable := new CountingRunnables.AbstractCountingRunnable(config.step(), startCount);
      task := true;
      status := RUNNING;
      log := log + [Started];
      thrown := None;
    }

    method Pause()
      requires Valid()
      modifies this
      ensures Valid() && runnable == old(runnable) && State() == PauseState(old(State()))
    {
      if status != RUNNING {
        return;
      }
      status := PAUSED;
    }

    method Resume()
      requires Valid()
      modifies this
      ensures Valid() && runnable == old(runnable) && State() == ResumeState(old(State()))
    {
      if status != PAUSED {
        return;
      }
      status := RUNNING;
    }

    method Stop()
      requires Valid()
      modifies this
      ensures Valid() && runnable == old(runnable) && State() == StopState(old(State()))
    {
      if status == IDLING {
        return;
      }
      Cancel(true);
    }

    method Cancel(withHandler: bool)
      modifies this
      ensures runnable == old(runnable) && State() == CancelState(old(State()), withHandler)
    {
      status := IDLING;
      if !task {
        return;
      }
      task := false;
      if !withHandler {
        return;
      }
      log := log + [Cancelled];
    }

    /** `condition()`: false unless running; when running, the tick handler runs first. */
    method Condition() returns (allowed: bool)
      modifies this
      ensures allowed == (old(status) == RUNNING) && runnable == old(runnable)
      ensures status == old(status) && task == old(task)
      ensures log == old(log) + (if allowed then [Ticked] else [])
    {
      if status != RUNNING {
        return false;
      }
      log := log + [Ticked];
      return true;
    }

    /** `tick()`, the runnable's callback. */
    method FinishCheck()
      requires runnable != null
      modifies this
      ensures runnable == old(runnable) && State() == FinishCheckState(config, old(State()))
    {
      var step := config.step();
      if Wrap64(step * Wrap64(Wrap64(step - runnable.count) + config.stopCount)) > 0 {
        return;
      }
      log := log + [Finished];
      Cancel(false);
    }

    /** The scheduled task firing: the counting runnable's `run()`. The scheduler fires it only while the task is scheduled. */
    method Run()
      requires Valid() && task
      modifies this, runnable
      ensures Valid() && runnable == old(runnable) && State() == RunState(config, old(State()))
    {
      var allowed := Condition();
      runnable.Run(allowed);
      FinishCheck();
    }

    /** `currentCount()`: the runnable's count; a NullPointerException before the first `start`. */
    function CurrentCount(): (r: Result<int>)
      reads this, runnable
      ensures r.Err? <==> runnable == null
      ensures r.Ok? ==> r.value == State().current
    {
      if runnable == null then Err(NullPointerException) else Ok(runnable.count)
    }

    /** `currentCount(count)`: sets the runnable's count, so that `currentCount()` answers it; a NullPointerException before the first `start`. */
    method SetCurrentCount(count: int) returns (thrown: Option<Exception>)
      requires Valid() && InLong(count)
      modifies runnable
      ensures Valid() && (thrown.Some? <==> runnable == null)
      ensures thrown.Some? ==> thrown.value == NullPointerException
      ensures runnable != null ==> State() == old(State()).(current := count) && CurrentCount() == Ok(count)
    {
      if runnable == null {
        return Some(NullPointerException);
      }
      runnable.SetCount(count);
      return None;
    }
  }

  /** `build()`: the constructor's checks, then a fresh idle counter. */
  method Build(startCount: int, stopCount: int, tick: int, tickUnit: Option<TimeUnit>) returns (r: Result<CounterImpl>)
    requires InLong(startCount) && InLong(stopCount) && InLong(tick)
    ensures Create(startCount, stopCount, tick, tickUnit).Err? ==> r == Err(Create(startCount, stopCount, tick, tickUnit).error)
    ensures Create(startCount, stopCount, tick, tickUnit).Ok? ==>
      r.Ok? && fresh(r.value) && r.value.Valid() && r.value.State() == Initial &&
      r.value.config == Create(startCount, stopCount, tick, tickUnit).value
  {
    var config := Create(startCount, stopCount, tick, tickUnit);
    if config.Err? {
      return Err(config.error);
    }
    var counter := new CounterImpl(config.value);
    return Ok(counter);
  }
}
