// org.conelux.common.counter.CounterImpl: a counter that ticks once as it
// starts, counts one unit per tick towards the stop count, and finishes on
// the very tick that reaches the stop count.
module ConeluxCounter {
  import opened JavaLang
  import opened Counters
  import AeroCheck

  /**
   * The constructor's checks in order: a null task executor, a null tick
   * unit, then a tick that is not positive, each an IllegalArgumentException.
   */
  function Create(executor: Option<Scheduler>, startCount: int, stopCount: int, tick: int, tickUnit: Option<TimeUnit>): (r: Result<Config>)
    ensures r.Err? <==> executor.None? || tickUnit.None? || tick <= 0
    ensures r.Err? ==> r.error == IllegalArgumentException
    ensures r.Ok? ==> r.value == Config(startCount, stopCount, tick, tickUnit.value)
  {
    match AeroCheck.NotNull(executor, "taskExecutor")
    case Some(f) => Err(f.exception)
    case None =>
      match AeroCheck.NotNull(tickUnit, "tickUnit")
      case Some(f) => Err(f.exception)
      case None =>
        match AeroCheck.ArgCondition(tick <= 0, "tick")
        case Some(f) => Err(f.exception)
        case None => Ok(Config(startCount, stopCount, tick, tickUnit.value))
  }

  /** Whether the count has reached the stop count in the counting direction. */
  predicate Reached(c: Config, current: int)
  {
    Wrap64(current * c.step()) >= Wrap64(c.stopCount * c.step())
  }

  /**
   * `tick()`: nothing unless running; below the stop count (in the counting
   * direction) the count advances one step and the tick handler runs; then,
   * if the stop count is reached, the finish handler runs and the counter is
   * cancelled without its cancel handler.
   */
  function TickState(c: Config, s: CounterState): (r: CounterState)
    ensures s.status != RUNNING ==> r == s
    ensures TaskWhileActive(s) ==> TaskWhileActive(r)
  {
    if s.status != RUNNING then s
    else
      var advanced := if !Reached(c, s.current) then s.(current := Wrap64(s.current + c.step()), log := s.log + [Ticked]) else s;
      if Reached(c, advanced.current) then CancelState(advanced.(log := advanced.log + [Finished]), false)
      else advanced
  }

  function Ticker(c: Config): CounterState -> CounterState
  {
    s => TickState(c, s)
  }

  /**
   * `start()`: with a task present it throws IllegalStateException and
   * changes nothing; otherwise the count is set one step before the start,
   * the task is scheduled, the counter runs, the start handler runs, and the
   * counter ticks once.
   */
  function StartState(c: Config, s: CounterState): (r: Result<CounterState>)
    ensures r.Err? <==> s.task
    ensures r.Err? ==> r.error == IllegalStateException
    ensures r.Ok? ==> |r.value.log| > |s.log| && r.value.log[..|s.log| + 1] == s.log + [Started]
  {
    if s.task then Err(IllegalStateException)
    else
      var running := s.(current := Wrap64(c.startCount - c.step()), task := true, status := RUNNING, log := s.log + [Started]);
      var r := TickState(c, running);
      assert r.log[..|s.log| + 1] == running.log[..|s.log| + 1];
      Ok(r)
  }

  /**
   * The tick that `start` makes lands on the start count, whatever the
   * direction; when the start count is the stop count, that tick also
   * finishes the counter.
   */
  lemma StartLandsOnStartCount(c: Config, s: CounterState)
    requires Roomy(c.startCount, c.stopCount) && !s.task
    ensures c.startCount != c.stopCount ==>
      StartState(c, s) == Ok(CounterState(c.startCount, RUNNING, true, s.log + [Started, Ticked]))
    ensures c.startCount == c.stopCount ==>
      StartState(c, s) == Ok(CounterState(c.startCount, IDLING, false, s.log + [Started, Ticked, Finished]))
  {
    var before := c.startCount - c.step();
    assert Wrap64(before) == before;
    if c.step() == 1 {
      assert before * c.step() < c.stopCount * c.step();
      assert c.startCount * c.step() < c.stopCount * c.step();
    } else {
      assert before * c.step() == -before && c.stopCount * c.step() == -c.stopCount;
      assert c.startCount * c.step() == -c.startCount;
    }
    assert s.log + [Started] + [Ticked] == s.log + [Started, Ticked];
    assert s.log + [Started, Ticked] + [Finished] == s.log + [Started, Ticked, Finished];
  }

  /** Away from overflow, reaching the stop count means being at or past it in the counting direction. */
  lemma ReachedIff(c: Config, x: int)
    requires Roomy(c.startCount, c.stopCount) && -0x8000_0000_0000_0000 < x < 0x8000_0000_0000_0000
    ensures c.step() == 1 ==> (Reached(c, x) <==> x >= c.stopCount)
    ensures c.step() == -1 ==> (Reached(c, x) <==> x <= c.stopCount)
  {
    if c.step() == -1 {
      assert x * c.step() == -x && c.stopCount * c.step() == -c.stopCount;
    }
  }

  /** One tick of a running counter short of the stop count. */
  lemma TickFrom(c: Config, p: int, log: seq<Event>)
    requires Roomy(c.startCount, c.stopCount)
    requires c.step() == 1 ==> c.startCount - 1 <= p < c.stopCount
    requires c.step() == -1 ==> c.stopCount < p <= c.startCount + 1
    ensures p + c.step() != c.stopCount ==>
      TickState(c, CounterState(p, RUNNING, true, log)) == CounterState(p + c.step(), RUNNING, true, log + [Ticked])
    ensures p + c.step() == c.stopCount ==>
      TickState(c, CounterState(p, RUNNING, true, log)) == CounterState(p + c.step(), IDLING, false, log + [Ticked, Finished])
  {
    ReachedIff(c, p);
    ReachedIff(c, p + c.step());
    assert log + [Ticked] + [Finished] == log + [Ticked, Finished];
  }

  /** Until the stop count is reached, each tick advances the count by one step and calls the tick handler. */
  lemma {:induction false} CountsTowardsStop(c: Config, log: seq<Event>, k: nat)
    requires Roomy(c.startCount, c.stopCount) && k < Distance(c.startCount, c.stopCount)
    ensures Iterate(Ticker(c), CounterState(c.startCount, RUNNING, true, log), k) ==
      CounterState(Position(c.startCount, c.step(), k), RUNNING, true, log + Ticks(k))
  {
    if k > 0 {
      CountsTowardsStop(c, log, k - 1);
      NextTick(c, log, k);
      var before := CounterState(Position(c.startCount, c.step(), k - 1), RUNNING, true, log + Ticks(k - 1));
      IterateThen(Ticker(c), CounterState(c.startCount, RUNNING, true, log), k - 1, before, Ticker(c)(before));
    }
  }

  /** The `k`-th tick, short of the stop, calls the tick handler and advances the count by one step. */
  lemma NextTick(c: Config, log: seq<Event>, k: nat)
    requires Roomy(c.startCount, c.stopCount) && 0 < k < Distance(c.startCount, c.stopCount)
    ensures Ticker(c)(CounterState(Position(c.startCount, c.step(), k - 1), RUNNING, true, log + Ticks(k - 1))) ==
      CounterState(Position(c.startCount, c.step(), k), RUNNING, true, log + Ticks(k))
  {
    var p := Position(c.startCount, c.step(), k - 1);
    assert p + c.step() != c.stopCount;
    TickFrom(c, p, log + Ticks(k - 1));
    assert log + Ticks(k - 1) + [Ticked] == log + Ticks(k);
  }

  /** The tick that reaches the stop count also finishes the counter: idling, no task, no cancel handler call. */
  lemma FinishesOnStop(c: Config, log: seq<Event>)
    requires Roomy(c.startCount, c.stopCount) && c.startCount != c.stopCount
    ensures var d := Distance(c.startCount, c.stopCount);
      Iterate(Ticker(c), CounterState(c.startCount, RUNNING, true, log), d) ==
      CounterState(c.stopCount, IDLING, false, log + Ticks(d) + [Finished])
  {
    var k := Distance(c.startCount, c.stopCount) - 1;
    var before := CounterState(Position(c.startCount, c.step(), k), RUNNING, true, log + Ticks(k));
    CountsTowardsStop(c, log, k);
    LastTick(c, log);
    IterateThen(Ticker(c), CounterState(c.startCount, RUNNING, true, log), k, before, Ticker(c)(before));
  }

  /** The tick from one step short of the stop count finishes the counter. */
  lemma LastTick(c: Config, log: seq<Event>)
    requires Roomy(c.startCount, c.stopCount) && c.startCount != c.stopCount
    ensures var d := Distance(c.startCount, c.stopCount);
      Ticker(c)(CounterState(Position(c.startCount, c.step(), d - 1), RUNNING, true, log + Ticks(d - 1))) ==
      CounterState(c.stopCount, IDLING, false, log + Ticks(d) + [Finished])
  {
    var d := Distance(c.startCount, c.stopCount);
    var p := Position(c.startCount, c.step(), d - 1);
    assert p + c.step() == c.stopCount;
    TickFrom(c, p, log + Ticks(d - 1));
    assert log + Ticks(d - 1) + [Ticked, Finished] == log + Ticks(d) + [Finished];
  }

  /**
   * A whole run of a counter without a task: `start` and then one tick per
   * unit from the start to the stop count call the tick handler once per
   * count from start to stop, and the finish handler right after the last.
   */
  lemma WholeRun(c: Config, s: CounterState)
    requires Roomy(c.startCount, c.stopCount) && !s.task
    ensures var d := Distance(c.startCount, c.stopCount);
      StartState(c, s).Ok? &&
      Iterate(Ticker(c), StartState(c, s).value, d) ==
      CounterState(c.stopCount, IDLING, false, s.log + [Started] + Ticks(d + 1) + [Finished])
  {
    StartLandsOnStartCount(c, s);
    var d := Distance(c.startCount, c.stopCount);
    if d == 0 {
      assert Ticks(1) == [Ticked];
      assert s.log + [Started, Ticked, Finished] == s.log + [Started] + Ticks(1) + [Finished];
    } else {
      FinishesOnStop(c, s.log + [Started, Ticked]);
      assert [Ticked] + Ticks(d) == Ticks(d + 1);
      assert s.log + [Started, Ticked] + Ticks(d) == s.log + [Started] + Ticks(d + 1);
    }
  }

  /** Every operation keeps a task scheduled exactly while the counter is not idling. */
  lemma OperationsKeepTaskWhileActive(c: Config, s: CounterState)
    requires TaskWhileActive(s)
    ensures StartState(c, s).Ok? ==> TaskWhileActive(StartState(c, s).value)
    ensures TaskWhileActive(TickState(c, s)) && TaskWhileActive(PauseState(s))
    ensures TaskWhileActive(ResumeState(s)) && TaskWhileActive(StopState(s))
    ensures StartState(c, s).Ok? <==> s.status == IDLING
  {
  }

  class CounterImpl {
    const config: Config
    var currentCount: int
    var status: CounterStatus
    var task: bool
    var log: seq<Event>

    function State(): CounterState
      reads this
    {
      CounterState(currentCount, status, task, log)
    }

    ghost predicate Valid()
      reads this
    {
      config.Valid() && InLong(currentCount) && TaskWhileActive(State())
    }

    constructor (config: Config)
      requires config.Valid()
      ensures this.config == config && State() == Initial && Valid()
    {
      this.config := config;
      currentCount := 0;
      status := IDLING;
      task := false;
      log := [];
    }

    method Start() returns (thrown: Option<Exception>)
      requires Valid()
      modifies this
      ensures Valid()
      ensures StartState(config, old(State())).Err? ==> thrown == Some(IllegalStateException) && State() == old(State())
      ensures StartState(config, old(State())).Ok? ==> thrown == None && State() == StartState(config, old(State())).value
    {
      if task {
        return Some(IllegalStateException);
      }
      currentCount := Wrap64(config.startCount - config.step());
      task := true;
      status := RUNNING;
      log := log + [Started];
      Tick();
      thrown := None;
    }

    method Pause()
      requires Valid()
      modifies this
      ensures Valid() && State() == PauseState(old(State()))
    {
      if status != RUNNING {
        return;
      }
      status := PAUSED;
    }

    method Resume()
      requires Valid()
      modifies this
      ensures Valid() && State() == ResumeState(old(State()))
    {
      if status != PAUSED {
        return;
      }
      status := RUNNING;
    }

    method Stop()
      requires Valid()
      modifies this
      ensures Valid() && State() == StopState(old(State()))
    {
      if status == IDLING {
        return;
      }
      Cancel(true);
    }

    method Cancel(withHandler: bool)
      requires InLong(currentCount)
      modifies this
      ensures State() == CancelState(old(State()), withHandler)
    {
      status := IDLING;
      if !task {
        return;
      }
      task := false;
      if !withHandler {
        return;
      }
      log := log + [Cancelled];
    }

    /** The scheduled task firing. */
    method Tick()
      requires config.Valid() && InLong(currentCount)
      modifies this
      ensures InLong(currentCount) && State() == TickState(config, old(State()))
    {
      if status != RUNNING {
        return;
      }
      if !Reached(config, currentCount) {
        currentCount := Wrap64(currentCount + config.step());
        log := log + [Ticked];
      }
      if Reached(config, currentCount) {
        log := log + [Finished];
        Cancel(false);
      }
    }

    /** Away from overflow, how far the count has moved from the start count in the counting direction. */
    function TickedCount(): (r: int)
      reads this
      ensures InLong(r)
      ensures InLong(config.startCount - currentCount) && InLong(currentCount - config.startCount) ==>
                r == (currentCount - config.startCount) * config.step()
    {
      if InLong(config.startCount - currentCount) && InLong(currentCount - config.startCount) then
        Counters.TickedCountIsDistance(config.startCount, config.step(), currentCount);
        Counters.TickedCount(config.startCount, config.step(), currentCount)
      else Counters.TickedCount(config.startCount, config.step(), currentCount)
    }

    method SetCurrentCount(count: int)
      requires Valid() && InLong(count)
      modifies this
      ensures Valid() && State() == old(State()).(current := count)
    {
      currentCount := count;
    }
  }

  /** `build()`: the constructor's checks, then a fresh idle counter. */
  method Build(executor: Option<Scheduler>, startCount: int, stopCount: int, tick: int, tickUnit: Option<TimeUnit>)
    returns (r: Result<CounterImpl>)
    requires InLong(startCount) && InLong(stopCount) && InLong(tick)
    ensures Create(executor, startCount, stopCount, tick, tickUnit).Err? ==>
      r == Err(Create(executor, startCount, stopCount, tick, tickUnit).error)
    ensures Create(executor, startCount, stopCount, tick, tickUnit).Ok? ==>
      r.Ok? && fresh(r.value) && r.value.Valid() && r.value.State() == Initial &&
      r.value.config == Create(executor, startCount, stopCount, tick, tickUnit).value
  {
    var config := Create(executor, startCount, stopCount, tick, tickUnit);
    if config.Err? {
      return Err(config.error);
    }
    var counter := new CounterImpl(config.value);
    return Ok(counter);
  }
}
