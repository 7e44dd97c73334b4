// de.natrox.common.counter.CounterImpl: a counter that does not tick as it
// starts, advances while the count has not passed the stop count, and
// finishes on the tick that takes it one step past the stop count.
module NatroxCounter {
  import opened JavaLang
  import opened Counters
  import NatroxCheck

  /**
   * The constructor's checks in order: a null scheduler and a null tick unit
   * are NullPointerExceptions, a tick that is not positive an
   * IllegalArgumentException.
   */
  function Create(scheduler: Option<Scheduler>, startCount: int, stopCount: int, tick: int, tickUnit: Option<TimeUnit>): (r: Result<Config>)
    ensures r.Err? <==> scheduler.None? || tickUnit.None? || tick <= 0
    ensures r.Err? && (scheduler.None? || tickUnit.None?) ==> r.error == NullPointerException
    ensures r.Err? && scheduler.Some? && tickUnit.Some? ==> r.error == IllegalArgumentException
    ensures r.Ok? ==> r.value == Config(startCount, stopCount, tick, tickUnit.value)
  {
    match NatroxCheck.NotNull(scheduler, "scheduler")
    case Some(f) => Err(f.exception)
    case None =>
      match NatroxCheck.NotNull(tickUnit, "tickUnit")
      case Some(f) => Err(f.exception)
      case None =>
        match NatroxCheck.ArgCondition(tick <= 0, "tick must be positive")
        case Some(f) => Err(f.exception)
        case None => Ok(Config(startCount, stopCount, tick, tickUnit.value))
  }

  /** Whether the count has not passed the stop count in the counting direction. */
  predicate NotPast(c: Config, current: int)
  {
    Wrap64(current * c.step()) <= Wrap64(c.stopCount * c.step())
  }

  /**
   * `tick()`: nothing unless running; while the count has not passed the
   * stop count it advances one step and the tick handler runs; then, if the
   * count is one step past the stop count, the finish handler runs and the
   * counter is cancelled without its cancel handler.
   */
  function TickState(c: Config, s: CounterState): (r: CounterState)
    ensures s.status != RUNNING ==> r == s
    ensures TaskWhileActive(s) ==> TaskWhileActive(r)
    ensures s.task && !r.task ==> Wrap64(r.current - c.step()) == c.stopCount && |r.log| > 0 && r.log[|r.log| - 1] == Finished
  {
    if s.status != RUNNING then s
    else
      var advanced := if NotPast(c, s.current) then s.(current := Wrap64(s.current + c.step()), log := s.log + [Ticked]) else s;
      if Wrap64(advanced.current - c.step()) == c.stopCount then CancelState(advanced.(log := advanced.log + [Finished]), false)
      else advanced
  }

  function Ticker(c: Config): CounterState -> CounterState
  {
    s => TickState(c, s)
  }

  /**
   * `start()`: with a task present it throws IllegalStateException and
   * changes nothing; otherwise the count is set one step before the start,
   * the task is scheduled, the counter runs and the start handler runs. No
   * tick happens yet.
   */
  function StartState(c: Config, s: CounterState): (r: Result<CounterState>)
    ensures r.Err? <==> s.task
    ensures r.Err? ==> r.error == IllegalStateException
    ensures r.Ok? ==> r.value == CounterState(Wrap64(c.startCount - c.step()), RUNNING, true, s.log + [Started])
  {
    if s.task then Err(IllegalStateException)
    else Ok(s.(current := Wrap64(c.startCount - c.step()), task := true, status := RUNNING, log := s.log + [Started]))
  }

  /** Away from overflow, not having passed the stop count means being at or before it in the counting direction. */
  lemma NotPastIff(c: Config, x: int)
    requires Roomy(c.startCount, c.stopCount) && -0x8000_0000_0000_0000 < x < 0x8000_0000_0000_0000
    ensures c.step() == 1 ==> (NotPast(c, x) <==> x <= c.stopCount)
    ensures c.step() == -1 ==> (NotPast(c, x) <==> x >= c.stopCount)
  {
    if c.step() == -1 {
      assert x * c.step() == -x && c.stopCount * c.step() == -c.stopCount;
    }
  }

  /** One tick of a running counter that has not passed the stop count. */
  lemma TickFrom(c: Config, p: int, log: seq<Event>)
    requires Roomy(c.startCount, c.stopCount)
    requires c.step() == 1 ==> c.startCount - 1 <= p <= c.stopCount
    requires c.step() == -1 ==> c.stopCount <= p <= c.startCount + 1
    ensures p != c.stopCount ==>
      TickState(c, CounterState(p, RUNNING, true, log)) == CounterState(p + c.step(), RUNNING, true, log + [Ticked])
    ensures p == c.stopCount ==>
      TickState(c, CounterState(p, RUNNING, true, log)) == CounterState(p + c.step(), IDLING, false, log + [Ticked, Finished])
  {
    NotPastIff(c, p);
    assert Wrap64(p + c.step()) == p + c.step();
    assert Wrap64(p + c.step() - c.step()) == p;
    assert log + [Ticked] + [Finished] == log + [Ticked, Finished];
  }

  /** Up to and including the tick that lands on the stop count, each tick advances the count by one step and calls the tick handler. */
  lemma {:induction false} CountsTowardsStop(c: Config, log: seq<Event>, k: nat)
    requires Roomy(c.startCount, c.stopCount) && k <= Distance(c.startCount, c.stopCount) + 1
    ensures Iterate(Ticker(c), CounterState(c.startCount - c.step(), RUNNING, true, log), k) ==
      CounterState(Position(c.startCount - c.step(), c.step(), k), RUNNING, true, log + Ticks(k))
  {
    if k > 0 {
      CountsTowardsStop(c, log, k - 1);
      NextTick(c, log, k);
      var before := CounterState(Position(c.startCount - c.step(), c.step(), k - 1), RUNNING, true, log + Ticks(k - 1));
      IterateThen(Ticker(c), CounterState(c.startCount - c.step(), RUNNING, true, log), k - 1, before, Ticker(c)(before));
    }
  }

  /** The `k`-th tick, short of the stop, calls the tick handler and advances the count by one step. */
  lemma NextTick(c: Config, log: seq<Event>, k: nat)
    requires Roomy(c.startCount, c.stopCount) && 0 < k <= Distance(c.startCount, c.stopCount) + 1
    ensures Ticker(c)(CounterState(Position(c.startCount - c.step(), c.step(), k - 1), RUNNING, true, log + Ticks(k - 1))) ==
      CounterState(Position(c.startCount - c.step(), c.step(), k), RUNNING, true, log + Ticks(k))
  {
    var p := Position(c.startCount - c.step(), c.step(), k - 1);
    assert p != c.stopCount;
    TickFrom(c, p, log + Ticks(k - 1));
    assert log + Ticks(k - 1) + [Ticked] == log + Ticks(k);
  }

  /**
   * A whole run of a counter without a task: after `start`, the tick
   * handler is called once per count from one step before the start to the
   * stop count plus once more, the count ends one step past the stop count,
   * and only then does the finish handler run.
   */
  lemma WholeRun(c: Config, s: CounterState)
    requires Roomy(c.startCount, c.stopCount) && !s.task
    ensures var d := Distance(c.startCount, c.stopCount);
      StartState(c, s).Ok? &&
      Iterate(Ticker(c), StartState(c, s).value, d + 2) ==
      CounterState(c.stopCount + c.step(), IDLING, false, s.log + [Started] + Ticks(d + 2) + [Finished])
  {
    assert StartState(c, s) == Ok(CounterState(c.startCount - c.step(), RUNNING, true, s.log + [Started])) by {
      assert Wrap64(c.startCount - c.step()) == c.startCount - c.step();
    }
    RunToEnd(c, s.log + [Started]);
  }

  /** From one step before the start count, `d + 2` ticks call the tick handler `d + 2` times and finish the counter. */
  lemma RunToEnd(c: Config, log: seq<Event>)
    requires Roomy(c.startCount, c.stopCount)
    ensures var d := Distance(c.startCount, c.stopCount);
      Iterate(Ticker(c), CounterState(c.startCount - c.step(), RUNNING, true, log), d + 2) ==
      CounterState(c.stopCount + c.step(), IDLING, false, log + Ticks(d + 2) + [Finished])
  {
    var d := Distance(c.startCount, c.stopCount);
    var s0 := CounterState(c.startCount - c.step(), RUNNING, true, log);
    var before := CounterState(Position(c.startCount - c.step(), c.step(), d + 1), RUNNING, true, log + Ticks(d + 1));
    CountsTowardsStop(c, log, d + 1);
    LastTick(c, log);
    IterateThen(Ticker(c), s0, d + 1, before, Ticker(c)(before));
  }

  /** The tick from the stop count calls the tick handler and finishes the counter one step past it. */
  lemma LastTick(c: Config, log: seq<Event>)
    requires Roomy(c.startCount, c.stopCount)
    ensures var d := Distance(c.startCount, c.stopCount);
      Ticker(c)(CounterState(Position(c.startCount - c.step(), c.step(), d + 1), RUNNING, true, log + Ticks(d + 1))) ==
      CounterState(c.stopCount + c.step(), IDLING, false, log + Ticks(d + 2) + [Finished])
  {
    var d := Distance(c.startCount, c.stopCount);
    var p := Position(c.startCount - c.step(), c.step(), d + 1);
    assert p == c.stopCount;
    TickFrom(c, p, log + Ticks(d + 1));
    assert log + Ticks(d + 1) + [Ticked, Finished] == log + Ticks(d + 2) + [Finished];
  }

  /** Every operation keeps a task scheduled exactly while the counter is not idling. */
  lemma OperationsKeepTaskWhileActive(c: Config, s: CounterState)
    requires TaskWhileActive(s)
    ensures StartState(c, s).Ok? ==> TaskWhileActive(StartState(c, s).value)
    ensures TaskWhileActive(TickState(c, s)) && TaskWhileActive(PauseState(s))
    ensures TaskWhileActive(ResumeState(s)) && TaskWhileActive(StopState(s))
    ensures StartState(c, s).Ok? <==> s.status == IDLING
  {
  }

  class CounterImpl {
    const config: Config
    var currentCount: int
    var status: CounterStatus
    var task: bool
    var log: seq<Event>

    function State(): CounterState
      reads this
    {
      CounterState(currentCount, status, task, log)
    }

    ghost predicate Valid()
      reads this
    {
      config.Valid() && InLong(currentCount) && TaskWhileActive(State())
    }

    constructor (config: Config)
      requires config.Valid()
      ensures this.config == config && State() == Initial && Valid()
    {
      this.config := config;
      currentCount := 0;
      status := IDLING;
      task := false;
      log := [];
    }

    method Start() returns (thrown: Option<Exception>)
      requires Valid()
      modifies this
      ensures Valid()
      ensures StartState(config, old(State())).Err? ==> thrown == Some(IllegalStateException) && State() == old(State())
      ensures StartState(config, old(State())).Ok? ==> thrown == None && State() == StartState(config, old(State())).value
    {
      if task {
        return Some(IllegalStateException);
      }
      currentCount := Wrap64(config.startCount - config.step());
      task := true;
      status := RUNNING;
      log := log + [Started];
      thrown := None;
    }

    method Pause()
      requires Valid()
      modifies this
      ensures Valid() && State() == PauseState(old(State()))
    {
      if status != RUNNING {
        return;
      }
      status := PAUSED;
    }

    method Resume()
      requires Valid()
      modifies this
      ensures Valid() && State() == ResumeState(old(State()))
    {
      if status != PAUSED {
        return;
      }
      status := RUNNING;
    }

    method Stop()
      requires Valid()
      modifies this
      ensures Valid() && State() == StopState(old(State()))
    {
      if status == IDLING {
        return;
      }
      Cancel(true);
    }

    method Cancel(withHandler: bool)
      requires InLong(currentCount)
      modifies this
      ensures State() == CancelState(old(State()), withHandler)
    {
      status := IDLING;
      if !task {
        return;
      }
      task := false;
      if !withHandler {
        return;
      }
      log := log + [Cancelled];
    }

    /** The scheduled task firing. */
    method Tick()
      requires config.Valid() && InLong(currentCount)
      modifies this
      ensures InLong(currentCount) && State() == TickState(config, old(State()))
    {
      if status != RUNNING {
        return;
      }
      if NotPast(config, currentCount) {
        currentCount := Wrap64(currentCount + config.step());
        log := log + [Ticked];
      }
      if Wrap64(currentCount - config.step()) == config.stopCount {
        log := log + [Finished];
        Cancel(false);
      }
    }

    /** Away from overflow, how far the count has moved from the start count in the counting direction. */
    function TickedTime(): (r: int)
      reads this
      ensures InLong(r)
      ensures InLong(config.startCount - currentCount) && InLong(currentCount - config.startCount) ==>
                r == (currentCount - config.startCount) * config.step()
    {
      if InLong(config.startCount - currentCount) && InLong(currentCount - config.startCount) then
        Counters.TickedCountIsDistance(config.startCount, config.step(), currentCount);
        Counters.TickedCount(config.startCount, config.step(), currentCount)
      else Counters.TickedCount(config.startCount, config.step(), currentCount)
    }

    method SetCurrentCount(count: int)
      requires Valid() && InLong(count)
      modifies this
      ensures Valid() && State() == old(State()).(current := count)
    {
      currentCount := count;
    }
  }

  /** `build()`: the constructor's checks, then a fresh idle counter. */
  method Build(scheduler: Option<Scheduler>, startCount: int, stopCount: int, tick: int, tickUnit: Option<TimeUnit>)
    returns (r: Result<CounterImpl>)
    requires InLong(startCount) && InLong(stopCount) && InLong(tick)
    ensures Create(scheduler, startCount, stopCount, tick, tickUnit).Err? ==>
      r == Err(Create(scheduler, startCount, stopCount, tick, tickUnit).error)
    ensures Create(scheduler, startCount, stopCount, tick, tickUnit).Ok? ==>
      r.Ok? && fresh(r.value) && r.value.Valid() && r.value.State() == Initial &&
      r.value.config == Create(scheduler, startCount, stopCount, tick, tickUnit).value
  {
    var config := Create(scheduler, startCount, stopCount, tick, tickUnit);
    if config.Err? {
      return Err(config.error);
    }
    var counter := new CounterImpl(config.value);
    return Ok(counter);
  }
}
