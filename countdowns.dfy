// The two countdowns: de.natrox.common.counter.Countdown (a `long` countdown
// with a status, whose handlers are overridable hooks) and
// de.notion.common.counter.Countdown (an `int` countdown with paused/running
// flags). Both start one above the start time and finish when the current
// time equals the stop time.
module NatroxCountdown {
  import opened JavaLang
  import opened Counters
  import NatroxCheck

  /** What the countdown is built with. Unlike the counters, the tick is not checked. */
  datatype Setup = Setup(startTime: int, stopTime: int, tick: int, tickUnit: TimeUnit)

  /** The constructor's checks: a null scheduler or tick unit is a NullPointerException. */
  function Create(scheduler: Option<Scheduler>, startTime: int, stopTime: int, tick: int, tickUnit: Option<TimeUnit>): (r: Result<Setup>)
    ensures r.Err? <==> scheduler.None? || tickUnit.None?
    ensures r.Err? ==> r.error == NullPointerException
    ensures r.Ok? ==> r.value == Setup(startTime, stopTime, tick, tickUnit.value)
  {
    match NatroxCheck.NotNull(scheduler, "scheduler")
    case Some(f) => Err(f.exception)
    case None =>
      match NatroxCheck.NotNull(tickUnit, "tickUnit")
      case Some(f) => Err(f.exception)
      case None => Ok(Setup(startTime, stopTime, tick, tickUnit.value))
  }

  /**
   * `start()`: with a task present it throws IllegalStateException and
   * changes nothing; otherwise the start hook runs, the current time is set
   * one above the start time, the task is scheduled and the countdown runs.
   */
  function StartState(c: Setup, s: CounterState): (r: Result<CounterState>)
    ensures r.Err? <==> s.task
    ensures r.Err? ==> r.error == IllegalStateException
    ensures r.Ok? ==> r.value == CounterState(Wrap64(c.startTime + 1), RUNNING, true, s.log + [Started])
  {
    if s.task then Err(IllegalStateException)
    else Ok(CounterState(Wrap64(c.startTime + 1), RUNNING, true, s.log + [Started]))
  }

  /** `stop()`: only a paused countdown stops, and the task is neither cancelled nor cleared. */
  function StopCountdownState(s: CounterState): (r: CounterState)
    ensures s.status == PAUSED ==> r == s.(status := IDLING)
    ensures s.status != PAUSED ==> r == s
  {
    if s.status == PAUSED then s.(status := IDLING) else s
  }

  /**
   * `tick()` with the amount taken off per tick as a parameter: nothing
   * unless running; above the stop time the current time drops by that
   * amount and the tick hook runs; then, at exactly the stop time, the
   * countdown idles, the finish hook runs and the task is cancelled.
   */
  function TickBy(c: Setup, s: CounterState, decrement: int): (r: CounterState)
    ensures s.status != RUNNING ==> r == s
    ensures s.status == RUNNING && s.current < c.stopTime ==> r == s
  {
    if s.status != RUNNING then s
    else
      var lowered := if s.current > c.stopTime then s.(current := Wrap64(s.current - decrement), log := s.log + [Ticked]) else s;
      if lowered.current == c.stopTime then CancelState(lowered.(status := IDLING, log := lowered.log + [Finished]), false)
      else lowered
  }

  /** `tick()` as written: the current time drops by the tick period value. */
  function TickStateAsWritten(c: Setup, s: CounterState): CounterState
  {
    TickBy(c, s, c.tick)
  }

  /** `tick()` as evidently intended (and as the notion countdown does it): the current time drops by one. */
  function TickState(c: Setup, s: CounterState): CounterState
  {
    TickBy(c, s, 1)
  }

  function Ticker(c: Setup): CounterState -> CounterState
  {
    s => TickState(c, s)
  }

  function TickerAsWritten(c: Setup): CounterState -> CounterState
  {
    s => TickStateAsWritten(c, s)
  }

  /**
   * As written, a countdown from 10 to 0 ticking every 3 units goes
   * 11, 8, 5, 2, -1 and then stays below the stop time: it never finishes
   * and its task is never cancelled.
   */
  lemma AsWrittenSkipsStop()
    ensures var c := Setup(10, 0, 3, SECONDS);
      var s := Iterate(TickerAsWritten(c), StartState(c, Initial).value, 4);
      s == CounterState(-1, RUNNING, true, [Started, Ticked, Ticked, Ticked, Ticked]) &&
      forall n: nat :: Iterate(TickerAsWritten(c), s, n) == s
  {
    var c := Setup(10, 0, 3, SECONDS);
    var s0 := StartState(c, Initial).value;
    assert s0 == CounterState(11, RUNNING, true, [Started]);
    var s1 := Iterate(TickerAsWritten(c), s0, 1);
    assert s1 == CounterState(8, RUNNING, true, [Started, Ticked]);
    var s2 := Iterate(TickerAsWritten(c), s0, 2);
    assert s2 == TickStateAsWritten(c, s1);
    assert s2 == CounterState(5, RUNNING, true, [Started, Ticked, Ticked]);
    var s3 := Iterate(TickerAsWritten(c), s0, 3);
    assert s3 == TickStateAsWritten(c, s2);
    assert s3 == CounterState(2, RUNNING, true, [Started, Ticked, Ticked, Ticked]);
    var s4 := Iterate(TickerAsWritten(c), s0, 4);
    assert s4 == TickStateAsWritten(c, s3);
    assert s4 == CounterState(-1, RUNNING, true, [Started, Ticked, Ticked, Ticked, Ticked]);
    forall n: nat ensures Iterate(TickerAsWritten(c), s4, n) == s4 {
      StaysBelowStop(c, s4, n);
    }
  }

  /** Once below the stop time a running countdown never moves again, whatever the decrement. */
  lemma {:induction false} StaysBelowStop(c: Setup, s: CounterState, n: nat)
    requires s.status == RUNNING && s.current < c.stopTime
    ensures Iterate(TickerAsWritten(c), s, n) == s
  {
    if n > 0 {
      StaysBelowStop(c, s, n - 1);
    }
  }

  /** Above the stop time each tick takes one off and runs the tick hook. */
  lemma {:induction false} CountsDown(c: Setup, log: seq<Event>, k: nat)
    requires InLong(c.startTime + 1) && InLong(c.stopTime) && c.stopTime <= c.startTime
    requires k <= c.startTime - c.stopTime
    ensures Iterate(Ticker(c), CounterState(c.startTime + 1, RUNNING, true, log), k) ==
      CounterState(c.startTime + 1 - k, RUNNING, true, log + Ticks(k))
  {
    if k > 0 {
      CountsDown(c, log, k - 1);
      assert log + Ticks(k - 1) + [Ticked] == log + Ticks(k);
    }
  }

  /**
   * The corrected countdown, started from a start time at or above the stop
   * time, runs the tick hook once per time from the start time down to the
   * stop time, then the finish hook, and idles with its task cancelled.
   */
  lemma WholeRun(c: Setup, s: CounterState)
    requires InLong(c.startTime + 1) && InLong(c.stopTime) && c.stopTime <= c.startTime && !s.task
    ensures var n := c.startTime - c.stopTime + 1;
      StartState(c, s).Ok? &&
      Iterate(Ticker(c), StartState(c, s).value, n) ==
      CounterState(c.stopTime, IDLING, false, s.log + [Started] + Ticks(n) + [Finished])
  {
    var log := s.log + [Started];
    var k := c.startTime - c.stopTime;
    assert StartState(c, s).value == CounterState(c.startTime + 1, RUNNING, true, log);
    CountsDown(c, log, k);
    assert log + Ticks(k) + [Ticked] + [Finished] == log + Ticks(k + 1) + [Finished];
  }

  /**
   * A stopped countdown keeps its task, so `start` keeps throwing; a running
   * one ignores `stop` altogether.
   */
  lemma StopKeepsTask(c: Setup, s: CounterState)
    requires s.task
    ensures s.status == PAUSED ==> StopCountdownState(s).status == IDLING
    ensures StopCountdownState(s).task
    ensures StartState(c, StopCountdownState(s)) == Err(IllegalStateException)
    ensures s.status == RUNNING ==> StopCountdownState(s) == s
  {
  }

  class Countdown {
    const setup: Setup
    var currentTime: int
    var status: CounterStatus
    var task: bool
    var log: seq<Event>

    function State(): CounterState
      reads this
    {
      CounterState(currentTime, status, task, log)
    }

    ghost predicate Valid()
      reads this
    {
      InLong(setup.startTime) && InLong(setup.stopTime) && InLong(setup.tick) && InLong(currentTime)
    }

    constructor (setup: Setup)
      requires InLong(setup.startTime) && InLong(setup.stopTime) && InLong(setup.tick)
      ensures this.setup == setup && State() == Initial && Valid()
    {
      this.setup := setup;
      currentTime := 0;
      status := IDLING;
      task := false;
      log := [];
    }

    method Start() returns (thrown: Option<Exception>)
      requires Valid()
      modifies this
      ensures Valid()
      ensures StartState(setup, old(State())).Err? ==> thrown == Some(IllegalStateException) && State() == old(State())
      ensures StartState(setup, old(State())).Ok? ==> thrown == None && State() == StartState(setup, old(State())).value
    {
      if task {
        return Some(IllegalStateException);
      }
      log := log + [Started];
      currentTime := Wrap64(setup.startTime + 1);
      task := true;
      status := RUNNING;
      thrown := None;
    }

    method Pause()
      modifies this
      ensures State() == PauseState(old(State()))
    {
      if status == RUNNING {
        status := PAUSED;
      }
    }

    method Resume()
      modifies this
      ensures State() == ResumeState(old(State()))
    {
      if status == PAUSED {
        status := RUNNING;
      }
    }

    method Stop()
      modifies this
      ensures State() == StopCountdownState(old(State()))
    {
      if status == PAUSED {
        status := IDLING;
      }
    }

    /** `cancel()`: the countdown idles and the task, if any, is cancelled and cleared. */
    method Cancel()
      modifies this
      ensures State() == CancelState(old(State()), false)
    {
      status := IDLING;
      task := false;
    }

    /** The scheduled task firing, with the corrected decrement of one. */
    method Tick()
      requires Valid()
      modifies this
      ensures Valid() && State() == TickState(setup, old(State()))
    {
      if status == RUNNING {
        if currentTime > setup.stopTime {
          currentTime := Wrap64(currentTime - 1);
          log := log + [Ticked];
        }
        if currentTime == setup.stopTime {
          status := IDLING;
          log := log + [Finished];
          Cancel();
        }
      }
    }

    /** `currentTime(time)`. */
    method SetCurrentTime(time: int)
      requires Valid() && InLong(time)
      modifies this
      ensures Valid() && State() == old(State()).(current := time)
    {
      currentTime := time;
    }
  }
}

module NotionCountdown {
  import opened JavaLang
  import Counters

  type Event = Counters.Event

  /** The countdown's state: the flags replace the status of the other counters; `task` is whether the optional task is present. */
  datatype CountdownState = CountdownState(current: int, paused: bool, running: bool, task: bool, log: seq<Event>)

  const Initial := CountdownState(0, false, false, false, [])

  /** What `start()` leaves behind: the new state, and the exception it throws if any. */
  datatype StartOutcome = StartOutcome(state: CountdownState, thrown: Option<Exception>)

  /**
   * `start()`: with a task present it throws IllegalStateException and
   * changes nothing; otherwise `onStart` runs and the current time is set one
   * above the start time (in `int` arithmetic). Scheduling then refuses a
   * period that is not positive with an IllegalArgumentException, leaving no
   * task and the flags as they were; any other period schedules the task and
   * the countdown runs unpaused.
   */
  function StartState(startTime: int, tick: int, s: CountdownState): (r: StartOutcome)
    ensures r.thrown.None? <==> !s.task && tick > 0
    ensures s.task ==> r == StartOutcome(s, Some(IllegalStateException))
    ensures !s.task ==> r.state.current == Wrap32(startTime + 1) && r.state.log == s.log + [Counters.Started]
    ensures !s.task && tick <= 0 ==>
              r.thrown == Some(IllegalArgumentException) && r.state.(current := s.current, log := s.log) == s
    ensures r.thrown.None? ==> r.state.running && !r.state.paused && r.state.task
  {
    if s.task then StartOutcome(s, Some(IllegalStateException))
    else
      var begun := s.(current := Wrap32(startTime + 1), log := s.log + [Counters.Started]);
      if tick <= 0 then StartOutcome(begun, Some(IllegalArgumentException))
      else StartOutcome(begun.(paused := false, running := true, task := true), None)
  }

  /** `cancel()`: not running, and the task, if any, cancelled and removed. */
  function CancelState(s: CountdownState): (r: CountdownState)
    ensures r == s.(running := false, task := false)
  {
    s.(running := false, task := false)
  }

  /**
   * The scheduled lambda: only when unpaused and running; above the stop
   * time the current time drops by one and `onTick` runs; then, at exactly
   * the stop time, running is cleared, `onFinish` runs and the task is
   * cancelled.
   */
  function TickState(stopTime: int, s: CountdownState): (r: CountdownState)
    ensures s.paused || !s.running ==> r == s
  {
    if s.paused || !s.running then s
    else
      var lowered := if s.current > stopTime then s.(current := Wrap32(s.current - 1), log := s.log + [Counters.Ticked]) else s;
      if lowered.current == stopTime then CancelState(lowered.(running := false, log := lowered.log + [Counters.Finished]))
      else lowered
  }

  /** `pause()`: paused and not running, whatever the state before. */
  function PauseState(s: CountdownState): (r: CountdownState)
    ensures r.paused && !r.running && r.(paused := s.paused, running := s.running) == s
  {
    s.(paused := true, running := false)
  }

  /** `resume()`: running and not paused, whatever the state before. */
  function ResumeState(s: CountdownState): (r: CountdownState)
    ensures !r.paused && r.running && r.(paused := s.paused, running := s.running) == s
  {
    s.(paused := false, running := true)
  }

  /** `stop()`: only while running, cancel and then `onCancel`. */
  function StopState(s: CountdownState): (r: CountdownState)
    ensures !s.running ==> r == s
    ensures s.running ==> !r.running && !r.task && r.log == s.log + [Counters.Cancelled]
  {
    if !s.running then s
    else CancelState(s).(log := s.log + [Counters.Cancelled])
  }

  function Ticker(stopTime: int): CountdownState -> CountdownState
  {
    s => TickState(stopTime, s)
  }

  function Iterate(tick: CountdownState -> CountdownState, s: CountdownState, n: nat): CountdownState
  {
    if n == 0 then s else tick(Iterate(tick, s, n - 1))
  }

  /** Above the stop time each tick of a running countdown takes one off and runs `onTick`. */
  lemma {:induction false} CountsDown(startTime: int, stopTime: int, log: seq<Event>, k: nat)
    requires InInt(startTime + 1) && InInt(stopTime) && stopTime <= startTime && k <= startTime - stopTime
    ensures Iterate(Ticker(stopTime), CountdownState(startTime + 1, false, true, true, log), k) ==
      CountdownState(startTime + 1 - k, false, true, true, log + Counters.Ticks(k))
  {
    if k > 0 {
      CountsDown(startTime, stopTime, log, k - 1);
      assert log + Counters.Ticks(k - 1) + [Counters.Ticked] == log + Counters.Ticks(k);
    }
  }

  /**
   * Started from a start time at or above the stop time and never paused,
   * the countdown runs `onTick` once per time from the start time down to
   * the stop time, then `onFinish`, and ends without a task, so that it can
   * be started again.
   */
  lemma WholeRun(startTime: int, stopTime: int, tick: int, s: CountdownState)
    requires InInt(startTime + 1) && InInt(stopTime) && stopTime <= startTime && tick > 0 && !s.task
    ensures var n := startTime - stopTime + 1;
      var end := Iterate(Ticker(stopTime), StartState(startTime, tick, s).state, n);
      end == CountdownState(stopTime, false, false, false, s.log + [Counters.Started] + Counters.Ticks(n) + [Counters.Finished]) &&
      StartState(startTime, tick, end).thrown.None?
  {
    var log := s.log + [Counters.Started];
    var k := startTime - stopTime;
    assert StartState(startTime, tick, s).state == CountdownState(startTime + 1, false, true, true, log);
    CountsDown(startTime, stopTime, log, k);
    assert log + Counters.Ticks(k) + [Counters.Ticked] + [Counters.Finished] == log + Counters.Ticks(k + 1) + [Counters.Finished];
  }

  /**
   * A period that is not positive fails every start alike: each attempt
   * calls `onStart` again, and none leaves a task behind.
   */
  lemma RejectedPeriodRetries(startTime: int, tick: int, s: CountdownState)
    requires tick <= 0 && !s.task
    ensures var first := StartState(startTime, tick, s);
      var second := StartState(startTime, tick, first.state);
      first.thrown == second.thrown == Some(IllegalArgumentException) && !second.state.task &&
      second.state.log == s.log + [Counters.Started, Counters.Started]
  {
  }

  /**
   * Pausing stops the ticks and makes `stop` do nothing; resuming a running
   * countdown after pausing it restores it exactly.
   */
  lemma PauseAndResume(stopTime: int, s: CountdownState)
    ensures TickState(stopTime, PauseState(s)) == PauseState(s)
    ensures StopState(PauseState(s)) == PauseState(s)
    ensures s.running && !s.paused ==> ResumeState(PauseState(s)) == s
  {
  }

  /**
   * `resume` does not look at the state: on a countdown that never started
   * it sets running without a task, and a `stop` then calls `onCancel`.
   */
  lemma ResumeBeforeStart()
    ensures ResumeState(Initial).running && !ResumeState(Initial).task
    ensures StopState(ResumeState(Initial)).log == [Counters.Cancelled]
  {
  }

  class Countdown {
    const startTime: int
    const stopTime: int
    const tick: int
    var currentTime: int
    var paused: bool
    var running: bool
    var task: bool
    var log: seq<Event>

    function State(): CountdownState
      reads this
    {
      CountdownState(currentTime, paused, running, task, log)
    }

    ghost predicate Valid()
      reads this
    {
      InInt(startTime) && InInt(stopTime) && InInt(tick) && InInt(currentTime)
    }

    constructor (startTime: int, stopTime: int, tick: int)
      requires InInt(startTime) && InInt(stopTime) && InInt(tick)
      ensures this.startTime == startTime && this.stopTime == stopTime && this.tick == tick
      ensures State() == Initial && Valid()
    {
      this.startTime := startTime;
      this.stopTime := stopTime;
      this.tick := tick;
      currentTime := 0;
      paused := false;
      running := false;
      task := false;
      log := [];
    }

    method Start() returns (thrown: Option<Exception>)
      requires Valid()
      modifies this
      ensures Valid()
      ensures thrown == StartState(startTime, tick, old(State())).thrown
      ensures State() == StartState(startTime, tick, old(State())).state
    {
      if task {
        return Some(IllegalStateException);
      }
      log := log + [Counters.Started];
      currentTime := Wrap32(startTime + 1);
      if tick <= 0 {
        return Some(IllegalArgumentException);
      }
      task := true;
      running := true;
      paused := false;
      thrown := None;
    }

    method Pause()
      modifies this
      ensures State() == PauseState(old(State()))
    {
      paused := true;
      running := false;
    }

    method Resume()
      modifies this
      ensures State() == ResumeState(old(State()))
    {
      paused := false;
      running := true;
    }

    method Stop()
      modifies this
      ensures State() == StopState(old(State()))
    {
      if running {
        Cancel();
        log := log + [Counters.Cancelled];
      }
    }

    method Cancel()
      modifies this
      ensures State() == CancelState(old(State()))
    {
      running := false;
      task := false;
    }

    /** The scheduled lambda firing. */
    method Tick()
      requires Valid()
      modifies this
      ensures Valid() && State() == TickState(stopTime, old(State()))
    {
      if !paused && running {
        if currentTime > stopTime {
          currentTime := Wrap32(currentTime - 1);
          log := log + [Counters.Ticked];
        }
        if currentTime == stopTime {
          running := false;
          log := log + [Counters.Finished];
          Cancel();
        }
      }
    }

    method SetCurrentTime(time: int)
      requires Valid() && InInt(time)
      modifies this
      ensures Valid() && State() == old(State()).(current := time)
    {
      currentTime := time;
    }
  }
}
