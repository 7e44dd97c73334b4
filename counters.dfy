// What the counters and countdowns have in common: a status, the current
// count, whether a repeating task is scheduled, and the handler calls made
// so far. The scheduler drives the counters by firing their tick; here the
// environment calls the tick explicitly.
module Counters {
  import opened JavaLang

  datatype CounterStatus = IDLING | RUNNING | PAUSED

  /** `java.util.concurrent.TimeUnit`: the unit of the tick period. */
  datatype TimeUnit = NANOSECONDS | MICROSECONDS | MILLISECONDS | SECONDS | MINUTES | HOURS | DAYS

  /**
   * A call of one of the four handlers. A handler that is null is not
   * called; since it would observe nothing, the trace is the same as for a
   * handler that does nothing.
   */
  datatype Event = Started | Ticked | Finished | Cancelled

  datatype CounterState = CounterState(current: int, status: CounterStatus, task: bool, log: seq<Event>)

  /** The scheduler or executor a counter hands its repeating task to; `None` is `null`. */
  datatype Scheduler = Scheduler

  /** What a counter is built with: the start and stop count and the tick period. */
  datatype Config = Config(startCount: int, stopCount: int, tick: int, tickUnit: TimeUnit)
  {
    /** The counting direction `stopCount > startCount ? 1 : -1`. */
    function step(): int { Step(startCount, stopCount) }

    /** Every value is a Java `long` and the tick is positive, as the constructor checks. */
    predicate Valid() {
      InLong(startCount) && InLong(stopCount) && InLong(tick) && tick > 0
    }
  }

  /** A freshly built counter: idling, no task, count 0, nothing called yet. */
  const Initial := CounterState(0, IDLING, false, [])

  /** The counting direction: up when the stop count lies above the start count, down otherwise (also when they are equal). */
  function Step(startCount: int, stopCount: int): (r: int)
    ensures r == 1 || r == -1
    ensures r == 1 <==> stopCount > startCount
    ensures r == -1 <==> stopCount <= startCount
  {
    if stopCount > startCount then 1 else -1
  }

  /** A task is scheduled exactly while the counter is not idling. */
  predicate TaskWhileActive(s: CounterState)
  {
    s.task <==> s.status != IDLING
  }

  /** `pause`: only a running counter pauses; nothing but the status changes. */
  function PauseState(s: CounterState): (r: CounterState)
    ensures s.status == RUNNING ==> r.status == PAUSED
    ensures s.status != RUNNING ==> r == s
    ensures r.(status := s.status) == s
    ensures TaskWhileActive(s) ==> TaskWhileActive(r)
  {
    if s.status != RUNNING then s else s.(status := PAUSED)
  }

  /** `resume`: only a paused counter resumes; nothing but the status changes. */
  function ResumeState(s: CounterState): (r: CounterState)
    ensures s.status == PAUSED ==> r.status == RUNNING
    ensures s.status != PAUSED ==> r == s
    ensures r.(status := s.status) == s
    ensures TaskWhileActive(s) ==> TaskWhileActive(r)
  {
    if s.status != PAUSED then s else s.(status := RUNNING)
  }

  /**
   * `cancel(callback)`: the counter idles; if a task is present it is
   * cancelled and cleared, and only then does the callback (the cancel
   * handler, when one is passed) run.
   */
  function CancelState(s: CounterState, withHandler: bool): (r: CounterState)
    ensures r.status == IDLING && !r.task && r.current == s.current
    ensures r.log == s.log + (if s.task && withHandler then [Cancelled] else [])
  {
    var idle := s.(status := IDLING);
    if !s.task then idle
    else idle.(task := false, log := if withHandler then s.log + [Cancelled] else s.log)
  }

  /** `stop`: an idling counter is left alone; otherwise it is cancelled with the cancel handler. */
  function StopState(s: CounterState): (r: CounterState)
    ensures s.status == IDLING ==> r == s
    ensures s.status != IDLING ==>
      r.status == IDLING && !r.task && r.current == s.current &&
      r.log == s.log + (if s.task then [Cancelled] else [])
    ensures TaskWhileActive(s) ==> TaskWhileActive(r)
  {
    if s.status == IDLING then s else CancelState(s, true)
  }

  /** `(startCount - currentCount) * -step` in `long` arithmetic. */
  function TickedCount(startCount: int, step: int, current: int): int
  {
    Wrap64(Wrap64(startCount - current) * -step)
  }

  /** Away from overflow, the ticked count is how far the count has moved from the start in the counting direction. */
  lemma TickedCountIsDistance(startCount: int, step: int, current: int)
    requires step == 1 || step == -1
    requires InLong(startCount - current) && InLong(current - startCount)
    ensures TickedCount(startCount, step, current) == (current - startCount) * step
    ensures (current - startCount) * step >= 0 ==>
      TickedCount(startCount, step, current) == if startCount <= current then current - startCount else startCount - current
  {
    assert Wrap64(startCount - current) == startCount - current;
    if step == 1 {
      assert (startCount - current) * -step == current - startCount;
    } else {
      assert (startCount - current) * -step == startCount - current;
    }
  }

  /** `n` calls of the tick handler. */
  function Ticks(n: nat): (r: seq<Event>)
    ensures |r| == n && forall i :: 0 <= i < n ==> r[i] == Ticked
  {
    if n == 0 then []
    else
      var r := Ticks(n - 1) + [Ticked];
      assert forall i :: 0 <= i < n - 1 ==> r[i] == Ticks(n - 1)[i];
      r
  }

  /** The state after the scheduler has fired `tick` `n` times. */
  function Iterate(tick: CounterState -> CounterState, s: CounterState, n: nat): CounterState
  {
    if n == 0 then s else tick(Iterate(tick, s, n - 1))
  }

  /** One more firing after `n` firings that reached `mid`. */
  lemma IterateThen(tick: CounterState -> CounterState, s: CounterState, n: nat, mid: CounterState, last: CounterState)
    requires Iterate(tick, s, n) == mid && tick(mid) == last
    ensures Iterate(tick, s, n + 1) == last
  {
  }

  /** Away from overflow the counters move one unit at a time: the count after `k` steps. */
  function Position(startCount: int, step: int, k: nat): int
  {
    if step == 1 then startCount + k else startCount - k
  }

  /** The number of units between the start and the stop count. */
  function Distance(startCount: int, stopCount: int): nat
  {
    if startCount <= stopCount then stopCount - startCount else startCount - stopCount
  }

  /** Start and stop counts one unit away from both ends of the `long` range, so every count a run visits is a `long`. */
  predicate Roomy(startCount: int, stopCount: int)
  {
    -0x8000_0000_0000_0000 + 2 <= startCount <= 0x7FFF_FFFF_FFFF_FFFF - 2 &&
    -0x8000_0000_0000_0000 + 2 <= stopCount <= 0x7FFF_FFFF_FFFF_FFFF - 2
  }
}
