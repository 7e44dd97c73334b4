// The scheduler's task handle and the schedule supplier its builder hands to
// the scheduler. org.aero.common.task.scheduler.TaskImpl and
// org.conelux.common.core.scheduler.TaskImpl behave identically; this module
// models both. The scheduler itself (its threads and timers) is not modelled:
// it is the caller of the supplier's `get`, and the runnable it eventually
// runs is recorded only by how often it ran.
module SchedulerTask {
  import opened JavaLang
  import AeroCheck

  datatype TaskStatus = SCHEDULED | CANCELLED | FINISHED

  /** `TaskSchedule`: wait for a duration (in nanoseconds), wait for a future, run now, or stop repeating. */
  datatype TaskSchedule = Duration(nanos: int) | Future(future: nat) | Immediate | Stop

  /** The two flags of a task handle. */
  datatype TaskState = TaskState(alive: bool, done: bool)

  /** A task as the scheduler creates it: alive and not done. */
  const NewTask := TaskState(true, false)

  /** `status()`: finished wins over cancelled, which wins over scheduled. */
  function Status(t: TaskState): (r: TaskStatus)
    ensures r == FINISHED <==> t.done
    ensures r == CANCELLED <==> !t.done && !t.alive
    ensures r == SCHEDULED <==> !t.done && t.alive
  {
    if t.done then FINISHED
    else if !t.alive then CANCELLED
    else SCHEDULED
  }

  /** `cancel()`: the task is no longer alive; `done` is untouched. */
  function CancelState(t: TaskState): (r: TaskState)
    ensures !r.alive && r.done == t.done
  {
    t.(alive := false)
  }

  /** `done()`: marks the task done and cancels it. */
  function DoneState(t: TaskState): (r: TaskState)
    ensures r.done && !r.alive
  {
    CancelState(t.(done := true))
  }

  /**
   * A new task is scheduled; cancelling leaves it cancelled unless it was
   * already finished; after `done` it is finished and not alive, and stays
   * finished whatever is called next.
   */
  lemma Lifecycle(t: TaskState)
    ensures Status(NewTask) == SCHEDULED
    ensures Status(CancelState(t)) == (if t.done then FINISHED else CANCELLED)
    ensures Status(DoneState(t)) == FINISHED && !DoneState(t).alive
    ensures Status(CancelState(DoneState(t))) == FINISHED && Status(DoneState(DoneState(t))) == FINISHED
  {
  }

  /** The builder's two schedules. */
  datatype Builder = Builder(delay: TaskSchedule, repeat: TaskSchedule)

  /** A new builder: no delay, and no repetition. */
  const NewBuilder := Builder(Immediate, Stop)

  /** `delay(schedule)`: a null schedule is an IllegalArgumentException; otherwise it replaces the delay. */
  function Delay(b: Builder, schedule: Option<TaskSchedule>): (r: Result<Builder>)
    ensures r.Err? <==> schedule.None?
    ensures r.Err? ==> r.error == IllegalArgumentException
    ensures r.Ok? ==> r.value == b.(delay := schedule.value)
  {
    match AeroCheck.NotNull(schedule, "schedule")
    case Some(f) => Err(f.exception)
    case None => Ok(b.(delay := schedule.value))
  }

  /** `repeat(schedule)`: a null schedule is an IllegalArgumentException; otherwise it replaces the repetition. */
  function Repeat(b: Builder, schedule: Option<TaskSchedule>): (r: Result<Builder>)
    ensures r.Err? <==> schedule.None?
    ensures r.Err? ==> r.error == IllegalArgumentException
    ensures r.Ok? ==> r.value == b.(repeat := schedule.value)
  {
    match AeroCheck.NotNull(schedule, "schedule")
    case Some(f) => Err(f.exception)
    case None => Ok(b.(repeat := schedule.value))
  }

  /**
   * The anonymous supplier: the two schedules captured when `schedule` was
   * called, its `first` flag, and how often it has run the runnable.
   */
  datatype SupplierState = SupplierState(delay: TaskSchedule, repeat: TaskSchedule, first: bool, runs: nat)

  /** The done callback passed to `schedule`; `None` is `null`. */
  datatype Callback = Callback(id: nat)

  /** `schedule(doneCallback)`: a fresh supplier over the builder's current schedules; the callback is not used. */
  function Schedule(b: Builder, doneCallback: Option<Callback>): (r: SupplierState)
    ensures r.first && r.runs == 0 && r.delay == b.delay && r.repeat == b.repeat
  {
    SupplierState(b.delay, b.repeat, true, 0)
  }

  /** Whatever done callback is passed, the supplier is the same. */
  lemma DoneCallbackIgnored(b: Builder, x: Option<Callback>, y: Option<Callback>)
    ensures Schedule(b, x) == Schedule(b, y)
  {
  }

  /**
   * `get()`: the first call returns the delay without running the
   * runnable; every later call runs it once and returns the repetition.
   */
  function GetState(s: SupplierState): (r: (TaskSchedule, SupplierState))
    ensures s.first ==> r == (s.delay, s.(first := false))
    ensures !s.first ==> r == (s.repeat, s.(runs := s.runs + 1))
  {
    if s.first then (s.delay, s.(first := false))
    else (s.repeat, s.(runs := s.runs + 1))
  }

  /** The schedules returned by `n` calls of `get`, and the supplier after them. */
  function Gets(s: SupplierState, n: nat): (seq<TaskSchedule>, SupplierState)
  {
    if n == 0 then ([], s)
    else
      var (out, t) := Gets(s, n - 1);
      var (x, u) := GetState(t);
      (out + [x], u)
  }

  /**
   * On a freshly scheduled supplier, `n > 0` calls of `get` return the delay
   * once and then the repetition `n - 1` times, and run the runnable `n - 1`
   * times: the runnable never runs before the delay has been handed out.
   */
  lemma {:induction false} GetsDelayThenRepeat(b: Builder, doneCallback: Option<Callback>, n: nat)
    requires n > 0
    ensures var (out, t) := Gets(Schedule(b, doneCallback), n);
      |out| == n && out[0] == b.delay &&
      (forall i :: 1 <= i < n ==> out[i] == b.repeat) &&
      t == SupplierState(b.delay, b.repeat, false, n - 1)
  {
    if n > 1 {
      GetsDelayThenRepeat(b, doneCallback, n - 1);
      var (out, t) := Gets(Schedule(b, doneCallback), n - 1);
      assert Gets(Schedule(b, doneCallback), n) == (out + [b.repeat], t.(runs := t.runs + 1));
    }
  }

  /** The task handle with its two flags. */
  class Task {
    var alive: bool
    var done: bool

    function State(): TaskState
      reads this
    {
      TaskState(alive, done)
    }

    constructor ()
      ensures State() == NewTask
    {
      alive := true;
      done := false;
    }

    function CurrentStatus(): (r: TaskStatus)
      reads this
      ensures r == Status(State())
    {
      if done then FINISHED else if !alive then CANCELLED else SCHEDULED
    }

    method Cancel()
      modifies this
      ensures State() == CancelState(old(State()))
    {
      alive := false;
    }

    method Done()
      modifies this
      ensures State() == DoneState(old(State()))
    {
      done := true;
      Cancel();
    }
  }

  /** The supplier object, whose `first` flag is cleared by the first `get`. */
  class ScheduleSupplier {
    const delay: TaskSchedule
    const repeat: TaskSchedule
    var first: bool
    var runs: nat

    function State(): SupplierState
      reads this
    {
      SupplierState(delay, repeat, first, runs)
    }

    constructor (b: Builder, doneCallback: Option<Callback>)
      ensures State() == Schedule(b, doneCallback)
    {
      delay := b.delay;
      repeat := b.repeat;
      first := true;
      runs := 0;
    }

    method Get() returns (schedule: TaskSchedule)
      modifies this
      ensures (schedule, State()) == GetState(old(State()))
    {
      if first {
        first := false;
        return delay;
      }
      runs := runs + 1;
      return repeat;
    }
  }
}
