// The two counting runnables of the task module: a count that grows by a
// fixed step each time the runnable runs and a condition allows it, and a
// callback. The condition's answer for each run is a parameter.
module CountingRunnables {
  import opened JavaLang

  /** `long` addition wraps, so adding in two steps is adding once. */
  lemma Wrap64Add(a: int, b: int)
    ensures Wrap64(Wrap64(a) + b) == Wrap64(a + b)
  {
    var w := Wrap64(a);
    var k := (a - w) / 0x1_0000_0000_0000_0000;
    assert a - w == k * 0x1_0000_0000_0000_0000;
    ModShift(a + b, k);
  }

  /** Shifting by a multiple of 2^64 keeps the remainder. */
  lemma ModShift(x: int, k: int)
    ensures (x - k * 0x1_0000_0000_0000_0000) % 0x1_0000_0000_0000_0000 == x % 0x1_0000_0000_0000_0000
  {
    var y := x - k * 0x1_0000_0000_0000_0000;
    var t := y / 0x1_0000_0000_0000_0000 - x / 0x1_0000_0000_0000_0000 + k;
    assert 0x1_0000_0000_0000_0000 * t == x % 0x1_0000_0000_0000_0000 - y % 0x1_0000_0000_0000_0000;
  }

  /** `n` steps added up, without multiplying. */
  function Times(step: int, n: nat): (r: int)
    ensures r == step * n
  {
    if n == 0 then 0 else Times(step, n - 1) + step
  }

  /** One allowed run more adds one step more. */
  lemma TimesStep(step: int, n: nat, m: nat, allowed: bool)
    requires m == n + if allowed then 1 else 0
    ensures Times(step, m) == if allowed then Times(step, n) + step else Times(step, n)
  {
  }

  /** How many runs the condition allowed. */
  function Allowed(conditions: seq<bool>): (n: nat)
    ensures n <= |conditions|
  {
    if |conditions| == 0 then 0
    else Allowed(conditions[..|conditions| - 1]) + if conditions[|conditions| - 1] then 1 else 0
  }

  // -------------------------------------------------------------------
  // org.aero.common.task.count.AbstractCountingRunnable

  /** The count and the number of times the callback has run. */
  datatype AbstractState = AbstractState(count: int, callbacks: nat)

  /** `run()`: the count grows by the step when the condition holds; the callback runs every time. */
  function AbstractRun(step: int, s: AbstractState, condition: bool): (r: AbstractState)
    ensures r.callbacks == s.callbacks + 1
    ensures condition ==> r.count == Wrap64(s.count + step)
    ensures !condition ==> r.count == s.count
  {
    AbstractState(if condition then Wrap64(s.count + step) else s.count, s.callbacks + 1)
  }

  /** Running once per condition answer, in order. */
  function AbstractRuns(step: int, s: AbstractState, conditions: seq<bool>): AbstractState
  {
    if |conditions| == 0 then s
    else AbstractRun(step, AbstractRuns(step, s, conditions[..|conditions| - 1]), conditions[|conditions| - 1])
  }

  /** After any sequence of runs the count has grown by one step per allowed run, and the callback ran on every run. */
  lemma {:induction false} AbstractRunsCount(step: int, s: AbstractState, conditions: seq<bool>)
    requires InLong(s.count)
    ensures AbstractRuns(step, s, conditions) ==
      AbstractState(Wrap64(s.count + Times(step, Allowed(conditions))), s.callbacks + |conditions|)
  {
    if |conditions| == 0 {
      assert Wrap64(s.count) == s.count;
    } else {
      var init := conditions[..|conditions| - 1];
      var last := conditions[|conditions| - 1];
      AbstractRunsCount(step, s, init);
      assert AbstractRuns(step, s, conditions) == AbstractRun(step, AbstractRuns(step, s, init), last);
      assert Allowed(conditions) == Allowed(init) + if last then 1 else 0;
      TimesStep(step, Allowed(init), Allowed(conditions), last);
      RunOnTop(step, s.count, s.callbacks + |init|, Times(step, Allowed(init)), Times(step, Allowed(conditions)), last);
    }
  }

  /** One more run after runs that added `grown` to `base`: an allowed run adds the step once more. */
  lemma RunOnTop(step: int, base: int, callbacks: nat, grown: int, regrown: int, allowed: bool)
    requires regrown == if allowed then grown + step else grown
    ensures AbstractRun(step, AbstractState(Wrap64(base + grown), callbacks), allowed) ==
      AbstractState(Wrap64(base + regrown), callbacks + 1)
  {
    if allowed {
      Wrap64Add(base + grown, step);
    }
  }

  class AbstractCountingRunnable {
    const step: int
    var count: int
    var callbacks: nat

    function State(): AbstractState
      reads this
    {
      AbstractState(count, callbacks)
    }

    /** The count starts at the constructor's value; the step never changes. */
    constructor (step: int, count: int)
      requires InInt(step) && InLong(count)
      ensures this.step == step && State() == AbstractState(count, 0)
    {
      this.step := step;
      this.count := count;
      callbacks := 0;
    }

    method Run(condition: bool)
      modifies this
      ensures State() == AbstractRun(step, old(State()), condition)
    {
      if condition {
        count := Wrap64(count + step);
      }
      callbacks := callbacks + 1;
    }

    /** `count(c)`: the next `count()` answers `c`. */
    method SetCount(c: int)
      requires InLong(c)
      modifies this
      ensures State() == old(State()).(count := c)
    {
      count := c;
    }
  }

  // -------------------------------------------------------------------
  // org.aero.common.task.CountingRunnable

  /** The count and the arguments the callback has been called with. */
  datatype RunnableState = RunnableState(count: int, callbackArguments: seq<bool>)

  /** The builder's values; a fresh builder has step 1 and initial count 0. */
  datatype Builder = Builder(step: int, initial: int)

  const DefaultBuilder := Builder(1, 0)

  /** `build()`: the count starts at the initial value and the callback has not run. */
  function Build(b: Builder): (r: RunnableState)
    ensures r.count == b.initial && r.callbackArguments == []
  {
    RunnableState(b.initial, [])
  }

  /**
   * `run()`: when the condition holds the count grows by the step and the
   * callback is skipped; otherwise the callback gets `false` and the count
   * stays.
   */
  function RunOnce(step: int, s: RunnableState, condition: bool): (r: RunnableState)
    ensures condition ==> r == RunnableState(Wrap64(s.count + step), s.callbackArguments)
    ensures !condition ==> r == RunnableState(s.count, s.callbackArguments + [false])
  {
    if condition then s.(count := Wrap64(s.count + step))
    else s.(callbackArguments := s.callbackArguments + [condition])
  }

  function RunAll(step: int, s: RunnableState, conditions: seq<bool>): RunnableState
  {
    if |conditions| == 0 then s
    else RunOnce(step, RunAll(step, s, conditions[..|conditions| - 1]), conditions[|conditions| - 1])
  }

  /** `false`, `n` times. */
  function Falses(n: nat): (r: seq<bool>)
    ensures |r| == n && forall i :: 0 <= i < n ==> !r[i]
  {
    if n == 0 then []
    else
      var r := Falses(n - 1) + [false];
      assert forall i :: 0 <= i < n - 1 ==> r[i] == Falses(n - 1)[i];
      r
  }

  /**
   * After any sequence of runs the count has grown by one step per allowed
   * run, and the callback was called, always with `false`, once per refused
   * run.
   */
  lemma {:induction false} RunAllCounts(step: int, s: RunnableState, conditions: seq<bool>)
    requires InLong(s.count)
    ensures RunAll(step, s, conditions) ==
      RunnableState(Wrap64(s.count + Times(step, Allowed(conditions))),
                    s.callbackArguments + Falses(|conditions| - Allowed(conditions)))
  {
    if |conditions| == 0 {
      assert Wrap64(s.count) == s.count;
      assert s.callbackArguments + Falses(0) == s.callbackArguments;
    } else {
      var init := conditions[..|conditions| - 1];
      var last := conditions[|conditions| - 1];
      RunAllCounts(step, s, init);
      var n := Allowed(init);
      assert RunAll(step, s, conditions) == RunOnce(step, RunAll(step, s, init), last);
      assert Allowed(conditions) == n + if last then 1 else 0;
      TimesStep(step, n, Allowed(conditions), last);
      RunOnceOnTop(step, s.count, s.callbackArguments, Times(step, n), Times(step, Allowed(conditions)),
        |init| - n, |conditions| - Allowed(conditions), last);
    }
  }

  /**
   * One more run after runs that added `grown` to `base` and were refused
   * `refused` times: an allowed run adds the step once more, a refused one
   * calls back with `false` once more.
   */
  lemma RunOnceOnTop(step: int, base: int, arguments: seq<bool>, grown: int, regrown: int, refused: nat, rerefused: nat, allowed: bool)
    requires regrown == if allowed then grown + step else grown
    requires rerefused == if allowed then refused else refused + 1
    ensures RunOnce(step, RunnableState(Wrap64(base + grown), arguments + Falses(refused)), allowed) ==
      RunnableState(Wrap64(base + regrown), arguments + Falses(rerefused))
  {
    if allowed {
      Wrap64Add(base + grown, step);
    } else {
      assert arguments + Falses(refused) + [false] == arguments + Falses(rerefused);
    }
  }

  /** The two runnables count alike: only the callback differs. */
  lemma SameCount(step: int, count: int, conditions: seq<bool>)
    requires InLong(count)
    ensures RunAll(step, RunnableState(count, []), conditions).count == AbstractRuns(step, AbstractState(count, 0), conditions).count
  {
    RunAllCounts(step, RunnableState(count, []), conditions);
    AbstractRunsCount(step, AbstractState(count, 0), conditions);
  }

  class CountingRunnable {
    const step: int
    var count: int
    var callbackArguments: seq<bool>

    function State(): RunnableState
      reads this
    {
      RunnableState(count, callbackArguments)
    }

    constructor (b: Builder)
      requires InInt(b.step) && InLong(b.initial)
      ensures step == b.step && State() == Build(b)
    {
      step := b.step;
      count := b.initial;
      callbackArguments := [];
    }

    method Run(condition: bool)
      modifies this
      ensures State() == RunOnce(step, old(State()), condition)
    {
      var result := condition;
      if result {
        count := Wrap64(count + step);
        return;
      }
      callbackArguments := callbackArguments + [result];
    }

    /** `count(c)`: the next `count()` answers `c`. */
    method SetCount(c: int)
      requires InLong(c)
      modifies this
      ensures State() == old(State()).(count := c)
    {
      count := c;
    }
  }
}
