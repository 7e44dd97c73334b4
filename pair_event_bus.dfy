// de.natrox.eventbus.EventBusImpl: a `CopyOnWriteArraySet` of (event type,
// listener) pairs, which iterates in insertion order and compares pairs by
// `equals` on both components. The default methods of
// the de.natrox.event.EventBus interface, which only compose calls, are
// modelled here too.
module PairEventBus {
  import opened JavaLang
  import opened EventListeners
  import NatroxCheck

  type Entry = (Cls, Listener)

  predicate Distinct(s: seq<Entry>)
  {
    forall i, j :: 0 <= i < j < |s| ==> s[i] != s[j]
  }

  /** `register(l)`: the pair (type of `l`, `l`) is added unless it is already there. */
  function RegisterState(s: seq<Entry>, l: Listener): (r: seq<Entry>)
    ensures Distinct(s) ==> Distinct(r)
    ensures (l.eventType, l) in r
    ensures forall x :: x in r <==> x in s || x == (l.eventType, l)
  {
    if (l.eventType, l) in s then s else s + [(l.eventType, l)]
  }

  /** The entries `removeIf` keeps, in order. */
  function Keep(s: seq<Entry>, keep: Entry -> bool): (r: seq<Entry>)
    ensures forall x :: x in r <==> x in s && keep(x)
    ensures Distinct(s) ==> Distinct(r)
  {
    if |s| == 0 then []
    else
      var rest := Keep(s[1..], keep);
      assert s == [s[0]] + s[1..];
      DistinctStep(s, rest);
      if keep(s[0]) then [s[0]] + rest else rest
  }

  lemma DistinctStep(s: seq<Entry>, rest: seq<Entry>)
    requires |s| > 0 && forall x :: x in rest ==> x in s[1..]
    ensures Distinct(s) ==> Distinct(s[1..])
    ensures Distinct(s) && Distinct(rest) ==> Distinct([s[0]] + rest)
  {
    if Distinct(s) && Distinct(rest) {
      var r := [s[0]] + rest;
      forall i, j | 0 <= i < j < |r| ensures r[i] != r[j] {
        assert r[j] == rest[j - 1] && r[j] in rest;
        if i == 0 {
          var k :| 0 <= k < |s[1..]| && s[1..][k] == r[j];
          assert s[k + 1] == r[j];
        } else {
          assert r[i] == rest[i - 1];
        }
      }
    }
  }

  /** `unregister(l)`: every pair whose listener equals `l` goes. */
  function UnregisterState(s: seq<Entry>, l: Listener): (r: seq<Entry>)
    ensures forall x :: x in r <==> x in s && x.1 != l
  {
    Keep(s, (x: Entry) => x.1 != l)
  }

  /** `unregisterIf(p)`: every pair whose listener `p` accepts goes. */
  function UnregisterIfState(s: seq<Entry>, p: Listener -> bool): (r: seq<Entry>)
    ensures forall x :: x in r <==> x in s && !p(x.1)
  {
    Keep(s, (x: Entry) => !p(x.1))
  }

  /** `has(l)`: some stored pair's listener equals `l`. */
  predicate HasState(s: seq<Entry>, l: Listener)
  {
    exists i :: 0 <= i < |s| && s[i].1 == l
  }

  /** `call(event)`: each pair, in insertion order, whose type is assignable from the event's class hands the event to its listener. */
  function CallPairs(s: seq<Entry>, e: Event, tests: Tests): (Event, seq<Call>)
  {
    if |s| == 0 then (e, [])
    else
      var (e1, c1) := CallPairs(s[..|s| - 1], e, tests);
      var x := s[|s| - 1];
      if !IsAssignableFrom(x.0, e.cls) then (e1, c1)
      else
        var (e2, c2) := Handle(x.1, e1, tests);
        (e2, c1 + c2)
  }

  /** Registering is idempotent, after it `has` holds, and `unregister` removes the listener under any type while keeping every other pair. */
  lemma RegisterUnregister(s: seq<Entry>, l: Listener, other: Entry)
    ensures RegisterState(RegisterState(s, l), l) == RegisterState(s, l)
    ensures HasState(RegisterState(s, l), l)
    ensures !HasState(UnregisterState(s, l), l)
    ensures other in s && other.1 != l ==> other in UnregisterState(s, l)
  {
    var r := RegisterState(s, l);
    var k :| 0 <= k < |r| && r[k] == (l.eventType, l);
    assert r[k].1 == l;
    var u := UnregisterState(s, l);
    forall i | 0 <= i < |u| ensures u[i].1 != l {
      assert u[i] in u;
    }
  }

  /** The calls made when each pair's listener runs its handler once, in insertion order. */
  function PairCalls(s: seq<Entry>, e: Event): (r: seq<Call>)
    requires forall i :: 0 <= i < |s| ==> HandlerOf(s[i].1).Some?
    ensures |r| == |s| && forall i :: 0 <= i < |s| ==> r[i] == Handled(HandlerOf(s[i].1).value.id, e.id)
  {
    seq(|s|, i requires 0 <= i < |s| => Handled(HandlerOf(s[i].1).value.id, e.id))
  }

  /**
   * For an event that cannot be cancelled, where every pair's type is
   * assignable from its class and every listener accepts it, each listener
   * runs once, in the order of registration.
   */
  lemma {:induction false} CallsInRegistrationOrder(s: seq<Entry>, e: Event, tests: Tests)
    requires !e.cancellable
    requires forall i :: 0 <= i < |s| ==> IsAssignableFrom(s[i].0, e.cls) && Fires(s[i].1, e, tests)
    ensures forall i :: 0 <= i < |s| ==> HandlerOf(s[i].1).Some?
    ensures CallPairs(s, e, tests) == (e, PairCalls(s, e))
  {
    if |s| > 0 {
      var front := s[..|s| - 1];
      assert forall i :: 0 <= i < |front| ==> front[i] == s[i];
      CallsInRegistrationOrder(front, e, tests);
      var last := s[|s| - 1];
      assert Handle(last.1, e, tests) == (e, [Handled(HandlerOf(last.1).value.id, e.id)]);
      assert PairCalls(front, e) + [Handled(HandlerOf(last.1).value.id, e.id)] == PairCalls(s, e);
    }
  }

  /** The bus object. */
  class Bus {
    var listeners: seq<Entry>

    constructor ()
      ensures listeners == []
    {
      listeners := [];
    }

    /** `register(l)`: a null listener is a NullPointerException. */
    method Register(l: Option<Listener>) returns (thrown: Option<Exception>)
      modifies this
      ensures l.None? ==> thrown == Some(NullPointerException) && listeners == old(listeners)
      ensures l.Some? ==> thrown == None && listeners == RegisterState(old(listeners), l.value)
    {
      var failure := NatroxCheck.NotNull(l, "listener");
      if failure.Some? {
        return Some(failure.value.exception);
      }
      if (l.value.eventType, l.value) !in listeners {
        listeners := listeners + [(l.value.eventType, l.value)];
      }
      thrown := None;
    }

    method Unregister(l: Option<Listener>) returns (thrown: Option<Exception>)
      modifies this
      ensures l.None? ==> thrown == Some(NullPointerException) && listeners == old(listeners)
      ensures l.Some? ==> thrown == None && listeners == UnregisterState(old(listeners), l.value)
    {
      var failure := NatroxCheck.NotNull(l, "listener");
      if failure.Some? {
        return Some(failure.value.exception);
      }
      var listener := l.value;
      listeners := Keep(listeners, (x: Entry) => x.1 != listener);
      thrown := None;
    }

    method UnregisterIf(p: Option<Listener -> bool>) returns (thrown: Option<Exception>)
      modifies this
      ensures p.None? ==> thrown == Some(NullPointerException) && listeners == old(listeners)
      ensures p.Some? ==> thrown == None && listeners == UnregisterIfState(old(listeners), p.value)
    {
      var failure := NatroxCheck.NotNull(p, "predicate");
      if failure.Some? {
        return Some(failure.value.exception);
      }
      var test := p.value;
      listeners := Keep(listeners, (x: Entry) => !test(x.1));
      thrown := None;
    }

    /** `has(l)`: the loop over the pairs that returns at the first match. */
    method Has(l: Option<Listener>) returns (thrown: Option<Exception>, found: bool)
      ensures l.None? ==> thrown == Some(NullPointerException) && !found
      ensures l.Some? ==> thrown == None && (found <==> HasState(listeners, l.value))
    {
      var failure := NatroxCheck.NotNull(l, "listener");
      if failure.Some? {
        return Some(failure.value.exception), false;
      }
      var i := 0;
      while i < |listeners|
        invariant 0 <= i <= |listeners|
        invariant forall k :: 0 <= k < i ==> listeners[k].1 != l.value
      {
        if listeners[i].1 == l.value {
          return None, true;
        }
        i := i + 1;
      }
      return None, false;
    }

    /** `call(event)`: a null event is a NullPointerException; the bus itself does not change. */
    method Call(event: Option<Event>, tests: Tests) returns (thrown: Option<Exception>, out: Event, calls: seq<Call>)
      ensures event.None? ==> thrown == Some(NullPointerException) && calls == []
      ensures event.Some? ==> thrown == None && (out, calls) == CallPairs(listeners, event.value, tests)
    {
      var failure := NatroxCheck.NotNull(event, "event");
      if failure.Some? {
        return Some(failure.value.exception), Event(0, OBJECT, false, false), [];
      }
      out, calls := event.value, [];
      var i := 0;
      while i < |listeners|
        invariant 0 <= i <= |listeners|
        invariant (out, calls) == CallPairs(listeners[..i], event.value, tests)
      {
        assert listeners[..i + 1][..i] == listeners[..i];
        var x := listeners[i];
        if IsAssignableFrom(x.0, event.value.cls) {
          var (next, made) := Handle(x.1, out, tests);
          out := next;
          calls := calls + made;
        }
        i := i + 1;
      }
      assert listeners[..i] == listeners;
      thrown := None;
    }
  }

  /** The `Runnable` callback of `callCancellable`; `None` is `null`. */
  datatype Callback = Callback(id: nat)

  /**
   * `callCancellable(event, callback)` on a bus whose `call` is `call`:
   * null arguments are NullPointerExceptions; the event is called first,
   * and the callback then runs unless the event is a cancelled
   * cancellable event.
   */
  function CallCancellable(call: Event -> (Event, seq<Call>), event: Option<Event>, callback: Option<Callback>): (r: Result<(Event, seq<Call>, bool)>)
    ensures r.Err? <==> event.None? || callback.None?
    ensures r.Err? ==> r.error == NullPointerException
    ensures r.Ok? ==> r.value.0 == call(event.value).0 && r.value.1 == call(event.value).1
    ensures r.Ok? ==> (r.value.2 <==> !(r.value.0.cancellable && r.value.0.cancelled))
  {
    match NatroxCheck.NotNull(event, "event")
    case Some(f) => Err(f.exception)
    case None =>
      match NatroxCheck.NotNull(callback, "callback")
      case Some(f) => Err(f.exception)
      case None =>
        var (after, calls) := call(event.value);
        Ok((after, calls, !(after.cancellable && after.cancelled)))
  }

  /** On this bus an event that cannot be cancelled always gets its callback run, once. */
  lemma CallbackRunsForPlainEvents(s: seq<Entry>, e: Event, tests: Tests, callback: Callback)
    requires !e.cancellable
    ensures CallCancellable(x => CallPairs(s, x, tests), Some(e), Some(callback)).Ok?
    ensures CallCancellable(x => CallPairs(s, x, tests), Some(e), Some(callback)).value.2
  {
    CallPairsKeepsEvent(s, e, tests);
  }

  lemma {:induction false} CallPairsKeepsEvent(s: seq<Entry>, e: Event, tests: Tests)
    requires !e.cancellable
    ensures CallPairs(s, e, tests).0 == e
  {
    if |s| > 0 {
      CallPairsKeepsEvent(s[..|s| - 1], e, tests);
    }
  }

  /**
   * `register(type, handler)`: null arguments are NullPointerExceptions;
   * otherwise it is `register` of `EventListener.of(type, handler)`, passed
   * here as `of`.
   */
  function RegisterHandler(s: seq<Entry>, eventType: Option<Cls>, handler: Option<Handler>, of: (Cls, Handler) -> Listener): (r: Result<seq<Entry>>)
    ensures r.Err? <==> eventType.None? || handler.None?
    ensures r.Err? ==> r.error == NullPointerException
    ensures r.Ok? ==> r.value == RegisterState(s, of(eventType.value, handler.value))
  {
    match NatroxCheck.NotNull(eventType, "type")
    case Some(f) => Err(f.exception)
    case None =>
      match NatroxCheck.NotNull(handler, "handler")
      case Some(f) => Err(f.exception)
      case None => Ok(RegisterState(s, of(eventType.value, handler.value)))
  }
}
