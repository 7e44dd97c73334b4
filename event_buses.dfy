// The event buses. org.aero.common.event.EventBusImpl and
// org.conelux.event.EventBusImpl keep a map from event type to a `TreeSet`
// of listeners ordered by priority; they differ only in that the aero bus
// skips listeners that are not its own listener class. The
// de.natrox.eventbus bus keeps a set of (type, listener) pairs in insertion
// order. The iteration order of a `ConcurrentHashMap` is unspecified, so the
// order in which the tree buses visit the event types is a parameter.
module TreeEventBus {
  import opened JavaLang
  import opened EventListeners
  import AeroCheck

  /** A `TreeSet` ordered by `compareTo`: strictly ascending priorities, so at most one listener per priority. */
  predicate Sorted(ls: seq<Listener>)
  {
    forall i, j :: 0 <= i < j < |ls| ==> ls[i].priority < ls[j].priority
  }

  /** `contains(l)` on such a set: some element compares equal to `l`, that is, has its priority. */
  predicate Holds(ls: seq<Listener>, l: Listener)
  {
    exists x :: x in ls && x.priority == l.priority
  }

  /** In a sorted set every element after the first has a higher priority than the first. */
  lemma TailAbove(ls: seq<Listener>)
    requires Sorted(ls) && |ls| > 0
    ensures forall x :: x in ls[1..] ==> x.priority > ls[0].priority
  {
    forall x | x in ls[1..] ensures x.priority > ls[0].priority {
      var i :| 0 <= i < |ls[1..]| && ls[1..][i] == x;
      assert ls[i + 1] == x;
    }
  }

  /** A sorted set below whose elements `h` lies stays sorted with `h` in front. */
  lemma ConsSorted(h: Listener, rest: seq<Listener>)
    requires Sorted(rest) && forall x :: x in rest ==> x.priority > h.priority
    ensures Sorted([h] + rest)
  {
    var r := [h] + rest;
    forall i, j | 0 <= i < j < |r| ensures r[i].priority < r[j].priority {
      assert r[j] == rest[j - 1];
      if i > 0 {
        assert r[i] == rest[i - 1];
      }
    }
  }

  /** `add(l)`: unless an element of the same priority is present, `l` goes in at its place. */
  function Insert(ls: seq<Listener>, l: Listener): (r: seq<Listener>)
    requires Sorted(ls)
    ensures Sorted(r)
    ensures Holds(ls, l) ==> r == ls
    ensures forall x :: x in r <==> x in ls || (x == l && !Holds(ls, l))
    decreases |ls|
  {
    if |ls| == 0 then [l]
    else
      TailAbove(ls);
      assert ls == [ls[0]] + ls[1..];
      if l.priority < ls[0].priority then
        ConsSorted(l, ls);
        [l] + ls
      else if l.priority == ls[0].priority then ls
      else
        var rest := Insert(ls[1..], l);
        assert Holds(ls, l) <==> Holds(ls[1..], l);
        ConsSorted(ls[0], rest);
        [ls[0]] + rest
  }

  /** The elements kept by `removeIf` with the negation of `keep`, in order. */
  function Filter(ls: seq<Listener>, keep: Listener -> bool): (r: seq<Listener>)
    ensures forall x :: x in r <==> x in ls && keep(x)
    ensures Sorted(ls) ==> Sorted(r)
  {
    if |ls| == 0 then []
    else
      var rest := Filter(ls[1..], keep);
      assert ls == [ls[0]] + ls[1..];
      SortedStep(ls, rest);
      if keep(ls[0]) then [ls[0]] + rest else rest
  }

  /** Dropping the first element of a sorted set, or elements after it, keeps it sorted. */
  lemma SortedStep(ls: seq<Listener>, rest: seq<Listener>)
    requires |ls| > 0 && forall x :: x in rest ==> x in ls[1..]
    ensures Sorted(ls) ==> Sorted(ls[1..])
    ensures Sorted(ls) && Sorted(rest) ==> Sorted([ls[0]] + rest)
  {
    if Sorted(ls) {
      TailAbove(ls);
      if Sorted(rest) {
        ConsSorted(ls[0], rest);
      }
    }
  }

  /** The listeners of one type; none when the type has no set yet. */
  function SetOf(m: map<Cls, seq<Listener>>, t: Cls): seq<Listener>
  {
    if t in m then m[t] else []
  }

  predicate ValidMap(m: map<Cls, seq<Listener>>)
  {
    forall t :: t in m ==> Sorted(m[t])
  }

  /** `register(l)`: the set of the listener's type, created on demand, receives it. */
  function RegisterState(m: map<Cls, seq<Listener>>, l: Listener): (r: map<Cls, seq<Listener>>)
    requires ValidMap(m)
    ensures ValidMap(r) && r.Keys == m.Keys + {l.eventType}
    ensures forall t :: t in m && t != l.eventType ==> r[t] == m[t]
  {
    m[l.eventType := Insert(SetOf(m, l.eventType), l)]
  }

  /** `unregister(l)`: `remove` on the type's set, which takes out the element of the same priority; an unknown type is left alone. */
  function UnregisterState(m: map<Cls, seq<Listener>>, l: Listener): (r: map<Cls, seq<Listener>>)
    requires ValidMap(m)
    ensures ValidMap(r) && r.Keys == m.Keys
    ensures forall t :: t in m && t != l.eventType ==> r[t] == m[t]
  {
    if l.eventType !in m then m
    else m[l.eventType := Filter(m[l.eventType], (x: Listener) => x.priority != l.priority)]
  }

  /** `unregisterIf(p)`: every set drops the listeners `p` accepts. */
  function UnregisterIfState(m: map<Cls, seq<Listener>>, p: Listener -> bool): (r: map<Cls, seq<Listener>>)
    requires ValidMap(m)
    ensures ValidMap(r) && r.Keys == m.Keys
  {
    map t | t in m :: Filter(m[t], (x: Listener) => !p(x))
  }

  /** `has(l)`: membership, by priority, in the set of the listener's type. */
  predicate HasState(m: map<Cls, seq<Listener>>, l: Listener)
  {
    l.eventType in m && Holds(m[l.eventType], l)
  }

  /**
   * One set's listeners handling the event in ascending priority, the aero
   * bus skipping foreign listeners; the event's state is threaded through.
   */
  function DeliverAll(ls: seq<Listener>, e: Event, tests: Tests, skipForeign: bool): (Event, seq<Call>)
  {
    if |ls| == 0 then (e, [])
    else
      var (e1, c1) := DeliverAll(ls[..|ls| - 1], e, tests, skipForeign);
      var l := ls[|ls| - 1];
      if skipForeign && l.Foreign? then (e1, c1)
      else
        var (e2, c2) := Handle(l, e1, tests);
        (e2, c1 + c2)
  }

  /** `order` lists the map's types, each once. */
  predicate IsKeyOrder(m: map<Cls, seq<Listener>>, order: seq<Cls>)
  {
    (forall i :: 0 <= i < |order| ==> order[i] in m) &&
    (forall t :: t in m ==> t in order) &&
    (forall i, j :: 0 <= i < j < |order| ==> order[i] != order[j])
  }

  /** `call(event)`: every type assignable from the event's class, in the map's order, delivers to its set. */
  function CallOver(m: map<Cls, seq<Listener>>, order: seq<Cls>, e: Event, tests: Tests, skipForeign: bool): (Event, seq<Call>)
    requires forall i :: 0 <= i < |order| ==> order[i] in m
  {
    if |order| == 0 then (e, [])
    else
      var (e1, c1) := CallOver(m, order[..|order| - 1], e, tests, skipForeign);
      var t := order[|order| - 1];
      if !IsAssignableFrom(t, e.cls) then (e1, c1)
      else
        var (e2, c2) := DeliverAll(m[t], e1, tests, skipForeign);
        (e2, c1 + c2)
  }

  /** A registered listener is then present, and a listener whose priority is taken for its type changes nothing. */
  lemma RegisterThenHas(m: map<Cls, seq<Listener>>, l: Listener)
    requires ValidMap(m)
    ensures HasState(RegisterState(m, l), l)
    ensures HasState(m, l) ==> RegisterState(m, l) == m
  {
    var ls := SetOf(m, l.eventType);
    var r := Insert(ls, l);
    if !Holds(ls, l) {
      assert l in multiset(r);
    }
  }

  /**
   * Identity plays no part: `has` and `unregister` see a listener only
   * through its type and priority, so another listener of the same type
   * and priority answers `has` and is removed by `unregister`.
   */
  lemma SamePriorityIsSameListener(m: map<Cls, seq<Listener>>, l: Listener, other: Listener)
    requires ValidMap(m) && other.eventType == l.eventType && other.priority == l.priority
    ensures HasState(m, other) == HasState(m, l)
    ensures UnregisterState(m, other) == UnregisterState(m, l)
  {
  }

  /** After `unregister(l)` nothing of its priority is left for its type, and the other priorities stay. */
  lemma UnregisterRemoves(m: map<Cls, seq<Listener>>, l: Listener)
    requires ValidMap(m)
    ensures !HasState(UnregisterState(m, l), l)
    ensures forall x :: x in SetOf(m, l.eventType) && x.priority != l.priority ==> x in SetOf(UnregisterState(m, l), l.eventType)
  {
  }

  /** After `unregisterIf(p)` no set holds a listener `p` accepts, and every other listener stays where it was. */
  lemma UnregisterIfRemoves(m: map<Cls, seq<Listener>>, p: Listener -> bool)
    requires ValidMap(m)
    ensures forall t, x :: t in m && x in UnregisterIfState(m, p)[t] ==> !p(x) && x in m[t]
    ensures forall t, x :: t in m && x in m[t] && !p(x) ==> x in UnregisterIfState(m, p)[t]
  {
  }

  /** The calls made when each listener's handler runs once, in list order. */
  function HandlerCalls(ls: seq<Listener>, e: Event): (r: seq<Call>)
    requires forall i :: 0 <= i < |ls| ==> HandlerOf(ls[i]).Some?
    ensures |r| == |ls| && forall i :: 0 <= i < |ls| ==> r[i] == Handled(HandlerOf(ls[i]).value.id, e.id)
  {
    seq(|ls|, i requires 0 <= i < |ls| => Handled(HandlerOf(ls[i]).value.id, e.id))
  }

  /**
   * For an event that cannot be cancelled and listeners that all accept it,
   * a set delivers to every listener once, in its order, which is ascending
   * priority.
   */
  lemma {:induction false} DeliversInOrder(ls: seq<Listener>, e: Event, tests: Tests, skipForeign: bool)
    requires !e.cancellable
    requires forall i :: 0 <= i < |ls| ==> Fires(ls[i], e, tests) && !(skipForeign && ls[i].Foreign?)
    ensures forall i :: 0 <= i < |ls| ==> HandlerOf(ls[i]).Some?
    ensures DeliverAll(ls, e, tests, skipForeign) == (e, HandlerCalls(ls, e))
  {
    if |ls| > 0 {
      var front := ls[..|ls| - 1];
      assert forall i :: 0 <= i < |front| ==> front[i] == ls[i];
      DeliversInOrder(front, e, tests, skipForeign);
      var last := ls[|ls| - 1];
      assert Fires(last, e, tests) && !(skipForeign && last.Foreign?);
      assert Handle(last, e, tests) == (e, [Handled(HandlerOf(last).value.id, e.id)]);
      assert HandlerCalls(front, e) + [Handled(HandlerOf(ls[|ls| - 1]).value.id, e.id)] == HandlerCalls(ls, e);
    }
  }

  /** A cancelled event reaches none of the listeners that check cancellation, and the aero bus has no others. */
  lemma {:induction false} CancelledReachesNobody(ls: seq<Listener>, e: Event, tests: Tests)
    requires e.cancellable && e.cancelled
    requires forall i :: 0 <= i < |ls| ==> ls[i].Foreign? || ls[i].checksCancellation
    ensures DeliverAll(ls, e, tests, true) == (e, [])
  {
    if |ls| > 0 {
      var front := ls[..|ls| - 1];
      assert forall i :: 0 <= i < |front| ==> front[i] == ls[i];
      CancelledReachesNobody(front, e, tests);
      var last := ls[|ls| - 1];
      if last.Built? {
        assert !Fires(last, e, tests);
        var (e2, c2) := Handle(last, e, tests);
        assert [] + c2 == [];
      }
    }
  }

  /** An event that cannot be cancelled comes out of a delivery unchanged. */
  lemma {:induction false} DeliverKeepsEvent(ls: seq<Listener>, e: Event, tests: Tests, skipForeign: bool)
    requires !e.cancellable
    ensures DeliverAll(ls, e, tests, skipForeign).0 == e
  {
    if |ls| > 0 {
      DeliverKeepsEvent(ls[..|ls| - 1], e, tests, skipForeign);
    }
  }

  /** A listener of a set that accepts an event that cannot be cancelled has its handler called during the delivery. */
  lemma {:induction false} DeliverReaches(ls: seq<Listener>, e: Event, tests: Tests, skipForeign: bool, j: nat)
    requires !e.cancellable && j < |ls| && Fires(ls[j], e, tests) && !(skipForeign && ls[j].Foreign?)
    ensures HandlerOf(ls[j]).Some? && Handled(HandlerOf(ls[j]).value.id, e.id) in DeliverAll(ls, e, tests, skipForeign).1
  {
    var front := ls[..|ls| - 1];
    DeliverKeepsEvent(front, e, tests, skipForeign);
    if j < |ls| - 1 {
      assert ls[j] == front[j];
      DeliverReaches(front, e, tests, skipForeign, j);
    }
  }

  /** Moving through more types only adds calls, and an event that cannot be cancelled stays unchanged. */
  lemma {:induction false} CallOverKeepsEvent(m: map<Cls, seq<Listener>>, order: seq<Cls>, e: Event, tests: Tests, skipForeign: bool)
    requires !e.cancellable && forall i :: 0 <= i < |order| ==> order[i] in m
    ensures CallOver(m, order, e, tests, skipForeign).0 == e
  {
    if |order| > 0 {
      CallOverKeepsEvent(m, order[..|order| - 1], e, tests, skipForeign);
      DeliverKeepsEvent(m[order[|order| - 1]], e, tests, skipForeign);
    }
  }

  /**
   * `call` reaches the listeners of every registered supertype of the
   * event's class, not only those of the class itself: a listener
   * registered under any type assignable from the event's class that
   * accepts the event has its handler called.
   */
  lemma {:induction false} CallReachesSupertypes(m: map<Cls, seq<Listener>>, order: seq<Cls>, e: Event, tests: Tests, skipForeign: bool, i: nat, j: nat)
    requires !e.cancellable && forall k :: 0 <= k < |order| ==> order[k] in m
    requires i < |order| && IsAssignableFrom(order[i], e.cls) && j < |m[order[i]]|
    requires Fires(m[order[i]][j], e, tests) && !(skipForeign && m[order[i]][j].Foreign?)
    ensures HandlerOf(m[order[i]][j]).Some?
    ensures Handled(HandlerOf(m[order[i]][j]).value.id, e.id) in CallOver(m, order, e, tests, skipForeign).1
  {
    var front := order[..|order| - 1];
    assert forall k :: 0 <= k < |front| ==> front[k] == order[k];
    CallOverKeepsEvent(m, front, e, tests, skipForeign);
    if i < |order| - 1 {
      CallReachesSupertypes(m, front, e, tests, skipForeign, i, j);
    } else {
      DeliverReaches(m[order[i]], e, tests, skipForeign, j);
    }
  }

  /** The inner loop of `call`: each listener of a type's set, in order, handles the event; the aero bus skips foreign listeners. */
  method DeliverTo(ls: seq<Listener>, e: Event, tests: Tests, skipForeign: bool) returns (out: Event, calls: seq<Call>)
    ensures (out, calls) == DeliverAll(ls, e, tests, skipForeign)
  {
    out, calls := e, [];
    var j := 0;
    while j < |ls|
      invariant 0 <= j <= |ls|
      invariant (out, calls) == DeliverAll(ls[..j], e, tests, skipForeign)
    {
      assert ls[..j + 1][..j] == ls[..j];
      var l := ls[j];
      if !(skipForeign && l.Foreign?) {
        var (next, made) := Handle(l, out, tests);
        out := next;
        calls := calls + made;
      }
      j := j + 1;
    }
    assert ls[..j] == ls;
  }

  /** The bus object; `skipForeign` is set for the aero bus. */
  class Bus {
    const skipForeign: bool
    var listeners: map<Cls, seq<Listener>>

    ghost predicate Valid()
      reads this
    {
      ValidMap(listeners)
    }

    constructor (skipForeign: bool)
      ensures this.skipForeign == skipForeign && listeners == map[] && Valid()
    {
      this.skipForeign := skipForeign;
      listeners := map[];
    }

    /** `register(l)`: a null listener is an IllegalArgumentException. */
    method Register(l: Option<Listener>) returns (thrown: Option<Exception>)
      requires Valid()
      modifies this
      ensures Valid()
      ensures l.None? ==> thrown == Some(IllegalArgumentException) && listeners == old(listeners)
      ensures l.Some? ==> thrown == None && listeners == RegisterState(old(listeners), l.value)
    {
      var failure := AeroCheck.NotNull(l, "listener");
      if failure.Some? {
        return Some(failure.value.exception);
      }
      var typeListeners := SetOf(listeners, l.value.eventType);
      listeners := listeners[l.value.eventType := Insert(typeListeners, l.value)];
      thrown := None;
    }

    method Unregister(l: Option<Listener>) returns (thrown: Option<Exception>)
      requires Valid()
      modifies this
      ensures Valid()
      ensures l.None? ==> thrown == Some(IllegalArgumentException) && listeners == old(listeners)
      ensures l.Some? ==> thrown == None && listeners == UnregisterState(old(listeners), l.value)
    {
      var failure := AeroCheck.NotNull(l, "listener");
      if failure.Some? {
        return Some(failure.value.exception);
      }
      var t := l.value.eventType;
      if t !in listeners {
        return None;
      }
      var priority := l.value.priority;
      listeners := listeners[t := Filter(listeners[t], (x: Listener) => x.priority != priority)];
      thrown := None;
    }

    method UnregisterIf(p: Option<Listener -> bool>) returns (thrown: Option<Exception>)
      requires Valid()
      modifies this
      ensures Valid()
      ensures p.None? ==> thrown == Some(IllegalArgumentException) && listeners == old(listeners)
      ensures p.Some? ==> thrown == None && listeners == UnregisterIfState(old(listeners), p.value)
    {
      var failure := AeroCheck.NotNull(p, "predicate");
      if failure.Some? {
        return Some(failure.value.exception);
      }
      var test := p.value;
      listeners := map t | t in listeners :: Filter(listeners[t], (x: Listener) => !test(x));
      thrown := None;
    }

    function Has(l: Option<Listener>): (r: Result<bool>)
      reads this
      ensures l.None? ==> r == Err(IllegalArgumentException)
      ensures l.Some? ==> r == Ok(HasState(listeners, l.value))
    {
      match AeroCheck.NotNull(l, "listener")
      case Some(f) => Err(f.exception)
      case None =>
        var t := l.value.eventType;
        if t !in listeners then Ok(false) else Ok(Holds(listeners[t], l.value))
    }

    /**
     * `call(event)`: a null event is an IllegalArgumentException; otherwise
     * the types are visited in `order` and each assignable one delivers to
     * its set. The bus itself does not change.
     */
    method Call(event: Option<Event>, order: seq<Cls>, tests: Tests) returns (thrown: Option<Exception>, out: Event, calls: seq<Call>)
      requires IsKeyOrder(listeners, order)
      ensures event.None? ==> thrown == Some(IllegalArgumentException) && calls == []
      ensures event.Some? ==> thrown == None && (out, calls) == CallOver(listeners, order, event.value, tests, skipForeign)
    {
      var failure := AeroCheck.NotNull(event, "event");
      if failure.Some? {
        return Some(failure.value.exception), Event(0, OBJECT, false, false), [];
      }
      out, calls := event.value, [];
      var i := 0;
      while i < |order|
        invariant 0 <= i <= |order|
        invariant (out, calls) == CallOver(listeners, order[..i], event.value, tests, skipForeign)
      {
        assert order[..i + 1][..i] == order[..i];
        var t := order[i];
        if IsAssignableFrom(t, event.value.cls) {
          var made;
          out, made := DeliverTo(listeners[t], out, tests, skipForeign);
          calls := calls + made;
        }
        i := i + 1;
      }
      assert order[..i] == order;
      thrown := None;
    }
  }
}
