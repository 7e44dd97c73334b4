// The event listeners of the three event libraries: the listener
// implementations of org.aero.common.event, org.conelux.common.event and
// de.natrox.event, and the anonymous listener that
// de.natrox.eventbus.EventListenerBuilderImpl builds. Conditions and
// handlers are foreign code: a condition is tested by a parameter, and a
// handler is recorded by its call and by whether it cancels the event.
module EventListeners {
  import opened JavaLang
  import AeroCheck
  import NatroxCheck

  /**
   * An event object: its identity, its runtime class, whether it is a
   * `CancellableEvent`, and whether it has been cancelled. Handlers may
   * cancel it, so the state is threaded through a dispatch.
   */
  datatype Event = Event(id: nat, cls: Cls, cancellable: bool, cancelled: bool)

  /** A `Predicate` condition; what it accepts is the parameter `Tests`. */
  datatype Condition = Condition(id: nat)

  type Tests = (Condition, Event) -> bool

  /** A `Consumer` handler, identified by `id`; `cancels` says whether it cancels a cancellable event. */
  datatype Handler = Handler(id: nat, cancels: bool)

  /** A handler call on an event. */
  datatype Call = Handled(handler: nat, event: nat)

  /**
   * A listener built by one of the builders (`checksCancellation` is false
   * only for the de.natrox.eventbus builder), or a listener class of the
   * caller's own, whose `handle` is taken to call its handler. `id` stands
   * for the object's identity, which is what `equals` compares.
   */
  datatype Listener =
    | Built(id: nat, eventType: Cls, conditions: seq<Condition>, priority: int, handler: Option<Handler>, checksCancellation: bool)
    | Foreign(id: nat, eventType: Cls, priority: int, foreignHandler: Handler)

  /** A handler running on an event: recorded, and the event cancelled if the handler cancels it and it can be cancelled. */
  function Fire(h: Handler, e: Event): (r: (Event, seq<Call>))
    ensures r.1 == [Handled(h.id, e.id)]
    ensures r.0 == e.(cancelled := e.cancelled || (h.cancels && e.cancellable))
  {
    (if h.cancels && e.cancellable then e.(cancelled := true) else e, [Handled(h.id, e.id)])
  }

  predicate AllPass(conditions: seq<Condition>, e: Event, tests: Tests)
  {
    forall i :: 0 <= i < |conditions| ==> tests(conditions[i], e)
  }

  /** Whether `handle` calls the handler: not for a cancelled event (where checked), only if every condition holds, and only with a handler. */
  predicate Fires(l: Listener, e: Event, tests: Tests)
  {
    match l
    case Built(_, _, conditions, _, handler, checksCancellation) =>
      !(checksCancellation && e.cancellable && e.cancelled) && AllPass(conditions, e, tests) && handler.Some?
    case Foreign(_, _, _, _) => true
  }

  function HandlerOf(l: Listener): Option<Handler>
  {
    match l
    case Built(_, _, _, _, handler, _) => handler
    case Foreign(_, _, _, h) => Some(h)
  }

  /**
   * `handle(event)`: a cancelled cancellable event is ignored (by the
   * listeners that check it); the conditions are tested in order and the
   * first failing one ends the call; a null handler does nothing; otherwise
   * the handler runs once.
   */
  function Handle(l: Listener, e: Event, tests: Tests): (r: (Event, seq<Call>))
    ensures Fires(l, e, tests) ==> r == Fire(HandlerOf(l).value, e)
    ensures !Fires(l, e, tests) ==> r == (e, [])
    ensures r.0.id == e.id && r.0.cls == e.cls && r.0.cancellable == e.cancellable && (e.cancelled ==> r.0.cancelled)
  {
    match l
    case Foreign(_, _, _, h) => Fire(h, e)
    case Built(_, _, conditions, _, handler, checksCancellation) =>
      if checksCancellation && e.cancellable && e.cancelled then (e, [])
      else if !FirstFailing(conditions, e, tests).None? then (e, [])
      else if handler.None? then (e, [])
      else Fire(handler.value, e)
  }

  /** The loop over the conditions: the index of the first condition that fails, if any. */
  function FirstFailing(conditions: seq<Condition>, e: Event, tests: Tests): (r: Option<nat>)
    ensures r.None? <==> AllPass(conditions, e, tests)
    ensures r.Some? ==> r.value < |conditions| && !tests(conditions[r.value], e)
    ensures r.Some? ==> forall i :: 0 <= i < r.value ==> tests(conditions[i], e)
  {
    if |conditions| == 0 then None
    else if !tests(conditions[0], e) then Some(0)
    else
      match FirstFailing(conditions[1..], e, tests)
      case None =>
        assert forall i :: 1 <= i < |conditions| ==> conditions[i] == conditions[1..][i - 1];
        None
      case Some(k) =>
        assert conditions[k + 1] == conditions[1..][k];
        assert forall i :: 1 <= i < k + 1 ==> conditions[i] == conditions[1..][i - 1];
        Some(k + 1)
  }

  /** Handling through the de.natrox.eventbus builder's listener ignores cancellation; the other listeners skip a cancelled event. */
  lemma CancellationCheck(l: Listener, e: Event, tests: Tests)
    requires l.Built? && e.cancellable && e.cancelled
    ensures l.checksCancellation ==> Handle(l, e, tests) == (e, [])
    ensures !l.checksCancellation && AllPass(l.conditions, e, tests) && l.handler.Some? ==>
      Handle(l, e, tests).1 == [Handled(l.handler.value.id, e.id)]
  {
  }

  /** One failing condition is enough to keep the handler from running, wherever it is in the list. */
  lemma FailingConditionSuppresses(l: Listener, e: Event, tests: Tests, k: nat)
    requires l.Built? && k < |l.conditions| && !tests(l.conditions[k], e)
    ensures Handle(l, e, tests) == (e, [])
  {
  }

  /** `priority()`: listeners of the de.natrox libraries have none; they order as priority 0. */
  function Priority(l: Listener): int
  {
    l.priority
  }

  /** `compareTo(other)` = `Integer.compare(priority, other.priority())`. */
  function CompareTo(a: Listener, b: Listener): (r: int)
    ensures r == -1 <==> Priority(a) < Priority(b)
    ensures r == 0 <==> Priority(a) == Priority(b)
    ensures r == 1 <==> Priority(a) > Priority(b)
  {
    if Priority(a) < Priority(b) then -1 else if Priority(a) == Priority(b) then 0 else 1
  }

  /** The comparison is a total preorder on listeners: antisymmetric and transitive, and it only sees priorities. */
  lemma CompareToOrder(a: Listener, b: Listener, c: Listener)
    ensures CompareTo(a, b) == -CompareTo(b, a)
    ensures CompareTo(a, b) <= 0 && CompareTo(b, c) <= 0 ==> CompareTo(a, c) <= 0
    ensures CompareTo(a, b) == 0 ==> CompareTo(a, c) == CompareTo(b, c)
  {
  }

  /** Which listener builder: a null argument is an IllegalArgumentException for the aero and conelux builders and a NullPointerException for the de.natrox ones. */
  datatype Variant = AeroListener | ConeluxListener | NatroxListener | NatroxBusListener
  {
    function NullFailure<T>(x: Option<T>, reason: string): (r: Option<AeroCheck.Failure>)
      ensures r.Some? <==> x.None?
      ensures r.Some? ==> r.value.exception == (if this == AeroListener || this == ConeluxListener then IllegalArgumentException else NullPointerException)
    {
      if this == AeroListener || this == ConeluxListener then AeroCheck.NotNull(x, reason) else NatroxCheck.NotNull(x, reason)
    }

    /** Only the aero and conelux builders take a priority. */
    predicate HasPriority()
    {
      this == AeroListener || this == ConeluxListener
    }
  }

  /** The default priority of the aero and conelux builders. */
  const DEFAULT_PRIORITY := 0

  /** A listener builder: the event type, the conditions so far, the priority and the handler. */
  class ListenerBuilder {
    const variant: Variant
    const eventType: Cls
    var conditions: seq<Condition>
    var priority: int
    var handler: Option<Handler>

    constructor (variant: Variant, eventType: Cls)
      ensures this.variant == variant && this.eventType == eventType
      ensures conditions == [] && priority == DEFAULT_PRIORITY && handler == None
    {
      this.variant := variant;
      this.eventType := eventType;
      conditions := [];
      priority := DEFAULT_PRIORITY;
      handler := None;
    }

    /** `condition(c)`: a null condition throws; otherwise it is appended. */
    method AddCondition(condition: Option<Condition>) returns (thrown: Option<Exception>)
      modifies this
      ensures condition.None? ==> thrown == Some(variant.NullFailure(condition, "condition").value.exception) && conditions == old(conditions)
      ensures condition.Some? ==> thrown == None && conditions == old(conditions) + [condition.value]
      ensures priority == old(priority) && handler == old(handler)
    {
      var failure := variant.NullFailure(condition, "condition");
      if failure.Some? {
        return Some(failure.value.exception);
      }
      conditions := conditions + [condition.value];
      thrown := None;
    }

    /** `priority(p)`. */
    method SetPriority(p: int)
      requires variant.HasPriority() && InInt(p)
      modifies this
      ensures priority == p && conditions == old(conditions) && handler == old(handler)
    {
      priority := p;
    }

    /** `handler(h)`: a null handler throws; otherwise it replaces the handler. */
    method SetHandler(h: Option<Handler>) returns (thrown: Option<Exception>)
      modifies this
      ensures h.None? ==> thrown == Some(variant.NullFailure(h, "handler").value.exception) && handler == old(handler)
      ensures h.Some? ==> thrown == None && handler == h
      ensures priority == old(priority) && conditions == old(conditions)
    {
      var failure := variant.NullFailure(h, "handler");
      if failure.Some? {
        return Some(failure.value.exception);
      }
      handler := h;
      thrown := None;
    }

    /**
     * `build()`: a listener with a copy of the conditions and the current
     * priority and handler. The listener is a value, so later changes to
     * the builder do not reach it.
     */
    method Build(id: nat) returns (l: Listener)
      ensures l == Built(id, eventType, conditions, priority, handler, variant != NatroxBusListener)
    {
      l := Built(id, eventType, conditions, priority, handler, variant != NatroxBusListener);
    }
  }
}
