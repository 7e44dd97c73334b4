// The two `Check` validator classes. A check either returns normally (None)
// or throws an exception carrying a message. `null` is `None` of an Option.
// The formatting overloads hand the reason and its arguments to
// `MessageFormat.format`, which is a parameter here.
module AeroCheck {
  import opened JavaLang

  datatype Failure = Failure(exception: Exception, message: string)

  type Format = (string, seq<string>) -> string

  /** `notNull(object, reason)`: a null object is an IllegalArgumentException with the reason as message. */
  function NotNull<T>(obj: Option<T>, reason: string): (r: Option<Failure>)
    ensures r.Some? <==> obj.None?
    ensures r.Some? ==> r.value == Failure(IllegalArgumentException, reason)
  {
    if obj.Some? then None else Some(Failure(IllegalArgumentException, reason))
  }

  /** `notNull(object, reason, arguments)`: as above, the message formatted from the arguments. */
  function NotNullFormat<T>(obj: Option<T>, reason: string, arguments: seq<string>, format: Format): (r: Option<Failure>)
    ensures r.Some? <==> obj.None?
    ensures r.Some? ==> r.value == Failure(IllegalArgumentException, format(reason, arguments))
  {
    if obj.Some? then None else Some(Failure(IllegalArgumentException, format(reason, arguments)))
  }

  /** `argCondition(condition, reason)`: a true condition is an IllegalArgumentException. */
  function ArgCondition(condition: bool, reason: string): (r: Option<Failure>)
    ensures r.Some? <==> condition
    ensures r.Some? ==> r.value == Failure(IllegalArgumentException, reason)
  {
    if !condition then None else Some(Failure(IllegalArgumentException, reason))
  }

  function ArgConditionFormat(condition: bool, reason: string, arguments: seq<string>, format: Format): (r: Option<Failure>)
    ensures r.Some? <==> condition
    ensures r.Some? ==> r.value == Failure(IllegalArgumentException, format(reason, arguments))
  {
    if !condition then None else Some(Failure(IllegalArgumentException, format(reason, arguments)))
  }

  /** `fail(reason)` always throws an IllegalArgumentException. */
  function Fail(reason: string): (r: Failure)
    ensures r.exception == IllegalArgumentException && r.message == reason
  {
    Failure(IllegalArgumentException, reason)
  }

  /** `stateCondition(condition, reason)`: a true condition is an IllegalStateException. */
  function StateCondition(condition: bool, reason: string): (r: Option<Failure>)
    ensures r.Some? <==> condition
    ensures r.Some? ==> r.value == Failure(IllegalStateException, reason)
  {
    if !condition then None else Some(Failure(IllegalStateException, reason))
  }

  function StateConditionFormat(condition: bool, reason: string, arguments: seq<string>, format: Format): (r: Option<Failure>)
    ensures r.Some? <==> condition
    ensures r.Some? ==> r.value == Failure(IllegalStateException, format(reason, arguments))
  {
    if !condition then None else Some(Failure(IllegalStateException, format(reason, arguments)))
  }

  /** The argument checks and the null check of this class all fail in the same way: `notNull(x, m)` is `argCondition(x == null, m)`. */
  lemma NotNullIsArgCondition<T>(obj: Option<T>, reason: string)
    ensures NotNull(obj, reason) == ArgCondition(obj.None?, reason)
  {
  }
}

module NatroxCheck {
  import opened JavaLang
  import AeroCheck

  type Failure = AeroCheck.Failure

  /** `notNull(object, reason)`: a null object is a NullPointerException with the reason as message. */
  function NotNull<T>(obj: Option<T>, reason: string): (r: Option<Failure>)
    ensures r.Some? <==> obj.None?
    ensures r.Some? ==> r.value == AeroCheck.Failure(NullPointerException, reason)
  {
    if obj.None? then Some(AeroCheck.Failure(NullPointerException, reason)) else None
  }

  function NotNullFormat<T>(obj: Option<T>, reason: string, arguments: seq<string>, format: AeroCheck.Format): (r: Option<Failure>)
    ensures r.Some? <==> obj.None?
    ensures r.Some? ==> r.value == AeroCheck.Failure(NullPointerException, format(reason, arguments))
  {
    if obj.None? then Some(AeroCheck.Failure(NullPointerException, format(reason, arguments))) else None
  }

  /** `argCondition(condition, reason)`: a true condition is an IllegalArgumentException. */
  function ArgCondition(condition: bool, reason: string): (r: Option<Failure>)
    ensures r.Some? <==> condition
    ensures r.Some? ==> r.value == AeroCheck.Failure(IllegalArgumentException, reason)
  {
    if condition then Some(AeroCheck.Failure(IllegalArgumentException, reason)) else None
  }

  function ArgConditionFormat(condition: bool, reason: string, arguments: seq<string>, format: AeroCheck.Format): (r: Option<Failure>)
    ensures r.Some? <==> condition
    ensures r.Some? ==> r.value == AeroCheck.Failure(IllegalArgumentException, format(reason, arguments))
  {
    if condition then Some(AeroCheck.Failure(IllegalArgumentException, format(reason, arguments))) else None
  }

  /** `fail(reason)` always throws an IllegalArgumentException. */
  function Fail(reason: string): (r: Failure)
    ensures r.exception == IllegalArgumentException && r.message == reason
  {
    AeroCheck.Failure(IllegalArgumentException, reason)
  }

  /** `stateCondition(condition, reason)`: a true condition is an IllegalStateException. */
  function StateCondition(condition: bool, reason: string): (r: Option<Failure>)
    ensures r.Some? <==> condition
    ensures r.Some? ==> r.value == AeroCheck.Failure(IllegalStateException, reason)
  {
    if condition then Some(AeroCheck.Failure(IllegalStateException, reason)) else None
  }

  function StateConditionFormat(condition: bool, reason: string, arguments: seq<string>, format: AeroCheck.Format): (r: Option<Failure>)
    ensures r.Some? <==> condition
    ensures r.Some? ==> r.value == AeroCheck.Failure(IllegalStateException, format(reason, arguments))
  {
    if condition then Some(AeroCheck.Failure(IllegalStateException, format(reason, arguments))) else None
  }

  /**
   * The two classes agree on every check but the null check, where they
   * reject the same objects with the same message but a different exception.
   */
  lemma AgreesWithAeroCheck<T>(obj: Option<T>, condition: bool, reason: string)
    ensures ArgCondition(condition, reason) == AeroCheck.ArgCondition(condition, reason)
    ensures StateCondition(condition, reason) == AeroCheck.StateCondition(condition, reason)
    ensures Fail(reason) == AeroCheck.Fail(reason)
    ensures NotNull(obj, reason).Some? == AeroCheck.NotNull(obj, reason).Some?
    ensures NotNull(obj, reason).Some? ==>
      NotNull(obj, reason).value.message == AeroCheck.NotNull(obj, reason).value.message &&
      NotNull(obj, reason).value.exception == NullPointerException &&
      AeroCheck.NotNull(obj, reason).value.exception == IllegalArgumentException
  {
  }
}
