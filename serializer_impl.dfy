// SerializerImpl: two class-keyed hash maps of operations, with exact-key
// lookup first and then a scan for an assignable key.
module SerializerOperations {
  import opened JavaLang

  /** A registered serialize or deserialize operation. */
  datatype Operation = Operation(id: nat)

  /** The result of applying an operation to a value (the operation itself is abstract). */
  datatype Applied = Applied(op: Operation, input: JObject) | Unchanged(value: JObject)

  const BOOLEAN_SERIALIZE := Operation(0)
  const BOOLEAN_DESERIALIZE := Operation(1)
  const CHARACTER_SERIALIZE := Operation(2)
  const CHARACTER_DESERIALIZE := Operation(3)

  /** `order` is an iteration order of the map's key set: every key exactly once. */
  predicate IterationOrder(m: map<Cls, Operation>, order: seq<Cls>)
  {
    (forall i :: 0 <= i < |order| ==> order[i] in m) &&
    (forall k :: k in m ==> k in order) &&
    (forall i, j :: 0 <= i < j < |order| ==> order[i] != order[j])
  }

  /** The first key, in iteration order, that is assignable from `c`. */
  function FirstAssignable(order: seq<Cls>, c: Cls): (r: Option<nat>)
    ensures r.Some? ==>
      r.value < |order| && IsAssignableFrom(order[r.value], c) &&
      forall j :: 0 <= j < r.value ==> !IsAssignableFrom(order[j], c)
    ensures r.None? ==> forall j :: 0 <= j < |order| ==> !IsAssignableFrom(order[j], c)
  {
    if |order| == 0 then None
    else if IsAssignableFrom(order[0], c) then Some(0)
    else match FirstAssignable(order[1..], c)
      case None => None
      case Some(i) => Some(i + 1)
  }

  /**
   * `findSerializer(type)` over a map: the exact key if present, else the
   * first assignable key in iteration order, else SerializerNotFoundException.
   */
  function Find(m: map<Cls, Operation>, order: seq<Cls>, c: Cls): Result<Operation>
    requires IterationOrder(m, order)
  {
    if c in m then Ok(m[c])
    else match FirstAssignable(order, c)
      case Some(i) => Ok(m[order[i]])
      case None => Err(SerializerNotFoundException)
  }

  /** Find fails exactly when no key of the map is assignable from the class. */
  lemma FindFailsIffNoAssignableKey(m: map<Cls, Operation>, order: seq<Cls>, c: Cls)
    requires IterationOrder(m, order)
    ensures Find(m, order, c).Err? <==> forall k :: k in m ==> !IsAssignableFrom(k, c)
    ensures Find(m, order, c).Ok? ==> exists k :: k in m && IsAssignableFrom(k, c) && m[k] == Find(m, order, c).value
  {
    if c in m {
      assert IsAssignableFrom(c, c);
    } else if FirstAssignable(order, c).None? {
      forall k | k in m ensures !IsAssignableFrom(k, c) {
        var i :| 0 <= i < |order| && order[i] == k;
      }
    }
  }

  /** The lookup loop: exact key, then a scan of the keys in iteration order. */
  method FindIn(m: map<Cls, Operation>, order: seq<Cls>, c: Cls) returns (r: Result<Operation>)
    requires IterationOrder(m, order)
    ensures r == Find(m, order, c)
  {
    if c in m {
      return Ok(m[c]);
    }
    var i := 0;
    while i < |order|
      invariant 0 <= i <= |order|
      invariant forall j :: 0 <= j < i ==> !IsAssignableFrom(order[j], c)
    {
      if IsAssignableFrom(order[i], c) {
        return Ok(m[order[i]]);
      }
      i := i + 1;
    }
    return Err(SerializerNotFoundException);
  }

  /**
   * `findDeserializer(type)` as written: the exact-key test looks in the
   * serializer map, but the value is read from the deserializer map, so a
   * class with a serializer and no deserializer yields null (`None`).
   */
  function FindDeserializerAsWritten(ser: map<Cls, Operation>, deser: map<Cls, Operation>,
                                     order: seq<Cls>, c: Cls): Result<Option<Operation>>
    requires IterationOrder(deser, order)
  {
    if c in ser then Ok(if c in deser then Some(deser[c]) else None)
    else match FirstAssignable(order, c)
      case Some(i) => Ok(Some(deser[order[i]]))
      case None => Err(SerializerNotFoundException)
  }

  /** `deserialize(value, class)` as written; applying a null operation throws NullPointerException. */
  function DeserializeAsWritten(ser: map<Cls, Operation>, deser: map<Cls, Operation>,
                                order: seq<Cls>, value: JObject, c: Cls): Result<Applied>
    requires IterationOrder(deser, order)
  {
    if IsAssignableFrom(c, ClassOf(value)) then Ok(Unchanged(value))
    else match FindDeserializerAsWritten(ser, deser, order, c)
      case Err(e) => Err(e)
      case Ok(None) => Err(NullPointerException)
      case Ok(Some(op)) => Ok(Applied(op, value))
  }

  /** `deserialize(value, class)` with the exact-key test on the deserializer map. */
  function Deserialize(deser: map<Cls, Operation>, order: seq<Cls>, value: JObject, c: Cls): (r: Result<Applied>)
    requires IterationOrder(deser, order)
    ensures IsAssignableFrom(c, ClassOf(value)) ==> r == Ok(Unchanged(value))
    ensures r.Err? ==> r.error == SerializerNotFoundException
  {
    if IsAssignableFrom(c, ClassOf(value)) then Ok(Unchanged(value))
    else match Find(deser, order, c)
      case Err(e) => Err(e)
      case Ok(op) => Ok(Applied(op, value))
  }

  /** `serialize(value)`: the serializer found for the value's runtime class, applied. */
  function Serialize(ser: map<Cls, Operation>, order: seq<Cls>, value: JObject): Result<Applied>
    requires IterationOrder(ser, order)
  {
    match Find(ser, order, ClassOf(value))
    case Err(e) => Err(e)
    case Ok(op) => Ok(Applied(op, value))
  }

  /**
   * The discrepancy: with a Boolean serializer and no deserializer at all,
   * deserializing text to Boolean throws NullPointerException as written,
   * where the lookup without the typo reports SerializerNotFoundException;
   * with a deserializer registered only for Object, the typo still throws
   * NullPointerException where the scan would have found that deserializer.
   */
  lemma DeserializeAsWrittenThrowsNullPointer()
    ensures DeserializeAsWritten(map[BOOLEAN := BOOLEAN_SERIALIZE], map[], [], JText("true"), BOOLEAN)
      == Err(NullPointerException)
    ensures Deserialize(map[], [], JText("true"), BOOLEAN) == Err(SerializerNotFoundException)
    ensures DeserializeAsWritten(map[BOOLEAN := BOOLEAN_SERIALIZE], map[OBJECT := BOOLEAN_DESERIALIZE],
      [OBJECT], JText("true"), BOOLEAN) == Err(NullPointerException)
    ensures Deserialize(map[OBJECT := BOOLEAN_DESERIALIZE], [OBJECT], JText("true"), BOOLEAN)
      == Ok(Applied(BOOLEAN_DESERIALIZE, JText("true")))
  {
    assert !IsAssignableFrom(BOOLEAN, STRING) by {
      assert "java.lang.Boolean" != "java.lang.String";
    }
    assert IsAssignableFrom(OBJECT, BOOLEAN);
  }

  /** The two lookups agree whenever the class has both operations or neither. */
  lemma AsWrittenAgreesWhenBothOrNeither(ser: map<Cls, Operation>, deser: map<Cls, Operation>,
                                         order: seq<Cls>, value: JObject, c: Cls)
    requires IterationOrder(deser, order)
    requires c in ser <==> c in deser
    ensures DeserializeAsWritten(ser, deser, order, value, c) == Deserialize(deser, order, value, c)
  {
  }

  /** The serializer object: the two maps its `add*` methods overwrite. */
  class SerializerImpl {
    var serializers: map<Cls, Operation>
    var deserializers: map<Cls, Operation>

    constructor ()
      ensures serializers == map[] && deserializers == map[]
    {
      serializers := map[];
      deserializers := map[];
    }

    /** `addSerializer(type, operation)`: replaces any operation stored for the class. */
    method AddSerializer(c: Cls, op: Operation)
      modifies this
      ensures serializers == old(serializers)[c := op] && deserializers == old(deserializers)
    {
      serializers := serializers[c := op];
    }

    method AddDeserializer(c: Cls, op: Operation)
      modifies this
      ensures deserializers == old(deserializers)[c := op] && serializers == old(serializers)
    {
      deserializers := deserializers[c := op];
    }

    /** `addDefaultOperations`: Boolean and Character in both directions. */
    method AddDefaultOperations()
      modifies this
      ensures serializers == old(serializers)[BOOLEAN := BOOLEAN_SERIALIZE][CHARACTER := CHARACTER_SERIALIZE]
      ensures deserializers == old(deserializers)[BOOLEAN := BOOLEAN_DESERIALIZE][CHARACTER := CHARACTER_DESERIALIZE]
      ensures serializers[BOOLEAN] == BOOLEAN_SERIALIZE && deserializers[CHARACTER] == CHARACTER_DESERIALIZE
    {
      AddSerializer(BOOLEAN, BOOLEAN_SERIALIZE);
      AddDeserializer(BOOLEAN, BOOLEAN_DESERIALIZE);
      AddSerializer(CHARACTER, CHARACTER_SERIALIZE);
      AddDeserializer(CHARACTER, CHARACTER_DESERIALIZE);
    }

    /** `serialize(value)`; `order` is the serializer map's iteration order. */
    method SerializeValue(value: JObject, order: seq<Cls>) returns (r: Result<Applied>)
      requires IterationOrder(serializers, order)
      ensures r == Serialize(serializers, order, value)
    {
      var op := FindIn(serializers, order, ClassOf(value));
      match op
      case Err(e) => r := Err(e);
      case Ok(o) => r := Ok(Applied(o, value));
    }

    /** `deserialize(value, class)`; `order` is the deserializer map's iteration order. */
    method DeserializeValue(value: JObject, c: Cls, order: seq<Cls>) returns (r: Result<Applied>)
      requires IterationOrder(deserializers, order)
      ensures r == Deserialize(deserializers, order, value, c)
    {
      if IsAssignableFrom(c, ClassOf(value)) {
        return Ok(Unchanged(value));
      }
      var op := FindIn(deserializers, order, c);
      match op
      case Err(e) => r := Err(e);
      case Ok(o) => r := Ok(Applied(o, value));
    }
  }
}
