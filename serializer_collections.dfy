// SerializerCollectionImpl (deserializers keyed by a type pair) and
// SerializerRegistryImpl (serializers keyed by a type, misses cached as a
// placeholder).
module SerializerCollections {
  import opened JavaLang
  import opened FirstMatch
  import opened Registries

  /** The lookup key: (requested type, input type). */
  datatype TypePair = TypePair(first: Type, second: Type)

  /** A registered SpecificDeserializer, identified by its registration. */
  type DeserializerId = nat

  /** What a one-type `get` returns: the method reference `deserializer::deserialize`. */
  datatype Deserializer = DeserializeWith(deserializer: DeserializerId)

  /**
   * A Registrable: the library's own implementation carries a type test and
   * an input test; any other implementation is rejected by `register`.
   */
  datatype Registrable =
    | RegistrableImpl(typeTest: Type -> bool, inputTest: Type -> bool)
    | OtherRegistrable

  /**
   * `BuilderImpl.register(deserializer, registrable)`: the entry appended, or
   * a RuntimeException for a foreign Registrable. The entry accepts a pair
   * when the type test accepts its first type and the input test its second.
   */
  function Registration(d: DeserializerId, reg: Registrable): (r: Result<Entry<TypePair, DeserializerId>>)
    ensures r.Err? <==> reg.OtherRegistrable?
    ensures r.Err? ==> r.error == RuntimeException
    ensures r.Ok? ==>
      r.value.value == d &&
      forall a, b :: r.value.test(TypePair(a, b)) == (reg.typeTest(a) && reg.inputTest(b))
  {
    match reg
    case OtherRegistrable => Err(RuntimeException)
    case RegistrableImpl(tt, it) => Ok(Entry((p: TypePair) => tt(p.first) && it(p.second), d))
  }

  /** `get(firstType, secondType)`: first match, else the parent's answer (possibly null). */
  method GetPair(coll: Registry<TypePair, DeserializerId>, first: Type, second: Type) returns (r: Option<DeserializerId>)
    requires coll.Valid() && !coll.cachesMisses
    modifies coll.Repr
    ensures coll.Valid() && r == coll.Resolve(TypePair(first, second))
  {
    r := coll.Get(TypePair(first, second));
  }

  /** `get(type)`: the pair lookup with `Object` as the input type, wrapped; null stays null. */
  method Get(coll: Registry<TypePair, DeserializerId>, t: Type) returns (r: Option<Deserializer>)
    requires coll.Valid() && !coll.cachesMisses
    modifies coll.Repr
    ensures coll.Valid()
    ensures r.None? <==> coll.Resolve(TypePair(t, ClassType(OBJECT))).None?
    ensures r.Some? ==> r.value == DeserializeWith(coll.Resolve(TypePair(t, ClassType(OBJECT))).value)
  {
    var d := GetPair(coll, t, ClassType(OBJECT));
    match d
    case Some(id) => r := Some(DeserializeWith(id));
    case None => r := None;
  }

  /**
   * A collection built from registrations answers a pair with the first
   * registration whose type test and input test both accept it.
   */
  lemma FirstRegistrationWins(regs: seq<(DeserializerId, Registrable)>, a: Type, b: Type, i: nat)
    requires forall j :: 0 <= j < |regs| ==> regs[j].1.RegistrableImpl?
    requires i < |regs| && regs[i].1.typeTest(a) && regs[i].1.inputTest(b)
    requires forall j :: 0 <= j < i ==> !(regs[j].1.typeTest(a) && regs[j].1.inputTest(b))
    ensures Lookup(RegisteredEntries(regs), TypePair(a, b)) == Some(regs[i].0)
  {
    var es := RegisteredEntries(regs);
    forall j | 0 <= j < i ensures !es[j].test(TypePair(a, b)) {
      assert es[j] == Registration(regs[j].0, regs[j].1).value;
    }
    assert es[i] == Registration(regs[i].0, regs[i].1).value;
    FirstIndexIs(es, TypePair(a, b), i);
  }

  /** The entries of a sequence of accepted registrations, in order. */
  function RegisteredEntries(regs: seq<(DeserializerId, Registrable)>): (es: seq<Entry<TypePair, DeserializerId>>)
    requires forall j :: 0 <= j < |regs| ==> regs[j].1.RegistrableImpl?
    ensures |es| == |regs|
    ensures forall j :: 0 <= j < |regs| ==> es[j] == Registration(regs[j].0, regs[j].1).value
  {
    seq(|regs|, j requires 0 <= j < |regs| && regs[j].1.RegistrableImpl? => Registration(regs[j].0, regs[j].1).value)
  }
}

module SerializerRegistries {
  import opened JavaLang
  import opened FirstMatch
  import opened Registries

  /** A registered Serializer, identified by its registration. */
  type SerializerId = nat

  /**
   * `register(type, serializer)`'s predicate: the registered type is a
   * supertype of the tested one, or the tested type is a wildcard with
   * exactly one upper bound and the registered type is a supertype of it.
   */
  predicate RegisterTest(registered: Type, t: Type)
  {
    IsSuperType(registered, t) ||
    (t.WildcardType? && |t.upper| == 1 && IsSuperType(registered, t.upper[0]))
  }

  function Register(registered: Type, s: SerializerId): (e: Entry<Type, SerializerId>)
    ensures e.value == s
    ensures forall t :: e.test(t) == RegisterTest(registered, t)
  {
    Entry((t: Type) => RegisterTest(registered, t), s)
  }

  /** `registerExact(type, serializer)`: only the registered type itself matches. */
  function RegisterExact(registered: Type, s: SerializerId): (e: Entry<Type, SerializerId>)
    ensures e.value == s
    ensures forall t :: e.test(t) <==> t == registered
  {
    Entry((t: Type) => t == registered, s)
  }

  /** A wildcard with one upper bound matches `register` exactly when that bound does. */
  lemma WildcardMatchesThroughItsBound(registered: Type, bound: Type, s: SerializerId)
    requires registered.ClassType?
    ensures Register(registered, s).test(WildcardType([bound])) <==> IsSuperType(registered, bound)
  {
    var w := WildcardType([bound]);
    assert Erase(w) == Erase(bound);
  }

  /** A wildcard with two upper bounds is matched only through its erasure. */
  lemma WildcardWithTwoBounds(registered: Cls, b1: Type, b2: Type, s: SerializerId)
    ensures Register(ClassType(registered), s).test(WildcardType([b1, b2])) <==>
      IsAssignableFrom(registered, Erase(b1))
  {
    assert Erase(WildcardType([b1, b2])) == Erase(b1);
  }

  /**
   * `get(type)`: a miss is cached as the placeholder (here `None`) and
   * reported as null, and a null local answer falls back to the parent.
   */
  method Get(reg: Registry<Type, SerializerId>, t: Type) returns (r: Option<SerializerId>)
    requires reg.Valid() && reg.cachesMisses
    modifies reg.Repr
    ensures reg.Valid() && r == reg.Resolve(t)
    ensures t in reg.cache && reg.cache[t] == Lookup(reg.entries, t)
  {
    r := reg.Get(t);
  }

  /**
   * The placeholder's `serialize` and `deserialize`: both always throw
   * UnsupportedOperationException, whatever they are given.
   */
  function DummyApply(input: JObject): (r: Result<JObject>)
    ensures r.Err? && r.error == UnsupportedOperationException
  {
    Err(UnsupportedOperationException)
  }
}
