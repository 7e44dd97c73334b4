// The conversion buses. The two natrox buses (packages `conversionbus` and
// `conversion`, identical in their lookup) keep an ordered provider list
// with a parent; the conelux bus keeps a hash set of conditional converters.
module ConversionBuses {
  import opened JavaLang
  import opened FirstMatch
  import opened Registries

  /** The lookup key: (input type, output type). */
  datatype TypePair = TypePair(input: Type, output: Type)

  /** A converter supplier, identified by its registration. */
  type SupplierId = nat

  /** What `supplier.apply(inputType, outputType)` hands back. */
  datatype Converter = Converter(supplier: SupplierId, input: Type, output: Type)

  /** `registerProvider(test, supplier)`: the entry the builder appends. */
  function Provider(test: (Type, Type) -> bool, supplier: SupplierId): (e: Entry<TypePair, SupplierId>)
    ensures e.value == supplier
    ensures forall i, o :: e.test(TypePair(i, o)) == test(i, o)
  {
    Entry((p: TypePair) => test(p.input, p.output), supplier)
  }

  /** The answer of `get`: the chain's supplier applied to the types, or IllegalArgumentException. */
  ghost function GetAnswer(bus: Registry<TypePair, SupplierId>, input: Type, output: Type): Result<Converter>
    requires bus.Chained()
  {
    match bus.Resolve(TypePair(input, output))
    case Some(s) => Ok(Converter(s, input, output))
    case None => Err(IllegalArgumentException)
  }

  /**
   * `get(inputType, outputType)`: the first provider of this bus that accepts
   * the pair, else the parent's answer, else IllegalArgumentException.
   */
  method Get(bus: Registry<TypePair, SupplierId>, input: Type, output: Type) returns (r: Result<Converter>)
    requires bus.Valid() && !bus.cachesMisses
    modifies bus.Repr
    ensures bus.Valid() && r == GetAnswer(bus, input, output)
    ensures r.Ok? ==> r.value.input == input && r.value.output == output
  {
    var supplier := bus.Get(TypePair(input, output));
    match supplier
    case Some(s) => r := Ok(Converter(s, input, output));
    case None => r := Err(IllegalArgumentException);
  }

  /**
   * `get` fails exactly when no provider of the bus or of any ancestor
   * accepts the pair; otherwise the winner is the first accepting provider,
   * the bus's own providers before its parent's.
   */
  lemma GetFailsIffNoProvider(bus: Registry<TypePair, SupplierId>, input: Type, output: Type)
    requires bus.Chained()
    ensures GetAnswer(bus, input, output).Err? <==>
      forall j :: 0 <= j < |bus.ChainEntries()| ==> !bus.ChainEntries()[j].test(TypePair(input, output))
    ensures GetAnswer(bus, input, output).Err? ==> GetAnswer(bus, input, output).error == IllegalArgumentException
  {
    ResolveIsChainLookup(bus, TypePair(input, output));
  }

  /** A provider registered before another wins whenever both accept the pair. */
  lemma EarlierProviderWins(bus: Registry<TypePair, SupplierId>, input: Type, output: Type, i: nat)
    requires bus.Chained()
    requires i < |bus.entries| && bus.entries[i].test(TypePair(input, output))
    requires forall j :: 0 <= j < i ==> !bus.entries[j].test(TypePair(input, output))
    ensures GetAnswer(bus, input, output) == Ok(Converter(bus.entries[i].value, input, output))
  {
    FirstIndexIs(bus.entries, TypePair(input, output), i);
  }
}

module ConeluxConversionBus {
  import opened JavaLang
  import opened FirstMatch
  import opened Registries

  /** The cache key: (runtime class of the source, target class). Equality is componentwise. */
  datatype Key = Key(sourceType: Cls, targetType: Cls)

  /**
   * A converter factory. `condition` is its own ConverterCondition, if it has
   * one; `createdCondition(target)` is the condition of the converter
   * `create(target)` returns, if that converter has one.
   */
  datatype ConverterFactory = ConverterFactory(
    id: nat,
    condition: Option<(Cls, Cls) -> bool>,
    createdCondition: Cls -> Option<(Cls, Cls) -> bool>)

  /** The registered conditional converters. */
  datatype ConditionalConverter =
    | ConverterAdapter(converter: nat, sourceType: Cls, targetType: Cls)
    | ConverterFactoryAdapter(factory: ConverterFactory, sourceType: Cls, targetType: Cls)
    | Custom(id: nat, condition: (Cls, Cls) -> bool)

  /** What `converter.convert(source, source.getClass(), targetType)` is applied with. */
  datatype Conversion = Conversion(converter: ConditionalConverter, source: JObject, target: Cls)

  /** `ConverterAdapter.matches`: the same target class, and a source the registered one is assignable from. */
  predicate AdapterMatches(registeredSource: Cls, registeredTarget: Cls, s: Cls, t: Cls)
  {
    registeredTarget == t && IsAssignableFrom(registeredSource, s)
  }

  /**
   * `ConverterFactoryAdapter.matches`: when the factory's own condition holds
   * and the converter it creates has a condition, that converter decides;
   * otherwise the registered types must be assignable from the actual ones.
   */
  predicate FactoryAdapterMatches(f: ConverterFactory, registeredSource: Cls, registeredTarget: Cls, s: Cls, t: Cls)
  {
    if f.condition.Some? && f.condition.value(s, t) && f.createdCondition(t).Some?
    then f.createdCondition(t).value(s, t)
    else IsAssignableFrom(registeredTarget, t) && IsAssignableFrom(registeredSource, s)
  }

  predicate Matches(c: ConditionalConverter, s: Cls, t: Cls)
  {
    match c
    case ConverterAdapter(_, src, tgt) => AdapterMatches(src, tgt, s, t)
    case ConverterFactoryAdapter(f, src, tgt) => FactoryAdapterMatches(f, src, tgt, s, t)
    case Custom(_, cond) => cond(s, t)
  }

  /** An adapter never matches another target class, even a subclass or superclass. */
  lemma AdapterNeedsIdenticalTarget(converter: nat, src: Cls, tgt: Cls, s: Cls, t: Cls)
    ensures Matches(ConverterAdapter(converter, src, tgt), s, t) <==>
      tgt == t && (src.name == s.name || src.name in s.supers)
  {
  }

  /**
   * A factory adapter whose factory has no condition, or whose created
   * converter has none, falls back to assignability of both types.
   */
  lemma FactoryAdapterFallsBack(f: ConverterFactory, src: Cls, tgt: Cls, s: Cls, t: Cls)
    requires f.condition.None? || f.createdCondition(t).None?
    ensures Matches(ConverterFactoryAdapter(f, src, tgt), s, t) <==>
      IsAssignableFrom(tgt, t) && IsAssignableFrom(src, s)
  {
  }

  /** When both conditions exist and the factory's holds, the created converter's verdict overrides assignability. */
  lemma FactoryAdapterDefersToCreated(f: ConverterFactory, src: Cls, tgt: Cls, s: Cls, t: Cls)
    requires f.condition.Some? && f.condition.value(s, t) && f.createdCondition(t).Some?
    ensures Matches(ConverterFactoryAdapter(f, src, tgt), s, t) == f.createdCondition(t).value(s, t)
  {
  }

  /** The bus's entries, in the iteration order of its converter set. */
  function Entries(order: seq<ConditionalConverter>): (es: seq<Entry<Key, ConditionalConverter>>)
    ensures |es| == |order|
    ensures forall i :: 0 <= i < |order| ==> es[i].value == order[i]
    ensures forall i, k :: 0 <= i < |order| ==> es[i].test(k) == Matches(order[i], k.sourceType, k.targetType)
  {
    seq(|order|, i requires 0 <= i < |order| => Entry((k: Key) => Matches(order[i], k.sourceType, k.targetType), order[i]))
  }

  /** The registered converters listed in a given iteration order. */
  function InOrder(cs: seq<ConditionalConverter>, order: seq<nat>): (r: seq<ConditionalConverter>)
    requires forall i :: 0 <= i < |order| ==> order[i] < |cs|
    ensures |r| == |order| && forall i :: 0 <= i < |order| ==> r[i] == cs[order[i]]
  {
    seq(|order|, i requires 0 <= i < |order| => cs[order[i]])
  }

  /**
   * The builder collects converters in a hash set; which matching converter
   * wins depends on that set's iteration order, so `Build` takes the order
   * as a permutation of what was registered.
   */
  class BusBuilder {
    var converters: seq<ConditionalConverter>

    constructor ()
      ensures converters == []
    {
      converters := [];
    }

    /** All three `register` overloads add one converter (an adapter is a new object, so never a duplicate). */
    method Register(c: ConditionalConverter)
      modifies this
      ensures converters == old(converters) + [c]
    {
      converters := converters + [c];
    }

    method Build(order: seq<nat>) returns (bus: Registry<Key, ConditionalConverter>)
      requires |order| == |converters|
      requires forall i :: 0 <= i < |order| ==> order[i] < |converters|
      requires forall i, j :: 0 <= i < j < |order| ==> order[i] != order[j]
      ensures fresh(bus) && bus.Valid() && bus.parent == null && !bus.cachesMisses && bus.cache == map[]
      ensures bus.entries == Entries(InOrder(converters, order))
    {
      bus := new Registry(null, Entries(InOrder(converters, order)), false);
    }
  }

  /** The answer of `convert`: the winning converter, or ConverterNotFoundException. */
  ghost function ConvertAnswer(bus: Registry<Key, ConditionalConverter>, source: JObject, target: Cls): Result<Conversion>
    requires bus.Chained()
  {
    match bus.Resolve(Key(ClassOf(source), target))
    case Some(c) => Ok(Conversion(c, source, target))
    case None => Err(ConverterNotFoundException)
  }

  /** `convert(source, targetType)`: look up (and cache) by the source's runtime class and the target. */
  method Convert(bus: Registry<Key, ConditionalConverter>, source: JObject, target: Cls) returns (r: Result<Conversion>)
    requires bus.Valid() && bus.parent == null && !bus.cachesMisses
    modifies bus.Repr
    ensures bus.Valid() && r == ConvertAnswer(bus, source, target)
  {
    var converter := bus.Get(Key(ClassOf(source), target));
    match converter
    case Some(c) => r := Ok(Conversion(c, source, target));
    case None => r := Err(ConverterNotFoundException);
  }

  /**
   * The winner is some matching converter of the set, and `convert` fails
   * only when none matches; which one wins when several match is fixed by
   * the set's iteration order alone.
   */
  lemma ConvertPicksAMatch(order: seq<ConditionalConverter>, source: JObject, target: Cls)
    ensures var es := Entries(order);
      (Lookup(es, Key(ClassOf(source), target)).Some? ==>
        exists i :: 0 <= i < |order| && Lookup(es, Key(ClassOf(source), target)) == Some(order[i]) &&
          Matches(order[i], ClassOf(source), target))
    ensures Lookup(Entries(order), Key(ClassOf(source), target)).None? <==>
      forall i :: 0 <= i < |order| ==> !Matches(order[i], ClassOf(source), target)
  {
    var es := Entries(order);
    var k := Key(ClassOf(source), target);
    match FirstIndex(es, k)
    case Some(i) =>
      assert Lookup(es, k) == Some(order[i]);
    case None =>
      forall i | 0 <= i < |order| ensures !Matches(order[i], ClassOf(source), target) {
        assert !es[i].test(k);
      }
  }
}
