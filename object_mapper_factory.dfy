// ObjectMapperFactoryImpl: object mappers computed by the first field
// discoverer that recognises a type, tried newest first, and memoised in
// an insertion-ordered cache of at most 64 entries.
module ObjectMapperFactory {
  import opened JavaLang

  const MAXIMUM_MAPPERS_SIZE := 64

  /** A field discoverer: for a type, the instance factory it finds (null when it does not apply). */
  datatype Discoverer = Discoverer(id: nat, discover: Type -> Option<nat>)

  /** `new ObjectMapperImpl(type, fields, candidate)`. */
  datatype Mapper = ObjectMapperImpl(forType: Type, discoverer: nat, instanceFactory: nat)

  /** `computeMapper`'s loop: the first discoverer that yields a candidate builds the mapper. */
  function ComputeMapper(ds: seq<Discoverer>, t: Type): (r: Option<Mapper>)
    ensures r.None? <==> forall i :: 0 <= i < |ds| ==> ds[i].discover(t).None?
    ensures r.Some? ==>
      exists i :: 0 <= i < |ds| && ds[i].discover(t).Some? &&
        (forall j :: 0 <= j < i ==> ds[j].discover(t).None?) &&
        r.value == ObjectMapperImpl(t, ds[i].id, ds[i].discover(t).value)
  {
    if |ds| == 0 then None
    else match ds[0].discover(t)
      case Some(f) => Some(ObjectMapperImpl(t, ds[0].id, f))
      case None =>
        var rest := ComputeMapper(ds[1..], t);
        assert forall j :: 1 <= j < |ds| ==> ds[j] == ds[1..][j - 1];
        rest
  }

  /** `isMissingTypeParameters`: a raw use of a class that declares type parameters. */
  predicate IsMissingTypeParameters(t: Type, typeParameters: Cls -> nat)
  {
    t.ClassType? && typeParameters(t.cls) > 0
  }

  /** `get(type)` with an empty cache: what the factory answers for a type. */
  function Answer(ds: seq<Discoverer>, typeParameters: Cls -> nat, t: Type): Result<Mapper>
  {
    if IsMissingTypeParameters(t, typeParameters) then Err(SerializeException)
    else match ComputeMapper(ds, t)
      case Some(m) => Ok(m)
      case None => Err(Wrapped(SerializeException))
  }

  /** The cached mapper for a type, if the cache holds one. */
  function Cached(cache: seq<(Type, Mapper)>, t: Type): (r: Option<Mapper>)
    ensures r.Some? <==> exists i :: 0 <= i < |cache| && cache[i].0 == t
    ensures r.Some? ==> exists i :: 0 <= i < |cache| && cache[i] == (t, r.value)
  {
    if |cache| == 0 then None
    else if cache[0].0 == t then Some(cache[0].1)
    else
      var rest := Cached(cache[1..], t);
      assert forall j :: 1 <= j < |cache| ==> cache[j] == cache[1..][j - 1];
      rest
  }

  /** `LinkedHashMap.put` followed by `removeEldestEntry`: append, then drop the eldest beyond 64. */
  function Insert(cache: seq<(Type, Mapper)>, t: Type, m: Mapper): (r: seq<(Type, Mapper)>)
    requires |cache| <= MAXIMUM_MAPPERS_SIZE
    ensures 0 < |r| <= MAXIMUM_MAPPERS_SIZE && r[|r| - 1] == (t, m)
    ensures r == if |cache| < MAXIMUM_MAPPERS_SIZE then cache + [(t, m)] else cache[1..] + [(t, m)]
  {
    var c := cache + [(t, m)];
    if |c| > MAXIMUM_MAPPERS_SIZE then c[1..] else c
  }

  /**
   * A cache of at most 64 entries with distinct types, each a type that is
   * not raw and whose mapper is the one a fresh computation gives.
   */
  predicate ValidCache(ds: seq<Discoverer>, typeParameters: Cls -> nat, cache: seq<(Type, Mapper)>)
  {
    |cache| <= MAXIMUM_MAPPERS_SIZE &&
    (forall i, j :: 0 <= i < j < |cache| ==> cache[i].0 != cache[j].0) &&
    (forall i :: 0 <= i < |cache| ==> Answer(ds, typeParameters, cache[i].0) == Ok(cache[i].1))
  }

  /** Caching the answer for a type the cache does not hold keeps the cache valid, also when the eldest entry is dropped. */
  lemma InsertKeepsCacheValid(ds: seq<Discoverer>, typeParameters: Cls -> nat, cache: seq<(Type, Mapper)>, t: Type, m: Mapper)
    requires ValidCache(ds, typeParameters, cache)
    requires forall j :: 0 <= j < |cache| ==> cache[j].0 != t
    requires Answer(ds, typeParameters, t) == Ok(m)
    ensures ValidCache(ds, typeParameters, Insert(cache, t, m))
  {
    var r := Insert(cache, t, m);
    var shift := if |cache| < MAXIMUM_MAPPERS_SIZE then 0 else 1;
    assert forall i :: 0 <= i < |r| - 1 ==> r[i] == cache[i + shift];
  }

  /** Newest first: the discoverer list reversed. */
  function Reverse(ds: seq<Discoverer>): (r: seq<Discoverer>)
    ensures |r| == |ds| && forall i :: 0 <= i < |ds| ==> r[i] == ds[|ds| - 1 - i]
  {
    if |ds| == 0 then [] else [ds[|ds| - 1]] + Reverse(ds[..|ds| - 1])
  }

  /** The most recently added discoverer that recognises a type builds its mapper. */
  lemma LatestDiscovererWins(added: seq<Discoverer>, t: Type)
    requires |added| > 0 && added[|added| - 1].discover(t).Some?
    ensures ComputeMapper(Reverse(added), t) ==
      Some(ObjectMapperImpl(t, added[|added| - 1].id, added[|added| - 1].discover(t).value))
  {
    var r := Reverse(added);
    assert r[0] == added[|added| - 1];
  }

  /** The builder: discoverers in the order they are added. */
  class FactoryBuilder {
    var discoverers: seq<Discoverer>

    constructor ()
      ensures discoverers == []
    {
      discoverers := [];
    }

    method AddDiscoverer(d: Discoverer)
      modifies this
      ensures discoverers == old(discoverers) + [d]
    {
      discoverers := discoverers + [d];
    }

    method Build(typeParameters: Cls -> nat) returns (f: ObjectMapperFactoryImpl)
      ensures fresh(f) && f.Valid() && f.mappers == []
      ensures f.discoverers == Reverse(discoverers) && f.typeParameters == typeParameters
    {
      f := new ObjectMapperFactoryImpl(Reverse(discoverers), typeParameters);
    }
  }

  class ObjectMapperFactoryImpl {
    /** The discoverers, newest first. */
    const discoverers: seq<Discoverer>
    /** How many type parameters each class declares, as reflection reports it. */
    const typeParameters: Cls -> nat
    /** The mapper cache in insertion order. */
    var mappers: seq<(Type, Mapper)>

    /**
     * The cache holds at most 64 entries with distinct types, each a type
     * that is not raw and whose mapper is the one a fresh computation gives.
     */
    ghost predicate Valid()
      reads this
    {
      ValidCache(discoverers, typeParameters, mappers)
    }

    constructor (discoverers: seq<Discoverer>, typeParameters: Cls -> nat)
      ensures Valid() && mappers == []
      ensures this.discoverers == discoverers && this.typeParameters == typeParameters
    {
      this.discoverers := discoverers;
      this.typeParameters := typeParameters;
      mappers := [];
    }

    /**
     * `get(type)`: a raw type throws SerializeException; a cached type gets
     * its stored mapper without recomputation; otherwise the mapper is
     * computed and cached, and a failed computation surfaces wrapped in a
     * RuntimeException. The answer never depends on what the cache holds.
     */
    method Get(t: Type) returns (r: Result<Mapper>)
      requires Valid()
      modifies this
      ensures Valid() && r == Answer(discoverers, typeParameters, t)
      ensures mappers == (if r.Ok? && Cached(old(mappers), t).None?
                          then Insert(old(mappers), t, r.value) else old(mappers))
    {
      if IsMissingTypeParameters(t, typeParameters) {
        return Err(SerializeException);
      }
      var i := 0;
      while i < |mappers|
        invariant 0 <= i <= |mappers|
        invariant forall j :: 0 <= j < i ==> mappers[j].0 != t
      {
        if mappers[i].0 == t {
          return Ok(mappers[i].1);
        }
        i := i + 1;
      }
      var m := ComputeMapper(discoverers, t);
      match m
      case None =>
        r := Err(Wrapped(SerializeException));
      case Some(mapper) =>
        InsertKeepsCacheValid(discoverers, typeParameters, mappers, t, mapper);
        mappers := Insert(mappers, t, mapper);
        r := Ok(mapper);
    }
  }
}
