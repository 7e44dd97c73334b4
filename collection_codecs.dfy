// The collection codecs: AbstractCollectionConverter (a converter),
// AbstractCollectionParser and AbstractListChildParser (parsers that fill
// a container through their subclass's `createNew` and `deserializeSingle`)
// and SetParserImpl, the set-valued subclass.
module CollectionCodecs {
  import opened JavaLang
  import opened Containers

  // ---------------------------------------------------------------------
  // AbstractCollectionConverter

  /** A collection converter: the collection its `createNew` makes, the entry type and the entry converter. */
  datatype CollectionConverter = CollectionConverter(kind: ContainerKind, entryType: Type, entryConverter: Codec)

  /**
   * `create(type, collection, function)`: a raw type is an
   * IllegalArgumentException; the entry type is the first type argument
   * (an empty argument list indexes out of bounds), and its converter is
   * the bus's, whose lookup may throw.
   */
  function CreateConverter(kind: ContainerKind, t: Type, get: Type -> Result<Codec>): (r: Result<CollectionConverter>)
    ensures !t.Parameterized? ==> r == Err(IllegalArgumentException)
    ensures r.Ok? <==> t.Parameterized? && |t.args| > 0 && get(t.args[0]).Ok?
    ensures r.Ok? ==> r.value == CollectionConverter(kind, t.args[0], get(t.args[0]).value)
    ensures t.Parameterized? && |t.args| > 0 && get(t.args[0]).Err? ==> r == Err(get(t.args[0]).error)
  {
    if !t.Parameterized? then Err(IllegalArgumentException)
    else if |t.args| == 0 then Err(IndexOutOfBoundsException)
    else match get(t.args[0])
      case Err(e) => Err(e)
      case Ok(converter) => Ok(CollectionConverter(kind, t.args[0], converter))
  }

  /**
   * What `read(value)` answers: a collection has each element read in
   * iteration order; any other value becomes a one-element collection of
   * its own conversion.
   */
  function ReadAnswer(c: CollectionConverter, v: Value): (r: Result<Value>)
    ensures IsCollection(v) ==> (r.Ok? <==> AllConvert(v.elems, c.entryConverter.read))
    ensures !IsCollection(v) ==> (r.Ok? <==> c.entryConverter.read(v).Ok?)
    ensures !IsCollection(v) && r.Ok? ==> r.value == Collect(c.kind, [c.entryConverter.read(v).value])
    ensures r.Ok? ==> IsCollection(r.value) && (r.value.SetOf? <==> c.kind.SetKind?)
    ensures r.Ok? && c.kind.SetKind? ==> Distinct(r.value.elems)
  {
    var elems := if IsCollection(v) then v.elems else [v];
    assert Distinct([]);
    ConvertAllSingleton(c.kind, v, c.entryConverter.read);
    match ConvertAll(c.kind, [], elems, c.entryConverter.read)
    case Err(e) => Err(e)
    case Ok(out) => Ok(Collect(c.kind, out))
  }

  method Read(c: CollectionConverter, v: Value) returns (r: Result<Value>)
    ensures r == ReadAnswer(c, v)
  {
    var elems := if IsCollection(v) then v.elems else [v];
    var out := AddAll(c.kind, elems, c.entryConverter.read);
    match out
    case Err(e) => r := Err(e);
    case Ok(filled) => r := Ok(Collect(c.kind, filled));
  }

  /** What `write(collection)` answers: each element written in iteration order. */
  function WriteAnswer(c: CollectionConverter, elems: seq<Value>): (r: Result<Value>)
    ensures r.Ok? <==> AllConvert(elems, c.entryConverter.write)
    ensures r.Ok? ==> IsCollection(r.value) && (r.value.SetOf? <==> c.kind.SetKind?)
    ensures r.Ok? ==>
      (set y | y in r.value.elems) == (set i | 0 <= i < |elems| && c.entryConverter.write(elems[i]).Ok? :: c.entryConverter.write(elems[i]).value)
  {
    match ConvertAll(c.kind, [], elems, c.entryConverter.write)
    case Err(e) => Err(e)
    case Ok(out) => Ok(Collect(c.kind, out))
  }

  method Write(c: CollectionConverter, elems: seq<Value>) returns (r: Result<Value>)
    ensures r == WriteAnswer(c, elems)
  {
    var out := AddAll(c.kind, elems, c.entryConverter.write);
    match out
    case Err(e) => r := Err(e);
    case Ok(filled) => r := Ok(Collect(c.kind, filled));
  }

  /** A list converter reads a collection into the list of the elements' conversions, in iteration order. */
  lemma ListReadKeepsOrder(c: CollectionConverter, v: Value)
    requires c.kind.ListKind? && IsCollection(v) && AllConvert(v.elems, c.entryConverter.read)
    ensures ReadAnswer(c, v).Ok?
    ensures var out := ReadAnswer(c, v).value;
      out.ListOf? && |out.elems| == |v.elems| &&
      forall i :: 0 <= i < |v.elems| ==> out.elems[i] == c.entryConverter.read(v.elems[i]).value
  {
    ConvertAllListKeepsOrder([], v.elems, c.entryConverter.read);
  }

  /** A list converter that reads back what it writes turns a written list back into the original. */
  lemma ListWriteThenRead(c: CollectionConverter, elems: seq<Value>)
    requires c.kind.ListKind?
    requires forall i :: 0 <= i < |elems| ==>
      c.entryConverter.write(elems[i]).Ok? &&
      c.entryConverter.read(c.entryConverter.write(elems[i]).value) == Ok(elems[i])
    ensures WriteAnswer(c, elems).Ok?
    ensures ReadAnswer(c, WriteAnswer(c, elems).value) == Ok(ListOf(elems))
  {
    assert AllConvert(elems, c.entryConverter.write);
    ConvertAllListKeepsOrder([], elems, c.entryConverter.write);
    var written := WriteAnswer(c, elems).value;
    forall i | 0 <= i < |elems| ensures written.elems[i] == c.entryConverter.write(elems[i]).value {
      assert written.elems[0 + i] == c.entryConverter.write(elems[i]).value;
    }
    assert AllConvert(written.elems, c.entryConverter.read);
    ConvertAllListKeepsOrder([], written.elems, c.entryConverter.read);
    var back := ReadAnswer(c, written).value;
    assert back.elems == elems;
  }

  // ---------------------------------------------------------------------
  // AbstractCollectionParser and AbstractListChildParser

  /**
   * A subclass's container operations: `createNew(length, elementType)` and
   * `deserializeSingle(index, container, element)`, each of which may throw.
   * Filling updates the container in place; here `single` returns it.
   */
  datatype Filler<!C> = Filler(createNew: (int, Type) -> Result<C>, single: (int, C, Value) -> Result<C>)

  /** Some element from position `i` on fails to parse. */
  predicate SomeFailsFrom(elems: seq<Value>, p: Value -> Result<Value>, i: nat)
  {
    exists j :: i <= j < |elems| && p(elems[j]).Err?
  }

  /**
   * The filling loop from index `i`: element `i` parsed, then handed to
   * `deserializeSingle` with index `i`; the first exception ends the loop.
   */
  function FillFrom<C>(f: Filler<C>, c: C, elems: seq<Value>, p: Value -> Result<Value>, i: nat): (r: Result<C>)
    requires i <= |elems|
    ensures SomeFailsFrom(elems, p, i) ==> r.Err?
    decreases |elems| - i
  {
    if i == |elems| then Ok(c)
    else match p(elems[i])
      case Err(e) => Err(e)
      case Ok(v) =>
        match f.single(i, c, v)
        case Err(e) => Err(e)
        case Ok(c') =>
          var r := FillFrom(f, c', elems, p, i + 1);
          assert SomeFailsFrom(elems, p, i) ==> SomeFailsFrom(elems, p, i + 1);
          r
  }

  /** The loop itself. */
  method FillContainer<C>(f: Filler<C>, c: C, elems: seq<Value>, p: Value -> Result<Value>) returns (r: Result<C>)
    ensures r == FillFrom(f, c, elems, p, 0)
  {
    var ret := c;
    var i := 0;
    while i < |elems|
      invariant 0 <= i <= |elems|
      invariant FillFrom(f, ret, elems, p, i) == FillFrom(f, c, elems, p, 0)
    {
      var v := p(elems[i]);
      if v.Err? {
        return Err(v.error);
      }
      var next := f.single(i, ret, v.value);
      if next.Err? {
        return Err(next.error);
      }
      ret := next.value;
      i := i + 1;
    }
    return Ok(ret);
  }

  /** Create the container for `elems` and fill it. */
  function CreateAndFill<C>(f: Filler<C>, elems: seq<Value>, elementType: Type, p: Value -> Result<Value>): Result<C>
  {
    match f.createNew(|elems|, elementType)
    case Err(e) => Err(e)
    case Ok(c) => FillFrom(f, c, elems, p, 0)
  }

  /**
   * What AbstractCollectionParser's `parse(value)` answers: the element type
   * from `elementType(type)`, the collection's parser for it (a missing one
   * is a SerializeException), then a container of the collection's size
   * filled in iteration order, or a one-element container for any other value.
   */
  function CollectionParseAnswer<C>(t: Type, elementType: Type -> Result<Type>, f: Filler<C>,
                                    lookup: Type -> Option<Codec>, value: Value): (r: Result<C>)
    ensures elementType(t).Err? ==> r == Err(elementType(t).error)
    ensures elementType(t).Ok? && lookup(elementType(t).value).None? ==> r == Err(SerializeException)
    ensures elementType(t).Ok? && lookup(elementType(t).value).Some? ==>
      r == CreateAndFill(f, if IsCollection(value) then value.elems else [value],
                         elementType(t).value, lookup(elementType(t).value).value.read)
  {
    match elementType(t)
    case Err(e) => Err(e)
    case Ok(entryType) =>
      match lookup(entryType)
      case None => Err(SerializeException)
      case Some(entrySerial) =>
        CreateAndFill(f, if IsCollection(value) then value.elems else [value], entryType, entrySerial.read)
  }

  method CollectionParse<C>(t: Type, elementType: Type -> Result<Type>, f: Filler<C>,
                            lookup: Type -> Option<Codec>, value: Value) returns (r: Result<C>)
    ensures r == CollectionParseAnswer(t, elementType, f, lookup, value)
  {
    var entryType := elementType(t);
    if entryType.Err? {
      return Err(entryType.error);
    }
    var entrySerial := lookup(entryType.value);
    if entrySerial.None? {
      return Err(SerializeException);
    }
    var elems := if IsCollection(value) then value.elems else [value];
    var created := f.createNew(|elems|, entryType.value);
    if created.Err? {
      return Err(created.error);
    }
    r := FillContainer(f, created.value, elems, entrySerial.value.read);
  }

  /**
   * What AbstractListChildParser's `parse(value)` answers: the parser is
   * looked up for the parser's own type, and only a list (not any other
   * collection) is filled element by element.
   */
  function ListChildParseAnswer<C>(t: Type, f: Filler<C>, lookup: Type -> Option<Codec>, value: Value): (r: Result<C>)
    ensures lookup(t).None? ==> r == Err(SerializeException)
    ensures lookup(t).Some? ==>
      r == CreateAndFill(f, if value.ListOf? then value.elems else [value], t, lookup(t).value.read)
  {
    match lookup(t)
    case None => Err(SerializeException)
    case Some(entrySerial) => CreateAndFill(f, if value.ListOf? then value.elems else [value], t, entrySerial.read)
  }

  method ListChildParse<C>(t: Type, f: Filler<C>, lookup: Type -> Option<Codec>, value: Value) returns (r: Result<C>)
    ensures r == ListChildParseAnswer(t, f, lookup, value)
  {
    var entrySerial := lookup(t);
    if entrySerial.None? {
      return Err(SerializeException);
    }
    var elems := if value.ListOf? then value.elems else [value];
    var created := f.createNew(|elems|, t);
    if created.Err? {
      return Err(created.error);
    }
    r := FillContainer(f, created.value, elems, entrySerial.value.read);
  }

  /** AbstractListChildParser's default `elementType`: always IllegalStateException. */
  function DefaultElementType(containerType: Type): (r: Result<Type>)
    ensures r == Err(IllegalStateException)
  {
    Err(IllegalStateException)
  }

  /** AbstractListChildParser's default `createNew`: always IllegalStateException. */
  function DefaultCreateNew<C>(length: int, elementType: Type): (r: Result<C>)
    ensures r == Err(IllegalStateException)
  {
    Err(IllegalStateException)
  }

  /**
   * A list-child parser that keeps the default `createNew` fails on every
   * input: SerializeException without a parser for its type, otherwise
   * IllegalStateException.
   */
  lemma ListChildWithDefaultCreateNewFails<C>(t: Type, single: (int, C, Value) -> Result<C>,
                                             lookup: Type -> Option<Codec>, value: Value)
    ensures ListChildParseAnswer(t, Filler(DefaultCreateNew, single), lookup, value) ==
      Err(if lookup(t).None? then SerializeException else IllegalStateException)
  {
    var f: Filler<C> := Filler(DefaultCreateNew, single);
    assert f.createNew(if value.ListOf? then |value.elems| else 1, t) == Err(IllegalStateException);
  }

  /**
   * A filler that records every `deserializeSingle` call: what the parsers
   * hand their subclass, call by call.
   */
  function Recorder(): Filler<seq<(int, Value)>>
  {
    Filler((n: int, et: Type) => Ok([]), (i: int, log: seq<(int, Value)>, v: Value) => Ok(log + [(i, v)]))
  }

  /** The calls made from index `i` on: index `i + j` with element `i + j`'s parse, for each j. */
  lemma {:induction false} RecordedCalls(log: seq<(int, Value)>, elems: seq<Value>, p: Value -> Result<Value>, i: nat)
    requires i <= |elems| && AllConvert(elems, p)
    ensures FillFrom(Recorder(), log, elems, p, i).Ok?
    ensures var out := FillFrom(Recorder(), log, elems, p, i).value;
      |out| == |log| + |elems| - i && out[..|log|] == log &&
      forall k :: |log| <= k < |out| ==> out[k] == (k - |log| + i, p(elems[k - |log| + i]).value)
    decreases |elems| - i
  {
    if i < |elems| {
      var log' := log + [(i, p(elems[i]).value)];
      RecordedCalls(log', elems, p, i + 1);
      var out := FillFrom(Recorder(), log, elems, p, i).value;
      assert out == FillFrom(Recorder(), log', elems, p, i + 1).value;
      assert out[..|log|] == out[..|log'|][..|log|];
      assert out[..|log'|] == log';
      assert out[|log|] == out[..|log'|][|log|];
    } else {
      assert log[..|log|] == log;
    }
  }

  /**
   * AbstractCollectionParser hands `deserializeSingle` the indices
   * 0..n-1 in iteration order for a collection, and index 0 alone for any
   * other value.
   */
  lemma CollectionParseCallsInOrder(t: Type, elementType: Type -> Result<Type>, lookup: Type -> Option<Codec>, value: Value)
    requires elementType(t).Ok? && lookup(elementType(t).value).Some?
    requires var p := lookup(elementType(t).value).value.read;
      if IsCollection(value) then AllConvert(value.elems, p) else p(value).Ok?
    ensures var p := lookup(elementType(t).value).value.read;
      var calls := CollectionParseAnswer(t, elementType, Recorder(), lookup, value);
      calls.Ok? &&
      if IsCollection(value)
      then |calls.value| == |value.elems| &&
        forall j :: 0 <= j < |value.elems| ==> calls.value[j] == (j, p(value.elems[j]).value)
      else calls.value == [(0, p(value).value)]
  {
    var p := lookup(elementType(t).value).value.read;
    var elems := if IsCollection(value) then value.elems else [value];
    assert AllConvert(elems, p);
    RecordedCalls([], elems, p, 0);
  }

  /** AbstractListChildParser does the same for a list, and treats a set as a single value. */
  lemma ListChildParseCallsInOrder(t: Type, lookup: Type -> Option<Codec>, value: Value)
    requires lookup(t).Some?
    requires if value.ListOf? then AllConvert(value.elems, lookup(t).value.read) else lookup(t).value.read(value).Ok?
    ensures var p := lookup(t).value.read;
      var calls := ListChildParseAnswer(t, Recorder(), lookup, value);
      calls.Ok? &&
      if value.ListOf?
      then |calls.value| == |value.elems| &&
        forall j :: 0 <= j < |value.elems| ==> calls.value[j] == (j, p(value.elems[j]).value)
      else calls.value == [(0, p(value).value)]
  {
    var p := lookup(t).value.read;
    var elems := if value.ListOf? then value.elems else [value];
    assert AllConvert(elems, p);
    RecordedCalls([], elems, p, 0);
  }

  // ---------------------------------------------------------------------
  // SetParserImpl

  /** `elementType(type)`: a raw type is a SerializeException; otherwise the first type argument. */
  function SetElementType(containerType: Type): (r: Result<Type>)
    ensures !containerType.Parameterized? ==> r == Err(SerializeException)
    ensures r.Ok? <==> containerType.Parameterized? && |containerType.args| > 0
    ensures r.Ok? ==> r.value == containerType.args[0]
  {
    if !containerType.Parameterized? then Err(SerializeException)
    else if |containerType.args| == 0 then Err(IndexOutOfBoundsException)
    else Ok(containerType.args[0])
  }

  /** The set parser's container operations: an empty HashSet, and `add` ignoring the index. */
  function SetFiller(): (f: Filler<seq<Value>>)
    ensures forall n, et :: f.createNew(n, et) == Ok([])
    ensures forall i, s, v :: f.single(i, s, v) == Ok(Add(SetKind, s, v))
  {
    Filler((n: int, et: Type) => Ok([]), (i: int, s: seq<Value>, v: Value) => Ok(Add(SetKind, s, v)))
  }

  /** Filling a set is adding every parsed element, whatever the indices. */
  lemma {:induction false} SetFillIsAddAll(s: seq<Value>, elems: seq<Value>, p: Value -> Result<Value>, i: nat)
    requires i <= |elems|
    ensures FillFrom(SetFiller(), s, elems, p, i) == ConvertAll(SetKind, s, elems[i..], p)
    decreases |elems| - i
  {
    if i < |elems| {
      assert elems[i..][1..] == elems[i + 1..];
      match p(elems[i])
      case Err(_) =>
      case Ok(v) => SetFillIsAddAll(Add(SetKind, s, v), elems, p, i + 1);
    } else {
      assert elems[i..] == [];
    }
  }

  /**
   * The set parser holds each parsed element once, and exactly the parsed
   * elements: duplicates collapse.
   */
  lemma SetParseCollapsesDuplicates(t: Type, lookup: Type -> Option<Codec>, value: Value)
    requires t.Parameterized? && |t.args| > 0 && lookup(t.args[0]).Some?
    requires var p := lookup(t.args[0]).value.read;
      if IsCollection(value) then AllConvert(value.elems, p) else p(value).Ok?
    ensures var p := lookup(t.args[0]).value.read;
      var elems := if IsCollection(value) then value.elems else [value];
      var r := CollectionParseAnswer(t, SetElementType, SetFiller(), lookup, value);
      r.Ok? && Distinct(r.value) &&
      (set y | y in r.value) == (set i | 0 <= i < |elems| && p(elems[i]).Ok? :: p(elems[i]).value)
  {
    var p := lookup(t.args[0]).value.read;
    var elems := if IsCollection(value) then value.elems else [value];
    assert AllConvert(elems, p);
    SetFillIsAddAll([], elems, p, 0);
    assert elems[0..] == elems;
    assert (set y: Value | y in []) == {};
  }

  /** The first exception the action throws on the elements, in iteration order. */
  function FirstThrow(elems: seq<Value>, action: Value -> Option<Exception>): (r: Option<Exception>)
    ensures r.None? <==> forall i :: 0 <= i < |elems| ==> action(elems[i]).None?
    ensures r.Some? ==>
      exists i :: 0 <= i < |elems| && action(elems[i]) == r &&
        forall j :: 0 <= j < i ==> action(elems[j]).None?
  {
    if |elems| == 0 then None
    else if action(elems[0]).Some? then action(elems[0])
    else
      var rest := FirstThrow(elems[1..], action);
      assert forall j :: 1 <= j < |elems| ==> elems[j] == elems[1..][j - 1];
      rest
  }

  /** `forEachElement(set, action)`: the action applied to each element until one throws. */
  method ForEachElement(s: seq<Value>, action: Value -> Option<Exception>) returns (r: Option<Exception>)
    ensures r == FirstThrow(s, action)
  {
    var i := 0;
    while i < |s|
      invariant 0 <= i <= |s|
      invariant FirstThrow(s[i..], action) == FirstThrow(s, action)
    {
      assert s[i..][1..] == s[i + 1..];
      var thrown := action(s[i]);
      if thrown.Some? {
        return thrown;
      }
      i := i + 1;
    }
    assert s[i..] == [];
    return None;
  }
}
