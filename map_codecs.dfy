// The map codecs: MapParserImpl (a parser), MapConverterImpl (a
// converter) and MapDeserializer. Each needs a parameterised type with
// exactly two type arguments, and fills a LinkedHashMap entry by entry.
module MapCodecs {
  import opened JavaLang
  import opened Containers

  /** The type is parameterised with exactly two type arguments, a key type and a value type. */
  predicate IsMapType(t: Type)
  {
    t.Parameterized? && |t.args| == 2
  }

  // ---------------------------------------------------------------------
  // MapParserImpl

  /**
   * `parsers()`: the key and value parsers the collection holds for the two
   * type arguments. A raw type, another number of type arguments, or a
   * missing parser throws SerializeException.
   */
  function Parsers(t: Type, lookup: Type -> Option<Codec>): (r: Result<(Codec, Codec)>)
    ensures r.Ok? <==> IsMapType(t) && lookup(t.args[0]).Some? && lookup(t.args[1]).Some?
    ensures r.Ok? ==> r.value == (lookup(t.args[0]).value, lookup(t.args[1]).value)
    ensures r.Err? ==> r.error == SerializeException
  {
    if !t.Parameterized? then Err(SerializeException)
    else if |t.args| != 2 then Err(SerializeException)
    else
      var keyParser := lookup(t.args[0]);
      var valueParser := lookup(t.args[1]);
      if keyParser.None? then Err(SerializeException)
      else if valueParser.None? then Err(SerializeException)
      else Ok((keyParser.value, valueParser.value))
  }

  /** What `parse(obj)` answers for a parser of type `t` over the collection `lookup`. */
  function ParseAnswer(t: Type, lookup: Type -> Option<Codec>, obj: Value): (r: Result<Value>)
    ensures !obj.MapOf? ==> r == Ok(MapOf([]))
    ensures obj.MapOf? && !IsMapType(t) ==> r == Err(SerializeException)
    ensures obj.MapOf? ==>
      (r.Ok? <==>
        Parsers(t, lookup).Ok? &&
        AllEntriesConvert(obj.entries, Parsers(t, lookup).value.0.read, Parsers(t, lookup).value.1.read))
    ensures r.Ok? ==> r.value.MapOf? && DistinctKeys(r.value.entries)
  {
    if !obj.MapOf? then Ok(MapOf([]))
    else match Parsers(t, lookup)
      case Err(e) => Err(e)
      case Ok(ps) =>
        match ConvertInto([], obj.entries, ps.0.read, ps.1.read)
        case Err(e) => Err(e)
        case Ok(m) => Ok(MapOf(m))
  }

  /**
   * `parse(obj)`: a non-map yields an empty map without consulting the type;
   * a map has each key and value parsed into an insertion-ordered map.
   */
  method Parse(t: Type, lookup: Type -> Option<Codec>, obj: Value) returns (r: Result<Value>)
    ensures r == ParseAnswer(t, lookup, obj)
  {
    if !obj.MapOf? {
      return Ok(MapOf([]));
    }
    var parsers := Parsers(t, lookup);
    if parsers.Err? {
      return Err(parsers.error);
    }
    var m := FillMap(obj.entries, parsers.value.0.read, parsers.value.1.read);
    match m
    case Err(e) => r := Err(e);
    case Ok(entries) => r := Ok(MapOf(entries));
  }

  /** What `serialize(map)` answers: the parsers are needed even for an empty map. */
  function SerializeAnswer(t: Type, lookup: Type -> Option<Codec>, m: seq<(Value, Value)>): (r: Result<Value>)
    ensures Parsers(t, lookup).Err? ==> r == Err(SerializeException)
    ensures r.Ok? <==>
      Parsers(t, lookup).Ok? &&
      AllEntriesConvert(m, Parsers(t, lookup).value.0.write, Parsers(t, lookup).value.1.write)
    ensures r.Ok? ==> r.value.MapOf? && DistinctKeys(r.value.entries)
  {
    match Parsers(t, lookup)
    case Err(e) => Err(e)
    case Ok(ps) =>
      match ConvertInto([], m, ps.0.write, ps.1.write)
      case Err(e) => Err(e)
      case Ok(out) => Ok(MapOf(out))
  }

  /** `serialize(map)`: each key and value serialised, into an insertion-ordered map. */
  method Serialize(t: Type, lookup: Type -> Option<Codec>, m: seq<(Value, Value)>) returns (r: Result<Value>)
    ensures r == SerializeAnswer(t, lookup, m)
  {
    var parsers := Parsers(t, lookup);
    if parsers.Err? {
      return Err(parsers.error);
    }
    var out := FillMap(m, parsers.value.0.write, parsers.value.1.write);
    match out
    case Err(e) => r := Err(e);
    case Ok(entries) => r := Ok(MapOf(entries));
  }

  /**
   * Parsing keeps the source's entry order whenever the parsed keys are
   * pairwise distinct.
   */
  lemma ParseKeepsOrder(t: Type, lookup: Type -> Option<Codec>, obj: Value)
    requires obj.MapOf? && Parsers(t, lookup).Ok?
    requires AllEntriesConvert(obj.entries, Parsers(t, lookup).value.0.read, Parsers(t, lookup).value.1.read)
    requires DistinctKeys(ConvertedEntries(obj.entries, Parsers(t, lookup).value.0.read, Parsers(t, lookup).value.1.read))
    ensures ParseAnswer(t, lookup, obj) ==
      Ok(MapOf(ConvertedEntries(obj.entries, Parsers(t, lookup).value.0.read, Parsers(t, lookup).value.1.read)))
  {
    var ps := Parsers(t, lookup).value;
    var c := ConvertedEntries(obj.entries, ps.0.read, ps.1.read);
    assert [] + c == c;
    ConvertIntoKeepsOrder([], obj.entries, ps.0.read, ps.1.read);
  }

  /**
   * Serialising a map and parsing the result gives the map back, whenever
   * the key and value parsers each parse back what they serialise.
   */
  lemma SerializeThenParse(t: Type, lookup: Type -> Option<Codec>, m: seq<(Value, Value)>)
    requires Parsers(t, lookup).Ok? && DistinctKeys(m)
    requires var ps := Parsers(t, lookup).value; EntriesRoundTrip(m, ps.0.write, ps.1.write, ps.0.read, ps.1.read)
    ensures SerializeAnswer(t, lookup, m).Ok?
    ensures ParseAnswer(t, lookup, SerializeAnswer(t, lookup, m).value) == Ok(MapOf(m))
  {
    var ps := Parsers(t, lookup).value;
    FillRoundTrip(m, ps.0.write, ps.1.write, ps.0.read, ps.1.read);
  }

  // ---------------------------------------------------------------------
  // MapConverterImpl

  /** A map converter: the element converters for its key and value types. */
  datatype MapConverter = MapConverterImpl(keyConverter: Codec, valueConverter: Codec)

  /**
   * `create(type, collection)`: a raw type or another number of type
   * arguments is an IllegalArgumentException; otherwise the bus's converters
   * for the key type and then the value type, whose lookups may throw.
   */
  function Create(t: Type, get: Type -> Result<Codec>): (r: Result<MapConverter>)
    ensures !IsMapType(t) ==> r == Err(IllegalArgumentException)
    ensures IsMapType(t) && get(t.args[0]).Err? ==> r == Err(get(t.args[0]).error)
    ensures IsMapType(t) && get(t.args[0]).Ok? && get(t.args[1]).Err? ==> r == Err(get(t.args[1]).error)
    ensures r.Ok? <==> IsMapType(t) && get(t.args[0]).Ok? && get(t.args[1]).Ok?
    ensures r.Ok? ==> r.value == MapConverterImpl(get(t.args[0]).value, get(t.args[1]).value)
  {
    if !t.Parameterized? then Err(IllegalArgumentException)
    else if |t.args| != 2 then Err(IllegalArgumentException)
    else match get(t.args[0])
      case Err(e) => Err(e)
      case Ok(keyConverter) =>
        match get(t.args[1])
        case Err(e) => Err(e)
        case Ok(valueConverter) => Ok(MapConverterImpl(keyConverter, valueConverter))
  }

  /** What `read(obj)` answers: a non-map is a ConversionFailedException. */
  function ReadAnswer(c: MapConverter, obj: Value): (r: Result<Value>)
    ensures !obj.MapOf? ==> r == Err(ConversionFailedException)
    ensures obj.MapOf? ==> (r.Ok? <==> AllEntriesConvert(obj.entries, c.keyConverter.read, c.valueConverter.read))
    ensures r.Ok? ==> r.value.MapOf? && DistinctKeys(r.value.entries)
  {
    if !obj.MapOf? then Err(ConversionFailedException)
    else match ConvertInto([], obj.entries, c.keyConverter.read, c.valueConverter.read)
      case Err(e) => Err(e)
      case Ok(m) => Ok(MapOf(m))
  }

  /** `read(obj)`: every key and value read, into an insertion-ordered map. */
  method Read(c: MapConverter, obj: Value) returns (r: Result<Value>)
    ensures r == ReadAnswer(c, obj)
  {
    if !obj.MapOf? {
      return Err(ConversionFailedException);
    }
    var m := FillMap(obj.entries, c.keyConverter.read, c.valueConverter.read);
    match m
    case Err(e) => r := Err(e);
    case Ok(entries) => r := Ok(MapOf(entries));
  }

  function WriteAnswer(c: MapConverter, m: seq<(Value, Value)>): (r: Result<Value>)
    ensures r.Ok? <==> AllEntriesConvert(m, c.keyConverter.write, c.valueConverter.write)
    ensures r.Ok? ==> r.value.MapOf? && DistinctKeys(r.value.entries)
  {
    match ConvertInto([], m, c.keyConverter.write, c.valueConverter.write)
    case Err(e) => Err(e)
    case Ok(out) => Ok(MapOf(out))
  }

  /** `write(map)`: every key and value written, into an insertion-ordered map. */
  method Write(c: MapConverter, m: seq<(Value, Value)>) returns (r: Result<Value>)
    ensures r == WriteAnswer(c, m)
  {
    var out := FillMap(m, c.keyConverter.write, c.valueConverter.write);
    match out
    case Err(e) => r := Err(e);
    case Ok(entries) => r := Ok(MapOf(entries));
  }

  /** Reading keeps the entry order whenever the converted keys are pairwise distinct. */
  lemma ReadKeepsOrder(c: MapConverter, obj: Value)
    requires obj.MapOf? && AllEntriesConvert(obj.entries, c.keyConverter.read, c.valueConverter.read)
    requires DistinctKeys(ConvertedEntries(obj.entries, c.keyConverter.read, c.valueConverter.read))
    ensures ReadAnswer(c, obj) == Ok(MapOf(ConvertedEntries(obj.entries, c.keyConverter.read, c.valueConverter.read)))
  {
    var conv := ConvertedEntries(obj.entries, c.keyConverter.read, c.valueConverter.read);
    assert [] + conv == conv;
    ConvertIntoKeepsOrder([], obj.entries, c.keyConverter.read, c.valueConverter.read);
  }

  /** Writing a map and reading the result gives the map back when each converter reads back what it writes. */
  lemma WriteThenRead(c: MapConverter, m: seq<(Value, Value)>)
    requires DistinctKeys(m)
    requires EntriesRoundTrip(m, c.keyConverter.write, c.valueConverter.write, c.keyConverter.read, c.valueConverter.read)
    ensures WriteAnswer(c, m).Ok? && ReadAnswer(c, WriteAnswer(c, m).value) == Ok(MapOf(m))
  {
    FillRoundTrip(m, c.keyConverter.write, c.valueConverter.write, c.keyConverter.read, c.valueConverter.read);
  }

  // ---------------------------------------------------------------------
  // MapDeserializer

  /** A SpecificDeserializer: `deserialize(value, type)`, which may throw. */
  type Deserializer = (Value, Type) -> Result<Value>

  /**
   * What `deserialize(obj, type)` answers, with `defaults` standing for the
   * default serializer collection. A non-map is an empty map whatever the
   * type; a map needs a two-argument type and a deserializer for each
   * argument, else SerializeException.
   */
  function DeserializeAnswer(obj: Value, t: Type, defaults: Type -> Option<Deserializer>): (r: Result<Value>)
    ensures !obj.MapOf? ==> r == Ok(MapOf([]))
    ensures obj.MapOf? && !(IsMapType(t) && defaults(t.args[0]).Some? && defaults(t.args[1]).Some?) ==>
      r == Err(SerializeException)
    ensures obj.MapOf? && IsMapType(t) && defaults(t.args[0]).Some? && defaults(t.args[1]).Some? ==>
      var key, value := t.args[0], t.args[1];
      r.Ok? <==> AllEntriesConvert(obj.entries, x => defaults(key).value(x, key), x => defaults(value).value(x, value))
    ensures r.Ok? ==> r.value.MapOf? && DistinctKeys(r.value.entries)
  {
    if !obj.MapOf? then Ok(MapOf([]))
    else if !t.Parameterized? then Err(SerializeException)
    else if |t.args| != 2 then Err(SerializeException)
    else
      var key, value := t.args[0], t.args[1];
      var keySerial, valueSerial := defaults(key), defaults(value);
      if keySerial.None? then Err(SerializeException)
      else if valueSerial.None? then Err(SerializeException)
      else
        match ConvertInto([], obj.entries, x => keySerial.value(x, key), x => valueSerial.value(x, value))
        case Err(e) => Err(e)
        case Ok(m) => Ok(MapOf(m))
  }

  /** `deserialize(obj, type)`: each key and value deserialised to its type argument. */
  method Deserialize(obj: Value, t: Type, defaults: Type -> Option<Deserializer>) returns (r: Result<Value>)
    ensures r == DeserializeAnswer(obj, t, defaults)
  {
    if !obj.MapOf? {
      return Ok(MapOf([]));
    }
    if !t.Parameterized? || |t.args| != 2 {
      return Err(SerializeException);
    }
    var key, value := t.args[0], t.args[1];
    var keySerial, valueSerial := defaults(key), defaults(value);
    if keySerial.None? || valueSerial.None? {
      return Err(SerializeException);
    }
    var ks, vs := keySerial.value, valueSerial.value;
    var m := FillMap(obj.entries, x => ks(x, key), x => vs(x, value));
    match m
    case Err(e) => r := Err(e);
    case Ok(entries) => r := Ok(MapOf(entries));
  }
}
