// The conelux MapToMapConverter: converts a map's keys and values through
// the conversion bus, and hands back the source map itself when nothing
// needed converting.
module MapToMap {
  import opened JavaLang
  import opened Containers

  /** `getParameterTypes(type)`: the two type arguments of a parameterised type, else null. */
  function GetParameterTypes(t: Type): (r: Option<(Type, Type)>)
    ensures r.Some? <==> t.Parameterized? && |t.args| == 2
    ensures r.Some? ==> r.value == (t.args[0], t.args[1])
  {
    if t.Parameterized? && |t.args| == 2 then Some((t.args[0], t.args[1])) else None
  }

  /**
   * `matches(sourceType, targetType)`: both types have two type arguments,
   * and the bus can convert the key types and the value types.
   */
  predicate Matches(sourceType: Type, targetType: Type, canConvert: (Type, Type) -> bool)
  {
    var sp, tp := GetParameterTypes(sourceType), GetParameterTypes(targetType);
    sp.Some? && tp.Some? && canConvert(sp.value.0, tp.value.0) && canConvert(sp.value.1, tp.value.1)
  }

  /** A converter matches exactly the two-argument type pairs whose argument pairs the bus can convert. */
  lemma MatchesIff(sourceType: Type, targetType: Type, canConvert: (Type, Type) -> bool)
    ensures Matches(sourceType, targetType, canConvert) <==>
      sourceType.Parameterized? && |sourceType.args| == 2 &&
      targetType.Parameterized? && |targetType.args| == 2 &&
      canConvert(sourceType.args[0], targetType.args[0]) && canConvert(sourceType.args[1], targetType.args[1])
  {
  }

  /** What `convert` hands back: the source map itself, or a fresh map of the converted entries. */
  datatype Converted = SourceItself | Fresh(entries: seq<(Value, Value)>)

  /** The bus's `convert(value, sourceType, targetType)`, which may throw. */
  type BusConvert = (Value, Type, Type) -> Result<Value>

  /**
   * The loop that collects the target entries from index `i` on: the key is
   * converted, then the value from the source value and the converted key
   * by `valueStep`; the first exception ends the loop.
   */
  function TargetEntriesFrom(acc: seq<(Value, Value)>, source: seq<(Value, Value)>, i: nat,
                             keyStep: Value -> Result<Value>, valueStep: (Value, Value) -> Result<Value>):
    (r: Result<seq<(Value, Value)>>)
    requires i <= |source|
    ensures r.Ok? ==> |r.value| == |acc| + |source| - i && r.value[..|acc|] == acc
    decreases |source| - i
  {
    if i == |source| then Ok(acc)
    else match keyStep(source[i].0)
      case Err(e) => Err(e)
      case Ok(k) =>
        match valueStep(source[i].1, k)
        case Err(e) => Err(e)
        case Ok(v) =>
          var r := TargetEntriesFrom(acc + [(k, v)], source, i + 1, keyStep, valueStep);
          assert r.Ok? ==> r.value[..|acc|] == r.value[..|acc| + 1][..|acc|];
          r
  }

  /** `targetMap.put` for each collected entry in order. */
  function PutAll(acc: seq<(Value, Value)>, entries: seq<(Value, Value)>): (r: seq<(Value, Value)>)
    ensures Keys(r) == Keys(acc) + Keys(entries)
    ensures DistinctKeys(acc) ==> DistinctKeys(r)
    ensures DistinctKeys(acc + entries) ==> r == acc + entries
    decreases |entries|
  {
    if |entries| == 0 then
      assert acc + entries == acc;
      acc
    else
      KeysCons(entries);
      var r := PutAll(Put(acc, entries[0].0, entries[0].1), entries[1..]);
      assert DistinctKeys(acc + entries) ==> r == acc + entries by {
        if DistinctKeys(acc + entries) {
          FirstKeyIsFresh(acc, entries);
        }
      }
      r
  }

  /** The key step of the loop: the key converted between the key type arguments. */
  function KeyStep(conv: BusConvert, sp: (Type, Type), tp: (Type, Type)): Value -> Result<Value>
  {
    k => conv(k, sp.0, tp.0)
  }

  /** The value step as written: the converted key, converted from the source key type to the target value type. */
  function ValueStepAsWritten(conv: BusConvert, sp: (Type, Type), tp: (Type, Type)): (Value, Value) -> Result<Value>
  {
    (sourceValue, targetKey) => conv(targetKey, sp.0, tp.1)
  }

  /** The value step as intended: the source value, converted from the source value type to the target value type. */
  function ValueStep(conv: BusConvert, sp: (Type, Type), tp: (Type, Type)): (Value, Value) -> Result<Value>
  {
    (sourceValue, targetKey) => conv(sourceValue, sp.1, tp.1)
  }

  /**
   * `convert(source, sourceType, targetType)` for a given value step.
   * `isInstance` says whether the erased target type is a class of the
   * source map. An empty map that is already an instance is handed back; a
   * non-empty map over a type without two type arguments hits a null array
   * (NullPointerException); otherwise the entries are converted, and the
   * source is handed back when it is an instance and nothing changed.
   * Reference comparison is modelled as equality of values.
   */
  function ConvertWith(source: seq<(Value, Value)>, sourceType: Type, targetType: Type, isInstance: bool,
                       conv: BusConvert, asWritten: bool): Result<Converted>
  {
    if isInstance && |source| == 0 then Ok(SourceItself)
    else if |source| == 0 then Ok(Fresh([]))
    else if GetParameterTypes(sourceType).None? || GetParameterTypes(targetType).None? then Err(NullPointerException)
    else
      var sp, tp := GetParameterTypes(sourceType).value, GetParameterTypes(targetType).value;
      var valueStep := if asWritten then ValueStepAsWritten(conv, sp, tp) else ValueStep(conv, sp, tp);
      match TargetEntriesFrom([], source, 0, KeyStep(conv, sp, tp), valueStep)
      case Err(e) => Err(e)
      case Ok(targetEntries) =>
        if isInstance && targetEntries == source then Ok(SourceItself)
        else Ok(Fresh(PutAll([], targetEntries)))
  }

  /** `convert` as written: each target value converted from the converted key. */
  function ConvertAsWritten(source: seq<(Value, Value)>, sourceType: Type, targetType: Type, isInstance: bool,
                            conv: BusConvert): (r: Result<Converted>)
    ensures r.Ok? && r.value.Fresh? ==> DistinctKeys(r.value.entries)
  {
    ConvertWith(source, sourceType, targetType, isInstance, conv, true)
  }

  /** `convert` with each target value converted from its source value. */
  function Convert(source: seq<(Value, Value)>, sourceType: Type, targetType: Type, isInstance: bool,
                   conv: BusConvert): (r: Result<Converted>)
    ensures isInstance && |source| == 0 ==> r == Ok(SourceItself)
    ensures !isInstance && |source| == 0 ==> r == Ok(Fresh([]))
    ensures |source| > 0 && (GetParameterTypes(sourceType).None? || GetParameterTypes(targetType).None?) ==>
      r == Err(NullPointerException)
    ensures r.Ok? && r.value.Fresh? ==> DistinctKeys(r.value.entries)
    ensures r.Ok? && r.value.SourceItself? ==> isInstance
  {
    ConvertWith(source, sourceType, targetType, isInstance, conv, false)
  }

  /** The target entries the corrected loop collects: each key and each value converted, in order. */
  lemma {:induction false} TargetEntriesAreConversions(acc: seq<(Value, Value)>, source: seq<(Value, Value)>, i: nat,
                                                       conv: BusConvert, sp: (Type, Type), tp: (Type, Type))
    requires i <= |source|
    requires TargetEntriesFrom(acc, source, i, KeyStep(conv, sp, tp), ValueStep(conv, sp, tp)).Ok?
    ensures var r := TargetEntriesFrom(acc, source, i, KeyStep(conv, sp, tp), ValueStep(conv, sp, tp)).value;
      forall j :: |acc| <= j < |r| ==>
        conv(source[j - |acc| + i].0, sp.0, tp.0) == Ok(r[j].0) &&
        conv(source[j - |acc| + i].1, sp.1, tp.1) == Ok(r[j].1)
    decreases |source| - i
  {
    if i < |source| {
      var k := conv(source[i].0, sp.0, tp.0).value;
      var v := conv(source[i].1, sp.1, tp.1).value;
      var acc' := acc + [(k, v)];
      TargetEntriesAreConversions(acc', source, i + 1, conv, sp, tp);
      var r := TargetEntriesFrom(acc', source, i + 1, KeyStep(conv, sp, tp), ValueStep(conv, sp, tp)).value;
      assert r[..|acc'|] == acc';
      assert r[|acc|] == r[..|acc'|][|acc|] == (k, v);
    }
  }

  /**
   * With the corrected value step, when the converted keys are pairwise
   * distinct, a fresh map holds, position by position, the source's keys
   * and values each converted between their own type arguments.
   */
  lemma FreshMapHoldsConvertedEntries(source: seq<(Value, Value)>, st: Type, tt: Type,
                                      isInstance: bool, conv: BusConvert)
    requires GetParameterTypes(st).Some? && GetParameterTypes(tt).Some?
    requires Convert(source, st, tt, isInstance, conv).Ok? && Convert(source, st, tt, isInstance, conv).value.Fresh?
    requires var sp, tp := GetParameterTypes(st).value, GetParameterTypes(tt).value;
      forall a, b :: 0 <= a < b < |source| ==> conv(source[a].0, sp.0, tp.0) != conv(source[b].0, sp.0, tp.0)
    ensures var m := Convert(source, st, tt, isInstance, conv).value.entries;
      var sp, tp := GetParameterTypes(st).value, GetParameterTypes(tt).value;
      |m| == |source| &&
      forall j :: 0 <= j < |m| ==>
        conv(source[j].0, sp.0, tp.0) == Ok(m[j].0) && conv(source[j].1, sp.1, tp.1) == Ok(m[j].1)
  {
    if |source| > 0 {
      var sp, tp := GetParameterTypes(st).value, GetParameterTypes(tt).value;
      var res := TargetEntriesFrom([], source, 0, KeyStep(conv, sp, tp), ValueStep(conv, sp, tp));
      assert res.Ok?;
      var targetEntries := res.value;
      assert Convert(source, st, tt, isInstance, conv).value.entries == PutAll([], targetEntries);
      CollectedEntries(source, conv, sp, tp);
      assert [] + targetEntries == targetEntries;
    }
  }

  /** The corrected loop, started empty: position j holds source entry j converted, and the keys stay distinct. */
  lemma CollectedEntries(source: seq<(Value, Value)>, conv: BusConvert, sp: (Type, Type), tp: (Type, Type))
    requires TargetEntriesFrom([], source, 0, KeyStep(conv, sp, tp), ValueStep(conv, sp, tp)).Ok?
    requires forall a, b :: 0 <= a < b < |source| ==> conv(source[a].0, sp.0, tp.0) != conv(source[b].0, sp.0, tp.0)
    ensures var r := TargetEntriesFrom([], source, 0, KeyStep(conv, sp, tp), ValueStep(conv, sp, tp)).value;
      |r| == |source| && DistinctKeys(r) &&
      forall j :: 0 <= j < |r| ==> conv(source[j].0, sp.0, tp.0) == Ok(r[j].0) && conv(source[j].1, sp.1, tp.1) == Ok(r[j].1)
  {
    var r := TargetEntriesFrom([], source, 0, KeyStep(conv, sp, tp), ValueStep(conv, sp, tp)).value;
    TargetEntriesAreConversions([], source, 0, conv, sp, tp);
    forall j | 0 <= j < |r| ensures conv(source[j].0, sp.0, tp.0) == Ok(r[j].0) && conv(source[j].1, sp.1, tp.1) == Ok(r[j].1) {
      var empty: seq<(Value, Value)> := [];
      assert j - |empty| + 0 == j;
    }
    forall a, b | 0 <= a < b < |r| ensures r[a].0 != r[b].0 {
      assert conv(source[a].0, sp.0, tp.0) == Ok(r[a].0);
      assert conv(source[b].0, sp.0, tp.0) == Ok(r[b].0);
    }
  }



  /**
   * With the corrected value step, converting a map into a type it already
   * is an instance of, with conversions that change nothing, hands back
   * the source itself.
   */
  lemma {:induction false} IdentityConversionKeepsSource(source: seq<(Value, Value)>, st: Type, tt: Type,
                                                         conv: BusConvert)
    requires GetParameterTypes(st).Some? && GetParameterTypes(tt).Some?
    requires var sp, tp := GetParameterTypes(st).value, GetParameterTypes(tt).value;
      forall j :: 0 <= j < |source| ==>
        conv(source[j].0, sp.0, tp.0) == Ok(source[j].0) && conv(source[j].1, sp.1, tp.1) == Ok(source[j].1)
    ensures Convert(source, st, tt, true, conv) == Ok(SourceItself)
  {
    if |source| > 0 {
      var sp, tp := GetParameterTypes(st).value, GetParameterTypes(tt).value;
      IdentityEntries([], source, 0, conv, sp, tp);
      assert [] + source[0..] == source;
    }
  }

  lemma {:induction false} IdentityEntries(acc: seq<(Value, Value)>, source: seq<(Value, Value)>, i: nat,
                                           conv: BusConvert, sp: (Type, Type), tp: (Type, Type))
    requires i <= |source|
    requires forall j :: 0 <= j < |source| ==>
      conv(source[j].0, sp.0, tp.0) == Ok(source[j].0) && conv(source[j].1, sp.1, tp.1) == Ok(source[j].1)
    ensures TargetEntriesFrom(acc, source, i, KeyStep(conv, sp, tp), ValueStep(conv, sp, tp)) == Ok(acc + source[i..])
    decreases |source| - i
  {
    if i < |source| {
      IdentityEntries(acc + [source[i]], source, i + 1, conv, sp, tp);
      assert (acc + [source[i]]) + source[i + 1..] == acc + source[i..];
    } else {
      assert acc + source[i..] == acc;
    }
  }

  /**
   * The discrepancy: converting {1 -> 2} between two Map<Object, Object>
   * types with a bus that changes nothing gives a fresh {1 -> 1} as
   * written, where the intended conversion hands back the source.
   */
  lemma ConvertAsWrittenLosesValues()
    ensures var t := Parameterized(MAP, [ClassType(OBJECT), ClassType(OBJECT)]);
      var identity: BusConvert := (x, a, b) => Ok(x);
      ConvertAsWritten([(Atom(1), Atom(2))], t, t, true, identity) == Ok(Fresh([(Atom(1), Atom(1))])) &&
      Convert([(Atom(1), Atom(2))], t, t, true, identity) == Ok(SourceItself)
  {
    var t := Parameterized(MAP, [ClassType(OBJECT), ClassType(OBJECT)]);
    var identity: BusConvert := (x, a, b) => Ok(x);
    var source := [(Atom(1), Atom(2))];
    var sp := (ClassType(OBJECT), ClassType(OBJECT));
    assert GetParameterTypes(t) == Some(sp);
    assert TargetEntriesFrom([], source, 0, KeyStep(identity, sp, sp), ValueStepAsWritten(identity, sp, sp))
      == Ok([(Atom(1), Atom(1))]);
    assert [(Atom(1), Atom(1))] != source;
    assert PutAll([], [(Atom(1), Atom(1))]) == [(Atom(1), Atom(1))];
    IdentityConversionKeepsSource(source, t, t, identity);
  }

  /**
   * The first loop: collect the converted entries, and note whether a copy
   * is required (the target is no instance, or some key or value changed).
   */
  method CollectTargetEntries(source: seq<(Value, Value)>, isInstance: bool,
                              conv: BusConvert, sp: (Type, Type), tp: (Type, Type))
    returns (r: Result<seq<(Value, Value)>>, copyRequired: bool)
    ensures r == TargetEntriesFrom([], source, 0, KeyStep(conv, sp, tp), ValueStep(conv, sp, tp))
    ensures r.Ok? ==> copyRequired == (!isInstance || r.value != source)
  {
    copyRequired := !isInstance;
    var keyStep, valueStep := KeyStep(conv, sp, tp), ValueStep(conv, sp, tp);
    var targetEntries: seq<(Value, Value)> := [];
    var i := 0;
    while i < |source|
      invariant 0 <= i <= |source| && |targetEntries| == i
      invariant TargetEntriesFrom(targetEntries, source, i, keyStep, valueStep) ==
        TargetEntriesFrom([], source, 0, keyStep, valueStep)
      invariant copyRequired == (!isInstance || targetEntries != source[..i])
    {
      var targetKey := conv(source[i].0, sp.0, tp.0);
      if targetKey.Err? {
        return Err(targetKey.error), copyRequired;
      }
      var targetValue := conv(source[i].1, sp.1, tp.1);
      if targetValue.Err? {
        return Err(targetValue.error), copyRequired;
      }
      var entry := (targetKey.value, targetValue.value);
      assert source[..i + 1] == source[..i] + [source[i]];
      if source[i] != entry {
        copyRequired := true;
        assert (targetEntries + [entry])[i] != source[..i + 1][i];
      }
      targetEntries := targetEntries + [entry];
      i := i + 1;
    }
    assert source[..i] == source;
    return Ok(targetEntries), copyRequired;
  }

  /** The second loop: `targetMap.put` for each collected entry. */
  method FillTargetMap(targetEntries: seq<(Value, Value)>) returns (targetMap: seq<(Value, Value)>)
    ensures targetMap == PutAll([], targetEntries)
  {
    targetMap := [];
    var j := 0;
    while j < |targetEntries|
      invariant 0 <= j <= |targetEntries|
      invariant PutAll(targetMap, targetEntries[j..]) == PutAll([], targetEntries)
    {
      assert targetEntries[j..][1..] == targetEntries[j + 1..];
      targetMap := Put(targetMap, targetEntries[j].0, targetEntries[j].1);
      j := j + 1;
    }
    assert targetEntries[j..] == [];
  }

  /** `convert(source, sourceType, targetType)` with the corrected value step. */
  method ConvertMap(source: seq<(Value, Value)>, sourceType: Type, targetType: Type, isInstance: bool,
                    conv: BusConvert) returns (r: Result<Converted>)
    ensures r == Convert(source, sourceType, targetType, isInstance, conv)
  {
    if isInstance && |source| == 0 {
      return Ok(SourceItself);
    }
    if |source| == 0 {
      return Ok(Fresh([]));
    }
    var sp, tp := GetParameterTypes(sourceType), GetParameterTypes(targetType);
    if sp.None? || tp.None? {
      return Err(NullPointerException);
    }
    var targetEntries, copyRequired := CollectTargetEntries(source, isInstance, conv, sp.value, tp.value);
    if targetEntries.Err? {
      return Err(targetEntries.error);
    }
    if !copyRequired {
      return Ok(SourceItself);
    }
    var targetMap := FillTargetMap(targetEntries.value);
    return Ok(Fresh(targetMap));
  }
}
