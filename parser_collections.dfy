// ParserCollectionImpl: type-keyed first-match lookup of parser suppliers,
// with the DEFAULT registration table.
module ParserCollections {
  import opened JavaLang
  import opened FirstMatch
  import opened Registries

  /** The parser suppliers the DEFAULT table registers. */
  datatype ParserKind =
    | BooleanParser | CharParser | StringParser | UriParser | UrlParser | UuidParser
    | PathParser | FileParser | ByteParser | ShortParser | IntegerParser | LongParser
    | FloatParser | DoubleParser | EnumParser | ObjectArrayParser
    | BooleanArrayParser | ByteArrayParser | CharArrayParser | DoubleArrayParser
    | FloatArrayParser | IntArrayParser | LongArrayParser | ShortArrayParser
    | MapParser | SetParser | ListParser | ObjectParser

  /** `supplier.apply(type)`: the parser a supplier creates for the requested type. */
  datatype Parser = Parser(kind: ParserKind, forType: Type)

  /** The predicates the builder registers. */
  datatype TypeTest =
    | Exactly(c: Cls)          // registerExact(c, ...): test.equals(c)
    | SubtypeOf(c: Cls)        // register(c, ...): testType(test, c)
    | Always                   // a provider whose predicate is `type -> true`
    | SuperTypeOf(c: Cls)      // a provider whose predicate is `isSuperType(type, c)`
    | ReferenceArray           // an array class whose elements are objects

  const PRIMITIVE_ARRAY_NAMES: set<string> :=
    {"boolean[]", "byte[]", "char[]", "double[]", "float[]", "int[]", "long[]", "short[]"}

  /** The class is an array of references: its name ends in `[]` and it is none of the primitive arrays. */
  predicate IsReferenceArray(t: Type)
  {
    t.ClassType? && EndsWith(t.cls.name, "[]") && t.cls.name !in PRIMITIVE_ARRAY_NAMES
  }

  /**
   * `testType(test, c)`: `c` is a supertype of the tested type, or the tested
   * type is a wildcard with one upper bound and `c` is a supertype of it.
   */
  predicate TestType(t: Type, c: Cls)
  {
    IsSuperType(ClassType(c), t) ||
    (t.WildcardType? && |t.upper| == 1 && IsSuperType(ClassType(c), t.upper[0]))
  }

  predicate Accepts(test: TypeTest, t: Type)
  {
    match test
    case Exactly(c) => t == ClassType(c)
    case SubtypeOf(c) => TestType(t, c)
    case Always => true
    case SuperTypeOf(c) => IsSuperType(t, ClassType(c))
    case ReferenceArray => IsReferenceArray(t)
  }

  /** The entries a registration table produces, in table order. */
  function Entries(table: seq<(TypeTest, ParserKind)>): (es: seq<Entry<Type, ParserKind>>)
    ensures |es| == |table|
    ensures forall i :: 0 <= i < |table| ==> es[i].value == table[i].1
    ensures forall i, t :: 0 <= i < |table| ==> es[i].test(t) == Accepts(table[i].0, t)
  {
    seq(|table|, i requires 0 <= i < |table| => Entry((t: Type) => Accepts(table[i].0, t), table[i].1))
  }

  const URI := Cls("java.net.URI", {"java.lang.Object"})
  const URL := Cls("java.net.URL", {"java.lang.Object"})
  const UUID := Cls("java.util.UUID", {"java.lang.Object"})
  const PATH := Cls("java.nio.file.Path", {"java.lang.Object"})
  const FILE := Cls("java.io.File", {"java.lang.Object"})

  function Prim(name: string): Cls { Cls(name, {}) }
  function PrimArray(name: string): Cls { Cls(name, {"java.lang.Object"}) }

  /** The exact registrations for scalar classes that open the DEFAULT table. */
  function ScalarRows(): seq<(TypeTest, ParserKind)>
  {
    [(Exactly(BOOLEAN), BooleanParser), (Exactly(Prim("boolean")), BooleanParser),
     (Exactly(CHARACTER), CharParser), (Exactly(Prim("char")), CharParser),
     (Exactly(STRING), StringParser), (Exactly(URI), UriParser), (Exactly(URL), UrlParser),
     (Exactly(UUID), UuidParser), (Exactly(PATH), PathParser), (Exactly(FILE), FileParser),
     (Exactly(BYTE), ByteParser), (Exactly(Prim("byte")), ByteParser),
     (Exactly(SHORT), ShortParser), (Exactly(Prim("short")), ShortParser),
     (Exactly(INTEGER), IntegerParser), (Exactly(Prim("int")), IntegerParser),
     (Exactly(LONG), LongParser), (Exactly(Prim("long")), LongParser),
     (Exactly(FLOAT), FloatParser), (Exactly(Prim("float")), FloatParser),
     (Exactly(DOUBLE), DoubleParser), (Exactly(Prim("double")), DoubleParser)]
  }

  /** The exact registrations for the eight primitive array classes. */
  function PrimitiveArrayRows(): seq<(TypeTest, ParserKind)>
  {
    [(Exactly(PrimArray("boolean[]")), BooleanArrayParser), (Exactly(PrimArray("byte[]")), ByteArrayParser),
     (Exactly(PrimArray("char[]")), CharArrayParser), (Exactly(PrimArray("double[]")), DoubleArrayParser),
     (Exactly(PrimArray("float[]")), FloatArrayParser), (Exactly(PrimArray("int[]")), IntArrayParser),
     (Exactly(PrimArray("long[]")), LongArrayParser), (Exactly(PrimArray("short[]")), ShortArrayParser)]
  }

  function ContainerRows(): seq<(TypeTest, ParserKind)>
  {
    [(SuperTypeOf(MAP), MapParser), (SuperTypeOf(SET), SetParser), (SuperTypeOf(LIST), ListParser),
     (Always, ObjectParser)]
  }

  /** The DEFAULT table as written: the object-array provider accepts every type. */
  function DefaultTableAsWritten(): seq<(TypeTest, ParserKind)>
  {
    ScalarRows() + [(SubtypeOf(ENUM), EnumParser), (Always, ObjectArrayParser)]
      + PrimitiveArrayRows() + ContainerRows()
  }

  /** The DEFAULT table with the object-array provider limited to arrays of references. */
  function DefaultTable(): seq<(TypeTest, ParserKind)>
  {
    ScalarRows() + [(SubtypeOf(ENUM), EnumParser), (ReferenceArray, ObjectArrayParser)]
      + PrimitiveArrayRows() + ContainerRows()
  }

  /**
   * As written, every lookup in DEFAULT stops at the object-array provider
   * (position 23) or earlier, so its twelve later entries are never reached.
   */
  lemma AsWrittenShadowsLaterEntries(t: Type)
    ensures FirstIndex(Entries(DefaultTableAsWritten()), t).Some?
    ensures FirstIndex(Entries(DefaultTableAsWritten()), t).value <= 23
    ensures forall i :: 23 < i < |DefaultTableAsWritten()| ==>
      FirstIndex(Entries(DefaultTableAsWritten()), t) != Some(i)
  {
    var table := DefaultTableAsWritten();
    assert table[23] == (Always, ObjectArrayParser);
    FirstIndexAtMost(Entries(table), t, 23);
  }

  /** Shown on `int[]`: as written DEFAULT hands it the object-array parser. */
  lemma AsWrittenIntArrayGetsObjectArrayParser()
    ensures Lookup(Entries(DefaultTableAsWritten()), ClassType(PrimArray("int[]"))) == Some(ObjectArrayParser)
  {
    var table := DefaultTableAsWritten();
    var t := ClassType(PrimArray("int[]"));
    NoScalarRowAccepts(t, table);
    assert !Accepts(table[22].0, t);
    assert table[23] == (Always, ObjectArrayParser);
    FirstIndexIs(Entries(table), t, 23);
  }

  /** No scalar row accepts a class whose name ends in `[]`. */
  lemma NoScalarRowAccepts(t: Type, table: seq<(TypeTest, ParserKind)>)
    requires t.ClassType? && EndsWith(t.cls.name, "[]")
    requires |table| >= 22 && table[..22] == ScalarRows()
    ensures forall j :: 0 <= j < 22 ==> !Accepts(table[j].0, t)
  {
    forall j | 0 <= j < 22 ensures !Accepts(table[j].0, t) {
      assert table[j] == ScalarRows()[j];
      var c := ScalarRows()[j].0.c;
      assert !EndsWith(c.name, "[]") by {
        assert c.name[|c.name| - 1] != ']';
      }
    }
  }

  /** Facts about the primitive-array rows: exact tests on distinct primitive array classes. */
  lemma PrimitiveArrayRowFacts()
    ensures |PrimitiveArrayRows()| == 8
    ensures forall a :: 0 <= a < 8 ==>
      PrimitiveArrayRows()[a].0.Exactly? &&
      PrimitiveArrayRows()[a].0.c.name in PRIMITIVE_ARRAY_NAMES &&
      EndsWith(PrimitiveArrayRows()[a].0.c.name, "[]")
    ensures forall a, b :: 0 <= a < b < 8 ==>
      PrimitiveArrayRows()[a].0.c.name != PrimitiveArrayRows()[b].0.c.name
  {
  }

  /** The corrected table, cut at its seams. */
  lemma DefaultTableLayout()
    ensures |DefaultTable()| == 36
    ensures DefaultTable()[..22] == ScalarRows()
    ensures DefaultTable()[22] == (SubtypeOf(ENUM), EnumParser)
    ensures DefaultTable()[23] == (ReferenceArray, ObjectArrayParser)
    ensures forall a :: 0 <= a < 8 ==> DefaultTable()[24 + a] == PrimitiveArrayRows()[a]
  {
    var table := DefaultTable();
    assert table == ScalarRows() + [(SubtypeOf(ENUM), EnumParser), (ReferenceArray, ObjectArrayParser)]
      + PrimitiveArrayRows() + ContainerRows();
  }

  /**
   * In the corrected table every primitive array class reaches its own
   * array parser.
   */
  lemma PrimitiveArraysReachTheirParsers(i: nat)
    requires i < 8
    ensures Lookup(Entries(DefaultTable()), ClassType(PrimitiveArrayRows()[i].0.c)) ==
      Some(PrimitiveArrayRows()[i].1)
  {
    var table := DefaultTable();
    var rows := PrimitiveArrayRows();
    PrimitiveArrayRowFacts();
    DefaultTableLayout();
    var c := rows[i].0.c;
    var t := ClassType(c);
    NoScalarRowAccepts(t, table);
    forall j | 0 <= j < 24 + i ensures !Accepts(table[j].0, t) {
      if 24 <= j {
        assert table[j] == rows[j - 24];
      }
    }
    FirstIndexIs(Entries(table), t, 24 + i);
  }

  /** The answer of `get`: the chain's supplier applied to the type, or null at the root. */
  ghost function GetAnswer(coll: Registry<Type, ParserKind>, t: Type): Option<Parser>
    requires coll.Chained()
  {
    match coll.Resolve(t)
    case Some(k) => Some(Parser(k, t))
    case None => None
  }

  /**
   * `get(type)`: the parser of the first matching entry, the parent's answer
   * on a miss, or null when there is no parent.
   */
  method Get(coll: Registry<Type, ParserKind>, t: Type) returns (r: Option<Parser>)
    requires coll.Valid() && !coll.cachesMisses
    modifies coll.Repr
    ensures coll.Valid() && r == GetAnswer(coll, t)
    ensures r.Some? ==> r.value.forType == t
  {
    var supplier := coll.Get(t);
    match supplier
    case Some(k) => r := Some(Parser(k, t));
    case None => r := None;
  }

  /** A root collection answers null exactly when none of its entries accepts the type. */
  lemma GetNullIffNoEntry(coll: Registry<Type, ParserKind>, t: Type)
    requires coll.Chained() && coll.parent == null
    ensures GetAnswer(coll, t).None? <==> forall j :: 0 <= j < |coll.entries| ==> !coll.entries[j].test(t)
  {
  }
}
