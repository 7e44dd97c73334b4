// The pair and triple containers: the mutable org.aero.common.core.container
// Pair and Triple, and the immutable de.natrox.common.container.Pair. A
// component is `None` for `null`; two components are `Objects.equals` (and
// `Objects.deepEquals`) exactly when they are equal values.
module AeroContainers {
  import opened JavaLang

  /** The argument of `equals`: null, one of these pairs, one of these triples, or an object of another class. */
  datatype Obj<T(==), U(==), V(==)> = NullRef | PairRef(pair: Pair<T, U>) | TripleRef(triple: Triple<T, U, V>) | OtherRef(cls: Cls)

  /** A pair whose components are set after construction; each setter returns the pair itself. */
  class Pair<T(==), U(==)> {
    var first: Option<T>
    var second: Option<U>

    /** `of(first, second)`. */
    constructor Of(first: Option<T>, second: Option<U>)
      ensures this.first == first && this.second == second
    {
      this.first := first;
      this.second := second;
    }

    /** `empty()`: both components null. */
    constructor Empty()
      ensures first == None && second == None
    {
      first := None;
      second := None;
    }

    method SetFirst(first: Option<T>) returns (self: Pair<T, U>)
      modifies this
      ensures self == this && this.first == first && second == old(second)
    {
      this.first := first;
      return this;
    }

    method SetSecond(second: Option<U>) returns (self: Pair<T, U>)
      modifies this
      ensures self == this && this.second == second && first == old(first)
    {
      this.second := second;
      return this;
    }

    /**
     * `equals(obj)`: the same object is equal; anything that is not a pair,
     * null included, is not; another pair is equal when both components are.
     */
    function Equals<V(==)>(obj: Obj<T, U, V>): (r: bool)
      reads this, if obj.PairRef? then {obj.pair} else {}
      ensures obj.PairRef? && obj.pair == this ==> r
      ensures !obj.PairRef? ==> !r
      ensures obj.PairRef? ==> (r <==> first == obj.pair.first && second == obj.pair.second)
    {
      if obj.PairRef? && obj.pair == this then true
      else if !obj.PairRef? then false
      else first == obj.pair.first && second == obj.pair.second
    }
  }

  /** `equals` between pairs is symmetric, and a pair after `empty()` equals any pair with two null components. */
  lemma PairEqualsSymmetric<T, U, V>(p: Pair<T, U>, q: Pair<T, U>)
    ensures p.Equals<V>(PairRef(q)) == q.Equals<V>(PairRef(p))
    ensures p.first == None && p.second == None ==> (p.Equals<V>(PairRef(q)) <==> q.first == None && q.second == None)
  {
  }

  /** A triple whose components are set after construction; each setter returns the triple itself. */
  class Triple<T(==), U(==), V(==)> {
    var first: Option<T>
    var second: Option<U>
    var third: Option<V>

    constructor Of(first: Option<T>, second: Option<U>, third: Option<V>)
      ensures this.first == first && this.second == second && this.third == third
    {
      this.first := first;
      this.second := second;
      this.third := third;
    }

    constructor Empty()
      ensures first == None && second == None && third == None
    {
      first := None;
      second := None;
      third := None;
    }

    method SetFirst(first: Option<T>) returns (self: Triple<T, U, V>)
      modifies this
      ensures self == this && this.first == first && second == old(second) && third == old(third)
    {
      this.first := first;
      return this;
    }

    method SetSecond(second: Option<U>) returns (self: Triple<T, U, V>)
      modifies this
      ensures self == this && this.second == second && first == old(first) && third == old(third)
    {
      this.second := second;
      return this;
    }

    method SetThird(third: Option<V>) returns (self: Triple<T, U, V>)
      modifies this
      ensures self == this && this.third == third && first == old(first) && second == old(second)
    {
      this.third := third;
      return this;
    }

    /**
     * `equals(obj)`: the same object is equal; on null, `obj.getClass()`
     * throws NullPointerException; an object of another class is not
     * equal; another triple is equal when all three components are.
     */
    function Equals(obj: Obj<T, U, V>): (r: Result<bool>)
      reads this, if obj.TripleRef? then {obj.triple} else {}
      ensures obj.NullRef? <==> r.Err?
      ensures r.Err? ==> r.error == NullPointerException
      ensures obj.TripleRef? && obj.triple == this ==> r == Ok(true)
      ensures obj.PairRef? || obj.OtherRef? ==> r == Ok(false)
      ensures obj.TripleRef? ==> r == Ok(first == obj.triple.first && second == obj.triple.second && third == obj.triple.third)
    {
      if obj.TripleRef? && obj.triple == this then Ok(true)
      else if obj.NullRef? then Err(NullPointerException)
      else if !obj.TripleRef? then Ok(false)
      else Ok(first == obj.triple.first && second == obj.triple.second && third == obj.triple.third)
    }
  }

  /** Unlike the pair, the triple does not answer `equals(null)` with false but throws. */
  lemma NullComparisons<T, U, V>(p: Pair<T, U>, t: Triple<T, U, V>)
    ensures !p.Equals<V>(NullRef)
    ensures t.Equals(NullRef) == Err(NullPointerException)
  {
  }
}

module NatroxContainers {
  import opened JavaLang

  /** The immutable pair. */
  datatype Pair<A, B> = Pair(first: Option<A>, second: Option<B>)

  /** `of(x, y)`. */
  function Of<A, B>(x: Option<A>, y: Option<B>): (r: Pair<A, B>)
    ensures r.first == x && r.second == y
  {
    Pair(x, y)
  }

  /** `empty()`: both components null. */
  function Empty<A, B>(): (r: Pair<A, B>)
    ensures r.first == None && r.second == None
  {
    Pair(None, None)
  }

  /** The argument of `equals`: null, a pair, or an object of another class. */
  datatype Obj<A, B> = NullRef | PairRef(pair: Pair<A, B>) | OtherRef(cls: Cls)

  /**
   * `equals(obj)`: the same object is equal; null and other classes are
   * not; another pair is equal when both components are `Objects.equals`.
   * A pair here is a value, so the same object means the same value.
   */
  function Equals<A(==), B(==)>(p: Pair<A, B>, obj: Obj<A, B>): (r: bool)
    ensures r <==> obj.PairRef? && obj.pair.first == p.first && obj.pair.second == p.second
  {
    match obj
    case NullRef => false
    case OtherRef(_) => false
    case PairRef(that) => p.first == that.first && p.second == that.second
  }

  /** `Objects.hashCode`: 0 for null, the component's own hash code otherwise. */
  function HashOf<T>(x: Option<T>, hash: T -> int): int
  {
    if x.None? then 0 else Wrap32(hash(x.value))
  }

  /**
   * `hashCode()` = `Objects.hash(first, second)`, that is
   * `31 * (31 * 1 + hash(first)) + hash(second)` in `int` arithmetic.
   */
  function HashCode<A, B>(p: Pair<A, B>, hashA: A -> int, hashB: B -> int): (r: int)
    ensures InInt(r)
  {
    Wrap32(31 * Wrap32(31 + HashOf(p.first, hashA)) + HashOf(p.second, hashB))
  }

  /** Equal pairs have equal hash codes, an empty pair hashes to 961, and `equals` is reflexive and symmetric. */
  lemma EqualsAndHashCode<A, B>(p: Pair<A, B>, q: Pair<A, B>, hashA: A -> int, hashB: B -> int)
    ensures Equals(p, PairRef(p))
    ensures Equals(p, PairRef(q)) == Equals(q, PairRef(p))
    ensures Equals(p, PairRef(q)) ==> HashCode(p, hashA, hashB) == HashCode(q, hashA, hashB)
    ensures HashCode(Empty<A, B>(), hashA, hashB) == 961
  {
    assert Equals(p, PairRef(q)) ==> p == q;
  }

  /** `String.valueOf` of a component: "null" for null. */
  function Show<T>(x: Option<T>, show: T -> string): string
  {
    if x.None? then "null" else show(x.value)
  }

  /** `toString()` = `Pair[first=<first>, second=<second>]`. */
  function ToString<A, B>(p: Pair<A, B>, showA: A -> string, showB: B -> string): (r: string)
    ensures r == "Pair[first=" + Show(p.first, showA) + ", second=" + Show(p.second, showB) + "]"
  {
    "Pair[" + "first=" + Show(p.first, showA) + ", " + "second=" + Show(p.second, showB) + "]"
  }

  lemma EmptyToString<A, B>(showA: A -> string, showB: B -> string)
    ensures ToString(Empty<A, B>(), showA, showB) == "Pair[first=null, second=null]"
  {
  }
}
