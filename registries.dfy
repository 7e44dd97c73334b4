// First-match registries: an ordered list of (predicate, value) entries, a
// memo cache per key and an optional parent that answers what the list does
// not. The conversion buses, parser collections, serializer collections and
// serializer registries are all built on this shape.
module FirstMatch {
  import opened JavaLang

  /** A registered entry: the predicate that selects keys and what it supplies. */
  datatype Entry<!K, V> = Entry(test: K -> bool, value: V)

  /** The position of the first entry whose predicate accepts `k`. */
  function FirstIndex<K, V>(entries: seq<Entry<K, V>>, k: K): (r: Option<nat>)
    ensures r.Some? ==>
      r.value < |entries| && entries[r.value].test(k) &&
      forall j :: 0 <= j < r.value ==> !entries[j].test(k)
    ensures r.None? ==> forall j :: 0 <= j < |entries| ==> !entries[j].test(k)
  {
    if |entries| == 0 then None
    else if entries[0].test(k) then Some(0)
    else match FirstIndex(entries[1..], k)
      case None => None
      case Some(i) => Some(i + 1)
  }

  /** The value of the first entry, in registration order, that accepts `k`. */
  function Lookup<K, V>(entries: seq<Entry<K, V>>, k: K): Option<V>
  {
    match FirstIndex(entries, k)
    case None => None
    case Some(i) => Some(entries[i].value)
  }

  /** The loop of the lookup: scan the entries in order and stop at the first match. */
  method Scan<K, V>(entries: seq<Entry<K, V>>, k: K) returns (r: Option<V>)
    ensures r == Lookup(entries, k)
    ensures r.None? <==> forall j :: 0 <= j < |entries| ==> !entries[j].test(k)
  {
    var i := 0;
    while i < |entries|
      invariant 0 <= i <= |entries|
      invariant forall j :: 0 <= j < i ==> !entries[j].test(k)
    {
      if entries[i].test(k) {
        return Some(entries[i].value);
      }
      i := i + 1;
    }
    return None;
  }

  /** An entry that accepts `k` bounds the position of the first match. */
  lemma FirstIndexAtMost<K, V>(entries: seq<Entry<K, V>>, k: K, i: nat)
    requires i < |entries| && entries[i].test(k)
    ensures FirstIndex(entries, k).Some? && FirstIndex(entries, k).value <= i
  {
  }

  /** The first match is exactly the first accepting position. */
  lemma FirstIndexIs<K, V>(entries: seq<Entry<K, V>>, k: K, i: nat)
    requires i < |entries| && entries[i].test(k)
    requires forall j :: 0 <= j < i ==> !entries[j].test(k)
    ensures FirstIndex(entries, k) == Some(i)
    ensures Lookup(entries, k) == Some(entries[i].value)
  {
    FirstIndexAtMost(entries, k, i);
  }

  /**
   * Registration order decides: entries registered later are consulted only
   * when no earlier entry accepts the key.
   */
  lemma {:induction false} LookupAppend<K, V>(entries: seq<Entry<K, V>>, more: seq<Entry<K, V>>, k: K)
    ensures Lookup(entries + more, k) ==
      if Lookup(entries, k).Some? then Lookup(entries, k) else Lookup(more, k)
  {
    var all := entries + more;
    match FirstIndex(entries, k)
    case Some(i) =>
      assert all[i] == entries[i];
      forall j | 0 <= j < i ensures !all[j].test(k) {
        assert all[j] == entries[j];
      }
      FirstIndexIs(all, k, i);
    case None =>
      forall j | 0 <= j < |entries| ensures !all[j].test(k) {
        assert all[j] == entries[j];
      }
      match FirstIndex(more, k)
      case Some(i) =>
        assert all[|entries| + i] == more[i];
        forall j | 0 <= j < |entries| + i ensures !all[j].test(k) {
          if j >= |entries| { assert all[j] == more[j - |entries|]; }
        }
        FirstIndexIs(all, k, |entries| + i);
      case None =>
        forall j | 0 <= j < |all| ensures !all[j].test(k) {
          if j >= |entries| { assert all[j] == more[j - |entries|]; }
        }
  }
}

module Registries {
  import opened JavaLang
  import opened FirstMatch

  /**
   * A built registry: its parent, its unmodifiable entry list, and the memo
   * cache filled by `computeIfAbsent`. A registry that caches misses stores
   * them as `None` (the placeholder a registry keeps for "looked up, nothing
   * found"); the others store hits only, because `computeIfAbsent` does not
   * record a null result.
   */
  class Registry<K(==), V> {
    const parent: Registry?<K, V>
    const entries: seq<Entry<K, V>>
    const cachesMisses: bool
    var cache: map<K, Option<V>>
    ghost const depth: nat
    ghost const Repr: set<object>

    /** The parent chain is finite. */
    ghost predicate Chained()
      decreases depth
    {
      parent != null ==> parent.depth < depth && parent.Chained()
    }

    ghost predicate Valid()
      reads this, Repr
      decreases depth
    {
      this in Repr && Chained() &&
      (forall k :: k in cache ==> cache[k] == Lookup(entries, k) && (cache[k].None? ==> cachesMisses)) &&
      (parent != null ==>
        parent in Repr && parent.Repr <= Repr && this !in parent.Repr && parent.Valid())
    }

    /** The answer of the registry: its own first match, else its parent's answer. */
    ghost function Resolve(k: K): Option<V>
      requires Chained()
      decreases depth
    {
      var local := Lookup(entries, k);
      if local.Some? || parent == null then local else parent.Resolve(k)
    }

    /** Every entry of the chain: this registry's own, then its ancestors'. */
    ghost function ChainEntries(): seq<Entry<K, V>>
      requires Chained()
      decreases depth
    {
      entries + (if parent == null then [] else parent.ChainEntries())
    }

    constructor (parent: Registry?<K, V>, entries: seq<Entry<K, V>>, cachesMisses: bool)
      requires parent != null ==> parent.Valid()
      ensures Valid() && this.parent == parent && this.entries == entries
      ensures this.cachesMisses == cachesMisses && cache == map[]
      ensures fresh(Repr - (if parent == null then {} else parent.Repr))
    {
      this.parent := parent;
      this.entries := entries;
      this.cachesMisses := cachesMisses;
      cache := map[];
      depth := if parent == null then 0 else parent.depth + 1;
      Repr := if parent == null then {this} else {this} + parent.Repr;
    }

    /**
     * `get`: the cached answer if the key was seen, else the first match,
     * recorded in the cache when it is a hit (or always, when misses are
     * cached); a miss is then asked of the parent.
     */
    method Get(k: K) returns (r: Option<V>)
      requires Valid()
      modifies Repr
      decreases depth
      ensures Valid() && r == Resolve(k)
      ensures cache == (if k in old(cache) || (Lookup(entries, k).None? && !cachesMisses)
                        then old(cache) else old(cache)[k := Lookup(entries, k)])
    {
      var local: Option<V>;
      if k in cache {
        local := cache[k];
      } else {
        local := Scan(entries, k);
        if local.Some? || cachesMisses {
          cache := cache[k := local];
        }
      }
      if local.None? && parent != null {
        r := parent.Get(k);
      } else {
        r := local;
      }
    }
  }

  /** The builder: entries are appended in registration order and snapshotted by `build`. */
  class RegistryBuilder<K(==), V> {
    const parent: Registry?<K, V>
    var entries: seq<Entry<K, V>>

    constructor (parent: Registry?<K, V>)
      ensures this.parent == parent && entries == []
    {
      this.parent := parent;
      entries := [];
    }

    method Register(e: Entry<K, V>)
      modifies this
      ensures entries == old(entries) + [e]
    {
      entries := entries + [e];
    }

    method Build(cachesMisses: bool) returns (r: Registry<K, V>)
      requires parent != null ==> parent.Valid()
      ensures r.Valid() && r.parent == parent && r.entries == entries
      ensures r.cachesMisses == cachesMisses && r.cache == map[]
      ensures fresh(r)
    {
      r := new Registry(parent, entries, cachesMisses);
    }
  }

  /** A cached answer is the answer the entry list gives without the cache. */
  lemma CachedAnswerIsFirstMatch<K, V>(reg: Registry<K, V>, k: K)
    requires reg.Valid() && k in reg.cache
    ensures reg.cache[k] == Lookup(reg.entries, k)
    ensures reg.cache[k].None? ==> reg.cachesMisses
  {
  }

  /**
   * A child registry answers like one registry whose entry list is its own
   * entries followed by its parent's: the parent is consulted only on a miss.
   */
  lemma {:induction false} ResolveIsChainLookup<K, V>(reg: Registry<K, V>, k: K)
    requires reg.Chained()
    decreases reg.depth
    ensures reg.Resolve(k) == Lookup(reg.ChainEntries(), k)
  {
    if reg.parent == null {
      LookupAppend(reg.entries, [], k);
      assert reg.entries + [] == reg.entries;
    } else {
      ResolveIsChainLookup(reg.parent, k);
      LookupAppend(reg.entries, reg.parent.ChainEntries(), k);
    }
  }
}
