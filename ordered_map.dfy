/**
 * Kotlin's `mutableMapOf`/`linkedMapOf` (a LinkedHashMap): a map that
 * remembers the order in which its keys were first inserted. It is kept as
 * a sequence of entries; `put` on a present key replaces the value where it
 * stands, on a new key appends.
 */
module OrderedMap {
  import opened Wrappers

  type Table<K, V> = seq<(K, V)>

  function Keys<K, V>(t: Table<K, V>): (ks: seq<K>)
    ensures |ks| == |t|
    ensures forall i :: 0 <= i < |t| ==> ks[i] == t[i].0
  {
    if |t| == 0 then [] else [t[0].0] + Keys(t[1..])
  }

  /** No key is stored twice: what every LinkedHashMap satisfies. */
  predicate Distinct<K(==), V>(t: Table<K, V>)
  {
    forall i, j :: 0 <= i < j < |t| ==> t[i].0 != t[j].0
  }

  /** `map[k]`: the value stored under k, if any. */
  function Get<K(==), V>(t: Table<K, V>, k: K): (r: Option<V>)
    ensures r.None? <==> k !in Keys(t)
    ensures r.Some? ==> (k, r.value) in t
  {
    if |t| == 0 then None
    else if t[0].0 == k then Some(t[0].1)
    else Get(t[1..], k)
  }

  /** `map[k] = v` / `map.put(k, v)`. */
  function Put<K(==), V>(t: Table<K, V>, k: K, v: V): (r: Table<K, V>)
  {
    if |t| == 0 then [(k, v)]
    else if t[0].0 == k then [(k, v)] + t[1..]
    else [t[0]] + Put(t[1..], k, v)
  }

  /** After a put, the key reads back the new value. */
  lemma {:induction false} GetPutSame<K, V>(t: Table<K, V>, k: K, v: V)
    ensures Get(Put(t, k, v), k) == Some(v)
  {
    if |t| > 0 && t[0].0 != k {
      GetPutSame(t[1..], k, v);
    }
  }

  /** A put leaves every other key as it was. */
  lemma {:induction false} GetPutOther<K, V>(t: Table<K, V>, k: K, v: V, k2: K)
    requires k2 != k
    ensures Get(Put(t, k, v), k2) == Get(t, k2)
  {
    if |t| > 0 && t[0].0 != k {
      GetPutOther(t[1..], k, v, k2);
    }
  }

  /** A put keeps the insertion order: a present key stays where it was, a new one goes last. */
  lemma {:induction false} KeysPut<K, V>(t: Table<K, V>, k: K, v: V)
    ensures Keys(Put(t, k, v)) == if k in Keys(t) then Keys(t) else Keys(t) + [k]
  {
    if |t| > 0 && t[0].0 != k {
      KeysPut(t[1..], k, v);
      assert Keys(t) == [t[0].0] + Keys(t[1..]);
    }
  }

  /** A put never stores a key twice. */
  lemma PutDistinct<K, V>(t: Table<K, V>, k: K, v: V)
    requires Distinct(t)
    ensures Distinct(Put(t, k, v))
  {
    KeysPut(t, k, v);
    var r := Put(t, k, v);
    forall i, j | 0 <= i < j < |r|
      ensures r[i].0 != r[j].0
    {
      assert Keys(r)[i] == r[i].0 && Keys(r)[j] == r[j].0;
    }
  }

  /** On a present key, a put overwrites that one entry in place. */
  lemma {:induction false} PutAt<K, V>(t: Table<K, V>, i: nat, v: V)
    requires Distinct(t) && i < |t|
    ensures Put(t, t[i].0, v) == t[i := (t[i].0, v)]
  {
    if i > 0 {
      assert t[0].0 != t[i].0;
      PutAt(t[1..], i - 1, v);
      assert t[1..][i - 1] == t[i];
      assert [t[0]] + t[1..][i - 1 := (t[i].0, v)] == t[i := (t[i].0, v)];
    }
  }

  /** `pairs.toMap()` / a run of puts: a later pair for the same key overwrites an earlier one. */
  function PutAll<K(==), V>(t: Table<K, V>, pairs: seq<(K, V)>): Table<K, V>
    decreases |pairs|
  {
    if |pairs| == 0 then t else PutAll(Put(t, pairs[0].0, pairs[0].1), pairs[1..])
  }

  /** The last pair for a key decides its value. */
  lemma {:induction false} GetPutAllLast<K, V>(t: Table<K, V>, pairs: seq<(K, V)>, i: nat)
    requires i < |pairs|
    requires forall j :: i < j < |pairs| ==> pairs[j].0 != pairs[i].0
    ensures Get(PutAll(t, pairs), pairs[i].0) == Some(pairs[i].1)
    decreases |pairs|
  {
    var t' := Put(t, pairs[0].0, pairs[0].1);
    if i == 0 {
      GetPutSame(t, pairs[0].0, pairs[0].1);
      GetPutAllAbsent(t', pairs[1..], pairs[0].0);
    } else {
      GetPutAllLast(t', pairs[1..], i - 1);
    }
  }

  /** A key no pair mentions keeps its old value. */
  lemma {:induction false} GetPutAllAbsent<K, V>(t: Table<K, V>, pairs: seq<(K, V)>, k: K)
    requires forall j :: 0 <= j < |pairs| ==> pairs[j].0 != k
    ensures Get(PutAll(t, pairs), k) == Get(t, k)
    decreases |pairs|
  {
    if |pairs| > 0 {
      GetPutOther(t, pairs[0].0, pairs[0].1, k);
      GetPutAllAbsent(Put(t, pairs[0].0, pairs[0].1), pairs[1..], k);
    }
  }

  /** A run of puts never stores a key twice. */
  lemma {:induction false} PutAllDistinct<K, V>(t: Table<K, V>, pairs: seq<(K, V)>)
    requires Distinct(t)
    ensures Distinct(PutAll(t, pairs))
    decreases |pairs|
  {
    if |pairs| > 0 {
      PutDistinct(t, pairs[0].0, pairs[0].1);
      PutAllDistinct(Put(t, pairs[0].0, pairs[0].1), pairs[1..]);
    }
  }

  /** `filterKeys { p(it) }`: the entries whose key satisfies p, in table order. */
  function Select<K, V>(t: Table<K, V>, p: K -> bool): (r: Table<K, V>)
    ensures |r| <= |t|
    ensures forall e :: e in r ==> e in t && p(e.0)
  {
    if |t| == 0 then []
    else if p(t[0].0) then [t[0]] + Select(t[1..], p)
    else Select(t[1..], p)
  }

  /** Selection works entry by entry, so it keeps the table's order. */
  lemma {:induction false} SelectAppend<K, V>(t: Table<K, V>, u: Table<K, V>, p: K -> bool)
    ensures Select(t + u, p) == Select(t, p) + Select(u, p)
    decreases |t|
  {
    if |t| == 0 {
      assert t + u == u;
    } else {
      assert (t + u)[1..] == t[1..] + u;
      SelectAppend(t[1..], u, p);
    }
  }

  /** Every entry whose key satisfies p is selected. */
  lemma {:induction false} SelectKeeps<K, V>(t: Table<K, V>, p: K -> bool, i: nat)
    requires i < |t| && p(t[i].0)
    ensures t[i] in Select(t, p)
  {
    if i > 0 {
      SelectKeeps(t[1..], p, i - 1);
    }
  }

  /** The values of a table, in order. */
  function Values<K, V>(t: Table<K, V>): (vs: seq<V>)
    ensures |vs| == |t|
    ensures forall i :: 0 <= i < |t| ==> vs[i] == t[i].1
  {
    if |t| == 0 then [] else [t[0].1] + Values(t[1..])
  }
}
