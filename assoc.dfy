// Plain JS objects used as string-keyed dictionaries (struct fields and methods, the frames of a
// context): an association list that keeps insertion order, where assigning an existing key
// replaces its value in place.

module Assoc {

  import opened Errors

  type Entries<T> = seq<(string, T)>

  function Keys<T>(es: Entries<T>): (r: seq<string>)
    ensures |r| == |es|
    ensures forall i :: 0 <= i < |es| ==> r[i] == es[i].0
  {
    seq(|es|, i requires 0 <= i < |es| => es[i].0)
  }

  /** `obj[key]`, absent keys giving None. */
  function Get<T>(es: Entries<T>, key: string): (r: Option<T>)
  {
    if es == [] then None
    else if es[0].0 == key then Some(es[0].1)
    else Get(es[1..], key)
  }

  /** `obj[key] = v`. */
  function Put<T>(es: Entries<T>, key: string, v: T): (r: Entries<T>)
  {
    if es == [] then [(key, v)]
    else if es[0].0 == key then [(key, v)] + es[1..]
    else [es[0]] + Put(es[1..], key, v)
  }

  predicate Has<T>(es: Entries<T>, key: string)
  {
    key in Keys(es)
  }

  /** A key is present exactly when looking it up finds a value. */
  lemma {:induction false} GetHas<T>(es: Entries<T>, key: string)
    ensures Get(es, key).Some? <==> Has(es, key)
  {
    if es != [] {
      GetHas(es[1..], key);
      assert Keys(es) == [es[0].0] + Keys(es[1..]);
    }
  }

  /** After `obj[key] = v`, `key` maps to `v` and every other key keeps its value. */
  lemma {:induction false} PutGet<T>(es: Entries<T>, key: string, v: T, other: string)
    ensures Get(Put(es, key, v), other) == if other == key then Some(v) else Get(es, other)
  {
    if es != [] && es[0].0 != key {
      PutGet(es[1..], key, v, other);
    }
  }

  /** Assigning a present key keeps the key order; a new key goes last. */
  lemma {:induction false} PutKeys<T>(es: Entries<T>, key: string, v: T)
    ensures Keys(Put(es, key, v)) == if Has(es, key) then Keys(es) else Keys(es) + [key]
  {
    if es != [] {
      assert Keys(es) == [es[0].0] + Keys(es[1..]);
      if es[0].0 != key {
        PutKeys(es[1..], key, v);
        assert Has(es, key) <==> Has(es[1..], key);
      }
    }
  }

  predicate Distinct(ks: seq<string>)
  {
    forall i, j :: 0 <= i < j < |ks| ==> ks[i] != ks[j]
  }

  /** Assignment never introduces a duplicate key. */
  lemma PutDistinct<T>(es: Entries<T>, key: string, v: T)
    requires Distinct(Keys(es))
    ensures Distinct(Keys(Put(es, key, v)))
  {
    PutKeys(es, key, v);
  }
}
