/**
 * Results collected while ranging over a Go map. Go leaves the iteration
 * order unspecified, so what such a loop collects is described as the
 * multiset union of the contributions of every key.
 */
module Unordered {

  /** The union of f(k) over every k in keys, whatever the order. */
  ghost function Union<K, E>(keys: set<K>, f: K -> multiset<E>): multiset<E>
    decreases keys
  {
    if keys == {} then multiset{}
    else
      var k :| k in keys;
      f(k) + Union(keys - {k}, f)
  }

  /** Any key can be taken out first: the union does not depend on the order. */
  lemma {:induction false} UnionPick<K, E>(keys: set<K>, f: K -> multiset<E>, k: K)
    requires k in keys
    ensures Union(keys, f) == f(k) + Union(keys - {k}, f)
    decreases keys
  {
    var k' :| k' in keys && Union(keys, f) == f(k') + Union(keys - {k'}, f);
    if k' != k {
      UnionPick(keys - {k'}, f, k);
      UnionPick(keys - {k}, f, k');
      assert keys - {k'} - {k} == keys - {k} - {k'};
    }
  }

  /** The union is empty exactly when every contribution is. */
  lemma {:induction false} UnionEmptyIff<K, E>(keys: set<K>, f: K -> multiset<E>)
    ensures Union(keys, f) == multiset{} <==> forall k :: k in keys ==> f(k) == multiset{}
    decreases keys
  {
    if keys != {} {
      var k :| k in keys;
      UnionPick(keys, f, k);
      UnionEmptyIff(keys - {k}, f);
    }
  }

  /** Every key's contribution is part of the union. */
  lemma UnionIncludes<K, E>(keys: set<K>, f: K -> multiset<E>, k: K)
    requires k in keys
    ensures f(k) <= Union(keys, f)
  {
    UnionPick(keys, f, k);
  }

  /** Two functions that agree on the keys have the same union. */
  lemma {:induction false} UnionCongruent<K, E>(keys: set<K>, f: K -> multiset<E>, g: K -> multiset<E>)
    requires forall k :: k in keys ==> f(k) == g(k)
    ensures Union(keys, f) == Union(keys, g)
    decreases keys
  {
    if keys != {} {
      var k :| k in keys;
      UnionPick(keys, f, k);
      UnionPick(keys, g, k);
      UnionCongruent(keys - {k}, f, g);
    }
  }
}
