/**
 * Qualified keys: a nested key is its parent's key, the connector "_" and
 * the child's key. Also the loops that copy one Go map into another; Go
 * ranges over a map in no fixed order, so these pick any remaining key.
 */
module KeyMaps {

  /** envKeyConnector */
  const Connector := "_"

  function Qualify(prefix: string, k: string): (q: string)
    ensures |q| == |prefix| + 1 + |k|
    ensures q[..|prefix|] == prefix && q[|prefix|] == '_' && q[|prefix| + 1..] == k
  {
    prefix + Connector + k
  }

  /** Under one prefix, distinct child keys give distinct qualified keys. */
  lemma QualifyInjective(prefix: string, a: string, b: string)
    requires Qualify(prefix, a) == Qualify(prefix, b)
    ensures a == b
  {
    assert a == Qualify(prefix, a)[|prefix| + 1..];
  }

  /** Every entry of `m`, re-keyed under `prefix`. */
  function Prefixed<V>(prefix: string, m: map<string, V>): (r: map<string, V>)
    ensures forall k :: k in m ==> Qualify(prefix, k) in r && r[Qualify(prefix, k)] == m[k]
    ensures forall q :: q in r ==> exists k :: k in m && q == Qualify(prefix, k)
  {
    forall a, b | a in m && b in m && Qualify(prefix, a) == Qualify(prefix, b)
      ensures a == b
    {
      QualifyInjective(prefix, a, b);
    }
    map k | k in m :: Qualify(prefix, k) := m[k]
  }

  /** Copies every entry of `src` into `dst`, one key at a time in any order, overwriting what `dst` had. */
  method CopyAll<V>(dst: map<string, V>, src: map<string, V>) returns (r: map<string, V>)
    ensures r == dst + src
  {
    r := dst;
    var todo := src.Keys;
    while todo != {}
      invariant todo <= src.Keys
      invariant r == dst + (src - todo)
      decreases todo
    {
      var k :| k in todo;
      TodoStep(src, todo, k);
      r := r[k := src[k]];
      todo := todo - {k};
    }
    assert src - {} == src;
  }

  /** Copies every entry of `src` into `dst` under its qualified key, one key at a time in any order. */
  method CopyPrefixed<V>(dst: map<string, V>, prefix: string, src: map<string, V>) returns (r: map<string, V>)
    ensures r == dst + Prefixed(prefix, src)
  {
    r := dst;
    var todo := src.Keys;
    while todo != {}
      invariant todo <= src.Keys
      invariant r == dst + Prefixed(prefix, src - todo)
      decreases todo
    {
      var k :| k in todo;
      ghost var done := src - todo;
      TodoStep(src, todo, k);
      PrefixedInsert(prefix, done, k, src[k]);
      UnionUpdate(dst, Prefixed(prefix, done), Qualify(prefix, k), src[k]);
      r := r[Qualify(prefix, k) := src[k]];
      todo := todo - {k};
    }
    assert src - {} == src;
  }

  lemma PrefixedInsert<V>(prefix: string, m: map<string, V>, k: string, v: V)
    ensures Prefixed(prefix, m[k := v]) == Prefixed(prefix, m)[Qualify(prefix, k) := v]
  {
    var after := Prefixed(prefix, m[k := v]);
    var before := Prefixed(prefix, m)[Qualify(prefix, k) := v];
    forall q | q in after
      ensures q in before && after[q] == before[q]
    {
      PrefixedInsertAt(prefix, m, k, v, q);
    }
    forall q | q in before
      ensures q in after
    {
      if q != Qualify(prefix, k) {
        var c :| c in m && q == Qualify(prefix, c);
      }
    }
  }

  /** The key-by-key step of PrefixedInsert: a re-keyed entry after the insertion. */
  lemma PrefixedInsertAt<V>(prefix: string, m: map<string, V>, k: string, v: V, q: string)
    requires q in Prefixed(prefix, m[k := v])
    ensures q in Prefixed(prefix, m)[Qualify(prefix, k) := v]
    ensures Prefixed(prefix, m[k := v])[q] == Prefixed(prefix, m)[Qualify(prefix, k) := v][q]
  {
    var c :| c in m[k := v] && q == Qualify(prefix, c);
    if c != k && q == Qualify(prefix, k) {
      QualifyInjective(prefix, c, k);
    }
  }

  /** Taking `k` off the to-do set adds `k` to what has been copied. */
  lemma TodoStep<V>(src: map<string, V>, todo: set<string>, k: string)
    requires k in todo && todo <= src.Keys
    ensures src - (todo - {k}) == (src - todo)[k := src[k]]
  {
  }

  lemma UnionUpdate<V>(a: map<string, V>, b: map<string, V>, q: string, v: V)
    ensures (a + b)[q := v] == a + b[q := v]
  {
  }

  /** A single entry re-keyed under a prefix. */
  lemma PrefixedSingleton<V>(prefix: string, k: string, v: V)
    ensures Prefixed(prefix, map[k := v]) == map[Qualify(prefix, k) := v]
  {
    var p := Prefixed(prefix, map[k := v]);
    forall q | q in p ensures q == Qualify(prefix, k) { }
  }
}
