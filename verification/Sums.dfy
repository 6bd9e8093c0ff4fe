/**
 Finite sums over sets and maps, used by every module that compares a cached
 total with the records it summarises.
 */
module Sums {

  /** The sum of `f(x)` for `x` in `s`. */
  ghost function Sum<K(!new)>(s: set<K>, f: K -> int): int
  {
    if s == {} then 0
    else
      var x :| x in s;
      f(x) + Sum(s - {x}, f)
  }

  /** Any element can be split off, not only the one the definition picks. */
  lemma {:induction false} SumSplit<K(!new)>(s: set<K>, f: K -> int, x: K)
    requires x in s
    ensures Sum(s, f) == f(x) + Sum(s - {x}, f)
    decreases s
  {
    var y :| y in s && Sum(s, f) == f(y) + Sum(s - {y}, f);
    if y != x {
      SumSplit(s - {y}, f, x);
      SumSplit(s - {x}, f, y);
      assert s - {y} - {x} == s - {x} - {y};
    }
  }

  /** Summands that agree on the set give equal sums. */
  lemma {:induction false} SumCong<K(!new)>(s: set<K>, f: K -> int, g: K -> int)
    requires forall x :: x in s ==> f(x) == g(x)
    ensures Sum(s, f) == Sum(s, g)
    decreases s
  {
    if s != {} {
      var x :| x in s;
      SumSplit(s, f, x);
      SumSplit(s, g, x);
      SumCong(s - {x}, f, g);
    }
  }

  lemma {:induction false} SumNonNegative<K(!new)>(s: set<K>, f: K -> int)
    requires forall x :: x in s ==> f(x) >= 0
    ensures Sum(s, f) >= 0
    decreases s
  {
    if s != {} {
      var x :| x in s;
      SumSplit(s, f, x);
      SumNonNegative(s - {x}, f);
    }
  }

  lemma SumMore<K(!new)>(s: set<K>, f: K -> int, x: K)
    requires x !in s
    ensures Sum(s + {x}, f) == f(x) + Sum(s, f)
  {
    SumSplit(s + {x}, f, x);
    assert s + {x} - {x} == s;
  }

  /** Sums are additive in the summand. */
  lemma {:induction false} SumPlus<K(!new)>(s: set<K>, f: K -> int, g: K -> int, h: K -> int)
    requires forall x :: x in s ==> h(x) == f(x) + g(x)
    ensures Sum(s, h) == Sum(s, f) + Sum(s, g)
    decreases s
  {
    if s != {} {
      var x :| x in s;
      SumSplit(s, f, x);
      SumSplit(s, g, x);
      SumSplit(s, h, x);
      SumPlus(s - {x}, f, g, h);
    }
  }

  /** A sum of zeros is zero. */
  lemma {:induction false} SumZero<K(!new)>(s: set<K>, f: K -> int)
    requires forall x :: x in s ==> f(x) == 0
    ensures Sum(s, f) == 0
    decreases s
  {
    if s != {} {
      var x :| x in s;
      SumSplit(s, f, x);
      SumZero(s - {x}, f);
    }
  }

  /** Only one element contributes. */
  lemma SumSingle<K(!new)>(s: set<K>, f: K -> int, x: K)
    requires x in s
    requires forall y :: y in s && y != x ==> f(y) == 0
    ensures Sum(s, f) == f(x)
  {
    SumSplit(s, f, x);
    SumZero(s - {x}, f);
  }

  /** The summand of `SumMap`: zero outside the map. */
  ghost function At<K(!new), V(!new)>(m: map<K, V>, f: V -> int): K -> int
  {
    k => if k in m then f(m[k]) else 0
  }

  /** The sum of `f` over the values stored in a map, one term per key. */
  ghost function SumMap<K(!new), V(!new)>(m: map<K, V>, f: V -> int): int
  {
    Sum(m.Keys, At(m, f))
  }

  /** Overwriting or adding one entry changes the sum by the difference of the two values. */
  lemma SumMapUpdate<K(!new), V(!new)>(m: map<K, V>, f: V -> int, k: K, v: V)
    ensures SumMap(m[k := v], f) == SumMap(m, f) - (if k in m then f(m[k]) else 0) + f(v)
  {
    var m' := m[k := v];
    assert m'.Keys == m.Keys + {k};
    SumSplit(m'.Keys, At(m', f), k);
    assert m'.Keys - {k} == m.Keys - {k};
    SumCong(m.Keys - {k}, At(m', f), At(m, f));
    if k in m {
      SumSplit(m.Keys, At(m, f), k);
    } else {
      assert m.Keys - {k} == m.Keys;
    }
  }

  /** Removing one entry takes its value out of the sum. */
  lemma SumMapRemove<K(!new), V(!new)>(m: map<K, V>, f: V -> int, k: K)
    requires k in m
    ensures SumMap(m - {k}, f) == SumMap(m, f) - f(m[k])
  {
    var m' := m - {k};
    assert m'.Keys == m.Keys - {k};
    SumSplit(m.Keys, At(m, f), k);
    SumCong(m'.Keys, At(m', f), At(m, f));
  }
}
