/** Sums of an integer function over a finite set, independent of the order of summation. */
module Sums {
  ghost function Pick<K(!new)>(s: set<K>): K
    requires s != {}
  {
    var k :| k in s; k
  }

  ghost function Sum<K(!new)>(s: set<K>, f: K -> int): int
  {
    if s == {} then 0 else f(Pick(s)) + Sum(s - {Pick(s)}, f)
  }

  lemma {:induction false} SumRemove<K(!new)>(s: set<K>, f: K -> int, k: K)
    requires k in s
    ensures Sum(s, f) == f(k) + Sum(s - {k}, f)
  {
    var p := Pick(s);
    if p != k {
      SumRemove(s - {p}, f, k);
      SumRemove(s - {k}, f, p);
      assert s - {p} - {k} == s - {k} - {p};
    }
  }

  lemma {:induction false} SumSame<K(!new)>(s: set<K>, f: K -> int, g: K -> int)
    requires forall k :: k in s ==> f(k) == g(k)
    ensures Sum(s, f) == Sum(s, g)
  {
    if s != {} {
      SumSame(s - {Pick(s)}, f, g);
    }
  }

  lemma {:induction false} SumZero<K(!new)>(s: set<K>, f: K -> int)
    requires forall k :: k in s ==> f(k) == 0
    ensures Sum(s, f) == 0
  {
    if s != {} {
      SumZero(s - {Pick(s)}, f);
    }
  }

  lemma {:induction false} SumNonNegative<K(!new)>(s: set<K>, f: K -> int)
    requires forall k :: k in s ==> f(k) >= 0
    ensures Sum(s, f) >= 0
  {
    if s != {} {
      SumNonNegative(s - {Pick(s)}, f);
    }
  }

  /** Two functions that agree everywhere but at `k`. */
  lemma SumChange<K(!new)>(s: set<K>, f: K -> int, g: K -> int, k: K)
    requires k in s
    requires forall j :: j in s && j != k ==> f(j) == g(j)
    ensures Sum(s, g) == Sum(s, f) - f(k) + g(k)
  {
    SumRemove(s, f, k);
    SumRemove(s, g, k);
    SumSame(s - {k}, f, g);
  }

  lemma SumAdd<K(!new)>(s: set<K>, f: K -> int, g: K -> int, k: K)
    requires k !in s
    requires forall j :: j in s ==> f(j) == g(j)
    ensures Sum(s + {k}, g) == Sum(s, f) + g(k)
  {
    SumRemove(s + {k}, g, k);
    assert s + {k} - {k} == s;
    SumSame(s, f, g);
  }
}
