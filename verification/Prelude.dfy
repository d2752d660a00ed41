/** Shared result types and the few facts about sequences that several modules use. */
module Prelude {

  datatype Option<+T> = None | Some(value: T)

  datatype Result<+T, +E> = Ok(value: T) | Err(error: E)

  /** A patched field: what was sent, or else what is there. */
  function OrElse<T>(patch: Option<T>, kept: T): T {
    if patch.Some? then patch.value else kept
  }

  /** The first row satisfying `p`, as `findOne` and `Array.find` return it. */
  function FirstIndex<T>(rows: seq<T>, p: T -> bool): (r: Option<nat>)
    ensures r.Some? ==> r.value < |rows| && p(rows[r.value]) && forall j :: 0 <= j < r.value ==> !p(rows[j])
    ensures r.None? ==> forall j :: 0 <= j < |rows| ==> !p(rows[j])
  {
    if rows == [] then None
    else if p(rows[0]) then Some(0)
    else
      var rest := FirstIndex(rows[1..], p);
      if rest.None? then None else Some(rest.value + 1)
  }

  /** n * d leaves the open interval between -n and n unless d is zero. */
  lemma MultiplesAreFar(n: int, d: int)
    requires n > 0
    ensures d >= 1 ==> n * d >= n
    ensures d <= -1 ==> n * d <= -n
  {
  }

  /** A quotient and a remainder in range are the quotient and the remainder. */
  lemma DivModUnique(x: int, n: int, q: int, r: int)
    requires n > 0 && 0 <= r < n && x == n * q + r
    ensures x / n == q && x % n == r
  {
    MultiplesAreFar(n, q - x / n);
    assert n * (q - x / n) == n * q - n * (x / n) == x % n - r;
  }

  function Quotient(x: int, n: int): int
    requires n > 0
  {
    x / n
  }

  predicate Divides(n: int, x: int)
    requires n > 0
  {
    x % n == 0
  }

  /** A quotient grows by one exactly at the multiples of `n`, which may be counted from any of them. */
  lemma QuotientStep(x: int, n: int, k: int)
    requires n > 0
    ensures Quotient(x + 1 - n * k, n) - Quotient(x - n * k, n) == if Divides(n, x + 1) then 1 else 0
  {
    var (q, r) := (x / n, x % n);
    MovedQuotient(x, n, k, q, r);
    if r == n - 1 {
      MovedQuotient(x + 1, n, k, q + 1, 0);
    } else {
      MovedQuotient(x + 1, n, k, q, r + 1);
    }
  }

  lemma MovedQuotient(x: int, n: int, k: int, q: int, r: int)
    requires n > 0 && 0 <= r < n && x == n * q + r
    ensures (x - n * k) / n == q - k && x % n == r
  {
    DivModUnique(x, n, q, r);
    assert x - n * k == n * (q - k) + r;
    DivModUnique(x - n * k, n, q - k, r);
  }

  predicate Distinct<T(==)>(s: seq<T>) {
    forall i, j :: 0 <= i < j < |s| ==> s[i] != s[j]
  }

  /** An injective image of a finite set inside another one is no larger than it. */
  lemma {:induction false} InjectionBound<A(!new), B>(domain: set<A>, image: map<A, B>, codomain: set<B>)
    requires domain <= image.Keys
    requires forall a :: a in domain ==> image[a] in codomain
    requires forall a, b :: a in domain && b in domain && image[a] == image[b] ==> a == b
    ensures |domain| <= |codomain|
    decreases |domain|
  {
    if domain != {} {
      var a :| a in domain;
      InjectionBound(domain - {a}, image, codomain - {image[a]});
      assert |codomain - {image[a]}| == |codomain| - 1;
    }
  }

  function Map<A, B>(f: A -> B, s: seq<A>): (m: seq<B>)
    ensures |m| == |s| && forall i :: 0 <= i < |s| ==> m[i] == f(s[i])
  {
    seq(|s|, i requires 0 <= i < |s| => f(s[i]))
  }

  /** The elements satisfying `p`, in order. */
  function Filter<T(!new)>(p: T -> bool, s: seq<T>): (r: seq<T>)
    ensures forall x :: x in r <==> x in s && p(x)
    ensures |r| <= |s|
  {
    if s == [] then []
    else
      assert s == [s[0]] + s[1..];
      var rest := Filter(p, s[1..]);
      if p(s[0]) then [s[0]] + rest else rest
  }

  lemma {:induction false} FilterAppend<T(!new)>(p: T -> bool, s: seq<T>, x: T)
    ensures Filter(p, s + [x]) == Filter(p, s) + if p(x) then [x] else []
  {
    if s == [] {
      assert s + [x] == [x];
    } else {
      assert (s + [x])[1..] == s[1..] + [x];
      FilterAppend(p, s[1..], x);
    }
  }

  lemma {:induction false} FilterKeepsDistinct<T(!new)>(p: T -> bool, s: seq<T>)
    requires Distinct(s)
    ensures Distinct(Filter(p, s))
  {
    if s != [] {
      FilterKeepsDistinct(p, s[1..]);
    }
  }

  function Without<T>(s: seq<T>, i: nat): (r: seq<T>)
    requires i < |s|
    ensures multiset(s) == multiset(r) + multiset{s[i]}
  {
    assert s == s[..i] + [s[i]] + s[i + 1..];
    s[..i] + s[i + 1..]
  }

  lemma MapWithout<A, B>(f: A -> B, s: seq<A>, i: nat)
    requires i < |s|
    ensures Map(f, Without(s, i)) == Without(Map(f, s), i)
  {
  }

  /** Mapping a permutation gives a permutation. */
  lemma {:induction false} MapPermutation<A, B>(f: A -> B, s: seq<A>, t: seq<A>)
    requires multiset(s) == multiset(t)
    ensures multiset(Map(f, s)) == multiset(Map(f, t))
    decreases |s|
  {
    if s == [] {
      assert |t| == |multiset(t)| == |multiset(s)| == 0;
    } else {
      assert s[0] in multiset(t);
      var j :| 0 <= j < |t| && t[j] == s[0];
      assert multiset(Without(s, 0)) == multiset(s) - multiset{s[0]} == multiset(Without(t, j));
      MapPermutation(f, Without(s, 0), Without(t, j));
      MapWithout(f, s, 0);
      MapWithout(f, t, j);
    }
  }

  lemma {:induction false} DistinctOccursOnce<T>(s: seq<T>, x: T)
    requires Distinct(s)
    ensures multiset(s)[x] <= 1
  {
    if s != [] {
      assert s == [s[0]] + s[1..];
      DistinctOccursOnce(s[1..], x);
    }
  }

  lemma OnceIsDistinct<T>(s: seq<T>)
    requires forall i :: 0 <= i < |s| ==> multiset(s)[s[i]] <= 1
    ensures Distinct(s)
  {
    forall i, j | 0 <= i < j < |s|
      ensures s[i] != s[j]
    {
      assert s == s[..j] + [s[j]] + s[j + 1..];
      assert s[..j][i] == s[i] && s[i] in multiset(s[..j]);
      assert multiset(s)[s[j]] > multiset(s[..j])[s[j]];
    }
  }

  lemma DistinctPermutation<T>(s: seq<T>, t: seq<T>)
    requires Distinct(s) && multiset(s) == multiset(t)
    ensures Distinct(t)
  {
    forall i | 0 <= i < |t|
      ensures multiset(t)[t[i]] <= 1
    {
      DistinctOccursOnce(s, t[i]);
    }
    OnceIsDistinct(t);
  }
}
