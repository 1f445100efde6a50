/** Sums over ids and over maps, and lists without repetitions. */
module Sums {

  // ---------- sums over ids 1..n ----------

  function SumTo(n: nat, f: int -> int): int {
    if n == 0 then 0 else SumTo(n - 1, f) + f(n)
  }

  /** Two summands that agree everywhere except at `id` differ by that one term. */
  lemma {:induction false} SumChange(n: nat, f: int -> int, g: int -> int, id: int)
    requires forall j: int | 1 <= j <= n && j != id :: f(j) == g(j)
    ensures SumTo(n, g) == SumTo(n, f) + if 1 <= id <= n then g(id) - f(id) else 0
  {
    if n > 0 {
      SumChange(n - 1, f, g, id);
    }
  }

  lemma {:induction false} SumBounds(n: nat, f: int -> int, id: int)
    requires forall j: int | 1 <= j <= n :: 0 <= f(j)
    ensures 0 <= SumTo(n, f)
    ensures 1 <= id <= n ==> f(id) <= SumTo(n, f)
  {
    if n > 0 {
      SumBounds(n - 1, f, if id == n then 0 else id);
    }
  }

  /** Smaller non-negative summands, fewer of them, give a smaller sum. */
  lemma {:induction false} SumMonotone(m: nat, n: nat, f: int -> int, g: int -> int)
    requires m <= n && forall j: int | 1 <= j <= n :: 0 <= f(j) <= g(j)
    ensures 0 <= SumTo(m, f) <= SumTo(n, g)
  {
    if n > 0 {
      SumMonotone(if m == n then m - 1 else m, n - 1, f, g);
    }
  }

  // ---------- sums over maps ----------

  ghost function Sum<K>(m: map<K, int>): int {
    if m == map[] then 0 else var k :| k in m; m[k] + Sum(m - {k})
  }

  /** Any key may be taken out first. */
  lemma {:induction false} SumRemove<K>(m: map<K, int>, k: K)
    requires k in m
    ensures Sum(m) == m[k] + Sum(m - {k})
    decreases |m|
  {
    var c :| c in m && Sum(m) == m[c] + Sum(m - {c});
    if c != k {
      SumRemove(m - {c}, k);
      SumRemove(m - {k}, c);
      assert m - {c} - {k} == m - {k} - {c};
    }
  }

  lemma SumUpdate<K>(m: map<K, int>, k: K, v: int)
    ensures Sum(m[k := v]) == Sum(m) + v - if k in m then m[k] else 0
  {
    SumRemove(m[k := v], k);
    assert m[k := v] - {k} == m - {k};
    if k in m {
      SumRemove(m, k);
    } else {
      assert m - {k} == m;
    }
  }

  /** Non-negative entries, any two of them, stay within the sum. */
  lemma {:induction false} SumCovers<K>(m: map<K, int>)
    requires forall k | k in m :: 0 <= m[k]
    ensures 0 <= Sum(m)
    ensures forall k | k in m :: m[k] <= Sum(m)
    ensures forall k, l | k in m && l in m && k != l :: m[k] + m[l] <= Sum(m)
    decreases |m|
  {
    forall k | k in m ensures m[k] <= Sum(m) {
      SumRemove(m, k);
      SumCovers(m - {k});
    }
    forall k, l | k in m && l in m && k != l ensures m[k] + m[l] <= Sum(m) {
      SumRemove(m, k);
      SumCovers(m - {k});
      assert l in m - {k};
    }
    if m != map[] {
      var k :| k in m;
      SumRemove(m, k);
    }
  }

  lemma SumNonNegative<K>(m: map<K, int>)
    requires forall k | k in m :: 0 <= m[k]
    ensures 0 <= Sum(m)
  {
    SumCovers(m);
  }

  // ---------- lists used as sets ----------

  predicate NoDup<T(==)>(s: seq<T>) {
    forall i, j | 0 <= i < j < |s| :: s[i] != s[j]
  }

  /** `s` with every occurrence of `x` filtered out. */
  function Without<T(==)>(s: seq<T>, x: T): seq<T> {
    if s == [] then []
    else if s[|s| - 1] == x then Without(s[..|s| - 1], x)
    else Without(s[..|s| - 1], x) + [s[|s| - 1]]
  }

  lemma {:induction false} WithoutFacts<T>(s: seq<T>, x: T)
    ensures forall y :: y in Without(s, x) <==> y in s && y != x
    ensures NoDup(s) ==> NoDup(Without(s, x))
  {
    if s != [] {
      var t, last := s[..|s| - 1], s[|s| - 1];
      WithoutFacts(t, x);
      assert s == t + [last];
      if NoDup(s) {
        assert NoDup(t);
        assert forall i | 0 <= i < |t| :: t[i] == s[i] && s[i] != last;
        assert last !in t;
      }
    }
  }

  lemma WithoutStep<T>(s: seq<T>, i: nat, x: T)
    requires i < |s|
    ensures Without(s[..i + 1], x) == Without(s[..i], x) + if s[i] == x then [] else [s[i]]
  {
    assert s[..i + 1][..i] == s[..i];
  }

  /** `s` itself when `x` is listed already, else `s` with `x` appended. */
  function With<T(==)>(s: seq<T>, x: T): seq<T> {
    if x in s then s else s + [x]
  }

  lemma WithFacts<T>(s: seq<T>, x: T)
    ensures forall y :: y in With(s, x) <==> y in s || y == x
    ensures NoDup(s) ==> NoDup(With(s, x))
  {
  }

  /** A search loop that stops at the first hit. */
  method Contains<T(==)>(s: seq<T>, x: T) returns (found: bool)
    ensures found <==> x in s
  {
    found := false;
    var i := 0;
    while i < |s|
      invariant 0 <= i <= |s|
      invariant !found && x !in s[..i]
    {
      if s[i] == x {
        found := true;
        break;
      }
      i := i + 1;
    }
  }

  /** A filter loop that copies everything but `x`. */
  method Filter<T(==)>(s: seq<T>, x: T) returns (updated: seq<T>)
    ensures updated == Without(s, x)
  {
    updated := [];
    for i := 0 to |s|
      invariant updated == Without(s[..i], x)
    {
      WithoutStep(s, i, x);
      if s[i] != x {
        updated := updated + [s[i]];
      }
    }
    assert s[..|s|] == s;
  }
}
