/** Optional values, and the little arithmetic of numbers and set sizes that every component shares. */
module Basics {

  datatype Option<+T> = None | Some(value: T)

  function Max(x: int, y: int): int {
    if x < y then y else x
  }

  function Min(x: int, y: int): int {
    if x < y then x else y
  }

  /** `k * c`, one addition at a time. */
  function Times(k: nat, c: int): int {
    if k == 0 then 0 else Times(k - 1, c) + c
  }

  lemma {:induction false} TimesIsProduct(k: nat, c: int)
    ensures Times(k, c) == k * c
  {
    if k == 0 {
    } else {
      TimesIsProduct(k - 1, c);
    }
  }

  lemma {:induction false} TimesGrows(j: nat, k: nat, c: int)
    requires j <= k && c >= 0
    ensures Times(j, c) <= Times(k, c)
  {
    if j == k {
    } else {
      TimesGrows(j, k - 1, c);
    }
  }

  lemma DividendBelowNext(d: int, c: int)
    requires c >= 1
    ensures d < (d / c + 1) * c
  {
    assert (d / c + 1) * c == d / c * c + c;
  }

  lemma TimesOrder(k: nat, q: nat, c: int)
    requires c >= 1
    ensures Times(k, c) < Times(q, c) ==> k < q
  {
    if q <= k {
      TimesGrows(q, k, c);
    }
  }

  lemma QuotientBound(k: nat, d: int, c: int)
    requires c >= 1 && Times(k, c) <= d
    ensures k <= d / c
  {
    TimesGrows(0, k, c);
    var q: nat := d / c;
    DividendBelowNext(d, c);
    TimesIsProduct(q + 1, c);
    TimesOrder(k, q + 1, c);
  }

  lemma SubsetSize<T>(a: set<T>, b: set<T>)
    requires a <= b
    ensures |b - a| == |b| - |a|
    ensures |a| == |b| <==> a == b
  {
    assert b == a + (b - a);
  }

  /** The marked positions of a stretch. */
  function Marked(flags: seq<bool>, m: nat, n: nat): set<nat>
    requires n <= |flags|
  {
    set k: nat | m <= k < n && flags[k]
  }

  lemma {:induction false} CountSteps(flags: seq<bool>, totals: seq<nat>, m: nat, n: nat)
    requires |totals| == |flags| + 1 && m <= n <= |flags|
    requires forall k :: m <= k < n ==> totals[k + 1] == totals[k] + if flags[k] then 1 else 0
    ensures totals[n] == totals[m] + |Marked(flags, m, n)|
    decreases n
  {
    if m == n {
      assert Marked(flags, m, n) == {};
    } else {
      CountSteps(flags, totals, m, n - 1);
      assert Marked(flags, m, n) == Marked(flags, m, n - 1) + if flags[n - 1] then {n - 1} else {};
    }
  }
}
