/** Finite sums and normalisation over the values of a map, taken in the
    order of an enumeration of its keys (the iteration order of a Python
    dict).  Over `real` the order does not change the sum; it only matters
    where the program reads values that an earlier step of the same loop has
    already rewritten. */
module Sums {

  /** No element of `s` occurs twice. */
  predicate NoDups<K(==)>(s: seq<K>) {
    forall i, j :: 0 <= i < j < |s| ==> s[i] != s[j]
  }

  /** `order` lists every key of `keys` exactly once. */
  predicate Enumerates<K(==)>(order: seq<K>, keys: set<K>) {
    && NoDups(order)
    && (forall k | k in keys :: k in order)
    && (forall i | 0 <= i < |order| :: order[i] in keys)
  }

  /** Every key listed by `order` has a value in `m`. */
  predicate Covers<K, V>(order: seq<K>, m: map<K, V>) {
    forall i :: 0 <= i < |order| ==> order[i] in m
  }

  /** Sum of `m`'s values at the keys listed by `order`. */
  function Sum<K>(order: seq<K>, m: map<K, real>): real
    requires Covers(order, m)
  {
    if |order| == 0 then 0.0 else m[order[0]] + Sum(order[1..], m)
  }

  /** Every entry of `m` divided by `total`, the last step of the program's
      normalisation loops. */
  function Scale<K>(m: map<K, real>, total: real): (r: map<K, real>)
    requires total != 0.0
    ensures r.Keys == m.Keys
  {
    map k | k in m :: m[k] / total
  }

  /** Divides every entry of `m` by the sum of its entries, so that the
      result sums to one and keeps the ratios between entries. */
  function Normalize<K>(order: seq<K>, m: map<K, real>): (r: map<K, real>)
    requires Enumerates(order, m.Keys)
    requires Sum(order, m) != 0.0
    ensures r.Keys == m.Keys
    ensures forall k | k in r :: r[k] == m[k] / Sum(order, m)
    ensures Sum(order, r) == 1.0
  {
    var total := Sum(order, m);
    var r := Scale(m, total);
    SumScale(order, m, total);
    DivSelf(total);
    r
  }

  /** Entries at or above a positive floor have a positive sum, and stay
      positive once normalised. */
  lemma NormalizePositive<K>(order: seq<K>, m: map<K, real>, low: real)
    requires Enumerates(order, m.Keys) && |order| > 0
    requires low > 0.0
    requires forall k | k in m :: m[k] >= low
    ensures Sum(order, m) > 0.0
    ensures forall k | k in Normalize(order, m) :: Normalize(order, m)[k] > 0.0
  {
    FloorSum(order, m, low);
    var r := Normalize(order, m);
    forall k | k in r
      ensures r[k] > 0.0
    {
      DivPositive(m[k], Sum(order, m));
    }
  }

  /** Entries at or above a positive floor have a positive sum. */
  lemma FloorSum<K>(order: seq<K>, m: map<K, real>, low: real)
    requires Enumerates(order, m.Keys) && |order| > 0
    requires low > 0.0
    requires forall k | k in m :: m[k] >= low
    ensures Sum(order, m) > 0.0
  {
    SumAtLeast(order, m, low);
    AboveFloor(|order|, low, Sum(order, m));
  }

  /** `n` entries of at least `low > 0` sum to something positive. */
  lemma AboveFloor(n: nat, low: real, total: real)
    requires n > 0 && low > 0.0 && total >= n as real * low
    ensures total > 0.0
  {
  }

  lemma DivPositive(x: real, t: real)
    requires x > 0.0 && t > 0.0
    ensures x / t > 0.0
  {
  }

  /** Multiplying a quotient back by its divisor. */
  lemma MulDiv(n: real, x: real)
    requires n != 0.0
    ensures n * (x / n) == x
  {
  }

  lemma DivSelf(t: real)
    requires t != 0.0
    ensures t / t == 1.0
  {
  }

  lemma {:induction false} SumScale<K>(order: seq<K>, m: map<K, real>, total: real)
    requires Covers(order, m)
    requires total != 0.0
    ensures Covers(order, Scale(m, total))
    ensures Sum(order, Scale(m, total)) == Sum(order, m) / total
  {
    if |order| > 0 {
      SumScale(order[1..], m, total);
    }
  }

  /** A lower bound on every entry gives a lower bound on the sum. */
  lemma {:induction false} SumAtLeast<K>(order: seq<K>, m: map<K, real>, lo: real)
    requires Covers(order, m)
    requires forall i :: 0 <= i < |order| ==> m[order[i]] >= lo
    ensures Sum(order, m) >= |order| as real * lo
  {
    if |order| > 0 {
      SumAtLeast(order[1..], m, lo);
    }
  }

  /** Number of listed keys that belong to `s`. */
  function CountIn<K(==)>(order: seq<K>, s: set<K>): nat {
    if |order| == 0 then 0
    else (if order[0] in s then 1 else 0) + CountIn(order[1..], s)
  }

  /** A duplicate-free listing of a superset of `s` meets `s` exactly |s| times. */
  lemma {:induction false} CountInAll<K>(order: seq<K>, s: set<K>)
    requires NoDups(order)
    requires forall k | k in s :: k in order
    ensures CountIn(order, s) == |s|
  {
    if |order| == 0 {
      assert s == {};
    } else {
      var x := order[0];
      var rest := order[1..];
      assert NoDups(rest);
      var s' := s - {x};
      forall k | k in s'
        ensures k in rest
      {
        var i :| 0 <= i < |order| && order[i] == k;
        assert i != 0;
        assert rest[i - 1] == k;
      }
      CountInAll(rest, s');
      if x in s {
        assert |s| == |s'| + 1;
        assert forall j :: 0 <= j < |rest| ==> rest[j] != x by {
          forall j | 0 <= j < |rest| ensures rest[j] != x {
            assert order[j + 1] == rest[j];
          }
        }
        CountInSkip(rest, s, x);
      } else {
        assert s' == s;
      }
    }
  }

  /** Removing a key that is not listed does not change the count. */
  lemma {:induction false} CountInSkip<K>(order: seq<K>, s: set<K>, x: K)
    requires forall j :: 0 <= j < |order| ==> order[j] != x
    ensures CountIn(order, s) == CountIn(order, s - {x})
  {
    if |order| > 0 {
      CountInSkip(order[1..], s, x);
    }
  }

  /** Sum of a map that gives `base` to every listed key and `extra` more to
      the keys of `s`. */
  lemma {:induction false} SumBasePlusExtra<K>(order: seq<K>, m: map<K, real>, s: set<K>, base: real, extra: real)
    requires Covers(order, m)
    requires forall i {:trigger m[order[i]]} :: 0 <= i < |order| ==> m[order[i]] == base + (if order[i] in s then extra else 0.0)
    ensures Sum(order, m) == |order| as real * base + CountIn(order, s) as real * extra
  {
    if |order| > 0 {
      SumBasePlusExtra(order[1..], m, s, base, extra);
    }
  }

  /** The map that gives `base` to every key of `keys` and `extra` more to
      the keys of `s`. */
  function Shares<K>(keys: set<K>, s: set<K>, base: real, extra: real): (m: map<K, real>)
    ensures m.Keys == keys
  {
    map k | k in keys :: base + (if k in s then extra else 0.0)
  }

  /** The entries of `Shares` at the listed keys. */
  lemma SharesAt<K>(order: seq<K>, keys: set<K>, s: set<K>, base: real, extra: real)
    requires Enumerates(order, keys)
    ensures Covers(order, Shares(keys, s, base, extra))
    ensures forall i :: 0 <= i < |order| ==> Shares(keys, s, base, extra)[order[i]] == base + (if order[i] in s then extra else 0.0)
  {
  }

  /** The shares add up to `n` base shares and `|s|` extra shares, once the
      caller knows what those come to. */
  lemma SharesSum<K>(order: seq<K>, keys: set<K>, s: set<K>, n: nat, base: real, extra: real, total: real)
    requires Enumerates(order, keys) && s <= keys
    requires n == |keys|
    requires n as real * base + |s| as real * extra == total
    ensures Covers(order, Shares(keys, s, base, extra))
    ensures Sum(order, Shares(keys, s, base, extra)) == total
  {
    EnumerationLength(order, keys);
    SharesAt(order, keys, s, base, extra);
    CountInAll(order, s);
    SumOfShares(order, Shares(keys, s, base, extra), s, n, base, extra, total);
  }

  /** The sum of a map that gives `base` to each of the `n` listed keys and
      `extra` more to the keys of `s`. */
  lemma SumOfShares<K>(order: seq<K>, m: map<K, real>, s: set<K>, n: nat, base: real, extra: real, total: real)
    requires Covers(order, m)
    requires CountIn(order, s) == |s|
    requires forall i {:trigger m[order[i]]} :: 0 <= i < |order| ==> m[order[i]] == base + (if order[i] in s then extra else 0.0)
    requires n == |order|
    requires n as real * base + |s| as real * extra == total
    ensures Sum(order, m) == total
  {
    SumBasePlusExtra(order, m, s, base, extra);
  }

  /** A listing whose entries all belong to `s` meets `s` once per entry. */
  lemma {:induction false} CountInFull<K>(order: seq<K>, s: set<K>)
    requires forall i | 0 <= i < |order| :: order[i] in s
    ensures CountIn(order, s) == |order|
  {
    if |order| > 0 {
      CountInFull(order[1..], s);
    }
  }

  /** Sum of `f` over the listed keys. */
  function SumOver<K>(order: seq<K>, f: K -> real): real {
    if |order| == 0 then 0.0 else f(order[0]) + SumOver(order[1..], f)
  }

  /** A map's sum is the sum of any function that agrees with it on the
      listed keys. */
  lemma {:induction false} SumAsSumOver<K>(order: seq<K>, m: map<K, real>, f: K -> real)
    requires Covers(order, m)
    requires forall i | 0 <= i < |order| :: m[order[i]] == f(order[i])
    ensures Sum(order, m) == SumOver(order, f)
  {
    if |order| > 0 {
      SumAsSumOver(order[1..], m, f);
    }
  }

  /** Functions that agree on the listed keys have the same sum. */
  lemma {:induction false} SumOverSame<K>(order: seq<K>, f: K -> real, g: K -> real)
    requires forall i | 0 <= i < |order| :: f(order[i]) == g(order[i])
    ensures SumOver(order, f) == SumOver(order, g)
  {
    if |order| > 0 {
      SumOverSame(order[1..], f, g);
    }
  }

  /** The sum of pointwise sums is the sum of the two sums. */
  lemma {:induction false} SumOverAdd<K>(order: seq<K>, f: K -> real, g: K -> real, h: K -> real)
    requires forall i | 0 <= i < |order| :: h(order[i]) == f(order[i]) + g(order[i])
    ensures SumOver(order, h) == SumOver(order, f) + SumOver(order, g)
  {
    if |order| > 0 {
      SumOverAdd(order[1..], f, g, h);
    }
  }

  /** `a + d * g` summed over `n` keys is `n` times `a` plus `d` times the
      sum of `g`. */
  lemma {:induction false} SumOverAffine<K>(order: seq<K>, f: K -> real, g: K -> real, a: real, d: real)
    requires forall i | 0 <= i < |order| :: f(order[i]) == a + d * g(order[i])
    ensures SumOver(order, f) == |order| as real * a + d * SumOver(order, g)
  {
    if |order| > 0 {
      SumOverAffine(order[1..], f, g, a, d);
      assert d * SumOver(order, g) == d * g(order[0]) + d * SumOver(order[1..], g);
    }
  }

  /** A function worth `v` on the keys of `s` and nothing elsewhere sums to
      `v` once per listed key of `s`. */
  lemma {:induction false} SumOverIndicator<K>(order: seq<K>, f: K -> real, s: set<K>, v: real)
    requires forall i | 0 <= i < |order| :: f(order[i]) == if order[i] in s then v else 0.0
    ensures SumOver(order, f) == CountIn(order, s) as real * v
  {
    if |order| > 0 {
      SumOverIndicator(order[1..], f, s, v);
    }
  }

  /** `a` plus `d` times `x`. */
  function Affine(a: real, d: real, x: real): real {
    a + d * x
  }

  /** A map holding `a/n + d * rows(k)` at each of its `n` listed keys sums
      to `a` plus `d` times the sum of `rows`. */
  lemma SumAffine<K>(order: seq<K>, m: map<K, real>, rows: K -> real, n: nat, a: real, d: real, total: real)
    requires Covers(order, m) && |order| == n && n > 0
    requires forall i | 0 <= i < |order| :: m[order[i]] == Affine(a / n as real, d, rows(order[i]))
    requires SumOver(order, rows) == total
    ensures Sum(order, m) == Affine(a, d, total)
  {
    var f: K -> real := k => a / n as real + d * rows(k);
    SumAsSumOver(order, m, f);
    SumOverAffine(order, f, rows, a / n as real, d);
    MulDiv(n as real, a);
  }

  /** A function worth `x / n` on the `n` keys of `s` and nothing elsewhere
      sums to `x`; with `s` empty it sums to nothing. */
  lemma SumOverShares<K>(order: seq<K>, f: K -> real, s: set<K>, n: nat, x: real, full: bool)
    requires NoDups(order) && (forall k | k in s :: k in order)
    requires n > 0 && |s| == (if full then n else 0)
    requires forall i | 0 <= i < |order| :: f(order[i]) == if order[i] in s then x / n as real else 0.0
    ensures SumOver(order, f) == if full then x else 0.0
  {
    SumOverIndicator(order, f, s, x / n as real);
    CountInAll(order, s);
    MulDiv(n as real, x);
  }

  /** A double sum may be taken in either order: `rows` sums `f(x)` over
      `ys`, `cols` sums the transposed `g(y)` over `xs`, and the two totals
      agree. */
  lemma {:induction false} SumOverSwap<K>(xs: seq<K>, ys: seq<K>, f: K -> K -> real, g: K -> K -> real,
                                          rows: K -> real, cols: K -> real)
    requires forall i, j | 0 <= i < |xs| && 0 <= j < |ys| :: g(ys[j])(xs[i]) == f(xs[i])(ys[j])
    requires forall i | 0 <= i < |xs| :: rows(xs[i]) == SumOver(ys, f(xs[i]))
    requires forall j | 0 <= j < |ys| :: cols(ys[j]) == SumOver(xs, g(ys[j]))
    ensures SumOver(xs, rows) == SumOver(ys, cols)
  {
    if |xs| > 0 {
      var rest := xs[1..];
      var restCols: K -> real := y => SumOver(rest, g(y));
      forall i, j | 0 <= i < |rest| && 0 <= j < |ys|
        ensures g(ys[j])(rest[i]) == f(rest[i])(ys[j]) && rows(rest[i]) == SumOver(ys, f(rest[i]))
      {
        assert rest[i] == xs[i + 1];
      }
      SumOverSwap(rest, ys, f, g, rows, restCols);
      forall j | 0 <= j < |ys|
        ensures cols(ys[j]) == f(xs[0])(ys[j]) + restCols(ys[j])
      {
        assert g(ys[j])(xs[0]) == f(xs[0])(ys[j]);
      }
      SumOverAdd(ys, f(xs[0]), restCols, cols);
    } else {
      SumOverIndicator(ys, cols, {}, 0.0);
    }
  }

  /** An enumeration of a set is as long as the set is large. */
  lemma EnumerationLength<K>(order: seq<K>, keys: set<K>)
    requires Enumerates(order, keys)
    ensures |order| == |keys|
  {
    CountInAll(order, keys);
    CountInFull(order, keys);
  }
}
