/** Ranking by score: the `sorted(..., key=..., reverse=True)[:n]` idiom
    the question-answering program uses to pick its best files and
    sentences.  Keys are pairs compared lexicographically; a ranking by a
    single score uses a constant second component. */
module Ranking {

  /** A score: compared first by `major`, ties broken by `minor`. */
  datatype Key = Key(major: real, minor: real)

  /** An item with its score. */
  datatype Scored<T> = Scored(item: T, key: Key)

  /** `a` ranks no lower than `b`. */
  predicate AtLeast(a: Key, b: Key) {
    a.major > b.major || (a.major == b.major && a.minor >= b.minor)
  }

  /** Scores in non-increasing order. */
  predicate Descending<T>(s: seq<Scored<T>>) {
    forall i, j | 0 <= i < j < |s| :: AtLeast(s[i].key, s[j].key)
  }

  lemma AtLeastTransitive(a: Key, b: Key, c: Key)
    requires AtLeast(a, b) && AtLeast(b, c)
    ensures AtLeast(a, c)
  {
  }

  /** Inserts `e` into a descending list after every entry that ranks at
      least as high, so that among equal scores earlier entries stay first. */
  function Insert<T>(e: Scored<T>, s: seq<Scored<T>>): (r: seq<Scored<T>>)
    requires Descending(s)
    ensures Descending(r)
    ensures multiset(r) == multiset(s) + multiset{e}
    ensures |r| == |s| + 1
  {
    if |s| == 0 then [e]
    else if !AtLeast(s[0].key, e.key) then
      forall j | 0 <= j < |s|
        ensures AtLeast(e.key, s[j].key)
      {
        AtLeastTransitive(e.key, s[0].key, s[j].key);
      }
      [e] + s
    else
      var rest := Insert(e, s[1..]);
      assert s == [s[0]] + s[1..];
      forall j | 0 <= j < |rest|
        ensures AtLeast(s[0].key, rest[j].key)
      {
        assert rest[j] in multiset(s[1..]) + multiset{e};
        if rest[j] != e {
          var k :| 0 <= k < |s[1..]| && s[1..][k] == rest[j];
          assert s[k + 1] == rest[j];
        }
      }
      [s[0]] + rest
  }

  /** A stable sort into non-increasing score order, taking the entries in
      list order (the order Python's stable `sorted(reverse=True)` keeps for
      equal scores). */
  function SortDescending<T>(s: seq<Scored<T>>): (r: seq<Scored<T>>)
    ensures Descending(r)
    ensures multiset(r) == multiset(s)
    ensures |r| == |s|
  {
    if |s| == 0 then []
    else
      var n := |s| - 1;
      assert s == s[..n] + [s[n]];
      Insert(s[n], SortDescending(s[..n]))
  }

  /** No two entries share an item. */
  predicate DistinctItems<T(==)>(s: seq<Scored<T>>) {
    forall i, j | 0 <= i < j < |s| :: s[i].item != s[j].item
  }

  /** Inserting an entry whose item is new keeps the items distinct. */
  lemma {:induction false} InsertDistinct<T>(e: Scored<T>, s: seq<Scored<T>>)
    requires Descending(s) && DistinctItems(s)
    requires forall x | x in s :: x.item != e.item
    ensures DistinctItems(Insert(e, s))
  {
    if |s| > 0 && AtLeast(s[0].key, e.key) {
      var tail := s[1..];
      InsertDistinct(e, tail);
      var rest := Insert(e, tail);
      assert Insert(e, s) == [s[0]] + rest;
      forall j | 0 <= j < |rest|
        ensures rest[j].item != s[0].item
      {
        assert rest[j] in multiset(tail) + multiset{e};
        if rest[j] != e {
          var k :| 0 <= k < |tail| && tail[k] == rest[j];
          assert s[k + 1] == rest[j];
        }
      }
    }
  }

  /** Sorting keeps the items distinct. */
  lemma {:induction false} SortDistinct<T>(s: seq<Scored<T>>)
    ensures DistinctItems(s) ==> DistinctItems(SortDescending(s))
  {
    if |s| > 0 && DistinctItems(s) {
      var n := |s| - 1;
      var front := s[..n];
      assert DistinctItems(front) by {
        forall i, j | 0 <= i < j < n
          ensures front[i].item != front[j].item
        {
          assert front[i] == s[i] && front[j] == s[j];
        }
      }
      SortDistinct(front);
      var sorted := SortDescending(front);
      forall x | x in sorted
        ensures x.item != s[n].item
      {
        assert x in multiset(front);
        var k :| 0 <= k < n && front[k] == x;
        assert s[k] == x;
      }
      InsertDistinct(s[n], sorted);
      assert SortDescending(s) == Insert(s[n], sorted);
    }
  }

  /** The `n` best entries: the first `n` of the sorted list (all of them
      when there are fewer), each taken from the input at most as often as
      it occurs there. */
  function Top<T>(s: seq<Scored<T>>, n: nat): (r: seq<Scored<T>>)
    ensures |r| == if n < |s| then n else |s|
    ensures Descending(r)
    ensures multiset(r) <= multiset(s)
    ensures forall e | e in r :: e in s
    ensures DistinctItems(s) ==> DistinctItems(r)
  {
    var sorted := SortDescending(s);
    var m := if n < |sorted| then n else |sorted|;
    PrefixDrawn(s, sorted, m);
    SortDistinct(s);
    sorted[..m]
  }

  /** A prefix of a permutation of `s` is drawn from `s`. */
  lemma PrefixDrawn<T>(s: seq<T>, p: seq<T>, m: nat)
    requires multiset(p) == multiset(s) && m <= |p|
    ensures multiset(p[..m]) <= multiset(s)
    ensures forall e | e in p[..m] :: e in s
  {
    assert p == p[..m] + p[m..];
    forall e | e in p[..m]
      ensures e in s
    {
      assert e in multiset(p);
    }
  }

  /** Every entry left out of the top `n` ranks no higher than every entry
      kept. */
  lemma TopIsBest<T>(s: seq<Scored<T>>, n: nat, e: Scored<T>, t: Scored<T>)
    requires e in s && e !in Top(s, n) && t in Top(s, n)
    ensures AtLeast(t.key, e.key)
  {
    var sorted := SortDescending(s);
    var m := if n < |sorted| then n else |sorted|;
    assert Top(s, n) == sorted[..m];
    assert e in multiset(sorted);
    var k :| 0 <= k < |sorted| && sorted[k] == e;
    var i :| 0 <= i < m && sorted[..m][i] == t;
  }

  /** Each entry of the top `n` is an entry of the input: returns its
      position there. */
  lemma TopEntry<T>(s: seq<Scored<T>>, n: nat, i: nat) returns (k: nat)
    requires i < |Top(s, n)|
    ensures k < |s| && s[k] == Top(s, n)[i]
  {
    assert Top(s, n)[i] in Top(s, n);
    k :| 0 <= k < |s| && s[k] == Top(s, n)[i];
  }

  /** An entry whose item is not among the top items is not a top entry. */
  lemma LeftOut<T>(s: seq<Scored<T>>, n: nat, e: Scored<T>)
    requires e.item !in Items(Top(s, n))
    ensures e !in Top(s, n)
  {
    var top := Top(s, n);
    forall m | 0 <= m < |top|
      ensures top[m] != e
    {
      assert Items(top)[m] in Items(top);
    }
  }

  /** The items of a list of scored entries, in list order. */
  function Items<T>(s: seq<Scored<T>>): (r: seq<T>)
    ensures |r| == |s|
    ensures forall i | 0 <= i < |s| :: r[i] == s[i].item
  {
    if |s| == 0 then [] else [s[0].item] + Items(s[1..])
  }
}
