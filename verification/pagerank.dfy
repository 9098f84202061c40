/** PageRank over a corpus of linked pages (week2/pagerank/pagerank.py):
    the link clean-up at the end of `crawl`, the random-surfer transition
    model, and the parts of the iterative estimator that do not depend on
    floating-point convergence (start values, one in-place sweep, the final
    normalisation).

    A corpus maps each page to the set of pages it links to.  Where the
    program walks a dict, `order` is the dict's iteration order: it lists
    every page exactly once. */
module PageRank {
  import opened Sums

  type Page = string

  type Corpus = map<Page, set<Page>>

  /** Links stay inside the corpus and no page links to itself. */
  predicate WellFormed(c: Corpus) {
    forall p | p in c :: p !in c[p] && c[p] <= c.Keys
  }

  // ---------------------------------------------------------------------
  // Link clean-up (`crawl` after the links have been extracted)
  // ---------------------------------------------------------------------

  /** Each page's extracted links without the page itself. */
  function DropSelfLinks(raw: map<Page, set<Page>>): (r: map<Page, set<Page>>)
    ensures r.Keys == raw.Keys
    ensures forall p, q | p in r :: q in r[p] <==> q in raw[p] && q != p
  {
    map p | p in raw :: raw[p] - {p}
  }

  /** Each page's links restricted to pages of the corpus. */
  function KeepCorpusLinks(pages: map<Page, set<Page>>): (r: Corpus)
    ensures r.Keys == pages.Keys
    ensures forall p, q | p in r :: q in r[p] <==> q in pages[p] && q in pages
  {
    map p | p in pages :: set q | q in pages[p] && q in pages
  }

  /** The corpus `crawl` returns for the extracted links `raw`: same pages,
      and a page keeps exactly those links that name another page of the
      corpus. */
  function Crawl(raw: map<Page, set<Page>>): (c: Corpus)
    ensures c.Keys == raw.Keys
    ensures WellFormed(c)
    ensures forall p, q | p in c :: q in c[p] <==> q in raw[p] && q != p && q in raw
  {
    KeepCorpusLinks(DropSelfLinks(raw))
  }

  /** Cleaning a corpus that is already clean changes nothing. */
  lemma CrawlIdempotent(c: Corpus)
    requires WellFormed(c)
    ensures Crawl(c) == c
  {
    var r := Crawl(c);
    forall p | p in c
      ensures r[p] == c[p]
    {
    }
  }

  // ---------------------------------------------------------------------
  // Transition model
  // ---------------------------------------------------------------------

  /** What each link of `page` adds to the page it leads to: `d/k` for `k`
      links, nothing when the page has none. */
  function LinkShare(c: Corpus, page: Page, d: real): real
    requires page in c
  {
    if |c[page]| != 0 then d / |c[page]| as real else 0.0
  }

  /** The transition weights before normalisation: `(1-d)/N` for every
      page, plus the link share for each page the current page links to. */
  function Unnormalized(c: Corpus, page: Page, d: real): (m: map<Page, real>)
    requires page in c
    ensures m.Keys == c.Keys
  {
    Shares(c.Keys, c[page], (1.0 - d) / |c| as real, LinkShare(c, page, d))
  }

  /** Before normalisation the weights sum to one when the page has links,
      and to `1 - d` when it has none. */
  lemma UnnormalizedSum(c: Corpus, order: seq<Page>, page: Page, d: real)
    requires page in c && c[page] <= c.Keys
    requires Enumerates(order, c.Keys)
    ensures Covers(order, Unnormalized(c, page, d))
    ensures Sum(order, Unnormalized(c, page, d)) == if c[page] != {} then 1.0 else 1.0 - d
  {
    LinkedTotal(c, page, d);
    SharesSum(order, c.Keys, c[page], |c|, (1.0 - d) / |c| as real, LinkShare(c, page, d),
              if c[page] != {} then 1.0 else 1.0 - d);
  }

  /** The arithmetic behind `UnnormalizedSum`: `N` shares of `(1-d)/N` and
      `k` shares of `d/k`. */
  lemma LinkedTotal(c: Corpus, page: Page, d: real)
    requires page in c
    ensures |c| > 0
    ensures |c| as real * ((1.0 - d) / |c| as real) + |c[page]| as real * LinkShare(c, page, d)
      == if c[page] != {} then 1.0 else 1.0 - d
  {
    assert page in c.Keys;
    MulDiv(|c| as real, 1.0 - d);
    if |c[page]| != 0 {
      MulDiv(|c[page]| as real, d);
    }
  }

  /** The transition model: where the surfer goes next from `page`.  Every
      page gets `(1-d)/N`; each of the `k` linked pages gets `d/k` more; a
      page without links ends up giving every page `1/N` once the weights
      are normalised. */
  function TransitionModel(c: Corpus, order: seq<Page>, page: Page, d: real): (r: map<Page, real>)
    requires page in c && c[page] <= c.Keys
    requires Enumerates(order, c.Keys)
    requires 0.0 <= d <= 1.0
    requires c[page] != {} || d < 1.0
    ensures r.Keys == c.Keys
    ensures forall q | q in r :: r[q] >= 0.0
    ensures Sum(order, r) == 1.0
    ensures c[page] != {} ==> forall q | q in r ::
      r[q] == (1.0 - d) / |c| as real + (if q in c[page] then d / |c[page]| as real else 0.0)
    ensures c[page] == {} ==> forall q | q in r :: r[q] == 1.0 / |c| as real
  {
    var m := Unnormalized(c, page, d);
    UnnormalizedSum(c, order, page, d);
    TransitionEntries(c, page, d, Normalize(order, m));
    Normalize(order, m)
  }

  /** Entries of the normalised transition weights. */
  lemma TransitionEntries(c: Corpus, page: Page, d: real, r: map<Page, real>)
    requires page in c && 0.0 <= d <= 1.0 && (c[page] != {} || d < 1.0)
    requires r.Keys == c.Keys
    requires forall q | q in r :: r[q] == Unnormalized(c, page, d)[q] / (if c[page] != {} then 1.0 else 1.0 - d)
    ensures forall q | q in r :: r[q] >= 0.0
    ensures c[page] != {} ==> forall q | q in r ::
      r[q] == (1.0 - d) / |c| as real + (if q in c[page] then d / |c[page]| as real else 0.0)
    ensures c[page] == {} ==> forall q | q in r :: r[q] == 1.0 / |c| as real
  {
    assert page in c.Keys;
    var n := |c| as real;
    forall q | q in r
      ensures r[q] >= 0.0
      ensures c[page] != {} ==> r[q] == (1.0 - d) / n + (if q in c[page] then d / |c[page]| as real else 0.0)
      ensures c[page] == {} ==> r[q] == 1.0 / n
    {
      if c[page] != {} {
        ShareNonNegative(d, |c[page]| as real);
      } else {
        ShareOfShare(1.0 - d, n, r[q]);
      }
      ShareNonNegative(1.0 - d, n);
    }
  }

  lemma ShareNonNegative(a: real, n: real)
    requires a >= 0.0 && n > 0.0
    ensures a / n >= 0.0
  {
  }

  /** `a/n` divided by `a` is `1/n`. */
  lemma ShareOfShare(a: real, n: real, x: real)
    requires a > 0.0 && n > 0.0 && x == (a / n + 0.0) / a
    ensures x == 1.0 / n
  {
    assert x * a == (1.0 / n) * a;
  }

  // ---------------------------------------------------------------------
  // Iterative estimator
  // ---------------------------------------------------------------------

  /** The pages that link to `p`, in corpus order. */
  function LinkSources(c: Corpus, order: seq<Page>, p: Page): (s: seq<Page>)
    requires Covers(order, c)
    ensures |s| <= |order|
    ensures forall k | 0 <= k < |s| :: s[k] in c && p in c[s[k]]
  {
    if |order| == 0 then []
    else if p in c[order[0]] then [order[0]] + LinkSources(c, order[1..], p)
    else LinkSources(c, order[1..], p)
  }

  /** A page is a link source of `p` exactly when it is listed and links to
      `p`; each source appears once. */
  lemma {:induction false} LinkSourcesSpec(c: Corpus, order: seq<Page>, p: Page)
    requires Covers(order, c)
    ensures forall k | 0 <= k < |LinkSources(c, order, p)| :: LinkSources(c, order, p)[k] in c
    ensures forall i | i in c :: i in LinkSources(c, order, p) <==> i in order && p in c[i]
    ensures NoDups(order) ==> NoDups(LinkSources(c, order, p))
  {
    if |order| > 0 {
      var rest := LinkSources(c, order[1..], p);
      LinkSourcesSpec(c, order[1..], p);
      assert order == [order[0]] + order[1..];
      if NoDups(order) {
        assert NoDups(order[1..]);
        assert order[0] !in order[1..];
      }
    }
  }

  /** The share of its rank a page passes along each link: its out-degree,
      or the corpus size for a page without links. */
  function NumLinks(c: Corpus, i: Page): (n: nat)
    requires i in c
    ensures n >= 1
    ensures c[i] == {} ==> n == |c|
    ensures c[i] != {} ==> n == |c[i]|
  {
    if |c[i]| == 0 then |c| else |c[i]|
  }

  /** Rank flowing into a page from the listed sources: the sum of
      `rank(i) / numLinks(i)`. */
  function Inflow(c: Corpus, sources: seq<Page>, ranks: map<Page, real>): real
    requires forall k | 0 <= k < |sources| :: sources[k] in c && sources[k] in ranks
  {
    if |sources| == 0 then 0.0
    else ranks[sources[0]] / NumLinks(c, sources[0]) as real + Inflow(c, sources[1..], ranks)
  }

  /** Non-negative ranks give a non-negative inflow. */
  lemma {:induction false} InflowNonNegative(c: Corpus, sources: seq<Page>, ranks: map<Page, real>)
    requires forall k | 0 <= k < |sources| :: sources[k] in c && sources[k] in ranks
    requires forall q | q in ranks :: ranks[q] >= 0.0
    ensures Inflow(c, sources, ranks) >= 0.0
  {
    if |sources| > 0 {
      InflowNonNegative(c, sources[1..], ranks);
      ShareNonNegative(ranks[sources[0]], NumLinks(c, sources[0]) as real);
    }
  }

  /** The new rank of `p` computed from `ranks`:
      `(1-d)/N + d * sum of rank(i)/numLinks(i)` over the pages `i` that
      link to `p`.  A page no page links to gets exactly `(1-d)/N`, whatever
      the ranks. */
  function NewRank(c: Corpus, order: seq<Page>, d: real, ranks: map<Page, real>, p: Page): (r: real)
    requires Covers(order, c) && ranks.Keys == c.Keys && |c| > 0
    ensures (forall i | i in c :: p !in c[i]) ==> r == (1.0 - d) / |c| as real
  {
    (1.0 - d) / |c| as real + d * Inflow(c, LinkSources(c, order, p), ranks)
  }

  /** From non-negative ranks, a new rank is at least the teleport share. */
  lemma NewRankAtLeast(c: Corpus, order: seq<Page>, d: real, ranks: map<Page, real>, p: Page)
    requires Enumerates(order, c.Keys) && ranks.Keys == c.Keys && |c| > 0
    requires 0.0 <= d <= 1.0
    requires forall q | q in ranks :: ranks[q] >= 0.0
    ensures NewRank(c, order, d, ranks, p) >= (1.0 - d) / |c| as real
  {
    InflowNonNegative(c, LinkSources(c, order, p), ranks);
  }

  /** Every page starts at `1/N`. */
  function InitialRanks(c: Corpus): (r: map<Page, real>)
    requires |c| > 0
    ensures r.Keys == c.Keys
    ensures forall q | q in r :: r[q] == 1.0 / |c| as real
  {
    Shares(c.Keys, {}, 1.0 / |c| as real, 0.0)
  }

  /** The start values form a distribution. */
  lemma InitialRanksSum(c: Corpus, order: seq<Page>)
    requires |c| > 0 && Enumerates(order, c.Keys)
    ensures Sum(order, InitialRanks(c)) == 1.0
  {
    MulDiv(|c| as real, 1.0);
    SharesSum(order, c.Keys, {}, |c|, 1.0 / |c| as real, 0.0, 1.0);
  }

  /** `ranks` after the pages `order[..k]` have been recomputed in turn by
      `next`, each from the ranks as they stand at its turn: the update is
      in place, so a page sees the values this pass already gave to the
      pages before it. */
  function Swept(order: seq<Page>, ranks: map<Page, real>, next: (map<Page, real>, Page) -> real, k: nat): (r: map<Page, real>)
    requires k <= |order|
    requires forall i | 0 <= i < |order| :: order[i] in ranks
    ensures r.Keys == ranks.Keys
    decreases k
  {
    if k == 0 then ranks
    else
      var r := Swept(order, ranks, next, k - 1);
      r[order[k - 1] := next(r, order[k - 1])]
  }

  /** The ranks a pass sees when it reaches position `k`: pages listed
      before `k` already hold their new value, the others still the old
      one. */
  function Midway(order: seq<Page>, updated: map<Page, real>, before: map<Page, real>, k: nat): (m: map<Page, real>)
    requires k <= |order|
    requires updated.Keys == before.Keys
    ensures m.Keys == before.Keys
  {
    map q | q in before :: if q in order[..k] then updated[q] else before[q]
  }

  /** A page the first `k` steps have not reached still has its old rank. */
  lemma {:induction false} SweptUntouched(order: seq<Page>, ranks: map<Page, real>, next: (map<Page, real>, Page) -> real, k: nat, q: Page)
    requires k <= |order| && forall i | 0 <= i < |order| :: order[i] in ranks
    requires q in ranks && forall i | 0 <= i < k :: order[i] != q
    ensures Swept(order, ranks, next, k)[q] == ranks[q]
  {
    if k > 0 {
      SweptUntouched(order, ranks, next, k - 1, q);
    }
  }

  /** Steps `j` to `k` leave alone every page they do not handle. */
  lemma {:induction false} SweptFrame(order: seq<Page>, ranks: map<Page, real>, next: (map<Page, real>, Page) -> real, j: nat, k: nat, q: Page)
    requires j <= k <= |order| && forall i | 0 <= i < |order| :: order[i] in ranks
    requires q in ranks && forall i | j <= i < k :: order[i] != q
    ensures Swept(order, ranks, next, k)[q] == Swept(order, ranks, next, j)[q]
  {
    if k > j {
      SweptFrame(order, ranks, next, j, k - 1, q);
    }
  }

  /** The midway ranks of position `k` are exactly the ranks after `k`
      steps. */
  lemma MidwayIsSwept(order: seq<Page>, ranks: map<Page, real>, next: (map<Page, real>, Page) -> real, k: nat)
    requires Enumerates(order, ranks.Keys) && k <= |order|
    ensures Midway(order, Swept(order, ranks, next, |order|), ranks, k) == Swept(order, ranks, next, k)
  {
    forall q | q in ranks
      ensures Midway(order, Swept(order, ranks, next, |order|), ranks, k)[q] == Swept(order, ranks, next, k)[q]
    {
      MidwayAt(order, ranks, next, k, q);
    }
  }

  lemma MidwayAt(order: seq<Page>, ranks: map<Page, real>, next: (map<Page, real>, Page) -> real, k: nat, q: Page)
    requires Enumerates(order, ranks.Keys) && k <= |order| && q in ranks
    ensures Midway(order, Swept(order, ranks, next, |order|), ranks, k)[q] == Swept(order, ranks, next, k)[q]
  {
    if q in order[..k] {
      var i :| 0 <= i < k && order[i] == q;
      SweptFrame(order, ranks, next, k, |order|, q);
    } else {
      forall i | 0 <= i < k
        ensures order[i] != q
      {
        assert order[..k][i] == order[i];
      }
      SweptUntouched(order, ranks, next, k, q);
    }
  }

  /** After a full pass each page holds the value `next` computed for it
      from the midway ranks of its position. */
  lemma SweptSeesMidway(order: seq<Page>, ranks: map<Page, real>, next: (map<Page, real>, Page) -> real)
    requires Enumerates(order, ranks.Keys)
    ensures forall k {:trigger Midway(order, Swept(order, ranks, next, |order|), ranks, k)} | 0 <= k < |order| ::
      Swept(order, ranks, next, |order|)[order[k]]
        == next(Midway(order, Swept(order, ranks, next, |order|), ranks, k), order[k])
  {
    var n := |order|;
    forall k | 0 <= k < n
      ensures Swept(order, ranks, next, n)[order[k]]
        == next(Midway(order, Swept(order, ranks, next, n), ranks, k), order[k])
    {
      SweptAt(order, ranks, next, k);
    }
  }

  lemma SweptAt(order: seq<Page>, ranks: map<Page, real>, next: (map<Page, real>, Page) -> real, k: nat)
    requires Enumerates(order, ranks.Keys) && k < |order|
    ensures Swept(order, ranks, next, |order|)[order[k]]
      == next(Midway(order, Swept(order, ranks, next, |order|), ranks, k), order[k])
  {
    var pre := Swept(order, ranks, next, k);
    MidwayIsSwept(order, ranks, next, k);
    assert Swept(order, ranks, next, k + 1)[order[k]] == next(pre, order[k]);
    assert forall i | k + 1 <= i < |order| :: order[i] != order[k];
    SweptFrame(order, ranks, next, k + 1, |order|, order[k]);
  }

  /** One pass of the `for p in pageRanks` loop: every page is recomputed
      once, in corpus order, from the midway ranks of its position, and
      ends at least at the teleport share `(1-d)/N`. */
  method Sweep(c: Corpus, order: seq<Page>, d: real, ranks: map<Page, real>) returns (r: map<Page, real>)
    requires Enumerates(order, c.Keys) && ranks.Keys == c.Keys && |c| > 0
    requires 0.0 <= d <= 1.0
    requires forall q | q in ranks :: ranks[q] >= 0.0
    ensures r.Keys == c.Keys
    ensures r == Passes(c, order, d, ranks, 1)
    ensures forall k {:trigger Midway(order, r, ranks, k)} | 0 <= k < |order| :: r[order[k]] == NewRank(c, order, d, Midway(order, r, ranks, k), order[k])
    ensures forall q | q in r :: r[q] >= (1.0 - d) / |c| as real
  {
    r := ranks;
    for k := 0 to |order|
      invariant r == Swept(order, ranks, Next(c, order, d), k)
    {
      PassStep(c, order, d, ranks, k);
      r := r[order[k] := NewRank(c, order, d, r, order[k])];
    }
    PassSpec(c, order, d, ranks);
  }

  /** What a full pass of the new-rank formula computes. */
  lemma PassSpec(c: Corpus, order: seq<Page>, d: real, ranks: map<Page, real>)
    requires Enumerates(order, c.Keys) && ranks.Keys == c.Keys && |c| > 0
    requires 0.0 <= d <= 1.0
    requires forall q | q in ranks :: ranks[q] >= 0.0
    ensures var r := Swept(order, ranks, Next(c, order, d), |order|);
      && r.Keys == c.Keys
      && (forall k {:trigger Midway(order, r, ranks, k)} | 0 <= k < |order| :: r[order[k]] == NewRank(c, order, d, Midway(order, r, ranks, k), order[k]))
      && (forall q | q in r :: r[q] >= (1.0 - d) / |c| as real)
  {
    var r := Swept(order, ranks, Next(c, order, d), |order|);
    SweptSeesMidway(order, ranks, Next(c, order, d));
    SweepResult(c, order, d, ranks, r);
    SweptAtLeast(c, order, d, ranks, |order|);
    ListedBound(order, r, (1.0 - d) / |c| as real);
  }

  /** Step `k + 1` of a pass rewrites page `order[k]` with its new rank. */
  lemma PassStep(c: Corpus, order: seq<Page>, d: real, ranks: map<Page, real>, k: nat)
    requires Enumerates(order, c.Keys) && ranks.Keys == c.Keys && |c| > 0 && k < |order|
    ensures var r := Swept(order, ranks, Next(c, order, d), k);
      Swept(order, ranks, Next(c, order, d), k + 1) == r[order[k] := NewRank(c, order, d, r, order[k])]
  {
    NextIs(c, order, d, Swept(order, ranks, Next(c, order, d), k), order[k]);
  }

  /** The new-rank formula as the step function of a pass. */
  function Next(c: Corpus, order: seq<Page>, d: real): (map<Page, real>, Page) -> real
    requires Enumerates(order, c.Keys) && |c| > 0
  {
    (m: map<Page, real>, p: Page) => if m.Keys == c.Keys then NewRank(c, order, d, m, p) else 0.0
  }

  lemma NextIs(c: Corpus, order: seq<Page>, d: real, m: map<Page, real>, p: Page)
    requires Enumerates(order, c.Keys) && |c| > 0 && m.Keys == c.Keys
    ensures Next(c, order, d)(m, p) == NewRank(c, order, d, m, p)
  {
  }

  /** Ranks are non-negative, and the first `k` listed pages are at least
      `low`. */
  predicate AtLeastSoFar(order: seq<Page>, r: map<Page, real>, k: nat, low: real)
    requires k <= |order|
  {
    && (forall q | q in r :: r[q] >= 0.0)
    && (forall j | 0 <= j < k :: order[j] in r && r[order[j]] >= low)
  }

  /** A pass whose step never falls below `low` on non-negative ranks keeps
      `AtLeastSoFar`. */
  lemma {:induction false} SweptFloor(order: seq<Page>, ranks: map<Page, real>, next: (map<Page, real>, Page) -> real, k: nat, low: real)
    requires k <= |order|
    requires forall i | 0 <= i < |order| :: order[i] in ranks
    requires 0.0 <= low && (forall q | q in ranks :: ranks[q] >= 0.0)
    requires forall m: map<Page, real>, p: Page | m.Keys == ranks.Keys && (forall q | q in m :: m[q] >= 0.0) :: next(m, p) >= low
    ensures AtLeastSoFar(order, Swept(order, ranks, next, k), k, low)
  {
    if k > 0 {
      SweptFloor(order, ranks, next, k - 1, low);
    }
  }

  /** The pages a pass has reached hold at least the teleport share, and
      no rank turns negative. */
  lemma SweptAtLeast(c: Corpus, order: seq<Page>, d: real, ranks: map<Page, real>, k: nat)
    requires Enumerates(order, c.Keys) && ranks.Keys == c.Keys && |c| > 0
    requires 0.0 <= d <= 1.0 && k <= |order|
    requires forall q | q in ranks :: ranks[q] >= 0.0
    ensures AtLeastSoFar(order, Swept(order, ranks, Next(c, order, d), k), k, (1.0 - d) / |c| as real)
  {
    var low := (1.0 - d) / |c| as real;
    ShareNonNegative(1.0 - d, |c| as real);
    forall m: map<Page, real>, p: Page | m.Keys == ranks.Keys && (forall q | q in m :: m[q] >= 0.0)
      ensures Next(c, order, d)(m, p) >= low
    {
      NextIs(c, order, d, m, p);
      NewRankAtLeast(c, order, d, m, p);
    }
    SweptFloor(order, ranks, Next(c, order, d), k, low);
  }

  /** After a full pass each page holds the new-rank formula applied to the
      midway ranks of its position. */
  lemma SweepResult(c: Corpus, order: seq<Page>, d: real, ranks: map<Page, real>, r: map<Page, real>)
    requires Enumerates(order, c.Keys) && ranks.Keys == c.Keys && |c| > 0
    requires r.Keys == c.Keys
    requires forall k {:trigger Midway(order, r, ranks, k)} | 0 <= k < |order| :: r[order[k]] == Next(c, order, d)(Midway(order, r, ranks, k), order[k])
    ensures forall k {:trigger Midway(order, r, ranks, k)} | 0 <= k < |order| :: r[order[k]] == NewRank(c, order, d, Midway(order, r, ranks, k), order[k])
  {
    forall k | 0 <= k < |order|
      ensures r[order[k]] == NewRank(c, order, d, Midway(order, r, ranks, k), order[k])
    {
      SweepResultAt(c, order, d, ranks, r, k);
    }
  }

  lemma SweepResultAt(c: Corpus, order: seq<Page>, d: real, ranks: map<Page, real>, r: map<Page, real>, k: nat)
    requires Enumerates(order, c.Keys) && ranks.Keys == c.Keys && |c| > 0
    requires r.Keys == c.Keys && k < |order|
    requires r[order[k]] == Next(c, order, d)(Midway(order, r, ranks, k), order[k])
    ensures r[order[k]] == NewRank(c, order, d, Midway(order, r, ranks, k), order[k])
  {
    NextIs(c, order, d, Midway(order, r, ranks, k), order[k]);
  }

  /** A bound on every listed entry is a bound on every entry. */
  lemma ListedBound(order: seq<Page>, r: map<Page, real>, low: real)
    requires Enumerates(order, r.Keys)
    requires forall j | 0 <= j < |order| :: r[order[j]] >= low
    ensures forall q | q in r :: r[q] >= low
  {
    forall q | q in r
      ensures r[q] >= low
    {
      var j :| 0 <= j < |order| && order[j] == q;
    }
  }

  /** `ranks` after `k` full in-place passes of the new-rank formula. */
  function Passes(c: Corpus, order: seq<Page>, d: real, ranks: map<Page, real>, k: nat): (r: map<Page, real>)
    requires Enumerates(order, c.Keys) && ranks.Keys == c.Keys && |c| > 0
    ensures r.Keys == c.Keys
  {
    if k == 0 then ranks
    else Swept(order, Passes(c, order, d, ranks, k - 1), Next(c, order, d), |order|)
  }

  /** The iterative estimator with its convergence loop cut to `sweeps`
      passes (the program repeats passes until every page carries a marker;
      just before a page is recomputed it is marked if the page recomputed
      before it changed by at most 0.001, and the pass that sets the last
      marker runs to its end): start at `1/N`, sweep `sweeps` times, then
      normalise.  The
      result is a distribution over the corpus that gives every page a
      positive rank. */
  method IteratePageRank(c: Corpus, order: seq<Page>, d: real, sweeps: nat) returns (r: map<Page, real>)
    requires Enumerates(order, c.Keys) && |c| > 0
    requires 0.0 <= d < 1.0
    requires sweeps >= 1
    ensures Sum(order, Passes(c, order, d, InitialRanks(c), sweeps)) > 0.0
    ensures r == Normalize(order, Passes(c, order, d, InitialRanks(c), sweeps))
    ensures r.Keys == c.Keys
    ensures forall q | q in r :: r[q] > 0.0
    ensures Sum(order, r) == 1.0
  {
    var ranks := Repeat(c, order, d, InitialRanks(c), sweeps);
    EnumerationLength(order, c.Keys);
    NormalizeAboveTeleport(order, ranks, d, |c|);
    r := Normalize(order, ranks);
  }

  /** Ranks at or above a positive teleport share normalise to positive
      ranks. */
  lemma NormalizeAboveTeleport(order: seq<Page>, ranks: map<Page, real>, d: real, n: nat)
    requires Enumerates(order, ranks.Keys) && |order| > 0
    requires n > 0 && d < 1.0
    requires forall q | q in ranks :: ranks[q] >= (1.0 - d) / n as real
    ensures Sum(order, ranks) > 0.0
    ensures forall q | q in Normalize(order, ranks) :: Normalize(order, ranks)[q] > 0.0
  {
    DivPositive(1.0 - d, n as real);
    NormalizePositive(order, ranks, (1.0 - d) / n as real);
  }

  /** `sweeps` passes, one after the other, from non-negative ranks: the
      result is `Passes` of the start ranks, and every page ends at least at
      the teleport share. */
  method Repeat(c: Corpus, order: seq<Page>, d: real, start: map<Page, real>, sweeps: nat) returns (r: map<Page, real>)
    requires Enumerates(order, c.Keys) && start.Keys == c.Keys && |c| > 0
    requires 0.0 <= d <= 1.0 && sweeps >= 1
    requires forall q | q in start :: start[q] >= 0.0
    ensures r == Passes(c, order, d, start, sweeps)
    ensures r.Keys == c.Keys
    ensures forall q | q in r :: r[q] >= (1.0 - d) / |c| as real
    decreases sweeps
  {
    var prev := start;
    if sweeps > 1 {
      prev := Repeat(c, order, d, start, sweeps - 1);
      AboveTeleport(prev, d, |c|);
    }
    r := Sweep(c, order, d, prev);
    PassesNext(c, order, d, start, sweeps - 1);
  }

  lemma AboveTeleport(r: map<Page, real>, d: real, n: nat)
    requires n > 0 && d <= 1.0
    requires forall q | q in r :: r[q] >= (1.0 - d) / n as real
    ensures forall q | q in r :: r[q] >= 0.0
  {
    ShareNonNegative(1.0 - d, n as real);
  }

  /** One more pass after `n` passes is `n + 1` passes. */
  lemma PassesNext(c: Corpus, order: seq<Page>, d: real, start: map<Page, real>, n: nat)
    requires Enumerates(order, c.Keys) && start.Keys == c.Keys && |c| > 0
    ensures Passes(c, order, d, Passes(c, order, d, start, n), 1) == Passes(c, order, d, start, n + 1)
  {
    var prev := Passes(c, order, d, start, n);
    assert Passes(c, order, d, prev, 0) == prev;
  }

  // ---------------------------------------------------------------------
  // Pages without links
  // ---------------------------------------------------------------------

  /** Every link leads to a page of the corpus. */
  predicate LinksInside(c: Corpus) {
    forall i | i in c :: c[i] <= c.Keys
  }

  /** A page without links is never listed by `LinkSources`, so the
      estimator's sum never reaches the corpus-size branch of `NumLinks`. */
  lemma StrandedNeverSource(c: Corpus, order: seq<Page>, i: Page, p: Page)
    requires Covers(order, c) && i in c && c[i] == {}
    ensures i !in LinkSources(c, order, p)
  {
  }

  /** The pages that pass rank to `p` once a page without links counts as
      linking to every page of the corpus, in corpus order. */
  function SpreadSources(c: Corpus, order: seq<Page>, p: Page): (s: seq<Page>)
    requires Covers(order, c)
    ensures forall k | 0 <= k < |s| :: s[k] in c && (p in c[s[k]] || |c[s[k]]| == 0)
  {
    if |order| == 0 then []
    else if p in c[order[0]] || |c[order[0]]| == 0 then [order[0]] + SpreadSources(c, order[1..], p)
    else SpreadSources(c, order[1..], p)
  }

  /** Where every page has links, the corrected sources are the link
      sources. */
  lemma {:induction false} SpreadSourcesAgree(c: Corpus, order: seq<Page>, p: Page)
    requires Covers(order, c)
    ensures (forall i | i in c :: |c[i]| != 0) ==> SpreadSources(c, order, p) == LinkSources(c, order, p)
  {
    if |order| > 0 {
      SpreadSourcesAgree(c, order[1..], p);
    }
  }

  /** The new-rank formula with corrected sources: a page without links
      passes `rank/N` to every page, through the corpus-size branch of
      `NumLinks`. */
  function IntendedRank(c: Corpus, order: seq<Page>, d: real, ranks: map<Page, real>, p: Page): real
    requires Covers(order, c) && ranks.Keys == c.Keys && |c| > 0
  {
    (1.0 - d) / |c| as real + d * Inflow(c, SpreadSources(c, order, p), ranks)
  }

  /** Where every page has links, the corrected formula is the program's. */
  lemma IntendedRankAgrees(c: Corpus, order: seq<Page>, d: real, ranks: map<Page, real>, p: Page)
    requires Covers(order, c) && ranks.Keys == c.Keys && |c| > 0
    requires forall i | i in c :: |c[i]| != 0
    ensures IntendedRank(c, order, d, ranks, p) == NewRank(c, order, d, ranks, p)
  {
    SpreadSourcesAgree(c, order, p);
  }

  /** Every page recomputed from the same ranks with the program's formula. */
  function Step(c: Corpus, order: seq<Page>, d: real, ranks: map<Page, real>): (r: map<Page, real>)
    requires Covers(order, c) && ranks.Keys == c.Keys && |c| > 0
    ensures r.Keys == c.Keys
  {
    map p | p in c :: NewRank(c, order, d, ranks, p)
  }

  /** Every page recomputed from the same ranks with the corrected formula. */
  function IntendedStep(c: Corpus, order: seq<Page>, d: real, ranks: map<Page, real>): (r: map<Page, real>)
    requires Covers(order, c) && ranks.Keys == c.Keys && |c| > 0
    ensures r.Keys == c.Keys
  {
    map p | p in c :: IntendedRank(c, order, d, ranks, p)
  }

  /** The rank held by the listed pages that have no links. */
  function Stranded(c: Corpus, order: seq<Page>, ranks: map<Page, real>): real
    requires Covers(order, c) && Covers(order, ranks)
  {
    if |order| == 0 then 0.0
    else (if |c[order[0]]| == 0 then ranks[order[0]] else 0.0) + Stranded(c, order[1..], ranks)
  }

  /** The rank the listed pages pass on in one step: that of the pages with
      links and, if `spread` holds, also that of the pages without. */
  function Kept(c: Corpus, order: seq<Page>, ranks: map<Page, real>, spread: bool): real
    requires Covers(order, c) && Covers(order, ranks)
  {
    if |order| == 0 then 0.0
    else (if |c[order[0]]| != 0 || spread then ranks[order[0]] else 0.0) + Kept(c, order[1..], ranks, spread)
  }

  /** Spreading keeps all the rank; otherwise the stranded rank is lost. */
  lemma {:induction false} KeptSplit(c: Corpus, order: seq<Page>, ranks: map<Page, real>)
    requires Covers(order, c) && Covers(order, ranks)
    ensures Kept(c, order, ranks, true) == Sum(order, ranks)
    ensures Kept(c, order, ranks, false) == Sum(order, ranks) - Stranded(c, order, ranks)
  {
    if |order| > 0 {
      KeptSplit(c, order[1..], ranks);
    }
  }

  /** The rank page `i` passes to page `p` in one step: `rank(i)/numLinks(i)`
      when `i` links to `p` and, if `spread` holds, also when `i` has no
      links at all. */
  function Weight(c: Corpus, ranks: map<Page, real>, spread: bool, i: Page, p: Page): real {
    if i in c && i in ranks && (p in c[i] || (spread && |c[i]| == 0)) then ranks[i] / NumLinks(c, i) as real
    else 0.0
  }

  /** What each page passes to `p`. */
  function Into(c: Corpus, ranks: map<Page, real>, spread: bool, p: Page): Page -> real {
    i => Weight(c, ranks, spread, i, p)
  }

  /** What `i` passes to each page. */
  function OutOf(c: Corpus, ranks: map<Page, real>, spread: bool, i: Page): Page -> real {
    p => Weight(c, ranks, spread, i, p)
  }

  /** The program's sum over the link sources is the sum of the weights
      over all pages. */
  lemma {:induction false} LinkInflowIsSum(c: Corpus, order: seq<Page>, ranks: map<Page, real>, p: Page)
    requires Covers(order, c) && ranks.Keys == c.Keys
    ensures Inflow(c, LinkSources(c, order, p), ranks) == SumOver(order, Into(c, ranks, false, p))
  {
    if |order| > 0 {
      LinkInflowIsSum(c, order[1..], ranks, p);
      var rest := LinkSources(c, order[1..], p);
      assert ([order[0]] + rest)[1..] == rest;
    }
  }

  /** The corrected sum over its sources is the sum of the spread weights
      over all pages. */
  lemma {:induction false} SpreadInflowIsSum(c: Corpus, order: seq<Page>, ranks: map<Page, real>, p: Page)
    requires Covers(order, c) && ranks.Keys == c.Keys
    ensures Inflow(c, SpreadSources(c, order, p), ranks) == SumOver(order, Into(c, ranks, true, p))
  {
    if |order| > 0 {
      SpreadInflowIsSum(c, order[1..], ranks, p);
      var rest := SpreadSources(c, order[1..], p);
      assert ([order[0]] + rest)[1..] == rest;
    }
  }

  /** What page `i` passes on in one step, summed over all pages: all of its
      rank, except that a page without links passes nothing unless `spread`
      holds. */
  lemma OutflowOf(c: Corpus, order: seq<Page>, ranks: map<Page, real>, spread: bool, i: Page)
    requires Enumerates(order, c.Keys) && ranks.Keys == c.Keys && LinksInside(c) && i in c
    ensures SumOver(order, OutOf(c, ranks, spread, i)) == if |c[i]| != 0 || spread then ranks[i] else 0.0
  {
    var passes := |c[i]| != 0 || spread;
    var s: set<Page> := if |c[i]| != 0 then c[i] else if spread then c.Keys else {};
    OutOfIsIndicator(c, order, ranks, spread, i, s);
    assert |s| == (if passes then NumLinks(c, i) else 0) by {
      if |c[i]| == 0 && spread {
        assert |c.Keys| == |c|;
      }
    }
    SumOverShares(order, OutOf(c, ranks, spread, i), s, NumLinks(c, i), ranks[i], passes);
  }

  /** What `i` passes to each listed page: its share on the pages of `s`,
      nothing elsewhere. */
  lemma OutOfIsIndicator(c: Corpus, order: seq<Page>, ranks: map<Page, real>, spread: bool, i: Page, s: set<Page>)
    requires ranks.Keys == c.Keys && i in c
    requires s == if |c[i]| != 0 then c[i] else if spread then c.Keys else {}
    requires forall k | 0 <= k < |order| :: order[k] in c
    ensures forall k | 0 <= k < |order| ::
      OutOf(c, ranks, spread, i)(order[k]) == if order[k] in s then ranks[i] / NumLinks(c, i) as real else 0.0
  {
  }

  /** Summing what each page passes on. */
  lemma {:induction false} KeptMass(c: Corpus, order: seq<Page>, ranks: map<Page, real>, spread: bool, f: Page -> real)
    requires Covers(order, c) && Covers(order, ranks)
    requires forall k | 0 <= k < |order| :: f(order[k]) == if |c[order[k]]| != 0 || spread then ranks[order[k]] else 0.0
    ensures SumOver(order, f) == Kept(c, order, ranks, spread)
  {
    if |order| > 0 {
      KeptMass(c, order[1..], ranks, spread, f);
    }
  }

  /** Over all pages, the rank flowing in during one step is the rank that
      flows out: all of it, less the stranded rank unless `spread` holds. */
  lemma TotalInflow(c: Corpus, order: seq<Page>, ranks: map<Page, real>, spread: bool, rows: Page -> real)
    requires Enumerates(order, c.Keys) && ranks.Keys == c.Keys && LinksInside(c)
    requires forall k | 0 <= k < |order| :: rows(order[k]) == SumOver(order, Into(c, ranks, spread, order[k]))
    ensures SumOver(order, rows) == Kept(c, order, ranks, spread)
  {
    var f: Page -> Page -> real := p => Into(c, ranks, spread, p);
    var g: Page -> Page -> real := i => OutOf(c, ranks, spread, i);
    var cols: Page -> real := i => SumOver(order, OutOf(c, ranks, spread, i));
    SumOverSwap(order, order, f, g, rows, cols);
    forall k | 0 <= k < |order|
      ensures cols(order[k]) == if |c[order[k]]| != 0 || spread then ranks[order[k]] else 0.0
    {
      OutflowOf(c, order, ranks, spread, order[k]);
    }
    KeptMass(c, order, ranks, spread, cols);
  }

  /** The new-rank formula as an even share plus `d` times the inflow. */
  lemma NewRankIsAffine(c: Corpus, order: seq<Page>, d: real, ranks: map<Page, real>, p: Page)
    requires Covers(order, c) && ranks.Keys == c.Keys && |c| > 0
    ensures NewRank(c, order, d, ranks, p) == Affine((1.0 - d) / |c| as real, d, Inflow(c, LinkSources(c, order, p), ranks))
  {
  }

  /** The corrected formula in the same shape. */
  lemma IntendedRankIsAffine(c: Corpus, order: seq<Page>, d: real, ranks: map<Page, real>, p: Page)
    requires Covers(order, c) && ranks.Keys == c.Keys && |c| > 0
    ensures IntendedRank(c, order, d, ranks, p) == Affine((1.0 - d) / |c| as real, d, Inflow(c, SpreadSources(c, order, p), ranks))
  {
  }

  /** One page of a step: the even share of `1 - d` plus `d` times what
      flows in along links. */
  lemma StepIsAffine(c: Corpus, order: seq<Page>, d: real, ranks: map<Page, real>, p: Page)
    requires Covers(order, c) && ranks.Keys == c.Keys && |c| > 0 && p in c
    ensures Step(c, order, d, ranks)[p] == Affine((1.0 - d) / |c| as real, d, Inflow(c, LinkSources(c, order, p), ranks))
  {
    NewRankIsAffine(c, order, d, ranks, p);
    assert Step(c, order, d, ranks)[p] == NewRank(c, order, d, ranks, p);
  }

  /** One page of a corrected step. */
  lemma IntendedStepIsAffine(c: Corpus, order: seq<Page>, d: real, ranks: map<Page, real>, p: Page)
    requires Covers(order, c) && ranks.Keys == c.Keys && |c| > 0 && p in c
    ensures IntendedStep(c, order, d, ranks)[p] == Affine((1.0 - d) / |c| as real, d, Inflow(c, SpreadSources(c, order, p), ranks))
  {
    IntendedRankIsAffine(c, order, d, ranks, p);
    assert IntendedStep(c, order, d, ranks)[p] == IntendedRank(c, order, d, ranks, p);
  }

  /** The same, with the inflow written as a sum over all pages. */
  lemma StepAt(c: Corpus, order: seq<Page>, d: real, ranks: map<Page, real>, p: Page)
    requires Covers(order, c) && ranks.Keys == c.Keys && |c| > 0 && p in c
    ensures Step(c, order, d, ranks)[p] == Affine((1.0 - d) / |c| as real, d, SumOver(order, Into(c, ranks, false, p)))
    ensures IntendedStep(c, order, d, ranks)[p] == Affine((1.0 - d) / |c| as real, d, SumOver(order, Into(c, ranks, true, p)))
  {
    StepIsAffine(c, order, d, ranks, p);
    IntendedStepIsAffine(c, order, d, ranks, p);
    LinkInflowIsSum(c, order, ranks, p);
    SpreadInflowIsSum(c, order, ranks, p);
  }

  /** Summing one step of the program's formula page by page, given what
      flows into each page. */
  lemma StepSum(c: Corpus, order: seq<Page>, d: real, ranks: map<Page, real>, rows: Page -> real, total: real)
    requires Covers(order, c) && |order| == |c| && ranks.Keys == c.Keys && |c| > 0
    requires forall k | 0 <= k < |order| :: rows(order[k]) == SumOver(order, Into(c, ranks, false, order[k]))
    requires SumOver(order, rows) == total
    ensures Sum(order, Step(c, order, d, ranks)) == Affine(1.0 - d, d, total)
  {
    var m := Step(c, order, d, ranks);
    forall k | 0 <= k < |order|
      ensures m[order[k]] == Affine((1.0 - d) / |c| as real, d, rows(order[k]))
    {
      StepAt(c, order, d, ranks, order[k]);
    }
    SumAffine(order, m, rows, |c|, 1.0 - d, d, total);
  }

  /** Summing one step of the corrected formula page by page. */
  lemma IntendedStepSum(c: Corpus, order: seq<Page>, d: real, ranks: map<Page, real>, rows: Page -> real, total: real)
    requires Covers(order, c) && |order| == |c| && ranks.Keys == c.Keys && |c| > 0
    requires forall k | 0 <= k < |order| :: rows(order[k]) == SumOver(order, Into(c, ranks, true, order[k]))
    requires SumOver(order, rows) == total
    ensures Sum(order, IntendedStep(c, order, d, ranks)) == Affine(1.0 - d, d, total)
  {
    var m := IntendedStep(c, order, d, ranks);
    forall k | 0 <= k < |order|
      ensures m[order[k]] == Affine((1.0 - d) / |c| as real, d, rows(order[k]))
    {
      StepAt(c, order, d, ranks, order[k]);
    }
    SumAffine(order, m, rows, |c|, 1.0 - d, d, total);
  }

  /** One step of the program's formula, every page computed from the same
      ranks, keeps `1 - d` plus `d` times the rank of the pages that have
      links: the rank of every page without links is lost. */
  lemma StepLosesStranded(c: Corpus, order: seq<Page>, d: real, ranks: map<Page, real>)
    requires Enumerates(order, c.Keys) && ranks.Keys == c.Keys && |c| > 0 && LinksInside(c)
    ensures Sum(order, Step(c, order, d, ranks)) == Affine(1.0 - d, d, Kept(c, order, ranks, false))
    ensures Kept(c, order, ranks, false) == Sum(order, ranks) - Stranded(c, order, ranks)
  {
    KeptSplit(c, order, ranks);
    assert Sum(order, Step(c, order, d, ranks)) == Affine(1.0 - d, d, Kept(c, order, ranks, false)) by {
      var rows: Page -> real := p => SumOver(order, Into(c, ranks, false, p));
      TotalInflow(c, order, ranks, false, rows);
      EnumerationLength(order, c.Keys);
      StepSum(c, order, d, ranks, rows, Kept(c, order, ranks, false));
    }
  }

  /** One step of the corrected formula keeps the total rank: `1 - d` plus
      `d` times the old total, so ranks summing to one still sum to one. */
  lemma IntendedStepConserves(c: Corpus, order: seq<Page>, d: real, ranks: map<Page, real>)
    requires Enumerates(order, c.Keys) && ranks.Keys == c.Keys && |c| > 0 && LinksInside(c)
    ensures Sum(order, IntendedStep(c, order, d, ranks)) == Affine(1.0 - d, d, Sum(order, ranks))
    ensures Sum(order, ranks) == 1.0 ==> Sum(order, IntendedStep(c, order, d, ranks)) == 1.0
  {
    assert Sum(order, IntendedStep(c, order, d, ranks)) == Affine(1.0 - d, d, Sum(order, ranks)) by {
      var rows: Page -> real := p => SumOver(order, Into(c, ranks, true, p));
      TotalInflow(c, order, ranks, true, rows);
      KeptSplit(c, order, ranks);
      EnumerationLength(order, c.Keys);
      IntendedStepSum(c, order, d, ranks, rows, Sum(order, ranks));
    }
  }

  /** Two pages: `a` links nowhere and `b` links to `a`. */
  function DeadEnd(): Corpus {
    map["a" := {}, "b" := {"a"}]
  }

  /** The links of `DeadEnd` as the estimator sees them. */
  lemma DeadEndShape()
    ensures Enumerates(["a", "b"], DeadEnd().Keys) && |DeadEnd()| == 2
    ensures LinkSources(DeadEnd(), ["a", "b"], "a") == ["b"]
    ensures LinkSources(DeadEnd(), ["a", "b"], "b") == []
    ensures NumLinks(DeadEnd(), "b") == 1
  {
    var c := DeadEnd();
    var order: seq<Page> := ["a", "b"];
    assert "a" != "b" by { assert "a"[0] != "b"[0]; }
    assert c.Keys == {"a", "b"};
    assert LinkSources(c, order[1..], "a") == ["b"];
    assert LinkSources(c, order[1..], "b") == [];
  }

  /** The first step of the pass: `a` receives all of `b`'s rank. */
  lemma DeadEndFirst(r: map<Page, real>)
    requires r.Keys == DeadEnd().Keys && r["b"] == 0.5
    ensures NewRank(DeadEnd(), ["a", "b"], 0.5, r, "a") == 0.5
  {
    DeadEndShape();
    assert Inflow(DeadEnd(), ["b"], r) == 0.5 by {
      assert ["b"][1..] == [];
    }
  }

  /** The second step: nothing flows into `b`. */
  lemma DeadEndSecond(r: map<Page, real>)
    requires r.Keys == DeadEnd().Keys
    ensures NewRank(DeadEnd(), ["a", "b"], 0.5, r, "b") == 0.25
  {
    DeadEndShape();
  }

  /** A page without links loses rank in the program's own pass: with `a`
      linking nowhere and `b` linking to `a`, one pass from the start
      values with `d = 1/2` leaves ranks summing to `3/4`. */
  lemma PassLosesMass()
    ensures Enumerates(["a", "b"], DeadEnd().Keys)
    ensures Sum(["a", "b"], Passes(DeadEnd(), ["a", "b"], 0.5, InitialRanks(DeadEnd()), 1)) == 0.75
  {
    var c := DeadEnd();
    var order: seq<Page> := ["a", "b"];
    DeadEndShape();
    var r0 := InitialRanks(c);
    PassStep(c, order, 0.5, r0, 0);
    PassStep(c, order, 0.5, r0, 1);
    var r1 := Swept(order, r0, Next(c, order, 0.5), 1);
    var r2 := Swept(order, r0, Next(c, order, 0.5), 2);
    DeadEndFirst(r0);
    DeadEndSecond(r1);
    assert r2["a"] == 0.5 && r2["b"] == 0.25;
    assert order[1..] == ["b"] && order[1..][1..] == [];
    assert Sum(order[1..], r2) == r2["b"] + Sum(order[1..][1..], r2);
    assert Sum(order, r2) == r2["a"] + Sum(order[1..], r2);
  }

  /** On the same corpus the corrected step keeps the whole rank: from the
      start values the corrected ranks still sum to one. */
  lemma DeadEndIntendedKeepsMass()
    ensures Enumerates(["a", "b"], DeadEnd().Keys) && |DeadEnd()| > 0
    ensures Sum(["a", "b"], IntendedStep(DeadEnd(), ["a", "b"], 0.5, InitialRanks(DeadEnd()))) == 1.0
  {
    var c := DeadEnd();
    var order: seq<Page> := ["a", "b"];
    DeadEndShape();
    assert LinksInside(c) by {
      assert c["a"] == {} && c["b"] == {"a"};
    }
    InitialRanksSum(c, order);
    IntendedStepConserves(c, order, 0.5, InitialRanks(c));
  }
}
