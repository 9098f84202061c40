/** Scoring of the question-answering program: inverse document
    frequencies over a set of tokenised documents, the term-frequency score
    of a file, the matching-word measure and query-term density of a
    sentence, and the rankings built from them.  Documents are already
    tokenised; a document collection is a map from name to word list,
    listed in the collection's iteration order. */
module Questions {
  import opened Outcomes
  import opened Sums
  import opened Ranking

  type Word = string
  type Documents = map<string, seq<Word>>

  // ---------------------------------------------------------------------
  // Inverse document frequencies
  // ---------------------------------------------------------------------

  /** Every word occurring in some document. */
  function Vocabulary(docs: Documents): set<Word> {
    set d, w | d in docs && w in docs[d] :: w
  }

  /** The documents that contain `w`. */
  function Containing(docs: Documents, w: Word): set<string> {
    set d | d in docs && w in docs[d]
  }

  /** Number of listed documents containing `w`: the program's inner
      counting loop. */
  function DocsWith(docs: Documents, order: seq<string>, w: Word): nat
    requires Covers(order, docs)
  {
    if |order| == 0 then 0
    else (if w in docs[order[0]] then 1 else 0) + DocsWith(docs, order[1..], w)
  }

  /** The counting loop counts the listed documents that contain `w`. */
  lemma {:induction false} DocsWithIsCountIn(docs: Documents, order: seq<string>, w: Word)
    requires Covers(order, docs)
    ensures DocsWith(docs, order, w) == CountIn(order, Containing(docs, w))
  {
    if |order| > 0 {
      DocsWithIsCountIn(docs, order[1..], w);
    }
  }

  /** Over an enumeration of the collection the loop counts exactly the
      documents containing `w`. */
  lemma DocsWithCount(docs: Documents, order: seq<string>, w: Word)
    requires Enumerates(order, docs.Keys)
    ensures DocsWith(docs, order, w) == |Containing(docs, w)|
  {
    DocsWithIsCountIn(docs, order, w);
    CountInAll(order, Containing(docs, w));
  }

  /** A word of the vocabulary occurs in at least one and at most all of
      the listed documents. */
  lemma {:induction false} DocsWithBounds(docs: Documents, order: seq<string>, w: Word)
    requires Enumerates(order, docs.Keys) && w in Vocabulary(docs)
    ensures 1 <= DocsWith(docs, order, w) <= |docs|
  {
    DocsWithCount(docs, order, w);
    var d :| d in docs && w in docs[d];
    assert d in Containing(docs, w);
    assert Containing(docs, w) <= docs.Keys;
    SubsetSize(Containing(docs, w), docs.Keys);
  }

  lemma SubsetSize<T>(a: set<T>, b: set<T>)
    requires a <= b
    ensures |a| <= |b|
  {
    assert b == a + (b - a);
  }

  /** The frequency ratio of one vocabulary word. */
  function Idf(docs: Documents, order: seq<string>, w: Word): (r: real)
    requires Enumerates(order, docs.Keys) && w in Vocabulary(docs)
    ensures 0.0 < r <= 1.0
  {
    DocsWithBounds(docs, order, w);
    UnitRatio(DocsWith(docs, order, w), |docs|);
    DocsWith(docs, order, w) as real / |docs| as real
  }

  lemma UnitRatio(c: nat, n: nat)
    requires 1 <= c <= n
    ensures 0.0 < c as real / n as real <= 1.0
  {
    assert c as real / n as real <= n as real / n as real;
  }

  /** The inverse document frequencies as the program computes them: for
      every word of the vocabulary, the share of documents containing it
      (a plain ratio, with no logarithm). */
  function ComputeIdfs(docs: Documents, order: seq<string>): (r: map<Word, real>)
    requires Enumerates(order, docs.Keys)
    ensures forall w :: w in r <==> exists d | d in docs :: w in docs[d]
    ensures forall w | w in r :: 0.0 < r[w] <= 1.0
  {
    map w | w in Vocabulary(docs) :: Idf(docs, order, w)
  }

  /** Each frequency is the number of documents containing the word over
      the number of documents. */
  lemma IdfValue(docs: Documents, order: seq<string>, w: Word)
    requires Enumerates(order, docs.Keys) && w in ComputeIdfs(docs, order)
    ensures |docs| as real * ComputeIdfs(docs, order)[w] == |Containing(docs, w)| as real
  {
    assert ComputeIdfs(docs, order)[w] == Idf(docs, order, w);
    IdfTimesSize(docs, order, w);
  }

  lemma IdfTimesSize(docs: Documents, order: seq<string>, w: Word)
    requires Enumerates(order, docs.Keys) && w in Vocabulary(docs)
    ensures |docs| as real * Idf(docs, order, w) == |Containing(docs, w)| as real
  {
    var c := DocsWith(docs, order, w);
    var n := |docs|;
    DocsWithBounds(docs, order, w);
    assert Idf(docs, order, w) == c as real / n as real;
    ScaleBack(n as real, c as real, Idf(docs, order, w));
    DocsWithCount(docs, order, w);
  }

  lemma ScaleBack(n: real, c: real, x: real)
    requires n != 0.0 && x == c / n
    ensures n * x == c
  {
  }

  // ---------------------------------------------------------------------
  // File scores
  // ---------------------------------------------------------------------

  /** Number of occurrences of `w` in `words` (`list.count`). */
  function Occurrences(words: seq<Word>, w: Word): (n: nat)
    ensures n <= |words|
    ensures n == 0 <==> w !in words
  {
    if |words| == 0 then 0
    else (if words[0] == w then 1 else 0) + Occurrences(words[1..], w)
  }

  /** Term-frequency score of a file: the sum over the query words of
      occurrences times frequency.  Looking up a query word without a
      frequency fails, whether or not the file contains it. */
  function FileScore(query: seq<Word>, words: seq<Word>, idfs: map<Word, real>): (r: Option<real>)
    ensures r.Some? <==> forall i | 0 <= i < |query| :: query[i] in idfs
  {
    if |query| == 0 then Some(0.0)
    else if query[0] !in idfs then None
    else
      match FileScore(query[1..], words, idfs)
      case None => None
      case Some(v) => Some(Occurrences(words, query[0]) as real * idfs[query[0]] + v)
  }

  /** With non-negative frequencies a score is non-negative, and it is zero
      for a file that contains no query word. */
  lemma {:induction false} FileScoreRange(query: seq<Word>, words: seq<Word>, idfs: map<Word, real>)
    requires FileScore(query, words, idfs).Some?
    requires forall w | w in idfs :: idfs[w] >= 0.0
    ensures FileScore(query, words, idfs).value >= 0.0
    ensures (forall i | 0 <= i < |query| :: query[i] !in words) ==> FileScore(query, words, idfs).value == 0.0
  {
    if |query| > 0 {
      FileScoreRange(query[1..], words, idfs);
      NonNegativeTimes(Occurrences(words, query[0]) as real, idfs[query[0]]);
    }
  }

  lemma NonNegativeTimes(x: real, y: real)
    requires x >= 0.0 && y >= 0.0
    ensures x * y >= 0.0
  {
  }

  /** Every listed file with its score, or a failure when some score
      fails. */
  function FileEntries(query: seq<Word>, files: Documents, order: seq<string>, idfs: map<Word, real>): (r: Option<seq<Scored<string>>>)
    requires Covers(order, files)
    ensures r.Some? <==> |order| == 0 || forall i | 0 <= i < |query| :: query[i] in idfs
    ensures r.Some? ==> |r.value| == |order|
    ensures r.Some? ==> forall k | 0 <= k < |order| ::
      r.value[k].item == order[k] && FileScore(query, files[order[k]], idfs).Some?
      && r.value[k].key == Key(FileScore(query, files[order[k]], idfs).value, 0.0)
  {
    if |order| == 0 then Some([])
    else
      match FileScore(query, files[order[0]], idfs)
      case None => None
      case Some(v) =>
        var rest := FileEntries(query, files, order[1..], idfs);
        assert rest.Some?;
        Some([Scored(order[0], Key(v, 0.0))] + rest.value)
  }

  /** The names of the `n` best-scoring files, ranked by score, with ties in
      collection order. */
  function TopFiles(query: seq<Word>, files: Documents, order: seq<string>, idfs: map<Word, real>, n: nat): (r: Option<seq<string>>)
    requires Enumerates(order, files.Keys)
    ensures r.Some? <==> |files| == 0 || forall i | 0 <= i < |query| :: query[i] in idfs
    ensures r.Some? ==> |r.value| == if n < |files| then n else |files|
    ensures r.Some? ==> NoDups(r.value)
    ensures r.Some? ==> forall i | 0 <= i < |r.value| :: r.value[i] in files
  {
    match FileEntries(query, files, order, idfs)
    case None => None
    case Some(entries) =>
      TopNames(entries, order, files.Keys, n);
      Some(Items(Top(entries, n)))
  }

  /** The names of the top `n` entries of a listing of a whole collection:
      `n` of them (all when there are fewer), distinct, each in the
      collection. */
  lemma TopNames(entries: seq<Scored<string>>, order: seq<string>, names: set<string>, n: nat)
    requires Enumerates(order, names)
    requires |entries| == |order| && forall k | 0 <= k < |order| :: entries[k].item == order[k]
    ensures var r := Items(Top(entries, n));
      && |r| == (if n < |names| then n else |names|)
      && NoDups(r)
      && forall i | 0 <= i < |r| :: r[i] in names
  {
    EnumerationLength(order, names);
    assert DistinctItems(entries);
    var top := Top(entries, n);
    forall i | 0 <= i < |top|
      ensures top[i].item in names
    {
      var k := TopEntry(entries, n, i);
    }
  }

  /** The top entry at position `i` carries its file's score. */
  lemma TopFileScore(query: seq<Word>, files: Documents, order: seq<string>, idfs: map<Word, real>, n: nat, i: nat)
    requires Enumerates(order, files.Keys)
    requires FileEntries(query, files, order, idfs).Some?
    requires i < |Top(FileEntries(query, files, order, idfs).value, n)|
    ensures var t := Top(FileEntries(query, files, order, idfs).value, n)[i];
      t.item in files && FileScore(query, files[t.item], idfs).Some?
      && t.key == Key(FileScore(query, files[t.item], idfs).value, 0.0)
  {
    var k := TopEntry(FileEntries(query, files, order, idfs).value, n, i);
  }

  /** The ranked files come in non-increasing score order, and a file left
      out scores no higher than any file returned. */
  lemma TopFilesRanked(query: seq<Word>, files: Documents, order: seq<string>, idfs: map<Word, real>, n: nat)
    requires Enumerates(order, files.Keys)
    requires TopFiles(query, files, order, idfs, n).Some?
    ensures var r := TopFiles(query, files, order, idfs, n).value;
      forall i, j | 0 <= i < j < |r| ::
        FileScore(query, files[r[i]], idfs).value >= FileScore(query, files[r[j]], idfs).value
    ensures var r := TopFiles(query, files, order, idfs, n).value;
      forall f, i | f in files && f !in r && 0 <= i < |r| ::
        FileScore(query, files[r[i]], idfs).value >= FileScore(query, files[f], idfs).value
  {
    var entries := FileEntries(query, files, order, idfs).value;
    var top := Top(entries, n);
    var r := Items(top);
    assert TopFiles(query, files, order, idfs, n) == Some(r);
    forall i, j | 0 <= i < j < |r|
      ensures FileScore(query, files[r[i]], idfs).value >= FileScore(query, files[r[j]], idfs).value
    {
      TopFileScore(query, files, order, idfs, n, i);
      TopFileScore(query, files, order, idfs, n, j);
    }
    forall f, i | f in files && f !in r && 0 <= i < |r|
      ensures FileScore(query, files[r[i]], idfs).value >= FileScore(query, files[f], idfs).value
    {
      var k :| 0 <= k < |order| && order[k] == f;
      LeftOut(entries, n, entries[k]);
      TopFileScore(query, files, order, idfs, n, i);
      TopIsBest(entries, n, entries[k], top[i]);
    }
  }

  // ---------------------------------------------------------------------
  // Sentence scores
  // ---------------------------------------------------------------------

  /** Matching-word measure: the sum of the frequencies of the query words
      present in the sentence.  Looking up a present word without a
      frequency fails; absent words are not looked up. */
  function MatchWeight(query: seq<Word>, words: seq<Word>, idfs: map<Word, real>): (r: Option<real>)
    ensures r.Some? <==> forall i | 0 <= i < |query| :: query[i] in words ==> query[i] in idfs
  {
    if |query| == 0 then Some(0.0)
    else if query[0] in words && query[0] !in idfs then None
    else
      match MatchWeight(query[1..], words, idfs)
      case None => None
      case Some(v) => Some((if query[0] in words then idfs[query[0]] else 0.0) + v)
  }

  /** With non-negative frequencies the measure is non-negative, and it is
      zero for a sentence containing no query word. */
  lemma {:induction false} MatchWeightRange(query: seq<Word>, words: seq<Word>, idfs: map<Word, real>)
    requires MatchWeight(query, words, idfs).Some?
    requires forall w | w in idfs :: idfs[w] >= 0.0
    ensures MatchWeight(query, words, idfs).value >= 0.0
    ensures (forall i | 0 <= i < |query| :: query[i] !in words) ==> MatchWeight(query, words, idfs).value == 0.0
  {
    if |query| > 0 {
      MatchWeightRange(query[1..], words, idfs);
    }
  }

  /** Query-term density: for each query word present in the sentence, its
      occurrences over the sentence length, summed. */
  function Density(query: seq<Word>, words: seq<Word>): (r: real)
    ensures r >= 0.0
    ensures (forall i | 0 <= i < |query| :: query[i] !in words) ==> r == 0.0
  {
    if |query| == 0 then 0.0
    else
      var here := if query[0] in words then Occurrences(words, query[0]) as real / |words| as real else 0.0;
      here + Density(query[1..], words)
  }

  /** Occurrences of all query words together. */
  function MatchCount(query: seq<Word>, words: seq<Word>): nat {
    if |query| == 0 then 0 else Occurrences(words, query[0]) + MatchCount(query[1..], words)
  }

  /** The density is the number of sentence positions holding a query word
      over the sentence length. */
  lemma {:induction false} DensityIsRatio(query: seq<Word>, words: seq<Word>)
    requires |words| > 0
    ensures Density(query, words) == MatchCount(query, words) as real / |words| as real
  {
    if |query| > 0 {
      DensityIsRatio(query[1..], words);
      AddRatios(Occurrences(words, query[0]) as real, MatchCount(query[1..], words) as real, |words| as real);
    }
  }

  lemma AddRatios(a: real, b: real, n: real)
    requires n != 0.0
    ensures a / n + b / n == (a + b) / n
  {
  }

  /** Distinct query words together occur at most once per position. */
  lemma {:induction false} MatchCountBound(query: seq<Word>, words: seq<Word>)
    requires NoDups(query)
    ensures MatchCount(query, words) == CountIn(words, set w | w in query)
  {
    if |query| > 0 {
      var rest := query[1..];
      assert NoDups(rest);
      MatchCountBound(rest, words);
      assert query == [query[0]] + rest;
      assert (set w | w in query) == (set w | w in rest) + {query[0]};
      assert query[0] !in (set w | w in rest) by {
        forall k | 0 <= k < |rest|
          ensures rest[k] != query[0]
        {
          assert rest[k] == query[k + 1];
        }
      }
      CountInAdd(words, (set w | w in rest), query[0]);
      assert MatchCount(query, words) == Occurrences(words, query[0]) + MatchCount(rest, words);
    } else {
      assert (set w | w in query) == {};
      CountInNone(words);
    }
  }

  lemma {:induction false} CountInNone(words: seq<Word>)
    ensures CountIn(words, {}) == 0
  {
    if |words| > 0 {
      CountInNone(words[1..]);
    }
  }

  /** Adding a word to the counted set adds its occurrences. */
  lemma {:induction false} CountInAdd(words: seq<Word>, s: set<Word>, x: Word)
    requires x !in s
    ensures CountIn(words, s + {x}) == CountIn(words, s) + Occurrences(words, x)
  {
    if |words| > 0 {
      CountInAdd(words[1..], s, x);
    }
  }

  lemma {:induction false} CountInAtMost(words: seq<Word>, s: set<Word>)
    ensures CountIn(words, s) <= |words|
  {
    if |words| > 0 {
      CountInAtMost(words[1..], s);
    }
  }

  /** With distinct query words the density lies in `[0, 1]`. */
  lemma DensityRange(query: seq<Word>, words: seq<Word>)
    requires NoDups(query)
    ensures 0.0 <= Density(query, words) <= 1.0
  {
    if |words| > 0 {
      DensityIsRatio(query, words);
      MatchCountBound(query, words);
      CountInAtMost(words, (set w | w in query));
      RatioAtMostOne(MatchCount(query, words), |words|);
    }
  }

  lemma RatioAtMostOne(c: nat, n: nat)
    requires c <= n && n > 0
    ensures 0.0 <= c as real / n as real <= 1.0
  {
    assert c as real / n as real <= n as real / n as real;
  }

  /** A sentence's ranking key: matching-word measure first, density as the
      tie-breaker. */
  function SentenceKey(query: seq<Word>, words: seq<Word>, idfs: map<Word, real>): (r: Option<Key>)
    ensures r.Some? <==> MatchWeight(query, words, idfs).Some?
  {
    match MatchWeight(query, words, idfs)
    case None => None
    case Some(v) => Some(Key(v, Density(query, words)))
  }

  /** Every listed sentence with its key, or a failure when some key fails. */
  function SentenceEntries(query: seq<Word>, sentences: Documents, order: seq<string>, idfs: map<Word, real>): (r: Option<seq<Scored<string>>>)
    requires Covers(order, sentences)
    ensures r.Some? <==> forall k | 0 <= k < |order| :: SentenceKey(query, sentences[order[k]], idfs).Some?
    ensures r.Some? ==> |r.value| == |order|
    ensures r.Some? ==> forall k | 0 <= k < |order| ::
      r.value[k] == Scored(order[k], SentenceKey(query, sentences[order[k]], idfs).value)
  {
    if |order| == 0 then Some([])
    else
      var rest := SentenceEntries(query, sentences, order[1..], idfs);
      assert forall k | 1 <= k < |order| :: order[k] == order[1..][k - 1];
      match SentenceKey(query, sentences[order[0]], idfs)
      case None => None
      case Some(key) =>
        match rest
        case None => None
        case Some(es) => Some([Scored(order[0], key)] + es)
  }

  /** Over an enumeration, the entries exist exactly when every sentence
      has a key. */
  lemma SentenceKeysExist(query: seq<Word>, sentences: Documents, order: seq<string>, idfs: map<Word, real>)
    requires Enumerates(order, sentences.Keys)
    ensures SentenceEntries(query, sentences, order, idfs).Some? <==>
      forall s | s in sentences :: SentenceKey(query, sentences[s], idfs).Some?
  {
    if SentenceEntries(query, sentences, order, idfs).Some? {
      forall s | s in sentences
        ensures SentenceKey(query, sentences[s], idfs).Some?
      {
        var k :| 0 <= k < |order| && order[k] == s;
      }
    }
  }

  /** The top entry at position `i` carries its sentence's key. */
  lemma TopSentenceKey(query: seq<Word>, sentences: Documents, order: seq<string>, idfs: map<Word, real>, n: nat, i: nat)
    requires Enumerates(order, sentences.Keys)
    requires SentenceEntries(query, sentences, order, idfs).Some?
    requires i < |Top(SentenceEntries(query, sentences, order, idfs).value, n)|
    ensures var t := Top(SentenceEntries(query, sentences, order, idfs).value, n)[i];
      t.item in sentences && SentenceKey(query, sentences[t.item], idfs).Some?
      && t.key == SentenceKey(query, sentences[t.item], idfs).value
  {
    var k := TopEntry(SentenceEntries(query, sentences, order, idfs).value, n, i);
  }

  /** The `n` best sentences by (matching-word measure, density), compared
      lexicographically, with ties in collection order. */
  function TopSentences(query: seq<Word>, sentences: Documents, order: seq<string>, idfs: map<Word, real>, n: nat): (r: Option<seq<string>>)
    requires Enumerates(order, sentences.Keys)
    ensures r.Some? <==> forall s | s in sentences :: SentenceKey(query, sentences[s], idfs).Some?
    ensures r.Some? ==> |r.value| == if n < |sentences| then n else |sentences|
    ensures r.Some? ==> NoDups(r.value)
    ensures r.Some? ==> forall i | 0 <= i < |r.value| :: r.value[i] in sentences
  {
    SentenceKeysExist(query, sentences, order, idfs);
    match SentenceEntries(query, sentences, order, idfs)
    case None => None
    case Some(entries) =>
      TopNames(entries, order, sentences.Keys, n);
      Some(Items(Top(entries, n)))
  }

  /** The ranked sentences come in non-increasing key order, and a
      sentence left out ranks no higher than any sentence returned. */
  lemma TopSentencesRanked(query: seq<Word>, sentences: Documents, order: seq<string>, idfs: map<Word, real>, n: nat)
    requires Enumerates(order, sentences.Keys)
    requires TopSentences(query, sentences, order, idfs, n).Some?
    ensures var r := TopSentences(query, sentences, order, idfs, n).value;
      forall i, j | 0 <= i < j < |r| ::
        AtLeast(SentenceKey(query, sentences[r[i]], idfs).value, SentenceKey(query, sentences[r[j]], idfs).value)
    ensures var r := TopSentences(query, sentences, order, idfs, n).value;
      forall s, i | s in sentences && s !in r && 0 <= i < |r| ::
        AtLeast(SentenceKey(query, sentences[r[i]], idfs).value, SentenceKey(query, sentences[s], idfs).value)
  {
    SentenceKeysExist(query, sentences, order, idfs);
    var entries := SentenceEntries(query, sentences, order, idfs).value;
    var top := Top(entries, n);
    var r := Items(top);
    assert TopSentences(query, sentences, order, idfs, n) == Some(r);
    forall i, j | 0 <= i < j < |r|
      ensures AtLeast(SentenceKey(query, sentences[r[i]], idfs).value, SentenceKey(query, sentences[r[j]], idfs).value)
    {
      TopSentenceKey(query, sentences, order, idfs, n, i);
      TopSentenceKey(query, sentences, order, idfs, n, j);
    }
    forall s, i | s in sentences && s !in r && 0 <= i < |r|
      ensures AtLeast(SentenceKey(query, sentences[r[i]], idfs).value, SentenceKey(query, sentences[s], idfs).value)
    {
      var k :| 0 <= k < |order| && order[k] == s;
      LeftOut(entries, n, entries[k]);
      TopSentenceKey(query, sentences, order, idfs, n, i);
      TopIsBest(entries, n, entries[k], top[i]);
    }
  }
}
