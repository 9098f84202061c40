# CS50 AI exercises — a verified Dafny model

This project models the computational core of five exercises from a
solution set for an introductory AI course, and proves properties of it:

- **Tic-tac-toe** (`tictactoe.dfy`, module `TicTacToe`): the board, the
  player to move, the legal moves, the move function with its
  "Invalid Action" error, the winner scan, terminal test, utility, the
  minimax values and the move `minimax` picks.
- **PageRank** (`pagerank.dfy`, module `PageRank`): the link filtering of
  the crawler, the transition model, the link-source and out-degree
  helpers, and the iterative estimator. The estimator runs its in-place
  sweep, where a page sees the values earlier pages received in the same
  pass, and then normalises.
- **Heredity** (`heredity.dfy`, module `Heredity`): the gene and trait
  probability table, the probability of one person with and without
  parents, the joint probability of a family assignment, the running
  distributions (`update`) and their normalisation, and the power set.
- **Questions** (`questions.dfy`, module `Questions`, with the ranking
  helper `ranking.dfy`, module `Ranking`):
  - the inverse document frequencies;
  - the term-frequency file score and the top files;
  - the sentence score (matching-word measure, then query-term density)
    and the top sentences.
- **Shopping** (`shopping.dfy`, module `Shopping`): the month table, the
  0/1 encodings of the visitor type, weekend and revenue fields, and the
  sensitivity/specificity evaluation.

Shared pieces:
- `outcomes.dfy` (module `Outcomes`) holds `Option` and `Result`.
- `sums.dfy` (module `Sums`) holds the sum of a map's values over an
  enumeration of its keys, and normalisation.

Python dictionaries are modelled as a Dafny `map` together with a sequence
listing its keys in the dictionary's iteration order. The order matters in
two places:
- the in-place PageRank sweep;
- which of equally scored entries a stable sort keeps first.

Python floats are modelled as `real`, so every stated equality is exact.
A lookup that raises in Python (a missing key, a division by zero, an
illegal move) is an `Option.None` or a `Result.Err` in the model, except
where "## Left out" lists a precondition in its place.

The model follows the code as written, including:
- the early return of `winner` on a line of empty cells;
- the in-place sweep of `iterate_pagerank`;
- the one-copy formula at `heredity.py:225`;
- `compute_idfs` returning df/N, the share of documents that contain the
  word, rather than log(N/df), so the value grows with a word's frequency;
- the `'June'` key of `monthToNum`.

Where a quirk is a defect, the "## Findings" section proves it with a
concrete input. Next to each as-written definition, the corrected
definition is given and its intended property is proved.

Where the code and its own documentation disagree, the model follows the
code: `compute_idfs` returns df/N rather than log(N/df). Its value grows
with a word's frequency, so `top_files` favours files that contain common
query words.

## Model

| member | source | states |
|---|---|---|
| TicTacToe.InitialState | week0/tictactoe/tictactoe.py:14-20 | the starting board has all nine cells empty |
| TicTacToe.CountMatchesCells | week0/tictactoe/tictactoe.py:27-35 | the counting loops of `player` count exactly the coordinates that hold the mark |
| TicTacToe.Player | week0/tictactoe/tictactoe.py:23-40 | the player to move is never empty, and is O exactly when X holds more cells than O |
| TicTacToe.InitialPlayer | week0/tictactoe/tictactoe.py:14-40 | X moves first on the starting board |
| TicTacToe.ActionsOnBoard | week0/tictactoe/tictactoe.py:43-54 | `actions` holds a coordinate exactly when it lies on the board and its cell is empty |
| TicTacToe.InitialActions | week0/tictactoe/tictactoe.py:43-54 | the starting board offers all nine coordinates and no others |
| TicTacToe.ActionList | week0/tictactoe/tictactoe.py:43-54 | the row-major move list holds exactly the legal moves |
| TicTacToe.Result | week0/tictactoe/tictactoe.py:57-73 | fails with "Invalid Action" exactly for an illegal move; otherwise the moved cell gets the mover's mark and all other cells are unchanged |
| TicTacToe.ResultCells | week0/tictactoe/tictactoe.py:57-73 | after a legal move the legal moves are the old ones minus the move, the mover gains exactly that cell and the other mark's cells are unchanged |
| TicTacToe.Child | week0/tictactoe/tictactoe.py:57-73 | a legal move removes exactly one legal move |
| TicTacToe.ReachableBalanced | week0/tictactoe/tictactoe.py:23-73 | every board reached by legal moves from the start has as many X as O, or one more |
| TicTacToe.Run | week0/tictactoe/tictactoe.py:84-88 | the inner loop of the row scan counts the leading cells equal to the first: all of them match and the next one differs |
| TicTacToe.RowScan | week0/tictactoe/tictactoe.py:81-90 | a mark returned by the row scan fills a row |
| TicTacToe.ColumnScan | week0/tictactoe/tictactoe.py:93-102 | a mark returned by the column scan fills a column |
| TicTacToe.Winner | week0/tictactoe/tictactoe.py:76-110 | a reported winner fills one of the eight lines |
| TicTacToe.WinnerComplete | week0/tictactoe/tictactoe.py:76-110 | on a board with no row or column of empty cells, a filled line is always reported |
| TicTacToe.WinnerMissesLineAfterBlankRow | week0/tictactoe/tictactoe.py:81-90 | a board reached by five legal moves has X filling the middle row, yet the scan reports no winner and the game is not over |
| TicTacToe.WinnerIntended | week0/tictactoe/tictactoe.py:76-110 | the corrected scan, which skips lines of empty cells, reports only filled lines |
| TicTacToe.WinnerIntendedComplete | week0/tictactoe/tictactoe.py:76-110 | the corrected scan reports a winner whenever some line is filled by X or O |
| TicTacToe.Terminal | week0/tictactoe/tictactoe.py:113-120 | the game is over exactly when a winner is reported or no cell is empty |
| TicTacToe.Utility | week0/tictactoe/tictactoe.py:123-133 | 1 exactly when X wins, -1 exactly when O wins, 0 exactly when there is no winner |
| TicTacToe.Largest | week0/tictactoe/tictactoe.py:176-178 | the running maximum is one of the values and no value exceeds it |
| TicTacToe.Smallest | week0/tictactoe/tictactoe.py:186-188 | the running minimum is one of the values and no value is below it |
| TicTacToe.MaxValue | week0/tictactoe/tictactoe.py:172-179 | the value with X to move lies in [-1, 1] and is the utility on a finished board |
| TicTacToe.MinValue | week0/tictactoe/tictactoe.py:182-189 | the value with O to move lies in [-1, 1] and is the utility on a finished board |
| TicTacToe.MaxValueAttained | week0/tictactoe/tictactoe.py:172-179 | on an unfinished board some legal move reaches the value with X to move |
| TicTacToe.MaxValueIsBest | week0/tictactoe/tictactoe.py:172-179 | no legal move gives X more than the value |
| TicTacToe.MinValueAttained | week0/tictactoe/tictactoe.py:182-189 | on an unfinished board some legal move reaches the value with O to move |
| TicTacToe.MinValueIsBest | week0/tictactoe/tictactoe.py:182-189 | no legal move gives O less than the value |
| TicTacToe.FirstLargest | week0/tictactoe/tictactoe.py:152-159 | the strict-improvement loop picks the first position holding the largest value |
| TicTacToe.FirstSmallest | week0/tictactoe/tictactoe.py:161-167 | the strict-improvement loop picks the first position holding the smallest value |
| TicTacToe.Minimax | week0/tictactoe/tictactoe.py:136-169 | no move exactly on a finished board; the given cell on the empty board; otherwise a legal move whose successor has the game value for the player to move, and no move before it in row-major order reaches that value |
| PageRank.DropSelfLinks | week2/pagerank/pagerank.py:39 | every page keeps its entry, and a page links to q exactly when q was extracted from it and is not the page itself |
| PageRank.KeepCorpusLinks | week2/pagerank/pagerank.py:42-46 | every page keeps its entry, and a page links to q exactly when it linked to q before and q is a page of the corpus |
| PageRank.Crawl | week2/pagerank/pagerank.py:39-46 | the crawled corpus has the same pages, and a page links to q exactly when q was extracted from it, is another page and is in the corpus |
| PageRank.CrawlIdempotent | week2/pagerank/pagerank.py:39-46 | filtering an already clean corpus changes nothing |
| PageRank.UnnormalizedSum | week2/pagerank/pagerank.py:62-82 | before normalisation the weights sum to 1 for a page with links and to 1 - d for a page without |
| PageRank.TransitionModel | week2/pagerank/pagerank.py:51-87 | a distribution over the corpus: (1-d)/N for each page plus d/k for each of the k linked pages, or 1/N everywhere for a page without links |
| PageRank.TransitionEntries | week2/pagerank/pagerank.py:78-85 | dividing the weights by their sum gives those entries |
| PageRank.LinkSources | week2/pagerank/pagerank.py:189-198 | every listed source is a page of the corpus that links to p, and there are at most as many sources as pages |
| PageRank.LinkSourcesSpec | week2/pagerank/pagerank.py:189-198 | a page is listed as a source of p exactly when it links to p; every source is listed once |
| PageRank.NumLinks | week2/pagerank/pagerank.py:201-206 | the out-degree, or the corpus size for a page without links; always at least 1 |
| PageRank.InflowNonNegative | week2/pagerank/pagerank.py:167-169 | the summed inflow of non-negative ranks is non-negative |
| PageRank.NewRank | week2/pagerank/pagerank.py:167-173 | a page that no page links to gets exactly (1-d)/N, whatever the current ranks |
| PageRank.NewRankAtLeast | week2/pagerank/pagerank.py:167-173 | from non-negative ranks a recomputed rank is at least (1-d)/N |
| PageRank.InitialRanks | week2/pagerank/pagerank.py:145-147 | every page of the corpus, and nothing else, starts at 1/N |
| PageRank.InitialRanksSum | week2/pagerank/pagerank.py:145-147 | the start values 1/N sum to 1 |
| PageRank.Swept | week2/pagerank/pagerank.py:160-173 | a partial pass keeps the set of pages |
| PageRank.SweptUntouched | week2/pagerank/pagerank.py:160-173 | a page the pass has not reached yet still has its old rank |
| PageRank.MidwayIsSwept | week2/pagerank/pagerank.py:160-173 | the ranks a page sees at its turn are the new ranks for the pages before it and the old ranks for the rest |
| PageRank.Sweep | week2/pagerank/pagerank.py:160-173 | the result is one in-place pass over the pages in corpus order; each page holds the new-rank formula applied to the ranks at its turn, and every rank is at least (1-d)/N |
| PageRank.Repeat | week2/pagerank/pagerank.py:159-175 | the result is exactly `sweeps` in-place passes applied one after another to the start ranks; every page keeps an entry, at least (1-d)/N |
| PageRank.StrandedNeverSource | week2/pagerank/pagerank.py:189-206 | a page without links is never a link source, so the sum never takes the corpus-size branch of `numLinks` |
| PageRank.StepLosesStranded | week2/pagerank/pagerank.py:167-173 | recomputing every page from the same ranks gives a total of (1-d) + d times the rank of the pages with links; the rank of the pages without links is lost |
| PageRank.PassLosesMass | week2/pagerank/pagerank.py:145-173 | with `a` linking nowhere and `b` linking to `a`, one in-place pass from 1/2, 1/2 with d = 1/2 leaves ranks summing to 3/4 |
| PageRank.SpreadSources | week2/pagerank/pagerank.py:189-206 | every corrected source of p is a page that links to p or has no links |
| PageRank.IntendedRankAgrees | week2/pagerank/pagerank.py:167-173 | where every page has links, the corrected formula gives the program's new rank |
| PageRank.IntendedStepConserves | week2/pagerank/pagerank.py:167-173 | with a page without links counted as linking to every page, one step gives a total of (1-d) + d times the old total, so ranks summing to 1 still sum to 1 |
| PageRank.DeadEndIntendedKeepsMass | week2/pagerank/pagerank.py:145-173 | on the same two pages, one corrected step from 1/2, 1/2 with d = 1/2 gives ranks summing to 1 |
| PageRank.IteratePageRank | week2/pagerank/pagerank.py:134-186 | the estimate is the ranks after `sweeps` passes from 1/N, divided by their (positive) total; it covers the corpus, gives every page a positive rank and sums to 1 |
| Sums.Normalize | week2/pagerank/pagerank.py:177-184 | each value divided by the total; keeps the keys and sums to 1 |
| Heredity.GeneProb | week2/heredity/heredity.py:8-12 | each gene prior lies strictly between 0 and 1 |
| Heredity.TraitProb | week2/heredity/heredity.py:14-33 | each trait probability lies strictly between 0 and 1 |
| Heredity.TraitRows | week2/heredity/heredity.py:14-33 | each row of the trait table sums to 1 |
| Heredity.GeneCount | week2/heredity/heredity.py:155-160 | one copy exactly for members of `one_gene`; two copies exactly for members of `two_genes` outside `one_gene`; otherwise none |
| Heredity.NoParent | week2/heredity/heredity.py:193-195 | the probability of a person without parents lies in [0, 1] |
| Heredity.NoParentDistribution | week2/heredity/heredity.py:193-195 | the six gene/trait outcomes of a person without parents sum to 1 |
| Heredity.PassOn | week2/heredity/heredity.py:199-217 | a parent passes a copy with a probability strictly between 0 and 1 |
| Heredity.PassOnSymmetric | week2/heredity/heredity.py:199-217 | passing from two copies is the complement of passing from none; one copy passes half the time |
| Heredity.ChildGene | week2/heredity/heredity.py:219-228 | the child's probability of each gene count, as computed, lies in [0, 1] |
| Heredity.ChildGeneExcess | week2/heredity/heredity.py:225 | the computed one-copy probability exceeds "exactly one parent passes" by m·f·(1-m)·(1-f) |
| Heredity.ChildGeneOverCounts | week2/heredity/heredity.py:219-228 | for two one-copy parents the computed probabilities of 0, 1 and 2 copies sum to 17/16 |
| Heredity.ChildGeneIntended | week2/heredity/heredity.py:219-228 | the corrected probability of each gene count lies in [0, 1] |
| Heredity.ChildGeneIntendedDistribution | week2/heredity/heredity.py:219-228 | the corrected probabilities of 0, 1 and 2 copies sum to 1 for any pass-on probabilities |
| Heredity.WithParent | week2/heredity/heredity.py:198-233 | the probability of a person with parents lies in [0, 1] |
| Heredity.Factor | week2/heredity/heredity.py:168-183 | a person's factor exists exactly when the parents can be looked up, and then lies in [0, 1] |
| Heredity.Joint | week2/heredity/heredity.py:131-190 | the joint probability exists exactly when every person's parents can be looked up, and then lies in [0, 1] |
| Heredity.JointOfFounder | week2/heredity/heredity.py:131-195 | a family of one parentless person gets the gene prior times the trait probability |
| Heredity.Bump | week2/heredity/heredity.py:245-256 | exactly the assigned gene bucket and the assigned trait bucket grow by p |
| Heredity.Update | week2/heredity/heredity.py:236-256 | every person keeps an entry; the assigned gene and trait buckets grow by p and every other bucket keeps its value |
| Heredity.UpdateConserves | week2/heredity/heredity.py:236-256 | each update adds exactly p to a person's gene total and to the person's trait total |
| Heredity.NormalizeBelief | week2/heredity/heredity.py:264-279 | fails exactly on a zero total; otherwise each weight is divided by its total and both distributions sum to 1 |
| Heredity.NormalizeAll | week2/heredity/heredity.py:259-279 | succeeds exactly when every person normalises, and then normalises each person and keeps the people |
| Heredity.NormalizedDistributions | week2/heredity/heredity.py:259-279 | after normalising, both distributions sum to 1, and each gene weight and each trait weight times its old total gives the old weight back |
| Heredity.PowerList | week2/heredity/heredity.py:119-128 | the list starts with the empty set, and every listed set is a subset of the elements |
| Heredity.PowerListMembers | week2/heredity/heredity.py:119-128 | a set is listed exactly when it is a subset of the elements |
| Heredity.PowerListSize | week2/heredity/heredity.py:119-128 | n elements give 2^n listed subsets |
| Questions.DocsWithCount | week6/questions/questions.py:103-108 | the counting loop counts exactly the documents that contain the word |
| Questions.DocsWithBounds | week6/questions/questions.py:94-109 | a word of the vocabulary is in at least one and at most all documents |
| Questions.ComputeIdfs | week6/questions/questions.py:80-111 | a word has a value exactly when some document contains it, and each value lies in (0, 1] |
| Questions.IdfValue | week6/questions/questions.py:102-109 | each value times the number of documents is the number of documents containing the word |
| Questions.Occurrences | week6/questions/questions.py:126 | the count is at most the length and is 0 exactly when the word is absent |
| Questions.FileScore | week6/questions/questions.py:123-126 | the score exists exactly when every query word has a frequency |
| Questions.FileScoreRange | week6/questions/questions.py:123-126 | with non-negative frequencies a score is non-negative, and it is 0 for a file without query words |
| Questions.FileEntries | week6/questions/questions.py:121-126 | every listed file appears once, in order, with its score |
| Questions.TopFiles | week6/questions/questions.py:114-131 | fails exactly when there are files and some query word lacks a frequency; otherwise exactly min(n, number of files) names, all distinct and all of them files |
| Questions.TopFilesRanked | week6/questions/questions.py:129-131 | the files come in non-increasing score order, and a file left out scores no higher than any file returned |
| Questions.MatchWeight | week6/questions/questions.py:147-150 | the measure exists exactly when every query word present in the sentence has a frequency |
| Questions.MatchWeightRange | week6/questions/questions.py:147-150 | with non-negative frequencies the measure is non-negative, and it is 0 for a sentence without query words |
| Questions.Density | week6/questions/questions.py:147-153 | the density is non-negative, and it is 0 for a sentence holding no query word |
| Questions.DensityIsRatio | week6/questions/questions.py:147-153 | the density is the number of words that are query words over the sentence length |
| Questions.DensityRange | week6/questions/questions.py:147-153 | for a query of distinct words the density lies in [0, 1] |
| Questions.SentenceKey | week6/questions/questions.py:144-155 | a sentence's key exists exactly when its matching-word measure does |
| Questions.SentenceEntries | week6/questions/questions.py:142-155 | every listed sentence appears once, in order, with its key |
| Questions.TopSentences | week6/questions/questions.py:134-159 | fails exactly when some sentence has no key; otherwise exactly min(n, number of sentences) sentences, all distinct and all of them given |
| Questions.TopSentencesRanked | week6/questions/questions.py:157-159 | the sentences come in non-increasing (measure, density) order, and a sentence left out ranks no higher than any returned |
| Ranking.SortDescending | week6/questions/questions.py:129 | the sorted list is in non-increasing key order and is a permutation of the input |
| Ranking.Top | week6/questions/questions.py:129 | min(n, length) entries in non-increasing order, each taken from the input no more often than it occurs there; entries with distinct items keep distinct items |
| Ranking.TopIsBest | week6/questions/questions.py:157 | an entry left out ranks no higher than any entry kept |
| Shopping.MonthToNum | week4/shopping/shopping.py:172-186 | a name has an index exactly when it is one of the twelve table keys; the index is below 12 and the key at that index is the name |
| Shopping.MonthRoundTrip | week4/shopping/shopping.py:172-186 | the k-th key maps to k, and two names with the same index are equal |
| Shopping.JuneKey | week4/shopping/shopping.py:179 | "June" maps to 5 and "Jun" is a lookup failure |
| Shopping.EncodeRow | week4/shopping/shopping.py:102-118 | the visitor type is 1 exactly for "Returning_Visitor"; the weekend feature and the revenue label are each 1 exactly for "TRUE"; every other field gives 0 |
| Shopping.EncodingIsExact | week4/shopping/shopping.py:102-118 | "True", "true", "FALSE", "New_Visitor" and "Other" all encode as 0 |
| Shopping.CountsAreSizes | week4/shopping/shopping.py:154-164 | the counters count exactly the positions with the label, and the positions with the label and a matching prediction |
| Shopping.MatchedBounds | week4/shopping/shopping.py:154-164 | matches never exceed the labels they are drawn from, and equal them when the predictions are the labels |
| Shopping.Evaluate | week4/shopping/shopping.py:133-169 | fails exactly when there is no positive or no negative label; otherwise sensitivity and specificity are matched over labelled positions, each in [0, 1] |
| Shopping.PerfectPredictions | week4/shopping/shopping.py:154-169 | predictions equal to the labels give sensitivity 1 and specificity 1 |

## Left out

- Every `main` function: argument handling, prompting and printing.
- File and directory input: the directory listing and the link regex of the crawler, the CSV readers, and loading documents from files. These become already-parsed parameters.
- `sample_pagerank`: it is driven by random choices and has no exact result.
- `tokenize`: it depends on a natural-language tokenizer and stopword lists.
- `train_model` and the traffic exercise: they call machine-learning libraries.
- The knights puzzle: it is not part of this model.
- TicTacToe.Minimax: the random first move on the empty board is the parameter `pick`. Python iterates a set of moves in an unspecified order; the model uses row-major order.
- PageRank.IteratePageRank: the convergence loop is replaced by a given number of passes (at least one). The program repeats passes until every page carries a marker. Just before a page is recomputed, it is marked if the page recomputed before it changed by at most 0.001. The pass that sets the last marker runs to its end. Damping 1 is excluded, because the positivity of the result needs (1-d)/N > 0. A damping below 0, which the program accepts without raising, is excluded too; the program's only damping is the constant 0.85. An empty corpus is excluded: there the program's pass visits no page, so no marker is set and the loop never ends.
- PageRank.TransitionModel: a page without links under damping 1 makes the program divide by zero; the model requires that case away. It requires the page to be a corpus page, because `corpus[page]` raises a KeyError otherwise (`pagerank.py:72`); every caller passes a corpus page. It requires a damping between 0 and 1, although the program accepts any other value without raising and then yields negative probabilities; the program's only damping is the constant 0.85. It also requires that links stay inside the corpus, which the crawler guarantees.
- PageRank.NumLinks: it requires a corpus page, because `corpus[i]` raises a KeyError otherwise (`pagerank.py:203`); its only caller passes link sources, which are corpus pages.
- PageRank.Sweep: it requires a damping between 0 and 1 and non-negative ranks, which keep every rank it computes non-negative; the program accepts other values without raising.
- Ranking.SortDescending: only ordering and permutation are stated. That equally scored entries keep their list order, as Python's stable sort guarantees, is not stated.
- Heredity.PowerList: only its members, its length and its first entry (the empty set) are stated. The rest of the listing order differs from the order of `itertools.combinations`.
- Questions.DensityRange: it needs a query of distinct words. The program passes a set, which the model lists as a sequence.
- Shopping.Evaluate: it requires at least as many predictions as labels. The program's caller passes equally long lists; a shorter list raises an index error in Python.
- Floating-point rounding: all arithmetic is exact over the reals.

## Findings

| source | as written | input that shows it | evidently intended | confidence | as-written member | corrected member |
|---|---|---|---|---|---|---|
| week0/tictactoe/tictactoe.py:81-90 | the row scan returns at the first row whose three cells are all empty, reporting "no winner" before later rows and the columns are checked | moves (1,0), (2,0), (1,1), (2,1), (1,2): the top row is empty and X fills the middle row, yet `winner` is None and `terminal` is False | skip lines of empty cells and keep scanning | not executed | TicTacToe.WinnerMissesLineAfterBlankRow | TicTacToe.WinnerIntendedComplete |
| week2/pagerank/pagerank.py:167-169 | the sum runs over `link_sources`, which lists only pages that link to p, so a page without links passes on nothing and the corpus-size branch of `numLinks` (lines 201-206) is never taken | pages `a` without links and `b` linking to `a`, d = 1/2, one pass from 1/2, 1/2: the ranks sum to 3/4 | a page without links passes rank/N to every page, as the corpus-size branch of `numLinks` and the transition model (lines 67-85) both treat it | not executed | PageRank.PassLosesMass | PageRank.IntendedStepConserves |
| week2/heredity/heredity.py:225 | the one-copy probability is (m + f - m·f)·(1 - m·f) | two one-copy parents (m = f = 1/2): the child's probabilities of 0, 1 and 2 copies sum to 17/16 | m·(1 - f) + f·(1 - m), exactly one parent passes a copy | not executed | Heredity.ChildGeneOverCounts | Heredity.ChildGeneIntendedDistribution |

In every case the main model keeps the code as written. The corrected
definitions (`TicTacToe.WinnerIntended`, `PageRank.IntendedRank`,
`Heredity.ChildGeneIntended`) stand beside it with their intended property
proved. For PageRank the loss is also stated for every corpus
(`PageRank.StepLosesStranded`); the program's final normalisation restores
a total of one, but a page without links still passes nothing to other
pages (`PageRank.StrandedNeverSource`).
