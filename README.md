# CS50 AI projects: a verified model

This project models, in Dafny, the core of four small AI programs from a
CS50 "Introduction to Artificial Intelligence" solution repository, and
proves what each of them promises.

- **Tic-tac-toe** (`tictactoe.dfy`). Boards are 3x3 grids of squares that are
  empty or hold X or O. The model covers the initial board, whose turn it is,
  the winner, whether the game is over, and the value of a finished board.
  `Winner` follows the program's scan order: rows, then columns, then the two
  diagonals. It is proved equivalent to a reference definition, "some line
  is owned by a mark".
- **Minesweeper** (`minesweeper.dfy`), modelled imperatively, as the program
  is written:
  - The game board is a class. The constructor builds the grid and places
    the given mines. `NearbyMines` is a double loop over the 3x3
    neighbourhood, proved to count exactly the mines adjacent to the cell.
  - `Sentence` is a class whose cells and count change in place.
  - `MinesweeperAI` is a class holding its move, mine and safe sets and a
    list of `Sentence` objects. Its methods keep that list free of
    aliasing: no sentence object appears twice in it.
  - The knowledge-cleaning pass is proved against a reference function. The
    pass removes empty sentences and stops, reporting an error, at the first
    sentence whose count is larger than its cell set.
- **Heredity** (`heredity.dfy`):
  - `Powerset` builds the subsets layer by layer, as `itertools.combinations`
    does. It is proved to list every subset exactly once, by increasing size.
  - Also modelled: classifying each person's gene count and trait, the
    probability that a parent passes the gene on, and the evidence filter.
  - The probability table is a class. `Update` credits a joint probability to
    one gene bucket and one trait bucket per person. `Normalize` divides
    every distribution by its sum. Its results are proved to sum to one, to
    keep the ratios between entries and to lie in [0, 1].
- **PageRank** (`pagerank.dfy`):
  - The transition model of the random surfer is proved to be a probability
    distribution: it sums to one and every entry lies in [0, 1].
    `ThreePageExample` proves the values for a three-page corpus.
  - The sampling estimator counts one visit per step. Its counters are proved
    to add up to the number of samples. Each rank is proved to be a page's
    visit count divided by the number of samples. The ranks are proved to
    sum to one and to lie in [0, 1].
  - The crawler's link filtering is proved to drop self-links and links that
    leave the corpus.

Shared `Option` and `Result` datatypes live in `wrappers.dfy`.

Python's floats are modelled as Dafny `real`s, so the sums-to-one results are
exact statements about the real-number computation.

## Definitions

Some functions and predicates transcribe a piece of the program and serve as
the terms in which the contracts below are stated. Their properties are proved
by the members named after them, which have rows in the table.

- `Heredity.Choose` is `itertools.combinations` at
  `heredity.py` lines 101-103, with each combination collected into a set.
  ChooseLength, ChooseSubsets, ChooseComplete and ChooseNoRepeats state what
  it lists.
- `Heredity.Powerset` is `powerset` (`heredity.py` lines 94-104).
  PowersetLength, PowersetExactlyOnce, LayersSorted and PowersetOfTwo state
  what it lists.
- `Heredity.FailsEvidence` is the `any(...)` test at `heredity.py` lines
  39-45. EvidenceFilter characterises it in both directions.
- `Heredity.Credit` is one person's step of `update` (`heredity.py` lines
  206-215). CreditOneBucket states which entries grow, and
  Heredity.Probabilities.Update applies it to every person.
- `Heredity.Normalized` is one person's step of `normalize` (`heredity.py`
  lines 223-236). NormalizedSumsToOne, NormalizedIsShare, the two
  ratio lemmas and NormalizedIsProbability state its properties, and
  Heredity.Probabilities.Normalize applies it to every person.
- `Minesweeper.Sentence.Equals` is `Sentence.__eq__` (`minesweeper.py` lines
  98-99). It is the equality that `in` and `list.remove` use in
  AddSentenceToKnowledge and in the cleaning pass (`RemoveFirstEqual`).
- `PageRank.Links` and `PageRank.TransitionProbability` are the link set and
  the per-page formula of `transition_model` (`pagerank.py` lines 59-76).
  TransitionModel is proved equal to them. TransitionSumsToOne,
  TransitionBounds, TransitionNonNegative and NoLinksIsUniform state their
  properties.
- `TicTacToe.Count` is the counting loop of `player` (`tictactoe.py` lines
  25-30). Player is stated in terms of it, and CountAfterWrite proves how
  one move changes it.

## Model

| member | source | states |
|---|---|---|
| TicTacToe.InitialState | 0.Search/tictactoe/tictactoe.py:14-18 | the start board is 3x3 and every square is empty |
| TicTacToe.Player | 0.Search/tictactoe/tictactoe.py:21-35 | X moves exactly when both marks occur equally often; on a board where turns alternate, X moves exactly when an even number of squares is filled |
| TicTacToe.CountAfterWrite | 0.Search/tictactoe/tictactoe.py:25-30 | filling an empty square with a mark raises that mark's count by one and leaves the other mark's count unchanged |
| TicTacToe.PlayerAlternates | 0.Search/tictactoe/tictactoe.py:21-35 | after the player to move fills an empty square, the other player moves, and turns still alternate |
| TicTacToe.PlayerExamples | 0.Search/tictactoe/tictactoe_test.py:16-29 | X moves on the empty board, O after one X, X again after X and O |
| TicTacToe.FirstUniformLine | 0.Search/tictactoe/tictactoe.py:52-86 | a returned mark owns a line that is all that mark and no earlier line in scan order is uniform; nothing is returned exactly when no line is all X or all O |
| TicTacToe.ScanOrderCoversLines | 0.Search/tictactoe/tictactoe.py:56-84 | the eight lines scanned (rows, columns, two diagonals) are uniform in a mark exactly when the mark owns a row, column or diagonal |
| TicTacToe.Winner | 0.Search/tictactoe/tictactoe.py:52-86 | a returned winner owns a line; no winner is returned exactly when neither mark owns a line |
| TicTacToe.SoleOwnerWins | 0.Search/tictactoe/tictactoe.py:52-86 | when only one mark owns a line, that mark is the winner |
| TicTacToe.XRowWins | 0.Search/tictactoe/tictactoe_test.py:102-106 | X owning the top row wins |
| TicTacToe.XColumnWins | 0.Search/tictactoe/tictactoe_test.py:108-112 | X owning the left column wins |
| TicTacToe.XDiagonalWins | 0.Search/tictactoe/tictactoe_test.py:114-118 | X owning the main diagonal wins |
| TicTacToe.ORowWins | 0.Search/tictactoe/tictactoe_test.py:131-135 | O owning the top row wins |
| TicTacToe.OColumnWins | 0.Search/tictactoe/tictactoe_test.py:137-141 | O owning the left column wins |
| TicTacToe.ODiagonalWins | 0.Search/tictactoe/tictactoe_test.py:143-147 | O owning the main diagonal wins |
| TicTacToe.DrawExample | 0.Search/tictactoe/tictactoe_test.py:120-124 | a full board with no uniform line has no winner |
| TicTacToe.HasEmpty | 0.Search/tictactoe/tictactoe.py:98-104 | true exactly when some square is empty |
| TicTacToe.Terminal | 0.Search/tictactoe/tictactoe.py:89-104 | the game is over exactly when there is a winner or every square is filled |
| TicTacToe.Utility | 0.Search/tictactoe/tictactoe.py:108-118 | the value is 1 exactly when X wins, -1 exactly when O wins, 0 exactly when no mark owns a line |
| TicTacToe.UtilityNonZeroIsTerminal | 0.Search/tictactoe/tictactoe.py:108-118 | a board with a non-zero value is a finished game |
| TicTacToe.XRowIsTerminal | 0.Search/tictactoe/tictactoe_test.py:154-181 | the board where X owns the top row is finished and worth 1 |
| TicTacToe.ORowIsWorthMinusOne | 0.Search/tictactoe/tictactoe_test.py:183-187 | the board where O owns the top row is worth -1 |
| TicTacToe.DrawIsTerminal | 0.Search/tictactoe/tictactoe_test.py:160-193 | the full board with no line (the tests' tie) is finished and worth 0 |
| TicTacToe.UnfinishedIsNotTerminal | 0.Search/tictactoe/tictactoe_test.py:166-197 | the tests' unfinished board is not finished and is worth 0 |
| TicTacToe.InitialStateIsNotTerminal | 0.Search/tictactoe/tictactoe.py:89-104 | the start board is not finished and is worth 0 |
| Minesweeper.NeighboursMembership | 1.Knowledge/minesweeper/minesweeper.py:65-76 | a cell is a neighbour exactly when it is adjacent (not the cell itself, within one row and column) and on the board |
| Minesweeper.NeighboursAtMostEight | 1.Knowledge/minesweeper/minesweeper.py:194-208 | a cell is not its own neighbour and has at most eight neighbours |
| Minesweeper.NeighboursSymmetric | 1.Knowledge/minesweeper/minesweeper.py:194-208 | adjacency on the board is symmetric |
| Minesweeper.AllCellsMembership | 1.Knowledge/minesweeper/minesweeper.py:167-172 | the board's cells are exactly the in-bounds cells |
| Minesweeper.AllCellsCount | 1.Knowledge/minesweeper/minesweeper.py:167-172 | a board has height times width cells |
| Minesweeper.PythonIndex | 1.Knowledge/minesweeper/minesweeper.py:51-53 | a valid Python index denotes a position in the list: itself when non-negative, counted from the end when negative |
| Minesweeper.Minesweeper.constructor | 1.Knowledge/minesweeper/minesweeper.py:10-34 | the grid is height x width, a square is True exactly when it holds one of the given mines, and no mines are found yet |
| Minesweeper.Minesweeper.IsMine | 1.Knowledge/minesweeper/minesweeper.py:51-53 | defined exactly for row and column indexes Python accepts; the answer is whether the indexed square (negative indexes counted from the end) is a mine; on the board it is membership in the mine set |
| Minesweeper.Minesweeper.NearbyMines | 1.Knowledge/minesweeper/minesweeper.py:55-78 | the count is the number of mines among the cell's in-bounds neighbours |
| Minesweeper.Minesweeper.Won | 1.Knowledge/minesweeper/minesweeper.py:80-84 | won exactly when the flagged cells are exactly the mines |
| Minesweeper.Sentence.constructor | 1.Knowledge/minesweeper/minesweeper.py:94-96 | the sentence holds the given cells and count |
| Minesweeper.Sentence.KnownMines | 1.Knowledge/minesweeper/minesweeper.py:104-111 | the result is a subset of the cells; it is non-empty exactly when the count equals the number of cells (and there are cells), and then it is all of them |
| Minesweeper.Sentence.KnownSafes | 1.Knowledge/minesweeper/minesweeper.py:113-120 | the result is a subset of the cells; it is non-empty exactly when the count is zero and there are cells, and then it is all of them |
| Minesweeper.Sentence.MarkMine | 1.Knowledge/minesweeper/minesweeper.py:122-131 | the cell leaves the sentence, and the count drops by one exactly when the cell was in it |
| Minesweeper.Sentence.MarkSafe | 1.Knowledge/minesweeper/minesweeper.py:133-141 | the cell leaves the sentence and the count is unchanged |
| Minesweeper.KnownMinesAreMines | 1.Knowledge/minesweeper/minesweeper.py:104-111 | for a sentence that is true of a mine layout, every cell it reports as a mine is one |
| Minesweeper.KnownSafesAreSafe | 1.Knowledge/minesweeper/minesweeper.py:113-120 | for a sentence that is true of a mine layout, no cell it reports as safe is a mine |
| Minesweeper.TrueSentenceIsNotOverfull | 1.Knowledge/minesweeper/minesweeper.py:176-177 | a sentence that is true of some layout never has a count above its number of cells, so the error in the cleaning pass signals a false sentence |
| Minesweeper.MarkMineKeepsTruth | 1.Knowledge/minesweeper/minesweeper.py:122-131 | removing a real mine and lowering the count keeps a true sentence true |
| Minesweeper.MarkSafeKeepsTruth | 1.Knowledge/minesweeper/minesweeper.py:133-141 | removing a cell that is not a mine keeps a true sentence true |
| Minesweeper.FirstOverfullSkipsOnlySafe | 1.Knowledge/minesweeper/minesweeper.py:175-177 | no sentence before the stopping position has a count above its cell count |
| Minesweeper.FirstOverfullIsOverfull | 1.Knowledge/minesweeper/minesweeper.py:175-177 | the cleaning pass stops before the end only at a sentence whose count exceeds its cell count |
| Minesweeper.NonEmptyFilters | 1.Knowledge/minesweeper/minesweeper.py:178-179 | the fully cleaned list holds exactly the non-empty sentences of the original, with no new aliasing |
| Minesweeper.CleanedAll | 1.Knowledge/minesweeper/minesweeper.py:175-179 | cleaning the whole list leaves exactly its non-empty sentences |
| Minesweeper.CleanRemoves | 1.Knowledge/minesweeper/minesweeper.py:178-179 | removing the first sentence equal to an empty one (by cells and count) advances the cleaning by one position and keeps objects distinct |
| Minesweeper.CleanSentences | 1.Knowledge/minesweeper/minesweeper.py:174-179 | succeeds exactly when no sentence is overfull; the result is the list with the empty sentences before the first overfull one removed; on success the result is exactly the non-empty sentences |
| Minesweeper.MinesweeperAI.constructor | 1.Knowledge/minesweeper/minesweeper.py:149-165 | nothing is known or played yet, the knowledge is empty, and every board cell is a candidate for a random move |
| Minesweeper.MinesweeperAI.PopulateBlancs | 1.Knowledge/minesweeper/minesweeper.py:167-172 | returns exactly the cells of the board |
| Minesweeper.MinesweeperAI.CleanKnowledge | 1.Knowledge/minesweeper/minesweeper.py:174-179 | reports an error exactly when some sentence is overfull; the knowledge becomes the list with the empty sentences before that point removed, without aliasing |
| Minesweeper.MinesweeperAI.AddSentenceToKnowledge | 1.Knowledge/minesweeper/minesweeper.py:190-192 | the sentence is appended exactly when no equal sentence is known; afterwards an equal sentence is known, and no duplicate pair is introduced |
| Minesweeper.MinesweeperAI.ListNearbyCells | 1.Knowledge/minesweeper/minesweeper.py:194-208 | returns exactly the in-bounds neighbours, at most eight |
| Minesweeper.MinesweeperAI.MarkMine | 1.Knowledge/minesweeper/minesweeper.py:210-217 | the cell becomes a known mine; every known sentence loses the cell and, if it held it, one from its count; nothing else changes |
| Minesweeper.MinesweeperAI.MarkSafe | 1.Knowledge/minesweeper/minesweeper.py:219-226 | the cell becomes known safe; every known sentence loses the cell with its count unchanged; nothing else changes |
| Minesweeper.MinesweeperAI.AddKnowledge | 1.Knowledge/minesweeper/minesweeper.py:243-259 | the cell is recorded as played; a fresh sentence over its neighbours that are neither known mines nor known safes, with the given count, is appended unless that set is empty or an equal sentence is known |
| Minesweeper.MinesweeperAI.MakeSafeMove | 1.Knowledge/minesweeper/minesweeper.py:309-331 | a returned move is known safe, not played and not a mine; nothing is returned exactly when no such cell exists |
| Minesweeper.MinesweeperAI.MakeRandomMove | 1.Knowledge/minesweeper/minesweeper.py:333-347 | the candidates lose every played, mine or safe cell; a returned move is a remaining candidate; nothing is returned exactly when none remains |
| Heredity.ChooseLength | 2.Uncertainty/heredity/heredity.py:101-103 | there are n-choose-r combinations of size r |
| Heredity.ChooseSubsets | 2.Uncertainty/heredity/heredity.py:101-103 | every combination of size r is an r-element subset of the input |
| Heredity.ChooseComplete | 2.Uncertainty/heredity/heredity.py:101-103 | every r-element subset of the input is among the combinations of size r |
| Heredity.ChooseNoRepeats | 2.Uncertainty/heredity/heredity.py:101-103 | no combination is listed twice |
| Heredity.LayersSorted | 2.Uncertainty/heredity/heredity.py:101-103 | the subsets come in order of non-decreasing size |
| Heredity.PowersetLength | 2.Uncertainty/heredity/heredity.py:94-104 | a set of n elements has 2 to the n subsets listed |
| Heredity.PowersetExactlyOnce | 2.Uncertainty/heredity/heredity.py:94-104 | every subset of the input is listed, only subsets are listed, none twice, in order of size |
| Heredity.PowersetOfTwo | 2.Uncertainty/heredity/heredity.py:94-104 | the powerset of [1, 2] is [{}, {1}, {2}, {1, 2}] |
| Heredity.GeneCount | 2.Uncertainty/heredity/heredity.py:122-126 | two copies for anyone in the two-gene set, otherwise one for the one-gene set, otherwise none |
| Heredity.Classify | 2.Uncertainty/heredity/heredity.py:121-130 | every person gets their gene count and whether they are in the trait set, and no one else is listed |
| Heredity.GetParentProbability | 2.Uncertainty/heredity/heredity.py:180-195 | defined exactly for 0, 1 and 2 copies (the others are the ValueError): mutation rate, one half, one minus the mutation rate |
| Heredity.ParentProbabilityOrdered | 2.Uncertainty/heredity/heredity.py:180-195 | the three probabilities lie in [0, 1], grow with the number of copies, and the extremes add up to one |
| Heredity.EvidenceFilter | 2.Uncertainty/heredity/heredity.py:39-47 | a trait hypothesis survives the filter exactly when it contains everyone known to have the trait and no one known not to have it |
| Heredity.GeneBucket | 2.Uncertainty/heredity/heredity.py:205-211 | the bucket credited is 1 for the one-gene set, else 2 for the two-gene set, else 0 |
| Heredity.BucketIsGeneCount | 2.Uncertainty/heredity/heredity.py:205-211 | when the gene sets are disjoint, the bucket credited is the person's gene count |
| Heredity.BucketPrecedenceDiffers | 2.Uncertainty/heredity/heredity.py:205-211 | when a person is in both gene sets, the update credits one copy while the classification counts two |
| Heredity.CreditOneBucket | 2.Uncertainty/heredity/heredity.py:205-215 | crediting adds the probability to exactly one gene entry and one trait entry, so each sum grows by it |
| Heredity.NormalizedSumsToOne | 2.Uncertainty/heredity/heredity.py:218-236 | a distribution with non-zero sum is normalised to sum one; a zero-sum one is left alone |
| Heredity.NormalizedIsShare | 2.Uncertainty/heredity/heredity.py:218-236 | each normalised entry times the old sum is the old entry |
| Heredity.NormalizedKeepsGeneRatios | 2.Uncertainty/heredity/heredity.py:223-229 | normalising keeps the relative proportions of the gene entries |
| Heredity.NormalizedKeepsTraitRatios | 2.Uncertainty/heredity/heredity.py:231-236 | normalising keeps the relative proportions of the trait entries |
| Heredity.NormalizedIsProbability | 2.Uncertainty/heredity/heredity.py:218-236 | normalising non-negative entries gives entries in [0, 1] |
| Heredity.DivideAll | 2.Uncertainty/heredity/heredity.py:228-229 | each entry is divided by the sum |
| Heredity.Probabilities.constructor | 2.Uncertainty/heredity/heredity.py:29-32 | every person starts with all-zero gene and trait distributions |
| Heredity.Probabilities.Update | 2.Uncertainty/heredity/heredity.py:198-215 | every person's distributions get the probability added to their gene bucket and trait entry; the people are unchanged |
| Heredity.Probabilities.Normalize | 2.Uncertainty/heredity/heredity.py:218-236 | every person's distributions are replaced by their normalised form; the people are unchanged |
| PageRank.TransitionDistribution | 2.Uncertainty/pagerank/pagerank.py:70-77 | the distribution is over exactly the corpus pages |
| PageRank.TransitionModel | 2.Uncertainty/pagerank/pagerank.py:48-77 | the loop builds the transition distribution |
| PageRank.TransitionSumsToOne | 2.Uncertainty/pagerank/pagerank.py:48-77 | for a page whose links stay in the corpus, the probabilities sum to one |
| PageRank.TransitionBounds | 2.Uncertainty/pagerank/pagerank.py:64-76 | for a damping factor in [0, 1], every probability lies in [0, 1] and a linked page is at least as likely as any other |
| PageRank.TransitionNonNegative | 2.Uncertainty/pagerank/pagerank.py:64-76 | for a damping factor in [0, 1], no next page has negative probability, so the weighted draw gets valid weights |
| PageRank.NoLinksIsUniform | 2.Uncertainty/pagerank/pagerank.py:60-62 | a page without links jumps to every page with equal probability |
| PageRank.ThreePageExample | 2.Uncertainty/pagerank/my_test.py:16-18 | page 1 linking to 2 and 3 with damping 0.85 gives 0.05, 0.475, 0.475 |
| PageRank.ClosedCorpusHasWeight | 2.Uncertainty/pagerank/pagerank.py:109-113 | in a corpus whose links stay inside it, every transition model has a positive weight to draw by |
| PageRank.WeightedChoice | 2.Uncertainty/pagerank/pagerank.py:113 | for non-negative weights, a drawn page has positive weight; no page is drawn exactly when every weight is zero |
| PageRank.CountVisits | 2.Uncertainty/pagerank/pagerank.py:97-113 | the counters cover the corpus and add up to the number of samples; the empty corpus and a model with no positive weight are the errors |
| PageRank.CountedStep | 2.Uncertainty/pagerank/pagerank.py:105 | counting one more visit raises the total by one |
| PageRank.SamplePagerank | 2.Uncertainty/pagerank/pagerank.py:80-121 | ranks are over the corpus; with samples, each rank is a page's count in some visit counter covering the corpus and totalling n, divided by n, so ranks sum to one and lie in [0, 1]; zeros for a negative n; the empty corpus and zero samples are errors; a link-closed non-empty corpus always succeeds |
| PageRank.SharesSumToOne | 2.Uncertainty/pagerank/pagerank.py:115-119 | counters totalling n, each divided by n, sum to one and lie in [0, 1] |
| PageRank.FilterLinks | 2.Uncertainty/pagerank/pagerank.py:39-43 | each page keeps exactly its links to other corpus pages, so no page links to itself or outside the corpus |

## Left out

- Printing, the command-line entry points, reading the data files and the crawler's directory listing and HTML regular expression are not modelled. `FilterLinks` starts from the links already extracted per page.
- Randomness:
  - Minesweeper's random mine placement is replaced by a layout given to the constructor.
  - `random.choice` becomes an arbitrary choice (`:|`).
  - `random.choices` becomes `WeightedChoice`, which picks some page of positive weight; the sampling frequencies are not modelled.
- Minesweeper.Minesweeper.constructor: takes the layout, not a mine count. The program's placement loop never ends when it asks for more mines than cells; that case is not modelled.
- Minesweeper.MinesweeperAI.AddKnowledge: steps 4 and 5 (lines 261-307) are not modelled. This inference loop can run forever (the program says so itself). No claim is made that the added sentence is true: its count is not lowered for neighbours already known to be mines. Step 2 is commented out in the program, so the model does not mark the cell safe either.
- Minesweeper.MinesweeperAI.CleanKnowledge: the `ValueError` becomes `ok == false`. The pass computes the cleaned list and then assigns it. The resulting list is the same as the one the in-place removals produce.
- Minesweeper.MinesweeperAI.MakeRandomMove: where `random.choice` of an empty list raises `IndexError`, the model returns `None`.
- Minesweeper.Minesweeper.IsMine: the `IndexError` becomes `None`.
- The turn counters in `player` are read before they are set in the program. The model counts from zero, as evidently intended. `Player` always names a mark. The test expecting `None` on a full board is not claimed, because the program never returns it.
- Heredity:
  - The gene and trait distributions are sequences indexed by gene count and by trait, False at 0 and True at 1, not dictionaries.
  - The person names are a type parameter.
  - `joint_probability`'s product of per-person probabilities (lines 132-177) is not modelled. Only its classification step and `get_parent_probability` are.
  - `Powerset` takes the set as a list of distinct elements in iteration order. Python's set order is not modelled.
- PageRank.SamplePagerank:
  - The transition model of the current page is computed when it is needed, not tabulated up front. This gives the same values.
  - A damping factor in [0, 1] is required. The program treats it as a probability, and every caller passes 0.85.
  - A negative sample count gives all-zero ranks, as in the program.
  - A weight vector with no positive entry is reported as an error. This cannot happen for a link-closed corpus.
- PageRank.WeightedChoice: requires non-negative weights. Draws with negative weights, which `random.choices` accepts as long as the total is positive, are not modelled.
- PageRank.TransitionSumsToOne: requires every link to stay inside the corpus, as the crawler's filtering guarantees.
- Python's floating point is modelled as exact real arithmetic. Rounding is not modelled.
- Not modelled: the crossword solver, tic-tac-toe's `actions`, `result` and `minimax`, and `iterate_pagerank`. The program leaves the last few as unimplemented stubs.
