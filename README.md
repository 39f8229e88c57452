# Sudoku constraint solver core, modelled in Dafny

The system is a small Sudoku program with a Tkinter front end. This project models its core:

- **Constraint generation** (`SudokuCSP` in `Sudoku.py`). It builds the 27 "all-different" groups: 9 boxes, then 9 row lists, then 9 column lists. Each group is turned into the pairs of cells at index pairs `i < j`, as `combination(n, 2)` lists them. The pairs of all groups are concatenated and deduplicated through a set.
- **The board and the game rules** (`SudokuBoard`, `SudokuGame` in `Sudoku.py`). The parser reads nine stripped lines of nine digits and can raise three distinct errors. `start` resets the played grid to a copy of the start grid. `check_win` checks every row, every column and every 3x3 square against the set {1..9}.
- **The generic CSP graph** (`cspSolver` in `CSP.py`). Nodes map a coordinate tuple to a domain. Edges map a node to its list of (neighbour, constraint) entries. `ac3` checks that nodes and edges have the same keys, then builds the initial set of arcs.

Modules:

- `Wrappers`: `Option` and `Result`.
- `Collections`: duplicate-freedom, the element set of a sequence, concatenation of lists, and counting lemmas for finite sets.
- `Combinations`: `combination(n, 2)`.
- `SudokuGeometry`: cells, peer cells, and the 810-element set of peer pairs with its count.
- `SudokuCsp`: the groups, the binary constraints, and the two generator methods.
- `SudokuBoard`: `str.strip`, the digit test and the board parser.
- `SudokuGame`: the block checks and the `SudokuGame` class.
- `Csp`: the graph datatype, `Ac3` and the example graph.

Modelling choices:

- Cells are pairs `(a, b)` of integers. A group row `i` holds the cells `(j, i)` and a column `i` the cells `(i, j)`, as the source names them.
- The boxes are numbered while iterating the set literal `{0, 3, 6}`, whose order the language does not fix. That order is the parameter `corners`, any ordering of 0, 3 and 6. Box facts are proved for every such order, and the final constraint set does not depend on it.
- The loop over `j` and the loop over `k` each iterate their own copy of the literal `{0, 3, 6}`. The single parameter `corners` gives both copies the same order, as CPython does for two equal set literals. No proved fact about the constraint set depends on this.
- The constraint functions in `CSP.py` are lambdas that compare by object identity. They are an opaque token type `P`. The example's two lambdas are the distinct tokens 0 and 1.
- Python raises at the points where the model returns `Err` or `None`. The parser's `SudokuError` is a `BoardError` value. The failed `assert` in `ac3` is `Err(KeySetMismatch)`. `combination(n, 2)` raising for `n < 2` is `None`.
- `combination(n, 2)` raises for a group of fewer than two elements: a `ValueError` for `n = 0` (negative array dimension) and an `IndexError` for `n = 1` (at `a[j, 0]`). Sudoku only ever passes groups of nine.
- `alldiff_as_binary` turns each element of a pair into a list with `.tolist()` and back with `tuple(x)`, which works only when each element is itself a sequence, such as a cell; scalar elements make it raise `TypeError`. The model's `AlldiffAsBinary` takes a group of cells, the only input the generator passes it (Sudoku.py:34).

## Model

| member | source | states |
|---|---|---|
| Combinations.Combination | Sudoku.py:73-83 | `combination(n, 2)` (transposed) exists exactly for n >= 2. It then has n(n-1)/2 index pairs. A pair `(i, j)` is in it iff `i < j < n`. The pairs are strictly increasing in lexicographic order, so none is repeated. |
| Combinations.CombinationOfNine | Sudoku.py:66 | A group of nine gives 36 index pairs. |
| SudokuCsp.GenerateAllConstraints | Sudoku.py:40-62 | The nested append loops return exactly the 9 boxes (in corner-iteration order), then the row groups `[(0,i),…,(8,i)]`, then the column groups `[(i,0),…,(i,8)]`. |
| SudokuCsp.GroupsShape | Sudoku.py:40-62 | There are 27 groups. Each holds 9 cells of the grid in strictly increasing coordinate order, so none twice, and any two cells of a group are peers. Row group `i` is `[(0,i),…,(8,i)]` and column group `i` is `[(i,0),…,(i,8)]`. |
| SudokuCsp.BoxesAreBlocks | Sudoku.py:54-60 | The set of the first nine groups is the set of 3x3 blocks with top-left corners in {0,3,6}×{0,3,6}, whatever the iteration order of `{0, 3, 6}`. |
| SudokuCsp.BoxesPartitionGrid | Sudoku.py:54-60 | Every cell of the grid lies in one box group, and in no more than one. |
| SudokuCsp.BoxGroupMembers | Sudoku.py:57-59 | A cell is in the box with corner `(j, k)` iff it lies within three steps below and right of the corner. |
| SudokuCsp.BoxGroupWellOrdered | Sudoku.py:57-59 | A box lists its nine cells `(l, m)` of the grid in strictly increasing lexicographic order, and any two of them lie in the same 3x3 block. |
| SudokuCsp.AlldiffAsBinary | Sudoku.py:64-71 | For a group of cells, pairs exist exactly when the group has two or more cells. There are then n(n-1)/2 of them. |
| SudokuCsp.AlldiffAsBinaryPairs | Sudoku.py:64-71 | A pair is in the result iff it is `(elements[i], elements[j])` for some `0 <= i < j < n`. The t-th pair uses t-th index pair of `combination(n, 2)`, so the order is the lexicographic index order. A group without repeats gives no repeated pair. |
| SudokuCsp.GroupPairsArePeerPairs | Sudoku.py:64-71 | Every pair a group produces relates two distinct peer cells of the grid, the first before the second. No pair relates a cell to itself. |
| SudokuCsp.PeerPairFromGroup | Sudoku.py:40-71 | Every pair of peer cells, in coordinate order, is produced by some row, column or box group. |
| SudokuCsp.RawBinariesCount | Sudoku.py:33-34 | Before deduplication the concatenated list has 27 × 36 = 972 pairs. |
| SudokuCsp.DedupIsPeerPairs | Sudoku.py:33-35 | The deduplicated set is exactly the set of peer pairs in coordinate order. A pair shared by a box and a row (or column) has the same orientation in both, so the copies collapse. |
| SudokuCsp.DedupCount | Sudoku.py:35-36 | The deduplicated set has 810 elements, the value of the formula printed at line 36. |
| SudokuCsp.GenerateAllBinaryConstraints | Sudoku.py:28-38 | Concatenating the group pairs in a loop and taking the set gives exactly the peer pairs, 810 of them. |
| SudokuGeometry.PeerPairsCount | Sudoku.py:36 | There are 810 pairs of distinct peer cells: (9 choose 2)·18 + ((9 choose 2) − (3 choose 2)·6)·9. |
| SudokuGeometry.PeerPairsOnce | Sudoku.py:28-38 | No constraint relates a cell to itself. Every constraint relates peers. Each unordered pair of distinct peer cells appears in exactly one orientation. |
| SudokuGeometry.PeerPairsMembers | Sudoku.py:28-38 | The peer-pair set holds exactly the ordered pairs of distinct peer cells of the grid. |
| SudokuGeometry.PeerPairShapes | Sudoku.py:36 | A peer pair is a row pair, a column pair or a box-only pair, and exactly one of these. These are the three terms of the count. |
| SudokuBoard.Strip | Sudoku.py:287 | `str.strip()` returns a slice no longer than the line that neither starts nor ends with whitespace. A line without whitespace is returned unchanged. |
| SudokuBoard.StripRemovesOnlyWhitespace | Sudoku.py:287 | The stripped line is `s[i..j]`, where everything before `i` and from `j` on is whitespace. |
| SudokuBoard.StripIdempotent | Sudoku.py:287 | Stripping twice is the same as stripping once. |
| SudokuBoard.IsDigit | Sudoku.py:295 | A character passes the digit test iff it is one of the ten numerals `0123456789`. |
| SudokuBoard.DigitValue | Sudoku.py:299 | `int(c)` of a digit is the value 0..9 whose numeral is `c`. |
| SudokuBoard.CreateBoard | Sudoku.py:284-303 | It succeeds iff there are exactly 9 lines and each is 9 digits after stripping. The result is then a 9x9 grid of the lines' digit values, all in 0..9. The length error is raised iff the first bad line does not strip to 9 characters. The character error is raised iff the first bad line does strip to 9. The line-count error is raised iff every line is good but there are not 9 lines. |
| SudokuBoard.RenderParses | Sudoku.py:284-303 | Writing any 9x9 grid of digits as nine lines gives lines the parser accepts, and its values are the grid. So parsing inverts rendering. |
| SudokuGame.OneToNine | Sudoku.py:338 | `set(range(1, 10))` holds exactly the values 1..9. |
| SudokuGame.CheckBlock | Sudoku.py:337-338 | A block passes iff every value in it lies in 1..9 and each of 1..9 occurs in it. |
| SudokuGame.CheckRow | Sudoku.py:340-341 | Row `row` passes iff its nine cells hold values in 1..9, no two equal. |
| SudokuGame.CheckColumn | Sudoku.py:343-346 | Column `column` passes iff its nine cells hold values in 1..9, no two equal. |
| SudokuGame.CheckSquare | Sudoku.py:348-355 | The square over rows `3·row .. 3·row+2` and columns `3·column .. 3·column+2` passes iff its nine cells hold values in 1..9, no two equal. |
| SudokuGame.CheckBlockMeans | Sudoku.py:337-338 | A block of nine passes `__check_block` iff it holds 1..9, each exactly once. |
| SudokuGame.ZeroOrRepeatFails | Sudoku.py:337-338 | An empty cell (0) or a repeated value in a block makes the check fail. |
| SudokuGame.SolvedMeans | Sudoku.py:323-355 | A grid passes all row, column and square checks iff every row, every column and every square holds 1..9 exactly once. |
| SudokuGame.EmptyCellNotSolved | Sudoku.py:323-338 | A grid with an empty cell does not win. |
| SudokuGame.RepeatNotSolved | Sudoku.py:323-355 | A grid with a value repeated in a row, a column or a square does not win. |
| SudokuGame.SquareIndex | Sudoku.py:348-355 | Cell `(r, c)` sits at position `3·(r mod 3) + c mod 3` of the square that holds it, read row by row. |
| SudokuGame.SudokuGame.constructor | Sudoku.py:311-313 | Stores the parsed start grid. |
| SudokuGame.SudokuGame.Start | Sudoku.py:315-321 | The played grid becomes a copy of the start grid and `gameOver` becomes false. The start grid is unchanged. |
| SudokuGame.SudokuGame.CheckWin | Sudoku.py:323-335 | Returns true iff every row, column and square passes the block check. `gameOver` is set on a win and left as it was otherwise. |
| Csp.CspSolver.Ac3 | CSP.py:20-25 | It fails iff the node keys differ from the edge keys. Otherwise, `((x, y), f)` is in the worklist iff `(y, f)` is an entry of `edges[x]`. |
| Csp.WorklistIsImage | CSP.py:23 | The worklist is the set of arcs of all edge-list entries, one per entry position `(x, i)`. |
| Csp.WorklistBound | CSP.py:23 | The worklist has no more arcs than there are edge-list entries over all nodes. |
| Csp.DuplicateEntriesCollapse | CSP.py:23 | An entry listed twice in one edge list gives one arc, so the worklist is strictly smaller than the entry count. |
| Csp.ExampleWorklist | CSP.py:32-39 | The example graph's worklist is exactly `{((1,1),(2,2)), ((2,2),(1,1))}`, each with its own constraint, so it holds two arcs. |

## Left out

- The Tkinter user interface (`SudokuUI`: drawing, cursor, mouse and keyboard handlers, victory overlay). It is presentation and event-loop code. The model therefore has no operation that edits a cell of the played grid.
- Argument parsing, opening the board file and the `__main__` block. `CreateBoard` takes the file's lines as a sequence of strings.
- The `print` calls and `run_ai`, which only prints the constraint set.
- The numpy array mechanics of `combination` (`np.repeat`, `np.add.accumulate`). The model specifies the index pairs the code produces for k = 2, the only arity used. Other values of k are not modelled.
- Combinations.Combination: the raise for n < 2 is modelled as `None`. The model does not tell apart the two exceptions numpy raises (n = 0 versus n = 1).
- The iteration order of the set literal `{0, 3, 6}` is not fixed by the language. It is the parameter `corners`, and all results are proved for every order.
- SudokuBoard.IsDigit: `str.isdigit` also accepts non-ASCII digits, some of which `int()` rejects. Only the ASCII digits `0`..`9` are modelled.
- SudokuGame.SudokuGame.constructor: it takes the already parsed grid, not a file. Python leaves `puzzle` and `game_over` unset until `start`. The model sets them to `[]` and false, and `CheckWin` requires a 9x9 played grid, as after `Start`.
- The `SudokuCSP` constructor's `board` and `constraints` fields. The modelled methods never read them.
- The constructor of `cspSolver` only stores its two arguments, and `ac3` changes neither. Both are immediate for the immutable datatype `CspSolver`, so no separate lemma states them.
- Csp.CspSolver.Ac3: the constraint lambdas are modelled as opaque tokens. Nothing is said about the functions they compute.
- The AC-3 revision loop and backtracking search. `revise` is an empty stub and `ac3` returns right after building the worklist, so neither exists in the code.
- Csp.WorklistBound: the bound counts entry positions `(x, i)` as a set, not as a sum of list lengths over the map. The two counts are equal.
