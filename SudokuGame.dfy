/**
 * The game state: the start grid, the grid being played and the game-over
 * flag, with the reset and the win check.
 */
module SudokuGame {
  import opened Collections

  /** A 9x9 grid of cell values, indexed `g[row][column]`. */
  predicate IsGrid(g: seq<seq<int>>) {
    |g| == 9 && forall r :: 0 <= r < 9 ==> |g[r]| == 9
  }

  /** `range(lo, hi)`. */
  function Range(lo: int, hi: int): (r: seq<int>)
    requires lo <= hi
    ensures |r| == hi - lo && forall t :: 0 <= t < |r| ==> r[t] == lo + t
  {
    seq(hi - lo, t => lo + t)
  }

  /** `set(range(1, 10))`: the values 1..9. */
  function OneToNine(): (s: set<int>)
    ensures forall v :: v in s <==> 1 <= v <= 9
  {
    RangeMembers(1, 10);
    Elements(Range(1, 10))
  }

  lemma RangeMembers(lo: int, hi: int)
    requires lo <= hi
    ensures forall v :: v in Range(lo, hi) <==> lo <= v < hi
  {
    forall v | lo <= v < hi ensures v in Range(lo, hi) {
      assert Range(lo, hi)[v - lo] == v;
    }
  }

  /**
   * `__check_block`: the set of the block's values is {1, ..., 9}, that is,
   * every value lies in 1..9 and each of 1..9 occurs.
   */
  function CheckBlock(block: seq<int>): (ok: bool)
    ensures ok <==> (forall t :: 0 <= t < |block| ==> 1 <= block[t] <= 9) && (forall v :: 1 <= v <= 9 ==> v in block)
  {
    BlockValues(block);
    Elements(block) == OneToNine()
  }

  lemma BlockValues(block: seq<int>)
    ensures Elements(block) == OneToNine() <==>
      (forall t :: 0 <= t < |block| ==> 1 <= block[t] <= 9) && (forall v :: 1 <= v <= 9 ==> v in block)
  {
    if Elements(block) == OneToNine() {
      forall t | 0 <= t < |block| ensures 1 <= block[t] <= 9 {
        assert block[t] in Elements(block);
      }
      forall v | 1 <= v <= 9 ensures v in block {
        assert v in OneToNine();
      }
    }
  }

  /** Column `c` read from top to bottom. */
  function Column(g: seq<seq<int>>, c: int): (col: seq<int>)
    requires IsGrid(g) && 0 <= c < 9
    ensures |col| == 9 && forall r :: 0 <= r < 9 ==> col[r] == g[r][c]
  {
    seq(9, r requires 0 <= r < 9 => g[r][c])
  }

  /** The 3x3 square in square-row `row` and square-column `column`, read row by row. */
  function Square(g: seq<seq<int>>, row: int, column: int): (sq: seq<int>)
    requires IsGrid(g) && 0 <= row < 3 && 0 <= column < 3
    ensures |sq| == 9
  {
    seq(9, t requires 0 <= t < 9 => g[3 * row + t / 3][3 * column + t % 3])
  }

  /** Cell `(r, c)` lies in the square in square-row `row` and square-column `column`. */
  predicate InSquare(row: int, column: int, r: int, c: int) {
    3 * row <= r < 3 * row + 3 && 3 * column <= c < 3 * column + 3
  }

  /** `__check_row`: the nine cells of row `row` hold 1..9, each once. */
  function CheckRow(g: seq<seq<int>>, row: int): (ok: bool)
    requires IsGrid(g) && 0 <= row < 9
    ensures ok <==>
      && (forall c :: 0 <= c < 9 ==> 1 <= g[row][c] <= 9)
      && (forall c1, c2 :: 0 <= c1 < c2 < 9 ==> g[row][c1] != g[row][c2])
  {
    CheckBlockMeans(g[row]);
    CheckBlock(g[row])
  }

  /** `__check_column`: the nine cells of column `column` hold 1..9, each once. */
  function CheckColumn(g: seq<seq<int>>, column: int): (ok: bool)
    requires IsGrid(g) && 0 <= column < 9
    ensures ok <==>
      && (forall r :: 0 <= r < 9 ==> 1 <= g[r][column] <= 9)
      && (forall r1, r2 :: 0 <= r1 < r2 < 9 ==> g[r1][column] != g[r2][column])
  {
    CheckBlockMeans(Column(g, column));
    CheckBlock(Column(g, column))
  }

  /** `__check_square`: the nine cells of the 3x3 square hold 1..9, each once. */
  function CheckSquare(g: seq<seq<int>>, row: int, column: int): (ok: bool)
    requires IsGrid(g) && 0 <= row < 3 && 0 <= column < 3
    ensures ok <==> SquareHoldsDigits(g, row, column)
  {
    CheckBlockMeans(Square(g, row, column));
    SquareMeans(g, row, column);
    CheckBlock(Square(g, row, column))
  }

  /** The nine cells of a square hold 1..9, each once. */
  ghost predicate SquareHoldsDigits(g: seq<seq<int>>, row: int, column: int)
    requires IsGrid(g) && 0 <= row < 3 && 0 <= column < 3
  {
    && (forall r, c :: InSquare(row, column, r, c) ==> 1 <= g[r][c] <= 9)
    && (forall r1, c1, r2, c2 :: InSquare(row, column, r1, c1) && InSquare(row, column, r2, c2) && (r1, c1) != (r2, c2) ==>
          g[r1][c1] != g[r2][c2])
  }

  /** The square read row by row lists 1..9 once each iff its cells hold 1..9, each once. */
  lemma SquareMeans(g: seq<seq<int>>, row: int, column: int)
    requires IsGrid(g) && 0 <= row < 3 && 0 <= column < 3
    ensures IsPermutationOfDigits(Square(g, row, column)) <==> SquareHoldsDigits(g, row, column)
  {
    if IsPermutationOfDigits(Square(g, row, column)) {
      PermutedSquareHoldsDigits(g, row, column);
    }
    if SquareHoldsDigits(g, row, column) {
      SquareOfDigitsPermuted(g, row, column);
    }
  }

  lemma PermutedSquareHoldsDigits(g: seq<seq<int>>, row: int, column: int)
    requires IsGrid(g) && 0 <= row < 3 && 0 <= column < 3
    requires IsPermutationOfDigits(Square(g, row, column))
    ensures SquareHoldsDigits(g, row, column)
  {
    var sq := Square(g, row, column);
    forall r, c | InSquare(row, column, r, c) ensures 1 <= g[r][c] <= 9 {
      SquareCell(g, row, column, r, c);
    }
    forall r1, c1, r2, c2 | InSquare(row, column, r1, c1) && InSquare(row, column, r2, c2) && (r1, c1) != (r2, c2)
      ensures g[r1][c1] != g[r2][c2]
    {
      PermutedSquareCellsDiffer(g, row, column, r1, c1, r2, c2);
    }
  }

  lemma PermutedSquareCellsDiffer(g: seq<seq<int>>, row: int, column: int, r1: int, c1: int, r2: int, c2: int)
    requires IsGrid(g) && 0 <= row < 3 && 0 <= column < 3
    requires IsPermutationOfDigits(Square(g, row, column))
    requires InSquare(row, column, r1, c1) && InSquare(row, column, r2, c2) && (r1, c1) != (r2, c2)
    ensures g[r1][c1] != g[r2][c2]
  {
    var sq := Square(g, row, column);
    var i, j := SquarePositions(g, row, column, r1, c1, r2, c2);
    if i < j { assert sq[i] != sq[j]; } else { assert sq[j] != sq[i]; }
  }

  /** Two distinct cells of a square sit at two distinct positions of it. */
  lemma SquarePositions(g: seq<seq<int>>, row: int, column: int, r1: int, c1: int, r2: int, c2: int) returns (i: int, j: int)
    requires IsGrid(g) && 0 <= row < 3 && 0 <= column < 3
    requires InSquare(row, column, r1, c1) && InSquare(row, column, r2, c2) && (r1, c1) != (r2, c2)
    ensures 0 <= i < 9 && 0 <= j < 9 && i != j
    ensures Square(g, row, column)[i] == g[r1][c1] && Square(g, row, column)[j] == g[r2][c2]
  {
    SquareCell(g, row, column, r1, c1);
    SquareCell(g, row, column, r2, c2);
    SquareCellsApart(r1, c1, r2, c2);
    i, j := 3 * (r1 % 3) + c1 % 3, 3 * (r2 % 3) + c2 % 3;
  }

  lemma SquareOfDigitsPermuted(g: seq<seq<int>>, row: int, column: int)
    requires IsGrid(g) && 0 <= row < 3 && 0 <= column < 3
    requires SquareHoldsDigits(g, row, column)
    ensures IsPermutationOfDigits(Square(g, row, column))
  {
    var sq := Square(g, row, column);
    forall t | 0 <= t < 9 ensures 1 <= sq[t] <= 9 {
      assert InSquare(row, column, 3 * row + t / 3, 3 * column + t % 3);
    }
    forall s, t | 0 <= s < t < 9 ensures sq[s] != sq[t] {
      assert InSquare(row, column, 3 * row + s / 3, 3 * column + s % 3);
      assert InSquare(row, column, 3 * row + t / 3, 3 * column + t % 3);
      assert s / 3 != t / 3 || s % 3 != t % 3;
    }
  }

  /** A cell of a square sits at position `3 * (r % 3) + c % 3` of it. */
  lemma SquareCell(g: seq<seq<int>>, row: int, column: int, r: int, c: int)
    requires IsGrid(g) && 0 <= row < 3 && 0 <= column < 3 && InSquare(row, column, r, c)
    ensures r / 3 == row && c / 3 == column
    ensures 0 <= 3 * (r % 3) + c % 3 < 9 && Square(g, row, column)[3 * (r % 3) + c % 3] == g[r][c]
  {
    assert r / 3 == row && c / 3 == column;
    SquareIndex(g, row, column, r, c);
  }

  /** Distinct cells of one square sit at distinct positions of it. */
  lemma SquareCellsApart(r1: int, c1: int, r2: int, c2: int)
    requires 0 <= r1 && 0 <= c1 && 0 <= r2 && 0 <= c2 && r1 / 3 == r2 / 3 && c1 / 3 == c2 / 3 && (r1, c1) != (r2, c2)
    ensures 3 * (r1 % 3) + c1 % 3 != 3 * (r2 % 3) + c2 % 3
  {
    var i, j := 3 * (r1 % 3) + c1 % 3, 3 * (r2 % 3) + c2 % 3;
    assert i / 3 == r1 % 3 && i % 3 == c1 % 3;
    assert j / 3 == r2 % 3 && j % 3 == c2 % 3;
  }

  /** The winning condition: every row, column and square holds 1..9. */
  predicate IsSolved(g: seq<seq<int>>)
    requires IsGrid(g)
  {
    && (forall r :: 0 <= r < 9 ==> CheckRow(g, r))
    && (forall c :: 0 <= c < 9 ==> CheckColumn(g, c))
    && (forall r, c :: 0 <= r < 3 && 0 <= c < 3 ==> CheckSquare(g, r, c))
  }

  // ----- What the block check means -----

  /** The nine values 1..9, each once. */
  ghost predicate IsPermutationOfDigits(block: seq<int>) {
    && |block| == 9
    && (forall t :: 0 <= t < 9 ==> 1 <= block[t] <= 9)
    && NoDup(block)
  }

  lemma OneToNineCard()
    ensures |OneToNine()| == 9
  {
    DistinctCard(Range(1, 10));
  }

  /** A block of nine passes the check exactly when it lists 1..9, each once. */
  lemma CheckBlockMeans(block: seq<int>)
    requires |block| == 9
    ensures CheckBlock(block) <==> IsPermutationOfDigits(block)
  {
    OneToNineCard();
    if CheckBlock(block) {
      forall t | 0 <= t < 9 ensures 1 <= block[t] <= 9 {
        assert block[t] in Elements(block);
      }
      if !NoDup(block) {
        RepeatShrinks(block);
      }
    }
    if IsPermutationOfDigits(block) {
      DistinctCard(block);
      assert Elements(block) <= OneToNine();
      SubsetOfSameSize(Elements(block), OneToNine());
    }
  }

  /** An empty cell (0) or a repeated value in a block makes the block fail the check. */
  lemma ZeroOrRepeatFails(block: seq<int>, i: int, j: int)
    requires |block| == 9 && 0 <= i < 9 && 0 <= j < 9
    requires block[i] == 0 || (i != j && block[i] == block[j])
    ensures !CheckBlock(block)
  {
    CheckBlockMeans(block);
    if i != j && block[i] == block[j] {
      assert !NoDup(block) by {
        if i < j { assert block[i] == block[j]; } else { assert block[j] == block[i]; }
      }
    }
  }

  /**
   * A solved grid: every row, every column and every square lists 1..9 with
   * no repetition; in particular no cell is empty.
   */
  lemma SolvedMeans(g: seq<seq<int>>)
    requires IsGrid(g)
    ensures IsSolved(g) <==>
      && (forall r :: 0 <= r < 9 ==> IsPermutationOfDigits(g[r]))
      && (forall c :: 0 <= c < 9 ==> IsPermutationOfDigits(Column(g, c)))
      && (forall r, c :: 0 <= r < 3 && 0 <= c < 3 ==> IsPermutationOfDigits(Square(g, r, c)))
  {
    forall r | 0 <= r < 9 ensures CheckRow(g, r) <==> IsPermutationOfDigits(g[r]) {
      CheckBlockMeans(g[r]);
    }
    forall c | 0 <= c < 9 ensures CheckColumn(g, c) <==> IsPermutationOfDigits(Column(g, c)) {
      CheckBlockMeans(Column(g, c));
    }
    forall r, c | 0 <= r < 3 && 0 <= c < 3 ensures CheckSquare(g, r, c) <==> IsPermutationOfDigits(Square(g, r, c)) {
      CheckBlockMeans(Square(g, r, c));
    }
  }

  /** A grid with an empty cell is not solved. */
  lemma EmptyCellNotSolved(g: seq<seq<int>>, r: int, c: int)
    requires IsGrid(g) && 0 <= r < 9 && 0 <= c < 9 && g[r][c] == 0
    ensures !IsSolved(g)
  {
    ZeroOrRepeatFails(g[r], c, c);
    assert !CheckRow(g, r);
  }

  /** A grid with a value repeated in a row, a column or a square is not solved. */
  lemma RepeatNotSolved(g: seq<seq<int>>, r1: int, c1: int, r2: int, c2: int)
    requires IsGrid(g) && 0 <= r1 < 9 && 0 <= c1 < 9 && 0 <= r2 < 9 && 0 <= c2 < 9
    requires (r1, c1) != (r2, c2) && g[r1][c1] == g[r2][c2]
    requires r1 == r2 || c1 == c2 || (r1 / 3 == r2 / 3 && c1 / 3 == c2 / 3)
    ensures !IsSolved(g)
  {
    if r1 == r2 {
      ZeroOrRepeatFails(g[r1], c1, c2);
      assert !CheckRow(g, r1);
    } else if c1 == c2 {
      var col := Column(g, c1);
      assert col[r1] == g[r1][c1] && col[r2] == g[r2][c2];
      ZeroOrRepeatFails(col, r1, r2);
      assert !CheckColumn(g, c1);
    } else {
      SquareRepeatFails(g, r1, c1, r2, c2);
    }
  }

  lemma SquareRepeatFails(g: seq<seq<int>>, r1: int, c1: int, r2: int, c2: int)
    requires IsGrid(g) && 0 <= r1 < 9 && 0 <= c1 < 9 && 0 <= r2 < 9 && 0 <= c2 < 9
    requires (r1, c1) != (r2, c2) && g[r1][c1] == g[r2][c2]
    requires r1 / 3 == r2 / 3 && c1 / 3 == c2 / 3
    ensures 0 <= r1 / 3 < 3 && 0 <= c1 / 3 < 3 && !CheckSquare(g, r1 / 3, c1 / 3)
  {
    var row, column := r1 / 3, c1 / 3;
    var sq := Square(g, row, column);
    SquareIndex(g, row, column, r1, c1);
    SquareIndex(g, row, column, r2, c2);
    var i, j := 3 * (r1 % 3) + c1 % 3, 3 * (r2 % 3) + c2 % 3;
    assert i != j by {
      assert i / 3 == r1 % 3 && i % 3 == c1 % 3;
      assert j / 3 == r2 % 3 && j % 3 == c2 % 3;
    }
    ZeroOrRepeatFails(sq, i, j);
  }

  /** Cell `(r, c)` of square `(row, column)` sits at position `3 * (r % 3) + c % 3` of it. */
  lemma SquareIndex(g: seq<seq<int>>, row: int, column: int, r: int, c: int)
    requires IsGrid(g) && 0 <= r < 9 && 0 <= c < 9 && row == r / 3 && column == c / 3
    ensures 0 <= 3 * (r % 3) + c % 3 < 9 && Square(g, row, column)[3 * (r % 3) + c % 3] == g[r][c]
  {
    assert 3 * row + r % 3 == r && 3 * column + c % 3 == c;
  }

  /** `SudokuGame`: the start grid, the grid being played and whether the game was won. */
  class SudokuGame {
    var startPuzzle: seq<seq<int>>
    var puzzle: seq<seq<int>>
    var gameOver: bool

    ghost predicate Valid()
      reads this
    {
      IsGrid(startPuzzle)
    }

    /** Stores the parsed start grid; the game begins with `Start`. */
    constructor(start: seq<seq<int>>)
      requires IsGrid(start)
      ensures Valid() && startPuzzle == start && puzzle == [] && !gameOver
    {
      startPuzzle := start;
      puzzle := [];
      gameOver := false;
    }

    /** `start`: the grid being played becomes a cell-by-cell copy of the start grid. */
    method Start()
      requires Valid()
      modifies this
      ensures Valid() && IsGrid(puzzle)
      ensures puzzle == startPuzzle && !gameOver
      ensures startPuzzle == old(startPuzzle)
    {
      gameOver := false;
      puzzle := [];
      for i := 0 to 9
        invariant |puzzle| == i && startPuzzle == old(startPuzzle) && !gameOver
        invariant forall r :: 0 <= r < i ==> puzzle[r] == startPuzzle[r]
      {
        puzzle := puzzle + [[]];
        for j := 0 to 9
          invariant |puzzle| == i + 1 && startPuzzle == old(startPuzzle) && !gameOver
          invariant forall r :: 0 <= r < i ==> puzzle[r] == startPuzzle[r]
          invariant puzzle[i] == startPuzzle[i][..j]
        {
          assert startPuzzle[i][..j + 1] == startPuzzle[i][..j] + [startPuzzle[i][j]];
          puzzle := puzzle[i := puzzle[i] + [startPuzzle[i][j]]];
        }
        assert startPuzzle[i][..9] == startPuzzle[i];
      }
      assert puzzle == startPuzzle;
    }

    /**
     * `check_win`: checks the rows, then the columns, then the squares, and
     * returns at the first block that fails; only a win sets `gameOver`.
     */
    method CheckWin() returns (won: bool)
      requires IsGrid(puzzle)
      modifies this`gameOver
      ensures won <==> IsSolved(puzzle)
      ensures gameOver == (won || old(gameOver))
    {
      for row := 0 to 9
        invariant forall r :: 0 <= r < row ==> CheckRow(puzzle, r)
      {
        if !CheckRow(puzzle, row) {
          return false;
        }
      }
      for column := 0 to 9
        invariant forall c :: 0 <= c < column ==> CheckColumn(puzzle, c)
      {
        if !CheckColumn(puzzle, column) {
          return false;
        }
      }
      for row := 0 to 3
        invariant forall r, c :: 0 <= r < row && 0 <= c < 3 ==> CheckSquare(puzzle, r, c)
      {
        for column := 0 to 3
          invariant forall r, c :: (0 <= r < row && 0 <= c < 3) || (r == row && 0 <= c < column) ==> CheckSquare(puzzle, r, c)
        {
          if !CheckSquare(puzzle, row, column) {
            return false;
          }
        }
      }
      gameOver := true;
      return true;
    }
  }
}
