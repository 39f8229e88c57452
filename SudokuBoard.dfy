/**
 * The board-file parser: nine lines of nine digits, each line stripped of
 * surrounding whitespace first, with three distinct errors.
 */
module SudokuBoard {
  import opened Wrappers

  /** The three `SudokuError` messages of the parser. */
  datatype BoardError =
    | LineLength        // a stripped line is not nine characters long
    | InvalidCharacter  // a nine-character line holds a non-digit
    | LineCount         // every line is well formed but there are not nine of them

  /** The characters Python's `str.isspace` accepts, which `str.strip()` removes. */
  predicate IsWhitespace(c: char) {
    || ('\t' <= c <= '\r')               // tab, line feed, vertical tab, form feed, carriage return
    || ('\U{1c}' <= c <= '\U{1f}')       // file, group, record and unit separators
    || c == ' ' || c == '\U{85}' || c == '\U{a0}' || c == '\U{1680}'
    || ('\U{2000}' <= c <= '\U{200a}')   // the en quad .. hair space block
    || c == '\U{2028}' || c == '\U{2029}' || c == '\U{202f}' || c == '\U{205f}' || c == '\U{3000}'
  }

  /** The index of the first non-whitespace character at or after `i`, or `|s|`. */
  function SkipLeading(s: string, i: nat): (k: nat)
    requires i <= |s|
    ensures i <= k <= |s|
    ensures forall t :: i <= t < k ==> IsWhitespace(s[t])
    ensures k < |s| ==> !IsWhitespace(s[k])
    decreases |s| - i
  {
    if i == |s| || !IsWhitespace(s[i]) then i else SkipLeading(s, i + 1)
  }

  /** The end of `s[lo..j]` with its trailing whitespace removed. */
  function SkipTrailing(s: string, lo: nat, j: nat): (k: nat)
    requires lo <= j <= |s|
    ensures lo <= k <= j
    ensures forall t :: k <= t < j ==> IsWhitespace(s[t])
    ensures k > lo ==> !IsWhitespace(s[k - 1])
    decreases j - lo
  {
    if j == lo || !IsWhitespace(s[j - 1]) then j else SkipTrailing(s, lo, j - 1)
  }

  /**
   * `str.strip()`: the slice of `s` between its leading and its trailing
   * whitespace; it neither starts nor ends with whitespace.
   */
  function Strip(s: string): (r: string)
    ensures |r| <= |s|
    ensures r != [] ==> !IsWhitespace(r[0]) && !IsWhitespace(r[|r| - 1])
    ensures (forall t :: 0 <= t < |s| ==> !IsWhitespace(s[t])) ==> r == s
  {
    var i := SkipLeading(s, 0);
    var j := SkipTrailing(s, i, |s|);
    s[i..j]
  }

  /** Stripping removes whitespace only: a whitespace-only line strips to the empty string, and the rest keeps its inner characters. */
  lemma StripRemovesOnlyWhitespace(s: string)
    ensures exists i, j :: 0 <= i <= j <= |s| && Strip(s) == s[i..j] &&
                           (forall t :: 0 <= t < i ==> IsWhitespace(s[t])) &&
                           (forall t :: j <= t < |s| ==> IsWhitespace(s[t]))
  {
    var i := SkipLeading(s, 0);
    var j := SkipTrailing(s, i, |s|);
    assert Strip(s) == s[i..j];
  }

  /** Stripping twice is stripping once. */
  lemma StripIdempotent(s: string)
    ensures Strip(Strip(s)) == Strip(s)
  {
    var r := Strip(s);
    if r != [] {
      var i := SkipLeading(r, 0);
      assert i == 0;
      var j := SkipTrailing(r, 0, |r|);
      assert j == |r|;
    }
  }

  /** The ten ASCII digits, in the order of their values. */
  const Digits: string := "0123456789"

  /** `str.isdigit`, restricted to the ASCII digits. */
  function IsDigit(c: char): (b: bool)
    ensures b <==> exists v :: 0 <= v < 10 && Digits[v] == c
  {
    if '0' <= c <= '9' then
      assert Digits[c as int - '0' as int] == c;
      true
    else
      assert forall v :: 0 <= v < 10 ==> '0' <= Digits[v] <= '9';
      false
  }

  /** `int(c)` for an ASCII digit: the value whose numeral is `c`. */
  function DigitValue(c: char): (v: int)
    requires IsDigit(c)
    ensures 0 <= v <= 9 && Digits[v] == c
  {
    c as int - '0' as int
  }

  /** A line the parser accepts: nine digits once stripped. */
  predicate IsBoardLine(line: string) {
    var s := Strip(line);
    |s| == 9 && forall t :: 0 <= t < 9 ==> IsDigit(s[t])
  }

  /** Line `k` is the first line the parser rejects. */
  predicate FirstBadLine(lines: seq<string>, k: int) {
    && 0 <= k < |lines|
    && !IsBoardLine(lines[k])
    && forall m :: 0 <= m < k ==> IsBoardLine(lines[m])
  }

  /**
   * `__create_board`: parses the lines in order, appending one row of digit
   * values per line, and raises at the first line that is not nine
   * characters long after stripping, or that holds a non-digit; only after
   * all lines are read does it check that there were nine.
   */
  method CreateBoard(lines: seq<string>) returns (r: Result<seq<seq<int>>, BoardError>)
    ensures r.Ok? <==> |lines| == 9 && forall k :: 0 <= k < |lines| ==> IsBoardLine(lines[k])
    ensures r.Ok? ==> IsDigitGrid(r.value) && forall k :: 0 <= k < 9 ==> IsRowOf(r.value[k], lines[k])
    ensures r == Err(LineLength) <==> exists k :: FirstBadLine(lines, k) && |Strip(lines[k])| != 9
    ensures r == Err(InvalidCharacter) <==> exists k :: FirstBadLine(lines, k) && |Strip(lines[k])| == 9
    ensures r == Err(LineCount) <==>
      |lines| != 9 && forall k :: 0 <= k < |lines| ==> IsBoardLine(lines[k])
  {
    var board: seq<seq<int>> := [];
    for n := 0 to |lines|
      invariant |board| == n
      invariant forall m :: 0 <= m < n ==> IsRowOf(board[m], lines[m])
    {
      var line := Strip(lines[n]);
      if |line| != 9 {
        FirstBadUnique(lines, n);
        return Err(LineLength);
      }
      ghost var done := board;
      board := board + [[]];
      for t := 0 to |line|
        invariant |board| == n + 1 && board[..n] == done
        invariant |board[n]| == t
        invariant forall u :: 0 <= u < t ==> IsDigit(line[u]) && board[n][u] == DigitValue(line[u])
      {
        if !IsDigit(line[t]) {
          FirstBadUnique(lines, n);
          return Err(InvalidCharacter);
        }
        board := board[n := board[n] + [DigitValue(line[t])]];
      }
      assert IsRowOf(board[n], lines[n]);
      assert forall m :: 0 <= m < n ==> board[m] == done[m];
    }
    if |board| != 9 {
      NoBadLine(lines);
      return Err(LineCount);
    }
    NoBadLine(lines);
    assert IsDigitGrid(board);
    return Ok(board);
  }

  /** `row` is what the parser appends for an accepted line. */
  predicate IsRowOf(row: seq<int>, line: string) {
    && IsBoardLine(line)
    && |row| == 9
    && forall t :: 0 <= t < 9 ==> row[t] == DigitValue(Strip(line)[t])
  }

  /** A line-level error names the first bad line, and there is only one first bad line. */
  lemma FirstBadUnique(lines: seq<string>, n: int)
    requires FirstBadLine(lines, n)
    ensures forall k :: FirstBadLine(lines, k) <==> k == n
  {
  }

  /** When every line is accepted there is no first bad line. */
  lemma NoBadLine(lines: seq<string>)
    requires forall k :: 0 <= k < |lines| ==> IsBoardLine(lines[k])
    ensures forall k :: !FirstBadLine(lines, k)
  {
  }

  // ----- Round trip -----

  /** A 9x9 grid of digit values 0..9, as `__create_board` returns it. */
  predicate IsDigitGrid(g: seq<seq<int>>) {
    |g| == 9 && forall k :: 0 <= k < 9 ==> |g[k]| == 9 && forall t :: 0 <= t < 9 ==> 0 <= g[k][t] <= 9
  }

  /** The line of a board file that holds row `row`. */
  function RenderRow(row: seq<int>): (line: string)
    requires |row| == 9 && forall t :: 0 <= t < 9 ==> 0 <= row[t] <= 9
    ensures |line| == 9
  {
    seq(9, t requires 0 <= t < 9 => ('0' as int + row[t]) as char)
  }

  /** The board file of a grid, one line per row. */
  function Render(g: seq<seq<int>>): (lines: seq<string>)
    requires IsDigitGrid(g)
    ensures |lines| == 9
  {
    seq(9, k requires 0 <= k < 9 => RenderRow(g[k]))
  }

  /**
   * Writing a grid out and reading it back gives the grid: every rendered
   * line is accepted and its digits are the grid's values, so
   * `CreateBoard(Render(g))` returns `Ok(g)`.
   */
  lemma RenderParses(g: seq<seq<int>>)
    requires IsDigitGrid(g)
    ensures forall k :: 0 <= k < 9 ==> IsRowOf(g[k], Render(g)[k])
  {
    forall k | 0 <= k < 9 ensures Strip(Render(g)[k]) == RenderRow(g[k]) {
      var line := RenderRow(g[k]);
      assert forall t :: 0 <= t < 9 ==> IsDigit(line[t]);
    }
  }
}
