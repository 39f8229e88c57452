/**
 * The constraint generator of the Sudoku solver: the 27 all-different groups
 * (9 boxes, 9 rows, 9 columns) and their decomposition into binary
 * "must differ" constraints, deduplicated into a set.
 */
module SudokuCsp {
  import opened Wrappers
  import opened Collections
  import opened Combinations
  import opened SudokuGeometry

  /** Row group `i`: `[(0, i), (1, i), ..., (8, i)]`. */
  function RowGroup(i: int): seq<Cell> {
    seq(9, t => (t, i))
  }

  /** Column group `i`: `[(i, 0), (i, 1), ..., (i, 8)]`. */
  function ColumnGroup(i: int): seq<Cell> {
    seq(9, t => (i, t))
  }

  /** The box with top-left corner `(j, k)`, its cells `(l, m)` in lexicographic order. */
  function BoxGroup(j: int, k: int): seq<Cell> {
    seq(9, t => (j + t / 3, k + t % 3))
  }

  /**
   * The order in which the interpreter iterates the set literal `{0, 3, 6}`:
   * the three box corners, each once.
   */
  predicate IsCornerOrder(corners: seq<int>) {
    && |corners| == 3
    && (forall a :: 0 <= a < 3 ==> corners[a] in {0, 3, 6})
    && corners[0] != corners[1] && corners[0] != corners[2] && corners[1] != corners[2]
  }

  /** The nine boxes, numbered while iterating the corners for `j` and, inside, for `k`. */
  function Boxes(corners: seq<int>): seq<seq<Cell>>
    requires IsCornerOrder(corners)
  {
    seq(9, b requires 0 <= b < 9 => BoxGroup(corners[b / 3], corners[b % 3]))
  }

  /** The groups in the order `generate_all_constraints` returns them: boxes, rows, columns. */
  function AllGroups(corners: seq<int>): seq<seq<Cell>>
    requires IsCornerOrder(corners)
  {
    Boxes(corners) + seq(9, i => RowGroup(i)) + seq(9, i => ColumnGroup(i))
  }

  /** Appending `(i, j)` to a column and `(j, i)` to a row extends their prefixes by one. */
  lemma LineGroupStep(i: int, j: int)
    requires 0 <= j < 9
    ensures ColumnGroup(i)[..j + 1] == ColumnGroup(i)[..j] + [(i, j)]
    ensures RowGroup(i)[..j + 1] == RowGroup(i)[..j] + [(j, i)]
  {
  }

  /** Appending `(l, m)` extends the prefix of the box at `(j, k)` by one. */
  lemma BoxGroupStep(j: int, k: int, l: int, m: int)
    requires j <= l < j + 3 && k <= m < k + 3
    ensures BoxGroup(j, k)[..3 * (l - j) + (m - k) + 1] == BoxGroup(j, k)[..3 * (l - j) + (m - k)] + [(l, m)]
  {
    var n := 3 * (l - j) + (m - k);
    assert n / 3 == l - j && n % 3 == m - k;
  }

  /** The box built for the corners at positions `a` and `c` is box `3 * a + c`. */
  lemma BoxAt(corners: seq<int>, a: int, c: int)
    requires IsCornerOrder(corners) && 0 <= a < 3 && 0 <= c < 3
    ensures Boxes(corners)[3 * a + c] == BoxGroup(corners[a], corners[c])
  {
    DivModThree(a, c);
  }

  /** Builds the 27 all-different groups with nested loops that append cell by cell. */
  method GenerateAllConstraints(corners: seq<int>) returns (groups: seq<seq<Cell>>)
    requires IsCornerOrder(corners)
    ensures groups == AllGroups(corners)
  {
    var rows: seq<seq<Cell>> := [];
    var columns: seq<seq<Cell>> := [];
    var boxes: seq<seq<Cell>> := [];
    for i := 0 to 9
      invariant |rows| == |columns| == |boxes| == i
      invariant forall t :: 0 <= t < i ==> rows[t] == [] && columns[t] == [] && boxes[t] == []
    {
      rows := rows + [[]];
      columns := columns + [[]];
      boxes := boxes + [[]];
    }
    for i := 0 to 9
      invariant |rows| == |columns| == 9
      invariant forall t :: 0 <= t < i ==> rows[t] == RowGroup(t) && columns[t] == ColumnGroup(t)
      invariant forall t :: i <= t < 9 ==> rows[t] == [] && columns[t] == []
    {
      ghost var doneRows, doneColumns := rows, columns;
      for j := 0 to 9
        invariant columns == doneColumns[i := ColumnGroup(i)[..j]]
        invariant rows == doneRows[i := RowGroup(i)[..j]]
      {
        LineGroupStep(i, j);
        columns := columns[i := columns[i] + [(i, j)]];
        rows := rows[i := rows[i] + [(j, i)]];
      }
      assert columns[i] == ColumnGroup(i) && rows[i] == RowGroup(i);
    }
    var index := 0;
    for a := 0 to 3
      invariant index == 3 * a && |boxes| == 9
      invariant forall b :: 0 <= b < index ==> boxes[b] == Boxes(corners)[b]
      invariant forall b :: index <= b < 9 ==> boxes[b] == []
    {
      var j := corners[a];
      for c := 0 to 3
        invariant index == 3 * a + c && |boxes| == 9
        invariant forall b :: 0 <= b < index ==> boxes[b] == Boxes(corners)[b]
        invariant forall b :: index <= b < 9 ==> boxes[b] == []
      {
        var k := corners[c];
        ghost var done := boxes;
        for l := j to j + 3
          invariant boxes == done[index := BoxGroup(j, k)[..3 * (l - j)]]
        {
          for m := k to k + 3
            invariant boxes == done[index := BoxGroup(j, k)[..3 * (l - j) + (m - k)]]
          {
            BoxGroupStep(j, k, l, m);
            boxes := boxes[index := boxes[index] + [(l, m)]];
          }
        }
        BoxAt(corners, a, c);
        index := index + 1;
      }
    }
    groups := boxes + rows + columns;
  }

  /**
   * `alldiff_as_binary`: the pair `(elements[i], elements[j])` for every index
   * pair `i < j` from `combination(n, 2)`, in that order; groups of fewer
   * than two elements make the index computation raise. The elements are
   * cells: the final conversion turns each element into a tuple, which works
   * only for elements that are themselves sequences.
   */
  function AlldiffAsBinary(elements: seq<Cell>): (r: Option<seq<CellPair>>)
    ensures r.Some? <==> |elements| >= 2
    ensures r.Some? ==> |r.value| == |elements| * (|elements| - 1) / 2
  {
    match Combination(|elements|)
    case None => None
    case Some(ip) =>
      Some(seq(|ip|, t requires 0 <= t < |ip| => (elements[ip[t].0], elements[ip[t].1])))
  }

  /**
   * The pairs of a group of two or more: exactly the pairs of elements at
   * two positions `i < j`, listed in the order of `combination(n, 2)`, and
   * without repetition when the group has none.
   */
  lemma AlldiffAsBinaryPairs(elements: seq<Cell>)
    requires |elements| >= 2
    ensures forall x :: x in AlldiffAsBinary(elements).value <==>
      exists i, j :: 0 <= i < j < |elements| && x == (elements[i], elements[j])
    ensures NoDup(elements) ==> NoDup(AlldiffAsBinary(elements).value)
    ensures var ip := Combination(|elements|).value; var r := AlldiffAsBinary(elements).value;
      |r| == |ip| && forall t :: 0 <= t < |ip| ==> r[t] == (elements[ip[t].0], elements[ip[t].1])
  {
    var ip := Combination(|elements|).value;
    AlldiffFacts(elements, ip, AlldiffAsBinary(elements).value);
  }

  lemma AlldiffFacts<T>(elements: seq<T>, ip: seq<IndexPair>, pairs: seq<(T, T)>)
    requires forall p :: p in ip <==> p.0 < p.1 < |elements|
    requires NoDup(ip)
    requires |pairs| == |ip| && forall t :: 0 <= t < |ip| ==> pairs[t] == (elements[ip[t].0], elements[ip[t].1])
    ensures forall x :: x in pairs <==> exists i, j :: 0 <= i < j < |elements| && x == (elements[i], elements[j])
    ensures NoDup(elements) ==> NoDup(pairs)
  {
    forall t | 0 <= t < |ip| ensures ip[t].0 < ip[t].1 < |elements| {
      assert ip[t] in ip;
    }
    forall x | (exists i, j :: 0 <= i < j < |elements| && x == (elements[i], elements[j])) ensures x in pairs {
      var i, j :| 0 <= i < j < |elements| && x == (elements[i], elements[j]);
      assert (i, j) in ip;
      var u :| 0 <= u < |ip| && ip[u] == (i, j);
      assert pairs[u] == x;
    }
    if NoDup(elements) {
      forall s, t | 0 <= s < t < |pairs| ensures pairs[s] != pairs[t] {
        assert ip[s] != ip[t];
        assert ip[s] in ip && ip[t] in ip;
      }
    }
  }

  // ----- Properties of the groups -----

  /** A cell lies in the box with corner `(j, k)` exactly when it is within three steps right of and below it. */
  lemma BoxGroupMembers(j: int, k: int, c: Cell)
    ensures c in BoxGroup(j, k) <==> j <= c.0 < j + 3 && k <= c.1 < k + 3
  {
    if j <= c.0 < j + 3 && k <= c.1 < k + 3 {
      var t := 3 * (c.0 - j) + (c.1 - k);
      assert BoxGroup(j, k)[t] == c;
    }
  }

  /** Where the corner value `v` occurs in the iteration order. */
  function CornerPos(corners: seq<int>, v: int): (a: int)
    requires IsCornerOrder(corners) && v in {0, 3, 6}
    ensures 0 <= a < 3 && corners[a] == v
  {
    if corners[0] == v then 0 else if corners[1] == v then 1 else 2
  }

  /** Group `g` of the result: a box, a row or a column. */
  lemma GroupAt(corners: seq<int>, g: int)
    requires IsCornerOrder(corners) && 0 <= g < 27
    ensures |AllGroups(corners)| == 27
    ensures AllGroups(corners)[g] ==
      if g < 9 then BoxGroup(corners[g / 3], corners[g % 3])
      else if g < 18 then RowGroup(g - 9)
      else ColumnGroup(g - 18)
  {
  }

  /** The cells of a group: in the grid, in strictly increasing order, pairwise peers. */
  ghost predicate WellOrderedGroup(group: seq<Cell>) {
    && |group| == 9
    && (forall t :: 0 <= t < 9 ==> InGrid(group[t]))
    && (forall s, t :: 0 <= s < t < 9 ==> Before(group[s], group[t]) && Peers(group[s], group[t]))
  }

  /** A box lists its nine cells in lexicographic order, all within one 3x3 block of the grid. */
  lemma BoxGroupWellOrdered(j: int, k: int)
    requires j in {0, 3, 6} && k in {0, 3, 6}
    ensures WellOrderedGroup(BoxGroup(j, k))
    ensures forall s, t :: 0 <= s < t < 9 ==> SameBox(BoxGroup(j, k)[s], BoxGroup(j, k)[t])
  {
    var box := BoxGroup(j, k);
    forall s, t | 0 <= s < t < 9 ensures Before(box[s], box[t]) && SameBox(box[s], box[t]) {
      BoxCellsOrdered(j, k, s, t);
    }
  }

  lemma BoxCellsOrdered(j: int, k: int, s: int, t: int)
    requires j in {0, 3, 6} && k in {0, 3, 6} && 0 <= s < t < 9
    ensures Before(BoxGroup(j, k)[s], BoxGroup(j, k)[t]) && SameBox(BoxGroup(j, k)[s], BoxGroup(j, k)[t])
  {
    assert s / 3 < t / 3 || (s / 3 == t / 3 && s % 3 < t % 3);
  }

  lemma LineGroupsWellOrdered(i: int)
    requires 0 <= i < 9
    ensures WellOrderedGroup(RowGroup(i)) && WellOrderedGroup(ColumnGroup(i))
  {
  }

  lemma WellOrderedNoDup(group: seq<Cell>)
    requires WellOrderedGroup(group)
    ensures NoDup(group)
  {
    forall s, t | 0 <= s < t < |group| ensures group[s] != group[t] {
      assert Before(group[s], group[t]);
    }
  }

  /** Each group lists nine cells of the grid in strictly increasing order, pairwise peers, none twice. */
  lemma GroupWellOrdered(corners: seq<int>, g: int)
    requires IsCornerOrder(corners) && 0 <= g < 27
    ensures |AllGroups(corners)| == 27
    ensures WellOrderedGroup(AllGroups(corners)[g]) && NoDup(AllGroups(corners)[g])
  {
    GroupAt(corners, g);
    if g < 9 {
      BoxGroupWellOrdered(corners[g / 3], corners[g % 3]);
    } else if g < 18 {
      LineGroupsWellOrdered(g - 9);
    } else {
      LineGroupsWellOrdered(g - 18);
    }
    WellOrderedNoDup(AllGroups(corners)[g]);
  }

  /**
   * There are 27 groups of nine cells of the grid, each listed in strictly
   * increasing coordinate order (so without repetition), any two cells of a
   * group are peers, and rows and columns are exactly the lines of the grid.
   */
  lemma GroupsShape(corners: seq<int>)
    requires IsCornerOrder(corners)
    ensures |AllGroups(corners)| == 27
    ensures forall g :: 0 <= g < 27 ==> WellOrderedGroup(AllGroups(corners)[g]) && NoDup(AllGroups(corners)[g])
    ensures forall i, t :: 0 <= i < 9 && 0 <= t < 9 ==>
      AllGroups(corners)[9 + i][t] == (t, i) && AllGroups(corners)[18 + i][t] == (i, t)
  {
    AllGroupsWellOrdered(corners);
    LinesAreGridLines(corners);
  }

  lemma AllGroupsWellOrdered(corners: seq<int>)
    requires IsCornerOrder(corners)
    ensures |AllGroups(corners)| == 27
    ensures forall g :: 0 <= g < 27 ==> WellOrderedGroup(AllGroups(corners)[g]) && NoDup(AllGroups(corners)[g])
  {
    GroupSizes(corners);
    forall g | 0 <= g < 27 ensures WellOrderedGroup(AllGroups(corners)[g]) && NoDup(AllGroups(corners)[g]) {
      GroupWellOrdered(corners, g);
    }
  }

  lemma LinesAreGridLines(corners: seq<int>)
    requires IsCornerOrder(corners)
    ensures |AllGroups(corners)| == 27
    ensures forall i, t :: 0 <= i < 9 && 0 <= t < 9 ==>
      AllGroups(corners)[9 + i][t] == (t, i) && AllGroups(corners)[18 + i][t] == (i, t)
  {
    GroupSizes(corners);
    forall i, t | 0 <= i < 9 && 0 <= t < 9
      ensures AllGroups(corners)[9 + i][t] == (t, i) && AllGroups(corners)[18 + i][t] == (i, t)
    {
      GroupAt(corners, 9 + i);
      GroupAt(corners, 18 + i);
    }
  }

  /** The nine box groups are the 3x3 blocks with top-left corners in {0, 3, 6} x {0, 3, 6}. */
  lemma BoxesAreBlocks(corners: seq<int>)
    requires IsCornerOrder(corners)
    ensures (set b | 0 <= b < 9 :: AllGroups(corners)[b]) == (set j, k | j in {0, 3, 6} && k in {0, 3, 6} :: BoxGroup(j, k))
  {
    var groups := AllGroups(corners);
    forall j, k | j in {0, 3, 6} && k in {0, 3, 6} ensures BoxGroup(j, k) in (set b | 0 <= b < 9 :: groups[b]) {
      var pj, pk := CornerPos(corners, j), CornerPos(corners, k);
      var b := 3 * pj + pk;
      assert b / 3 == pj && b % 3 == pk;
      GroupAt(corners, b);
      assert groups[b] == BoxGroup(j, k);
    }
    forall b | 0 <= b < 9 ensures groups[b] in (set j, k | j in {0, 3, 6} && k in {0, 3, 6} :: BoxGroup(j, k)) {
      GroupAt(corners, b);
      assert corners[b / 3] in {0, 3, 6} && corners[b % 3] in {0, 3, 6};
    }
  }

  /** Every cell of the grid lies in exactly one box group. */
  lemma BoxesPartitionGrid(corners: seq<int>)
    requires IsCornerOrder(corners)
    ensures forall c :: InGrid(c) ==> exists b :: 0 <= b < 9 && c in AllGroups(corners)[b]
    ensures forall c, b1, b2 :: 0 <= b1 < 9 && 0 <= b2 < 9 && c in AllGroups(corners)[b1] && c in AllGroups(corners)[b2] ==> b1 == b2
  {
    forall c | InGrid(c) ensures exists b :: 0 <= b < 9 && c in AllGroups(corners)[b] {
      BoxOfCell(corners, c);
    }
    forall c, b1, b2 | 0 <= b1 < 9 && 0 <= b2 < 9 && c in AllGroups(corners)[b1] && c in AllGroups(corners)[b2]
      ensures b1 == b2
    {
      BoxCellCorner(corners, b1, c);
      BoxCellCorner(corners, b2, c);
    }
  }

  /** The box that holds a cell of the grid. */
  lemma BoxOfCell(corners: seq<int>, c: Cell)
    requires IsCornerOrder(corners) && InGrid(c)
    ensures var b := 3 * CornerPos(corners, 3 * (c.0 / 3)) + CornerPos(corners, 3 * (c.1 / 3));
      0 <= b < 9 && c in AllGroups(corners)[b]
  {
    var j, k := 3 * (c.0 / 3), 3 * (c.1 / 3);
    assert j in {0, 3, 6} && k in {0, 3, 6};
    var pj, pk := CornerPos(corners, j), CornerPos(corners, k);
    var b := 3 * pj + pk;
    assert b / 3 == pj && b % 3 == pk;
    BoxGroupMembers(j, k, c);
    GroupAt(corners, b);
    assert AllGroups(corners)[b] == BoxGroup(j, k);
  }

  /** A cell of box `b` determines `b`: its corner is the cell's coordinates rounded down to multiples of 3. */
  lemma BoxCellCorner(corners: seq<int>, b: int, c: Cell)
    requires IsCornerOrder(corners) && 0 <= b < 9 && c in AllGroups(corners)[b]
    ensures b == 3 * CornerPos(corners, 3 * (c.0 / 3)) + CornerPos(corners, 3 * (c.1 / 3))
  {
    var q, r := b / 3, b % 3;
    assert b == 3 * q + r;
    GroupAt(corners, b);
    var j, k := corners[q], corners[r];
    BoxGroupMembers(j, k, c);
    CornerOfCoordinate(j, c.0);
    CornerOfCoordinate(k, c.1);
    CornerPosOf(corners, q);
    CornerPosOf(corners, r);
  }

  /** A coordinate within three steps of a corner rounds down to that corner. */
  lemma CornerOfCoordinate(j: int, x: int)
    requires j in {0, 3, 6} && j <= x < j + 3
    ensures j == 3 * (x / 3)
  {
  }

  /** The corner at position `a` of the iteration order is found at position `a`. */
  lemma CornerPosOf(corners: seq<int>, a: int)
    requires IsCornerOrder(corners) && 0 <= a < 3
    ensures CornerPos(corners, corners[a]) == a
  {
  }

  // ----- Binary constraints -----

  /** All 27 groups hold nine cells. */
  lemma GroupSizes(corners: seq<int>)
    requires IsCornerOrder(corners)
    ensures |AllGroups(corners)| == 27
    ensures forall g :: 0 <= g < 27 ==> |AllGroups(corners)[g]| == 9
  {
    forall g | 0 <= g < 27 ensures |AllGroups(corners)[g]| == 9 {
      GroupAt(corners, g);
    }
  }

  /** The pair lists of the groups, one per group, in the order of the groups. */
  function GroupPairs(groups: seq<seq<Cell>>): (r: seq<seq<CellPair>>)
    requires forall g :: 0 <= g < |groups| ==> |groups[g]| >= 2
  {
    seq(|groups|, g requires 0 <= g < |groups| => AlldiffAsBinary(groups[g]).value)
  }

  /** The list `binaries` before deduplication: the pairs of every group, group after group. */
  function RawBinaries(corners: seq<int>): seq<CellPair>
    requires IsCornerOrder(corners)
  {
    GroupSizes(corners);
    Flatten(GroupPairs(AllGroups(corners)))
  }

  /** The 27 groups give 27 * 36 = 972 pairs before deduplication. */
  lemma RawBinariesCount(corners: seq<int>)
    requires IsCornerOrder(corners)
    ensures |RawBinaries(corners)| == 972
  {
    GroupSizes(corners);
    FlattenLength(GroupPairs(AllGroups(corners)), 36);
  }

  /** Every pair produced by a group is a constraint between two peer cells, first cell first. */
  lemma GroupPairsArePeerPairs(corners: seq<int>, g: int, x: CellPair)
    requires IsCornerOrder(corners) && 0 <= g < 27
    requires |AllGroups(corners)| == 27 && |AllGroups(corners)[g]| >= 2
    requires x in AlldiffAsBinary(AllGroups(corners)[g]).value
    ensures IsPeerPair(x)
  {
    var group := AllGroups(corners)[g];
    GroupWellOrdered(corners, g);
    AlldiffAsBinaryPairs(group);
    var i, j :| 0 <= i < j < |group| && x == (group[i], group[j]);
  }

  /** The pair of cells at positions `i < j` of a group is one of the group's pairs. */
  lemma PairOfGroup(group: seq<Cell>, i: int, j: int)
    requires 0 <= i < j < |group|
    ensures (group[i], group[j]) in AlldiffAsBinary(group).value
  {
    AlldiffAsBinaryPairs(group);
  }

  /** Every constraint between peer cells is produced by a row, a column or a box group. */
  lemma PeerPairFromGroup(corners: seq<int>, x: CellPair) returns (g: int)
    requires IsCornerOrder(corners) && IsPeerPair(x)
    ensures |AllGroups(corners)| == 27 && 0 <= g < 27
    ensures x in AlldiffAsBinary(AllGroups(corners)[g]).value
  {
    var a, b, c, d := x.0.0, x.0.1, x.1.0, x.1.1;
    if b == d {
      g := 9 + b;
      GroupAt(corners, g);
      PairOfGroup(AllGroups(corners)[g], a, c);
    } else if a == c {
      g := 18 + a;
      GroupAt(corners, g);
      PairOfGroup(AllGroups(corners)[g], b, d);
    } else {
      g := BoxPairGroup(corners, x);
    }
  }

  /** Cell `(l, m)` sits at position `3 * (l % 3) + m % 3` of its box. */
  lemma BoxCellIndex(l: int, m: int)
    requires 0 <= l && 0 <= m
    ensures 0 <= 3 * (l % 3) + m % 3 < 9 && BoxGroup(3 * (l / 3), 3 * (m / 3))[3 * (l % 3) + m % 3] == (l, m)
  {
    DivModThree(l % 3, m % 3);
  }

  /** The position of the box with corner `(j, k)` in the result. */
  lemma BoxIndex(corners: seq<int>, j: int, k: int) returns (g: int)
    requires IsCornerOrder(corners) && j in {0, 3, 6} && k in {0, 3, 6}
    ensures |AllGroups(corners)| == 27 && 0 <= g < 9 && AllGroups(corners)[g] == BoxGroup(j, k)
  {
    var pj, pk := CornerPos(corners, j), CornerPos(corners, k);
    g := 3 * pj + pk;
    DivModThree(pj, pk);
    GroupAt(corners, g);
  }

  /** A constraint between two cells of one box that share neither row nor column comes from that box. */
  lemma BoxPairGroup(corners: seq<int>, x: CellPair) returns (g: int)
    requires IsCornerOrder(corners) && IsPeerPair(x) && x.0.0 != x.1.0 && x.0.1 != x.1.1
    ensures |AllGroups(corners)| == 27 && 0 <= g < 27
    ensures x in AlldiffAsBinary(AllGroups(corners)[g]).value
  {
    var a, b, c, d := x.0.0, x.0.1, x.1.0, x.1.1;
    assert SameBox(x.0, x.1) && a < c;
    var j, k := 3 * (a / 3), 3 * (b / 3);
    assert j in {0, 3, 6} && k in {0, 3, 6};
    g := BoxIndex(corners, j, k);
    var s, t := BoxPositions(a, b, c, d);
    PairOfGroup(AllGroups(corners)[g], s, t);
  }

  /** Two cells of one box, the first in an upper row, sit at increasing positions of that box. */
  lemma BoxPositions(a: int, b: int, c: int, d: int) returns (s: int, t: int)
    requires 0 <= a < c && 0 <= b && 0 <= d && a / 3 == c / 3 && b / 3 == d / 3
    ensures 0 <= s < t < 9
    ensures BoxGroup(3 * (a / 3), 3 * (b / 3))[s] == (a, b) && BoxGroup(3 * (a / 3), 3 * (b / 3))[t] == (c, d)
  {
    BoxCellIndex(a, b);
    BoxCellIndex(c, d);
    assert a % 3 < c % 3;
    s, t := 3 * (a % 3) + b % 3, 3 * (c % 3) + d % 3;
  }

  /** Every pair in the list is a constraint between peer cells. */
  lemma RawBinaryIsPeerPair(corners: seq<int>, x: CellPair)
    requires IsCornerOrder(corners) && x in RawBinaries(corners)
    ensures IsPeerPair(x)
  {
    GroupSizes(corners);
    var lists := GroupPairs(AllGroups(corners));
    var g := FlattenSource(lists, x);
    assert lists[g] == AlldiffAsBinary(AllGroups(corners)[g]).value;
    GroupPairsArePeerPairs(corners, g, x);
  }

  /** Every constraint between peer cells is in the list. */
  lemma PeerPairIsRawBinary(corners: seq<int>, x: CellPair)
    requires IsCornerOrder(corners) && IsPeerPair(x)
    ensures x in RawBinaries(corners)
  {
    GroupSizes(corners);
    var lists := GroupPairs(AllGroups(corners));
    var g := PeerPairFromGroup(corners, x);
    assert lists[g] == AlldiffAsBinary(AllGroups(corners)[g]).value;
    FlattenHas(lists, g, x);
  }

  /**
   * Deduplicating the list gives exactly the constraints between peer cells:
   * a pair shared by a row (or column) and a box is listed in the same
   * orientation by both, so the copies collapse.
   */
  lemma DedupIsPeerPairs(corners: seq<int>)
    requires IsCornerOrder(corners)
    ensures Elements(RawBinaries(corners)) == PeerPairs()
  {
    PeerPairsMembers();
    forall x ensures x in RawBinaries(corners) <==> IsPeerPair(x) {
      if x in RawBinaries(corners) {
        RawBinaryIsPeerPair(corners, x);
      }
      if IsPeerPair(x) {
        PeerPairIsRawBinary(corners, x);
      }
    }
  }

  /**
   * `generate_all_binary_constraints`: concatenates the pairs of all 27 groups
   * and deduplicates them through a set, which leaves the 810 constraints
   * between peer cells.
   */
  method GenerateAllBinaryConstraints(corners: seq<int>) returns (binaries: set<CellPair>)
    requires IsCornerOrder(corners)
    ensures binaries == PeerPairs()
    ensures |binaries| == 810
  {
    var groups := GenerateAllConstraints(corners);
    GroupSizes(corners);
    ghost var lists := GroupPairs(groups);
    var raw: seq<CellPair> := [];
    for k := 0 to |groups|
      invariant raw == Flatten(lists[..k])
    {
      FlattenStep(lists, k);
      raw := raw + AlldiffAsBinary(groups[k]).value;
    }
    assert lists[..|groups|] == lists;
    binaries := Elements(raw);
    DedupCount(corners);
  }

  /** The deduplicated list is the set of the 810 constraints between peer cells. */
  lemma DedupCount(corners: seq<int>)
    requires IsCornerOrder(corners)
    ensures Elements(RawBinaries(corners)) == PeerPairs()
    ensures |Elements(RawBinaries(corners))| == 810
  {
    DedupIsPeerPairs(corners);
    PeerPairsCount();
  }
}
