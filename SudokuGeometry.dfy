/**
 * The 9x9 grid seen by the constraint generator: cells `(a, b)`, the three
 * kinds of all-different group, and the set of binary constraints they imply.
 * Row group `i` holds the cells `(j, i)`, column group `i` the cells `(i, j)`.
 */
module SudokuGeometry {
  import opened Collections
  import opened Combinations

  type Cell = (int, int)
  type CellPair = (Cell, Cell)

  predicate InGrid(c: Cell) {
    0 <= c.0 < 9 && 0 <= c.1 < 9
  }

  /** Both cells lie in one row group, `[(0, i), ..., (8, i)]`. */
  predicate SameRow(p: Cell, q: Cell) {
    p.1 == q.1
  }

  /** Both cells lie in one column group, `[(i, 0), ..., (i, 8)]`. */
  predicate SameColumn(p: Cell, q: Cell) {
    p.0 == q.0
  }

  /** Both cells lie in one 3x3 box. */
  predicate SameBox(p: Cell, q: Cell) {
    p.0 / 3 == q.0 / 3 && p.1 / 3 == q.1 / 3
  }

  /** The two cells share a row, a column or a box, so they must differ. */
  predicate Peers(p: Cell, q: Cell) {
    SameRow(p, q) || SameColumn(p, q) || SameBox(p, q)
  }

  /** A constraint between two peer cells of the grid, oriented in coordinate order. */
  predicate IsPeerPair(x: CellPair) {
    InGrid(x.0) && InGrid(x.1) && Before(x.0, x.1) && Peers(x.0, x.1)
  }

  /** Every pair of distinct peer cells, once, first cell before second. */
  function PeerPairs(): set<CellPair> {
    set a, b, c, d | 0 <= a < 9 && 0 <= b < 9 && 0 <= c < 9 && 0 <= d < 9 && IsPeerPair(((a, b), (c, d)))
      :: ((a, b), (c, d))
  }

  lemma PeerPairsMembers()
    ensures forall x :: x in PeerPairs() <==> IsPeerPair(x)
  {
    forall x | IsPeerPair(x) ensures x in PeerPairs() {
      assert x == ((x.0.0, x.0.1), (x.1.0, x.1.1));
    }
  }

  /**
   * No constraint relates a cell to itself, and each unordered pair of
   * distinct peer cells is present in exactly one orientation.
   */
  lemma PeerPairsOnce()
    ensures forall x :: x in PeerPairs() ==> x.0 != x.1 && Peers(x.0, x.1)
    ensures forall p, q :: InGrid(p) && InGrid(q) && p != q && Peers(p, q) ==>
      ((p, q) in PeerPairs() <==> (q, p) !in PeerPairs())
  {
    PeerPairsMembers();
  }

  // ----- Counting: |PeerPairs()| == 810 -----

  /** Pairs of one row group: second coordinates equal, first increasing. */
  predicate RowShape(x: CellPair) {
    0 <= x.0.1 < 9 && x.1.1 == x.0.1 && 0 <= x.0.0 < x.1.0 < 9
  }

  /** Pairs of one column group: first coordinates equal, second increasing. */
  predicate ColumnShape(x: CellPair) {
    0 <= x.0.0 < 9 && x.1.0 == x.0.0 && 0 <= x.0.1 < x.1.1 < 9
  }

  /** Pairs that share only a box: both coordinates differ. */
  predicate BoxOnlyShape(x: CellPair) {
    InGrid(x.0) && InGrid(x.1) && x.0.0 < x.1.0 && x.0.1 != x.1.1 && SameBox(x.0, x.1)
  }

  lemma PeerPairShapes(x: CellPair)
    ensures IsPeerPair(x) <==> RowShape(x) || ColumnShape(x) || BoxOnlyShape(x)
    ensures !(RowShape(x) && ColumnShape(x))
    ensures !(RowShape(x) && BoxOnlyShape(x))
    ensures !(ColumnShape(x) && BoxOnlyShape(x))
  {
  }

  /**
   * Offsets `(r1, c1, r2, c2)` from a box corner of two cells of the box in
   * different rows and columns, the first in the upper row.
   */
  predicate IsBoxOffset(o: (int, int, int, int)) {
    0 <= o.0 < o.2 < 3 && 0 <= o.1 < 3 && 0 <= o.3 < 3 && o.1 != o.3
  }

  /** The `t`-th of the 18 box offsets, in lexicographic order. */
  function OffsetAt(t: int): (int, int, int, int) {
    var r1, c1, r2, e :=
      if t < 12 then 0 else 1,
      if t < 12 then t / 4 else (t - 12) / 2,
      if t < 12 then 1 + t % 4 / 2 else 2,
      t % 2;
    (r1, c1, r2, if e < c1 then e else e + 1)
  }

  /** The position of a box offset in that order. */
  function OffsetIndex(o: (int, int, int, int)): int {
    var e := if o.3 < o.1 then o.3 else o.3 - 1;
    if o.0 == 0 then 4 * o.1 + 2 * (o.2 - 1) + e else 12 + 2 * o.1 + e
  }

  /** `OffsetAt` and `OffsetIndex` are inverse bijections between 0..17 and the box offsets. */
  lemma OffsetBijection()
    ensures forall t :: 0 <= t < 18 ==> IsBoxOffset(OffsetAt(t)) && OffsetIndex(OffsetAt(t)) == t
    ensures forall o :: IsBoxOffset(o) ==> 0 <= OffsetIndex(o) < 18 && OffsetAt(OffsetIndex(o)) == o
  {
    forall t | 0 <= t < 18 ensures IsBoxOffset(OffsetAt(t)) && OffsetIndex(OffsetAt(t)) == t {
      OffsetAtIndex(t);
    }
    forall o | IsBoxOffset(o) ensures 0 <= OffsetIndex(o) < 18 && OffsetAt(OffsetIndex(o)) == o {
      OffsetIndexAt(o);
    }
  }

  lemma OffsetAtIndex(t: int)
    requires 0 <= t < 18
    ensures IsBoxOffset(OffsetAt(t)) && OffsetIndex(OffsetAt(t)) == t
  {
  }

  lemma OffsetIndexAt(o: (int, int, int, int))
    requires IsBoxOffset(o)
    ensures 0 <= OffsetIndex(o) < 18 && OffsetAt(OffsetIndex(o)) == o
  {
  }

  /** `ip` lists the 36 index pairs of a group of nine, each once. */
  ghost predicate IsNinePairs(ip: seq<IndexPair>) {
    |ip| == 36 && NoDup(ip) && forall p :: p in ip <==> p.0 < p.1 < 9
  }

  /** The row-group pairs, row by row. */
  function RowWitness(ip: seq<IndexPair>): seq<CellPair>
    requires |ip| == 36
  {
    seq(324, t requires 0 <= t < 324 => ((ip[t % 36].0, t / 36), (ip[t % 36].1, t / 36)))
  }

  /** The column-group pairs, column by column. */
  function ColumnWitness(ip: seq<IndexPair>): seq<CellPair>
    requires |ip| == 36
  {
    seq(324, t requires 0 <= t < 324 => ((t / 36, ip[t % 36].0), (t / 36, ip[t % 36].1)))
  }

  /** The pair of box `b` (numbered row-major) with offsets `o` from its top-left corner. */
  function BoxPairAt(b: int, o: (int, int, int, int)): CellPair {
    var j, k := 3 * (b / 3), 3 * (b % 3);
    ((j + o.0, k + o.1), (j + o.2, k + o.3))
  }

  /** The box-only pairs, box by box. */
  function BoxWitness(): seq<CellPair> {
    seq(162, t requires 0 <= t < 162 => BoxPairAt(t / 18, OffsetAt(t % 18)))
  }

  lemma RowWitnessDistinct(ip: seq<IndexPair>)
    requires IsNinePairs(ip)
    ensures NoDup(RowWitness(ip))
  {
    var w := RowWitness(ip);
    forall s, t | 0 <= s < t < 324 ensures w[s] != w[t] {
      if s / 36 == t / 36 {
        assert s % 36 < t % 36;
        assert ip[s % 36] != ip[t % 36];
      }
    }
  }

  lemma RowWitnessMembers(ip: seq<IndexPair>)
    requires IsNinePairs(ip)
    ensures forall x :: x in RowWitness(ip) <==> RowShape(x)
  {
    var w := RowWitness(ip);
    forall t | 0 <= t < 324 ensures RowShape(w[t]) {
      assert ip[t % 36] in ip;
    }
    forall x | RowShape(x) ensures x in w {
      assert (x.0.0, x.1.0) in ip;
      var u :| 0 <= u < 36 && ip[u] == (x.0.0, x.1.0);
      var t := 36 * x.0.1 + u;
      assert w[t] == x;
    }
  }

  lemma ColumnWitnessDistinct(ip: seq<IndexPair>)
    requires IsNinePairs(ip)
    ensures NoDup(ColumnWitness(ip))
  {
    var w := ColumnWitness(ip);
    forall s, t | 0 <= s < t < 324 ensures w[s] != w[t] {
      if s / 36 == t / 36 {
        assert s % 36 < t % 36;
        assert ip[s % 36] != ip[t % 36];
      }
    }
  }

  lemma ColumnWitnessMembers(ip: seq<IndexPair>)
    requires IsNinePairs(ip)
    ensures forall x :: x in ColumnWitness(ip) <==> ColumnShape(x)
  {
    var w := ColumnWitness(ip);
    forall t | 0 <= t < 324 ensures ColumnShape(w[t]) {
      assert ip[t % 36] in ip;
    }
    forall x | ColumnShape(x) ensures x in w {
      assert (x.0.1, x.1.1) in ip;
      var u :| 0 <= u < 36 && ip[u] == (x.0.1, x.1.1);
      var t := 36 * x.0.0 + u;
      assert w[t] == x;
    }
  }

  /** `3 * q + r` with `0 <= r < 3` determines `q` and `r`. */
  lemma DivModThree(q: int, r: int)
    requires 0 <= r < 3
    ensures (3 * q + r) / 3 == q && (3 * q + r) % 3 == r
  {
  }

  lemma BoxWitnessDistinct()
    ensures NoDup(BoxWitness())
  {
    var w := BoxWitness();
    OffsetBijection();
    forall s, t | 0 <= s < t < 162 ensures w[s] != w[t] {
      var bs, bt := s / 18, t / 18;
      var os, ot := OffsetAt(s % 18), OffsetAt(t % 18);
      if bs != bt {
        assert bs / 3 != bt / 3 || bs % 3 != bt % 3;
        DivModThree(bs / 3, os.0);
        DivModThree(bt / 3, ot.0);
        DivModThree(bs % 3, os.1);
        DivModThree(bt % 3, ot.1);
        assert w[s].0 != w[t].0;
      } else {
        assert s % 18 != t % 18;
        assert OffsetIndex(os) != OffsetIndex(ot);
      }
    }
  }

  /** One box-only pair: offset `o` of box `b`. */
  lemma BoxPairAtShape(b: int, o: (int, int, int, int))
    requires 0 <= b < 9 && IsBoxOffset(o)
    ensures BoxOnlyShape(BoxPairAt(b, o))
  {
    DivModThree(b / 3, o.0);
    DivModThree(b / 3, o.2);
    DivModThree(b % 3, o.1);
    DivModThree(b % 3, o.3);
  }

  /** Every box-only pair is the pair of its box at its offsets. */
  lemma BoxPairAtOf(x: CellPair)
    requires BoxOnlyShape(x)
    ensures IsBoxOffset((x.0.0 % 3, x.0.1 % 3, x.1.0 % 3, x.1.1 % 3))
    ensures BoxPairAt(3 * (x.0.0 / 3) + x.0.1 / 3, (x.0.0 % 3, x.0.1 % 3, x.1.0 % 3, x.1.1 % 3)) == x
  {
    DivModThree(x.0.0 / 3, x.0.1 / 3);
  }

  lemma BoxWitnessMembers()
    ensures forall x :: x in BoxWitness() <==> BoxOnlyShape(x)
  {
    var w := BoxWitness();
    forall t | 0 <= t < 162 ensures BoxOnlyShape(w[t]) {
      OffsetAtIndex(t % 18);
      BoxPairAtShape(t / 18, OffsetAt(t % 18));
    }
    forall x | BoxOnlyShape(x) ensures x in w {
      BoxWitnessCovers(x);
    }
  }

  lemma BoxWitnessCovers(x: CellPair)
    requires BoxOnlyShape(x)
    ensures x in BoxWitness()
  {
    BoxPairAtOf(x);
    var o := (x.0.0 % 3, x.0.1 % 3, x.1.0 % 3, x.1.1 % 3);
    OffsetIndexAt(o);
    var u := OffsetIndex(o);
    var box := 3 * (x.0.0 / 3) + x.0.1 / 3;
    var t := 18 * box + u;
    assert t / 18 == box && t % 18 == u;
    assert BoxWitness()[t] == x;
  }

  /** The deduplicated Sudoku constraint set has (9 choose 2) * 18 + ((9 choose 2) - (3 choose 2) * 6) * 9 = 810 pairs. */
  lemma PeerPairsCount()
    ensures |PeerPairs()| == 810
  {
    var ip := Combination(9).value;
    var rows, columns, boxes := RowWitness(ip), ColumnWitness(ip), BoxWitness();
    RowWitnessDistinct(ip);
    RowWitnessMembers(ip);
    ColumnWitnessDistinct(ip);
    ColumnWitnessMembers(ip);
    BoxWitnessDistinct();
    BoxWitnessMembers();
    forall x | x in rows ensures x !in columns { PeerPairShapes(x); }
    NoDupConcat(rows, columns);
    forall x | x in rows + columns ensures x !in boxes { PeerPairShapes(x); }
    NoDupConcat(rows + columns, boxes);
    var all := rows + columns + boxes;
    PeerPairsMembers();
    assert Elements(all) == PeerPairs() by {
      forall x ensures x in all <==> IsPeerPair(x) {
        PeerPairShapes(x);
      }
    }
    DistinctCard(all);
  }
}
