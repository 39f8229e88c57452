/**
 * The generic constraint graph: nodes map a coordinate tuple to its domain,
 * edges map a node to a list of (neighbour, constraint) entries. Of the
 * AC-3 algorithm only the initial worklist of arcs exists.
 */
module Csp {
  import opened Wrappers
  import opened Collections

  /** A node's coordinate tuple `(c_1, ..., c_k)`. */
  type Key = seq<int>

  /** The failed assertion that the node keys are the edge keys. */
  datatype CspError = KeySetMismatch

  /**
   * `cspSolver`: the domains of the nodes and the edge lists. `D` is the
   * type of domain values; `P` stands for the constraint functions, which
   * compare by identity, so each is an opaque token.
   */
  datatype CspSolver<D, P(==, !new)> = CspSolver(nodes: map<Key, seq<D>>, edges: map<Key, seq<(Key, P)>>)
  {
    /**
     * `ac3`: fails unless the nodes and the edge lists have the same keys;
     * otherwise returns the set of arcs `((x, y), f)`, one for each entry
     * `(y, f)` in the edge list of `x`.
     */
    function Ac3(): (r: Result<set<((Key, Key), P)>, CspError>)
      ensures r.Err? <==> nodes.Keys != edges.Keys
      ensures r.Ok? ==> forall x, y, f :: ((x, y), f) in r.value <==> x in edges && (y, f) in edges[x]
    {
      if nodes.Keys != edges.Keys then Err(KeySetMismatch)
      else Ok(set x, e | x in nodes.Keys && e in edges[x] :: ((x, e.0), e.1))
    }

    /** The positions `(x, i)` of all edge-list entries. */
    function EntryPositions(): set<(Key, nat)> {
      set x, i: nat | x in edges && i < |edges[x]| :: (x, i)
    }

    /** The arc for the entry at position `(x, i)`. */
    function ArcAt(p: (Key, nat)): ((Key, Key), P)
      requires p.0 in edges && p.1 < |edges[p.0]|
    {
      ((p.0, edges[p.0][p.1].0), edges[p.0][p.1].1)
    }
  }

  /** The worklist holds exactly one arc per edge-list entry, arcs of equal entries coinciding. */
  lemma WorklistIsImage<D, P(!new)>(csp: CspSolver<D, P>)
    requires csp.Ac3().Ok?
    ensures csp.Ac3().value == Image(csp.EntryPositions(), csp.ArcAt)
  {
    var w, s, f := csp.Ac3().value, csp.EntryPositions(), csp.ArcAt;
    forall a ensures a in w <==> a in Image(s, f) {
      if a in w {
        var x, y, g := a.0.0, a.0.1, a.1;
        var i :| 0 <= i < |csp.edges[x]| && csp.edges[x][i] == (y, g);
        assert (x, i) in s && f((x, i)) == a;
      }
      if a in Image(s, f) {
        var p :| p in s && f(p) == a;
        assert csp.edges[p.0][p.1] in csp.edges[p.0];
      }
    }
  }

  /**
   * The worklist has at most as many arcs as there are edge-list entries,
   * counted over all nodes.
   */
  lemma WorklistBound<D, P(!new)>(csp: CspSolver<D, P>)
    requires csp.Ac3().Ok?
    ensures |csp.Ac3().value| <= |csp.EntryPositions()|
  {
    WorklistIsImage(csp);
    ImageCardAtMost(csp.EntryPositions(), csp.ArcAt);
  }

  /** An entry listed twice in one edge list gives one arc: the worklist is then strictly smaller. */
  lemma DuplicateEntriesCollapse<D, P(!new)>(csp: CspSolver<D, P>, x: Key, i: nat, j: nat)
    requires csp.Ac3().Ok?
    requires x in csp.edges && i < |csp.edges[x]| && j < |csp.edges[x]| && i != j
    requires csp.edges[x][i] == csp.edges[x][j]
    ensures |csp.Ac3().value| < |csp.EntryPositions()|
  {
    WorklistIsImage(csp);
    assert (x, i) in csp.EntryPositions() && (x, j) in csp.EntryPositions();
    ImageCardBelow(csp.EntryPositions(), csp.ArcAt, (x, i), (x, j));
  }

  // ----- The example graph -----

  /** The two constraint functions of the example, as tokens; they are distinct objects. */
  const FirstNotEqual: int := 0
  const SecondNotEqual: int := 1

  /** Nodes `(1, 1)` with domain `[1, 2]` and `(2, 2)` with domain `[2]`, each constrained against the other. */
  function Example(): CspSolver<int, int> {
    CspSolver(
      map[[1, 1] := [1, 2], [2, 2] := [2]],
      map[[1, 1] := [([2, 2], FirstNotEqual)], [2, 2] := [([1, 1], SecondNotEqual)]])
  }

  /** The example's worklist holds exactly the two arcs between its nodes. */
  lemma ExampleWorklist()
    ensures Example().Ac3().Ok?
    ensures Example().Ac3().value == {(([1, 1], [2, 2]), FirstNotEqual), (([2, 2], [1, 1]), SecondNotEqual)}
    ensures |Example().Ac3().value| == 2
  {
    var csp := Example();
    assert csp.nodes.Keys == csp.edges.Keys;
    var w := csp.Ac3().value;
    var expected := {(([1, 1], [2, 2]), FirstNotEqual), (([2, 2], [1, 1]), SecondNotEqual)};
    forall a | a in w ensures a in expected {
      assert a.0.0 == [1, 1] || a.0.0 == [2, 2];
    }
    assert ([2, 2], FirstNotEqual) in csp.edges[[1, 1]];
    assert ([1, 1], SecondNotEqual) in csp.edges[[2, 2]];
    assert [1, 1] != [2, 2];
  }
}
