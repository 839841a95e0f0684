/**
 * The regression fixtures of the knight solver, stated over the model: the hand-made
 * triangle of one vowel and two digits, keyboards without any knight move, and
 * repeated solving with one cache.
 */
module Fixtures {
  import opened Wrappers
  import opened Keyboard
  import opened Graph
  import opened Walks
  import opened Solver

  /** A vowel and two digits, each linked to the other two, in insertion order A, 1, 2. */
  const DIAMOND_KEYS: seq<string> := ["A", "1", "2"]
  const DIAMOND_NODES: map<string, KeyNode> :=
    map["A" := KeyNode("A", ["1", "2"]), "1" := KeyNode("1", ["A", "2"]), "2" := KeyNode("2", ["A", "1"])]

  lemma DiamondWellFormed()
    ensures Closed(DIAMOND_NODES) && KeyOrder(DIAMOND_KEYS, DIAMOND_NODES)
    ensures SingleCharLabels(DIAMOND_NODES) && SimpleLists(DIAMOND_NODES)
  {
    assert DIAMOND_NODES.Keys == {"A", "1", "2"};
  }

  lemma DiamondWeights()
    ensures VowelWeight("A") == 1 && VowelWeight("1") == 0 && VowelWeight("2") == 0
  {
    assert IsVowel("A");
    assert !IsVowel("1") && !IsVowel("2");
  }

  /** The sum over a two-element neighbour list is the two shares added. */
  lemma NeighbourPair(nodes: map<string, KeyNode>, length: nat, maxVowels: nat, a: string, b: string, pos: nat, vowels: nat)
    requires Closed(nodes) && a in nodes && b in nodes && pos < length
    ensures NeighbourSum(nodes, length, maxVowels, [a, b], pos, vowels) ==
              (if vowels + VowelWeight(a) > maxVowels then 0
               else Completions(nodes, length, maxVowels, a, pos + 1, vowels + VowelWeight(a))) +
              (if vowels + VowelWeight(b) > maxVowels then 0
               else Completions(nodes, length, maxVowels, b, pos + 1, vowels + VowelWeight(b)))
  {
    var nbrs := [a, b];
    NeighbourSumStep(nodes, length, maxVowels, nbrs, 0, pos, vowels);
    NeighbourSumStep(nodes, length, maxVowels, nbrs, 1, pos, vowels);
    assert nbrs[..2] == nbrs;
  }

  /** Once the vowel is used up, a digit can only alternate with the other digit: one way. */
  lemma {:induction false} DiamondDigitSpent(length: nat, d: string, pos: nat)
    requires d == "1" || d == "2"
    requires pos <= length
    ensures Closed(DIAMOND_NODES) && Completions(DIAMOND_NODES, length, 1, d, pos, 1) == 1
    decreases length - pos
  {
    DiamondWellFormed();
    if pos < length {
      var other := if d == "1" then "2" else "1";
      DiamondWeights();
      NeighbourPair(DIAMOND_NODES, length, 1, "A", other, pos, 1);
      DiamondDigitSpent(length, other, pos + 1);
    }
  }

  /** From the vowel both digits are open, each with a single way on. */
  lemma DiamondVowel(length: nat, pos: nat)
    requires pos <= length
    ensures Closed(DIAMOND_NODES) && Completions(DIAMOND_NODES, length, 1, "A", pos, 1) == if pos == length then 1 else 2
  {
    DiamondWellFormed();
    if pos < length {
      DiamondWeights();
      NeighbourPair(DIAMOND_NODES, length, 1, "1", "2", pos, 1);
      DiamondDigitSpent(length, "1", pos + 1);
      DiamondDigitSpent(length, "2", pos + 1);
    }
  }

  /** Before the vowel is used, a digit at position `pos` has 2 * (length - pos) completions. */
  lemma {:induction false} DiamondDigitFresh(length: nat, d: string, pos: nat)
    requires d == "1" || d == "2"
    requires pos <= length
    ensures Closed(DIAMOND_NODES) &&
            Completions(DIAMOND_NODES, length, 1, d, pos, 0) == if pos == length then 1 else 2 * (length - pos)
    decreases length - pos
  {
    DiamondWellFormed();
    if pos < length {
      var other := if d == "1" then "2" else "1";
      DiamondWeights();
      NeighbourPair(DIAMOND_NODES, length, 1, "A", other, pos, 0);
      DiamondVowel(length, pos + 1);
      DiamondDigitFresh(length, other, pos + 1);
    }
  }

  /** The triangle with at most one vowel: 4 * length - 2 sequences of every length from two on. */
  lemma DiamondTotal(length: nat)
    requires 2 <= length
    ensures Closed(DIAMOND_NODES) && Total(DIAMOND_NODES, length, 1, DIAMOND_KEYS) == 4 * length - 2
  {
    DiamondWellFormed();
    DiamondWeights();
    DiamondVowel(length, 1);
    DiamondDigitFresh(length, "1", 1);
    DiamondDigitFresh(length, "2", 1);
    var keys := DIAMOND_KEYS;
    TotalStep(DIAMOND_NODES, length, 1, keys, 0);
    TotalStep(DIAMOND_NODES, length, 1, keys, 1);
    TotalStep(DIAMOND_NODES, length, 1, keys, 2);
    assert keys[..3] == keys;
  }

  /** The triangle solved for one length by a fresh solver over the given graph. */
  method SolveDiamond(graph: KeyboardGraph, length: nat) returns (count: int)
    requires graph.Valid() && graph.nodes == DIAMOND_NODES && graph.keys == DIAMOND_KEYS
    requires 2 <= length
    ensures count == 4 * length - 2
  {
    DiamondWellFormed();
    var solver := new KnightSolver(graph, 1, length);
    count := solver.Solve();
    DiamondTotal(length);
  }

  /** The triangle fixture: a placeholder keyboard whose dictionary is overwritten, solved for lengths 2 to 5. */
  method TestDiamond() returns (counts: seq<int>)
    ensures counts == [6, 10, 14, 18]
  {
    var graph := new KeyboardGraph([[HOLE]]);
    DiamondWellFormed();
    graph.ReplaceNodes(DIAMOND_KEYS, DIAMOND_NODES);
    var c2 := SolveDiamond(graph, 2);
    var c3 := SolveDiamond(graph, 3);
    var c4 := SolveDiamond(graph, 4);
    var c5 := SolveDiamond(graph, 5);
    counts := [c2, c3, c4, c5];
  }

  /** At most two rows, each at most two cells wide. */
  predicate Tiny(kb: Grid)
  {
    |kb| <= 2 && forall r :: 0 <= r < |kb| ==> |kb[r]| <= 2
  }

  /** When no move of `moves` lands on a key, none is listed. */
  lemma {:induction false} NoMoveLands(kb: Grid, row: int, col: int, moves: seq<(int, int)>)
    requires forall i :: 0 <= i < |moves| ==> !ValidKeyIndex(kb, row + moves[i].0, col + moves[i].1)
    ensures MovesVia(kb, row, col, moves) == []
    decreases |moves|
  {
    if moves != [] {
      NoMoveLands(kb, row, col, moves[..|moves| - 1]);
    }
  }

  /** Every knight move shifts a row or a column by two, which leaves a tiny grid. */
  lemma TinyGridNoMoves(kb: Grid, row: int, col: int)
    requires Tiny(kb) && InGrid(kb, row, col)
    ensures MovesVia(kb, row, col, KNIGHT_MOVES) == []
  {
    NoMoveLands(kb, row, col, KNIGHT_MOVES);
  }

  lemma {:induction false} RepeatNothing(n: nat)
    ensures Repeat([], n) == []
  {
    if n > 0 {
      RepeatNothing(n - 1);
    }
  }

  /** A dictionary built from a tiny grid has no links, so no sequence of two or more keys exists. */
  lemma TinyGridTotal(kb: Grid, keys: seq<string>, nodes: map<string, KeyNode>, length: nat, maxVowels: nat)
    requires Tiny(kb) && BuiltFrom(kb, keys, nodes) && 2 <= length
    ensures Closed(nodes) && Total(nodes, length, maxVowels, keys) == 0
  {
    BuiltIsClosed(kb, keys, nodes);
    forall k | k in nodes
      ensures nodes[k].knightNeighbours == []
    {
      var pos := LastPosition(kb, k).value;
      TinyGridNoMoves(kb, pos.0, pos.1);
      RepeatNothing(multiset(Cells(kb))[k]);
    }
    NoLinksTotal(nodes, length, maxVowels, keys);
  }

  /** The two-by-two keyboard of the impossible fixture. */
  const SQUARE: Grid := [["A", "B"], ["F", "G"]]

  lemma SquareLabels(keys: seq<string>, nodes: map<string, KeyNode>)
    requires BuiltFrom(SQUARE, keys, nodes)
    ensures Tiny(SQUARE) && SingleCharLabels(nodes)
  {
    forall k | k in nodes
      ensures |k| == 1
    {
      var pos := LastPosition(SQUARE, k).value;
      assert SQUARE[pos.0][pos.1] == k;
    }
  }

  /** The two-by-two fixture: no knight move fits, so no ten-key sequence exists. */
  method TestImpossible() returns (count: int)
    ensures count == 0
  {
    var graph := new KeyboardGraph(SQUARE);
    SquareLabels(graph.keys, graph.nodes);
    var solver := new KnightSolver(graph, 2);
    count := solver.Solve();
    TinyGridTotal(SQUARE, graph.keys, graph.nodes, 10, 2);
  }

  /** Solving twice with one solver gives the same answer: the cache only ever holds true counts. */
  method SolveTwice(solver: KnightSolver) returns (first: int, second: int)
    requires solver.Valid() && SingleCharLabels(solver.graph.nodes)
    requires (2 <= solver.length && solver.maxVowels == 0) ==> forall k :: k in solver.graph.nodes ==> !IsVowel(k)
    modifies solver.moveCountLookup
    ensures first == second
  {
    first := solver.Solve();
    second := solver.Solve();
  }
}
