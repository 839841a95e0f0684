/**
 * The regression fixtures whose keyboards do have knight links: the three-by-three
 * pad, the two-by-three keyboards with and without a vowel, and the sparse
 * six-by-six keyboard. Each keyboard goes through the graph builder; the lemmas
 * pin the dictionary it builds and count the sequences in closed form.
 */
module GridFixtures {
  import opened Wrappers
  import opened Keyboard
  import opened Graph
  import opened Walks
  import opened Solver

  // ---------------------------------------------------------------------------
  // Reading a built dictionary off a keyboard with unique labels
  // ---------------------------------------------------------------------------

  /** What one knight move from (row, col) adds to the target list. */
  function Hit(kb: Grid, row: int, col: int, move: (int, int)): (targets: seq<string>)
  {
    if ValidKeyIndex(kb, row + move.0, col + move.1) then [kb[row + move.0][col + move.1]] else []
  }

  lemma MovesViaSnoc(kb: Grid, row: int, col: int, moves: seq<(int, int)>, i: nat)
    requires i < |moves|
    ensures MovesVia(kb, row, col, moves[..i + 1]) == MovesVia(kb, row, col, moves[..i]) + Hit(kb, row, col, moves[i])
  {
    assert moves[..i + 1][..i] == moves[..i];
  }

  /** The hits of the eight knight moves from (row, col), in the order of the move table. */
  function KnightHits(kb: Grid, row: int, col: int): (targets: seq<string>)
  {
    Hit(kb, row, col, (-2, -1)) + Hit(kb, row, col, (-2, 1)) + Hit(kb, row, col, (-1, -2)) +
    Hit(kb, row, col, (-1, 2)) + Hit(kb, row, col, (1, -2)) + Hit(kb, row, col, (1, 2)) +
    Hit(kb, row, col, (2, -1)) + Hit(kb, row, col, (2, 1))
  }

  /** The knight targets of a cell are the hits of the eight moves in order. */
  lemma KnightTargets(kb: Grid, row: int, col: int)
    ensures MovesVia(kb, row, col, KNIGHT_MOVES) == KnightHits(kb, row, col)
  {
    var m := KNIGHT_MOVES;
    assert m[..0] == [];
    MovesViaSnoc(kb, row, col, m, 0);
    assert MovesVia(kb, row, col, m[..1]) == Hit(kb, row, col, (-2, -1));
    MovesViaSnoc(kb, row, col, m, 1);
    MovesViaSnoc(kb, row, col, m, 2);
    MovesViaSnoc(kb, row, col, m, 3);
    MovesViaSnoc(kb, row, col, m, 4);
    MovesViaSnoc(kb, row, col, m, 5);
    MovesViaSnoc(kb, row, col, m, 6);
    MovesViaSnoc(kb, row, col, m, 7);
    assert m[..8] == m;
  }

  /** With unique labels, the node the builder makes for a cell lists exactly that cell's knight targets. */
  lemma BuiltNode(kb: Grid, keys: seq<string>, nodes: map<string, KeyNode>, row: nat, col: nat)
    requires UniqueLabels(kb) && BuiltFrom(kb, keys, nodes)
    requires InGrid(kb, row, col) && kb[row][col] != HOLE
    ensures kb[row][col] in nodes
    ensures nodes[kb[row][col]] == KeyNode(kb[row][col], MovesVia(kb, row, col, KNIGHT_MOVES))
  {
    ValidKeyIndexIsNode(kb, row, col);
    PositionOfCell(kb, row, col);
    NeighboursOfUnique(kb, kb[row][col]);
  }

  /** A cell whose eight moves hit `targets` gets exactly `targets` as its node's neighbour list. */
  lemma CellLinks(kb: Grid, keys: seq<string>, nodes: map<string, KeyNode>, row: nat, col: nat, targets: seq<string>)
    requires UniqueLabels(kb) && BuiltFrom(kb, keys, nodes)
    requires InGrid(kb, row, col) && kb[row][col] != HOLE
    requires KnightHits(kb, row, col) == targets
    ensures kb[row][col] in nodes && nodes[kb[row][col]].knightNeighbours == targets
  {
    BuiltNode(kb, keys, nodes, row, col);
    KnightTargets(kb, row, col);
  }

  /** With unique labels, the dictionary's keys are the non-hole cells in row-major order. */
  lemma BuiltKeys(kb: Grid, keys: seq<string>, nodes: map<string, KeyNode>)
    requires UniqueLabels(kb) && BuiltFrom(kb, keys, nodes)
    ensures keys == NonHoles(Cells(kb))
  {
    UniqueLabelsNoDuplicates(kb);
    NodeKeysRowMajor(Cells(kb));
  }

  lemma {:induction false} NonHolesNoHole(s: seq<string>)
    requires forall i :: 0 <= i < |s| ==> s[i] != HOLE
    ensures NonHoles(s) == s
  {
    if s != [] {
      NonHolesNoHole(s[..|s| - 1]);
      assert s[..|s| - 1] + [s[|s| - 1]] == s;
    }
  }

  lemma {:induction false} NonHolesAllHoles(s: seq<string>)
    requires forall i :: 0 <= i < |s| ==> s[i] == HOLE
    ensures NonHoles(s) == []
  {
    if s != [] {
      NonHolesAllHoles(s[..|s| - 1]);
    }
  }

  /** A row with a single key among holes contributes just that key. */
  lemma NonHolesOne(s: seq<string>, c: nat)
    requires c < |s| && s[c] != HOLE
    requires forall i :: 0 <= i < |s| && i != c ==> s[i] == HOLE
    ensures NonHoles(s) == [s[c]]
  {
    assert s == s[..c] + ([s[c]] + s[c + 1..]);
    NonHolesAppend(s[..c], [s[c]] + s[c + 1..]);
    NonHolesAppend([s[c]], s[c + 1..]);
    NonHolesAllHoles(s[..c]);
    NonHolesAllHoles(s[c + 1..]);
    NonHolesNoHole([s[c]]);
  }

  lemma CellsTwo(a: seq<string>, b: seq<string>)
    ensures Cells([a, b]) == a + b
  {
    assert [a, b][..1] == [a] && [a][..0] == [];
    assert Cells([a]) == [] + a == a;
  }

  lemma CellsThree(a: seq<string>, b: seq<string>, c: seq<string>)
    ensures Cells([a, b, c]) == a + b + c
  {
    assert [a, b, c][..2] == [a, b];
    CellsTwo(a, b);
  }

  // ---------------------------------------------------------------------------
  // Counting in closed form
  // ---------------------------------------------------------------------------

  function Power(b: nat, e: nat): (p: nat)
  {
    if e == 0 then 1 else b * Power(b, e - 1)
  }

  /** Every key of `s` is a consonant or digit with exactly `d` neighbours, all in `s`. */
  ghost predicate Regular(nodes: map<string, KeyNode>, s: set<string>, d: nat)
  {
    forall k :: k in s ==>
      && k in nodes && !IsVowel(k) && |nodes[k].knightNeighbours| == d
      && forall n :: n in nodes[k].knightNeighbours ==> n in s
  }

  /** In a vowel-free part where every key has `d` neighbours, a state has d^(remaining steps) completions. */
  lemma {:induction false} RegularCompletions(nodes: map<string, KeyNode>, length: nat, maxVowels: nat, s: set<string>, d: nat,
                                              key: string, pos: nat, vowels: nat)
    requires Closed(nodes) && Regular(nodes, s, d) && key in s && pos <= length && vowels <= maxVowels
    ensures key in nodes && Completions(nodes, length, maxVowels, key, pos, vowels) == Power(d, length - pos)
    decreases length - pos, 1
  {
    if pos < length {
      RegularNeighbourSum(nodes, length, maxVowels, s, d, nodes[key].knightNeighbours, pos, vowels);
    }
  }

  lemma {:induction false} RegularNeighbourSum(nodes: map<string, KeyNode>, length: nat, maxVowels: nat, s: set<string>, d: nat,
                                               nbrs: seq<string>, pos: nat, vowels: nat)
    requires Closed(nodes) && Regular(nodes, s, d) && (forall n :: n in nbrs ==> n in s)
    requires pos < length && vowels <= maxVowels
    ensures (forall n :: n in nbrs ==> n in nodes)
    ensures NeighbourSum(nodes, length, maxVowels, nbrs, pos, vowels) == |nbrs| * Power(d, length - pos - 1)
    decreases length - pos, 0, |nbrs|
  {
    if nbrs != [] {
      var n := nbrs[|nbrs| - 1];
      RegularNeighbourSum(nodes, length, maxVowels, s, d, nbrs[..|nbrs| - 1], pos, vowels);
      RegularCompletions(nodes, length, maxVowels, s, d, n, pos + 1, vowels);
    }
  }

  /** A key without neighbours completes nothing before the last position. */
  lemma IsolatedCompletions(nodes: map<string, KeyNode>, length: nat, maxVowels: nat, key: string, pos: nat, vowels: nat)
    requires Closed(nodes) && key in nodes && nodes[key].knightNeighbours == [] && pos < length
    ensures Completions(nodes, length, maxVowels, key, pos, vowels) == 0
  {
  }

  /** How many entries of `keys` lie in `s`. */
  function CountIn(keys: seq<string>, s: set<string>): (n: nat)
    ensures n <= |keys|
  {
    if keys == [] then 0 else CountIn(keys[..|keys| - 1], s) + (if keys[|keys| - 1] in s then 1 else 0)
  }

  /**
   * Over starting keys that are either in a regular part of degree `d` or isolated,
   * the total is d^(length - 1) per regular key.
   */
  lemma {:induction false} RegularTotal(nodes: map<string, KeyNode>, length: nat, maxVowels: nat, s: set<string>, d: nat,
                                        starts: seq<string>)
    requires Closed(nodes) && Regular(nodes, s, d) && 2 <= length
    requires forall k :: k in starts ==> k in nodes && (k in s || nodes[k].knightNeighbours == [])
    ensures Total(nodes, length, maxVowels, starts) == CountIn(starts, s) * Power(d, length - 1)
  {
    if starts != [] {
      var init, k := starts[..|starts| - 1], starts[|starts| - 1];
      assert forall x :: x in init ==> x in starts;
      RegularTotal(nodes, length, maxVowels, s, d, init);
      var c := if k in s then Power(d, length - 1) else 0;
      if k in s {
        assert VowelWeight(k) == 0;
        RegularCompletions(nodes, length, maxVowels, s, d, k, 1, 0);
      } else {
        IsolatedCompletions(nodes, length, maxVowels, k, 1, VowelWeight(k));
      }
      assert Total(nodes, length, maxVowels, starts) == Total(nodes, length, maxVowels, init) + c;
      assert CountIn(starts, s) == CountIn(init, s) + (if k in s then 1 else 0);
      MulStep(CountIn(init, s), Power(d, length - 1), k in s);
    }
  }

  lemma MulStep(c: nat, p: nat, b: bool)
    ensures (c + (if b then 1 else 0)) * p == c * p + (if b then p else 0)
  {
  }

  lemma {:induction false} CountInAppend(a: seq<string>, b: seq<string>, s: set<string>)
    ensures CountIn(a + b, s) == CountIn(a, s) + CountIn(b, s)
  {
    if b != [] {
      CountInAppend(a, b[..|b| - 1], s);
      assert (a + b)[..|a + b| - 1] == a + b[..|b| - 1];
      assert (a + b)[|a + b| - 1] == b[|b| - 1];
    } else {
      assert a + b == a;
    }
  }

  lemma {:induction false} CountInAll(keys: seq<string>, s: set<string>)
    requires forall k :: k in keys ==> k in s
    ensures CountIn(keys, s) == |keys|
  {
    if keys != [] {
      assert forall k :: k in keys[..|keys| - 1] ==> k in keys;
      CountInAll(keys[..|keys| - 1], s);
    }
  }

  lemma {:induction false} CountInNone(keys: seq<string>, s: set<string>)
    requires forall k :: k in keys ==> k !in s
    ensures CountIn(keys, s) == 0
  {
    if keys != [] {
      assert forall k :: k in keys[..|keys| - 1] ==> k in keys;
      CountInNone(keys[..|keys| - 1], s);
    }
  }


  /**
   * A vowel `x` and a non-vowel `y` linked only to each other: the one way on alternates,
   * and it counts exactly when its vowels stay within the limit.
   */
  lemma {:induction false} VowelPairCompletions(nodes: map<string, KeyNode>, length: nat, maxVowels: nat, x: string, y: string,
                                                key: string, pos: nat, vowels: nat)
    requires Closed(nodes) && x in nodes && y in nodes
    requires nodes[x].knightNeighbours == [y] && nodes[y].knightNeighbours == [x]
    requires IsVowel(x) && !IsVowel(y) && (key == x || key == y)
    requires pos <= length && vowels <= maxVowels
    ensures Completions(nodes, length, maxVowels, key, pos, vowels) ==
              if vowels + (if key == x then (length - pos) / 2 else (length - pos + 1) / 2) <= maxVowels then 1 else 0
    decreases length - pos
  {
    if pos < length {
      var other := if key == x then y else x;
      var nbrs := nodes[key].knightNeighbours;
      assert nbrs == [other];
      NeighbourSumStep(nodes, length, maxVowels, nbrs, 0, pos, vowels);
      assert nbrs[..1] == nbrs && nbrs[..0] == [];
      var next := vowels + VowelWeight(other);
      if next <= maxVowels {
        VowelPairCompletions(nodes, length, maxVowels, x, y, other, pos + 1, next);
      }
    }
  }

  // ---------------------------------------------------------------------------
  // The three-by-three pad: an eight-cycle around an isolated centre
  // ---------------------------------------------------------------------------

  const PAD: Grid := [["1", "2", "3"], ["4", "5", "6"], ["7", "8", "9"]]
  const PAD_KEYS: seq<string> := ["1", "2", "3", "4", "5", "6", "7", "8", "9"]
  const PAD_RING: set<string> := {"1", "2", "3", "4", "6", "7", "8", "9"}

  /** Where each pad label sits; it inverts the pad, which makes its labels unique. */
  function PadPosition(key: string): (pos: (int, int))
  {
    if key == "1" then (0, 0) else if key == "2" then (0, 1) else if key == "3" then (0, 2)
    else if key == "4" then (1, 0) else if key == "5" then (1, 1) else if key == "6" then (1, 2)
    else if key == "7" then (2, 0) else if key == "8" then (2, 1) else (2, 2)
  }

  lemma PadUnique()
    ensures UniqueLabels(PAD)
  {
    assert forall r, c :: InGrid(PAD, r, c) ==> PadPosition(PAD[r][c]) == (r, c);
  }

  lemma PadRows(keys: seq<string>, nodes: map<string, KeyNode>)
    requires BuiltFrom(PAD, keys, nodes)
    ensures keys == PAD_KEYS
  {
    PadUnique();
    BuiltKeys(PAD, keys, nodes);
    CellsThree(PAD[0], PAD[1], PAD[2]);
    assert PAD == [PAD[0], PAD[1], PAD[2]];
    NonHolesNoHole(PAD[0] + PAD[1] + PAD[2]);
  }

  lemma PadTopHits()
    ensures KnightHits(PAD, 0, 0) == ["6", "8"] && KnightHits(PAD, 0, 1) == ["7", "9"] && KnightHits(PAD, 0, 2) == ["4", "8"]
  {
  }

  lemma PadTopRow(keys: seq<string>, nodes: map<string, KeyNode>)
    requires BuiltFrom(PAD, keys, nodes)
    ensures "1" in nodes && nodes["1"].knightNeighbours == ["6", "8"]
    ensures "2" in nodes && nodes["2"].knightNeighbours == ["7", "9"]
    ensures "3" in nodes && nodes["3"].knightNeighbours == ["4", "8"]
  {
    PadUnique();
    PadTopHits();
    CellLinks(PAD, keys, nodes, 0, 0, ["6", "8"]);
    CellLinks(PAD, keys, nodes, 0, 1, ["7", "9"]);
    CellLinks(PAD, keys, nodes, 0, 2, ["4", "8"]);
  }

  lemma PadMiddleHits()
    ensures KnightHits(PAD, 1, 0) == ["3", "9"] && KnightHits(PAD, 1, 1) == [] && KnightHits(PAD, 1, 2) == ["1", "7"]
  {
  }

  lemma PadMiddleRow(keys: seq<string>, nodes: map<string, KeyNode>)
    requires BuiltFrom(PAD, keys, nodes)
    ensures "4" in nodes && nodes["4"].knightNeighbours == ["3", "9"]
    ensures "5" in nodes && nodes["5"].knightNeighbours == []
    ensures "6" in nodes && nodes["6"].knightNeighbours == ["1", "7"]
  {
    PadUnique();
    PadMiddleHits();
    CellLinks(PAD, keys, nodes, 1, 0, ["3", "9"]);
    CellLinks(PAD, keys, nodes, 1, 1, []);
    CellLinks(PAD, keys, nodes, 1, 2, ["1", "7"]);
  }

  lemma PadBottomHits()
    ensures KnightHits(PAD, 2, 0) == ["2", "6"] && KnightHits(PAD, 2, 1) == ["1", "3"] && KnightHits(PAD, 2, 2) == ["2", "4"]
  {
  }

  lemma PadBottomRow(keys: seq<string>, nodes: map<string, KeyNode>)
    requires BuiltFrom(PAD, keys, nodes)
    ensures "7" in nodes && nodes["7"].knightNeighbours == ["2", "6"]
    ensures "8" in nodes && nodes["8"].knightNeighbours == ["1", "3"]
    ensures "9" in nodes && nodes["9"].knightNeighbours == ["2", "4"]
  {
    PadUnique();
    PadBottomHits();
    CellLinks(PAD, keys, nodes, 2, 0, ["2", "6"]);
    CellLinks(PAD, keys, nodes, 2, 1, ["1", "3"]);
    CellLinks(PAD, keys, nodes, 2, 2, ["2", "4"]);
  }

  /** A dictionary whose keys are the pad's nine digits has one-character labels only. */
  lemma PadKeysSingleChar(keys: seq<string>, nodes: map<string, KeyNode>)
    requires keys == PAD_KEYS && forall k :: k in nodes <==> k in keys
    ensures SingleCharLabels(nodes)
  {
  }

  /** The builder keeps the pad's nine one-character labels, in reading order. */
  lemma PadLabels(keys: seq<string>, nodes: map<string, KeyNode>)
    requires BuiltFrom(PAD, keys, nodes)
    ensures keys == PAD_KEYS && SingleCharLabels(nodes)
  {
    PadRows(keys, nodes);
    PadKeysSingleChar(keys, nodes);
  }

  /** The links of the pad: the eight-cycle 1-6-7-2-9-4-3-8 and the isolated 5. */
  lemma PadRing(nodes: map<string, KeyNode>)
    requires "1" in nodes && nodes["1"].knightNeighbours == ["6", "8"]
    requires "2" in nodes && nodes["2"].knightNeighbours == ["7", "9"]
    requires "3" in nodes && nodes["3"].knightNeighbours == ["4", "8"]
    requires "4" in nodes && nodes["4"].knightNeighbours == ["3", "9"]
    requires "6" in nodes && nodes["6"].knightNeighbours == ["1", "7"]
    requires "7" in nodes && nodes["7"].knightNeighbours == ["2", "6"]
    requires "8" in nodes && nodes["8"].knightNeighbours == ["1", "3"]
    requires "9" in nodes && nodes["9"].knightNeighbours == ["2", "4"]
    ensures Regular(nodes, PAD_RING, 2)
  {
  }

  /** The builder turns the pad into the eight-cycle and the isolated 5. */
  lemma PadBuilt(keys: seq<string>, nodes: map<string, KeyNode>)
    requires BuiltFrom(PAD, keys, nodes)
    ensures Regular(nodes, PAD_RING, 2) && "5" in nodes && nodes["5"].knightNeighbours == []
  {
    PadTopRow(keys, nodes);
    PadMiddleRow(keys, nodes);
    PadBottomRow(keys, nodes);
    PadRing(nodes);
  }

  /** Every ring key starts 2^(length - 1) sequences and the centre none: 8 * 2^(length - 1) in all. */
  lemma PadTotal(nodes: map<string, KeyNode>, length: nat, maxVowels: nat)
    requires Closed(nodes) && Regular(nodes, PAD_RING, 2) && "5" in nodes && nodes["5"].knightNeighbours == []
    requires 2 <= length
    ensures Total(nodes, length, maxVowels, PAD_KEYS) == 8 * Power(2, length - 1)
  {
    var left, centre, right := ["1", "2", "3", "4"], ["5"], ["6", "7", "8", "9"];
    assert PAD_KEYS == left + centre + right;
    CountInAll(left, PAD_RING);
    CountInNone(centre, PAD_RING);
    CountInAll(right, PAD_RING);
    CountInAppend(left, centre, PAD_RING);
    CountInAppend(left + centre, right, PAD_RING);
    RegularTotal(nodes, length, maxVowels, PAD_RING, 2, PAD_KEYS);
  }

  /** The pad keyboard as built, at ten keys and two vowels: 2^9 * 8 sequences. */
  lemma PadFixture(keys: seq<string>, nodes: map<string, KeyNode>)
    requires BuiltFrom(PAD, keys, nodes) && Closed(nodes)
    ensures SingleCharLabels(nodes)
    ensures Total(nodes, 10, 2, keys) == 4096
  {
    PadLabels(keys, nodes);
    PadBuilt(keys, nodes);
    PadTotal(nodes, 10, 2);
    assert Power(2, 9) == 512;
  }

  /** The pad fixture: the keyboard built, solved at ten keys with at most two vowels. */
  method TestMiniPad() returns (count: int)
    ensures count == 4096
  {
    var graph := new KeyboardGraph(PAD);
    PadFixture(graph.keys, graph.nodes);
    var solver := new KnightSolver(graph, 2);
    count := solver.Solve();
  }

  // ---------------------------------------------------------------------------
  // The two-by-three keyboards: two-cycles across the corners
  // ---------------------------------------------------------------------------

  /** Two rows of three keys without holes. */
  ghost predicate TwoByThree(kb: Grid)
  {
    |kb| == 2 && |kb[0]| == 3 && |kb[1]| == 3 && forall r, c :: InGrid(kb, r, c) ==> kb[r][c] != HOLE
  }

  /** On two rows of three, each corner reaches the far corner of the other row and the middles reach nothing. */
  lemma TwoByThreeHits(kb: Grid)
    requires TwoByThree(kb)
    ensures KnightHits(kb, 0, 0) == [kb[1][2]] && KnightHits(kb, 0, 1) == [] && KnightHits(kb, 0, 2) == [kb[1][0]]
    ensures KnightHits(kb, 1, 0) == [kb[0][2]] && KnightHits(kb, 1, 1) == [] && KnightHits(kb, 1, 2) == [kb[0][0]]
  {
    assert InGrid(kb, 0, 0) && InGrid(kb, 0, 2) && InGrid(kb, 1, 0) && InGrid(kb, 1, 2);
  }

  /** The dictionary built from two rows of three unique keys lists them in reading order. */
  lemma TwoByThreeKeys(kb: Grid, keys: seq<string>, nodes: map<string, KeyNode>)
    requires TwoByThree(kb) && UniqueLabels(kb) && BuiltFrom(kb, keys, nodes)
    ensures keys == kb[0] + kb[1]
  {
    BuiltKeys(kb, keys, nodes);
    assert kb == [kb[0], kb[1]];
    CellsTwo(kb[0], kb[1]);
    assert forall i :: 0 <= i < |kb[0] + kb[1]| ==> (kb[0] + kb[1])[i] == if i < 3 then kb[0][i] else kb[1][i - 3];
    NonHolesNoHole(kb[0] + kb[1]);
  }

  lemma TwoByThreeTop(kb: Grid, keys: seq<string>, nodes: map<string, KeyNode>)
    requires TwoByThree(kb) && UniqueLabels(kb) && BuiltFrom(kb, keys, nodes)
    ensures kb[0][0] in nodes && nodes[kb[0][0]].knightNeighbours == [kb[1][2]]
    ensures kb[0][1] in nodes && nodes[kb[0][1]].knightNeighbours == []
    ensures kb[0][2] in nodes && nodes[kb[0][2]].knightNeighbours == [kb[1][0]]
  {
    TwoByThreeHits(kb);
    CellLinks(kb, keys, nodes, 0, 0, [kb[1][2]]);
    CellLinks(kb, keys, nodes, 0, 1, []);
    CellLinks(kb, keys, nodes, 0, 2, [kb[1][0]]);
  }

  lemma TwoByThreeBottom(kb: Grid, keys: seq<string>, nodes: map<string, KeyNode>)
    requires TwoByThree(kb) && UniqueLabels(kb) && BuiltFrom(kb, keys, nodes)
    ensures kb[1][0] in nodes && nodes[kb[1][0]].knightNeighbours == [kb[0][2]]
    ensures kb[1][1] in nodes && nodes[kb[1][1]].knightNeighbours == []
    ensures kb[1][2] in nodes && nodes[kb[1][2]].knightNeighbours == [kb[0][0]]
  {
    TwoByThreeHits(kb);
    CellLinks(kb, keys, nodes, 1, 0, [kb[0][2]]);
    CellLinks(kb, keys, nodes, 1, 1, []);
    CellLinks(kb, keys, nodes, 1, 2, [kb[0][0]]);
  }

  /** A dictionary whose keys are single characters has one-character labels only. */
  lemma KeysSingleChar(keys: seq<string>, nodes: map<string, KeyNode>)
    requires (forall i :: 0 <= i < |keys| ==> |keys[i]| == 1) && forall k :: k in nodes <==> k in keys
    ensures SingleCharLabels(nodes)
  {
  }

  const DIGITS: Grid := [["1", "2", "3"], ["4", "5", "6"]]
  const DIGIT_KEYS: seq<string> := ["1", "2", "3", "4", "5", "6"]
  const DIGIT_LINKED: set<string> := {"1", "3", "4", "6"}

  /** Where each label of the two-by-three keyboards sits ("1" and "A" share the first corner). */
  function SixPosition(key: string): (pos: (int, int))
  {
    if key == "1" || key == "A" then (0, 0) else if key == "2" then (0, 1) else if key == "3" then (0, 2)
    else if key == "4" then (1, 0) else if key == "5" then (1, 1) else (1, 2)
  }

  lemma DigitsUnique()
    ensures TwoByThree(DIGITS) && UniqueLabels(DIGITS)
  {
    assert forall r, c :: InGrid(DIGITS, r, c) ==> SixPosition(DIGITS[r][c]) == (r, c);
  }

  lemma DigitsLinks(keys: seq<string>, nodes: map<string, KeyNode>)
    requires BuiltFrom(DIGITS, keys, nodes)
    ensures "1" in nodes && nodes["1"].knightNeighbours == ["6"]
    ensures "2" in nodes && nodes["2"].knightNeighbours == []
    ensures "3" in nodes && nodes["3"].knightNeighbours == ["4"]
    ensures "4" in nodes && nodes["4"].knightNeighbours == ["3"]
    ensures "5" in nodes && nodes["5"].knightNeighbours == []
    ensures "6" in nodes && nodes["6"].knightNeighbours == ["1"]
  {
    DigitsUnique();
    TwoByThreeTop(DIGITS, keys, nodes);
    TwoByThreeBottom(DIGITS, keys, nodes);
  }

  lemma DigitsLabels(keys: seq<string>, nodes: map<string, KeyNode>)
    requires BuiltFrom(DIGITS, keys, nodes)
    ensures keys == DIGIT_KEYS && SingleCharLabels(nodes)
  {
    DigitsUnique();
    TwoByThreeKeys(DIGITS, keys, nodes);
    KeysSingleChar(keys, nodes);
  }

  /** The two-cycles 1-6 and 3-4 are regular of degree one, so every start in them has a single way on. */
  lemma DigitsRegular(nodes: map<string, KeyNode>)
    requires "1" in nodes && nodes["1"].knightNeighbours == ["6"]
    requires "3" in nodes && nodes["3"].knightNeighbours == ["4"]
    requires "4" in nodes && nodes["4"].knightNeighbours == ["3"]
    requires "6" in nodes && nodes["6"].knightNeighbours == ["1"]
    ensures Regular(nodes, DIGIT_LINKED, 1)
  {
  }

  lemma DigitsCount()
    ensures CountIn(DIGIT_KEYS, DIGIT_LINKED) == 4
  {
    var a, b, c, d, e := ["1"], ["2"], ["3", "4"], ["5"], ["6"];
    assert DIGIT_KEYS == a + b + c + d + e;
    CountInAll(a, DIGIT_LINKED);
    CountInNone(b, DIGIT_LINKED);
    CountInAll(c, DIGIT_LINKED);
    CountInNone(d, DIGIT_LINKED);
    CountInAll(e, DIGIT_LINKED);
    CountInAppend(a, b, DIGIT_LINKED);
    CountInAppend(a + b, c, DIGIT_LINKED);
    CountInAppend(a + b + c, d, DIGIT_LINKED);
    CountInAppend(a + b + c + d, e, DIGIT_LINKED);
  }

  /** Four linked starts with one way on each, and two isolated ones. */
  lemma DigitsTotal(nodes: map<string, KeyNode>, length: nat, maxVowels: nat)
    requires Closed(nodes) && Regular(nodes, DIGIT_LINKED, 1)
    requires "2" in nodes && nodes["2"].knightNeighbours == [] && "5" in nodes && nodes["5"].knightNeighbours == []
    requires 2 <= length
    ensures Total(nodes, length, maxVowels, DIGIT_KEYS) == 4
  {
    DigitsCount();
    RegularTotal(nodes, length, maxVowels, DIGIT_LINKED, 1, DIGIT_KEYS);
    PowerOne(length - 1);
  }

  lemma {:induction false} PowerOne(e: nat)
    ensures Power(1, e) == 1
  {
    if e > 0 {
      PowerOne(e - 1);
    }
  }

  /** The digit keyboard as built, at ten keys and two vowels: the two two-cycles, walked both ways. */
  lemma DigitsFixture(keys: seq<string>, nodes: map<string, KeyNode>)
    requires BuiltFrom(DIGITS, keys, nodes) && Closed(nodes)
    ensures SingleCharLabels(nodes)
    ensures Total(nodes, 10, 2, keys) == 4
  {
    DigitsLabels(keys, nodes);
    DigitsLinks(keys, nodes);
    DigitsRegular(nodes);
    DigitsTotal(nodes, 10, 2);
  }

  /** The first half of the vowel fixture: the digit keyboard has 4 sequences of ten keys. */
  method TestDigits() returns (count: int)
    ensures count == 4
  {
    var graph := new KeyboardGraph(DIGITS);
    DigitsFixture(graph.keys, graph.nodes);
    var solver := new KnightSolver(graph, 2);
    count := solver.Solve();
  }

  const VOWEL_GRID: Grid := [["A", "2", "3"], ["4", "5", "6"]]
  const VOWEL_KEYS: seq<string> := ["A", "2", "3", "4", "5", "6"]

  lemma VowelGridUnique()
    ensures TwoByThree(VOWEL_GRID) && UniqueLabels(VOWEL_GRID)
  {
    assert forall r, c :: InGrid(VOWEL_GRID, r, c) ==> SixPosition(VOWEL_GRID[r][c]) == (r, c);
  }

  lemma VowelGridLinks(keys: seq<string>, nodes: map<string, KeyNode>)
    requires BuiltFrom(VOWEL_GRID, keys, nodes)
    ensures "A" in nodes && nodes["A"].knightNeighbours == ["6"] && "6" in nodes && nodes["6"].knightNeighbours == ["A"]
    ensures "2" in nodes && nodes["2"].knightNeighbours == [] && "5" in nodes && nodes["5"].knightNeighbours == []
    ensures "3" in nodes && nodes["3"].knightNeighbours == ["4"] && "4" in nodes && nodes["4"].knightNeighbours == ["3"]
  {
    VowelGridUnique();
    TwoByThreeTop(VOWEL_GRID, keys, nodes);
    TwoByThreeBottom(VOWEL_GRID, keys, nodes);
  }

  lemma VowelGridLabels(keys: seq<string>, nodes: map<string, KeyNode>)
    requires BuiltFrom(VOWEL_GRID, keys, nodes)
    ensures keys == VOWEL_KEYS && SingleCharLabels(nodes)
  {
    VowelGridUnique();
    TwoByThreeKeys(VOWEL_GRID, keys, nodes);
    KeysSingleChar(keys, nodes);
  }

  /** The A-6 walks carry five vowels in ten keys, from either end. */
  lemma VowelGridPair(nodes: map<string, KeyNode>, maxVowels: nat)
    requires Closed(nodes) && 1 <= maxVowels
    requires "A" in nodes && nodes["A"].knightNeighbours == ["6"] && "6" in nodes && nodes["6"].knightNeighbours == ["A"]
    ensures Completions(nodes, 10, maxVowels, "A", 1, VowelWeight("A")) == if 5 <= maxVowels then 1 else 0
    ensures Completions(nodes, 10, maxVowels, "6", 1, VowelWeight("6")) == if 5 <= maxVowels then 1 else 0
  {
    assert IsVowel("A") && !IsVowel("6");
    VowelPairCompletions(nodes, 10, maxVowels, "A", "6", "A", 1, 1);
    VowelPairCompletions(nodes, 10, maxVowels, "A", "6", "6", 1, 0);
  }

  /** The 3-4 walks carry no vowel, and 2 and 5 start nothing. */
  lemma VowelGridRest(nodes: map<string, KeyNode>, maxVowels: nat)
    requires Closed(nodes)
    requires "2" in nodes && nodes["2"].knightNeighbours == [] && "5" in nodes && nodes["5"].knightNeighbours == []
    requires "3" in nodes && nodes["3"].knightNeighbours == ["4"] && "4" in nodes && nodes["4"].knightNeighbours == ["3"]
    ensures Completions(nodes, 10, maxVowels, "2", 1, VowelWeight("2")) == 0
    ensures Completions(nodes, 10, maxVowels, "3", 1, VowelWeight("3")) == 1
    ensures Completions(nodes, 10, maxVowels, "4", 1, VowelWeight("4")) == 1
    ensures Completions(nodes, 10, maxVowels, "5", 1, VowelWeight("5")) == 0
  {
    assert !IsVowel("3") && !IsVowel("4");
    assert Regular(nodes, {"3", "4"}, 1);
    RegularCompletions(nodes, 10, maxVowels, {"3", "4"}, 1, "3", 1, 0);
    RegularCompletions(nodes, 10, maxVowels, {"3", "4"}, 1, "4", 1, 0);
    PowerOne(9);
    IsolatedCompletions(nodes, 10, maxVowels, "2", 1, VowelWeight("2"));
    IsolatedCompletions(nodes, 10, maxVowels, "5", 1, VowelWeight("5"));
  }

  /** Adding one starting key at the end adds its completions to the total. */
  lemma TotalSnoc(nodes: map<string, KeyNode>, length: nat, maxVowels: nat, init: seq<string>, key: string)
    requires Closed(nodes) && 1 <= length && (forall k :: k in init ==> k in nodes) && key in nodes
    ensures Total(nodes, length, maxVowels, init + [key]) ==
              Total(nodes, length, maxVowels, init) + Completions(nodes, length, maxVowels, key, 1, VowelWeight(key))
  {
    assert (init + [key])[..|init|] == init;
  }

  /**
   * With "A" in the corner, the walks A-6-A-... and 6-A-6-... of ten keys carry five
   * vowels each and the 3-4 walks none: 2 sequences below five vowels, 4 from five on.
   */
  lemma VowelGridTotal(nodes: map<string, KeyNode>, maxVowels: nat)
    requires Closed(nodes) && 1 <= maxVowels
    requires "A" in nodes && nodes["A"].knightNeighbours == ["6"] && "6" in nodes && nodes["6"].knightNeighbours == ["A"]
    requires "2" in nodes && nodes["2"].knightNeighbours == [] && "5" in nodes && nodes["5"].knightNeighbours == []
    requires "3" in nodes && nodes["3"].knightNeighbours == ["4"] && "4" in nodes && nodes["4"].knightNeighbours == ["3"]
    ensures Total(nodes, 10, maxVowels, VOWEL_KEYS) == if 5 <= maxVowels then 4 else 2
  {
    VowelGridPair(nodes, maxVowels);
    VowelGridRest(nodes, maxVowels);
    TotalSnoc(nodes, 10, maxVowels, [], "A");
    assert [] + ["A"] == ["A"];
    TotalSnoc(nodes, 10, maxVowels, ["A"], "2");
    assert ["A"] + ["2"] == ["A", "2"];
    TotalSnoc(nodes, 10, maxVowels, ["A", "2"], "3");
    assert ["A", "2"] + ["3"] == ["A", "2", "3"];
    TotalSnoc(nodes, 10, maxVowels, ["A", "2", "3"], "4");
    assert ["A", "2", "3"] + ["4"] == ["A", "2", "3", "4"];
    TotalSnoc(nodes, 10, maxVowels, ["A", "2", "3", "4"], "5");
    assert ["A", "2", "3", "4"] + ["5"] == ["A", "2", "3", "4", "5"];
    TotalSnoc(nodes, 10, maxVowels, ["A", "2", "3", "4", "5"], "6");
    assert ["A", "2", "3", "4", "5"] + ["6"] == VOWEL_KEYS;
  }

  /** The vowel keyboard as built, at ten keys. */
  lemma VowelGridFixture(keys: seq<string>, nodes: map<string, KeyNode>, maxVowels: nat)
    requires BuiltFrom(VOWEL_GRID, keys, nodes) && Closed(nodes) && 1 <= maxVowels
    ensures SingleCharLabels(nodes)
    ensures Total(nodes, 10, maxVowels, keys) == if 5 <= maxVowels then 4 else 2
  {
    VowelGridLabels(keys, nodes);
    VowelGridLinks(keys, nodes);
    VowelGridTotal(nodes, maxVowels);
  }

  /** The vowel keyboard solved by a fresh solver with at most `maxVowels` vowels. */
  method SolveVowelGrid(graph: KeyboardGraph, maxVowels: nat) returns (count: int)
    requires graph.Valid() && graph.Built() && graph.keyboard == VOWEL_GRID && 1 <= maxVowels
    ensures count == if 5 <= maxVowels then 4 else 2
  {
    VowelGridFixture(graph.keys, graph.nodes, maxVowels);
    var solver := new KnightSolver(graph, maxVowels);
    count := solver.Solve();
  }

  /** The second half of the vowel fixture: one keyboard, solved with at most four and at most five vowels. */
  method TestVowels() returns (fourVowels: int, fiveVowels: int)
    ensures fourVowels == 2 && fiveVowels == 4
  {
    var graph := new KeyboardGraph(VOWEL_GRID);
    fourVowels := SolveVowelGrid(graph, 4);
    fiveVowels := SolveVowelGrid(graph, 5);
  }

  // ---------------------------------------------------------------------------
  // The sparse six-by-six keyboard: one two-cycle among holes
  // ---------------------------------------------------------------------------

  const SPARSE: Grid := [
    ["", "", "", "", "", ""],
    ["", "", "2", "", "", ""],
    ["", "", "", "", "", ""],
    ["", "3", "", "", "", ""],
    ["", "", "", "", "", ""],
    ["", "", "", "", "", ""]
  ]
  const SPARSE_KEYS: seq<string> := ["2", "3"]

  /** The only keys of the sparse keyboard are "2" at (1, 2) and "3" at (3, 1). */
  lemma SparseKeysAt()
    ensures forall r, c :: InGrid(SPARSE, r, c) && SPARSE[r][c] != HOLE ==> (r == 1 && c == 2) || (r == 3 && c == 1)
  {
  }

  lemma SparseUnique()
    ensures UniqueLabels(SPARSE)
  {
    SparseKeysAt();
  }

  /** Reading the sparse keyboard row by row meets "2" and then "3". */
  lemma SparseNonHoles()
    ensures NonHoles(Cells(SPARSE)) == SPARSE_KEYS
  {
    var r0, r1, r2, r3, r4, r5 := SPARSE[0], SPARSE[1], SPARSE[2], SPARSE[3], SPARSE[4], SPARSE[5];
    assert SPARSE == [r0, r1, r2] + [r3, r4, r5];
    CellsAppend([r0, r1, r2], [r3, r4, r5]);
    CellsThree(r0, r1, r2);
    CellsThree(r3, r4, r5);
    NonHolesAppend(r0 + r1 + r2, r3 + r4 + r5);
    NonHolesAppend(r0 + r1, r2);
    NonHolesAppend(r0, r1);
    NonHolesAppend(r3 + r4, r5);
    NonHolesAppend(r3, r4);
    NonHolesAllHoles(r0);
    NonHolesOne(r1, 2);
    NonHolesAllHoles(r2);
    NonHolesOne(r3, 1);
    NonHolesAllHoles(r4);
    NonHolesAllHoles(r5);
  }

  lemma SparseKeys(keys: seq<string>, nodes: map<string, KeyNode>)
    requires BuiltFrom(SPARSE, keys, nodes)
    ensures keys == SPARSE_KEYS
  {
    SparseUnique();
    BuiltKeys(SPARSE, keys, nodes);
    SparseNonHoles();
  }

  /** The sparse keyboard's dictionary holds "2" and "3" only: one-character labels, neither a vowel. */
  lemma SparseLabels(keys: seq<string>, nodes: map<string, KeyNode>)
    requires keys == SPARSE_KEYS && forall k :: k in nodes <==> k in keys
    ensures SingleCharLabels(nodes) && forall k :: k in nodes ==> !IsVowel(k)
  {
  }

  lemma SparseHits()
    ensures KnightHits(SPARSE, 1, 2) == ["3"] && KnightHits(SPARSE, 3, 1) == ["2"]
  {
  }

  lemma SparseLinks(keys: seq<string>, nodes: map<string, KeyNode>)
    requires BuiltFrom(SPARSE, keys, nodes)
    ensures "2" in nodes && nodes["2"].knightNeighbours == ["3"]
    ensures "3" in nodes && nodes["3"].knightNeighbours == ["2"]
  {
    SparseUnique();
    SparseHits();
    CellLinks(SPARSE, keys, nodes, 1, 2, ["3"]);
    CellLinks(SPARSE, keys, nodes, 3, 1, ["2"]);
  }

  /** The two-cycle 2-3 walked from either end: 2 sequences of every length from two on, vowels or not. */
  lemma SparseTotal(nodes: map<string, KeyNode>, length: nat, maxVowels: nat)
    requires Closed(nodes) && 2 <= length
    requires "2" in nodes && nodes["2"].knightNeighbours == ["3"]
    requires "3" in nodes && nodes["3"].knightNeighbours == ["2"]
    ensures Total(nodes, length, maxVowels, SPARSE_KEYS) == 2
  {
    assert Regular(nodes, {"2", "3"}, 1);
    assert CountIn(SPARSE_KEYS, {"2", "3"}) == 2 by {
      CountInAll(SPARSE_KEYS, {"2", "3"});
    }
    RegularTotal(nodes, length, maxVowels, {"2", "3"}, 1, SPARSE_KEYS);
    PowerOne(length - 1);
  }

  /** The sparse keyboard as built, at ten keys and no vowels. */
  lemma SparseFixture(keys: seq<string>, nodes: map<string, KeyNode>)
    requires BuiltFrom(SPARSE, keys, nodes) && Closed(nodes)
    ensures SingleCharLabels(nodes) && forall k :: k in nodes ==> !IsVowel(k)
    ensures Total(nodes, 10, 0, keys) == 2
  {
    SparseKeys(keys, nodes);
    SparseLabels(keys, nodes);
    SparseLinks(keys, nodes);
    SparseTotal(nodes, 10, 0);
  }

  /** The one-path fixture: the sparse keyboard has 2 sequences of ten keys without vowels. */
  method TestOnePath() returns (count: int)
    ensures count == 2
  {
    var graph := new KeyboardGraph(SPARSE);
    SparseFixture(graph.keys, graph.nodes);
    var solver := new KnightSolver(graph, 0);
    count := solver.Solve();
  }
}
