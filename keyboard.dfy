/**
 * The keyboard grid: labelled cells, holes, knight-move offsets, and what
 * the graph builder derives from them (the node labels in dictionary order
 * and each key's list of knight-move targets).
 */
module Keyboard {
  import opened Wrappers

  /** Rows of labels; rows may have different lengths. */
  type Grid = seq<seq<string>>

  /** The label that marks a hole: never a node, never a move target. */
  const HOLE: string := ""

  /** The eight knight displacements (row change, column change), in the order moves are tried. */
  const KNIGHT_MOVES: seq<(int, int)> :=
    [(-2, -1), (-2, 1), (-1, -2), (-1, 2), (1, -2), (1, 2), (2, -1), (2, 1)]

  /** The default keyboard: letters A to O and a partial row of digits. */
  const KEYBOARD: Grid := [
    ["A", "B", "C", "D", "E"],
    ["F", "G", "H", "I", "J"],
    ["K", "L", "M", "N", "O"],
    ["", "1", "2", "3", ""]
  ]

  /** (row, col) addresses a cell of the ragged grid. */
  predicate InGrid(kb: Grid, row: int, col: int)
  {
    0 <= row < |kb| && 0 <= col < |kb[row]|
  }

  /** A move may land on (row, col): the row exists, the column exists in that row, and the cell is no hole. */
  predicate ValidKeyIndex(kb: Grid, row: int, col: int)
  {
    0 <= row < |kb| && 0 <= col < |kb[row]| && kb[row][col] != HOLE
  }

  /** No two distinct non-hole cells carry the same label. */
  ghost predicate UniqueLabels(kb: Grid)
  {
    forall r1, c1, r2, c2 ::
      InGrid(kb, r1, c1) && InGrid(kb, r2, c2) && kb[r1][c1] != HOLE && kb[r1][c1] == kb[r2][c2]
      ==> r1 == r2 && c1 == c2
  }

  /** All cells, holes included, in row-major order (the order of the builder's nested loops). */
  function Cells(kb: Grid): (cells: seq<string>)
  {
    if kb == [] then [] else Cells(kb[..|kb| - 1]) + kb[|kb| - 1]
  }

  lemma CellsPrefix(kb: Grid, r: nat)
    requires r < |kb|
    ensures Cells(kb[..r + 1]) == Cells(kb[..r]) + kb[r]
  {
    assert kb[..r + 1][..r] == kb[..r];
  }

  lemma {:induction false} CellsAppend(a: Grid, b: Grid)
    ensures Cells(a + b) == Cells(a) + Cells(b)
  {
    if b == [] {
      assert a + b == a;
    } else {
      var n := |b| - 1;
      assert (a + b)[..|a + b| - 1] == a + b[..n];
      CellsAppend(a, b[..n]);
    }
  }

  /** A label is among the cells exactly when some in-grid position carries it. */
  lemma {:induction false} CellsMembership(kb: Grid, x: string)
    ensures x in Cells(kb) <==> exists r, c :: InGrid(kb, r, c) && kb[r][c] == x
  {
    if kb != [] {
      var n := |kb| - 1;
      var prefix := kb[..n];
      CellsMembership(prefix, x);
      assert Cells(kb) == Cells(prefix) + kb[n];
      if x in Cells(prefix) {
        var r, c :| InGrid(prefix, r, c) && prefix[r][c] == x;
        assert InGrid(kb, r, c) && kb[r][c] == x;
      } else if x in kb[n] {
        var c :| 0 <= c < |kb[n]| && kb[n][c] == x;
        assert InGrid(kb, n, c) && kb[n][c] == x;
      }
      if exists r, c :: InGrid(kb, r, c) && kb[r][c] == x {
        var r, c :| InGrid(kb, r, c) && kb[r][c] == x;
        if r < n {
          assert InGrid(prefix, r, c) && prefix[r][c] == x;
        } else {
          assert kb[n][c] == x;
        }
      }
    }
  }

  /** The non-hole labels of a cell sequence, in order, repetitions kept. */
  function NonHoles(cells: seq<string>): (labels: seq<string>)
    ensures forall k :: k in labels <==> k in cells && k != HOLE
  {
    if cells == [] then []
    else NonHoles(cells[..|cells| - 1]) + (if cells[|cells| - 1] == HOLE then [] else [cells[|cells| - 1]])
  }

  lemma {:induction false} NonHolesAppend(a: seq<string>, b: seq<string>)
    ensures NonHoles(a + b) == NonHoles(a) + NonHoles(b)
  {
    if b != [] {
      var n := |b| - 1;
      assert (a + b)[..|a + b| - 1] == a + b[..n];
      assert (a + b)[|a + b| - 1] == b[n];
      var tail := if b[n] == HOLE then [] else [b[n]];
      assert NonHoles(a + b) == NonHoles(a + b[..n]) + tail;
      assert NonHoles(b) == NonHoles(b[..n]) + tail;
      NonHolesAppend(a, b[..n]);
    } else {
      assert a + b == a;
    }
  }

  /**
   * The keys of the node dictionary in insertion order: each non-hole label at its
   * first occurrence (re-assigning an existing key keeps its place).
   */
  function NodeKeys(cells: seq<string>): (keys: seq<string>)
    ensures forall k :: k in keys <==> k in cells && k != HOLE
    ensures NoDuplicates(keys)
  {
    if cells == [] then []
    else
      var keys := NodeKeys(cells[..|cells| - 1]);
      var key := cells[|cells| - 1];
      if key == HOLE || key in keys then keys else keys + [key]
  }

  /** One more cell adds its label at the end, unless it is a hole or already a key. */
  lemma NodeKeysStep(cells: seq<string>, key: string)
    ensures NodeKeys(cells + [key]) ==
              if key == HOLE || key in NodeKeys(cells) then NodeKeys(cells) else NodeKeys(cells) + [key]
  {
    assert (cells + [key])[..|cells|] == cells;
  }

  /** With no repeated label, the node keys are the non-hole labels in row-major order. */
  lemma {:induction false} NodeKeysRowMajor(cells: seq<string>)
    requires NoDuplicates(NonHoles(cells))
    ensures NodeKeys(cells) == NonHoles(cells)
  {
    if cells != [] {
      var n := |cells| - 1;
      var prefix, key := cells[..n], cells[n];
      var tail := if key == HOLE then [] else [key];
      assert NonHoles(cells) == NonHoles(prefix) + tail;
      NoDuplicatesAppend(NonHoles(prefix), tail);
      NodeKeysRowMajor(prefix);
    }
  }

  /** The position of `key` among the cells is found by a row-major scan that keeps the last match. */
  function LastInRow(row: seq<string>, key: string): (col: Option<nat>)
    ensures col.Some? ==> col.value < |row| && row[col.value] == key
    ensures col.Some? ==> forall c :: col.value < c < |row| ==> row[c] != key
    ensures col.None? ==> forall c :: 0 <= c < |row| ==> row[c] != key
  {
    if row == [] then None
    else if row[|row| - 1] == key then Some(|row| - 1)
    else LastInRow(row[..|row| - 1], key)
  }

  function LastPosition(kb: Grid, key: string): (pos: Option<(nat, nat)>)
    ensures pos.Some? ==> InGrid(kb, pos.value.0, pos.value.1) && kb[pos.value.0][pos.value.1] == key
    ensures pos.Some? ==> forall r, c :: InGrid(kb, r, c) && kb[r][c] == key ==>
                            r < pos.value.0 || (r == pos.value.0 && c <= pos.value.1)
    ensures pos.None? ==> forall r, c :: InGrid(kb, r, c) ==> kb[r][c] != key
  {
    if kb == [] then None
    else match LastInRow(kb[|kb| - 1], key)
      case Some(col) => Some((|kb| - 1, col))
      case None => LastPosition(kb[..|kb| - 1], key)
  }

  /** Scanning one more cell of a row: a match there becomes the last occurrence. */
  lemma LastInRowStep(row: seq<string>, j: nat, key: string)
    requires j < |row|
    ensures LastInRow(row[..j + 1], key) == if row[j] == key then Some(j) else LastInRow(row[..j], key)
  {
    assert row[..j + 1][..j] == row[..j];
  }

  /** Scanning one more row: a match in it beats every earlier row. */
  lemma LastPositionStep(kb: Grid, i: nat, key: string)
    requires i < |kb|
    ensures LastPosition(kb[..i + 1], key) == match LastInRow(kb[i], key)
                                               case Some(c) => Some((i, c))
                                               case None => LastPosition(kb[..i], key)
  {
    assert kb[..i + 1][..i] == kb[..i];
  }

  /** With unique labels, the position of a non-hole cell's label is that cell. */
  lemma PositionOfCell(kb: Grid, row: nat, col: nat)
    requires UniqueLabels(kb) && InGrid(kb, row, col) && kb[row][col] != HOLE
    ensures LastPosition(kb, kb[row][col]) == Some((row, col))
  {
  }

  /** `move` from (row, col) lands on a non-hole cell labelled `key`. */
  predicate Reaches(kb: Grid, row: int, col: int, move: (int, int), key: string)
  {
    ValidKeyIndex(kb, row + move.0, col + move.1) && kb[row + move.0][col + move.1] == key
  }

  /** The labels reached from (row, col) by `moves`, in the order of `moves`, skipping invalid targets. */
  function MovesVia(kb: Grid, row: int, col: int, moves: seq<(int, int)>): (targets: seq<string>)
    ensures |targets| <= |moves|
  {
    if moves == [] then []
    else
      var earlier := MovesVia(kb, row, col, moves[..|moves| - 1]);
      var move := moves[|moves| - 1];
      if ValidKeyIndex(kb, row + move.0, col + move.1)
      then earlier + [kb[row + move.0][col + move.1]]
      else earlier
  }

  /** A label is listed exactly when some move reaches it. */
  lemma MovesViaMembership(kb: Grid, row: int, col: int, moves: seq<(int, int)>, key: string)
    ensures key in MovesVia(kb, row, col, moves) <==> exists i :: 0 <= i < |moves| && Reaches(kb, row, col, moves[i], key)
  {
    if key in MovesVia(kb, row, col, moves) {
      var i := MovesViaWitness(kb, row, col, moves, key);
    }
    if exists i :: 0 <= i < |moves| && Reaches(kb, row, col, moves[i], key) {
      var i :| 0 <= i < |moves| && Reaches(kb, row, col, moves[i], key);
      MovesViaReaches(kb, row, col, moves, i, key);
    }
  }

  /** Every listed label is reached by some move: the witness. */
  lemma {:induction false} MovesViaWitness(kb: Grid, row: int, col: int, moves: seq<(int, int)>, key: string)
    returns (i: nat)
    requires key in MovesVia(kb, row, col, moves)
    ensures i < |moves| && Reaches(kb, row, col, moves[i], key)
  {
    var n := |moves| - 1;
    var move := moves[n];
    if ValidKeyIndex(kb, row + move.0, col + move.1) && kb[row + move.0][col + move.1] == key {
      i := n;
    } else {
      i := MovesViaWitness(kb, row, col, moves[..n], key);
      assert moves[..n][i] == moves[i];
    }
  }

  /** Every label a move reaches is listed. */
  lemma {:induction false} MovesViaReaches(kb: Grid, row: int, col: int, moves: seq<(int, int)>, i: nat, key: string)
    requires i < |moves| && Reaches(kb, row, col, moves[i], key)
    ensures key in MovesVia(kb, row, col, moves)
  {
    var n := |moves| - 1;
    if i < n {
      assert moves[..n][i] == moves[i];
      MovesViaReaches(kb, row, col, moves[..n], i, key);
    }
  }

  /** Distinct moves on a grid with unique labels reach distinct labels. */
  lemma {:induction false} MovesViaDistinct(kb: Grid, row: int, col: int, moves: seq<(int, int)>)
    requires UniqueLabels(kb) && NoDuplicates(moves)
    ensures NoDuplicates(MovesVia(kb, row, col, moves))
  {
    if moves != [] {
      var n := |moves| - 1;
      var earlier := moves[..n];
      var move := moves[n];
      MovesViaDistinct(kb, row, col, earlier);
      if ValidKeyIndex(kb, row + move.0, col + move.1) {
        var t := kb[row + move.0][col + move.1];
        forall i | 0 <= i < n
          ensures !Reaches(kb, row, col, earlier[i], t)
        {
          assert moves[i] != moves[n];
        }
        MovesViaMembership(kb, row, col, earlier, t);
      }
    }
  }

  /** Where a label of the default keyboard sits: letters A to O five to a row, then the digits 1 to 3. */
  function KeyboardPosition(key: string): (pos: (int, int))
  {
    if |key| == 1 && 'A' <= key[0] <= 'O' then ((key[0] as int - 'A' as int) / 5, (key[0] as int - 'A' as int) % 5)
    else if |key| == 1 && '1' <= key[0] <= '3' then (3, key[0] as int - '0' as int)
    else (-1, -1)
  }

  /** The default keyboard repeats no label, so every result stated for unique labels applies to it. */
  lemma DefaultKeyboardUnique()
    ensures UniqueLabels(KEYBOARD)
  {
    assert forall r, c :: InGrid(KEYBOARD, r, c) && KEYBOARD[r][c] != HOLE ==> KeyboardPosition(KEYBOARD[r][c]) == (r, c);
  }

  /** Each knight move's negation is also a knight move (the mirror entry of the list). */
  lemma KnightMovesClosedUnderNegation()
    ensures |KNIGHT_MOVES| == 8 && NoDuplicates(KNIGHT_MOVES)
    ensures forall i :: 0 <= i < 8 ==> KNIGHT_MOVES[7 - i] == (-KNIGHT_MOVES[i].0, -KNIGHT_MOVES[i].1)
  {
  }

  /** get_valid_knight_moves: the knight targets of the last cell labelled `key`. */
  function MovesOf(kb: Grid, key: string): (targets: seq<string>)
    requires LastPosition(kb, key).Some?
    ensures |targets| <= 8
  {
    var pos := LastPosition(kb, key).value;
    MovesVia(kb, pos.0, pos.1, KNIGHT_MOVES)
  }

  /** `s` concatenated `n` times. */
  function Repeat(s: seq<string>, n: nat): (r: seq<string>)
  {
    if n == 0 then [] else Repeat(s, n - 1) + s
  }

  /**
   * The neighbour list the builder gives `key`: its knight targets, appended once per
   * cell carrying `key` (so more than once only when a label is repeated).
   */
  function NeighboursOf(kb: Grid, key: string): (nbrs: seq<string>)
    requires LastPosition(kb, key).Some?
  {
    Repeat(MovesOf(kb, key), multiset(Cells(kb))[key])
  }

  lemma {:induction false} RowNoDuplicates(row: seq<string>)
    requires forall c1, c2 :: 0 <= c1 < |row| && 0 <= c2 < |row| && row[c1] != HOLE && row[c1] == row[c2] ==> c1 == c2
    ensures NoDuplicates(NonHoles(row))
  {
    if row != [] {
      var n := |row| - 1;
      var prefix, key := row[..n], row[n];
      var tail := if key == HOLE then [] else [key];
      RowNoDuplicates(prefix);
      assert NonHoles(row) == NonHoles(prefix) + tail;
      forall c | 0 <= c < n
        ensures prefix[c] == HOLE || prefix[c] != key
      {
        assert row[c] == prefix[c];
      }
      NoDuplicatesAppend(NonHoles(prefix), tail);
    }
  }

  /** Unique labels make the flattened non-hole labels duplicate-free. */
  lemma {:induction false} UniqueLabelsNoDuplicates(kb: Grid)
    requires UniqueLabels(kb)
    ensures NoDuplicates(NonHoles(Cells(kb)))
  {
    if kb != [] {
      var n := |kb| - 1;
      var prefix := kb[..n];
      assert UniqueLabels(prefix) by {
        forall r1, c1, r2, c2 | InGrid(prefix, r1, c1) && InGrid(prefix, r2, c2)
          ensures prefix[r1][c1] == kb[r1][c1] && prefix[r2][c2] == kb[r2][c2]
        {
        }
      }
      UniqueLabelsNoDuplicates(prefix);
      forall c1, c2 | 0 <= c1 < |kb[n]| && 0 <= c2 < |kb[n]| && kb[n][c1] != HOLE && kb[n][c1] == kb[n][c2]
        ensures c1 == c2
      {
        assert InGrid(kb, n, c1) && InGrid(kb, n, c2);
      }
      RowNoDuplicates(kb[n]);
      NonHolesAppend(Cells(prefix), kb[n]);
      var a, b := NonHoles(Cells(prefix)), NonHoles(kb[n]);
      forall x | x in a
        ensures x !in b
      {
        CellsMembership(prefix, x);
        var r, c :| InGrid(prefix, r, c) && prefix[r][c] == x;
        assert InGrid(kb, r, c) && kb[r][c] == x && r < n;
        forall c' | 0 <= c' < |kb[n]|
          ensures kb[n][c'] != x
        {
          assert InGrid(kb, n, c');
        }
      }
      assert NonHoles(Cells(kb)) == a + b;
      NoDuplicatesAppend(a, b);
    }
  }

  lemma {:induction false} SingleOccurrence(cells: seq<string>, key: string)
    requires NoDuplicates(NonHoles(cells)) && key in cells && key != HOLE
    ensures multiset(cells)[key] == 1
  {
    var n := |cells| - 1;
    var prefix := cells[..n];
    assert cells == prefix + [cells[n]];
    var tail := if cells[n] == HOLE then [] else [cells[n]];
    assert NonHoles(cells) == NonHoles(prefix) + tail;
    NoDuplicatesAppend(NonHoles(prefix), tail);
    if cells[n] == key {
      assert key !in prefix;
    } else {
      SingleOccurrence(prefix, key);
    }
  }

  /** With unique labels, a key's neighbour list is exactly its knight targets. */
  lemma NeighboursOfUnique(kb: Grid, key: string)
    requires UniqueLabels(kb) && key != HOLE && LastPosition(kb, key).Some?
    ensures NeighboursOf(kb, key) == MovesOf(kb, key)
    ensures |NeighboursOf(kb, key)| <= 8 && NoDuplicates(NeighboursOf(kb, key))
  {
    var pos := LastPosition(kb, key).value;
    CellsMembership(kb, key);
    UniqueLabelsNoDuplicates(kb);
    SingleOccurrence(Cells(kb), key);
    assert Repeat(MovesOf(kb, key), 1) == MovesOf(kb, key);
    KnightMovesClosedUnderNegation();
    MovesViaDistinct(kb, pos.0, pos.1, KNIGHT_MOVES);
  }

  /** A target passes the validity test exactly when it is an in-grid cell whose label is a node. */
  lemma ValidKeyIndexIsNode(kb: Grid, row: int, col: int)
    ensures ValidKeyIndex(kb, row, col) <==> InGrid(kb, row, col) && kb[row][col] in NodeKeys(Cells(kb))
  {
    if InGrid(kb, row, col) {
      CellsMembership(kb, kb[row][col]);
    }
  }

  /** Every knight target is itself a node. */
  lemma MovesAreNodes(kb: Grid, key: string)
    requires LastPosition(kb, key).Some?
    ensures forall t :: t in MovesOf(kb, key) ==> t in NodeKeys(Cells(kb))
  {
    var pos := LastPosition(kb, key).value;
    forall t | t in MovesOf(kb, key)
      ensures t in NodeKeys(Cells(kb))
    {
      var i := MovesViaWitness(kb, pos.0, pos.1, KNIGHT_MOVES, t);
      ValidKeyIndexIsNode(kb, pos.0 + KNIGHT_MOVES[i].0, pos.1 + KNIGHT_MOVES[i].1);
    }
  }

  /**
   * Knight adjacency is symmetric on a grid with unique labels: the move sets are
   * closed under negation and validity depends only on the target cell.
   */
  lemma KnightAdjacencySymmetric(kb: Grid, a: string, b: string)
    requires UniqueLabels(kb) && a != HOLE && LastPosition(kb, a).Some? && b in MovesOf(kb, a)
    ensures LastPosition(kb, b).Some? && a in MovesOf(kb, b)
  {
    var pa := LastPosition(kb, a).value;
    var i := MovesViaWitness(kb, pa.0, pa.1, KNIGHT_MOVES, b);
    var rb, cb := pa.0 + KNIGHT_MOVES[i].0, pa.1 + KNIGHT_MOVES[i].1;
    assert InGrid(kb, rb, cb) && kb[rb][cb] == b;
    PositionOfCell(kb, rb, cb);
    KnightMovesClosedUnderNegation();
    assert Reaches(kb, rb, cb, KNIGHT_MOVES[7 - i], a);
    MovesViaReaches(kb, rb, cb, KNIGHT_MOVES, 7 - i, a);
  }

  lemma {:induction false} RepeatMembership(s: seq<string>, n: nat, x: string)
    requires x in Repeat(s, n)
    ensures x in s
  {
    if x in Repeat(s, n - 1) {
      RepeatMembership(s, n - 1, x);
    }
  }

  /** A label that occurs on the keyboard has a position. */
  lemma CellHasPosition(kb: Grid, key: string)
    requires key in Cells(kb)
    ensures LastPosition(kb, key).Some?
  {
    CellsMembership(kb, key);
  }
}
