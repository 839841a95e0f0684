/**
 * The keyboard graph: a dictionary from label to key node, built from a grid by
 * linking every key to the keys one knight move away.
 */
module Graph {
  import opened Wrappers
  import opened Keyboard

  /** A key and the labels of its knight neighbours, in the order they were appended. */
  datatype KeyNode = KeyNode(key: string, knightNeighbours: seq<string>)

  /** Every node is stored under its own label and every neighbour is itself a node. */
  ghost predicate Closed(nodes: map<string, KeyNode>)
  {
    forall k :: k in nodes ==>
      nodes[k].key == k && forall n :: n in nodes[k].knightNeighbours ==> n in nodes
  }

  /** An insertion order for a dictionary: each key listed once, and exactly its keys. */
  ghost predicate KeyOrder(keys: seq<string>, nodes: map<string, KeyNode>)
  {
    NoDuplicates(keys) && forall k :: k in nodes <==> k in keys
  }

  /** Position of the first occurrence of `key`. */
  function IndexOf(keys: seq<string>, key: string): (index: nat)
    requires key in keys
    ensures index < |keys| && keys[index] == key
    ensures forall j :: 0 <= j < index ==> keys[j] != key
  {
    if keys[0] == key then 0 else 1 + IndexOf(keys[1..], key)
  }

  /** Each node's neighbour list holds its knight targets once per occurrence of its label in `done`. */
  ghost predicate EdgesFor(kb: Grid, nodes: map<string, KeyNode>, done: seq<string>)
  {
    forall k :: k in nodes ==> (LastPosition(kb, k).Some? &&
      nodes[k] == KeyNode(k, Repeat(MovesOf(kb, k), multiset(done)[k])))
  }

  /** Processing one more cell appends its label's knight targets to that label's list (holes add nothing). */
  lemma EdgesForStep(kb: Grid, prev: map<string, KeyNode>, next: map<string, KeyNode>, done: seq<string>, key: string)
    requires EdgesFor(kb, prev, done) && HOLE !in prev
    requires key == HOLE ==> next == prev
    requires key != HOLE ==> (key in prev && LastPosition(kb, key).Some? &&
      next == prev[key := prev[key].(knightNeighbours := prev[key].knightNeighbours + MovesOf(kb, key))])
    ensures EdgesFor(kb, next, done + [key])
  {
    forall k | k in next
      ensures LastPosition(kb, k).Some? &&
              next[k] == KeyNode(k, Repeat(MovesOf(kb, k), multiset(done + [key])[k]))
    {
      assert k in prev && LastPosition(kb, k).Some?;
      EdgesForStepAt(prev[k], next[k], MovesOf(kb, k), done, key, k);
    }
  }

  /** The dictionary after the first pass over the cells `done`: an empty node per node key, in order. */
  ghost predicate NodesOf(done: seq<string>, keys: seq<string>, nodes: map<string, KeyNode>)
  {
    && keys == NodeKeys(done)
    && (forall k :: k in nodes <==> k in keys)
    && forall k :: k in nodes ==> nodes[k] == KeyNode(k, [])
  }

  lemma EdgesForStart(kb: Grid, keys: seq<string>, nodes: map<string, KeyNode>)
    requires NodesOf(Cells(kb), keys, nodes)
    ensures EdgesFor(kb, nodes, []) && HOLE !in nodes
  {
    forall k | k in nodes
      ensures LastPosition(kb, k).Some?
    {
      CellHasPosition(kb, k);
    }
  }

  /** The dictionary the builder derives from `kb`: its keys in first-occurrence order, each with its neighbour list. */
  ghost predicate BuiltFrom(kb: Grid, keys: seq<string>, nodes: map<string, KeyNode>)
  {
    && keys == NodeKeys(Cells(kb))
    && (forall k :: k in nodes <==> k in keys)
    && forall k :: k in nodes ==>
         LastPosition(kb, k).Some? && nodes[k] == KeyNode(k, NeighboursOf(kb, k))
  }

  /** Once every cell is processed, the dictionary is the built one, and every neighbour is a node. */
  lemma EdgesForComplete(kb: Grid, keys: seq<string>, nodes: map<string, KeyNode>)
    requires EdgesFor(kb, nodes, Cells(kb))
    requires keys == NodeKeys(Cells(kb))
    requires forall k :: k in nodes <==> k in keys
    ensures BuiltFrom(kb, keys, nodes) && KeyOrder(keys, nodes) && Closed(nodes)
  {
    EdgesForBuilt(kb, keys, nodes);
    BuiltIsClosed(kb, keys, nodes);
  }

  lemma EdgesForBuilt(kb: Grid, keys: seq<string>, nodes: map<string, KeyNode>)
    requires EdgesFor(kb, nodes, Cells(kb))
    requires keys == NodeKeys(Cells(kb))
    requires forall k :: k in nodes <==> k in keys
    ensures BuiltFrom(kb, keys, nodes)
  {
  }

  /** A built dictionary is keyed in order and closed under its neighbour lists. */
  lemma BuiltIsClosed(kb: Grid, keys: seq<string>, nodes: map<string, KeyNode>)
    requires BuiltFrom(kb, keys, nodes)
    ensures KeyOrder(keys, nodes) && Closed(nodes)
  {
    forall k | k in nodes
      ensures forall n :: n in nodes[k].knightNeighbours ==> n in keys
    {
      NeighboursAreNodes(kb, k);
    }
  }

  /** Every label in a neighbour list is a node label. */
  lemma NeighboursAreNodes(kb: Grid, k: string)
    requires LastPosition(kb, k).Some?
    ensures forall n :: n in NeighboursOf(kb, k) ==> n in NodeKeys(Cells(kb))
  {
    forall n | n in NeighboursOf(kb, k)
      ensures n in NodeKeys(Cells(kb))
    {
      RepeatMembership(MovesOf(kb, k), multiset(Cells(kb))[k], n);
      MovesAreNodes(kb, k);
    }
  }

  lemma EdgesForStepAt(before: KeyNode, after: KeyNode, moves: seq<string>, done: seq<string>, key: string, k: string)
    requires before == KeyNode(k, Repeat(moves, multiset(done)[k]))
    requires k == key ==> after == before.(knightNeighbours := before.knightNeighbours + moves)
    requires k != key ==> after == before
    ensures after == KeyNode(k, Repeat(moves, multiset(done + [key])[k]))
  {
    assert multiset(done + [key]) == multiset(done) + multiset{key};
  }

  class KeyboardGraph {
    const keyboard: Grid
    /** The node dictionary, as its values by key and its keys in insertion order. */
    var nodes: map<string, KeyNode>
    var keys: seq<string>

    ghost predicate Valid()
      reads this
    {
      KeyOrder(keys, nodes) && Closed(nodes)
    }

    /** The dictionary is the one the builder derives from `keyboard`. */
    ghost predicate Built()
      reads this
    {
      BuiltFrom(keyboard, keys, nodes)
    }

    constructor (keyboard: Grid)
      ensures this.keyboard == keyboard
      ensures Valid() && Built()
    {
      this.keyboard := keyboard;
      nodes := map[];
      keys := [];
      new;
      ConstructGraph();
    }

    /** The knight targets of `targetKey`: found at its last occurrence, listed in knight-move order. */
    method GetValidKnightMoves(targetKey: string) returns (validMoves: seq<string>)
      requires targetKey in Cells(keyboard)
      ensures LastPosition(keyboard, targetKey).Some?
      ensures validMoves == MovesOf(keyboard, targetKey)
    {
      var rowIndex, colIndex := FindKey(targetKey);
      validMoves := [];
      for m := 0 to |KNIGHT_MOVES|
        invariant validMoves == MovesVia(keyboard, rowIndex, colIndex, KNIGHT_MOVES[..m])
      {
        var (rowChange, colChange) := KNIGHT_MOVES[m];
        var newRow, newCol := rowIndex + rowChange, colIndex + colChange;
        if ValidKeyIndex(keyboard, newRow, newCol) {
          validMoves := validMoves + [keyboard[newRow][newCol]];
        }
        assert KNIGHT_MOVES[..m + 1][..m] == KNIGHT_MOVES[..m];
      }
      assert KNIGHT_MOVES[..|KNIGHT_MOVES|] == KNIGHT_MOVES;
    }

    /** The row-major scan for `targetKey`, which keeps the last cell that carries it. */
    method FindKey(targetKey: string) returns (rowIndex: nat, colIndex: nat)
      requires targetKey in Cells(keyboard)
      ensures LastPosition(keyboard, targetKey) == Some((rowIndex, colIndex))
    {
      var position: Option<(nat, nat)> := None;
      for i := 0 to |keyboard|
        invariant position == LastPosition(keyboard[..i], targetKey)
      {
        var row := keyboard[i];
        for j := 0 to |row|
          invariant position == match LastInRow(row[..j], targetKey)
                                case Some(c) => Some((i, c))
                                case None => LastPosition(keyboard[..i], targetKey)
        {
          LastInRowStep(row, j, targetKey);
          if targetKey == row[j] {
            position := Some((i, j));
          }
        }
        assert row[..|row|] == row;
        LastPositionStep(keyboard, i, targetKey);
      }
      assert keyboard[..|keyboard|] == keyboard;
      CellHasPosition(keyboard, targetKey);
      rowIndex, colIndex := position.value.0, position.value.1;
    }

    /**
     * First a node per non-hole label, then, for every non-hole cell in row-major
     * order, its knight targets appended to that label's neighbour list.
     */
    method ConstructGraph()
      requires keys == [] && nodes == map[]
      modifies this
      ensures Valid() && Built()
    {
      AddNodes();
      AddEdges();
    }

    /** The first pass: one empty node per non-hole label, keyed in first-occurrence order. */
    method AddNodes()
      requires keys == [] && nodes == map[]
      modifies this
      ensures NodesOf(Cells(keyboard), keys, nodes)
    {
      for r := 0 to |keyboard|
        invariant NodesOf(Cells(keyboard[..r]), keys, nodes)
      {
        AddRowNodes(r);
        CellsPrefix(keyboard, r);
      }
      assert keyboard[..|keyboard|] == keyboard;
    }

    /** The body of the first pass for one row of the keyboard. */
    method AddRowNodes(r: nat)
      requires r < |keyboard|
      requires NodesOf(Cells(keyboard[..r]), keys, nodes)
      modifies this
      ensures NodesOf(Cells(keyboard[..r]) + keyboard[r], keys, nodes)
    {
      var row := keyboard[r];
      ghost var done := Cells(keyboard[..r]);
      assert done + row[..0] == done;
      for c := 0 to |row|
        invariant NodesOf(done + row[..c], keys, nodes)
      {
        var key := row[c];
        assert done + row[..c + 1] == (done + row[..c]) + [key];
        AddNode(done + row[..c], key);
      }
      assert row[..|row|] == row;
    }

    /** The body of the first pass for one cell: a non-hole label gets a fresh, empty node. */
    method AddNode(ghost done: seq<string>, key: string)
      requires NodesOf(done, keys, nodes)
      modifies this
      ensures NodesOf(done + [key], keys, nodes)
    {
      NodeKeysStep(done, key);
      if key != HOLE {
        if key !in nodes {
          keys := keys + [key];
        }
        nodes := nodes[key := KeyNode(key, [])];
      }
    }

    /** The second pass: each non-hole cell appends its label's knight targets to that label's node. */
    method AddEdges()
      requires NodesOf(Cells(keyboard), keys, nodes)
      modifies this
      ensures Valid() && Built()
    {
      EdgesForStart(keyboard, keys, nodes);
      assert Cells(keyboard[..0]) == [];
      for r := 0 to |keyboard|
        invariant keys == old(keys) && nodes.Keys == old(nodes).Keys
        invariant EdgesFor(keyboard, nodes, Cells(keyboard[..r]))
      {
        AddRowEdges(r);
        CellsPrefix(keyboard, r);
      }
      assert keyboard[..|keyboard|] == keyboard;
      EdgesForComplete(keyboard, keys, nodes);
    }

    /** The body of the second pass for one row of the keyboard. */
    method AddRowEdges(r: nat)
      requires r < |keyboard|
      requires forall k :: k in nodes <==> k in NodeKeys(Cells(keyboard))
      requires EdgesFor(keyboard, nodes, Cells(keyboard[..r]))
      modifies this
      ensures keys == old(keys) && nodes.Keys == old(nodes).Keys
      ensures EdgesFor(keyboard, nodes, Cells(keyboard[..r]) + keyboard[r])
    {
      var row := keyboard[r];
      ghost var done := Cells(keyboard[..r]);
      assert done + row[..0] == done;
      for c := 0 to |row|
        invariant keys == old(keys) && nodes.Keys == old(nodes).Keys
        invariant EdgesFor(keyboard, nodes, done + row[..c])
      {
        var key := row[c];
        assert done + row[..c + 1] == (done + row[..c]) + [key];
        KeyOnKeyboard(r, c);
        AddCellEdges(done + row[..c], key);
      }
      assert row[..|row|] == row;
    }

    /** The body of the second pass for one cell carrying `key`. */
    method AddCellEdges(ghost done: seq<string>, key: string)
      requires key in Cells(keyboard)
      requires forall k :: k in nodes <==> k in NodeKeys(Cells(keyboard))
      requires EdgesFor(keyboard, nodes, done)
      modifies this
      ensures keys == old(keys) && nodes.Keys == old(nodes).Keys
      ensures EdgesFor(keyboard, nodes, done + [key])
    {
      ghost var prev := nodes;
      if key != HOLE {
        var validMoves := GetValidKnightMoves(key);
        MovesAreNodes(keyboard, key);
        AppendNeighbours(key, validMoves);
      }
      EdgesForStep(keyboard, prev, nodes, done, key);
    }

    /** Appends the node of each label in `moves`, in order, to the neighbour list of `key`. */
    method AppendNeighbours(key: string, moves: seq<string>)
      requires key in nodes && forall x :: x in moves ==> x in nodes
      requires forall k :: k in nodes ==> nodes[k].key == k
      modifies this
      ensures keys == old(keys)
      ensures nodes == old(nodes)[key := old(nodes)[key].(knightNeighbours := old(nodes)[key].knightNeighbours + moves)]
    {
      ghost var before := nodes[key];
      for m := 0 to |moves|
        invariant keys == old(keys) && nodes.Keys == old(nodes).Keys
        invariant forall k :: k in nodes && k != key ==> nodes[k] == old(nodes)[k]
        invariant nodes[key] == before.(knightNeighbours := before.knightNeighbours + moves[..m])
      {
        var target := nodes[moves[m]];
        nodes := nodes[key := nodes[key].(knightNeighbours := nodes[key].knightNeighbours + [target.key])];
        assert moves[..m + 1] == moves[..m] + [moves[m]];
      }
      assert moves[..|moves|] == moves;
    }

    lemma KeyOnKeyboard(r: nat, c: nat)
      requires InGrid(keyboard, r, c)
      ensures keyboard[r][c] in Cells(keyboard)
    {
      CellsMembership(keyboard, keyboard[r][c]);
    }

    /** The first-dimension index of `node` in the memo table: its place in insertion order. */
    function GetNodeIndex(node: KeyNode): (index: nat)
      reads this
      requires Valid() && node.key in nodes
      ensures index < |keys| && keys[index] == node.key
    {
      IndexOf(keys, node.key)
    }

    /** Overwrites the dictionary wholesale, bypassing the grid (how hand-made fixtures are built). */
    method ReplaceNodes(newKeys: seq<string>, newNodes: map<string, KeyNode>)
      requires KeyOrder(newKeys, newNodes)
      modifies this
      ensures keys == newKeys && nodes == newNodes
      ensures Valid() <==> Closed(newNodes)
    {
      keys := newKeys;
      nodes := newNodes;
    }
  }

  /** No neighbour list names the same node twice. */
  ghost predicate SimpleLists(nodes: map<string, KeyNode>)
  {
    forall k :: k in nodes ==> NoDuplicates(nodes[k].knightNeighbours)
  }

  /** A keyboard without repeated labels builds duplicate-free neighbour lists, so each counted sequence is counted once. */
  lemma UniqueKeyboardSimple(kb: Grid, keys: seq<string>, nodes: map<string, KeyNode>)
    requires UniqueLabels(kb) && BuiltFrom(kb, keys, nodes)
    ensures SimpleLists(nodes)
  {
    forall k | k in nodes
      ensures NoDuplicates(nodes[k].knightNeighbours)
    {
      NeighboursOfUnique(kb, k);
    }
  }

  /** Over a duplicate-free key order the index is a bijection onto 0 .. |keys| - 1. */
  lemma IndexOfBijection(keys: seq<string>, i: nat)
    requires NoDuplicates(keys) && i < |keys|
    ensures IndexOf(keys, keys[i]) == i
  {
  }
}
