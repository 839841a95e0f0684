/**
 * The memoised search over a key graph: a table indexed by (node, sequence length
 * minus one, vowel count) caches how many sequences complete each state, with zero
 * standing for an entry not computed yet.
 */
module Solver {
  import opened Graph
  import opened Walks

  /**
   * A cache of the shape a solver makes for `keys`, `length` and `maxVowels`, whose every
   * non-zero entry holds the true number of completions of its state.
   */
  ghost predicate Sound(table: array3<int>, nodes: map<string, KeyNode>, keys: seq<string>, length: nat, maxVowels: nat)
    requires KeyOrder(keys, nodes) && Closed(nodes) && 1 <= length
    reads table
  {
    && table.Length0 == |keys|
    && table.Length1 == length - 1
    && table.Length2 == maxVowels + 1
    && forall i, p, v :: 0 <= i < table.Length0 && 0 <= p < table.Length1 && 0 <= v < table.Length2 ==>
         (table[i, p, v] == 0 || table[i, p, v] == Completions(nodes, length, maxVowels, keys[i], p + 1, v))
  }

  class KnightSolver {
    const graph: KeyboardGraph
    const maxVowels: nat
    const length: nat
    /** The cache; its shape is fixed when the solver is made, from the node count at that time. */
    const moveCountLookup: array3<int>

    /**
     * The graph is well formed, the cache has the shape it was made with, and every
     * non-zero entry holds the true number of completions of its state.
     */
    ghost predicate Valid()
      reads this, graph, moveCountLookup
    {
      graph.Valid() && 1 <= length && Sound(moveCountLookup, graph.nodes, graph.keys, length, maxVowels)
    }

    /** A solver with an empty cache; the source's default `length` is 10. */
    constructor (graph: KeyboardGraph, maxVowels: nat, length: nat := 10)
      requires 1 <= length
      ensures this.graph == graph && this.maxVowels == maxVowels && this.length == length
      ensures fresh(moveCountLookup)
      ensures moveCountLookup.Length0 == |graph.keys| && moveCountLookup.Length1 == length - 1
      ensures moveCountLookup.Length2 == maxVowels + 1
      ensures forall i, p, v ::
                0 <= i < moveCountLookup.Length0 && 0 <= p < moveCountLookup.Length1 && 0 <= v < moveCountLookup.Length2
                ==> moveCountLookup[i, p, v] == 0
      ensures graph.Valid() ==> Valid()
    {
      this.graph := graph;
      this.maxVowels := maxVowels;
      this.length := length;
      moveCountLookup := new int[|graph.keys|, length - 1, maxVowels + 1]((_, _, _) => 0);
    }

    /**
     * The number of sequences of `length` keys, over every starting node in dictionary
     * order, with at most `maxVowels` vowels once a second key is added.
     */
    method Solve() returns (totalCount: int)
      requires Valid() && SingleCharLabels(graph.nodes)
      requires (2 <= length && maxVowels == 0) ==> forall k :: k in graph.nodes ==> !IsVowel(k)
      modifies moveCountLookup
      ensures Valid()
      ensures totalCount == Total(graph.nodes, length, maxVowels, graph.keys)
      ensures SimpleLists(graph.nodes) ==> totalCount == |WalkSet(graph.nodes, length, maxVowels, graph.keys)|
    {
      ghost var nodes, keys := graph.nodes, graph.keys;
      totalCount := 0;
      for i := 0 to |graph.keys|
        invariant Valid() && graph.nodes == nodes && graph.keys == keys
        invariant totalCount == Total(nodes, length, maxVowels, keys[..i])
      {
        var node := graph.nodes[graph.keys[i]];
        var vowelCount := if IsVowel(node.key) then 1 else 0;
        var found := RecursiveSearch(node, vowelCount, "");
        TotalStep(nodes, length, maxVowels, keys, i);
        totalCount := totalCount + found;
      }
      assert keys[..|keys|] == keys;
      if SimpleLists(graph.nodes) {
        TotalCountsAdmissible(graph.nodes, graph.keys, length, maxVowels);
      }
    }

    /**
     * The number of ways to complete `currentSequence` extended by the key of
     * `currentKeyNode`, which brings the vowel count to `vowelCount`.
     */
    method RecursiveSearch(currentKeyNode: KeyNode, vowelCount: nat, currentSequence: string) returns (count: int)
      requires Valid() && SingleCharLabels(graph.nodes)
      requires currentKeyNode.key in graph.nodes && graph.nodes[currentKeyNode.key] == currentKeyNode
      requires |currentSequence| < length
      requires |currentSequence| + 1 < length ==> vowelCount <= maxVowels
      modifies moveCountLookup
      ensures Valid()
      ensures count == Completions(graph.nodes, length, maxVowels, currentKeyNode.key, |currentSequence| + 1, vowelCount)
      decreases length - |currentSequence|, 0
    {
      var sequence := currentSequence + currentKeyNode.key;
      if |sequence| == length {
        return 1;
      }
      var index := graph.GetNodeIndex(currentKeyNode);
      var stored := moveCountLookup[index, |sequence| - 1, vowelCount];
      if stored != 0 {
        return stored;
      }
      count := SearchNeighbours(currentKeyNode, vowelCount, sequence);
      Store(index, |sequence| - 1, vowelCount, count);
    }

    /**
     * The body of the search for one state: the completions through each neighbour of
     * `currentKeyNode` in list order, skipping those that would exceed the vowel limit.
     */
    method SearchNeighbours(currentKeyNode: KeyNode, vowelCount: nat, sequence: string) returns (count: int)
      requires Valid() && SingleCharLabels(graph.nodes)
      requires currentKeyNode.key in graph.nodes && graph.nodes[currentKeyNode.key] == currentKeyNode
      requires |sequence| < length
      modifies moveCountLookup
      ensures Valid()
      ensures count == NeighbourSum(graph.nodes, length, maxVowels, currentKeyNode.knightNeighbours, |sequence|, vowelCount)
      decreases length - |sequence|, 2
    {
      ghost var nodes := graph.nodes;
      count := 0;
      var neighbours := currentKeyNode.knightNeighbours;
      for m := 0 to |neighbours|
        invariant Valid() && graph.nodes == nodes
        invariant count == NeighbourSum(nodes, length, maxVowels, neighbours[..m], |sequence|, vowelCount)
      {
        NeighbourSumStep(nodes, length, maxVowels, neighbours, m, |sequence|, vowelCount);
        var found := SearchNeighbour(neighbours[m], vowelCount, sequence);
        count := count + found;
      }
      assert neighbours[..|neighbours|] == neighbours;
    }

    /** One neighbour's share: its completions, or nothing when it would exceed the vowel limit. */
    method SearchNeighbour(neighbourKey: string, vowelCount: nat, sequence: string) returns (found: int)
      requires Valid() && SingleCharLabels(graph.nodes)
      requires neighbourKey in graph.nodes && |sequence| < length
      modifies moveCountLookup
      ensures Valid()
      ensures found == (if vowelCount + VowelWeight(neighbourKey) > maxVowels then 0
                        else Completions(graph.nodes, length, maxVowels, neighbourKey, |sequence| + 1, vowelCount + VowelWeight(neighbourKey)))
      decreases length - |sequence|, 1
    {
      var neighbour := graph.nodes[neighbourKey];
      var nextNumVowels := vowelCount;
      if IsVowel(neighbour.key) {
        nextNumVowels := nextNumVowels + 1;
      }
      if nextNumVowels > maxVowels {
        return 0;
      }
      found := RecursiveSearch(neighbour, nextNumVowels, sequence);
    }

    /** Records the completion count of a state in the cache. */
    method Store(index: nat, p: nat, v: nat, count: int)
      requires Valid()
      requires index < |graph.keys| && p < length - 1 && v <= maxVowels
      requires count == Completions(graph.nodes, length, maxVowels, graph.keys[index], p + 1, v)
      modifies moveCountLookup
      ensures Valid()
      ensures moveCountLookup[index, p, v] == count
      ensures forall i, q, w ::
                (&& 0 <= i < moveCountLookup.Length0 && 0 <= q < moveCountLookup.Length1
                 && 0 <= w < moveCountLookup.Length2 && (i, q, w) != (index, p, v)) ==>
                  moveCountLookup[i, q, w] == old(moveCountLookup[i, q, w])
    {
      moveCountLookup[index, p, v] := count;
    }
  }
}
