# Keyboard knights, modelled in Dafny

This project models the "Keyboard Knights" solver and the small tree node of the
FergusCurrie/cs repository.

The solver does two things:

- **It builds a graph.** A keyboard is a ragged grid of labels, and the empty label is a hole. Every non-hole label becomes a node. A node is linked to the labels that a chess knight's move reaches from its cell. A move reaches a cell only if the cell exists and is not a hole.
- **It counts sequences.** It counts the sequences of `length` keys (ten by default) that follow those links and hold at most `maxVowels` vowels. A memo table indexed by (node, sequence length − 1, vowel count) caches the count for each state. A zero entry in the table means "not computed yet".

The model is split into these files:

| file | what it holds |
|---|---|
| `wrappers.dfy` | `Option` and duplicate-freedom of sequences |
| `keyboard.dfy` | the grid, the constants `KEYBOARD` and `KNIGHT_MOVES`, the validity test, the row-major scans, and the knight targets of a key (as pure functions, with lemmas) |
| `graph.dfy` | the `KeyNode` value and the class `KeyboardGraph`, whose methods build the node dictionary in place in two passes |
| `walks.dfy` | what the solver counts |
| `solver.dfy` | the class `KnightSolver` with its memo table (an `array3<int>`) and the memoised recursive search |
| `tree.dfy` | the class `Node` with its parent and children links |
| `fixtures.dfy` | the regression cases whose keyboards have no knight links (the two-by-two keyboard and the hand-made triangle), and repeated solving |
| `grid_fixtures.dfy` | the regression cases whose keyboards do have links: the three-by-three pad, the two-by-three keyboards with and without a vowel, and the sparse six-by-six keyboard |

`walks.dfy` gives what the solver counts in two forms:

- the recurrence `Completions`/`Total`, which the search computes;
- the explicit list `AllWalks` of admissible sequences.

It proves that the two agree.

The solver's `Solve` method is proved to return `Total`. `Total` is in turn proved to equal the number of admissible sequences whenever the neighbour lists are duplicate-free. Every keyboard without repeated labels gives duplicate-free lists.

Where the code and the written description of the problem differ, the model follows the code:

- **Sequences of one key.** With `length == 1` the search returns 1 for every starting key before any vowel check. A vowel start is counted even when `maxVowels == 0` (`SingleKeyTotal`).
- **Repeated labels.** A repeated label is not rejected. The first pass keeps one node per label, in first-occurrence order. The second pass appends that label's knight targets once per cell that carries it. The targets always come from the label's last cell (`NeighboursOf`, `EdgesFor`).
- **Memo lifetime.** One memo table is allocated per solver, not per call of `solve`. It is sized from the node count when the solver is made and reused by later calls. This is sound because every non-zero entry is a true count (`Solver.Sound`).
- **The "not computed" marker is zero.** A state whose true count is zero is recomputed every time it is visited. The answer is unchanged.

## Model

| member | source | states |
|---|---|---|
| Keyboard.KnightMovesClosedUnderNegation | knight_problem.py:17-26 | there are eight distinct knight moves, and the list is symmetric: entry 7 − i is the negation of entry i |
| Keyboard.DefaultKeyboardUnique | knight_problem.py:10-15 | the default keyboard repeats no label, so every result stated for unique labels holds for it |
| Keyboard.ValidKeyIndexIsNode | knight_problem.py:68-78 | a move target passes the validity test exactly when it is an in-grid cell whose label is a node key |
| Keyboard.NodeKeysRowMajor | knight_problem.py:82-86 | with no repeated label, the dictionary's keys are the non-hole labels in row-major order |
| Keyboard.PositionOfCell | knight_problem.py:54-57 | on a keyboard without repeated labels, the scan finds each label at its own cell |
| Keyboard.MovesVia | knight_problem.py:60-66 | each move adds at most one target, so there are never more targets than moves |
| Keyboard.MovesOf | knight_problem.py:44-66 | a key has at most eight knight targets, taken from its last cell |
| Keyboard.MovesViaMembership | knight_problem.py:61-65 | a label is listed as a target exactly when some knight move from the cell reaches a non-hole cell carrying it |
| Keyboard.MovesViaWitness | knight_problem.py:61-65 | every listed target has a knight move that reaches it |
| Keyboard.MovesViaReaches | knight_problem.py:61-65 | every label a knight move reaches is listed |
| Keyboard.MovesViaDistinct | knight_problem.py:61-65 | with unique labels, the target list has no duplicates |
| Keyboard.MovesAreNodes | knight_problem.py:61-66 | every knight target of a key is itself a node key |
| Keyboard.KnightAdjacencySymmetric | knight_problem.py:44-66 | with unique labels, if b is a knight target of a, then a is a knight target of b |
| Keyboard.NeighboursOfUnique | knight_problem.py:88-94 | with unique labels, a key's neighbour list is exactly its knight targets: at most eight, and duplicate-free |
| Keyboard.SingleOccurrence | knight_problem.py:88-91 | with unique labels, each non-hole label occurs in exactly one cell, so its targets are appended once |
| Keyboard.UniqueLabelsNoDuplicates | knight_problem.py:83-86 | unique labels give a duplicate-free flattening of the non-hole cells |
| Keyboard.RepeatMembership | knight_problem.py:89-94 | appending the same target list several times adds no new label |
| Keyboard.CellHasPosition | knight_problem.py:54-57 | any label that occurs on the keyboard is found by the scan |
| Graph.IndexOf | knight_problem.py:96-97 | the index is the first position of the key in insertion order |
| Graph.IndexOfBijection | knight_problem.py:96-97 | over a duplicate-free key order, the index of the i-th key is i |
| Graph.EdgesForStep | knight_problem.py:89-94 | processing one more cell appends its label's targets to that label's node only, and a hole adds nothing |
| Graph.EdgesForStart | knight_problem.py:82-88 | after the first pass, every node has the empty list, which is the edge state for no processed cell |
| Graph.EdgesForComplete | knight_problem.py:80-94 | after both passes, the dictionary is the built one, keyed in insertion order, and closed under its neighbour lists |
| Graph.BuiltIsClosed | knight_problem.py:80-94 | a built dictionary holds every node under its own label, and every neighbour is a node |
| Graph.NeighboursAreNodes | knight_problem.py:92-94 | every label appended to a neighbour list is a node key |
| Graph.KeyboardGraph.constructor | knight_problem.py:39-42 | a new graph holds the keyboard and the dictionary that the two passes derive from it |
| Graph.KeyboardGraph.GetValidKnightMoves | knight_problem.py:44-66 | the result is the knight targets of the target key's last cell, in move order, with invalid targets skipped |
| Graph.KeyboardGraph.FindKey | knight_problem.py:54-57 | the nested scan ends at the last cell (in row-major order) carrying the key |
| Graph.KeyboardGraph.ConstructGraph | knight_problem.py:80-94 | from an empty dictionary, the two passes leave a well-formed dictionary equal to the built one |
| Graph.KeyboardGraph.AddNodes | knight_problem.py:82-86 | the first pass leaves one empty node per non-hole label, keyed in first-occurrence order |
| Graph.KeyboardGraph.AddRowNodes | knight_problem.py:83-86 | one row of the first pass extends the node state by that row's cells |
| Graph.KeyboardGraph.AddNode | knight_problem.py:84-86 | one cell of the first pass: a non-hole label gets an empty node (a repeat overwrites it) and is recorded in order on first sight |
| Graph.KeyboardGraph.AddEdges | knight_problem.py:88-94 | the second pass makes every neighbour list the built one, and the graph well formed |
| Graph.KeyboardGraph.AddRowEdges | knight_problem.py:89-94 | one row of the second pass extends the edge state by that row's cells, and keeps the key set |
| Graph.KeyboardGraph.AddCellEdges | knight_problem.py:90-94 | one cell of the second pass appends the label's knight targets to its node, and keeps the key set |
| Graph.KeyboardGraph.AppendNeighbours | knight_problem.py:93-94 | the moves are appended, in order, to the node's list, and no other node changes |
| Graph.KeyboardGraph.GetNodeIndex | knight_problem.py:96-97 | the index is within the table's first dimension and names the node's key in insertion order |
| Graph.KeyboardGraph.ReplaceNodes | test_knight_problem.py:62-69 | overwriting the dictionary gives a well-formed graph exactly when every neighbour is a node |
| Walks.VowelsInAppend | knight_problem.py:163-165 | the vowel count of a joined sequence is the sum of the parts' counts, so adding one key's weight at a time, as the search does, counts the whole sequence |
| Walks.NeighbourSumStep | knight_problem.py:161-168 | the sum over one more neighbour adds that neighbour's share, which is zero when it would exceed the vowel limit |
| Walks.TotalStep | knight_problem.py:115-120 | the total over one more starting key adds that key's completions |
| Walks.ExtensionsCount | knight_problem.py:140-176 | there are as many listed completions of a state as the recurrence counts |
| Walks.ExtensionsHead | knight_problem.py:140-168 | every listed completion starts with the state's key and has the remaining length |
| Walks.ExtensionsMembership | knight_problem.py:140-168 | a sequence is listed as a completion exactly when it starts at the state's key, has the remaining length, follows the links, and keeps the vowel count within the limit |
| Walks.NeighbourExtensionsMembership | knight_problem.py:160-168 | the completions through the neighbours are exactly the sequences whose second key is an allowed neighbour |
| Walks.ExtensionsDistinct | knight_problem.py:160-168 | over duplicate-free neighbour lists, no completion is listed twice |
| Walks.AllWalksCount | knight_problem.py:109-121 | the number of listed sequences equals the solver's total |
| Walks.AllWalksMembership | knight_problem.py:109-121 | the listed sequences are exactly the admissible ones from the starting keys |
| Walks.AllWalksDistinct | knight_problem.py:109-121 | over distinct starting keys and duplicate-free lists, no sequence is listed twice |
| Walks.TotalCountsAdmissible | knight_problem.py:109-176 | the total equals the number of distinct admissible sequences, and a sequence is counted exactly when it is admissible |
| Walks.SingleKeyTotal | knight_problem.py:141-143 | with length one, every starting key counts once, vowel or not |
| Walks.NoLinksTotal | knight_problem.py:160-168 | without links, no sequence of two or more keys exists |
| Walks.CompletionsMonotone | knight_problem.py:166-167 | raising the vowel limit never lowers the completions of a state |
| Walks.TotalMonotone | knight_problem.py:109-121 | raising the vowel limit never lowers the answer |
| Graph.UniqueKeyboardSimple | knight_problem.py:80-94 | a keyboard without repeated labels builds duplicate-free neighbour lists |
| Solver.KnightSolver.constructor | knight_problem.py:101-107 | the table has shape (node count, length − 1, maxVowels + 1) and is all zeros, so the solver starts valid over a valid graph |
| Solver.KnightSolver.Solve | knight_problem.py:109-121 | the answer is the sum over the starting keys in dictionary order, equals the number of admissible sequences when lists are duplicate-free, and leaves only true counts in the table |
| Solver.KnightSolver.RecursiveSearch | knight_problem.py:123-176 | the result is the number of completions of the state, whether it comes from the table or is computed, and the table stays sound |
| Solver.KnightSolver.SearchNeighbours | knight_problem.py:160-168 | the loop over the neighbours sums their completions, skipping those that would exceed the vowel limit |
| Solver.KnightSolver.SearchNeighbour | knight_problem.py:162-168 | one neighbour adds nothing past the vowel limit, and otherwise its completions |
| Solver.KnightSolver.Store | knight_problem.py:170-175 | storing a true count sets that entry only and keeps the table sound |
| Tree.Node.constructor | tree.py:2-5 | a new node has no children, no parent and no data, and is trivially linked |
| Tree.Node.AddChild | tree.py:7-9 | the child is appended to the children, its parent becomes this node, and back-links that held still hold |
| Tree.Reparent | tree.py:7-9 | adding a child to a second parent leaves it listed under the first, whose back-links then break |
| Tree.AddChildTwice | tree.py:7-9 | adding the same child twice lists it twice |
| Fixtures.TestImpossible | test_knight_problem.py:5-12 | on the two-by-two keyboard with at most two vowels, the answer is 0 |
| Fixtures.TinyGridTotal | test_knight_problem.py:5-12 | a keyboard of at most two rows and two columns has no sequence of two or more keys |
| Fixtures.DiamondTotal | test_knight_problem.py:59-77 | the hand-made triangle with at most one vowel has 4·length − 2 sequences of each length from two on |
| Fixtures.TestDiamond | test_knight_problem.py:59-77 | solving the triangle for lengths 2, 3, 4 and 5 gives 6, 10, 14 and 18 |
| Fixtures.SolveTwice | knight_problem.py:109-121 | solving twice with one solver and one table gives the same answer |
| GridFixtures.KnightTargets | knight_problem.py:59-66 | the target list of a cell is the eight moves' hits, in the order of the move table |
| GridFixtures.BuiltNode | knight_problem.py:88-94 | with unique labels, the node built for a cell lists exactly that cell's knight targets |
| GridFixtures.CellLinks | knight_problem.py:88-94 | a cell whose eight moves hit a given list gets exactly that list as its node's neighbours |
| GridFixtures.BuiltKeys | knight_problem.py:82-86 | with unique labels, the dictionary's keys are the non-hole cells in reading order |
| GridFixtures.RegularCompletions | knight_problem.py:140-168 | on a vowel-free part where every key has d neighbours inside the part, a state at position pos has d^(length − pos) completions |
| GridFixtures.IsolatedCompletions | knight_problem.py:160-168 | a key without neighbours completes nothing before the last position |
| GridFixtures.VowelPairCompletions | knight_problem.py:140-168 | on a two-cycle of a vowel and a consonant, a state has one completion if the vowels it would still meet fit under the limit, and none otherwise |
| GridFixtures.RegularTotal | knight_problem.py:109-121 | over starts that are regular of degree d or isolated, the total is d^(length − 1) per regular start |
| GridFixtures.PadBuilt | test_knight_problem.py:15-21 | the pad builds the eight-cycle 1-6-7-2-9-4-3-8 and leaves 5 without neighbours |
| GridFixtures.PadTotal | test_knight_problem.py:15-23 | the pad has 8 · 2^(length − 1) sequences of every length from two on, whatever the vowel limit |
| GridFixtures.PadFixture | test_knight_problem.py:15-23 | the built pad has single-character labels and 2^9 · 8 sequences of ten keys with at most two vowels |
| GridFixtures.TestMiniPad | test_knight_problem.py:15-23 | building and solving the pad gives 4096 |
| GridFixtures.DigitsTotal | test_knight_problem.py:26-33 | the digit keyboard (two-cycles 1-6 and 3-4, with 2 and 5 isolated) has 4 sequences of every length from two on |
| GridFixtures.DigitsFixture | test_knight_problem.py:26-33 | the built digit keyboard has single-character labels and 4 sequences of ten keys with at most two vowels |
| GridFixtures.TestDigits | test_knight_problem.py:26-33 | building and solving the digit keyboard gives 4 |
| GridFixtures.VowelGridTotal | test_knight_problem.py:34-42 | with "A" in the corner, the A-6 walks of ten keys hold five vowels each: 2 sequences below a limit of five, 4 from five on |
| GridFixtures.VowelGridFixture | test_knight_problem.py:34-42 | the built vowel keyboard has single-character labels and that total at ten keys |
| GridFixtures.SolveVowelGrid | test_knight_problem.py:38-42 | a fresh solver over the vowel keyboard returns 4 from a limit of five on and 2 below it |
| GridFixtures.TestVowels | test_knight_problem.py:34-42 | one vowel keyboard solved with at most four and at most five vowels gives 2 and 4 |
| GridFixtures.SparseTotal | test_knight_problem.py:45-56 | the two-cycle 2-3 gives 2 sequences of every length from two on |
| GridFixtures.SparseFixture | test_knight_problem.py:45-56 | the built sparse keyboard holds only the labels 2 and 3, neither a vowel, and has 2 sequences of ten keys without vowels |
| GridFixtures.TestOnePath | test_knight_problem.py:45-56 | building and solving the sparse keyboard with no vowels allowed gives 2 |

## Left out

- The memo table is a float64 NumPy array in the source, and a cached hit returns that float. The model uses `int` throughout.
- `KeyNode.__str__` and the `__main__` block, which print, are not modelled.
- Neighbour lists hold labels, not references to node objects. Because the source shares node objects, its lists see later updates to a node. The model reads neighbours through the dictionary, which comes to the same thing.
- Graph.KeyboardGraph.ConstructGraph: requires an empty dictionary, the state the source's constructor gives it.
- Graph.KeyboardGraph.GetValidKnightMoves: requires the key to be on the keyboard. For a missing key the source fails with an unbound local variable, and the builder never asks for one.
- Solver.KnightSolver.Solve: requires single-character labels. With longer labels the source measures the sequence in characters, not keys, and the model does not cover that.
- Solver.KnightSolver.Solve: requires that, when `maxVowels == 0` and `length >= 2`, no label is a vowel. A vowel start then indexes the table out of range, and the source raises an error. This case is excluded, not modelled as a failure.
- Solver.KnightSolver.constructor: requires `length >= 1` and a natural `maxVowels`. With `length < 1` or `max_vowels < -1` NumPy gets a negative dimension and the constructor raises. With `max_vowels == -1` the table's last axis is empty, which NumPy accepts; the source then returns the node count when `length == 1`, because lines 141-143 return before the table is read, and raises IndexError at the first table lookup (lines 146-151) when `length >= 2`. The model does not cover `max_vowels == -1`.
- Solver.KnightSolver.Valid: ties every non-zero table entry to the graph's dictionary as it is. Any change to `graph.nodes` after an entry is stored, even one that keeps the node count, is not covered. The source would then return stale cached counts.
- Walks.IsVowel: the source tests whether the label's upper case is A, E, I, O or U. The model spells this out for single characters: the ten ASCII vowels and U+0131 (dotless i, whose upper case is I).
- Python's recursion limit is not modelled.
- Tree.Node: the payload is `Option<T>` rather than a dynamically typed value.
- Several Python functions are split into smaller Dafny methods that follow the same loops: `AddNodes`/`AddRowNodes`/`AddNode`, `AddEdges`/`AddRowEdges`/`AddCellEdges`, `FindKey`, `SearchNeighbours`/`SearchNeighbour` and `Store`.
