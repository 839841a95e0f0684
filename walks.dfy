/**
 * What the solver counts: key sequences of a fixed length that follow the knight
 * links of a key graph and hold at most a given number of vowels.
 *
 * `Completions` is the recurrence the memoised search computes; `Extensions`
 * lists the sequences themselves, and the lemmas below show the two agree.
 */
module Walks {
  import opened Wrappers
  import opened Graph

  /** A label the solver counts as a vowel: one character whose upper case is A, E, I, O or U. */
  predicate IsVowel(key: string)
  {
    |key| == 1 && key[0] in {'a', 'e', 'i', 'o', 'u', 'A', 'E', 'I', 'O', 'U', '\U{0131}'}
  }

  function VowelWeight(key: string): (weight: nat)
  {
    if IsVowel(key) then 1 else 0
  }

  /** The number of vowel labels in `w`. */
  function VowelsIn(w: seq<string>): (n: nat)
    ensures n <= |w|
  {
    if w == [] then 0 else VowelWeight(w[0]) + VowelsIn(w[1..])
  }

  /** Counting vowels piece by piece, as the search does one key at a time, counts the whole. */
  lemma {:induction false} VowelsInAppend(a: seq<string>, b: seq<string>)
    ensures VowelsIn(a + b) == VowelsIn(a) + VowelsIn(b)
  {
    if a == [] {
      assert a + b == b;
    } else {
      assert (a + b)[1..] == a[1..] + b;
      VowelsInAppend(a[1..], b);
    }
  }

  /** Every label has exactly one character, so a sequence of k keys is a string of length k. */
  ghost predicate SingleCharLabels(nodes: map<string, KeyNode>)
  {
    forall k :: k in nodes ==> |k| == 1
  }

  /** `w` follows the links: every entry is a node and each next entry is in the previous one's list. */
  ghost predicate IsWalk(nodes: map<string, KeyNode>, w: seq<string>)
  {
    && (forall i :: 0 <= i < |w| ==> w[i] in nodes)
    && forall i :: 0 <= i < |w| - 1 ==> w[i] in nodes && w[i + 1] in nodes[w[i]].knightNeighbours
  }

  /**
   * A sequence the solver counts: `length` keys along the links, and, once it has a
   * second key, no more than `maxVowels` vowels (a lone first key is never pruned).
   */
  ghost predicate Admissible(nodes: map<string, KeyNode>, length: nat, maxVowels: nat, w: seq<string>)
  {
    |w| == length && IsWalk(nodes, w) && (length <= 1 || VowelsIn(w) <= maxVowels)
  }

  /**
   * The number of ways to finish a sequence whose `pos`-th key is `key` and which holds
   * `vowels` vowels so far: one if it is complete, otherwise the sum over the neighbours
   * that keep the vowel count within `maxVowels`.
   */
  function Completions(nodes: map<string, KeyNode>, length: nat, maxVowels: nat, key: string, pos: nat, vowels: nat): (count: nat)
    requires Closed(nodes) && key in nodes && pos <= length
    decreases length - pos, 1
  {
    if pos == length then 1
    else NeighbourSum(nodes, length, maxVowels, nodes[key].knightNeighbours, pos, vowels)
  }

  /** The sum of `Completions` over the neighbours in `nbrs` that the vowel limit lets through. */
  function NeighbourSum(nodes: map<string, KeyNode>, length: nat, maxVowels: nat, nbrs: seq<string>, pos: nat, vowels: nat): (count: nat)
    requires Closed(nodes) && (forall n :: n in nbrs ==> n in nodes) && pos < length
    decreases length - pos, 0, |nbrs|
  {
    if nbrs == [] then 0
    else
      var n := nbrs[|nbrs| - 1];
      var next := vowels + VowelWeight(n);
      NeighbourSum(nodes, length, maxVowels, nbrs[..|nbrs| - 1], pos, vowels) +
        (if next > maxVowels then 0 else Completions(nodes, length, maxVowels, n, pos + 1, next))
  }

  /** The solver's answer: the sum over the starting keys of their completions. */
  function Total(nodes: map<string, KeyNode>, length: nat, maxVowels: nat, starts: seq<string>): (count: nat)
    requires Closed(nodes) && 1 <= length && forall k :: k in starts ==> k in nodes
  {
    if starts == [] then 0
    else
      var k := starts[|starts| - 1];
      Total(nodes, length, maxVowels, starts[..|starts| - 1]) + Completions(nodes, length, maxVowels, k, 1, VowelWeight(k))
  }

  /** Adding the neighbour at index `m` of `nbrs` to the sum over the ones before it. */
  lemma NeighbourSumStep(nodes: map<string, KeyNode>, length: nat, maxVowels: nat, nbrs: seq<string>, m: nat, pos: nat, vowels: nat)
    requires Closed(nodes) && (forall n :: n in nbrs ==> n in nodes) && pos < length && m < |nbrs|
    ensures NeighbourSum(nodes, length, maxVowels, nbrs[..m + 1], pos, vowels) ==
              NeighbourSum(nodes, length, maxVowels, nbrs[..m], pos, vowels) +
              (if vowels + VowelWeight(nbrs[m]) > maxVowels then 0
               else Completions(nodes, length, maxVowels, nbrs[m], pos + 1, vowels + VowelWeight(nbrs[m])))
  {
    assert nbrs[..m + 1][..m] == nbrs[..m];
  }

  /** Adding the starting key at index `i` of `starts` to the total over the ones before it. */
  lemma TotalStep(nodes: map<string, KeyNode>, length: nat, maxVowels: nat, starts: seq<string>, i: nat)
    requires Closed(nodes) && 1 <= length && (forall k :: k in starts ==> k in nodes) && i < |starts|
    ensures Total(nodes, length, maxVowels, starts[..i + 1]) ==
              Total(nodes, length, maxVowels, starts[..i]) + Completions(nodes, length, maxVowels, starts[i], 1, VowelWeight(starts[i]))
  {
    assert starts[..i + 1][..i] == starts[..i];
  }

  /** `key` put in front of each of `ws`. */
  function Prepend(key: string, ws: seq<seq<string>>): (r: seq<seq<string>>)
    ensures |r| == |ws|
    ensures forall i :: 0 <= i < |ws| ==> r[i] == [key] + ws[i]
  {
    seq(|ws|, i requires 0 <= i < |ws| => [key] + ws[i])
  }

  /** The completions themselves, each listed from `key` on. */
  function Extensions(nodes: map<string, KeyNode>, length: nat, maxVowels: nat, key: string, pos: nat, vowels: nat): (ws: seq<seq<string>>)
    requires Closed(nodes) && key in nodes && pos <= length
    decreases length - pos, 1
  {
    if pos == length then [[key]]
    else NeighbourExtensions(nodes, length, maxVowels, key, nodes[key].knightNeighbours, pos, vowels)
  }

  /** The completions through the neighbours in `nbrs`, each listed from `key` on. */
  function NeighbourExtensions(nodes: map<string, KeyNode>, length: nat, maxVowels: nat, key: string, nbrs: seq<string>, pos: nat, vowels: nat): (ws: seq<seq<string>>)
    requires Closed(nodes) && (forall n :: n in nbrs ==> n in nodes) && pos < length
    decreases length - pos, 0, |nbrs|
  {
    if nbrs == [] then []
    else
      var n := nbrs[|nbrs| - 1];
      var next := vowels + VowelWeight(n);
      NeighbourExtensions(nodes, length, maxVowels, key, nbrs[..|nbrs| - 1], pos, vowels) +
        (if next > maxVowels then [] else Prepend(key, Extensions(nodes, length, maxVowels, n, pos + 1, next)))
  }

  /** All counted sequences, grouped by starting key in the order of `starts`. */
  function AllWalks(nodes: map<string, KeyNode>, length: nat, maxVowels: nat, starts: seq<string>): (ws: seq<seq<string>>)
    requires Closed(nodes) && 1 <= length && forall k :: k in starts ==> k in nodes
  {
    if starts == [] then []
    else
      var k := starts[|starts| - 1];
      AllWalks(nodes, length, maxVowels, starts[..|starts| - 1]) + Extensions(nodes, length, maxVowels, k, 1, VowelWeight(k))
  }

  // ---------------------------------------------------------------------------
  // The listed sequences: how many, which ones, and that none is listed twice.
  // ---------------------------------------------------------------------------

  /** There are exactly as many listed completions as the recurrence counts. */
  lemma {:induction false} ExtensionsCount(nodes: map<string, KeyNode>, length: nat, maxVowels: nat, key: string, pos: nat, vowels: nat)
    requires Closed(nodes) && key in nodes && pos <= length
    ensures |Extensions(nodes, length, maxVowels, key, pos, vowels)| == Completions(nodes, length, maxVowels, key, pos, vowels)
    decreases length - pos, 1
  {
    if pos < length {
      NeighbourExtensionsCount(nodes, length, maxVowels, key, nodes[key].knightNeighbours, pos, vowels);
    }
  }

  lemma {:induction false} NeighbourExtensionsCount(nodes: map<string, KeyNode>, length: nat, maxVowels: nat, key: string, nbrs: seq<string>, pos: nat, vowels: nat)
    requires Closed(nodes) && (forall n :: n in nbrs ==> n in nodes) && pos < length
    ensures |NeighbourExtensions(nodes, length, maxVowels, key, nbrs, pos, vowels)| == NeighbourSum(nodes, length, maxVowels, nbrs, pos, vowels)
    decreases length - pos, 0, |nbrs|
  {
    if nbrs != [] {
      var n := nbrs[|nbrs| - 1];
      var next := vowels + VowelWeight(n);
      NeighbourExtensionsCount(nodes, length, maxVowels, key, nbrs[..|nbrs| - 1], pos, vowels);
      if next <= maxVowels {
        ExtensionsCount(nodes, length, maxVowels, n, pos + 1, next);
      }
    }
  }

  /** Every listed completion starts at `key` and has the keys still missing. */
  lemma {:induction false} ExtensionsHead(nodes: map<string, KeyNode>, length: nat, maxVowels: nat, key: string, pos: nat, vowels: nat)
    requires Closed(nodes) && key in nodes && pos <= length
    ensures forall w :: w in Extensions(nodes, length, maxVowels, key, pos, vowels) ==>
                          |w| == length - pos + 1 && w[0] == key
    decreases length - pos, 1
  {
    if pos < length {
      NeighbourExtensionsHead(nodes, length, maxVowels, key, nodes[key].knightNeighbours, pos, vowels);
    }
  }

  lemma {:induction false} NeighbourExtensionsHead(nodes: map<string, KeyNode>, length: nat, maxVowels: nat, key: string, nbrs: seq<string>, pos: nat, vowels: nat)
    requires Closed(nodes) && (forall n :: n in nbrs ==> n in nodes) && pos < length
    ensures forall w :: w in NeighbourExtensions(nodes, length, maxVowels, key, nbrs, pos, vowels) ==>
                          |w| == length - pos + 1 && w[0] == key
    decreases length - pos, 0, |nbrs|
  {
    if nbrs != [] {
      var n := nbrs[|nbrs| - 1];
      var next := vowels + VowelWeight(n);
      NeighbourExtensionsHead(nodes, length, maxVowels, key, nbrs[..|nbrs| - 1], pos, vowels);
      if next <= maxVowels {
        ExtensionsHead(nodes, length, maxVowels, n, pos + 1, next);
      }
    }
  }

  lemma PrependMembership(key: string, ws: seq<seq<string>>, w: seq<string>)
    ensures w in Prepend(key, ws) <==> |w| >= 1 && w[0] == key && w[1..] in ws
  {
    if w in Prepend(key, ws) {
      var i :| 0 <= i < |ws| && Prepend(key, ws)[i] == w;
      assert w[1..] == ws[i];
    }
    if |w| >= 1 && w[0] == key && w[1..] in ws {
      var i :| 0 <= i < |ws| && ws[i] == w[1..];
      assert Prepend(key, ws)[i] == w;
    }
  }

  lemma PrependDistinct(key: string, ws: seq<seq<string>>)
    requires NoDuplicates(ws)
    ensures NoDuplicates(Prepend(key, ws))
  {
    var r := Prepend(key, ws);
    forall i, j | 0 <= i < j < |r|
      ensures r[i] != r[j]
    {
      assert r[i][1..] == ws[i] && r[j][1..] == ws[j];
    }
  }

  /** `w` steps from `key` to a neighbour within the vowel limit and goes on as a listed completion of it. */
  ghost predicate StepsOn(nodes: map<string, KeyNode>, length: nat, maxVowels: nat, key: string, pos: nat, vowels: nat, w: seq<string>)
    requires Closed(nodes) && pos < length
  {
    && |w| >= 2 && w[0] == key && w[1] in nodes
    && vowels + VowelWeight(w[1]) <= maxVowels
    && w[1..] in Extensions(nodes, length, maxVowels, w[1], pos + 1, vowels + VowelWeight(w[1]))
  }

  /** A sequence is listed through `nbrs` exactly when its second key is one of them and it steps on as listed. */
  lemma {:induction false} NeighbourExtensionsMembership(nodes: map<string, KeyNode>, length: nat, maxVowels: nat, key: string, nbrs: seq<string>, pos: nat, vowels: nat, w: seq<string>)
    requires Closed(nodes) && (forall n :: n in nbrs ==> n in nodes) && pos < length
    ensures w in NeighbourExtensions(nodes, length, maxVowels, key, nbrs, pos, vowels) <==>
              |w| >= 2 && w[1] in nbrs && StepsOn(nodes, length, maxVowels, key, pos, vowels, w)
  {
    if nbrs != [] {
      var prefix := nbrs[..|nbrs| - 1];
      var n := nbrs[|nbrs| - 1];
      var next := vowels + VowelWeight(n);
      assert forall x :: x in nbrs <==> x in prefix || x == n by {
        assert nbrs == prefix + [n];
      }
      NeighbourExtensionsMembership(nodes, length, maxVowels, key, prefix, pos, vowels, w);
      if next <= maxVowels {
        PrependStepMembership(nodes, length, maxVowels, key, n, pos, vowels, w);
      }
    }
  }

  /** A sequence is in the block contributed by neighbour `n` exactly when its second key is `n` and it steps on as listed. */
  lemma PrependStepMembership(nodes: map<string, KeyNode>, length: nat, maxVowels: nat, key: string, n: string, pos: nat, vowels: nat, w: seq<string>)
    requires Closed(nodes) && n in nodes && pos < length && vowels + VowelWeight(n) <= maxVowels
    ensures w in Prepend(key, Extensions(nodes, length, maxVowels, n, pos + 1, vowels + VowelWeight(n))) <==>
              |w| >= 2 && w[1] == n && StepsOn(nodes, length, maxVowels, key, pos, vowels, w)
  {
    var tail := Extensions(nodes, length, maxVowels, n, pos + 1, vowels + VowelWeight(n));
    PrependMembership(key, tail, w);
    ExtensionsHead(nodes, length, maxVowels, n, pos + 1, vowels + VowelWeight(n));
    if |w| >= 1 && w[1..] in tail {
      assert w[1..][0] == w[1];
    }
  }

  /** The sequence `w` follows the links exactly when its first step does and the rest of it does. */
  lemma IsWalkCons(nodes: map<string, KeyNode>, w: seq<string>)
    requires |w| >= 2
    ensures IsWalk(nodes, w) <==>
              w[0] in nodes && w[1] in nodes[w[0]].knightNeighbours && IsWalk(nodes, w[1..])
  {
    var t := w[1..];
    if w[0] in nodes && w[1] in nodes[w[0]].knightNeighbours && IsWalk(nodes, t) {
      forall i | 0 <= i < |w|
        ensures w[i] in nodes
      {
        if i > 0 {
          assert w[i] == t[i - 1];
        }
      }
      forall i | 0 <= i < |w| - 1
        ensures w[i + 1] in nodes[w[i]].knightNeighbours
      {
        if i > 0 {
          assert w[i] == t[i - 1] && w[i + 1] == t[i];
        }
      }
    }
    if IsWalk(nodes, w) {
      forall i | 0 <= i < |t|
        ensures t[i] in nodes
      {
        assert t[i] == w[i + 1];
      }
      forall i | 0 <= i < |t| - 1
        ensures t[i + 1] in nodes[t[i]].knightNeighbours
      {
        assert t[i] == w[i + 1] && t[i + 1] == w[i + 2];
      }
    }
  }

  /**
   * `w` completes a sequence whose `pos`-th key is `key` with `vowels` vowels so far: it
   * starts at `key`, has the keys still missing, follows the links and, when it adds
   * any key, stays within the vowel limit.
   */
  ghost predicate Completes(nodes: map<string, KeyNode>, length: nat, maxVowels: nat, key: string, pos: nat, vowels: nat, w: seq<string>)
    requires pos <= length
  {
    && |w| == length - pos + 1 && w[0] == key && IsWalk(nodes, w)
    && (pos == length || vowels + VowelsIn(w[1..]) <= maxVowels)
  }

  /** Before the last position, completing from `key` is one step along a link within the limit, then completing from there. */
  lemma CompletesStep(nodes: map<string, KeyNode>, length: nat, maxVowels: nat, key: string, pos: nat, vowels: nat, w: seq<string>)
    requires Closed(nodes) && key in nodes && pos < length
    ensures Completes(nodes, length, maxVowels, key, pos, vowels, w) <==>
              && |w| >= 2 && w[1] in nodes[key].knightNeighbours
              && StepsOnCompleting(nodes, length, maxVowels, key, pos, vowels, w)
  {
    if |w| >= 2 {
      assert w[1..][1..] == w[2..];
      assert VowelsIn(w[1..]) == VowelWeight(w[1]) + VowelsIn(w[2..]);
      IsWalkCons(nodes, w);
    }
  }

  /** Like `StepsOn`, with the rest of `w` described by `Completes` instead of by the listing. */
  ghost predicate StepsOnCompleting(nodes: map<string, KeyNode>, length: nat, maxVowels: nat, key: string, pos: nat, vowels: nat, w: seq<string>)
    requires pos < length
  {
    && |w| >= 2 && w[0] == key && w[1] in nodes
    && vowels + VowelWeight(w[1]) <= maxVowels
    && Completes(nodes, length, maxVowels, w[1], pos + 1, vowels + VowelWeight(w[1]), w[1..])
  }

  /**
   * The listed completions of `key` at position `pos` are exactly the link-following
   * sequences from `key` with the missing number of keys that stay within the limit.
   */
  lemma {:induction false} ExtensionsMembership(nodes: map<string, KeyNode>, length: nat, maxVowels: nat, key: string, pos: nat, vowels: nat, w: seq<string>)
    requires Closed(nodes) && key in nodes && pos <= length
    ensures w in Extensions(nodes, length, maxVowels, key, pos, vowels) <==> Completes(nodes, length, maxVowels, key, pos, vowels, w)
    decreases length - pos
  {
    if pos == length {
      if |w| == 1 && w[0] == key {
        assert w == [key];
      }
    } else {
      NeighbourExtensionsMembership(nodes, length, maxVowels, key, nodes[key].knightNeighbours, pos, vowels, w);
      CompletesStep(nodes, length, maxVowels, key, pos, vowels, w);
      if |w| >= 2 && w[1] in nodes {
        ExtensionsMembership(nodes, length, maxVowels, w[1], pos + 1, vowels + VowelWeight(w[1]), w[1..]);
      }
    }
  }

  /** With duplicate-free neighbour lists no completion is listed twice. */
  lemma {:induction false} ExtensionsDistinct(nodes: map<string, KeyNode>, length: nat, maxVowels: nat, key: string, pos: nat, vowels: nat)
    requires Closed(nodes) && SimpleLists(nodes) && key in nodes && pos <= length
    ensures NoDuplicates(Extensions(nodes, length, maxVowels, key, pos, vowels))
    decreases length - pos, 1
  {
    if pos < length {
      NeighbourExtensionsDistinct(nodes, length, maxVowels, key, nodes[key].knightNeighbours, pos, vowels);
    }
  }

  lemma {:induction false} NeighbourExtensionsDistinct(nodes: map<string, KeyNode>, length: nat, maxVowels: nat, key: string, nbrs: seq<string>, pos: nat, vowels: nat)
    requires Closed(nodes) && SimpleLists(nodes) && (forall n :: n in nbrs ==> n in nodes) && pos < length
    requires NoDuplicates(nbrs)
    ensures NoDuplicates(NeighbourExtensions(nodes, length, maxVowels, key, nbrs, pos, vowels))
    decreases length - pos, 0, |nbrs|
  {
    if nbrs != [] {
      var prefix := nbrs[..|nbrs| - 1];
      var n := nbrs[|nbrs| - 1];
      var next := vowels + VowelWeight(n);
      assert nbrs == prefix + [n];
      NoDuplicatesAppend(prefix, [n]);
      NeighbourExtensionsDistinct(nodes, length, maxVowels, key, prefix, pos, vowels);
      if next <= maxVowels {
        var head := NeighbourExtensions(nodes, length, maxVowels, key, prefix, pos, vowels);
        var tail := Extensions(nodes, length, maxVowels, n, pos + 1, next);
        ExtensionsDistinct(nodes, length, maxVowels, n, pos + 1, next);
        PrependDistinct(key, tail);
        ExtensionsHead(nodes, length, maxVowels, n, pos + 1, next);
        BlocksDisjoint(nodes, length, maxVowels, key, prefix, n, pos, vowels);
        NoDuplicatesAppend(head, Prepend(key, tail));
      }
    }
  }

  /** The block of a neighbour not among `prefix` shares no sequence with the blocks of `prefix`. */
  lemma BlocksDisjoint(nodes: map<string, KeyNode>, length: nat, maxVowels: nat, key: string, prefix: seq<string>, n: string, pos: nat, vowels: nat)
    requires Closed(nodes) && (forall x :: x in prefix ==> x in nodes) && n in nodes && n !in prefix && pos < length
    requires vowels + VowelWeight(n) <= maxVowels
    ensures forall x :: x in NeighbourExtensions(nodes, length, maxVowels, key, prefix, pos, vowels) ==>
                          x !in Prepend(key, Extensions(nodes, length, maxVowels, n, pos + 1, vowels + VowelWeight(n)))
  {
    forall x | x in NeighbourExtensions(nodes, length, maxVowels, key, prefix, pos, vowels)
      ensures x !in Prepend(key, Extensions(nodes, length, maxVowels, n, pos + 1, vowels + VowelWeight(n)))
    {
      NeighbourExtensionsMembership(nodes, length, maxVowels, key, prefix, pos, vowels, x);
      PrependStepMembership(nodes, length, maxVowels, key, n, pos, vowels, x);
    }
  }

  /** There are exactly as many counted sequences as the solver's answer. */
  lemma {:induction false} AllWalksCount(nodes: map<string, KeyNode>, length: nat, maxVowels: nat, starts: seq<string>)
    requires Closed(nodes) && 1 <= length && forall k :: k in starts ==> k in nodes
    ensures |AllWalks(nodes, length, maxVowels, starts)| == Total(nodes, length, maxVowels, starts)
  {
    if starts != [] {
      var k := starts[|starts| - 1];
      AllWalksCount(nodes, length, maxVowels, starts[..|starts| - 1]);
      ExtensionsCount(nodes, length, maxVowels, k, 1, VowelWeight(k));
    }
  }

  /** The counted sequences are exactly the admissible ones that start at one of `starts`. */
  lemma {:induction false} AllWalksMembership(nodes: map<string, KeyNode>, length: nat, maxVowels: nat, starts: seq<string>, w: seq<string>)
    requires Closed(nodes) && 1 <= length && forall k :: k in starts ==> k in nodes
    ensures w in AllWalks(nodes, length, maxVowels, starts) <==>
              |w| == length && w[0] in starts && Admissible(nodes, length, maxVowels, w)
  {
    if starts != [] {
      var prefix := starts[..|starts| - 1];
      var k := starts[|starts| - 1];
      assert starts == prefix + [k];
      AllWalksMembership(nodes, length, maxVowels, prefix, w);
      ExtensionsMembership(nodes, length, maxVowels, k, 1, VowelWeight(k), w);
    }
  }

  /** Over distinct starting keys and duplicate-free lists no sequence is counted twice. */
  lemma {:induction false} AllWalksDistinct(nodes: map<string, KeyNode>, length: nat, maxVowels: nat, starts: seq<string>)
    requires Closed(nodes) && SimpleLists(nodes) && 1 <= length && forall k :: k in starts ==> k in nodes
    requires NoDuplicates(starts)
    ensures NoDuplicates(AllWalks(nodes, length, maxVowels, starts))
  {
    if starts != [] {
      var prefix := starts[..|starts| - 1];
      var k := starts[|starts| - 1];
      assert starts == prefix + [k];
      NoDuplicatesAppend(prefix, [k]);
      AllWalksDistinct(nodes, length, maxVowels, prefix);
      var head := AllWalks(nodes, length, maxVowels, prefix);
      var tail := Extensions(nodes, length, maxVowels, k, 1, VowelWeight(k));
      ExtensionsDistinct(nodes, length, maxVowels, k, 1, VowelWeight(k));
      ExtensionsHead(nodes, length, maxVowels, k, 1, VowelWeight(k));
      forall x | x in head
        ensures x !in tail
      {
        AllWalksMembership(nodes, length, maxVowels, prefix, x);
      }
      NoDuplicatesAppend(head, tail);
    }
  }

  /** The set of counted sequences. */
  ghost function WalkSet(nodes: map<string, KeyNode>, length: nat, maxVowels: nat, starts: seq<string>): (ws: set<seq<string>>)
    requires Closed(nodes) && 1 <= length && forall k :: k in starts ==> k in nodes
  {
    set w | w in AllWalks(nodes, length, maxVowels, starts)
  }

  /**
   * Over a dictionary whose neighbour lists repeat nothing, the solver's answer is the
   * number of admissible sequences: those of `length` keys along the links with at most
   * `maxVowels` vowels.
   */
  lemma TotalCountsAdmissible(nodes: map<string, KeyNode>, keys: seq<string>, length: nat, maxVowels: nat)
    requires Closed(nodes) && KeyOrder(keys, nodes) && SimpleLists(nodes) && 1 <= length
    ensures Total(nodes, length, maxVowels, keys) == |WalkSet(nodes, length, maxVowels, keys)|
    ensures forall w :: w in WalkSet(nodes, length, maxVowels, keys) <==> Admissible(nodes, length, maxVowels, w)
  {
    AllWalksCount(nodes, length, maxVowels, keys);
    AllWalksDistinct(nodes, length, maxVowels, keys);
    DistinctCardinality(AllWalks(nodes, length, maxVowels, keys));
    forall w
      ensures w in WalkSet(nodes, length, maxVowels, keys) <==> Admissible(nodes, length, maxVowels, w)
    {
      AllWalksMembership(nodes, length, maxVowels, keys, w);
    }
  }

  /** Sequences of one key: every starting key counts once, vowel or not. */
  lemma {:induction false} SingleKeyTotal(nodes: map<string, KeyNode>, maxVowels: nat, starts: seq<string>)
    requires Closed(nodes) && forall k :: k in starts ==> k in nodes
    ensures Total(nodes, 1, maxVowels, starts) == |starts|
  {
    if starts != [] {
      SingleKeyTotal(nodes, maxVowels, starts[..|starts| - 1]);
    }
  }

  /** Without links no sequence of two or more keys exists. */
  lemma {:induction false} NoLinksTotal(nodes: map<string, KeyNode>, length: nat, maxVowels: nat, starts: seq<string>)
    requires Closed(nodes) && 2 <= length && forall k :: k in starts ==> k in nodes
    requires forall k :: k in nodes ==> nodes[k].knightNeighbours == []
    ensures Total(nodes, length, maxVowels, starts) == 0
  {
    if starts != [] {
      var k := starts[|starts| - 1];
      NoLinksTotal(nodes, length, maxVowels, starts[..|starts| - 1]);
      assert k in nodes && nodes[k].knightNeighbours == [];
      assert Completions(nodes, length, maxVowels, k, 1, VowelWeight(k)) == 0;
    }
  }

  /** Raising the vowel limit never loses a sequence. */
  lemma {:induction false} CompletionsMonotone(nodes: map<string, KeyNode>, length: nat, low: nat, high: nat, key: string, pos: nat, vowels: nat)
    requires Closed(nodes) && key in nodes && pos <= length && low <= high
    ensures Completions(nodes, length, low, key, pos, vowels) <= Completions(nodes, length, high, key, pos, vowels)
    decreases length - pos, 1
  {
    if pos < length {
      NeighbourSumMonotone(nodes, length, low, high, nodes[key].knightNeighbours, pos, vowels);
    }
  }

  lemma {:induction false} NeighbourSumMonotone(nodes: map<string, KeyNode>, length: nat, low: nat, high: nat, nbrs: seq<string>, pos: nat, vowels: nat)
    requires Closed(nodes) && (forall n :: n in nbrs ==> n in nodes) && pos < length && low <= high
    ensures NeighbourSum(nodes, length, low, nbrs, pos, vowels) <= NeighbourSum(nodes, length, high, nbrs, pos, vowels)
    decreases length - pos, 0, |nbrs|
  {
    if nbrs != [] {
      var n := nbrs[|nbrs| - 1];
      var next := vowels + VowelWeight(n);
      NeighbourSumMonotone(nodes, length, low, high, nbrs[..|nbrs| - 1], pos, vowels);
      if next <= low {
        CompletionsMonotone(nodes, length, low, high, n, pos + 1, next);
      }
    }
  }

  lemma {:induction false} TotalMonotone(nodes: map<string, KeyNode>, length: nat, low: nat, high: nat, starts: seq<string>)
    requires Closed(nodes) && 1 <= length && (forall k :: k in starts ==> k in nodes) && low <= high
    ensures Total(nodes, length, low, starts) <= Total(nodes, length, high, starts)
  {
    if starts != [] {
      var k := starts[|starts| - 1];
      TotalMonotone(nodes, length, low, high, starts[..|starts| - 1]);
      CompletionsMonotone(nodes, length, low, high, k, 1, VowelWeight(k));
    }
  }
}
