/**
 Matrix indices for the non-ground nodes: the non-ground names in
 registration order, and the name-to-index map built from them.
 */
module Indexing {
  import opened Circuits

  /** Name-to-index map; ground never occurs as a key. */
  type Index = map<string, nat>

  /** The non-ground names of `nodes`, in their order. */
  function MainNodes(nodes: seq<string>): (m: seq<string>)
    ensures |m| <= |nodes|
    ensures forall k :: 0 <= k < |m| ==> m[k] != Ground
    decreases |nodes|
  {
    if |nodes| == 0 then []
    else
      var rest := MainNodes(nodes[..|nodes| - 1]);
      var last := nodes[|nodes| - 1];
      assert nodes == nodes[..|nodes| - 1] + [last];
      if last != Ground then rest + [last] else rest
  }

  /**
   The map that sends `main[i]` to `i`, filled in for i = 0, 1, … in turn;
   a later position would overwrite an earlier one.
   */
  function IndexOf(main: seq<string>): (idx: Index)
    ensures forall x :: x in idx ==> idx[x] < |main| && main[idx[x]] == x
    decreases |main|
  {
    if |main| == 0 then map[]
    else IndexOf(main[..|main| - 1])[main[|main| - 1] := |main| - 1]
  }

  /**
   The `node_index` of the circuit with node list `nodes`: ground gets no
   index, and every key is sent to a position of the non-ground list that holds it.
   */
  function NodeIndex(nodes: seq<string>): (idx: Index)
    ensures Ground !in idx
    ensures forall x :: x in idx ==> idx[x] < |MainNodes(nodes)| && MainNodes(nodes)[idx[x]] == x
  {
    IndexOf(MainNodes(nodes))
  }

  /** Distinct names get distinct indices. */
  predicate Injective(idx: Index) {
    forall a, b :: a in idx && b in idx && idx[a] == idx[b] ==> a == b
  }

  /** With ground first and no duplicates, the non-ground names are just the tail. */
  lemma {:induction false} MainNodesOfWellFormed(nodes: seq<string>)
    requires |nodes| > 0 && nodes[0] == Ground && NoDuplicates(nodes)
    ensures MainNodes(nodes) == nodes[1..]
    decreases |nodes|
  {
    if |nodes| > 1 {
      var init := nodes[..|nodes| - 1];
      MainNodesOfWellFormed(init);
      assert nodes[1..] == init[1..] + [nodes[|nodes| - 1]];
    }
  }

  /** Every listed name gets an index. */
  lemma {:induction false} IndexOfCovers(main: seq<string>)
    ensures forall k :: 0 <= k < |main| ==> main[k] in IndexOf(main)
    decreases |main|
  {
    if |main| > 0 {
      IndexOfCovers(main[..|main| - 1]);
    }
  }

  /** A duplicate-free list gets every position as its own index. */
  lemma IndexOfPositions(main: seq<string>)
    requires NoDuplicates(main)
    ensures forall k :: 0 <= k < |main| ==> main[k] in IndexOf(main) && IndexOf(main)[main[k]] == k
  {
    IndexOfCovers(main);
    forall k | 0 <= k < |main|
      ensures IndexOf(main)[main[k]] == k
    {
      var j := IndexOf(main)[main[k]];
      assert main[j] == main[k];
    }
  }

  /** Each registered non-ground node nodes[k] gets index k - 1. */
  lemma NodeIndexPositions(nodes: seq<string>)
    requires |nodes| > 0 && nodes[0] == Ground && NoDuplicates(nodes)
    ensures forall k :: 1 <= k < |nodes| ==> nodes[k] in NodeIndex(nodes) && NodeIndex(nodes)[nodes[k]] == k - 1
  {
    MainNodesOfWellFormed(nodes);
    var main := nodes[1..];
    assert NoDuplicates(main) by {
      forall i, j | 0 <= i < j < |main| ensures main[i] != main[j] {
        assert main[i] == nodes[i + 1] && main[j] == nodes[j + 1];
      }
    }
    IndexOfPositions(main);
    forall k | 1 <= k < |nodes| ensures nodes[k] in NodeIndex(nodes) && NodeIndex(nodes)[nodes[k]] == k - 1 {
      assert nodes[k] == main[k - 1];
    }
  }

  /** Every index names a registered node below N, so distinct names get distinct indices. */
  lemma NodeIndexInverse(nodes: seq<string>)
    requires |nodes| > 0 && nodes[0] == Ground && NoDuplicates(nodes)
    ensures forall x :: x in NodeIndex(nodes) ==> NodeIndex(nodes)[x] < |nodes| - 1 && nodes[NodeIndex(nodes)[x] + 1] == x
    ensures Injective(NodeIndex(nodes))
  {
    MainNodesOfWellFormed(nodes);
  }

  /**
   The node index is a bijection from the non-ground names onto 0..N-1 in
   registration order: nodes[k] gets k - 1, and ground gets nothing.
   */
  lemma NodeIndexBijection(nodes: seq<string>)
    requires |nodes| > 0 && nodes[0] == Ground && NoDuplicates(nodes)
    ensures Ground !in NodeIndex(nodes)
    ensures forall x :: x in NodeIndex(nodes) <==> x in nodes && x != Ground
    ensures forall k :: 1 <= k < |nodes| ==> NodeIndex(nodes)[nodes[k]] == k - 1
    ensures forall x :: x in NodeIndex(nodes) ==> NodeIndex(nodes)[x] < |nodes| - 1 && nodes[NodeIndex(nodes)[x] + 1] == x
    ensures Injective(NodeIndex(nodes))
  {
    var idx := NodeIndex(nodes);
    NodeIndexPositions(nodes);
    NodeIndexInverse(nodes);
    forall x ensures x in idx <==> x in nodes && x != Ground {
      if x in idx {
        assert nodes[idx[x] + 1] == x;
      }
      if x in nodes && x != Ground {
        var k :| 0 <= k < |nodes| && nodes[k] == x;
      }
    }
  }
}
