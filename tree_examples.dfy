/** Concrete tables and the trees the builder produces for them. */
module TreeExamples {
  import opened Dtos
  import opened EdgeTable
  import opened TreeSpec

  /** The children of each node of the table (1,2), (1,3), (2,4). */
  lemma ThreeEdgeChildren(rows: seq<Edge>)
    requires rows == [Edge(1, 2), Edge(1, 3), Edge(2, 4)]
    ensures ChildrenOf(rows, 1) == [2, 3] && ChildrenOf(rows, 2) == [4]
    ensures ChildrenOf(rows, 3) == [] && ChildrenOf(rows, 4) == []
  {
    var top, bottom := [Edge(1, 2)], [Edge(1, 3), Edge(2, 4)];
    assert rows == top + bottom;
    assert bottom[1..] == [Edge(2, 4)];
    forall id | id in {1, 2, 3, 4} ensures ChildrenOf(rows, id) == ChildrenOf(top, id) + ChildrenOf(bottom, id) {
      ChildrenOfAppend(top, bottom, id);
    }
  }

  /** Edges (1,2), (1,3), (2,4): the tree below 1 has 2 (with child 4) and then 3. */
  lemma {:induction false} ThreeEdgeTree(rows: seq<Edge>, rank: map<int, nat>)
    requires rows == [Edge(1, 2), Edge(1, 3), Edge(2, 4)]
    requires rank == map[1 := 2, 2 := 1, 3 := 0, 4 := 0]
    ensures Ranked(rows, rank)
    ensures Unfold(rows, rank, 1) == Node(1, [Node(2, [Node(4, [])]), Node(3, [])])
  {
    ThreeEdgeChildren(rows);
    var leaf := Node(4, []);
    assert ChildrenMatch(rows, leaf);
    assert ChildrenMatch(rows, Node(3, []));
    assert ChildrenMatch(rows, Node(2, [leaf]));
    assert Ranked(rows, rank) by {
      forall e | e in rows && e.fromId in rank ensures e.toId in rank && rank[e.toId] < rank[e.fromId] {
      }
    }
    ChildrenMatchUnique(rows, rank, Node(1, [Node(2, [leaf]), Node(3, [])]));
  }

  /** The children of each node of the table (1,2), (1,3), (2,4), (3,4). */
  lemma DiamondChildren(rows: seq<Edge>)
    requires rows == [Edge(1, 2), Edge(1, 3), Edge(2, 4), Edge(3, 4)]
    ensures ChildrenOf(rows, 1) == [2, 3] && ChildrenOf(rows, 2) == [4]
    ensures ChildrenOf(rows, 3) == [4] && ChildrenOf(rows, 4) == []
  {
    var top, bottom := [Edge(1, 2), Edge(1, 3)], [Edge(2, 4), Edge(3, 4)];
    assert rows == top + bottom;
    assert top[1..] == [Edge(1, 3)] && bottom[1..] == [Edge(3, 4)];
    forall id | id in {1, 2, 3, 4} ensures ChildrenOf(rows, id) == ChildrenOf(top, id) + ChildrenOf(bottom, id) {
      ChildrenOfAppend(top, bottom, id);
    }
  }

  /**
   * Nothing records visited nodes, so a node reachable along two paths appears
   * twice: with edges (1,2), (1,3), (2,4), (3,4) the tree below 1 holds 4 under
   * both 2 and 3.
   */
  lemma {:induction false} SharedDescendantRepeated(rows: seq<Edge>, rank: map<int, nat>)
    requires rows == [Edge(1, 2), Edge(1, 3), Edge(2, 4), Edge(3, 4)]
    requires rank == map[1 := 2, 2 := 1, 3 := 1, 4 := 0]
    ensures Ranked(rows, rank)
    ensures Unfold(rows, rank, 1) == Node(1, [Node(2, [Node(4, [])]), Node(3, [Node(4, [])])])
  {
    DiamondChildren(rows);
    var leaf := Node(4, []);
    assert ChildrenMatch(rows, leaf);
    assert ChildrenMatch(rows, Node(2, [leaf]));
    assert ChildrenMatch(rows, Node(3, [leaf]));
    assert Ranked(rows, rank) by {
      forall e | e in rows && e.fromId in rank ensures e.toId in rank && rank[e.toId] < rank[e.fromId] {
      }
    }
    ChildrenMatchUnique(rows, rank, Node(1, [Node(2, [leaf]), Node(3, [leaf])]));
  }
}
