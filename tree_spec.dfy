/**
 * What the breadth-first tree builder is meant to produce, stated without a queue:
 * the tree below a node is the node itself with, in table order, one subtree per
 * outgoing edge. The builder never records visited nodes, so this is only defined
 * (and the builder only terminates) when no cycle is reachable from the root; a
 * rank that strictly drops along every edge leaving a ranked node states that.
 */
module TreeSpec {
  import opened Dtos
  import opened EdgeTable

  /** Every edge that leaves a ranked node goes to a ranked node of strictly lower rank. */
  ghost predicate Ranked(rows: seq<Edge>, rank: map<int, nat>) {
    forall e :: e in rows && e.fromId in rank ==> e.toId in rank && rank[e.toId] < rank[e.fromId]
  }

  /** The children of a ranked node are ranked, and lower. */
  lemma ChildrenRanked(rows: seq<Edge>, rank: map<int, nat>, id: int)
    requires Ranked(rows, rank) && id in rank
    ensures forall c :: c in ChildrenOf(rows, id) ==> c in rank && rank[c] < rank[id]
  {
    forall c | c in ChildrenOf(rows, id) ensures c in rank && rank[c] < rank[id] {
      assert Edge(id, c) in rows;
    }
  }

  /** The reference tree: `Unfold(id) = Node(id, [Unfold(c) | c in ChildrenOf(id)])`. */
  ghost function Unfold(rows: seq<Edge>, rank: map<int, nat>, id: int): NodeTree
    requires Ranked(rows, rank) && id in rank
    decreases rank[id]
  {
    var cs := ChildrenOf(rows, id);
    ChildrenRanked(rows, rank, id);
    Node(id, seq(|cs|, i requires 0 <= i < |cs| => Unfold(rows, rank, cs[i])))
  }

  /** The reference trees of a sequence of ranked ids, in order. */
  ghost function UnfoldAll(rows: seq<Edge>, rank: map<int, nat>, ids: seq<int>): (ts: seq<NodeTree>)
    requires Ranked(rows, rank) && forall i :: 0 <= i < |ids| ==> ids[i] in rank
    ensures |ts| == |ids|
  {
    seq(|ids|, i requires 0 <= i < |ids| => Unfold(rows, rank, ids[i]))
  }

  lemma UnfoldChildren(rows: seq<Edge>, rank: map<int, nat>, id: int)
    requires Ranked(rows, rank) && id in rank
    ensures forall c :: c in ChildrenOf(rows, id) ==> c in rank
    ensures Unfold(rows, rank, id).children == UnfoldAll(rows, rank, ChildrenOf(rows, id))
  {
    ChildrenRanked(rows, rank, id);
  }

  lemma UnfoldAllAppend(rows: seq<Edge>, rank: map<int, nat>, a: seq<int>, b: seq<int>)
    requires Ranked(rows, rank)
    requires forall i :: 0 <= i < |a| ==> a[i] in rank
    requires forall i :: 0 <= i < |b| ==> b[i] in rank
    ensures forall i :: 0 <= i < |a + b| ==> (a + b)[i] in rank
    ensures UnfoldAll(rows, rank, a + b) == UnfoldAll(rows, rank, a) + UnfoldAll(rows, rank, b)
  {
    assert forall i :: 0 <= i < |a + b| ==> (a + b)[i] == if i < |a| then a[i] else b[i - |a|];
  }

  /** Number of nodes of a tree. */
  function TreeSize(t: NodeTree): nat
    decreases t, 1
  {
    1 + ForestSize(t.children)
  }

  /** Number of nodes of a sequence of trees. */
  function ForestSize(ts: seq<NodeTree>): nat
    decreases ts, 0
  {
    if ts == [] then 0 else TreeSize(ts[0]) + ForestSize(ts[1..])
  }

  lemma {:induction false} ForestSizeAppend(a: seq<NodeTree>, b: seq<NodeTree>)
    ensures ForestSize(a + b) == ForestSize(a) + ForestSize(b)
  {
    if a != [] {
      assert (a + b)[1..] == a[1..] + b;
      ForestSizeAppend(a[1..], b);
    } else {
      assert a + b == b;
    }
  }

  /** Whether a node with id x appears anywhere in t. */
  ghost predicate Occurs(x: int, t: NodeTree)
    decreases t
  {
    t.id == x || exists i :: 0 <= i < |t.children| && Occurs(x, t.children[i])
  }

  /** p is a walk along stored edges from `src` to `dst`. */
  ghost predicate PathBetween(rows: seq<Edge>, p: seq<int>, src: int, dst: int) {
    && |p| >= 1 && p[0] == src && p[|p| - 1] == dst
    && forall i :: 0 <= i < |p| - 1 ==> Edge(p[i], p[i + 1]) in rows
  }

  /** Every id in the reference tree is reachable from its root along stored edges. */
  lemma {:induction false} OccursReachable(rows: seq<Edge>, rank: map<int, nat>, id: int, x: int)
      returns (p: seq<int>)
    requires Ranked(rows, rank) && id in rank
    requires Occurs(x, Unfold(rows, rank, id))
    ensures PathBetween(rows, p, id, x)
    decreases rank[id]
  {
    var t := Unfold(rows, rank, id);
    if t.id == x {
      p := [id];
    } else {
      var cs := ChildrenOf(rows, id);
      ChildrenRanked(rows, rank, id);
      var i :| 0 <= i < |t.children| && Occurs(x, t.children[i]);
      assert t.children[i] == Unfold(rows, rank, cs[i]);
      var q := OccursReachable(rows, rank, cs[i], x);
      assert Edge(id, cs[i]) in rows;
      p := [id] + q;
      forall k | 0 <= k < |p| - 1 ensures Edge(p[k], p[k + 1]) in rows {
        if k > 0 {
          assert p[k] == q[k - 1] && p[k + 1] == q[k];
        }
      }
    }
  }

  /** Every id reachable from the root along stored edges appears in the reference tree. */
  lemma {:induction false} ReachableOccurs(rows: seq<Edge>, rank: map<int, nat>, p: seq<int>, id: int, x: int)
    requires Ranked(rows, rank) && id in rank
    requires PathBetween(rows, p, id, x)
    ensures Occurs(x, Unfold(rows, rank, id))
    decreases |p|
  {
    var t := Unfold(rows, rank, id);
    if |p| > 1 {
      var c := p[1];
      assert Edge(id, c) in rows;
      var cs := ChildrenOf(rows, id);
      ChildrenRanked(rows, rank, id);
      var i :| 0 <= i < |cs| && cs[i] == c;
      assert PathBetween(rows, p[1..], c, x) by {
        forall k | 0 <= k < |p[1..]| - 1 ensures Edge(p[1..][k], p[1..][k + 1]) in rows {
          assert p[1..][k] == p[k + 1] && p[1..][k + 1] == p[k + 2];
        }
      }
      ReachableOccurs(rows, rank, p[1..], c, x);
      assert t.children[i] == Unfold(rows, rank, c);
    }
  }

  /** The ids in the reference tree are exactly the ids reachable from its root. */
  lemma OccursIffReachable(rows: seq<Edge>, rank: map<int, nat>, id: int, x: int)
    requires Ranked(rows, rank) && id in rank
    ensures Occurs(x, Unfold(rows, rank, id)) <==> exists p :: PathBetween(rows, p, id, x)
  {
    if Occurs(x, Unfold(rows, rank, id)) {
      var p := OccursReachable(rows, rank, id, x);
    }
    if exists p :: PathBetween(rows, p, id, x) {
      var p :| PathBetween(rows, p, id, x);
      ReachableOccurs(rows, rank, p, id, x);
    }
  }

  /** Every node's children are the targets of its outgoing edges, in table order. */
  ghost predicate ChildrenMatch(rows: seq<Edge>, t: NodeTree)
    decreases t
  {
    && |t.children| == |ChildrenOf(rows, t.id)|
    && (forall i :: 0 <= i < |t.children| ==> t.children[i].id == ChildrenOf(rows, t.id)[i])
    && (forall i :: 0 <= i < |t.children| ==> ChildrenMatch(rows, t.children[i]))
  }

  /** The reference tree has the children rule at every node. */
  lemma {:induction false} UnfoldChildrenMatch(rows: seq<Edge>, rank: map<int, nat>, id: int)
    requires Ranked(rows, rank) && id in rank
    ensures ChildrenMatch(rows, Unfold(rows, rank, id))
    decreases rank[id]
  {
    var t := Unfold(rows, rank, id);
    var cs := ChildrenOf(rows, id);
    ChildrenRanked(rows, rank, id);
    forall i | 0 <= i < |t.children| ensures ChildrenMatch(rows, t.children[i]) {
      UnfoldChildrenMatch(rows, rank, cs[i]);
    }
  }

  /** The children rule determines the tree: any tree rooted at id that obeys it is the reference tree. */
  lemma {:induction false} ChildrenMatchUnique(rows: seq<Edge>, rank: map<int, nat>, t: NodeTree)
    requires Ranked(rows, rank) && t.id in rank
    requires ChildrenMatch(rows, t)
    ensures t == Unfold(rows, rank, t.id)
    decreases t
  {
    var u := Unfold(rows, rank, t.id);
    var cs := ChildrenOf(rows, t.id);
    ChildrenRanked(rows, rank, t.id);
    forall i | 0 <= i < |t.children| ensures t.children[i] == u.children[i] {
      assert t.children[i].id == cs[i];
      ChildrenMatchUnique(rows, rank, t.children[i]);
    }
  }

  /** Rank strictly drops along any walk of at least one edge from a ranked node. */
  lemma {:induction false} RankDropsAlongPath(rows: seq<Edge>, rank: map<int, nat>, p: seq<int>)
    requires Ranked(rows, rank) && |p| >= 2 && p[0] in rank
    requires forall i :: 0 <= i < |p| - 1 ==> Edge(p[i], p[i + 1]) in rows
    ensures p[|p| - 1] in rank && rank[p[|p| - 1]] < rank[p[0]]
    decreases |p|
  {
    assert Edge(p[0], p[1]) in rows;
    if |p| > 2 {
      RankDropsAlongPath(rows, rank, p[1..]);
    }
  }

  /** So a ranking exists only if no cycle is reachable from the ranked root. */
  lemma NoReachableCycle(rows: seq<Edge>, rank: map<int, nat>, id: int, p: seq<int>)
    requires Ranked(rows, rank) && id in rank
    requires |p| >= 2
    ensures !PathBetween(rows, p, id, id)
  {
    if PathBetween(rows, p, id, id) {
      RankDropsAlongPath(rows, rank, p);
    }
  }
}
