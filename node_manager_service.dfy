/**
 * `NodeManagerService`: the edge table as the service's state, the three table
 * operations, and the breadth-first tree builder.
 */
module NodeManagerService {
  import opened Wrappers
  import opened Dtos
  import opened EdgeTable
  import opened TreeSpec

  /**
   * The nodes under construction by the tree builder. Each `NodeTreeDTO` object the
   * builder allocates is one slot: `ids[k]` is its id and `kids[k]` its mutable
   * children list, holding the slots of its children; a slot number stands for an
   * object reference. A child is always allocated after its parent, so its slot is larger.
   */
  ghost predicate Arena(ids: seq<int>, kids: seq<seq<nat>>) {
    && |ids| == |kids|
    && forall k, j :: 0 <= k < |kids| && 0 <= j < |kids[k]| ==> k < kids[k][j] < |ids|
  }

  /** Reads slot k of the arena back as a tree value: the object graph below that node. */
  function Decode(ids: seq<int>, kids: seq<seq<nat>>, k: nat): NodeTree
    requires Arena(ids, kids) && k < |ids|
    decreases |ids| - k
  {
    Node(ids[k], seq(|kids[k]|, j requires 0 <= j < |kids[k]| => Decode(ids, kids, kids[k][j])))
  }

  /** Slot k has been dequeued: its children list holds one child per outgoing edge, in table order. */
  ghost predicate Expanded(rows: seq<Edge>, ids: seq<int>, kids: seq<seq<nat>>, k: nat)
    requires Arena(ids, kids) && k < |ids|
  {
    var cs := ChildrenOf(rows, ids[k]);
    |kids[k]| == |cs| && forall j :: 0 <= j < |cs| ==> ids[kids[k][j]] == cs[j]
  }

  /** Once every slot is expanded, each slot reads back as the reference tree of its id. */
  lemma {:induction false} DecodeIsUnfold(rows: seq<Edge>, rank: map<int, nat>, ids: seq<int>, kids: seq<seq<nat>>, k: nat)
    requires Ranked(rows, rank) && Arena(ids, kids) && k < |ids|
    requires forall i :: 0 <= i < |ids| ==> ids[i] in rank
    requires forall i :: 0 <= i < |ids| ==> Expanded(rows, ids, kids, i)
    ensures Decode(ids, kids, k) == Unfold(rows, rank, ids[k])
    decreases |ids| - k
  {
    var d := Decode(ids, kids, k);
    var u := Unfold(rows, rank, ids[k]);
    UnfoldChildren(rows, rank, ids[k]);
    assert Expanded(rows, ids, kids, k);
    forall j | 0 <= j < |kids[k]| ensures d.children[j] == u.children[j] {
      DecodeIsUnfold(rows, rank, ids, kids, kids[k][j]);
    }
  }

  /** The slots k with lo <= k < hi, in increasing order: the builder's queue. */
  function Range(lo: nat, hi: nat): (r: seq<nat>)
    requires lo <= hi
    ensures |r| == hi - lo && forall i :: 0 <= i < |r| ==> r[i] == lo + i
    decreases hi - lo
  {
    if lo == hi then [] else [lo] + Range(lo + 1, hi)
  }

  class Service {
    /** The rows of the `edge` table, in storage order. */
    var edges: seq<Edge>
    /** How many times `CreateEdge` has been entered. */
    ghost var createCalls: nat
    /** How many times `DeleteEdge` has been entered. */
    ghost var deleteCalls: nat

    /** The uniqueness constraint on `(from_id, to_id)`. */
    ghost predicate Valid()
      reads this
    {
      NoDuplicates(edges)
    }

    constructor (rows: seq<Edge>)
      requires NoDuplicates(rows)
      ensures Valid() && edges == rows && createCalls == 0 && deleteCalls == 0
    {
      edges := rows;
      createCalls := 0;
      deleteCalls := 0;
    }

    /** `record.store()`: insert one row; the uniqueness constraint lets nothing in when the pair is stored. */
    method Store(e: Edge) returns (rowsInserted: nat)
      requires Valid()
      modifies this`edges
      ensures Valid()
      ensures rowsInserted == if e in old(edges) then 0 else 1
      ensures edges == if e in old(edges) then old(edges) else old(edges) + [e]
    {
      if e in edges {
        rowsInserted := 0;
      } else {
        AppendKeepsUnique(edges, e);
        edges := edges + [e];
        rowsInserted := 1;
      }
    }

    /** Insert the edge `fromId -> toId`; a stored pair fails with `DuplicateResource`. */
    method CreateEdge(fromId: int, toId: int) returns (r: Result<Edge, ServiceError>)
      requires Valid()
      modifies this`edges, this`createCalls
      ensures Valid()
      ensures createCalls == old(createCalls) + 1
      ensures Edge(fromId, toId) !in old(edges) ==>
        r == Success(Edge(fromId, toId)) && edges == old(edges) + [Edge(fromId, toId)]
      ensures Edge(fromId, toId) in old(edges) ==>
        r == Failure(DuplicateResource("Error inserting Edge")) && edges == old(edges)
      ensures Edge(fromId, toId) in edges
    {
      createCalls := createCalls + 1;
      var newEdge := Edge(fromId, toId);
      var rowsInserted := Store(newEdge);
      r := if rowsInserted > 0 then Success(newEdge)
           else Failure(DuplicateResource("Error inserting Edge"));
    }

    /** Exact-match lookup of the pair `(fromId, toId)`. */
    method FindEdge(fromId: int, toId: int) returns (r: Option<Edge>)
      requires Valid()
      ensures r.Some? <==> Edge(fromId, toId) in edges
      ensures r.Some? ==> r.value.fromId == fromId && r.value.toId == toId
    {
      r := if Edge(fromId, toId) in edges then Some(Edge(fromId, toId)) else None;
    }

    /** Delete the pair `(fromId, toId)` and report how many rows went. */
    method DeleteEdge(fromId: int, toId: int) returns (count: nat)
      requires Valid()
      modifies this`edges, this`deleteCalls
      ensures Valid()
      ensures deleteCalls == old(deleteCalls) + 1
      ensures edges == RemovePair(old(edges), Edge(fromId, toId))
      ensures count == if Edge(fromId, toId) in old(edges) then 1 else 0
    {
      deleteCalls := deleteCalls + 1;
      var e := Edge(fromId, toId);
      var kept := RemovePair(edges, e);
      RemoveCount(edges, e);
      RemoveKeepsUnique(edges, e);
      count := |edges| - |kept|;
      edges := kept;
    }

    /**
     * Build the tree below `rootId` breadth-first. The ghost `rank` witnesses that
     * no cycle is reachable from the root; without one the loop would not end.
     * `dequeued` counts the loop's iterations.
     */
    method GetTreeByRootNode(rootId: int, ghost rank: map<int, nat>)
        returns (r: Result<NodeTree, ServiceError>, ghost dequeued: nat)
      requires Ranked(edges, rank) && rootId in rank
      ensures r.Success?
      ensures r.Success? ==> r.value.id == rootId && r.value == Unfold(edges, rank, rootId)
      ensures dequeued == TreeSize(Unfold(edges, rank, rootId))
    {
      // The existence test counts the root's outgoing edges and compares with >= 0.
      var count: int := |ChildrenOf(edges, rootId)|;
      var rootExists := count >= 0;
      dequeued := 0;
      if !rootExists {
        r := Failure(ResourceNotFound("Node " + IntToString(rootId) + " not found."));
      } else {
        var ids: seq<int> := [rootId];
        var kids: seq<seq<nat>> := [[]];
        var queue: seq<nat> := [0];
        assert UnfoldAll(edges, rank, ids[0..]) == [Unfold(edges, rank, rootId)];
        assert ForestSize([Unfold(edges, rank, rootId)]) == TreeSize(Unfold(edges, rank, rootId));
        while queue != []
          invariant Arena(ids, kids) && |ids| >= 1 && ids[0] == rootId
          invariant forall k :: 0 <= k < |ids| ==> ids[k] in rank
          invariant dequeued <= |ids| && queue == Range(dequeued, |ids|)
          invariant forall k :: 0 <= k < dequeued ==> Expanded(edges, ids, kids, k)
          invariant forall k :: dequeued <= k < |ids| ==> kids[k] == []
          invariant dequeued + ForestSize(UnfoldAll(edges, rank, ids[dequeued..])) == TreeSize(Unfold(edges, rank, rootId))
          decreases ForestSize(UnfoldAll(edges, rank, ids[dequeued..]))
        {
          ghost var oldIds, oldKids := ids, kids;
          var current := queue[0];
          queue := queue[1..];
          var childIds := ChildrenOf(edges, ids[current]);
          ChildrenRanked(edges, rank, ids[current]);
          ids, kids, queue := PopulateChildren(ids, kids, queue, current, childIds);
          StepInvariant(edges, rank, oldIds, oldKids, ids, kids, current, childIds);
          dequeued := dequeued + 1;
        }
        DecodeIsUnfold(edges, rank, ids, kids, 0);
        r := Success(Decode(ids, kids, 0));
      }
    }
  }

  /**
   * The inner loop of the builder: for each child id, allocate a node with no
   * children, append it to the current node's children list and enqueue it.
   */
  method PopulateChildren(ids: seq<int>, kids: seq<seq<nat>>, queue: seq<nat>, current: nat, childIds: seq<int>)
      returns (ids': seq<int>, kids': seq<seq<nat>>, queue': seq<nat>)
    requires |ids| == |kids| && current < |ids| && kids[current] == []
    requires queue == Range(current + 1, |ids|)
    ensures ids' == ids + childIds && |kids'| == |ids'|
    ensures kids'[current] == Range(|ids|, |ids'|)
    ensures forall k :: 0 <= k < |ids| && k != current ==> kids'[k] == kids[k]
    ensures forall k :: |ids| <= k < |ids'| ==> kids'[k] == []
    ensures queue' == Range(current + 1, |ids'|)
  {
    var n := |ids|;
    ids', kids', queue' := ids, kids, queue;
    for j := 0 to |childIds|
      invariant |ids'| == |kids'| == n + j
      invariant ids' == ids + childIds[..j]
      invariant kids'[current] == Range(n, n + j)
      invariant forall k :: 0 <= k < n && k != current ==> kids'[k] == kids[k]
      invariant forall k :: n <= k < n + j ==> kids'[k] == []
      invariant queue' == Range(current + 1, n + j)
    {
      var child := n + j;
      ids' := ids' + [childIds[j]];
      kids' := kids' + [[]];
      kids' := kids'[current := kids'[current] + [child]];
      queue' := queue' + [child];
    }
    assert childIds[..|childIds|] == childIds;
  }

  /** One iteration of the builder keeps the arena invariant: the current slot is now expanded, the new slots are childless. */
  lemma StepInvariant(rows: seq<Edge>, rank: map<int, nat>, oldIds: seq<int>, oldKids: seq<seq<nat>>,
                      ids: seq<int>, kids: seq<seq<nat>>, current: nat, childIds: seq<int>)
    requires Ranked(rows, rank) && Arena(oldIds, oldKids) && current < |oldIds|
    requires forall k :: 0 <= k < |oldIds| ==> oldIds[k] in rank
    requires forall k :: current <= k < |oldIds| ==> oldKids[k] == []
    requires forall k :: 0 <= k < current ==> Expanded(rows, oldIds, oldKids, k)
    requires childIds == ChildrenOf(rows, oldIds[current])
    requires ids == oldIds + childIds && |kids| == |ids|
    requires kids[current] == Range(|oldIds|, |ids|)
    requires forall k :: 0 <= k < |oldIds| && k != current ==> kids[k] == oldKids[k]
    requires forall k :: |oldIds| <= k < |ids| ==> kids[k] == []
    ensures Arena(ids, kids)
    ensures forall k :: 0 <= k < |ids| ==> ids[k] in rank
    ensures forall k :: 0 <= k <= current ==> Expanded(rows, ids, kids, k)
    ensures forall k :: current < k < |ids| ==> kids[k] == []
    ensures ForestSize(UnfoldAll(rows, rank, oldIds[current..]))
         == 1 + ForestSize(UnfoldAll(rows, rank, ids[current + 1..]))
  {
    var n := |oldIds|;
    ChildrenRanked(rows, rank, oldIds[current]);
    forall k | 0 <= k < |ids| ensures ids[k] in rank {
      if k >= n { assert ids[k] == childIds[k - n]; }
    }
    forall k | 0 <= k <= current ensures Expanded(rows, ids, kids, k) {
      if k < current {
        assert Expanded(rows, oldIds, oldKids, k);
      }
    }
    StepMeasure(rows, rank, oldIds, current, childIds);
  }

  /** Dequeuing slot `current` and enqueuing its children lowers the number of nodes still to be built by one. */
  lemma StepMeasure(rows: seq<Edge>, rank: map<int, nat>, oldIds: seq<int>, current: nat, childIds: seq<int>)
    requires Ranked(rows, rank) && current < |oldIds|
    requires forall k :: 0 <= k < |oldIds| ==> oldIds[k] in rank
    requires childIds == ChildrenOf(rows, oldIds[current])
    ensures forall k :: 0 <= k < |oldIds + childIds| ==> (oldIds + childIds)[k] in rank
    ensures ForestSize(UnfoldAll(rows, rank, oldIds[current..]))
         == 1 + ForestSize(UnfoldAll(rows, rank, (oldIds + childIds)[current + 1..]))
  {
    var id := oldIds[current];
    var rest := oldIds[current + 1..];
    ChildrenRanked(rows, rank, id);
    UnfoldChildren(rows, rank, id);
    assert oldIds[current..] == [id] + rest;
    assert (oldIds + childIds)[current + 1..] == rest + childIds;
    UnfoldAllAppend(rows, rank, [id], rest);
    UnfoldAllAppend(rows, rank, rest, childIds);
    var head, tail, kids := UnfoldAll(rows, rank, [id]), UnfoldAll(rows, rank, rest), UnfoldAll(rows, rank, childIds);
    ForestSizeAppend(head, tail);
    ForestSizeAppend(tail, kids);
    assert head == [Unfold(rows, rank, id)];
    assert ForestSize(head) == TreeSize(Unfold(rows, rank, id));
  }
}
