/**
 * The `edge` table as a value: its rows in storage order. The functions here are
 * the queries the service issues against it; the service class applies them to
 * its own state.
 */
module EdgeTable {
  import opened Dtos

  /** The uniqueness constraint on `(from_id, to_id)`: no row occurs twice. */
  ghost predicate NoDuplicates(rows: seq<Edge>) {
    forall i, j :: 0 <= i < j < |rows| ==> rows[i] != rows[j]
  }

  /**
   * `select to_id from edge where from_id = id`: the targets of the edges leaving
   * `id`, in table order.
   */
  function ChildrenOf(rows: seq<Edge>, id: int): (r: seq<int>)
    ensures forall c :: c in r <==> Edge(id, c) in rows
    ensures |r| <= |rows|
  {
    if rows == [] then []
    else
      var rest := ChildrenOf(rows[1..], id);
      if rows[0].fromId == id then [rows[0].toId] + rest else rest
  }

  /** The children query over a table split in two is the query over each part, in order. */
  lemma {:induction false} ChildrenOfAppend(a: seq<Edge>, b: seq<Edge>, id: int)
    ensures ChildrenOf(a + b, id) == ChildrenOf(a, id) + ChildrenOf(b, id)
  {
    if a == [] {
      assert a + b == b;
    } else {
      assert (a + b)[1..] == a[1..] + b;
      ChildrenOfAppend(a[1..], b, id);
    }
  }

  /** `delete from edge where from_id = e.fromId and to_id = e.toId`: the rows that survive, in their order. */
  function RemovePair(rows: seq<Edge>, e: Edge): (r: seq<Edge>)
    ensures forall x :: x in r <==> x in rows && x != e
    ensures |r| <= |rows|
  {
    if rows == [] then []
    else
      var rest := RemovePair(rows[1..], e);
      if rows[0] == e then rest else [rows[0]] + rest
  }

  /** Deleting a pair that is not stored leaves the table as it was. */
  lemma {:induction false} RemoveAbsent(rows: seq<Edge>, e: Edge)
    requires e !in rows
    ensures RemovePair(rows, e) == rows
  {
    if rows != [] {
      RemoveAbsent(rows[1..], e);
    }
  }

  /**
   * Under the uniqueness constraint, deleting the stored pair at position k removes
   * that one row and keeps every other row in its place and order.
   */
  lemma {:induction false} RemovePresent(rows: seq<Edge>, e: Edge, k: nat)
    requires NoDuplicates(rows)
    requires k < |rows| && rows[k] == e
    ensures RemovePair(rows, e) == rows[..k] + rows[k + 1..]
  {
    if k == 0 {
      assert e !in rows[1..] by {
        forall j | 0 <= j < |rows[1..]| ensures rows[1..][j] != e {
          assert rows[1..][j] == rows[j + 1];
        }
      }
      RemoveAbsent(rows[1..], e);
    } else {
      assert NoDuplicates(rows[1..]) by {
        forall i, j | 0 <= i < j < |rows[1..]| ensures rows[1..][i] != rows[1..][j] {
          assert rows[1..][i] == rows[i + 1] && rows[1..][j] == rows[j + 1];
        }
      }
      assert rows[0] != e by { assert rows[0] != rows[k]; }
      RemovePresent(rows[1..], e, k - 1);
      assert rows[1..][..k - 1] == rows[1..k];
      assert rows[1..][k..] == rows[k + 1..];
      assert [rows[0]] + rows[1..k] == rows[..k];
    }
  }

  /** The number of rows a delete removes: 1 if the pair was stored, 0 otherwise. */
  lemma RemoveCount(rows: seq<Edge>, e: Edge)
    requires NoDuplicates(rows)
    ensures |rows| - |RemovePair(rows, e)| == if e in rows then 1 else 0
  {
    if e in rows {
      var k :| 0 <= k < |rows| && rows[k] == e;
      RemovePresent(rows, e, k);
    } else {
      RemoveAbsent(rows, e);
    }
  }

  /** Deleting keeps the uniqueness constraint. */
  lemma {:induction false} RemoveKeepsUnique(rows: seq<Edge>, e: Edge)
    requires NoDuplicates(rows)
    ensures NoDuplicates(RemovePair(rows, e))
  {
    if e in rows {
      var k :| 0 <= k < |rows| && rows[k] == e;
      RemovePresent(rows, e, k);
      var r := rows[..k] + rows[k + 1..];
      forall i, j | 0 <= i < j < |r| ensures r[i] != r[j] {
        var i' := if i < k then i else i + 1;
        var j' := if j < k then j else j + 1;
        assert r[i] == rows[i'] && r[j] == rows[j'];
      }
    } else {
      RemoveAbsent(rows, e);
    }
  }

  /** Appending a pair that is not stored yet keeps the uniqueness constraint. */
  lemma AppendKeepsUnique(rows: seq<Edge>, e: Edge)
    requires NoDuplicates(rows) && e !in rows
    ensures NoDuplicates(rows + [e])
  {
  }
}
