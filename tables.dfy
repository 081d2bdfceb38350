/**
 * The task table: the rows in insertion order and the next value of the
 * auto-increment primary key.  Schedulers insert into it and the
 * administrative commands update and delete rows in place.
 */
module Tables {
  import opened Models

  /** Ids strictly increase along the table, as auto-increment keys in insertion order do. */
  ghost predicate IdsIncreasing(rows: seq<TaskRow>) {
    forall i, j :: 0 <= i < j < |rows| ==> rows[i].id < rows[j].id
  }

  /** Dropping the first row keeps the ids increasing. */
  lemma IdsIncreasingTail(rows: seq<TaskRow>)
    requires |rows| > 0 && IdsIncreasing(rows)
    ensures IdsIncreasing(rows[1..])
  {
    var tail := rows[1..];
    forall i, j | 0 <= i < j < |tail| ensures tail[i].id < tail[j].id {
      assert tail[i] == rows[i + 1] && tail[j] == rows[j + 1];
    }
  }

  /** The first row has the smallest id. */
  lemma IdsIncreasingHead(rows: seq<TaskRow>)
    requires |rows| > 0 && IdsIncreasing(rows)
    ensures forall t :: t in rows[1..] ==> rows[0].id < t.id
  {
    forall t | t in rows[1..] ensures rows[0].id < t.id {
      var k :| 0 <= k < |rows[1..]| && rows[1..][k] == t;
      assert rows[k + 1] == t;
    }
  }

  /** A row with an id below all ids of an increasing table can go in front. */
  lemma IdsIncreasingCons(x: TaskRow, rows: seq<TaskRow>)
    requires IdsIncreasing(rows)
    requires forall t :: t in rows ==> x.id < t.id
    ensures IdsIncreasing([x] + rows)
  {
    var r := [x] + rows;
    forall i, j | 0 <= i < j < |r| ensures r[i].id < r[j].id {
      assert r[j] == rows[j - 1];
      if i > 0 {
        assert r[i] == rows[i - 1];
      } else {
        assert rows[j - 1] in rows;
      }
    }
  }

  /** `filter(status=s).count()`. */
  function Count(rows: seq<TaskRow>, s: Status): (n: nat)
    ensures n <= |rows|
    ensures n == 0 <==> forall t :: t in rows ==> t.status != s
    decreases |rows|
  {
    if |rows| == 0 then 0
    else
      assert forall t :: t in rows ==> t == rows[0] || t in rows[1..];
      (if rows[0].status == s then 1 else 0) + Count(rows[1..], s)
  }

  class TaskTable {
    var rows: seq<TaskRow>
    var nextId: int

    ghost predicate Valid()
      reads this
    {
      IdsIncreasing(rows) && forall t :: t in rows ==> t.id < nextId
    }

    /** An empty table whose first row will get id 1. */
    constructor ()
      ensures Valid() && rows == [] && nextId == 1
    {
      rows := [];
      nextId := 1;
    }
  }
}
