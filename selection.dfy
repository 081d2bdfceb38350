/**
 * The claim query of `_private/consumers.py`: among the rows of one queue in
 * status CREATED, the first under the ordering key (`is_null`, `not_before`).
 * There is no "due now" filter; an eta in the future is left to
 * `is_postponed`.  The scan is a pure function of the table.
 *
 * The comment above the query and the test suite both want rows without an
 * eta first (in id order), then rows with an eta by ascending eta.  Sorting
 * the Boolean `is_null` ascending, as the query literally does, puts `False`
 * (rows WITH an eta) first instead.  Both orders are modelled; the rest of
 * the model claims in the documented order.
 */
module Selection {
  import opened Wrappers
  import opened Models

  /** Where rows without an eta go. */
  datatype NullOrder = NullsFirst | NullsLast

  /**
   * `a` comes strictly before `b`: rows are compared by whether they have an
   * eta (per `order`), then by eta, then by id.
   */
  predicate Precedes(order: NullOrder, a: TaskRow, b: TaskRow) {
    match (a.notBefore, b.notBefore)
    case (None, None) => a.id < b.id
    case (Some(x), Some(y)) => x < y || (x == y && a.id < b.id)
    case (None, Some(_)) => order == NullsFirst
    case (Some(_), None) => order == NullsLast
  }

  /** The filter of the query: the requested queue, status CREATED. */
  predicate Eligible(t: TaskRow, queue: string) {
    t.queue == queue && t.status == Created
  }

  /** Rows with distinct ids, as the table's primary key guarantees. */
  ghost predicate DistinctIds(table: seq<TaskRow>) {
    forall i, j :: 0 <= i < j < |table| ==> table[i].id != table[j].id
  }

  /** `Precedes` is irreflexive and transitive for either order. */
  lemma PrecedesStrictOrder(order: NullOrder, a: TaskRow, b: TaskRow, c: TaskRow)
    ensures !Precedes(order, a, a)
    ensures Precedes(order, a, b) && Precedes(order, b, c) ==> Precedes(order, a, c)
  {
  }

  /** Any two rows with different ids are ordered one way or the other. */
  lemma PrecedesTotal(order: NullOrder, a: TaskRow, b: TaskRow)
    requires a.id != b.id
    ensures Precedes(order, a, b) || Precedes(order, b, a)
  {
  }

  /**
   * `filter(queue=..., status=CREATED).order_by(...).first()`: `None` exactly
   * when no row qualifies, otherwise a qualifying row of the table that no
   * qualifying row precedes.
   */
  function SelectBy(order: NullOrder, table: seq<TaskRow>, queue: string): (r: Option<TaskRow>)
    ensures r.None? <==> forall t :: t in table ==> !Eligible(t, queue)
    ensures r.Some? ==> r.value in table && Eligible(r.value, queue)
    ensures r.Some? ==> forall t :: t in table && Eligible(t, queue) ==> !Precedes(order, t, r.value)
    decreases |table|
  {
    if |table| == 0 then None
    else
      var rest := SelectBy(order, table[1..], queue);
      assert forall t :: t in table ==> t == table[0] || t in table[1..];
      if !Eligible(table[0], queue) then rest
      else if rest.None? || Precedes(order, table[0], rest.value) then Some(table[0])
      else rest
  }

  /**
   * The claim in the documented order: a row with an eta is chosen only when
   * no qualifying row is without one.
   */
  function Select(table: seq<TaskRow>, queue: string): (r: Option<TaskRow>)
    ensures r.Some? && r.value.notBefore.Some? ==>
      forall t :: t in table && Eligible(t, queue) ==> t.notBefore.Some?
  {
    SelectBy(NullsFirst, table, queue)
  }

  /**
   * Rows without an eta win: if any qualifying row has none, the claimed row
   * has none either, and it has the smallest id among those rows.
   */
  lemma NullEtaRowsFirst(table: seq<TaskRow>, queue: string, u: TaskRow)
    requires u in table && Eligible(u, queue) && u.notBefore.None?
    ensures Select(table, queue).Some?
    ensures Select(table, queue).value.notBefore.None?
    ensures Select(table, queue).value.id <= u.id
  {
    var r := Select(table, queue).value;
    assert !Precedes(NullsFirst, u, r);
  }

  /**
   * A row with an eta is claimed only when every qualifying row has an eta,
   * and then it has the earliest eta, and the smallest id among rows sharing it.
   */
  lemma DatedRowsByEta(table: seq<TaskRow>, queue: string, u: TaskRow)
    requires u in table && Eligible(u, queue)
    requires Select(table, queue).Some? && Select(table, queue).value.notBefore.Some?
    ensures u.notBefore.Some?
    ensures Select(table, queue).value.notBefore.value <= u.notBefore.value
    ensures Select(table, queue).value.notBefore == u.notBefore ==> Select(table, queue).value.id <= u.id
  {
    var r := Select(table, queue).value;
    assert !Precedes(NullsFirst, u, r);
  }

  /**
   * With distinct ids the claimed row comes before every other qualifying
   * row, so the result is the unique first row under the ordering key.
   */
  lemma SelectIsLeast(order: NullOrder, table: seq<TaskRow>, queue: string, u: TaskRow)
    requires DistinctIds(table)
    requires u in table && Eligible(u, queue)
    ensures SelectBy(order, table, queue).Some?
    ensures u == SelectBy(order, table, queue).value || Precedes(order, SelectBy(order, table, queue).value, u)
  {
    var r := SelectBy(order, table, queue).value;
    if u != r {
      var i :| 0 <= i < |table| && table[i] == u;
      var j :| 0 <= j < |table| && table[j] == r;
      assert i != j;
      PrecedesTotal(order, u, r);
    }
  }

  /**
   * No eta filter: a qualifying row that is postponed at `now` is still
   * claimed whenever it comes first in the documented order, in particular
   * when it is the only qualifying row of its queue.
   */
  lemma FutureEtaStillClaimed(table: seq<TaskRow>, queue: string, u: TaskRow, now: Time)
    requires u in table && Eligible(u, queue) && u.IsPostponed(now)
    requires forall t :: t in table && Eligible(t, queue) && t != u ==> Precedes(NullsFirst, u, t)
    ensures Select(table, queue) == Some(u)
  {
  }

  /**
   * The query as written sorts rows WITH an eta first.  On the table of the
   * test suite's second ordering case (row 1 with an eta, row 2 without) it
   * claims row 1, where the comment and the test want row 2.
   */
  lemma AsWrittenClaimsDatedRowFirst(dated: TaskRow, undated: TaskRow, queue: string)
    requires Eligible(dated, queue) && Eligible(undated, queue)
    requires dated.id == 1 && dated.notBefore.Some?
    requires undated.id == 2 && undated.notBefore.None?
    ensures SelectBy(NullsLast, [dated, undated], queue) == Some(dated)
    ensures Select([dated, undated], queue) == Some(undated)
  {
    assert [dated, undated][1..] == [undated];
  }
}
