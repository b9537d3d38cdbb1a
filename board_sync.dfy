/**
 * How the board's optimistic reorder (frontend/src/components/kanban/Board.tsx:41-43)
 * relates to what the server stores after POST /tasks/move
 * (backend/Controllers/TasksController.cs:43-67). A column's list "shows" the table when
 * its task at index k is the row of that column at Position k; GET /projects/{id} gives
 * such lists for dense columns, and the splices keep them in step with the server's move,
 * except for a move to a higher slot of the same column, where the server's rows break.
 */
module BoardSync {
  import opened Models
  import opened Data
  import opened Queries
  import opened Positions
  import opened ProjectsController
  import opened Board

  /**
   * `list` shows column `c` of `ts`: it has one entry per row of the column, and its
   * entry at index k has the id of a row of the column whose Position is k.
   */
  ghost predicate Shows(list: seq<TaskItem>, ts: seq<TaskItem>, c: int)
  {
    && |list| == Count(ts, c)
    && forall k :: 0 <= k < |list| ==> ShownAt(list, ts, c, k)
  }

  /** The entry at index `k` of `list` has the id of a row of column `c` at Position `k`. */
  ghost predicate ShownAt(list: seq<TaskItem>, ts: seq<TaskItem>, c: int, k: int)
    requires 0 <= k < |list|
  {
    exists r :: 0 <= r < |ts| && ts[r].id == list[k].id && ts[r].columnId == c && ts[r].position == k
  }

  /** Two rows with the same id are the same row. */
  lemma SameIdSameRow(ts: seq<TaskItem>, a: nat, b: nat)
    requires UniqueTaskIds(ts) && a < |ts| && b < |ts| && ts[a].id == ts[b].id
    ensures a == b
  {
    if a < b { } else if b < a { }
  }

  // ------------------------------------------------------------------
  // GET /projects/{id} shows dense columns
  // ------------------------------------------------------------------

  lemma {:induction false} CountIsWhere(ts: seq<TaskItem>, c: int)
    ensures Count(ts, c) == |Where(ts, (x: TaskItem) => x.columnId == c)|
  {
    if ts != [] {
      CountIsWhere(ts[1..], c);
    }
  }

  lemma {:induction false} UniqueRowsOnce(ts: seq<TaskItem>, x: TaskItem)
    requires UniqueTaskIds(ts)
    ensures multiset(ts)[x] <= 1
  {
    if ts != [] {
      assert ts == [ts[0]] + ts[1..];
      UniqueRowsOnce(ts[1..], x);
      if ts[0] == x {
        assert x !in ts[1..] by {
          forall k | 0 <= k < |ts[1..]| ensures ts[1..][k] != x {
            assert ts[1..][k] == ts[k + 1];
          }
        }
      }
    }
  }

  lemma TwiceInList(list: seq<TaskItem>, i: nat, j: nat)
    requires i < j < |list| && list[i] == list[j]
    ensures multiset(list)[list[i]] >= 2
  {
    assert list == list[..j] + [list[j]] + list[j + 1..];
    assert list[i] in list[..j];
  }

  lemma {:induction false} AtLeastIndex(list: seq<TaskItem>, k: nat)
    requires forall i, j :: 0 <= i < j < |list| ==> list[i].position < list[j].position
    requires forall i :: 0 <= i < |list| ==> 0 <= list[i].position
    requires k < |list|
    ensures list[k].position >= k
    decreases k
  {
    if k > 0 {
      AtLeastIndex(list, k - 1);
    }
  }

  lemma {:induction false} AtMostIndex(list: seq<TaskItem>, k: nat)
    requires forall i, j :: 0 <= i < j < |list| ==> list[i].position < list[j].position
    requires forall i :: 0 <= i < |list| ==> list[i].position < |list|
    requires k < |list|
    ensures list[k].position <= k
    decreases |list| - k
  {
    if k < |list| - 1 {
      AtMostIndex(list, k + 1);
    }
  }

  /** The tasks of a column view holding its column: one per row of the column, each a row of it. */
  lemma ViewRows(ts: seq<TaskItem>, cv: ColumnView)
    requires HoldsTasksOf(cv, ts, false)
    ensures |cv.tasks| == Count(ts, cv.column.id)
    ensures forall k :: 0 <= k < |cv.tasks| ==> cv.tasks[k].columnId == cv.column.id && cv.tasks[k] in ts
  {
    var list, c := cv.tasks, cv.column.id;
    var own := Where(ts, (x: TaskItem) => x.columnId == c);
    WhereCounts(ts, (x: TaskItem) => x.columnId == c);
    assert multiset(list) == multiset(own);
    assert |list| == |multiset(list)| == |multiset(own)| == |own|;
    CountIsWhere(ts, c);
    forall k | 0 <= k < |list|
      ensures list[k].columnId == c && list[k] in ts
    {
      assert multiset(list)[list[k]] > 0;
    }
  }

  /** Sorted by Position and drawn from a column with distinct positions and ids: strictly increasing. */
  lemma ViewStrictlySorted(ts: seq<TaskItem>, cv: ColumnView)
    requires UniqueTaskIds(ts) && DistinctPositions(ts, cv.column.id)
    requires HoldsTasksOf(cv, ts, true)
    requires forall k :: 0 <= k < |cv.tasks| ==> cv.tasks[k].columnId == cv.column.id && cv.tasks[k] in ts
    ensures forall i, j :: 0 <= i < j < |cv.tasks| ==> cv.tasks[i].position < cv.tasks[j].position
  {
    var list := cv.tasks;
    forall i, j | 0 <= i < j < |list| ensures list[i].position < list[j].position {
      assert PositionOf(list[i]) <= PositionOf(list[j]);
      if list[i] == list[j] {
        TwiceInList(list, i, j);
        UniqueRowsOnce(ts, list[i]);
        assert false;
      }
      var ri :| 0 <= ri < |ts| && ts[ri] == list[i];
      var rj :| 0 <= rj < |ts| && ts[rj] == list[j];
      if ri < rj { } else { }
    }
  }

  /**
   * A column's tasks ordered by Position, as GetProject returns them
   * (backend/Controllers/ProjectsController.cs:42-43), show a dense column.
   */
  lemma OrderedViewShows(ts: seq<TaskItem>, cv: ColumnView)
    requires UniqueTaskIds(ts)
    requires HoldsTasksOf(cv, ts, true) && Dense(ts, cv.column.id)
    ensures Shows(cv.tasks, ts, cv.column.id)
  {
    var list, c := cv.tasks, cv.column.id;
    ViewRows(ts, cv);
    ViewStrictlySorted(ts, cv);
    forall i | 0 <= i < |list| ensures 0 <= list[i].position < |list| {
      var ri :| 0 <= ri < |ts| && ts[ri] == list[i];
    }
    forall k | 0 <= k < |list| ensures ShownAt(list, ts, c, k) {
      var r :| 0 <= r < |ts| && ts[r] == list[k];
      AtLeastIndex(list, k);
      AtMostIndex(list, k);
    }
  }

  /** Every column of a project GetProject finds shows its column, when the columns are dense. */
  lemma GetProjectShows(t: Tables, id: int)
    requires UniqueTaskIds(t.tasks)
    requires GetProject(t, id).Found?
    requires forall k :: 0 <= k < |GetProject(t, id).view.columns| ==>
               Dense(t.tasks, GetProject(t, id).view.columns[k].column.id)
    ensures var v := GetProject(t, id).view;
            forall k :: 0 <= k < |v.columns| ==> Shows(v.columns[k].tasks, t.tasks, v.columns[k].column.id)
  {
    var v := GetProject(t, id).view;
    forall k | 0 <= k < |v.columns| ensures Shows(v.columns[k].tasks, t.tasks, v.columns[k].column.id) {
      OrderedViewShows(t.tasks, v.columns[k]);
    }
  }

  // ------------------------------------------------------------------
  // The splices follow the server's move
  // ------------------------------------------------------------------

  /** The task the user dragged from index `i` is the row `m` the request names; it sits at Position `i`. */
  lemma DraggedRowPosition(ts: seq<TaskItem>, m: nat, list: seq<TaskItem>, i: nat)
    requires UniqueTaskIds(ts) && m < |ts|
    requires Shows(list, ts, ts[m].columnId) && i < |list| && list[i].id == ts[m].id
    ensures ts[m].position == i
  {
    assert ShownAt(list, ts, ts[m].columnId, i);
    var r :| 0 <= r < |ts| && ts[r].id == list[i].id && ts[r].columnId == ts[m].columnId && ts[r].position == i;
    SameIdSameRow(ts, r, m);
  }

  /** The row with the id of `list[k]`, at Position `k` of column `c`. */
  lemma ShownRow(list: seq<TaskItem>, ts: seq<TaskItem>, c: int, k: nat) returns (r: nat)
    requires Shows(list, ts, c) && k < |list|
    ensures r < |ts| && ts[r].id == list[k].id && ts[r].columnId == c && ts[r].position == k
  {
    assert ShownAt(list, ts, c, k);
    r :| 0 <= r < |ts| && ts[r].id == list[k].id && ts[r].columnId == c && ts[r].position == k;
  }

  /** An entry of the source list after line 41 of a move to another column. */
  lemma RemovedEntry(ts: seq<TaskItem>, m: nat, list: seq<TaskItem>, i: nat, targetColumnId: int, j: int, k: nat)
    requires UniqueTaskIds(ts) && m < |ts| && ts[m].columnId != targetColumnId
    requires Shows(list, ts, ts[m].columnId) && i < |list| && ts[m].position == i
    requires k < |list| - 1
    ensures ShownAt(RemoveAt(list, i), IntendedMoveRows(ts, ts[m], targetColumnId, j), ts[m].columnId, k)
  {
    var after := IntendedMoveRows(ts, ts[m], targetColumnId, j);
    var removed := RemoveAt(list, i);
    var k0 := if k < i then k else k + 1;
    assert removed[k] == list[k0];
    var r := ShownRow(list, ts, ts[m].columnId, k0);
    assert r != m;
    IntendedRow(ts, m, targetColumnId, j, r);
    assert Shift(k0, i, j, true, false) == k;
    assert after[r].id == removed[k].id && after[r].columnId == ts[m].columnId && after[r].position == k;
  }

  /** The source list of a move to another column, after line 41. */
  lemma RemoveFollowsMove(ts: seq<TaskItem>, m: nat, list: seq<TaskItem>, i: nat, targetColumnId: int, j: int)
    requires UniqueTaskIds(ts) && m < |ts| && ts[m].columnId != targetColumnId
    requires Shows(list, ts, ts[m].columnId) && i < |list| && list[i].id == ts[m].id
    ensures Shows(RemoveAt(list, i), IntendedMoveRows(ts, ts[m], targetColumnId, j), ts[m].columnId)
  {
    DraggedRowPosition(ts, m, list, i);
    IntendedCounts(ts, m, targetColumnId, j, ts[m].columnId);
    forall k | 0 <= k < |list| - 1
      ensures ShownAt(RemoveAt(list, i), IntendedMoveRows(ts, ts[m], targetColumnId, j), ts[m].columnId, k)
    {
      RemovedEntry(ts, m, list, i, targetColumnId, j, k);
    }
  }

  /** An entry of the destination list after line 43 of a move from another column. */
  lemma InsertedEntry(ts: seq<TaskItem>, m: nat, list: seq<TaskItem>, targetColumnId: int, j: nat, x: TaskItem, k: nat)
    requires UniqueTaskIds(ts) && m < |ts| && ts[m].columnId != targetColumnId
    requires Shows(list, ts, targetColumnId) && j <= |list| && x.id == ts[m].id
    requires k <= |list|
    ensures ShownAt(InsertAt(list, j, x), IntendedMoveRows(ts, ts[m], targetColumnId, j), targetColumnId, k)
  {
    var after := IntendedMoveRows(ts, ts[m], targetColumnId, j);
    var inserted := InsertAt(list, j, x);
    if k == j {
      assert after[m].id == inserted[k].id && after[m].columnId == targetColumnId && after[m].position == k;
    } else {
      var k0 := if k < j then k else k - 1;
      assert inserted[k] == list[k0];
      var r := ShownRow(list, ts, targetColumnId, k0);
      assert r != m;
      IntendedRow(ts, m, targetColumnId, j, r);
      assert Shift(k0, ts[m].position, j, false, true) == k;
      assert after[r].id == inserted[k].id && after[r].columnId == targetColumnId && after[r].position == k;
    }
  }

  /** The destination list of a move from another column, after line 43. */
  lemma InsertFollowsMove(ts: seq<TaskItem>, m: nat, list: seq<TaskItem>, targetColumnId: int, j: nat, x: TaskItem)
    requires UniqueTaskIds(ts) && m < |ts| && ts[m].columnId != targetColumnId
    requires Shows(list, ts, targetColumnId) && j <= |list| && x.id == ts[m].id
    ensures Shows(InsertAt(list, j, x), IntendedMoveRows(ts, ts[m], targetColumnId, j), targetColumnId)
  {
    IntendedCounts(ts, m, targetColumnId, j, targetColumnId);
    forall k | 0 <= k < |list| + 1
      ensures ShownAt(InsertAt(list, j, x), IntendedMoveRows(ts, ts[m], targetColumnId, j), targetColumnId, k)
    {
      InsertedEntry(ts, m, list, targetColumnId, j, x, k);
    }
  }

  /** An entry of the list after lines 41 and 43 of a move within one column. */
  lemma SplicedEntry(ts: seq<TaskItem>, m: nat, list: seq<TaskItem>, i: nat, j: nat, x: TaskItem, k: nat)
    requires UniqueTaskIds(ts) && m < |ts|
    requires Shows(list, ts, ts[m].columnId) && i < |list| && ts[m].position == i
    requires j < |list| && x.id == ts[m].id
    requires k < |list|
    ensures ShownAt(InsertAt(RemoveAt(list, i), j, x), IntendedMoveRows(ts, ts[m], ts[m].columnId, j), ts[m].columnId, k)
  {
    var after := IntendedMoveRows(ts, ts[m], ts[m].columnId, j);
    var moved := InsertAt(RemoveAt(list, i), j, x);
    if k == j {
      assert after[m].id == moved[k].id;
    } else {
      var k1 := if k < j then k else k - 1;
      var k0 := if k1 < i then k1 else k1 + 1;
      assert moved[k] == RemoveAt(list, i)[k1] == list[k0];
      var r := ShownRow(list, ts, ts[m].columnId, k0);
      assert r != m;
      IntendedRow(ts, m, ts[m].columnId, j, r);
      assert Shift(k0, i, j, true, true) == k;
      assert after[r].id == moved[k].id;
    }
  }

  /** The list of a move within one column, after lines 41 and 43. */
  lemma SpliceFollowsMove(ts: seq<TaskItem>, m: nat, list: seq<TaskItem>, i: nat, j: nat, x: TaskItem)
    requires UniqueTaskIds(ts) && m < |ts|
    requires Shows(list, ts, ts[m].columnId) && i < |list| && list[i].id == ts[m].id
    requires j < |list| && x.id == ts[m].id
    ensures Shows(InsertAt(RemoveAt(list, i), j, x), IntendedMoveRows(ts, ts[m], ts[m].columnId, j), ts[m].columnId)
  {
    DraggedRowPosition(ts, m, list, i);
    IntendedCounts(ts, m, ts[m].columnId, j, ts[m].columnId);
    forall k | 0 <= k < |list|
      ensures ShownAt(InsertAt(RemoveAt(list, i), j, x), IntendedMoveRows(ts, ts[m], ts[m].columnId, j), ts[m].columnId, k)
    {
      SplicedEntry(ts, m, list, i, j, x, k);
    }
  }

  /**
   * The optimistic reorder shows exactly what the intended move stores: given lists that
   * show the source and destination columns, the dragged task being the moved row, and a
   * drop index inside the destination list, both lists show the moved table afterwards.
   */
  lemma ReorderFollowsIntendedMove(columns: seq<ColumnView>, ts: seq<TaskItem>, m: nat,
                                   si: nat, di: nat, from: nat, to: int)
    requires UniqueTaskIds(ts) && m < |ts|
    requires si < |columns| && di < |columns| && from < |columns[si].tasks|
    requires si == di <==> columns[si].column.id == columns[di].column.id
    requires columns[si].column.id == ts[m].columnId && columns[si].tasks[from].id == ts[m].id
    requires Shows(columns[si].tasks, ts, columns[si].column.id)
    requires Shows(columns[di].tasks, ts, columns[di].column.id)
    requires 0 <= to <= |columns[di].tasks| - (if si == di then 1 else 0)
    ensures var r := Reorder(columns, si, di, from, to);
            var after := IntendedMoveRows(ts, ts[m], columns[di].column.id, to);
            Shows(r[si].tasks, after, columns[si].column.id) && Shows(r[di].tasks, after, columns[di].column.id)
  {
    var x := columns[si].tasks[from].(columnId := columns[di].column.id);
    if si == di {
      SpliceFollowsMove(ts, m, columns[si].tasks, from, to, x);
    } else {
      RemoveFollowsMove(ts, m, columns[si].tasks, from, columns[di].column.id, to);
      InsertFollowsMove(ts, m, columns[di].tasks, columns[di].column.id, to, x);
    }
  }

  /**
   * The same for the move as written, on the moves it gets right: to another column, or
   * to a lower or equal slot of the same column.
   */
  lemma ReorderFollowsMoveAsWritten(columns: seq<ColumnView>, ts: seq<TaskItem>, m: nat,
                                    si: nat, di: nat, from: nat, to: int)
    requires UniqueTaskIds(ts) && m < |ts|
    requires si < |columns| && di < |columns| && from < |columns[si].tasks|
    requires si == di <==> columns[si].column.id == columns[di].column.id
    requires columns[si].column.id == ts[m].columnId && columns[si].tasks[from].id == ts[m].id
    requires Shows(columns[si].tasks, ts, columns[si].column.id)
    requires Shows(columns[di].tasks, ts, columns[di].column.id)
    requires 0 <= to <= |columns[di].tasks| - (if si == di then 1 else 0)
    requires si != di || to <= from
    ensures var r := Reorder(columns, si, di, from, to);
            var after := MoveRows(ts, ts[m], columns[di].column.id, to);
            Shows(r[si].tasks, after, columns[si].column.id) && Shows(r[di].tasks, after, columns[di].column.id)
  {
    DraggedRowPosition(ts, m, columns[si].tasks, from);
    WrittenMatchesIntended(ts, m, columns[di].column.id, to);
    ReorderFollowsIntendedMove(columns, ts, m, si, di, from, to);
  }
}
