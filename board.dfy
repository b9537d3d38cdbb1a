/**
 * frontend/src/components/kanban/Board.tsx: the board page. It holds the project loaded
 * from GET /projects/1, and on a drop it moves the dragged task between the per-column
 * task lists at once (splice out of the source list, splice into the destination list),
 * then posts the move; a failed post re-fetches the project instead of undoing the move.
 * The lists are the columns of the JSON of GET /projects/{id} (ProjectsController.ProjectView).
 * HTTP calls are recorded in `sent`; their answers arrive as calls of OnProjectFetched
 * and OnMoveRequestFailed.
 */
module Board {
  import opened Wrappers
  import opened Models
  import opened Queries
  import opened IntText
  import opened ProjectsController

  /** Where a drag started or ended: the column's `droppableId` and the index in its list. */
  datatype Location = Location(droppableId: string, index: int)

  /** The DropResult of @hello-pangea/dnd; `destination` is null when the drop is outside any column. */
  datatype DropResult = DropResult(draggableId: string, source: Location, destination: Option<Location>)

  /**
   * The requests the board sends. In a move, `None` is the NaN that parseInt gives for
   * text that does not start with a number.
   */
  datatype Request =
    | MoveTask(taskId: Option<int>, targetColumnId: Option<int>, newPosition: int)
    | FetchProject(projectId: int)

  /**
   * How onDragEnd ended: nothing to do (line 29), a TypeError on an undefined column or
   * task (lines 38-43), or the request sent (lines 49-53).
   */
  datatype DragOutcome = Ignored | SourceColumnMissing | NoTaskAtIndex | DestinationColumnMissing | Sent

  /** The project the page always loads (line 19). */
  const BoardProjectId: int := 1

  // ------------------------------------------------------------------
  // Array.prototype.splice
  // ------------------------------------------------------------------

  /**
   * The index at which `splice(start, ...)` acts on an array of length `len`: a negative
   * start counts from the end, and the result is clamped to 0 .. len.
   */
  function SpliceStart(start: int, len: nat): (k: nat)
    ensures k <= len
    ensures 0 <= start <= len ==> k == start
    ensures start < 0 ==> k == (if len + start < 0 then 0 else len + start)
    ensures start > len ==> k == len
  {
    if start < 0 then (if len + start < 0 then 0 else len + start)
    else if start > len then len
    else start
  }

  /** `s` without its element at `k` (`splice(k, 1)` on an array that has one there). */
  function RemoveAt<T>(s: seq<T>, k: nat): (r: seq<T>)
    requires k < |s|
    ensures |r| == |s| - 1
    ensures forall i :: 0 <= i < |r| ==> r[i] == if i < k then s[i] else s[i + 1]
  {
    s[..k] + s[k + 1..]
  }

  /** `s` with `x` inserted so that it sits at `k` (`splice(k, 0, x)`). */
  function InsertAt<T>(s: seq<T>, k: nat, x: T): (r: seq<T>)
    requires k <= |s|
    ensures |r| == |s| + 1 && r[k] == x
    ensures forall i :: 0 <= i < |r| && i != k ==> r[i] == if i < k then s[i] else s[i - 1]
  {
    s[..k] + [x] + s[k..]
  }

  /** Inserting and then removing at the same index gives the list back. */
  lemma RemoveInserted<T>(s: seq<T>, k: nat, x: T)
    requires k <= |s|
    ensures RemoveAt(InsertAt(s, k, x), k) == s
  {
  }

  /** Removing an element and inserting it back at the same index gives the list back. */
  lemma InsertRemoved<T>(s: seq<T>, k: nat)
    requires k < |s|
    ensures InsertAt(RemoveAt(s, k), k, s[k]) == s
  {
    var r := InsertAt(RemoveAt(s, k), k, s[k]);
    assert forall i :: 0 <= i < |s| ==> r[i] == s[i];
  }

  // ------------------------------------------------------------------
  // The optimistic reorder (lines 34-45)
  // ------------------------------------------------------------------

  /** `newColumns.findIndex(c => c.id.toString() === droppableId)`; `None` is -1. */
  function FindColumn(columns: seq<ColumnView>, droppableId: string): (r: Option<nat>)
    ensures r.None? <==> forall k :: 0 <= k < |columns| ==> DecimalText(columns[k].column.id) != droppableId
    ensures r.Some? ==> r.value < |columns| && DecimalText(columns[r.value].column.id) == droppableId
    ensures r.Some? ==> forall k :: 0 <= k < r.value ==> DecimalText(columns[k].column.id) != droppableId
  {
    FirstIndex(columns, (c: ColumnView) => DecimalText(c.column.id) == droppableId)
  }

  /**
   * The columns after the task at index `from` of column `si` is spliced out, given the
   * destination's id as its ColumnId, and spliced into column `di` at `to`. When `si == di`
   * both splices act on the same list, one after the other.
   */
  function Reorder(columns: seq<ColumnView>, si: nat, di: nat, from: nat, to: int): seq<ColumnView>
    requires si < |columns| && di < |columns| && from < |columns[si].tasks|
  {
    var moved := columns[si].tasks[from];
    var removed := columns[si := columns[si].(tasks := RemoveAt(columns[si].tasks, from))];
    var dest := removed[di];
    removed[di := dest.(tasks := InsertAt(dest.tasks, SpliceStart(to, |dest.tasks|),
                                          moved.(columnId := dest.column.id)))]
  }

  /** All tasks on the board. */
  function TaskCount(columns: seq<ColumnView>): nat
  {
    if columns == [] then 0 else |columns[0].tasks| + TaskCount(columns[1..])
  }

  lemma {:induction false} TaskCountUpdate(columns: seq<ColumnView>, k: nat, c: ColumnView)
    requires k < |columns|
    ensures TaskCount(columns[k := c]) == TaskCount(columns) - |columns[k].tasks| + |c.tasks|
  {
    if k == 0 {
      assert columns[k := c][1..] == columns[1..];
    } else {
      TaskCountUpdate(columns[1..], k - 1, c);
      assert columns[k := c][1..] == columns[1..][k - 1 := c];
    }
  }

  /** The reorder neither adds nor drops a task. */
  lemma ReorderKeepsTaskCount(columns: seq<ColumnView>, si: nat, di: nat, from: nat, to: int)
    requires si < |columns| && di < |columns| && from < |columns[si].tasks|
    ensures TaskCount(Reorder(columns, si, di, from, to)) == TaskCount(columns)
  {
    var removed := columns[si := columns[si].(tasks := RemoveAt(columns[si].tasks, from))];
    TaskCountUpdate(columns, si, removed[si]);
    var dest := removed[di];
    var moved := columns[si].tasks[from].(columnId := dest.column.id);
    TaskCountUpdate(removed, di, dest.(tasks := InsertAt(dest.tasks, SpliceStart(to, |dest.tasks|), moved)));
  }

  /**
   * The dragged task ends up in the destination list at `to` (clamped as splice does),
   * carrying the destination's id as its ColumnId; columns keep their order and ids.
   */
  lemma ReorderPlacesTask(columns: seq<ColumnView>, si: nat, di: nat, from: nat, to: int)
    requires si < |columns| && di < |columns| && from < |columns[si].tasks|
    ensures var r := Reorder(columns, si, di, from, to);
            var at := SpliceStart(to, |columns[di].tasks| - (if si == di then 1 else 0));
            && |r| == |columns|
            && (forall k :: 0 <= k < |r| ==> r[k].column == columns[k].column)
            && at < |r[di].tasks|
            && r[di].tasks[at] == columns[si].tasks[from].(columnId := columns[di].column.id)
  {
  }

  /**
   * A move between two columns: the source list loses exactly the task at `from`, the
   * destination list without the inserted task is the old destination list, and every
   * other column is unchanged; so all other tasks keep their order.
   */
  lemma ReorderAcrossColumns(columns: seq<ColumnView>, si: nat, di: nat, from: nat, to: int)
    requires si < |columns| && di < |columns| && from < |columns[si].tasks|
    requires si != di
    ensures var r := Reorder(columns, si, di, from, to);
            && r[si].tasks == RemoveAt(columns[si].tasks, from)
            && RemoveAt(r[di].tasks, SpliceStart(to, |columns[di].tasks|)) == columns[di].tasks
            && (forall k :: 0 <= k < |r| && k != si && k != di ==> r[k] == columns[k])
  {
    var at := SpliceStart(to, |columns[di].tasks|);
    RemoveInserted(columns[di].tasks, at, columns[si].tasks[from].(columnId := columns[di].column.id));
  }

  /**
   * A move within one column: taking the moved task out of the new list gives the old
   * list without it, and every other column is unchanged.
   */
  lemma ReorderWithinColumn(columns: seq<ColumnView>, si: nat, from: nat, to: int)
    requires si < |columns| && from < |columns[si].tasks|
    ensures var r := Reorder(columns, si, si, from, to);
            && RemoveAt(r[si].tasks, SpliceStart(to, |columns[si].tasks| - 1)) == RemoveAt(columns[si].tasks, from)
            && (forall k :: 0 <= k < |r| && k != si ==> r[k] == columns[k])
  {
    var rest := RemoveAt(columns[si].tasks, from);
    RemoveInserted(rest, SpliceStart(to, |rest|), columns[si].tasks[from].(columnId := columns[si].column.id));
  }

  /**
   * A move within one column permutes that column's list, given the dragged task already
   * named that column (as every task of a view of GetProject does).
   */
  lemma ReorderWithinColumnPermutes(columns: seq<ColumnView>, si: nat, from: nat, to: int)
    requires si < |columns| && from < |columns[si].tasks|
    requires columns[si].tasks[from].columnId == columns[si].column.id
    ensures multiset(Reorder(columns, si, si, from, to)[si].tasks) == multiset(columns[si].tasks)
  {
    var s := columns[si].tasks;
    var rest := RemoveAt(s, from);
    assert s == s[..from] + [s[from]] + s[from + 1..];
    assert multiset(rest) + multiset{s[from]} == multiset(s);
    var at := SpliceStart(to, |rest|);
    assert rest == rest[..at] + rest[at..];
    assert multiset(InsertAt(rest, at, s[from])) == multiset(rest) + multiset{s[from]};
  }

  /** The ids parsed into the request are those the board rendered as text (lines 50-51, 76, 90). */
  lemma RequestCarriesIds(taskId: int, columnId: int, index: int)
    ensures MoveRequestOf(DecimalText(taskId), Location(DecimalText(columnId), index))
         == MoveTask(Some(taskId), Some(columnId), index)
  {
    JsParseDecimalText(taskId);
    JsParseDecimalText(columnId);
  }

  /** The body of POST /tasks/move (lines 49-53); `newPosition` is the unclamped drop index. */
  function MoveRequestOf(draggableId: string, destination: Location): (r: Request)
    ensures r.MoveTask? && r.newPosition == destination.index
    ensures r.taskId == JsParseInt(draggableId) && r.targetColumnId == JsParseInt(destination.droppableId)
  {
    MoveTask(JsParseInt(draggableId), JsParseInt(destination.droppableId), destination.index)
  }

  /** How a drop that passed the guard of line 29 ends, and the columns it leaves. */
  datatype Drag = Drag(outcome: DragOutcome, columns: seq<ColumnView>)

  /**
   * Lines 34-45 on the current columns. `newColumns` is a shallow copy: its column objects
   * are those of the current project, so when the destination column is not found the
   * splice of line 41 has already removed the task from the current project's source column
   * by the time line 42 throws.
   */
  function Drop(columns: seq<ColumnView>, source: Location, destination: Location): (d: Drag)
    ensures d.outcome != Ignored
    ensures d.outcome.SourceColumnMissing? <==> FindColumn(columns, source.droppableId).None?
    ensures d.outcome.SourceColumnMissing? || d.outcome.NoTaskAtIndex? ==> d.columns == columns
    ensures !d.outcome.SourceColumnMissing? ==>
      var si := FindColumn(columns, source.droppableId).value;
      var from := SpliceStart(source.index, |columns[si].tasks|);
      && (d.outcome.NoTaskAtIndex? <==> from == |columns[si].tasks|)
      && (d.outcome.DestinationColumnMissing? ==>
            FindColumn(columns, destination.droppableId).None?
            && d.columns == columns[si := columns[si].(tasks := RemoveAt(columns[si].tasks, from))])
      && (d.outcome.Sent? <==> from < |columns[si].tasks| && FindColumn(columns, destination.droppableId).Some?)
      && (d.outcome.Sent? ==>
            d.columns == Reorder(columns, si, FindColumn(columns, destination.droppableId).value, from, destination.index))
  {
    match FindColumn(columns, source.droppableId)
    case None => Drag(SourceColumnMissing, columns)
    case Some(si) =>
      var from := SpliceStart(source.index, |columns[si].tasks|);
      if from == |columns[si].tasks| then Drag(NoTaskAtIndex, columns)
      else match FindColumn(columns, destination.droppableId)
        case None => Drag(DestinationColumnMissing, columns[si := columns[si].(tasks := RemoveAt(columns[si].tasks, from))])
        case Some(di) => Drag(Sent, Reorder(columns, si, di, from, destination.index))
  }

  /** Lines 41-43 on the columns: splice out, set the ColumnId, splice in. */
  method SpliceTask(columns: seq<ColumnView>, si: nat, di: nat, from: nat, to: int) returns (r: seq<ColumnView>)
    requires si < |columns| && di < |columns| && from < |columns[si].tasks|
    ensures r == Reorder(columns, si, di, from, to)
  {
    r := columns;
    var sourceCol := r[si];
    var movedTask := sourceCol.tasks[from];
    sourceCol := sourceCol.(tasks := RemoveAt(sourceCol.tasks, from));
    r := r[si := sourceCol];
    var destCol := r[di];
    movedTask := movedTask.(columnId := destCol.column.id);
    destCol := destCol.(tasks := InsertAt(destCol.tasks, SpliceStart(to, |destCol.tasks|), movedTask));
    r := r[di := destCol];
  }

  // ------------------------------------------------------------------
  // The page's state
  // ------------------------------------------------------------------

  class BoardPage {
    /** `project` of useState; `None` until the first fetch succeeds. */
    var project: Option<ProjectView>
    /** Every request sent so far, oldest first. */
    var sent: seq<Request>

    /** The first render, whose effect fetches the project (lines 12-14). */
    constructor()
      ensures project == None && sent == [FetchProject(BoardProjectId)]
    {
      project := None;
      sent := [FetchProject(BoardProjectId)];
    }

    /** A fetch answered: `setProject(res.data)` (line 20). */
    method OnProjectFetched(p: ProjectView)
      modifies this
      ensures project == Some(p) && sent == old(sent)
    {
      project := Some(p);
    }

    /**
     * The move request failed (lines 54-56): the project is fetched again, and the
     * optimistic reorder is not undone locally.
     */
    method OnMoveRequestFailed()
      modifies this
      ensures project == old(project)
      ensures sent == old(sent) + [FetchProject(BoardProjectId)]
    {
      sent := sent + [FetchProject(BoardProjectId)];
    }

    /**
     * onDragEnd (lines 28-58): the guard of line 29, then the reorder of lines 34-45 and,
     * when it did not throw, the request of lines 49-53.
     */
    method OnDragEnd(drop: DropResult) returns (outcome: DragOutcome)
      modifies this
      ensures outcome.Ignored? <==> drop.destination.None? || old(project).None?
      ensures outcome.Ignored? ==> project == old(project) && sent == old(sent)
      ensures !outcome.Ignored? ==>
        var d := Drop(old(project).value.columns, drop.source, drop.destination.value);
        && outcome == d.outcome
        && project == Some(old(project).value.(columns := d.columns))
        && sent == old(sent) + (if outcome.Sent? then [MoveRequestOf(drop.draggableId, drop.destination.value)] else [])
    {
      if drop.destination.None? || project.None? {
        return Ignored;
      }
      var destination := drop.destination.value;
      var newColumns := project.value.columns;
      var sourceColIndex := FindColumn(newColumns, drop.source.droppableId);
      var destColIndex := FindColumn(newColumns, destination.droppableId);
      if sourceColIndex.None? {
        return SourceColumnMissing;
      }
      var si := sourceColIndex.value;
      var sourceCol := newColumns[si];
      var from := SpliceStart(drop.source.index, |sourceCol.tasks|);
      if from == |sourceCol.tasks| {
        // splice removed nothing, and movedTask is undefined
        return NoTaskAtIndex;
      }
      if destColIndex.None? {
        sourceCol := sourceCol.(tasks := RemoveAt(sourceCol.tasks, from));
        project := Some(project.value.(columns := newColumns[si := sourceCol]));
        return DestinationColumnMissing;
      }
      newColumns := SpliceTask(newColumns, si, destColIndex.value, from, destination.index);
      project := Some(project.value.(columns := newColumns));
      sent := sent + [MoveRequestOf(drop.draggableId, destination)];
      return Sent;
    }
  }
}
