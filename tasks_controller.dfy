/**
 * backend/Controllers/TasksController.cs: creating a task at the end of its column and
 * moving a task to a (column, position) slot. Both work on the rows of `Data.AppDb`;
 * MoveTask's queries read the stored rows while its loops edit the tracked copies, and
 * only the final SaveChangesAsync writes them back.
 */
module TasksController {
  import opened Wrappers
  import opened Models
  import opened Data
  import opened Positions
  import opened IntText

  datatype CreateTaskResult = Created(task: TaskItem) | CreateSaveFailed
  datatype MoveResult = Moved | NotFound | MoveSaveFailed

  /** `Tasks.Where(p).ToListAsync()`: the indices of the matching rows, in table order. */
  function IndicesWhere(ts: seq<TaskItem>, p: TaskItem -> bool): (r: seq<nat>)
    ensures forall k :: 0 <= k < |r| ==> r[k] < |ts|
    ensures forall i :: 0 <= i < |ts| ==> (i in r <==> p(ts[i]))
    ensures forall k, l :: 0 <= k < l < |r| ==> r[k] < r[l]
  {
    if ts == [] then []
    else
      var n := |ts| - 1;
      var front := IndicesWhere(ts[..n], p);
      assert forall i :: 0 <= i < n ==> ts[..n][i] == ts[i];
      front + (if p(ts[n]) then [n] else [])
  }

  /** `Tasks.FindAsync(id)`: the row holding key `id`, if any. */
  function FindTask(ts: seq<TaskItem>, id: int): (r: Option<nat>)
    ensures r.Some? ==> r.value < |ts| && ts[r.value].id == id
    ensures r.None? ==> id !in TaskIds(ts)
  {
    if ts == [] then None
    else if ts[|ts| - 1].id == id then Some(|ts| - 1)
    else
      var r := FindTask(ts[..|ts| - 1], id);
      assert ts == ts[..|ts| - 1] + [ts[|ts| - 1]];
      r
  }

  /**
   * POST /tasks: the new task goes to `NextPosition`, one past the highest position of its
   * column (wrapping at `int.MaxValue`), or to 0 when the column is empty. A ColumnId that names no column fails the insert's
   * foreign key and nothing is saved.
   */
  method CreateTask(db: AppDb, dto: CreateTaskDto) returns (r: CreateTaskResult)
    requires db.Valid()
    modifies db
    ensures db.Valid()
    ensures r.CreateSaveFailed? <==> dto.columnId !in ColumnIds(old(db.columns))
    ensures r.CreateSaveFailed? ==> db.State() == old(db.State())
    ensures r.Created? ==>
      && db.State() == old(db.State()).(tasks := old(db.tasks) + [r.task])
      && r.task.id !in TaskIds(old(db.tasks))
      && r.task.title == dto.title && r.task.description == dto.description
      && r.task.priority == dto.priority && r.task.columnId == dto.columnId
      && r.task.position == NextPosition(old(db.tasks), dto.columnId)
      && (forall c :: Dense(old(db.tasks), c) && c != dto.columnId ==> Dense(db.tasks, c))
      && (Dense(old(db.tasks), dto.columnId) && Count(old(db.tasks), dto.columnId) <= Int32Max ==>
            r.task.position == Count(old(db.tasks), dto.columnId) && Dense(db.tasks, dto.columnId))
  {
    var maxPos := MaxPosition(db.tasks, dto.columnId).GetOr(-1);
    if dto.columnId !in ColumnIds(db.columns) {
      return CreateSaveFailed;
    }
    ghost var before := db.tasks;
    var task := db.AddTask(dto.title, dto.description, dto.priority, WrapInt32(maxPos + 1), dto.columnId);
    forall c | Dense(before, c) && c != dto.columnId ensures Dense(db.tasks, c) {
      AppendKeepsDense(before, task, c);
    }
    if Dense(before, dto.columnId) && Count(before, dto.columnId) <= Int32Max {
      AppendKeepsDense(before, task, dto.columnId);
      NextPositionOfDense(before, dto.columnId);
    }
    return Created(task);
  }

  /** `foreach (var t in list) t.Position += delta` over the tracked rows listed in `idxs`. */
  method ShiftPositions(rows: seq<TaskItem>, idxs: seq<nat>, delta: int) returns (out: seq<TaskItem>)
    requires forall k :: 0 <= k < |idxs| ==> idxs[k] < |rows|
    requires forall k, l :: 0 <= k < l < |idxs| ==> idxs[k] < idxs[l]
    ensures |out| == |rows|
    ensures forall i :: 0 <= i < |rows| ==>
              out[i] == rows[i].(position := rows[i].position + (if i in idxs then delta else 0))
  {
    out := rows;
    for k := 0 to |idxs|
      invariant |out| == |rows|
      invariant forall i :: 0 <= i < |rows| ==>
        out[i] == rows[i].(position := rows[i].position + (if i in idxs[..k] then delta else 0))
    {
      var i := idxs[k];
      assert idxs[..k + 1] == idxs[..k] + [i];
      assert i !in idxs[..k];
      out := out[i := out[i].(position := out[i].position + delta)];
    }
    assert idxs[..|idxs|] == idxs;
  }

  /**
   * POST /tasks/move. Both filters are evaluated against the stored rows `db.tasks`,
   * which stay as they were until the final save; the loops edit `tracked`, the
   * entities the context has loaded. The saved table is `MoveRows` of the old one.
   */
  method MoveTask(db: AppDb, dto: MoveTaskDto) returns (r: MoveResult)
    requires db.Valid()
    modifies db
    ensures db.Valid()
    ensures r.NotFound? <==> dto.taskId !in TaskIds(old(db.tasks))
    ensures r.MoveSaveFailed? <==>
              dto.taskId in TaskIds(old(db.tasks)) && dto.targetColumnId !in ColumnIds(old(db.columns))
    ensures !r.Moved? ==> db.State() == old(db.State())
    ensures r.Moved? ==>
      && FindTask(old(db.tasks), dto.taskId).Some?
      && var m := FindTask(old(db.tasks), dto.taskId).value;
         db.State() == old(db.State()).(tasks := MoveRows(old(db.tasks), old(db.tasks)[m], dto.targetColumnId, dto.newPosition))
  {
    var found := FindTask(db.tasks, dto.taskId);
    if found.None? {
      return NotFound;
    }
    var m := found.value;
    var tracked := TrackedMove(db.tasks, m, dto.targetColumnId, dto.newPosition);

    // SaveChangesAsync: the moved row's ColumnId must name a column.
    if dto.targetColumnId !in ColumnIds(db.columns) {
      return MoveSaveFailed;
    }
    SavedMoveIsValid(db, m, dto.targetColumnId, dto.newPosition);
    db.SaveTasks(tracked);
    return Moved;
  }

  /**
   * The body of MoveTask up to the save: both queries run on the stored `rows`, both
   * loops and the placement of the mover edit the tracked copy.
   */
  method TrackedMove(rows: seq<TaskItem>, m: nat, targetColumnId: int, newPosition: int)
    returns (tracked: seq<TaskItem>)
    requires UniqueTaskIds(rows) && m < |rows|
    ensures tracked == MoveRows(rows, rows[m], targetColumnId, newPosition)
  {
    var task := rows[m];

    // 1. Remove from old column: the stored rows after the mover, one slot down.
    var oldColTasks := IndicesWhere(rows, t => InSourceTail(t, task));
    assert forall i :: 0 <= i < |rows| ==> (i in oldColTasks <==> InSourceTail(rows[i], task));
    tracked := ShiftPositions(rows, oldColTasks, -1);

    // 2. Make space in the new column: chosen on the stored rows, applied to the tracked ones.
    var newColTasks := IndicesWhere(rows, t => InTargetTail(t, targetColumnId, newPosition));
    assert forall i :: 0 <= i < |rows| ==> (i in newColTasks <==> InTargetTail(rows[i], targetColumnId, newPosition));
    tracked := ShiftPositions(tracked, newColTasks, 1);

    // 3. Update the mover.
    tracked := tracked[m := tracked[m].(columnId := targetColumnId, position := newPosition)];
    MovedRowsAreSaved(rows, m, oldColTasks, newColTasks, tracked, targetColumnId, newPosition);
  }

  /** The two loops and the placement of lines 53-63 compute `MoveRows` of the stored rows. */
  lemma MovedRowsAreSaved(rows: seq<TaskItem>, m: nat, dec: seq<nat>, inc: seq<nat>, tracked: seq<TaskItem>,
                          targetColumnId: int, newPosition: int)
    requires UniqueTaskIds(rows) && m < |rows|
    requires forall i :: 0 <= i < |rows| ==> (i in dec <==> InSourceTail(rows[i], rows[m]))
    requires forall i :: 0 <= i < |rows| ==> (i in inc <==> InTargetTail(rows[i], targetColumnId, newPosition))
    requires |tracked| == |rows|
    requires tracked[m] == rows[m].(columnId := targetColumnId, position := newPosition)
    requires forall i :: 0 <= i < |rows| && i != m ==>
      tracked[i] == rows[i].(position := rows[i].position - (if i in dec then 1 else 0) + (if i in inc then 1 else 0))
    ensures tracked == MoveRows(rows, rows[m], targetColumnId, newPosition)
  {
    var r := MoveRows(rows, rows[m], targetColumnId, newPosition);
    forall i | 0 <= i < |rows| ensures tracked[i] == r[i] {
      if i != m {
        assert rows[i].id != rows[m].id;
        assert (i in dec) == InSourceTail(rows[i], rows[m]);
        assert (i in inc) == InTargetTail(rows[i], targetColumnId, newPosition);
      }
    }
    assert |tracked| == |r|;
  }

  /** The saved rows keep their keys, and the mover's new column exists. */
  lemma SavedMoveIsValid(db: AppDb, m: nat, targetColumnId: int, newPosition: int)
    requires db.Valid() && m < |db.tasks|
    requires targetColumnId in ColumnIds(db.columns)
    ensures var r := MoveRows(db.tasks, db.tasks[m], targetColumnId, newPosition);
            && UniqueTaskIds(r)
            && (forall t :: t in r ==> 1 <= t.id < db.nextTaskId && t.columnId in ColumnIds(db.columns))
  {
    var ts := db.tasks;
    var r := MoveRows(ts, ts[m], targetColumnId, newPosition);
    forall i | 0 <= i < |r|
      ensures r[i].id == ts[i].id && (r[i].columnId == ts[i].columnId || r[i].columnId == targetColumnId)
    {
    }
    forall i, j | 0 <= i < j < |r| ensures r[i].id != r[j].id {
      assert ts[i].id != ts[j].id;
    }
    forall t | t in r ensures 1 <= t.id < db.nextTaskId && t.columnId in ColumnIds(db.columns) {
      var i :| 0 <= i < |r| && r[i] == t;
      assert ts[i] in ts;
    }
  }
}
