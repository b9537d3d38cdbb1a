/**
 * Task positions within a column: the dense-ordering invariant, the append position
 * of CreateTask and the row-by-row effect of MoveTask (backend/Controllers/TasksController.cs),
 * as functions over the rows of the Tasks table.
 */
module Positions {
  import opened Wrappers
  import opened Models
  import opened IntText

  /** Number of tasks whose ColumnId is `c`. */
  function Count(ts: seq<TaskItem>, c: int): (n: nat)
    ensures n <= |ts|
    ensures n == 0 <==> forall i :: 0 <= i < |ts| ==> ts[i].columnId != c
  {
    assert forall i :: 1 <= i < |ts| ==> ts[i] == ts[1..][i - 1];
    if ts == [] then 0 else (if ts[0].columnId == c then 1 else 0) + Count(ts[1..], c)
  }

  /** No two tasks of column `c` share a position. */
  ghost predicate DistinctPositions(ts: seq<TaskItem>, c: int)
  {
    forall i, j :: 0 <= i < j < |ts| && ts[i].columnId == c && ts[j].columnId == c ==>
      ts[i].position != ts[j].position
  }

  /**
   * Column `c` is dense: its tasks' positions are pairwise distinct and all lie in
   * 0 .. Count - 1, so that (DenseCovers) they are exactly 0, 1, ..., Count - 1.
   */
  ghost predicate Dense(ts: seq<TaskItem>, c: int)
  {
    && (forall i :: 0 <= i < |ts| && ts[i].columnId == c ==> 0 <= ts[i].position < Count(ts, c))
    && DistinctPositions(ts, c)
  }

  // ------------------------------------------------------------------
  // Counting
  // ------------------------------------------------------------------

  lemma {:induction false} CountConcat(a: seq<TaskItem>, b: seq<TaskItem>, c: int)
    ensures Count(a + b, c) == Count(a, c) + Count(b, c)
  {
    if a != [] {
      assert (a + b)[0] == a[0];
      assert (a + b)[1..] == a[1..] + b;
      CountConcat(a[1..], b, c);
    } else {
      assert a + b == b;
    }
  }

  /** Rows that keep their columns keep every column's count. */
  lemma {:induction false} CountSameColumns(a: seq<TaskItem>, b: seq<TaskItem>, c: int)
    requires |a| == |b|
    requires forall i :: 0 <= i < |a| ==> a[i].columnId == b[i].columnId
    ensures Count(a, c) == Count(b, c)
  {
    if a != [] {
      CountSameColumns(a[1..], b[1..], c);
    }
  }

  /** The count of a column seen around one row `m`. */
  lemma CountAround(ts: seq<TaskItem>, m: nat, c: int)
    requires m < |ts|
    ensures Count(ts, c) == Count(ts[..m], c) + (if ts[m].columnId == c then 1 else 0) + Count(ts[m + 1..], c)
  {
    assert ts == ts[..m] + ([ts[m]] + ts[m + 1..]);
    CountConcat(ts[..m], [ts[m]] + ts[m + 1..], c);
    CountConcat([ts[m]], ts[m + 1..], c);
  }

  // ------------------------------------------------------------------
  // Every position 0 .. Count - 1 of a dense column is taken (pigeonhole)
  // ------------------------------------------------------------------

  /** The integers 0 .. n - 1. */
  function Range(n: nat): (r: set<int>)
    ensures forall k :: k in r <==> 0 <= k < n
    ensures |r| == n
  {
    if n == 0 then {} else Range(n - 1) + {n - 1}
  }

  /** The positions held in column `c`. */
  function PositionSet(ts: seq<TaskItem>, c: int): set<int>
  {
    if ts == [] then {}
    else (if ts[0].columnId == c then {ts[0].position} else {}) + PositionSet(ts[1..], c)
  }

  lemma {:induction false} PositionSetAvoids(ts: seq<TaskItem>, c: int, v: int)
    requires forall i :: 0 <= i < |ts| && ts[i].columnId == c ==> ts[i].position != v
    ensures v !in PositionSet(ts, c)
  {
    if ts != [] {
      PositionSetAvoids(ts[1..], c, v);
    }
  }

  lemma {:induction false} PositionSetWithin(ts: seq<TaskItem>, c: int, n: nat)
    requires forall i :: 0 <= i < |ts| && ts[i].columnId == c ==> 0 <= ts[i].position < n
    ensures PositionSet(ts, c) <= Range(n)
  {
    if ts != [] {
      PositionSetWithin(ts[1..], c, n);
    }
  }

  lemma {:induction false} PositionSetSize(ts: seq<TaskItem>, c: int)
    requires DistinctPositions(ts, c)
    ensures |PositionSet(ts, c)| == Count(ts, c)
  {
    if ts != [] {
      var tail := ts[1..];
      assert DistinctPositions(tail, c) by {
        forall i, j | 0 <= i < j < |tail| && tail[i].columnId == c && tail[j].columnId == c
          ensures tail[i].position != tail[j].position
        {
          assert tail[i] == ts[i + 1] && tail[j] == ts[j + 1];
        }
      }
      PositionSetSize(tail, c);
      if ts[0].columnId == c {
        forall i | 0 <= i < |tail| && tail[i].columnId == c ensures tail[i].position != ts[0].position {
          assert tail[i] == ts[i + 1];
        }
        PositionSetAvoids(tail, c, ts[0].position);
      }
    }
  }

  lemma SubsetSize(a: set<int>, b: set<int>)
    requires a <= b
    ensures |a| <= |b|
  {
    assert b == a + (b - a);
    assert a * (b - a) == {};
  }

  /** The positions of a dense column are exactly 0, 1, ..., Count - 1. */
  lemma DensePositionsExact(ts: seq<TaskItem>, c: int)
    requires Dense(ts, c)
    ensures PositionSet(ts, c) == Range(Count(ts, c))
  {
    var n := Count(ts, c);
    PositionSetSize(ts, c);
    PositionSetWithin(ts, c, n);
    var s := PositionSet(ts, c);
    if s != Range(n) {
      assert Range(n) - s != {};
      var k :| k in Range(n) - s;
      SubsetSize(s, Range(n) - {k});
    }
  }

  /** Every position 0 .. Count - 1 of a dense column is held by some task. */
  lemma DenseCovers(ts: seq<TaskItem>, c: int, k: int)
    requires Dense(ts, c)
    requires 0 <= k < Count(ts, c)
    ensures exists i :: 0 <= i < |ts| && ts[i].columnId == c && ts[i].position == k
  {
    DensePositionsExact(ts, c);
    if !exists i :: 0 <= i < |ts| && ts[i].columnId == c && ts[i].position == k {
      PositionSetAvoids(ts, c, k);
    }
  }

  // ------------------------------------------------------------------
  // CreateTask: append at one past the column's maximum position
  // ------------------------------------------------------------------

  /** `MaxAsync(t => (int?)t.Position)` over the tasks of column `c`: None when it has none. */
  function MaxPosition(ts: seq<TaskItem>, c: int): (m: Option<int>)
    ensures m.None? <==> Count(ts, c) == 0
    ensures m.Some? ==> forall i :: 0 <= i < |ts| && ts[i].columnId == c ==> ts[i].position <= m.value
    ensures m.Some? ==> exists i :: 0 <= i < |ts| && ts[i].columnId == c && ts[i].position == m.value
  {
    if ts == [] then None
    else
      var rest := MaxPosition(ts[1..], c);
      assert forall i :: 1 <= i < |ts| ==> ts[i] == ts[1..][i - 1];
      if ts[0].columnId != c then rest
      else if rest.None? || rest.value < ts[0].position then Some(ts[0].position)
      else rest
  }

  /** Every task of column `c` has a C# `int` as its position. */
  predicate PositionsInt32(ts: seq<TaskItem>, c: int)
  {
    forall i :: 0 <= i < |ts| && ts[i].columnId == c ==> IsInt32(ts[i].position)
  }

  /** Some task of column `c` sits at `int.MaxValue`. */
  predicate ReachesInt32Max(ts: seq<TaskItem>, c: int)
  {
    exists i :: 0 <= i < |ts| && ts[i].columnId == c && ts[i].position == Int32Max
  }

  /**
   * Position of a task created in column `c` (line 35): `(max ?? -1) + 1` in unchecked
   * `int` arithmetic. It is one past the highest position of the column, unless a task
   * already sits at `int.MaxValue`: then the sum wraps to `int.MinValue`, below them all.
   */
  function NextPosition(ts: seq<TaskItem>, c: int): (p: int)
    ensures IsInt32(p)
    ensures Count(ts, c) == 0 ==> p == 0
    ensures PositionsInt32(ts, c) && !ReachesInt32Max(ts, c) ==>
              && (forall i :: 0 <= i < |ts| && ts[i].columnId == c ==> ts[i].position < p)
              && (Count(ts, c) > 0 ==> exists i :: 0 <= i < |ts| && ts[i].columnId == c && ts[i].position == p - 1)
    ensures PositionsInt32(ts, c) && ReachesInt32Max(ts, c) ==>
              p == Int32Min && forall i :: 0 <= i < |ts| && ts[i].columnId == c ==> p <= ts[i].position
  {
    WrapInt32(MaxPosition(ts, c).GetOr(-1) + 1)
  }

  /**
   * On a dense column the appended task lands exactly at the count of the column. A column
   * holds fewer than 2^31 tasks, since task ids are positive C# `int`s.
   */
  lemma NextPositionOfDense(ts: seq<TaskItem>, c: int)
    requires Dense(ts, c)
    requires Count(ts, c) <= Int32Max
    ensures NextPosition(ts, c) == Count(ts, c)
  {
    var n := Count(ts, c);
    if n > 0 {
      DenseCovers(ts, c, n - 1);
      assert PositionsInt32(ts, c) && !ReachesInt32Max(ts, c);
    }
  }

  /** Appending at NextPosition keeps the target column dense, and every other column as it was. */
  lemma AppendKeepsDense(ts: seq<TaskItem>, t: TaskItem, c: int)
    requires Dense(ts, c)
    requires t.columnId == c ==> t.position == NextPosition(ts, c) && Count(ts, c) <= Int32Max
    ensures Dense(ts + [t], c)
  {
    CountConcat(ts, [t], c);
    if t.columnId == c {
      NextPositionOfDense(ts, c);
    }
    var r := ts + [t];
    forall i | 0 <= i < |r| - 1 ensures r[i] == ts[i] { }
  }

  // ------------------------------------------------------------------
  // MoveTask as written (lines 46-65)
  // ------------------------------------------------------------------

  /** The filter of line 51, applied to the stored row `t`. */
  predicate InSourceTail(t: TaskItem, mover: TaskItem)
  {
    t.columnId == mover.columnId && t.id != mover.id && t.position > mover.position
  }

  /**
   * The filter of line 57. It is evaluated by the database against the stored rows,
   * before anything is saved: it sees no decrement of line 53, and the mover is not excluded.
   */
  predicate InTargetTail(t: TaskItem, targetColumnId: int, newPosition: int)
  {
    t.columnId == targetColumnId && t.position >= newPosition
  }

  /** The saved row for stored row `t`: both loops (lines 53, 59), then the placement of lines 62-63. */
  function Placed(t: TaskItem, mover: TaskItem, targetColumnId: int, newPosition: int): TaskItem
  {
    if t.id == mover.id then t.(columnId := targetColumnId, position := newPosition)
    else
      t.(position := t.position
                     - (if InSourceTail(t, mover) then 1 else 0)
                     + (if InTargetTail(t, targetColumnId, newPosition) then 1 else 0))
  }

  /** The Tasks table after MoveTask of `mover` to (`targetColumnId`, `newPosition`). */
  function MoveRows(ts: seq<TaskItem>, mover: TaskItem, targetColumnId: int, newPosition: int): (r: seq<TaskItem>)
    ensures |r| == |ts|
    ensures forall i :: 0 <= i < |ts| ==> r[i] == Placed(ts[i], mover, targetColumnId, newPosition)
  {
    if ts == [] then []
    else [Placed(ts[0], mover, targetColumnId, newPosition)] + MoveRows(ts[1..], mover, targetColumnId, newPosition)
  }

  /** The move changes only positions and the mover's column; ids, titles and the rest stay. */
  ghost predicate SameRowsBut(ts: seq<TaskItem>, r: seq<TaskItem>)
  {
    |r| == |ts| &&
    forall i :: 0 <= i < |ts| ==>
      r[i].id == ts[i].id && r[i].title == ts[i].title && r[i].description == ts[i].description
      && r[i].priority == ts[i].priority
  }

  /** Counts of every column after a move of the row `m`. */
  lemma MoveCounts(ts: seq<TaskItem>, m: nat, targetColumnId: int, newPosition: int, c: int)
    requires UniqueTaskIds(ts) && m < |ts|
    ensures Count(MoveRows(ts, ts[m], targetColumnId, newPosition), c)
         == Count(ts, c) - (if ts[m].columnId == c then 1 else 0) + (if targetColumnId == c then 1 else 0)
  {
    var r := MoveRows(ts, ts[m], targetColumnId, newPosition);
    CountAround(ts, m, c);
    CountAround(r, m, c);
    CountSameColumns(r[..m], ts[..m], c);
    CountSameColumns(r[m + 1..], ts[m + 1..], c);
  }

  /**
   * A move to the slot the task already holds changes nothing, provided no other task
   * of its column shares that slot.
   */
  lemma {:induction false} MoveToOwnSlotIsNoOp(ts: seq<TaskItem>, m: nat)
    requires UniqueTaskIds(ts) && m < |ts|
    requires DistinctPositions(ts, ts[m].columnId)
    ensures MoveRows(ts, ts[m], ts[m].columnId, ts[m].position) == ts
  {
    var r := MoveRows(ts, ts[m], ts[m].columnId, ts[m].position);
    forall i | 0 <= i < |ts| ensures r[i] == ts[i] {
      if i != m {
        assert ts[i].id != ts[m].id;
        if ts[i].columnId == ts[m].columnId {
          assert ts[i].position != ts[m].position by { if i < m { } else { } }
        }
      }
    }
  }

  /**
   * After the move the mover sits in the target column at NewPosition, even when that
   * position is negative or beyond the column's end: nothing clamps or rejects it.
   */
  lemma MoverPlaced(ts: seq<TaskItem>, m: nat, targetColumnId: int, newPosition: int)
    requires m < |ts|
    ensures var r := MoveRows(ts, ts[m], targetColumnId, newPosition);
            r[m] == ts[m].(columnId := targetColumnId, position := newPosition)
            && SameRowsBut(ts, r)
  {
  }

  /**
   * NewPosition is stored unclamped, so a move to `int.MaxValue` is accepted; the next
   * task created in that column then gets `int.MinValue`, below every task already there.
   */
  lemma MoveToInt32MaxWrapsNextPosition(ts: seq<TaskItem>, m: nat, c: int)
    requires m < |ts|
    requires PositionsInt32(MoveRows(ts, ts[m], c, Int32Max), c)
    ensures var r := MoveRows(ts, ts[m], c, Int32Max);
            NextPosition(r, c) == Int32Min
            && forall i :: 0 <= i < |r| && r[i].columnId == c ==> NextPosition(r, c) <= r[i].position
  {
    var r := MoveRows(ts, ts[m], c, Int32Max);
    assert r[m].columnId == c && r[m].position == Int32Max;
    assert ReachesInt32Max(r, c);
  }

  /** Tasks of columns other than the source and the target keep their rows. */
  lemma OtherColumnsUntouched(ts: seq<TaskItem>, m: nat, targetColumnId: int, newPosition: int, c: int)
    requires UniqueTaskIds(ts) && m < |ts|
    requires c != ts[m].columnId && c != targetColumnId
    ensures var r := MoveRows(ts, ts[m], targetColumnId, newPosition);
            (forall i :: 0 <= i < |ts| && ts[i].columnId == c ==> r[i] == ts[i])
            && Count(r, c) == Count(ts, c)
            && (Dense(ts, c) ==> Dense(r, c))
  {
    MoveCounts(ts, m, targetColumnId, newPosition, c);
    var r := MoveRows(ts, ts[m], targetColumnId, newPosition);
    forall i | 0 <= i < |ts| ensures (r[i].columnId == c) == (ts[i].columnId == c) && (ts[i].columnId == c ==> r[i] == ts[i]) {
      if i != m { assert ts[i].id != ts[m].id; }
    }
  }

  /**
   * The tasks other than the mover keep their relative order in every column, as long
   * as the source column had no two tasks on one position.
   */
  lemma MoveKeepsRelativeOrder(ts: seq<TaskItem>, m: nat, targetColumnId: int, newPosition: int, i: nat, j: nat)
    requires UniqueTaskIds(ts) && m < |ts|
    requires DistinctPositions(ts, ts[m].columnId)
    requires i < |ts| && j < |ts| && i != m && j != m
    requires ts[i].columnId == ts[j].columnId && ts[i].position < ts[j].position
    ensures var r := MoveRows(ts, ts[m], targetColumnId, newPosition);
            r[i].columnId == r[j].columnId && r[i].position < r[j].position
  {
    assert ts[i].id != ts[m].id && ts[j].id != ts[m].id;
    if ts[i].columnId == ts[m].columnId {
      assert ts[i].position != ts[m].position by {
        if i < m { } else { }
      }
    }
  }

  // ------------------------------------------------------------------
  // The move the code evidently intends: the destination shift sees the compacted
  // source column and leaves the mover out.
  // ------------------------------------------------------------------

  /** Position of `t` once the source column has been compacted (line 53). */
  function Compacted(t: TaskItem, mover: TaskItem): int
  {
    t.position - (if InSourceTail(t, mover) then 1 else 0)
  }

  function IntendedPlaced(t: TaskItem, mover: TaskItem, targetColumnId: int, newPosition: int): TaskItem
  {
    if t.id == mover.id then t.(columnId := targetColumnId, position := newPosition)
    else
      var x := Compacted(t, mover);
      t.(position := x + (if t.columnId == targetColumnId && x >= newPosition then 1 else 0))
  }

  function IntendedMoveRows(ts: seq<TaskItem>, mover: TaskItem, targetColumnId: int, newPosition: int): (r: seq<TaskItem>)
    ensures |r| == |ts|
    ensures forall i :: 0 <= i < |ts| ==> r[i] == IntendedPlaced(ts[i], mover, targetColumnId, newPosition)
  {
    if ts == [] then []
    else [IntendedPlaced(ts[0], mover, targetColumnId, newPosition)]
         + IntendedMoveRows(ts[1..], mover, targetColumnId, newPosition)
  }

  /**
   * The code as written and the intended move agree on every cross-column move and on
   * every move to a lower or equal slot of the same column.
   */
  lemma WrittenMatchesIntended(ts: seq<TaskItem>, m: nat, targetColumnId: int, newPosition: int)
    requires UniqueTaskIds(ts) && m < |ts|
    requires ts[m].columnId != targetColumnId || newPosition <= ts[m].position
    ensures MoveRows(ts, ts[m], targetColumnId, newPosition)
         == IntendedMoveRows(ts, ts[m], targetColumnId, newPosition)
  {
    var r := MoveRows(ts, ts[m], targetColumnId, newPosition);
    var s := IntendedMoveRows(ts, ts[m], targetColumnId, newPosition);
    forall i | 0 <= i < |ts| ensures r[i] == s[i] {
      if i != m { assert ts[i].id != ts[m].id; }
    }
  }

  /** What the intended move does to the position `x` of a task other than the mover. */
  function Shift(x: int, p: int, q: int, fromSource: bool, intoTarget: bool): int
  {
    var y := if fromSource && x > p then x - 1 else x;
    if intoTarget && y >= q then y + 1 else y
  }

  lemma ShiftInRange(x: int, p: int, q: int, n: int, nAfter: int, fromSource: bool, intoTarget: bool)
    requires 0 <= x < n
    requires fromSource ==> x != p && 0 <= p < n
    requires nAfter == n - (if fromSource then 1 else 0) + (if intoTarget then 1 else 0)
    requires intoTarget ==> 0 <= q < nAfter
    ensures 0 <= Shift(x, p, q, fromSource, intoTarget) < nAfter
    ensures intoTarget ==> Shift(x, p, q, fromSource, intoTarget) != q
  {
  }

  lemma ShiftInjective(x1: int, x2: int, p: int, q: int, fromSource: bool, intoTarget: bool)
    requires x1 != x2
    requires fromSource ==> x1 != p && x2 != p
    ensures Shift(x1, p, q, fromSource, intoTarget) != Shift(x2, p, q, fromSource, intoTarget)
  {
  }

  lemma IntendedRow(ts: seq<TaskItem>, m: nat, targetColumnId: int, newPosition: int, i: nat)
    requires UniqueTaskIds(ts) && m < |ts| && i < |ts| && i != m
    ensures var r := IntendedMoveRows(ts, ts[m], targetColumnId, newPosition);
            r[i].columnId == ts[i].columnId
            && r[i].position == Shift(ts[i].position, ts[m].position, newPosition,
                                      ts[i].columnId == ts[m].columnId, ts[i].columnId == targetColumnId)
  {
    assert ts[i].id != ts[m].id;
  }

  lemma IntendedCounts(ts: seq<TaskItem>, m: nat, targetColumnId: int, newPosition: int, c: int)
    requires UniqueTaskIds(ts) && m < |ts|
    ensures Count(IntendedMoveRows(ts, ts[m], targetColumnId, newPosition), c)
         == Count(ts, c) - (if ts[m].columnId == c then 1 else 0) + (if targetColumnId == c then 1 else 0)
  {
    var r := IntendedMoveRows(ts, ts[m], targetColumnId, newPosition);
    CountAround(ts, m, c);
    CountAround(r, m, c);
    forall i | 0 <= i < |ts| && i != m ensures r[i].columnId == ts[i].columnId {
      IntendedRow(ts, m, targetColumnId, newPosition, i);
    }
    CountSameColumns(r[..m], ts[..m], c);
    CountSameColumns(r[m + 1..], ts[m + 1..], c);
  }

  /** In a column with distinct positions, a task other than `m` is not on `m`'s slot. */
  lemma OffMoverSlot(ts: seq<TaskItem>, m: nat, i: nat)
    requires m < |ts| && i < |ts| && i != m
    requires DistinctPositions(ts, ts[m].columnId) && ts[i].columnId == ts[m].columnId
    ensures ts[i].position != ts[m].position
  {
    if i < m { } else { }
  }

  lemma IntendedColumnInRange(ts: seq<TaskItem>, m: nat, targetColumnId: int, newPosition: int, c: int)
    requires UniqueTaskIds(ts) && m < |ts|
    requires c == ts[m].columnId || c == targetColumnId
    requires Dense(ts, ts[m].columnId) && Dense(ts, targetColumnId)
    requires 0 <= newPosition <= Count(ts, targetColumnId) - (if ts[m].columnId == targetColumnId then 1 else 0)
    ensures var r := IntendedMoveRows(ts, ts[m], targetColumnId, newPosition);
            forall i :: 0 <= i < |r| && r[i].columnId == c ==> 0 <= r[i].position < Count(r, c)
  {
    var src, p, q := ts[m].columnId, ts[m].position, newPosition;
    var r := IntendedMoveRows(ts, ts[m], targetColumnId, q);
    var n0 := Count(ts, c);
    IntendedCounts(ts, m, targetColumnId, q, c);
    var n := Count(r, c);
    forall i | 0 <= i < |ts| && r[i].columnId == c ensures 0 <= r[i].position < n {
      if i != m {
        IntendedRow(ts, m, targetColumnId, q, i);
        if c == src { OffMoverSlot(ts, m, i); }
        ShiftInRange(ts[i].position, p, q, n0, n, c == src, c == targetColumnId);
      }
    }
  }

  lemma IntendedColumnDistinct(ts: seq<TaskItem>, m: nat, targetColumnId: int, newPosition: int, c: int)
    requires UniqueTaskIds(ts) && m < |ts|
    requires c == ts[m].columnId || c == targetColumnId
    requires Dense(ts, ts[m].columnId) && Dense(ts, targetColumnId)
    requires 0 <= newPosition <= Count(ts, targetColumnId) - (if ts[m].columnId == targetColumnId then 1 else 0)
    ensures DistinctPositions(IntendedMoveRows(ts, ts[m], targetColumnId, newPosition), c)
  {
    var src, p, q := ts[m].columnId, ts[m].position, newPosition;
    var r := IntendedMoveRows(ts, ts[m], targetColumnId, q);
    var n0 := Count(ts, c);
    IntendedCounts(ts, m, targetColumnId, q, c);
    var n := Count(r, c);
    forall i, j | 0 <= i < j < |ts| && r[i].columnId == c && r[j].columnId == c
      ensures r[i].position != r[j].position
    {
      if i != m && j != m {
        IntendedRow(ts, m, targetColumnId, q, i);
        IntendedRow(ts, m, targetColumnId, q, j);
        if c == src { OffMoverSlot(ts, m, i); OffMoverSlot(ts, m, j); }
        ShiftInjective(ts[i].position, ts[j].position, p, q, c == src, c == targetColumnId);
      } else {
        var k := if i == m then j else i;
        IntendedRow(ts, m, targetColumnId, q, k);
        if c == src { OffMoverSlot(ts, m, k); }
        ShiftInRange(ts[k].position, p, q, n0, n, c == src, c == targetColumnId);
      }
    }
  }

  /**
   * The intended move keeps both the source and the target column dense, for a move
   * within a column and across columns alike, whenever NewPosition is a slot of the
   * target column once the mover is taken out of it.
   */
  lemma IntendedMoveKeepsDense(ts: seq<TaskItem>, m: nat, targetColumnId: int, newPosition: int)
    requires UniqueTaskIds(ts) && m < |ts|
    requires Dense(ts, ts[m].columnId) && Dense(ts, targetColumnId)
    requires 0 <= newPosition <= Count(ts, targetColumnId) - (if ts[m].columnId == targetColumnId then 1 else 0)
    ensures Dense(IntendedMoveRows(ts, ts[m], targetColumnId, newPosition), ts[m].columnId)
    ensures Dense(IntendedMoveRows(ts, ts[m], targetColumnId, newPosition), targetColumnId)
  {
    IntendedColumnInRange(ts, m, targetColumnId, newPosition, ts[m].columnId);
    IntendedColumnDistinct(ts, m, targetColumnId, newPosition, ts[m].columnId);
    IntendedColumnInRange(ts, m, targetColumnId, newPosition, targetColumnId);
    IntendedColumnDistinct(ts, m, targetColumnId, newPosition, targetColumnId);
  }

  // ------------------------------------------------------------------
  // What the code as written guarantees, and where it fails
  // ------------------------------------------------------------------

  /**
   * MoveTask as written keeps the source and the target column dense on a cross-column
   * move to a slot 0 .. Count(target), and on a same-column move to a lower or equal slot.
   */
  lemma WrittenMoveKeepsDense(ts: seq<TaskItem>, m: nat, targetColumnId: int, newPosition: int)
    requires UniqueTaskIds(ts) && m < |ts|
    requires Dense(ts, ts[m].columnId) && Dense(ts, targetColumnId)
    requires 0 <= newPosition
    requires if ts[m].columnId == targetColumnId then newPosition <= ts[m].position
             else newPosition <= Count(ts, targetColumnId)
    ensures Dense(MoveRows(ts, ts[m], targetColumnId, newPosition), ts[m].columnId)
    ensures Dense(MoveRows(ts, ts[m], targetColumnId, newPosition), targetColumnId)
  {
    WrittenMatchesIntended(ts, m, targetColumnId, newPosition);
    IntendedMoveKeepsDense(ts, m, targetColumnId, newPosition);
  }

  /**
   * A same-column move to a higher slot q puts the mover on the slot of the task that
   * was at q, and leaves nobody on q - 1: the column is no longer dense.
   */
  lemma UpwardMoveCollides(ts: seq<TaskItem>, m: nat, j: nat, newPosition: int)
    requires UniqueTaskIds(ts) && m < |ts| && j < |ts| && j != m
    requires DistinctPositions(ts, ts[m].columnId)
    requires ts[j].columnId == ts[m].columnId && ts[j].position == newPosition > ts[m].position
    ensures var r := MoveRows(ts, ts[m], ts[m].columnId, newPosition);
            && r[j].columnId == r[m].columnId && r[j].position == r[m].position == newPosition
            && (forall i :: 0 <= i < |r| && r[i].columnId == ts[m].columnId ==> r[i].position != newPosition - 1)
            && !Dense(r, ts[m].columnId)
  {
    var c := ts[m].columnId;
    var r := MoveRows(ts, ts[m], c, newPosition);
    assert ts[j].id != ts[m].id;
    forall i | 0 <= i < |r| && r[i].columnId == c ensures r[i].position != newPosition - 1 {
      if i != m {
        assert ts[i].id != ts[m].id;
        OffMoverSlot(ts, m, i);
      }
    }
    if j < m {
      assert r[j].position == r[m].position;
    } else {
      assert r[m].position == r[j].position;
    }
  }

  /**
   * On a dense column every same-column move to a higher slot that exists breaks the
   * density: some other task already sits on that slot.
   */
  lemma UpwardMoveBreaksDensity(ts: seq<TaskItem>, m: nat, newPosition: int)
    requires UniqueTaskIds(ts) && m < |ts|
    requires Dense(ts, ts[m].columnId)
    requires ts[m].position < newPosition < Count(ts, ts[m].columnId)
    ensures !Dense(MoveRows(ts, ts[m], ts[m].columnId, newPosition), ts[m].columnId)
  {
    DenseCovers(ts, ts[m].columnId, newPosition);
    var j :| 0 <= j < |ts| && ts[j].columnId == ts[m].columnId && ts[j].position == newPosition;
    UpwardMoveCollides(ts, m, j, newPosition);
  }

  /**
   * The board [a0, b1, c2, d3] with b dragged to index 2 of its own column is saved as
   * a0, b2, c2, d3: two tasks on slot 2, none on slot 1.
   */
  lemma UpwardMoveExample()
    ensures var ts := [TaskItem(1, "a", "", "Medium", 0, 7), TaskItem(2, "b", "", "Medium", 1, 7),
                       TaskItem(3, "c", "", "Medium", 2, 7), TaskItem(4, "d", "", "Medium", 3, 7)];
            && Dense(ts, 7)
            && MoveRows(ts, ts[1], 7, 2) == [ts[0], ts[1].(position := 2), ts[2], ts[3]]
            && !Dense(MoveRows(ts, ts[1], 7, 2), 7)
  {
    var ts := [TaskItem(1, "a", "", "Medium", 0, 7), TaskItem(2, "b", "", "Medium", 1, 7),
               TaskItem(3, "c", "", "Medium", 2, 7), TaskItem(4, "d", "", "Medium", 3, 7)];
    assert Count(ts, 7) == 4;
    var r := MoveRows(ts, ts[1], 7, 2);
    assert r[1].position == r[2].position;
  }

  /**
   * NewPosition is stored as given: a negative one, or one beyond the end of the target
   * column on a cross-column move, leaves the target column with a gap.
   */
  lemma OutOfRangeMoveBreaksDensity(ts: seq<TaskItem>, m: nat, targetColumnId: int, newPosition: int)
    requires UniqueTaskIds(ts) && m < |ts|
    requires newPosition < 0 || (ts[m].columnId != targetColumnId && newPosition > Count(ts, targetColumnId))
    ensures !Dense(MoveRows(ts, ts[m], targetColumnId, newPosition), targetColumnId)
  {
    MoveCounts(ts, m, targetColumnId, newPosition, targetColumnId);
  }
}
