/**
 * The database context of backend/Data/AppDbContext.cs: one table per DbSet, each a
 * sequence of rows in insertion order, and one identity counter per table (SQL Server
 * IDENTITY(1,1): the first row gets 1, every insert takes the next value). `Add`
 * followed by `SaveChangesAsync` is one method here that allocates the key and appends
 * the row; foreign keys that the database enforces are the guards of those methods.
 */
module Data {
  import opened Models

  /** A snapshot of every table, for stating what an operation leaves untouched. */
  datatype Tables = Tables(
    users: seq<User>,
    projects: seq<Project>,
    columns: seq<BoardColumn>,
    tasks: seq<TaskItem>,
    assignments: seq<ProjectAssignment>)

  class AppDb {
    var users: seq<User>
    var projects: seq<Project>
    var columns: seq<BoardColumn>
    var tasks: seq<TaskItem>
    var assignments: seq<ProjectAssignment>

    var nextUserId: int
    var nextProjectId: int
    var nextColumnId: int
    var nextTaskId: int

    /**
     * Keys are unique and below their table's counter, and every foreign key that the
     * schema declares (TaskItem.ColumnId, BoardColumn.ProjectId, both halves of a
     * ProjectAssignment) names an existing row.
     */
    ghost predicate Valid()
      reads this
    {
      && 1 <= nextUserId && 1 <= nextProjectId && 1 <= nextColumnId && 1 <= nextTaskId
      && UniqueUserIds(users) && (forall u :: u in users ==> 1 <= u.id < nextUserId)
      && UniqueProjectIds(projects) && (forall p :: p in projects ==> 1 <= p.id < nextProjectId)
      && UniqueColumnIds(columns) && (forall c :: c in columns ==> 1 <= c.id < nextColumnId)
      && UniqueTaskIds(tasks) && (forall t :: t in tasks ==> 1 <= t.id < nextTaskId)
      && UniqueAssignments(assignments)
      && (forall c :: c in columns ==> c.projectId in ProjectIds(projects))
      && (forall t :: t in tasks ==> t.columnId in ColumnIds(columns))
      && (forall a :: a in assignments ==> a.projectId in ProjectIds(projects) && a.userId in UserIds(users))
    }

    ghost function State(): Tables
      reads this
    {
      Tables(users, projects, columns, tasks, assignments)
    }

    /** An empty database, as created by EnsureCreated. */
    constructor ()
      ensures Valid()
      ensures State() == Tables([], [], [], [], [])
    {
      users, projects, columns, tasks, assignments := [], [], [], [], [];
      nextUserId, nextProjectId, nextColumnId, nextTaskId := 1, 1, 1, 1;
    }

    /** `Users.Add(user); SaveChangesAsync()`: the row gets a fresh Id. */
    method AddUser(username: string, passwordHash: string, role: string) returns (u: User)
      requires Valid()
      modifies this
      ensures Valid()
      ensures u == User(old(nextUserId), username, passwordHash, role)
      ensures u.id !in UserIds(old(users))
      ensures State() == old(State()).(users := old(users) + [u])
    {
      u := User(nextUserId, username, passwordHash, role);
      users := users + [u];
      nextUserId := nextUserId + 1;
    }

    /** `Projects.Add(project); SaveChangesAsync()`. */
    method AddProject(name: string, description: string, ownerId: int) returns (p: Project)
      requires Valid()
      modifies this
      ensures Valid()
      ensures p == Project(old(nextProjectId), name, description, ownerId)
      ensures p.id !in ProjectIds(old(projects))
      ensures State() == old(State()).(projects := old(projects) + [p])
    {
      p := Project(nextProjectId, name, description, ownerId);
      projects := projects + [p];
      nextProjectId := nextProjectId + 1;
    }

    /**
     * `BoardColumns.AddRange(...); SaveChangesAsync()` for the three default columns of
     * an existing project: "Todo", "In Progress", "Done" with OrderIndex 0, 1, 2.
     */
    method AddDefaultColumns(projectId: int) returns (added: seq<BoardColumn>)
      requires Valid()
      requires projectId in ProjectIds(projects)
      modifies this
      ensures Valid()
      ensures |added| == 3
      ensures forall k :: 0 <= k < 3 ==>
                added[k] == BoardColumn(old(nextColumnId) + k, DefaultColumnNames[k], k, projectId)
      ensures forall k :: 0 <= k < 3 ==> added[k].id !in ColumnIds(old(columns))
      ensures State() == old(State()).(columns := old(columns) + added)
    {
      var first := nextColumnId;
      added := [
        BoardColumn(first, "Todo", 0, projectId),
        BoardColumn(first + 1, "In Progress", 1, projectId),
        BoardColumn(first + 2, "Done", 2, projectId)
      ];
      assert forall c :: c in added ==> c.projectId == projectId && first <= c.id < first + 3;
      ghost var before := columns;
      columns := columns + added;
      nextColumnId := first + 3;
      forall i, j | 0 <= i < j < |columns| ensures columns[i].id != columns[j].id {
        if i < |before| {
          assert columns[i] in before;
        }
      }
    }

    /**
     * `SaveChangesAsync()` after edits to tracked task rows: the rows are written back when
     * they keep their keys and every ColumnId names a column.
     */
    method SaveTasks(rows: seq<TaskItem>)
      requires Valid()
      requires UniqueTaskIds(rows)
      requires forall t :: t in rows ==> 1 <= t.id < nextTaskId && t.columnId in ColumnIds(columns)
      modifies this
      ensures Valid()
      ensures State() == old(State()).(tasks := rows)
    {
      tasks := rows;
    }

    /**
     * `Tasks.Add(task); SaveChangesAsync()`. The column must exist: the insert of a row
     * whose ColumnId names no column violates the foreign key and is not saved.
     */
    method AddTask(title: string, description: string, priority: string, position: int, columnId: int)
      returns (t: TaskItem)
      requires Valid()
      requires columnId in ColumnIds(columns)
      modifies this
      ensures Valid()
      ensures t == TaskItem(old(nextTaskId), title, description, priority, position, columnId)
      ensures t.id !in TaskIds(old(tasks))
      ensures State() == old(State()).(tasks := old(tasks) + [t])
    {
      t := TaskItem(nextTaskId, title, description, priority, position, columnId);
      tasks := tasks + [t];
      nextTaskId := nextTaskId + 1;
    }

    /**
     * `ProjectAssignments.AddRange(rows); SaveChangesAsync()` for rows that respect the
     * composite key and both foreign keys (the caller checks that; see AuthController).
     */
    method AddAssignments(rows: seq<ProjectAssignment>)
      requires Valid()
      requires Distinct(rows)
      requires forall a :: a in rows ==> a !in assignments
      requires forall a :: a in rows ==> a.projectId in ProjectIds(projects) && a.userId in UserIds(users)
      modifies this
      ensures Valid()
      ensures State() == old(State()).(assignments := old(assignments) + rows)
    {
      var before := assignments;
      assignments := assignments + rows;
      forall i, j | 0 <= i < j < |assignments| ensures assignments[i] != assignments[j] {
        if j >= |before| {
          if i >= |before| {
            assert assignments[i] == rows[i - |before|] && assignments[j] == rows[j - |before|];
          } else {
            assert assignments[i] in before && assignments[j] in rows;
          }
        }
      }
    }
  }
}
