/**
 * backend/Controllers/SetupController.cs: the one-shot bootstrap of an empty system.
 * It is refused once any user exists; otherwise it saves, in this order, an admin, a
 * default project owned by the admin, that project's three columns and a welcome task
 * in the first column.
 */
module SetupController {
  import opened Models
  import opened Data
  import opened Positions

  /** The body of POST /setup/init. */
  datatype SetupDto = SetupDto(username: string, password: string)

  datatype SetupResult = Initialized | AlreadyInitialized

  const DefaultProjectName: string := "SmartBiz Dashboard"
  const DefaultProjectDescription: string := "Main Inventory Management Tracking"
  const WelcomeTaskTitle: string := "System Initialized"
  const WelcomeTaskDescription: string := "The API successfully created and hashed your admin password."
  const WelcomeTaskPriority: string := "High"

  /**
   * `after` is `before` with exactly these rows appended: the admin (the only user), the
   * default project owned by the admin, its three columns, and the welcome task at
   * Position 0 of the first of them, a column that had no tasks. Keys are fresh.
   */
  ghost predicate Bootstrapped(before: Tables, after: Tables, dto: SetupDto, hashed: string)
  {
    && before.users == []
    && |after.users| == 1
    && |after.projects| == |before.projects| + 1 && after.projects[..|before.projects|] == before.projects
    && |after.columns| == |before.columns| + 3 && after.columns[..|before.columns|] == before.columns
    && |after.tasks| == |before.tasks| + 1 && after.tasks[..|before.tasks|] == before.tasks
    && after.assignments == before.assignments
    && var admin := after.users[0];
       var p := after.projects[|before.projects|];
       var todo := after.columns[|before.columns|];
       var task := after.tasks[|before.tasks|];
       && admin.username == dto.username && admin.passwordHash == hashed && admin.role == AdminRole
       && p.id !in ProjectIds(before.projects)
       && p.name == DefaultProjectName && p.description == DefaultProjectDescription && p.ownerId == admin.id
       && (forall k :: 0 <= k < 3 ==>
             && after.columns[|before.columns| + k].id !in ColumnIds(before.columns)
             && after.columns[|before.columns| + k].name == DefaultColumnNames[k]
             && after.columns[|before.columns| + k].orderIndex == k
             && after.columns[|before.columns| + k].projectId == p.id)
       && task.id !in TaskIds(before.tasks)
       && task == TaskItem(task.id, WelcomeTaskTitle, WelcomeTaskDescription, WelcomeTaskPriority, 0, todo.id)
       && Count(before.tasks, todo.id) == 0
  }

  /**
   * POST /setup/init. `hashed` is what BCrypt.HashPassword returned for `dto.password`
   * (its salt is random, so it is an input here). A non-empty Users table is a BadRequest.
   */
  method InitDatabase(db: AppDb, dto: SetupDto, hashed: string) returns (r: SetupResult)
    requires db.Valid()
    modifies db
    ensures db.Valid()
    ensures r.AlreadyInitialized? <==> |old(db.users)| > 0
    ensures r.AlreadyInitialized? ==> db.State() == old(db.State())
    ensures r.Initialized? ==> Bootstrapped(old(db.State()), db.State(), dto, hashed)
    ensures r.Initialized? ==> forall c :: Dense(old(db.tasks), c) ==> Dense(db.tasks, c)
  {
    if |db.users| > 0 {
      return AlreadyInitialized;
    }
    ghost var before := db.State();
    assert forall t :: t in before.tasks ==> t.columnId in ColumnIds(before.columns);

    var admin := db.AddUser(dto.username, hashed, AdminRole);
    var project := db.AddProject(DefaultProjectName, DefaultProjectDescription, admin.id);
    var columns := db.AddDefaultColumns(project.id);
    var todo := columns[0];
    NoTasksInFreshColumn(before.tasks, before.columns, todo.id);
    var task := db.AddTask(WelcomeTaskTitle, WelcomeTaskDescription, WelcomeTaskPriority, 0, todo.id);
    forall c | Dense(before.tasks, c) ensures Dense(db.tasks, c) {
      AppendKeepsDense(before.tasks, task, c);
    }
    assert db.State() == before.(users := [admin], projects := before.projects + [project],
                                 columns := before.columns + columns, tasks := before.tasks + [task]);
    BootstrappedBy(before, admin, project, columns, task, dto, hashed);
    return Initialized;
  }

  /** A column whose id no column had yet holds no task of a valid table. */
  lemma NoTasksInFreshColumn(tasks: seq<TaskItem>, columns: seq<BoardColumn>, id: int)
    requires forall t :: t in tasks ==> t.columnId in ColumnIds(columns)
    requires id !in ColumnIds(columns)
    ensures Count(tasks, id) == 0
  {
    forall i | 0 <= i < |tasks| ensures tasks[i].columnId != id {
      assert tasks[i] in tasks;
    }
  }

  lemma BootstrappedBy(before: Tables, admin: User, p: Project, cols: seq<BoardColumn>, task: TaskItem,
                       dto: SetupDto, hashed: string)
    requires before.users == []
    requires admin.username == dto.username && admin.passwordHash == hashed && admin.role == AdminRole
    requires p.id !in ProjectIds(before.projects)
    requires p.name == DefaultProjectName && p.description == DefaultProjectDescription && p.ownerId == admin.id
    requires |cols| == 3
    requires forall k :: 0 <= k < 3 ==>
               cols[k].id !in ColumnIds(before.columns) && cols[k].name == DefaultColumnNames[k]
               && cols[k].orderIndex == k && cols[k].projectId == p.id
    requires task.id !in TaskIds(before.tasks)
    requires task == TaskItem(task.id, WelcomeTaskTitle, WelcomeTaskDescription, WelcomeTaskPriority, 0, cols[0].id)
    requires Count(before.tasks, cols[0].id) == 0
    ensures Bootstrapped(before, before.(users := [admin], projects := before.projects + [p],
                                         columns := before.columns + cols, tasks := before.tasks + [task]),
                         dto, hashed)
  {
    var after := before.(users := [admin], projects := before.projects + [p],
                         columns := before.columns + cols, tasks := before.tasks + [task]);
    assert after.projects[..|before.projects|] == before.projects;
    assert after.columns[..|before.columns|] == before.columns;
    assert after.tasks[..|before.tasks|] == before.tasks;
    assert forall k :: 0 <= k < 3 ==> after.columns[|before.columns| + k] == cols[k];
  }

  /** Setup runs once: whatever the first call did, a second call is refused and changes nothing. */
  method SetupTwice(db: AppDb, first: SetupDto, firstHash: string, second: SetupDto, secondHash: string)
    returns (r1: SetupResult, r2: SetupResult)
    requires db.Valid()
    modifies db
    ensures r2.AlreadyInitialized?
    ensures r1.Initialized? <==> |old(db.users)| == 0
  {
    r1 := InitDatabase(db, first, firstHash);
    ghost var middle := db.State();
    r2 := InitDatabase(db, second, secondHash);
    assert db.State() == middle;
  }
}
