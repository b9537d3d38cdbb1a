/**
 * backend/Controllers/ProjectsController.cs: the board queries (a caller's projects, one
 * project with its columns and tasks in display order) and project creation with its
 * three default columns. The queries are functions of a snapshot of the tables.
 */
module ProjectsController {
  import opened Wrappers
  import opened Models
  import opened Data
  import opened Queries
  import opened IntText

  /** A column as the JSON response carries it: the row and its tasks (`.ThenInclude(c => c.Tasks)`). */
  datatype ColumnView = ColumnView(column: BoardColumn, tasks: seq<TaskItem>)

  /** A project as the JSON response carries it: the row and its columns (`.Include(p => p.Columns)`). */
  datatype ProjectView = ProjectView(project: Project, columns: seq<ColumnView>)

  /** GET /projects; `ProjectsParseFailed` is the exception int.Parse throws (a 500). */
  datatype ProjectsResult = Projects(views: seq<ProjectView>) | ProjectsParseFailed

  /** GET /projects/{id} */
  datatype ProjectResult = Found(view: ProjectView) | ProjectNotFound

  /** POST /projects; `Forbidden` is the AdminOnly policy refusing the caller. */
  datatype CreateProjectResult =
    | ProjectCreated(view: ProjectView)
    | Forbidden
    | Unauthorized
    | CreateProjectParseFailed

  /** The body of POST /projects. */
  datatype CreateProjectDto = CreateProjectDto(name: string, description: string)

  function OrderIndexOf(c: BoardColumn): int
  {
    c.orderIndex
  }

  function PositionOf(t: TaskItem): int
  {
    t.position
  }

  function ColumnsOf(vs: seq<ColumnView>): (r: seq<BoardColumn>)
    ensures |r| == |vs| && forall k :: 0 <= k < |vs| ==> r[k] == vs[k].column
  {
    seq(|vs|, k requires 0 <= k < |vs| => vs[k].column)
  }

  function ProjectsOf(vs: seq<ProjectView>): (r: seq<Project>)
    ensures |r| == |vs| && forall k :: 0 <= k < |vs| ==> r[k] == vs[k].project
  {
    seq(|vs|, k requires 0 <= k < |vs| => vs[k].project)
  }

  /** `cv` holds every task of its column and no other, ascending by Position when `ordered`. */
  ghost predicate HoldsTasksOf(cv: ColumnView, tasks: seq<TaskItem>, ordered: bool)
  {
    && (forall x :: multiset(cv.tasks)[x] == if x.columnId == cv.column.id then multiset(tasks)[x] else 0)
    && (ordered ==> SortedBy(cv.tasks, PositionOf))
  }

  /** `v` holds every column of its project and no other, ascending by OrderIndex when `ordered`. */
  ghost predicate HoldsColumnsOf(v: ProjectView, t: Tables, ordered: bool)
  {
    && (forall c :: multiset(ColumnsOf(v.columns))[c] ==
                      if c.projectId == v.project.id then multiset(t.columns)[c] else 0)
    && (ordered ==> SortedBy(ColumnsOf(v.columns), OrderIndexOf))
    && (forall k :: 0 <= k < |v.columns| ==> HoldsTasksOf(v.columns[k], t.tasks, ordered))
  }

  /** One column with its tasks: `c.Tasks`, or `c.Tasks.OrderBy(t => t.Position)` when `ordered`. */
  function ColumnViewOf(tasks: seq<TaskItem>, c: BoardColumn, ordered: bool): (v: ColumnView)
    ensures v.column == c && HoldsTasksOf(v, tasks, ordered)
  {
    var inColumn := (x: TaskItem) => x.columnId == c.id;
    var own := Where(tasks, inColumn);
    WhereCounts(tasks, inColumn);
    ColumnView(c, if ordered then OrderBy(own, PositionOf) else own)
  }

  /** One project with its columns: `p.Columns`, or `p.Columns.OrderBy(c => c.OrderIndex)` when `ordered`. */
  function ProjectViewOf(t: Tables, p: Project, ordered: bool): (v: ProjectView)
    ensures v.project == p && HoldsColumnsOf(v, t, ordered)
  {
    var inProject := (c: BoardColumn) => c.projectId == p.id;
    var own := Where(t.columns, inProject);
    WhereCounts(t.columns, inProject);
    var cols := if ordered then OrderBy(own, OrderIndexOf) else own;
    var v := ProjectView(p, ColumnViews(t.tasks, cols, ordered));
    assert ColumnsOf(v.columns) == cols;
    v
  }

  /** Each of `cols` with its tasks. */
  function ColumnViews(tasks: seq<TaskItem>, cols: seq<BoardColumn>, ordered: bool): (r: seq<ColumnView>)
    ensures |r| == |cols| && forall k :: 0 <= k < |cols| ==> r[k] == ColumnViewOf(tasks, cols[k], ordered)
  {
    seq(|cols|, k requires 0 <= k < |cols| => ColumnViewOf(tasks, cols[k], ordered))
  }

  /** The caller id of line 28: the NameIdentifier claim, "0" when there is none, through int.Parse. */
  function CallerId(caller: seq<Claim>): Option<int>
  {
    ParseInt32(FindClaim(caller, NameIdentifier).GetOr("0"))
  }

  /**
   * GET /projects: the projects whose OwnerId is the caller's id, each with its columns
   * and their tasks in table order. Assignments and roles are not consulted.
   */
  function GetProjects(t: Tables, caller: seq<Claim>): (r: ProjectsResult)
    ensures r.ProjectsParseFailed? <==> CallerId(caller).None?
    ensures r.Projects? ==>
      forall p :: multiset(ProjectsOf(r.views))[p] == (if p.ownerId == CallerId(caller).value then multiset(t.projects)[p] else 0)
    ensures r.Projects? ==> forall k :: 0 <= k < |r.views| ==> HoldsColumnsOf(r.views[k], t, false)
  {
    match CallerId(caller)
    case None => ProjectsParseFailed
    case Some(userId) =>
      var ownedBy := (p: Project) => p.ownerId == userId;
      var owned := Where(t.projects, ownedBy);
      WhereCounts(t.projects, ownedBy);
      var views := seq(|owned|, k requires 0 <= k < |owned| => ProjectViewOf(t, owned[k], false));
      assert ProjectsOf(views) == owned;
      Projects(views)
  }

  /** Without a NameIdentifier claim the caller is user 0 and sees the projects owned by 0. */
  lemma GetProjectsWithoutIdClaim(t: Tables, caller: seq<Claim>)
    requires forall k :: 0 <= k < |caller| ==> caller[k].kind != NameIdentifier
    ensures var r := GetProjects(t, caller);
            && r.Projects?
            && forall p :: multiset(ProjectsOf(r.views))[p] == if p.ownerId == 0 then multiset(t.projects)[p] else 0
  {
    ParseDecimalText(0);
    assert DecimalText(0) == "0";
  }

  /** A caller whose token carries the id claim written at login sees exactly their own projects. */
  lemma GetProjectsOfIssuedToken(t: Tables, id: int, rest: seq<Claim>)
    requires IsInt32(id)
    ensures var r := GetProjects(t, [Claim(NameIdentifier, DecimalText(id))] + rest);
            && r.Projects?
            && forall p :: p in ProjectsOf(r.views) <==> p in t.projects && p.ownerId == id
  {
    FindClaimFirst([], NameIdentifier, DecimalText(id), rest);
    assert [] + [Claim(NameIdentifier, DecimalText(id))] + rest == [Claim(NameIdentifier, DecimalText(id))] + rest;
    ParseDecimalText(id);
    var r := GetProjects(t, [Claim(NameIdentifier, DecimalText(id))] + rest);
    forall p ensures p in ProjectsOf(r.views) <==> p in t.projects && p.ownerId == id {
      assert p in ProjectsOf(r.views) <==> p in multiset(ProjectsOf(r.views));
      assert p in t.projects <==> p in multiset(t.projects);
    }
  }

  /**
   * The projects a user should see by the intent stated beside the query of line 34:
   * those the user owns and those the user is assigned to.
   */
  function VisibleProjects(t: Tables, userId: int): (r: seq<Project>)
    ensures forall p :: p in r <==>
              p in t.projects && (p.ownerId == userId || ProjectAssignment(p.id, userId) in t.assignments)
  {
    var visible := (p: Project) => p.ownerId == userId || ProjectAssignment(p.id, userId) in t.assignments;
    var r := Where(t.projects, visible);
    WhereCounts(t.projects, visible);
    forall p ensures p in r <==> p in multiset(r) {}
    forall p ensures p in t.projects <==> p in multiset(t.projects) {}
    r
  }

  /**
   * A user who owns nothing but is assigned to a project gets an empty list from
   * GET /projects, although the project is among the ones meant to be visible to them.
   */
  lemma AssignedProjectIsHidden()
    ensures var p := Project(1, "Board", "", 1);
            var t := Tables([User(1, "admin", "h1", AdminRole), User(2, "bob", "h2", UserRole)],
                            [p], [], [], [ProjectAssignment(1, 2)]);
            var caller := [Claim(NameIdentifier, "2"), Claim(Role, UserRole)];
            && GetProjects(t, caller) == Projects([])
            && p in VisibleProjects(t, 2)
  {
    var p := Project(1, "Board", "", 1);
    var t := Tables([User(1, "admin", "h1", AdminRole), User(2, "bob", "h2", UserRole)],
                    [p], [], [], [ProjectAssignment(1, 2)]);
    var caller := [Claim(NameIdentifier, "2"), Claim(Role, UserRole)];
    FindClaimFirst([], NameIdentifier, "2", [Claim(Role, UserRole)]);
    assert [] + [Claim(NameIdentifier, "2")] + [Claim(Role, UserRole)] == caller;
    ParseDecimalText(2);
    assert DecimalText(2) == "2";
    assert p in t.projects && ProjectAssignment(p.id, 2) in t.assignments;
  }

  /**
   * GET /projects/{id}: the first project with that id, with its columns ascending by
   * OrderIndex and each column's tasks ascending by Position; NotFound when there is none.
   */
  function GetProject(t: Tables, id: int): (r: ProjectResult)
    ensures r.ProjectNotFound? <==> id !in ProjectIds(t.projects)
    ensures r.Found? ==> && r.view.project in t.projects && r.view.project.id == id
                         && HoldsColumnsOf(r.view, t, true)
  {
    match FirstOrNone(t.projects, (p: Project) => p.id == id)
    case None => ProjectNotFound
    case Some(p) => Found(ProjectViewOf(t, p, true))
  }

  /**
   * The board of a new project: three columns "Todo", "In Progress", "Done" with
   * OrderIndex 0, 1, 2, bound to the project, with ids not in `taken`, and no tasks.
   */
  ghost predicate DefaultBoard(v: ProjectView, taken: set<int>)
  {
    && |v.columns| == 3
    && forall k :: 0 <= k < 3 ==>
         && v.columns[k].column.name == DefaultColumnNames[k]
         && v.columns[k].column.orderIndex == k
         && v.columns[k].column.projectId == v.project.id
         && v.columns[k].column.id !in taken
         && v.columns[k].tasks == []
  }

  lemma DefaultBoardOf(p: Project, cols: seq<BoardColumn>, taken: set<int>)
    requires |cols| == 3
    requires forall k :: 0 <= k < 3 ==>
               cols[k].name == DefaultColumnNames[k] && cols[k].orderIndex == k
               && cols[k].projectId == p.id && cols[k].id !in taken
    ensures DefaultBoard(ProjectView(p, [ColumnView(cols[0], []), ColumnView(cols[1], []), ColumnView(cols[2], [])]), taken)
  {
  }

  /** `!string.IsNullOrEmpty(User.FindFirst(ClaimTypes.NameIdentifier)?.Value)` */
  predicate HasIdClaim(caller: seq<Claim>)
  {
    FindClaim(caller, NameIdentifier).Some? && FindClaim(caller, NameIdentifier).value != ""
  }

  /**
   * POST /projects, for a caller that passed authentication. The AdminOnly policy
   * (backend/Program.cs:33) runs first; then an absent or empty NameIdentifier claim is
   * Unauthorized, an id that int.Parse rejects throws, and otherwise the project is saved
   * with the caller as owner, then its three default columns. The response is the project
   * with the columns EF has attached to it, which have no tasks.
   */
  method CreateProject(db: AppDb, caller: seq<Claim>, dto: CreateProjectDto) returns (r: CreateProjectResult)
    requires db.Valid()
    modifies db
    ensures db.Valid()
    ensures r.Forbidden? <==> !IsInRole(caller, AdminRole)
    ensures r.Unauthorized? <==> IsInRole(caller, AdminRole) && !HasIdClaim(caller)
    ensures r.CreateProjectParseFailed? <==>
              IsInRole(caller, AdminRole) && HasIdClaim(caller) && ParseInt32(FindClaim(caller, NameIdentifier).value).None?
    ensures !r.ProjectCreated? ==> db.State() == old(db.State())
    ensures r.ProjectCreated? ==>
      var p := r.view.project;
      && p.id !in ProjectIds(old(db.projects))
      && p.name == dto.name && p.description == dto.description
      && Some(p.ownerId) == ParseInt32(FindClaim(caller, NameIdentifier).value)
      && DefaultBoard(r.view, ColumnIds(old(db.columns)))
      && db.State() == old(db.State()).(projects := old(db.projects) + [p],
                                        columns := old(db.columns) + ColumnsOf(r.view.columns))
      && GetProject(db.State(), p.id) == Found(r.view)
  {
    if !IsInRole(caller, AdminRole) {
      return Forbidden;
    }
    var idText := FindClaim(caller, NameIdentifier);
    if idText.None? || idText.value == "" {
      return Unauthorized;
    }
    var userId := ParseInt32(idText.value);
    if userId.None? {
      return CreateProjectParseFailed;
    }
    var view := AddBoard(db, dto, userId.value);
    return ProjectCreated(view);
  }

  /** The two saves of CreateProject: the project row, then its three default columns. */
  method AddBoard(db: AppDb, dto: CreateProjectDto, ownerId: int) returns (view: ProjectView)
    requires db.Valid()
    modifies db
    ensures db.Valid()
    ensures var p := view.project;
      && p.id !in ProjectIds(old(db.projects))
      && p.name == dto.name && p.description == dto.description && p.ownerId == ownerId
      && DefaultBoard(view, ColumnIds(old(db.columns)))
      && db.State() == old(db.State()).(projects := old(db.projects) + [p],
                                        columns := old(db.columns) + ColumnsOf(view.columns))
      && GetProject(db.State(), p.id) == Found(view)
  {
    ghost var before := db.State();
    assert forall c :: c in before.columns ==> c.projectId in ProjectIds(before.projects);
    assert forall x :: x in before.tasks ==> x.columnId in ColumnIds(before.columns);
    var project := db.AddProject(dto.name, dto.description, ownerId);
    var columns := db.AddDefaultColumns(project.id);
    view := ProjectView(project, [ColumnView(columns[0], []), ColumnView(columns[1], []), ColumnView(columns[2], [])]);
    EmptyViewsOf(columns);
    assert project in db.projects;
    assert forall c :: c in before.columns ==> c.projectId != project.id;
    assert forall x :: x in db.tasks ==>
      x.columnId != columns[0].id && x.columnId != columns[1].id && x.columnId != columns[2].id;
    NewBoardView(db.State(), before.columns, project, columns);
    assert db.State() == before.(projects := before.projects + [project], columns := before.columns + columns);
    DefaultBoardOf(project, columns, ColumnIds(before.columns));
  }

  /**
   * A project whose only columns are three fresh ones with OrderIndex 0, 1, 2 and no
   * tasks is returned by GetProject with exactly those columns, in that order, empty.
   */
  lemma NewBoardView(t: Tables, before: seq<BoardColumn>, p: Project, cols: seq<BoardColumn>)
    requires UniqueProjectIds(t.projects) && p in t.projects
    requires t.columns == before + cols
    requires forall c :: c in before ==> c.projectId != p.id
    requires |cols| == 3 && forall k :: 0 <= k < 3 ==> cols[k].projectId == p.id && cols[k].orderIndex == k
    requires forall x :: x in t.tasks ==> x.columnId != cols[0].id && x.columnId != cols[1].id && x.columnId != cols[2].id
    ensures GetProject(t, p.id) ==
              Found(ProjectView(p, [ColumnView(cols[0], []), ColumnView(cols[1], []), ColumnView(cols[2], [])]))
  {
    FirstOfUniqueId(t.projects, p);
    NewProjectView(t, before, p, cols);
  }

  lemma NewProjectView(t: Tables, before: seq<BoardColumn>, p: Project, cols: seq<BoardColumn>)
    requires t.columns == before + cols
    requires forall c :: c in before ==> c.projectId != p.id
    requires |cols| == 3 && forall k :: 0 <= k < 3 ==> cols[k].projectId == p.id && cols[k].orderIndex == k
    requires forall x :: x in t.tasks ==> x.columnId != cols[0].id && x.columnId != cols[1].id && x.columnId != cols[2].id
    ensures ProjectViewOf(t, p, true) ==
              ProjectView(p, [ColumnView(cols[0], []), ColumnView(cols[1], []), ColumnView(cols[2], [])])
  {
    ColumnsOfNewProject(t.columns, before, p.id, cols);
    assert SortedBy(cols, OrderIndexOf);
    OrderBySorted(cols, OrderIndexOf);
    assert OrderBy(Where(t.columns, (c: BoardColumn) => c.projectId == p.id), OrderIndexOf) == cols;
    ViewOfSortedColumns(t, p, cols);
    EmptyColumnViews(t.tasks, cols);
  }

  lemma ViewOfSortedColumns(t: Tables, p: Project, cols: seq<BoardColumn>)
    requires OrderBy(Where(t.columns, (c: BoardColumn) => c.projectId == p.id), OrderIndexOf) == cols
    ensures ProjectViewOf(t, p, true) == ProjectView(p, ColumnViews(t.tasks, cols, true))
  {
  }

  lemma EmptyColumnViews(tasks: seq<TaskItem>, cols: seq<BoardColumn>)
    requires |cols| == 3
    requires forall x :: x in tasks ==> x.columnId != cols[0].id && x.columnId != cols[1].id && x.columnId != cols[2].id
    ensures ColumnViews(tasks, cols, true) == [ColumnView(cols[0], []), ColumnView(cols[1], []), ColumnView(cols[2], [])]
  {
    EmptyColumnView(tasks, cols[0]);
    EmptyColumnView(tasks, cols[1]);
    EmptyColumnView(tasks, cols[2]);
  }

  lemma EmptyViewsOf(cols: seq<BoardColumn>)
    requires |cols| == 3
    ensures ColumnsOf([ColumnView(cols[0], []), ColumnView(cols[1], []), ColumnView(cols[2], [])]) == cols
  {
  }

  /** A column no task points to is shown empty. */
  lemma EmptyColumnView(tasks: seq<TaskItem>, c: BoardColumn)
    requires forall x :: x in tasks ==> x.columnId != c.id
    ensures ColumnViewOf(tasks, c, true) == ColumnView(c, [])
  {
    WhereNone(tasks, (x: TaskItem) => x.columnId == c.id);
  }

  /** With unique ids, the first project carrying `p`'s id is `p`. */
  lemma FirstOfUniqueId(ps: seq<Project>, p: Project)
    requires UniqueProjectIds(ps) && p in ps
    ensures FirstOrNone(ps, (q: Project) => q.id == p.id) == Some(p)
  {
    var k :| 0 <= k < |ps| && ps[k] == p;
    var found := FirstIndex(ps, (q: Project) => q.id == p.id);
    assert found.Some?;
    assert ps[found.value].id == ps[k].id;
  }

  /** The columns of a new project are the ones added for it. */
  lemma ColumnsOfNewProject(cs: seq<BoardColumn>, before: seq<BoardColumn>, projectId: int, cols: seq<BoardColumn>)
    requires cs == before + cols
    requires forall c :: c in before ==> c.projectId != projectId
    requires forall k :: 0 <= k < |cols| ==> cols[k].projectId == projectId
    ensures Where(cs, (c: BoardColumn) => c.projectId == projectId) == cols
  {
    var ofP := (c: BoardColumn) => c.projectId == projectId;
    WhereConcat(before, cols, ofP);
    WhereNone(before, ofP);
    WhereAll(cols, ofP);
  }
}
