/** Option type shared by the model's modules (a missing row, an absent claim). */
module Wrappers {
  datatype Option<+T> = None | Some(value: T)
  {
    /** The `??` operator of C# and the `||` fallback of JavaScript on a missing value. */
    function GetOr(default: T): T
    {
      match this
      case Some(v) => v
      case None => default
    }
  }
}

/**
 * The persisted entities of the backend (the classes under backend/Models) and the
 * request bodies of backend/DTOs, as values. Every row of a table is one of these values;
 * the tables themselves are the fields of `Data.AppDb`.
 */
module Models {
  import opened Wrappers
  import opened Queries

  /** backend/Models/TaskItem.cs. `Priority` is a free string ("Low", "Medium", "High"). */
  datatype TaskItem = TaskItem(
    id: int,
    title: string,
    description: string,
    priority: string,
    position: int,
    columnId: int)

  /** backend/Models/BoardColumn.cs */
  datatype BoardColumn = BoardColumn(id: int, name: string, orderIndex: int, projectId: int)

  /** backend/Models/Project.cs. `OwnerId` carries no navigation property, so no foreign key. */
  datatype Project = Project(id: int, name: string, description: string, ownerId: int)

  /** The User entity (Id, Username, PasswordHash, Role) as the controllers use it. */
  datatype User = User(id: int, username: string, passwordHash: string, role: string)

  /** backend/Models/ProjectAssignment.cs: the pair (ProjectId, UserId) is the key. */
  datatype ProjectAssignment = ProjectAssignment(projectId: int, userId: int)

  /** backend/DTOs/TaskDtos.cs */
  datatype CreateTaskDto = CreateTaskDto(title: string, description: string, priority: string, columnId: int)
  datatype MoveTaskDto = MoveTaskDto(taskId: int, targetColumnId: int, newPosition: int)

  /** backend/DTOs/AuthDtos.cs (RegisterDto has the same two fields). */
  datatype LoginDto = LoginDto(username: string, password: string)

  /** Names of the three columns every new board starts with, left to right. */
  const DefaultColumnNames: seq<string> := ["Todo", "In Progress", "Done"]

  const AdminRole: string := "Admin"
  const UserRole: string := "User"

  /** Claims carried by the backend's tokens (System.Security.Claims.ClaimTypes). */
  datatype ClaimType = NameIdentifier | Name | Role
  datatype Claim = Claim(kind: ClaimType, value: string)

  /** A signed token; signing key, algorithm and expiry are not modelled, only its claims. */
  datatype Token = Token(claims: seq<Claim>)

  /** `User.FindFirst(kind)?.Value` on the caller's claims: the first claim of that type. */
  function FindClaim(claims: seq<Claim>, kind: ClaimType): (r: Option<string>)
    ensures r.None? <==> forall k :: 0 <= k < |claims| ==> claims[k].kind != kind
    ensures r.Some? ==> Claim(kind, r.value) in claims
  {
    match FirstIndex(claims, (c: Claim) => c.kind == kind)
    case None => None
    case Some(k) => Some(claims[k].value)
  }

  /** Claims of other types before the first claim of `kind` do not matter. */
  lemma FindClaimFirst(before: seq<Claim>, kind: ClaimType, v: string, after: seq<Claim>)
    requires forall k :: 0 <= k < |before| ==> before[k].kind != kind
    ensures FindClaim(before + [Claim(kind, v)] + after, kind) == Some(v)
  {
    var claims := before + [Claim(kind, v)] + after;
    assert claims[|before|] == Claim(kind, v);
    assert forall k :: 0 <= k < |before| ==> claims[k] == before[k];
  }

  /** `User.IsInRole(role)`, which `policy.RequireRole` tests: some Role claim carries it. */
  predicate IsInRole(claims: seq<Claim>, role: string)
  {
    Claim(Role, role) in claims
  }

  // ---- identity of rows: one value per key in each table ----

  ghost predicate UniqueTaskIds(ts: seq<TaskItem>)
  {
    forall i, j :: 0 <= i < j < |ts| ==> ts[i].id != ts[j].id
  }

  ghost predicate UniqueColumnIds(cs: seq<BoardColumn>)
  {
    forall i, j :: 0 <= i < j < |cs| ==> cs[i].id != cs[j].id
  }

  ghost predicate UniqueProjectIds(ps: seq<Project>)
  {
    forall i, j :: 0 <= i < j < |ps| ==> ps[i].id != ps[j].id
  }

  ghost predicate UniqueUserIds(us: seq<User>)
  {
    forall i, j :: 0 <= i < j < |us| ==> us[i].id != us[j].id
  }

  /** The composite key (ProjectId, UserId) of backend/Data/AppDbContext.cs. */
  ghost predicate UniqueAssignments(as_: seq<ProjectAssignment>)
  {
    forall i, j :: 0 <= i < j < |as_| ==> as_[i] != as_[j]
  }

  function TaskIds(ts: seq<TaskItem>): set<int>
  {
    set t | t in ts :: t.id
  }

  function ColumnIds(cs: seq<BoardColumn>): set<int>
  {
    set c | c in cs :: c.id
  }

  function ProjectIds(ps: seq<Project>): set<int>
  {
    set p | p in ps :: p.id
  }

  function UserIds(us: seq<User>): set<int>
  {
    set u | u in us :: u.id
  }

  /** A sequence without repeated elements. */
  predicate Distinct<T(==)>(s: seq<T>)
  {
    forall i, j :: 0 <= i < j < |s| ==> s[i] != s[j]
  }
}
