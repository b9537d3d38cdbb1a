/**
 * backend/Controllers/AuthController.cs: the login decision with the claims of the token
 * it issues, and the admin-only creation of a user with assignments to projects.
 */
module AuthController {
  import opened Wrappers
  import opened Models
  import opened Data
  import opened IntText
  import opened Accounts

  /** 200 with the token and the user's role, or 401. */
  datatype LoginResult = LoggedIn(token: Token, role: string) | LoginUnauthorized

  /** The body of POST /auth/create-user; a JSON `null` list is `None`. */
  datatype CreateUserDto = CreateUserDto(username: string, password: string, projectIds: Option<seq<int>>)

  /**
   * `Forbidden` is the AdminOnly policy refusing the caller; `AssignmentsFailed` is the
   * exception of the second save (a duplicate key or a missing project), a 500.
   */
  datatype CreateUserResult = UserCreated | CreateUserForbidden | UserExists | AssignmentsFailed

  /** The token subject of lines 47-50: the user id as decimal text, then the role. */
  function LoginClaims(u: User): (claims: seq<Claim>)
    ensures FindClaim(claims, NameIdentifier) == Some(DecimalText(u.id))
    ensures IsInRole(claims, u.role)
  {
    var claims := [Claim(NameIdentifier, DecimalText(u.id)), Claim(Role, u.role)];
    FindClaimFirst([], NameIdentifier, DecimalText(u.id), [Claim(Role, u.role)]);
    assert [] + [Claim(NameIdentifier, DecimalText(u.id))] + [Claim(Role, u.role)] == claims;
    claims
  }

  /**
   * POST /auth/login: 401 unless the user exists and the password verifies; otherwise a
   * token naming the user and carrying the user's role, and the role itself.
   */
  function Login(users: seq<User>, dto: LoginDto, verify: (string, string) -> bool): (r: LoginResult)
    ensures r.LoginUnauthorized? <==> Authenticate(users, dto, verify).None?
    ensures r.LoggedIn? ==>
      var u := Authenticate(users, dto, verify).value;
      && FindClaim(r.token.claims, NameIdentifier) == Some(DecimalText(u.id))
      && IsInRole(r.token.claims, u.role)
      && r.role == u.role
  {
    match Authenticate(users, dto, verify)
    case None => LoginUnauthorized
    case Some(u) => LoggedIn(Token(LoginClaims(u)), u.role)
  }

  /**
   * The id in an issued token is read back by `int.Parse(User.FindFirst(NameIdentifier).Value)`
   * (ProjectsController.cs:28, 59) as the id of the user who logged in.
   */
  lemma LoginTokenNamesUser(users: seq<User>, dto: LoginDto, verify: (string, string) -> bool)
    requires Login(users, dto, verify).LoggedIn?
    requires IsInt32(Authenticate(users, dto, verify).value.id)
    ensures var r := Login(users, dto, verify);
            ParseInt32(FindClaim(r.token.claims, NameIdentifier).value) == Some(Authenticate(users, dto, verify).value.id)
  {
    ParseDecimalText(Authenticate(users, dto, verify).value.id);
  }

  /** One row per entry of ProjectIds, in order, all for the new user (lines 81-85). */
  function AssignmentRows(projectIds: seq<int>, userId: int): (r: seq<ProjectAssignment>)
    ensures |r| == |projectIds|
    ensures forall k :: 0 <= k < |r| ==> r[k].projectId == projectIds[k] && r[k].userId == userId
  {
    seq(|projectIds|, k requires 0 <= k < |projectIds| => ProjectAssignment(projectIds[k], userId))
  }

  /** Every listed id names a project (the foreign key of ProjectAssignment.ProjectId). */
  predicate AllProjectsExist(projectIds: seq<int>, projects: seq<Project>)
  {
    forall k :: 0 <= k < |projectIds| ==> projectIds[k] in ProjectIds(projects)
  }

  /**
   * POST /auth/create-user. `hashed` is what BCrypt.HashPassword returned for the password.
   * The user is saved first, with Role "User"; the assignment rows are saved afterwards,
   * so when that second save fails (a project id listed twice collides on the
   * (ProjectId, UserId) key, or names no project) the user stays and no row is added.
   */
  method CreateUser(db: AppDb, caller: seq<Claim>, dto: CreateUserDto, hashed: string) returns (r: CreateUserResult)
    requires db.Valid()
    modifies db
    ensures db.Valid()
    ensures r.CreateUserForbidden? <==> !IsInRole(caller, AdminRole)
    ensures r.UserExists? <==> IsInRole(caller, AdminRole) && dto.username in Usernames(old(db.users))
    ensures r.CreateUserForbidden? || r.UserExists? ==> db.State() == old(db.State())
    ensures r.AssignmentsFailed? <==>
              && IsInRole(caller, AdminRole) && dto.username !in Usernames(old(db.users))
              && !(Distinct(dto.projectIds.GetOr([])) && AllProjectsExist(dto.projectIds.GetOr([]), old(db.projects)))
    ensures r.UserCreated? || r.AssignmentsFailed? ==>
      var u := User(old(db.nextUserId), dto.username, hashed, UserRole);
      && u.id !in UserIds(old(db.users))
      && db.State() == old(db.State()).(
           users := old(db.users) + [u],
           assignments := old(db.assignments) +
                          (if r.UserCreated? then AssignmentRows(dto.projectIds.GetOr([]), u.id) else []))
    ensures UniqueUsernames(old(db.users)) ==> UniqueUsernames(db.users)
  {
    if !IsInRole(caller, AdminRole) {
      return CreateUserForbidden;
    }
    if UsernameTaken(db.users, dto.username) {
      return UserExists;
    }
    var ids := dto.projectIds.GetOr([]);
    var fits := Distinct(ids) && AllProjectsExist(ids, db.projects);
    ghost var before := db.State();
    assert forall a :: a in before.assignments ==> a.userId in UserIds(before.users);
    var user := db.AddUser(dto.username, hashed, UserRole);
    if UniqueUsernames(before.users) {
      AddFreshNameKeepsUnique(before.users, user);
    }
    if |ids| > 0 {
      if !fits {
        return AssignmentsFailed;
      }
      var rows := AssignmentRows(ids, user.id);
      DistinctRows(ids, user.id);
      RowsFit(ids, user, before.users, db.projects, db.assignments);
      db.AddAssignments(rows);
    } else {
      assert db.assignments == db.assignments + AssignmentRows(ids, user.id);
    }
    return UserCreated;
  }

  /** The rows of a user just added are new rows, for existing projects and an existing user. */
  lemma RowsFit(ids: seq<int>, user: User, users: seq<User>, projects: seq<Project>, assignments: seq<ProjectAssignment>)
    requires user.id !in UserIds(users) && AllProjectsExist(ids, projects)
    requires forall a :: a in assignments ==> a.userId in UserIds(users)
    ensures forall a :: a in AssignmentRows(ids, user.id) ==>
              a !in assignments && a.projectId in ProjectIds(projects) && a.userId in UserIds(users + [user])
  {
    var rows := AssignmentRows(ids, user.id);
    assert user in users + [user];
    forall a | a in rows
      ensures a !in assignments && a.projectId in ProjectIds(projects) && a.userId in UserIds(users + [user])
    {
      var k :| 0 <= k < |rows| && rows[k] == a;
      assert a.projectId == ids[k];
    }
  }

  /** Rows for distinct project ids are distinct. */
  lemma DistinctRows(ids: seq<int>, userId: int)
    requires Distinct(ids)
    ensures Distinct(AssignmentRows(ids, userId))
  {
    var rows := AssignmentRows(ids, userId);
    forall i, j | 0 <= i < j < |rows| ensures rows[i] != rows[j] {
      assert rows[i].projectId == ids[i] && rows[j].projectId == ids[j];
    }
  }
}
