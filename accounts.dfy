/**
 * The account rules AuthController and AuthService share: a username is looked up with
 * `FirstOrDefaultAsync(u => u.Username == name)` / `AnyAsync(...)`, and a login is
 * accepted when that user exists and BCrypt.Verify accepts the password against its hash.
 * BCrypt.Verify is the parameter `verify`.
 */
module Accounts {
  import opened Wrappers
  import opened Models
  import opened Queries

  function Usernames(users: seq<User>): set<string>
  {
    set u | u in users :: u.username
  }

  /** `Users.AnyAsync(u => u.Username == name)` */
  function UsernameTaken(users: seq<User>, name: string): (b: bool)
    ensures b <==> name in Usernames(users)
  {
    var found := FirstIndex(users, (u: User) => u.username == name);
    assert found.Some? ==> users[found.value] in users;
    found.Some?
  }

  /** `Users.FirstOrDefaultAsync(u => u.Username == name)` */
  function FindUser(users: seq<User>, name: string): (r: Option<User>)
    ensures r.None? <==> name !in Usernames(users)
    ensures r.Some? ==> r.value in users && r.value.username == name
  {
    FirstOrNone(users, (u: User) => u.username == name)
  }

  /**
   * The credential test of AuthController.cs:39-41 and AuthService.cs:47-50: the user found by
   * name, provided the password verifies against its stored hash.
   */
  function Authenticate(users: seq<User>, dto: LoginDto, verify: (string, string) -> bool): (r: Option<User>)
    ensures r.Some? ==> r.value in users && r.value.username == dto.username
                        && verify(dto.password, r.value.passwordHash)
    ensures r.None? <==> (dto.username !in Usernames(users) ||
                          !verify(dto.password, FindUser(users, dto.username).value.passwordHash))
  {
    match FindUser(users, dto.username)
    case None => None
    case Some(u) => if verify(dto.password, u.passwordHash) then Some(u) else None
  }

  /** No two users share a username. */
  ghost predicate UniqueUsernames(users: seq<User>)
  {
    forall i, j :: 0 <= i < j < |users| ==> users[i].username != users[j].username
  }

  /** With unique usernames, a user whose password verifies is the one who logs in. */
  lemma AuthenticateFindsUser(users: seq<User>, u: User, password: string, verify: (string, string) -> bool)
    requires UniqueUsernames(users) && u in users
    requires verify(password, u.passwordHash)
    ensures Authenticate(users, LoginDto(u.username, password), verify) == Some(u)
  {
    var found := FindUser(users, u.username);
    assert found.Some?;
    var i :| 0 <= i < |users| && users[i] == found.value;
    var j :| 0 <= j < |users| && users[j] == u;
    assert i == j;
  }

  /** Appending a user with a name not yet taken keeps usernames unique. */
  lemma AddFreshNameKeepsUnique(users: seq<User>, u: User)
    requires UniqueUsernames(users) && u.username !in Usernames(users)
    ensures UniqueUsernames(users + [u])
  {
    var r := users + [u];
    forall i, j | 0 <= i < j < |r| ensures r[i].username != r[j].username {
      if j == |users| {
        assert r[i] in users;
      }
    }
  }
}
