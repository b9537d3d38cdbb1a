/**
 * backend/Services/Implementations/AuthService.cs: self-registration with a forced role,
 * and the login decision with the token's claims (id, username, role).
 */
module AuthService {
  import opened Wrappers
  import opened Models
  import opened Data
  import opened IntText
  import opened Accounts

  /** RegisterDto of backend/DTOs/AuthDtos.cs. */
  datatype RegisterDto = RegisterDto(username: string, password: string)

  /** The new user, or the exception "User already exists." that RegisterAsync throws. */
  datatype RegisterResult = Registered(user: User) | AlreadyExists

  /**
   * RegisterAsync. `hashed` is what BCrypt.HashPassword returned for the password. A taken
   * username throws; otherwise exactly one user is saved, with Role "User".
   */
  method Register(db: AppDb, dto: RegisterDto, hashed: string) returns (r: RegisterResult)
    requires db.Valid()
    modifies db
    ensures db.Valid()
    ensures r.AlreadyExists? <==> dto.username in Usernames(old(db.users))
    ensures r.AlreadyExists? ==> db.State() == old(db.State())
    ensures r.Registered? ==>
      && r.user == User(r.user.id, dto.username, hashed, UserRole)
      && r.user.id !in UserIds(old(db.users))
      && db.State() == old(db.State()).(users := old(db.users) + [r.user])
    ensures UniqueUsernames(old(db.users)) ==> UniqueUsernames(db.users)
  {
    if UsernameTaken(db.users, dto.username) {
      return AlreadyExists;
    }
    ghost var before := db.users;
    var user := db.AddUser(dto.username, hashed, UserRole);
    if UniqueUsernames(before) {
      AddFreshNameKeepsUnique(before, user);
    }
    return Registered(user);
  }

  /** The token subject of lines 57-63: id as decimal text, username, role. */
  function ServiceClaims(u: User): (claims: seq<Claim>)
    ensures FindClaim(claims, NameIdentifier) == Some(DecimalText(u.id))
    ensures FindClaim(claims, Name) == Some(u.username)
    ensures IsInRole(claims, u.role)
  {
    var claims := [Claim(NameIdentifier, DecimalText(u.id)), Claim(Name, u.username), Claim(Role, u.role)];
    FindClaimFirst([], NameIdentifier, DecimalText(u.id), claims[1..]);
    assert [] + [claims[0]] + claims[1..] == claims;
    FindClaimFirst([claims[0]], Name, u.username, claims[2..]);
    assert [claims[0]] + [claims[1]] + claims[2..] == claims;
    claims
  }

  /** LoginAsync: null unless the user exists and the password verifies; otherwise a token. */
  function LoginAsync(users: seq<User>, dto: LoginDto, verify: (string, string) -> bool): (r: Option<Token>)
    ensures r.None? <==> Authenticate(users, dto, verify).None?
    ensures r.Some? ==>
      var u := Authenticate(users, dto, verify).value;
      && FindClaim(r.value.claims, NameIdentifier) == Some(DecimalText(u.id))
      && FindClaim(r.value.claims, Name) == Some(dto.username)
      && IsInRole(r.value.claims, u.role)
  {
    match Authenticate(users, dto, verify)
    case None => None
    case Some(u) => Some(Token(ServiceClaims(u)))
  }

  /** Whoever registers can log in with the same password, and is given the role "User". */
  lemma RegisteredUserCanLogIn(users: seq<User>, u: User, password: string, verify: (string, string) -> bool)
    requires UniqueUsernames(users + [u]) && u.role == UserRole
    requires verify(password, u.passwordHash)
    ensures var r := LoginAsync(users + [u], LoginDto(u.username, password), verify);
            r.Some? && IsInRole(r.value.claims, UserRole)
  {
    AuthenticateFindsUser(users + [u], u, password, verify);
  }
}
