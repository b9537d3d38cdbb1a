/**
 * frontend/src/context/AuthContext.tsx: the signed-in user of the web client. A token is
 * decoded (jwtDecode, the parameter `decode`), the user is read off its payload with
 * JavaScript `||` fallbacks, and the token is kept in localStorage (the field `storedToken`).
 * Payload values are modelled as strings; a string is truthy when it is not empty.
 */
module AuthContext {
  import opened Wrappers
  import opened Models
  import opened IntText
  import AuthController
  import AuthService

  /** A decoded token payload: claim name to value. */
  type Payload = map<string, string>

  /** The key .NET writes ClaimTypes.Role under when the claim type is not shortened. */
  const RoleClaimUri: string := "http://schemas.microsoft.com/ws/2008/06/identity/claims/role"

  /** `User` of frontend/src/types/index.ts; an `id` of `None` is NaN. */
  datatype SessionUser = SessionUser(id: Option<int>, username: string, role: string, token: string)

  /** `decoded[key]` is truthy: present and not the empty string. */
  predicate Truthy(p: Payload, key: string)
  {
    key in p && p[key] != ""
  }

  /** `decoded[keys[0]] || decoded[keys[1]] || ... || fallback` */
  function FirstTruthy(p: Payload, keys: seq<string>, fallback: string): (v: string)
    ensures (forall k :: 0 <= k < |keys| ==> !Truthy(p, keys[k])) ==> v == fallback
    ensures forall k :: 0 <= k < |keys| && Truthy(p, keys[k]) && (forall i :: 0 <= i < k ==> !Truthy(p, keys[i])) ==>
              v == p[keys[k]]
  {
    if keys == [] then fallback
    else if Truthy(p, keys[0]) then p[keys[0]]
    else
      var v := FirstTruthy(p, keys[1..], fallback);
      assert forall k :: 1 <= k < |keys| ==> keys[k] == keys[1..][k - 1];
      v
  }

  /** The user of lines 26-31. */
  function UserOf(p: Payload, token: string): (u: SessionUser)
    ensures u.token == token
    ensures Truthy(p, RoleClaimUri) ==> u.role == p[RoleClaimUri]
    ensures !Truthy(p, RoleClaimUri) && Truthy(p, "role") ==> u.role == p["role"]
    ensures !Truthy(p, RoleClaimUri) && !Truthy(p, "role") ==> u.role == UserRole
    ensures Truthy(p, "sub") ==> u.id == JsParseInt(p["sub"])
    ensures !Truthy(p, "sub") ==> u.id == Some(0)
    ensures Truthy(p, "unique_name") ==> u.username == p["unique_name"]
    ensures !Truthy(p, "unique_name") && Truthy(p, "sub") ==> u.username == p["sub"]
    ensures !Truthy(p, "unique_name") && !Truthy(p, "sub") ==> u.username == "User"
  {
    var roleKeys, nameKeys := [RoleClaimUri, "role"], ["unique_name", "sub"];
    assert roleKeys[0] == RoleClaimUri && roleKeys[1] == "role";
    assert nameKeys[0] == "unique_name" && nameKeys[1] == "sub";
    assert ["sub"][0] == "sub";
    JsParseDecimalText(0);
    assert DecimalText(0) == "0";
    var role := FirstTruthy(p, roleKeys, UserRole);
    SessionUser(JsParseInt(FirstTruthy(p, ["sub"], "0")), FirstTruthy(p, nameKeys, "User"), role, token)
  }

  /** A `sub` holding a number as decimal text gives that number as the id. */
  lemma UserIdFromSub(p: Payload, token: string, n: int)
    requires "sub" in p && p["sub"] == DecimalText(n)
    ensures UserOf(p, token).id == Some(n)
  {
    JsParseDecimalText(n);
  }

  /** A `sub` that is not a number (`parseInt` gives NaN) gives no id. */
  lemma UserIdNaN(p: Payload, token: string)
    requires Truthy(p, "sub")
    requires !IsJsWhite(p["sub"][0]) && p["sub"][0] != '-' && p["sub"][0] != '+' && !IsDigitIn(p["sub"][0], 10)
    ensures UserOf(p, token).id == None
  {
    JsParseNoDigitIsNaN(p["sub"]);
  }

  /**
   * The payload name the server's JwtSecurityTokenHandler writes for each claim type:
   * its default outbound map shortens them to the JWT names.
   */
  function PayloadName(kind: ClaimType): string
  {
    match kind
    case NameIdentifier => "nameid"
    case Name => "unique_name"
    case Role => "role"
  }

  /** The payload of a token carrying `claims`, one claim per type. */
  function PayloadOf(claims: seq<Claim>): Payload
  {
    if claims == [] then map[] else PayloadOf(claims[..|claims| - 1])[PayloadName(claims[|claims| - 1].kind) := claims[|claims| - 1].value]
  }

  /** The payload of a token of POST /auth/login. */
  lemma LoginPayload(u: User)
    ensures PayloadOf(AuthController.LoginClaims(u)) == map["nameid" := DecimalText(u.id), "role" := u.role]
  {
    var claims := AuthController.LoginClaims(u);
    assert claims == [Claim(NameIdentifier, DecimalText(u.id)), Claim(Role, u.role)];
    assert claims[..1] == [claims[0]] && claims[..1][..0] == [];
    assert PayloadOf(claims[..1]) == map["nameid" := DecimalText(u.id)];
  }

  /**
   * The token of POST /auth/login (AuthController.cs:47-50), decoded here: it has no `sub`
   * and no `unique_name`, so the id is 0 and the name "User", while the role is the user's.
   */
  lemma DecodeLoginToken(u: User, token: string)
    requires u.role != ""
    ensures var s := UserOf(PayloadOf(AuthController.LoginClaims(u)), token);
            s.id == Some(0) && s.username == "User" && s.role == u.role
  {
    LoginPayload(u);
    var p := PayloadOf(AuthController.LoginClaims(u));
    assert "sub" !in p && "unique_name" !in p && RoleClaimUri !in p;
    assert p["role"] == u.role;
  }

  /** The payload of a token of AuthService.LoginAsync. */
  lemma ServicePayload(u: User)
    ensures PayloadOf(AuthService.ServiceClaims(u))
         == map["nameid" := DecimalText(u.id), "unique_name" := u.username, "role" := u.role]
  {
    var claims := AuthService.ServiceClaims(u);
    assert claims == [Claim(NameIdentifier, DecimalText(u.id)), Claim(Name, u.username), Claim(Role, u.role)];
    var two := claims[..2];
    assert two == [claims[0], claims[1]] && two[..1] == [claims[0]] && two[..1][..0] == [];
    assert PayloadOf(two[..1]) == map["nameid" := DecimalText(u.id)];
    assert PayloadOf(two) == map["nameid" := DecimalText(u.id), "unique_name" := u.username];
  }

  /**
   * The token of AuthService.LoginAsync (AuthService.cs:57-63) carries the username as
   * `unique_name`, so that one shows the user's name.
   */
  lemma DecodeServiceToken(u: User, token: string)
    requires u.role != "" && u.username != ""
    ensures var s := UserOf(PayloadOf(AuthService.ServiceClaims(u)), token);
            s.id == Some(0) && s.username == u.username && s.role == u.role
  {
    ServicePayload(u);
    var p := PayloadOf(AuthService.ServiceClaims(u));
    assert "sub" !in p && RoleClaimUri !in p;
    assert p["unique_name"] == u.username && p["role"] == u.role;
  }

  /** The provider's state. */
  class AuthProvider {
    /** `user` of useState. */
    var user: Option<SessionUser>
    /** localStorage's 'token'. */
    var storedToken: Option<string>
    /** jwtDecode; `None` is the exception it throws on a malformed token. */
    const decode: string -> Option<Payload>

    /** `isAdmin` (line 49). */
    function IsAdmin(): bool
      reads this
    {
      user.Some? && user.value.role == AdminRole
    }

    /** The first render, whose effect signs in with a stored token (lines 18-21). */
    constructor(decode: string -> Option<Payload>, stored: Option<string>)
      ensures this.decode == decode
      ensures stored.None? || stored.value == "" ==> user == None && storedToken == stored
      ensures stored.Some? && stored.value != "" && decode(stored.value).None? ==> user == None && storedToken == None
      ensures stored.Some? && stored.value != "" && decode(stored.value).Some? ==>
                user == Some(UserOf(decode(stored.value).value, stored.value)) && storedToken == stored
    {
      this.decode := decode;
      user := None;
      storedToken := stored;
      new;
      if stored.Some? && stored.value != "" {
        DecodeAndSetUser(stored.value);
      }
    }

    /** decodeAndSetUser (lines 23-37): a token that does not decode signs out. */
    method DecodeAndSetUser(token: string)
      modifies this
      ensures decode(token).None? ==> user == None && storedToken == None
      ensures decode(token).Some? ==> user == Some(UserOf(decode(token).value, token)) && storedToken == Some(token)
    {
      match decode(token)
      case None =>
        Logout();
      case Some(p) =>
        user := Some(UserOf(p, token));
        storedToken := Some(token);
    }

    /** login (lines 39-41) is decodeAndSetUser. */
    method Login(token: string)
      modifies this
      ensures decode(token).None? ==> user == None && storedToken == None
      ensures decode(token).Some? ==> user == Some(UserOf(decode(token).value, token)) && storedToken == Some(token)
    {
      DecodeAndSetUser(token);
    }

    /** logout (lines 43-46). */
    method Logout()
      modifies this
      ensures user == None && storedToken == None
    {
      storedToken := None;
      user := None;
    }
  }

  /**
   * After `Login` with a token of POST /auth/login that decodes (so that `user` is the one
   * read off its payload), `isAdmin` holds exactly when the user's role is "Admin".
   */
  lemma LoginTokenAdmin(a: AuthProvider, u: User, token: string)
    requires u.role != ""
    requires a.user == Some(UserOf(PayloadOf(AuthController.LoginClaims(u)), token))
    ensures a.IsAdmin() <==> u.role == AdminRole
  {
    DecodeLoginToken(u, token);
  }
}
