/** The authentication middlewares: where a request's access token comes from, the
    required and the optional user lookup, the role check and the development-only gate.
    Checking the token's signature and expiry (`jwt.verify`) is a parameter. */
module Auth {
  import opened Base
  import opened Constants
  import opened Domain
  import Strs

  /** A role or environment gate's outcome: call `next()`, or throw. */
  datatype Pass = Proceed | Deny(error: HttpError)

  const BearerPrefix := "Bearer "
  const Unauthorized := "Unauthorized request"
  const InvalidAccessToken := "Invalid access token"
  const NotAllowed := "You are not allowed to perform this action"
  const LocalOnly := "This service is only available in the local environment."

  /** The request's token: the `accessToken` cookie when it is truthy, otherwise the
      `Authorization` header with its first `Bearer ` removed (wherever it occurs), and
      nothing when there is no such header. */
  function ExtractToken(cookieToken: Option<string>, authorization: Option<string>): (r: Option<string>)
    ensures Truthy(cookieToken) ==> r == cookieToken
    ensures !Truthy(cookieToken) ==> (r.Some? <==> authorization.Some?)
    ensures !Truthy(cookieToken) && authorization.Some? ==>
              r.value == Strs.ReplaceFirst(authorization.value, BearerPrefix, "")
  {
    if Truthy(cookieToken) then cookieToken
    else
      match authorization
      case None => None
      case Some(h) => Some(Strs.ReplaceFirst(h, BearerPrefix, ""))
  }

  /** The prefix is not anchored: the first `Bearer ` is cut out wherever it stands, and
      what surrounds it is kept. */
  lemma BearerRemovedAnywhere(a: string, t: string)
    requires forall j: nat :: !Strs.OccursAt(a, BearerPrefix, j)
    ensures ExtractToken(None, Some(a + BearerPrefix + t)) == Some(a + t)
  {
    var h := a + BearerPrefix + t;
    var i := |a|;
    var n := |BearerPrefix|;
    assert Strs.OccursAt(h, BearerPrefix, i) by {
      assert h[i..i + n] == BearerPrefix;
    }
    forall j: nat | j < i ensures !Strs.OccursAt(h, BearerPrefix, j) {
      if j + n <= i {
        assert h[j..j + n] == a[j..j + n];
        assert !Strs.OccursAt(a, BearerPrefix, j);
      } else {
        // An occurrence here would end with its space inside the prefix at `i`, whose
        // first six characters hold no space.
        assert h[j + n - 1] == BearerPrefix[j + n - 1 - i];
        assert h[j..j + n][n - 1] == h[j + n - 1];
      }
    }
    assert h[..i] == a && h[i + n..] == t;
    assert Strs.ReplaceFirst(h, BearerPrefix, "") == h[..i] + "" + h[i + n..];
    assert h[..i] + "" + h[i + n..] == a + t;
    assert ExtractToken(None, Some(h)) == Some(Strs.ReplaceFirst(h, BearerPrefix, ""));
  }

  /** A `Bearer <token>` header yields the token, whatever the token holds. */
  lemma BearerHeaderYieldsToken(t: string)
    ensures ExtractToken(None, Some(BearerPrefix + t)) == Some(t)
  {
    BearerRemovedAnywhere("", t);
    assert "" + BearerPrefix + t == BearerPrefix + t && "" + t == t;
  }

  /** A header without `Bearer ` in it is taken as the token as it stands. */
  lemma BareHeaderIsToken(h: string)
    requires forall j: nat :: !Strs.OccursAt(h, BearerPrefix, j)
    ensures ExtractToken(None, Some(h)) == Some(h)
  {
  }

  /** `verifyJWT`: the user the request's token names, or a 401. A missing or empty token is
      "Unauthorized request"; a token the verifier rejects carries the verifier's message
      (or "Invalid access token" when that is empty); a token whose user no longer exists
      is "Invalid access token". */
  function VerifyJWT(cookieToken: Option<string>, authorization: Option<string>,
                     verify: string -> Decoded, users: seq<User>): (r: Result<User>)
    ensures var token := ExtractToken(cookieToken, authorization);
            r.Ok? <==> Truthy(token) && verify(token.value).Verified? && verify(token.value).userId in UserIds(users)
    ensures r.Ok? ==> r.value in users && r.value.id == verify(ExtractToken(cookieToken, authorization).value).userId
    ensures r.Err? ==> r.error.status == 401 && r.error.message != ""
    ensures !Truthy(ExtractToken(cookieToken, authorization)) ==> r == Err(HttpError(401, Unauthorized))
    ensures var token := ExtractToken(cookieToken, authorization);
            Truthy(token) && verify(token.value).Rejected? && verify(token.value).message != "" ==>
              r == Err(HttpError(401, verify(token.value).message))
  {
    var token := ExtractToken(cookieToken, authorization);
    if !Truthy(token) then Err(HttpError(401, Unauthorized))
    else
      match verify(token.value)
      case Rejected(message) =>
        Err(HttpError(401, if message == "" then InvalidAccessToken else message))
      case Verified(id) =>
        match UserById(users, id)
        case None => Err(HttpError(401, InvalidAccessToken))
        case Some(u) => Ok(u)
  }

  /** `getLoggedInUserOrIgnore`: the user the token names, or none; it never fails. The
      verifier rejects a missing or empty token itself. */
  function GetLoggedInUserOrIgnore(cookieToken: Option<string>, authorization: Option<string>,
                                   verify: string -> Decoded, users: seq<User>): (r: Option<User>)
    ensures r.Some? ==> r.value in users
  {
    var token := ExtractToken(cookieToken, authorization);
    if !Truthy(token) then None
    else
      match verify(token.value)
      case Rejected(_) => None
      case Verified(id) => UserById(users, id)
  }

  /** The optional lookup finds a user exactly when the required one lets the request
      through, and then the same user. */
  lemma OptionalAgreesWithRequired(cookieToken: Option<string>, authorization: Option<string>,
                                   verify: string -> Decoded, users: seq<User>)
    ensures GetLoggedInUserOrIgnore(cookieToken, authorization, verify, users).Some?
            <==> VerifyJWT(cookieToken, authorization, verify, users).Ok?
    ensures GetLoggedInUserOrIgnore(cookieToken, authorization, verify, users).Some? ==>
              GetLoggedInUserOrIgnore(cookieToken, authorization, verify, users).value
              == VerifyJWT(cookieToken, authorization, verify, users).value
  {
  }

  /** `verifyPermission(roles)`: 401 without a logged-in user, otherwise through exactly when
      the user's role is listed. The default, empty list lets nobody through. */
  function VerifyPermission(user: Option<User>, roles: seq<UserRole>): (r: Pass)
    ensures r.Proceed? <==> user.Some? && user.value.role in roles
    ensures user.None? ==> r == Deny(HttpError(401, Unauthorized))
    ensures user.Some? && user.value.role !in roles ==> r == Deny(HttpError(403, NotAllowed))
  {
    match user
    case None => Deny(HttpError(401, Unauthorized))
    case Some(u) => if u.role in roles then Proceed else Deny(HttpError(403, NotAllowed))
  }

  /** An admin-only route lets a logged-in user through exactly when that user is an admin;
      listing both roles lets every logged-in user through. */
  lemma PermissionByRole(u: User)
    ensures VerifyPermission(Some(u), [ADMIN]).Proceed? <==> u.role == ADMIN
    ensures VerifyPermission(Some(u), [ADMIN, USER]).Proceed?
    ensures VerifyPermission(Some(u), []).Deny?
  {
  }

  /** `avoidInProduction`: through only when `NODE_ENV` is exactly `development`. */
  function AvoidInProduction(nodeEnv: Option<string>): (r: Pass)
    ensures r.Proceed? <==> nodeEnv == Some("development")
    ensures r.Deny? ==> r.error == HttpError(403, LocalOnly)
  {
    if nodeEnv == Some("development") then Proceed else Deny(HttpError(403, LocalOnly))
  }
}
