/** The request guards every protected endpoint runs (`backend/app/core/deps.py`): the
    bearer token must be an access token naming an existing, unbanned user, and role-gated
    endpoints further require one of a list of roles. */
module Deps {
  import opened Wrappers
  import opened Json
  import opened Store
  import Security
  import Text

  /** `not payload or payload.get("type") != "access"`: an undecodable token, an empty
      payload, or one of another type (a refresh token) is refused. */
  predicate IsAccessPayload(payload: Option<Security.Claims>) {
    payload.Some? && Get(payload.value, "type") == JStr(Security.AccessType)
  }

  /** What a token proves: it decodes at `now` to an access payload whose `sub`, read as
      Python's `int` reads it, is the id of `u`, a row of the table. */
  ghost predicate Authenticates(db: Db, jwt: Security.Jwt, token: string, now: Instant, u: User) {
    var payload := jwt.decode(token, now);
    && IsAccessPayload(payload)
    && Truthy(Get(payload.value, "sub"))
    && PyInt(Get(payload.value, "sub")) == Some(u.id)
    && u in db.users
  }

  /** `get_current_user`. */
  function GetCurrentUser(db: Db, jwt: Security.Jwt, token: string, now: Instant): (r: Result<User, HttpError>)
    // Any token that is not a decodable access token is a 401, refresh tokens included.
    ensures !IsAccessPayload(jwt.decode(token, now)) ==> r == Failure(HttpError(401, InvalidToken))
    // The admitted user is the one the token names, and is not banned.
    ensures r.Success? ==> Authenticates(db, jwt, token, now, r.value) && !r.value.isBanned
    ensures r.Success? ==> UserById(db, r.value.id) == Some(r.value)
    // The ban is only reported for a token that names an existing, banned user.
    ensures r == Failure(HttpError(403, AccountBanned)) <==>
      exists u :: Authenticates(db, jwt, token, now, u) && UserById(db, u.id) == Some(u) && u.isBanned
    // Conversely, a token naming an existing user always gets through or gets the ban.
    ensures (exists u :: Authenticates(db, jwt, token, now, u)) ==>
      r.Success? || r == Failure(HttpError(403, AccountBanned))
  {
    var payload := jwt.decode(token, now);
    if !IsAccessPayload(payload) then Failure(HttpError(401, InvalidToken))
    else
      var sub := Get(payload.value, "sub");
      if !Truthy(sub) then Failure(HttpError(401, InvalidToken))
      else match PyInt(sub)
        // `int(user_id)` raises on a `sub` that is not integer text.
        case None => Failure(HttpError(500, Unhandled))
        case Some(id) =>
          match UserById(db, id)
          case None => Failure(HttpError(401, UserNotFound))
          case Some(u) =>
            if u.isBanned then Failure(HttpError(403, AccountBanned)) else Success(u)
  }

  /** `require_roles(allowed)`, applied to an already admitted user. */
  function RequireRoles(allowed: seq<string>, user: User): (r: Result<User, HttpError>)
    ensures r.Success? <==> user.role in allowed
    ensures r.Success? ==> r.value == user
    ensures r.Failure? ==> r.error == HttpError(403, Forbidden)
  {
    if user.role in allowed then Success(user) else Failure(HttpError(403, Forbidden))
  }

  /** The two guards as FastAPI chains them for a role-gated endpoint. */
  function Authorize(db: Db, jwt: Security.Jwt, token: string, now: Instant, allowed: seq<string>): (r: Result<User, HttpError>)
    ensures r.Success? ==> Authenticates(db, jwt, token, now, r.value) && !r.value.isBanned && r.value.role in allowed
  {
    var u :- GetCurrentUser(db, jwt, token, now);
    RequireRoles(allowed, u)
  }

  /** A refresh token is never accepted as a bearer token, even when it names a valid user. */
  lemma RefreshTokenRejected(db: Db, jwt: Security.Jwt, token: string, now: Instant, subject: Json, expires: int)
    requires jwt.decode(token, now) == Some(Security.TokenClaims(subject, Security.RefreshType, expires))
    ensures GetCurrentUser(db, jwt, token, now) == Failure(HttpError(401, InvalidToken))
  {
    assert Get(jwt.decode(token, now).value, "type") == JStr(Security.RefreshType);
  }

  /** An access token issued for a user's id string admits that user while it decodes,
      unless the user is banned. */
  lemma IssuedAccessTokenAdmits(db: Db, jwt: Security.Jwt, settings: Security.TokenSettings, u: User, issued: Instant, now: Instant)
    requires UserById(db, u.id) == Some(u) && !u.isBanned
    requires var token := Security.CreateAccessToken(jwt, settings, JStr(Text.IntToString(u.id)), issued);
      jwt.decode(token, now) == Some(Security.TokenClaims(JStr(Text.IntToString(u.id)), Security.AccessType,
        issued + settings.accessTokenExpireMinutes * 60))
    ensures GetCurrentUser(db, jwt, Security.CreateAccessToken(jwt, settings, JStr(Text.IntToString(u.id)), issued), now) == Success(u)
  {
    var sub := JStr(Text.IntToString(u.id));
    var token := Security.CreateAccessToken(jwt, settings, sub, issued);
    var claims := jwt.decode(token, now).value;
    assert Get(claims, "type") == JStr(Security.AccessType);
    assert Get(claims, "sub") == sub;
    assert PyInt(sub) == Some(u.id) by {
      Text.IntToStringRoundTrip(u.id);
      Text.IntToStringTrimmed(u.id);
    }
  }
}
