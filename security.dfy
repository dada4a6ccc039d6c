/**
 * Tokens and credentials (src/be/core/security.py): issuing and checking JWTs by type,
 * password authentication, the refresh-token table (store, verify, revoke) and the
 * dependencies that turn a bearer token into the current user.
 */
module Security {
  import opened Wrappers
  import opened Models
  import opened Primitives
  import opened Tables
  import Config
  import PyStr
  import Schemas

  /** An `HTTPException`; an uncaught Python exception becomes status 500. */
  datatype HttpError = HttpError(status: int, detail: string)

  const INTERNAL_ERROR := HttpError(500, "Internal Server Error")

  /** A 422 carries the field errors of request validation; every other failure is an `HttpError`. */
  datatype ApiError = Unprocessable(errors: seq<Schemas.FieldError>) | Http(error: HttpError)

  // ---------------------------------------------------------------- issuing

  /** The claims `create_access_token` signs for a user at time `now` (15-minute lifetime). */
  function AccessClaims(user: User, now: int): Payload
  {
    Payload(Some(PyStr.NatToDecimal(user.id)), Some(user.username), Some("access"),
            Some(now + Config.ACCESS_TOKEN_SECONDS), Some(now))
  }

  /** The claims `create_refresh_token` signs for a user at time `now` (7-day lifetime). */
  function RefreshClaims(user: User, now: int): Payload
  {
    Payload(Some(PyStr.NatToDecimal(user.id)), Some(user.username), Some("refresh"),
            Some(now + Config.REFRESH_TOKEN_SECONDS), Some(now))
  }

  function CreateAccessToken(lib: Lib, user: User, now: int): string
  {
    lib.encode(AccessClaims(user, now))
  }

  function CreateRefreshToken(lib: Lib, user: User, now: int): string
  {
    lib.encode(RefreshClaims(user, now))
  }

  // ---------------------------------------------------------------- verify_token

  /** `verify_token`: the decoded claims, but only for a token of the expected type. */
  function VerifyToken(lib: Lib, token: string, expectedType: string): (r: Option<Payload>)
    ensures r.Some? <==> lib.decode(token).Some? && lib.decode(token).value.tokenType == Some(expectedType)
    ensures r.Some? ==> r == lib.decode(token)
  {
    match lib.decode(token)
    case None => None
    case Some(payload) => if payload.tokenType != Some(expectedType) then None else Some(payload)
  }

  /** No token passes both as an access token and as a refresh token. */
  lemma TokenTypesExclusive(lib: Lib, token: string)
    ensures !(VerifyToken(lib, token, "access").Some? && VerifyToken(lib, token, "refresh").Some?)
  {
  }

  // ---------------------------------------------------------------- authenticate_user

  function UserIndexByName(users: seq<User>, username: string): (r: Option<nat>)
    ensures r.Some? ==> r.value < |users| && users[r.value].username == username
    ensures r.None? <==> forall j :: 0 <= j < |users| ==> users[j].username != username
  {
    IndexOfFirst(users, (u: User) => u.username == username)
  }

  /** `authenticate_user`: the user with that name, if active and the password verifies. */
  function AuthenticateUser(lib: Lib, users: seq<User>, username: string, password: string): (r: Option<User>)
    ensures r.Some? ==>
      r.value in users && r.value.username == username && r.value.isActive
      && lib.verifyPassword(password, r.value.passwordHash)
  {
    match UserIndexByName(users, username)
    case None => None
    case Some(i) =>
      if users[i].isActive && lib.verifyPassword(password, users[i].passwordHash) then Some(users[i]) else None
  }

  /** With unique usernames, authentication succeeds exactly for an active user whose password verifies. */
  lemma AuthenticateUserIff(lib: Lib, users: seq<User>, username: string, password: string)
    requires UniqueUsernames(users)
    ensures AuthenticateUser(lib, users, username, password).Some? <==>
      exists i :: 0 <= i < |users| && users[i].username == username && users[i].isActive
                  && lib.verifyPassword(password, users[i].passwordHash)
  {
    if i :| 0 <= i < |users| && users[i].username == username && users[i].isActive
            && lib.verifyPassword(password, users[i].passwordHash) {
      var k := UserIndexByName(users, username);
      assert k.Some? && k.value == i;
    }
  }

  // ---------------------------------------------------------------- the refresh-token table

  /** A row that `verify_refresh_token` accepts for this hash at time `now`. */
  predicate LiveRow(row: RefreshToken, hash: string, now: int)
  {
    row.tokenHash == hash && !row.isRevoked && row.expiresAt > now
  }

  /** `verify_refresh_token`: a refresh-type token with a live row yields that row's user. */
  function VerifyRefreshToken(lib: Lib, users: seq<User>, tokens: seq<RefreshToken>, refreshToken: string, now: int)
    : (r: Option<User>)
    ensures r.Some? ==>
      && lib.decode(refreshToken).Some? && lib.decode(refreshToken).value.tokenType == Some("refresh")
      && r.value in users
      && exists i :: 0 <= i < |tokens| && LiveRow(tokens[i], lib.hashToken(refreshToken), now)
                     && tokens[i].userId == r.value.id
  {
    match lib.decode(refreshToken)
    case None => None
    case Some(payload) =>
      if payload.tokenType != Some("refresh") then None
      else
        var h := lib.hashToken(refreshToken);
        match IndexOfFirst(tokens, (t: RefreshToken) => LiveRow(t, h, now))
        case None => None
        case Some(i) =>
          match UserIndexById(users, tokens[i].userId)
          case None => None
          case Some(j) => Some(users[j])
  }

  /** Under the foreign key, a refresh-type token verifies exactly when it has a live row. */
  lemma VerifyRefreshTokenIff(lib: Lib, users: seq<User>, tokens: seq<RefreshToken>, refreshToken: string, now: int)
    requires TokenOwnersExist(users, tokens)
    ensures VerifyRefreshToken(lib, users, tokens, refreshToken, now).Some? <==>
      && lib.decode(refreshToken).Some? && lib.decode(refreshToken).value.tokenType == Some("refresh")
      && exists i :: 0 <= i < |tokens| && LiveRow(tokens[i], lib.hashToken(refreshToken), now)
  {
    var h := lib.hashToken(refreshToken);
    var k := IndexOfFirst(tokens, (t: RefreshToken) => LiveRow(t, h, now));
    if k.Some? {
      assert HasUserId(users, tokens[k.value].userId);
    }
  }

  /** The row `store_refresh_token` inserts; None when decoding the token raises. */
  function NewTokenRow(lib: Lib, tokens: seq<RefreshToken>, userId: nat, refreshToken: string, now: int)
    : (r: Option<RefreshToken>)
    ensures r.Some? <==> lib.decode(refreshToken).Some? && lib.decode(refreshToken).value.exp.Some?
    ensures r.Some? ==>
      && r.value.userId == userId
      && r.value.tokenHash == lib.hashToken(refreshToken)
      && r.value.expiresAt == lib.decode(refreshToken).value.exp.value
      && !r.value.isRevoked
      && forall i :: 0 <= i < |tokens| ==> tokens[i].id != r.value.id
  {
    match lib.decode(refreshToken)
    case None => None
    case Some(payload) =>
      match payload.exp
      case None => None
      case Some(exp) => Some(RefreshToken(NextTokenId(tokens), userId, lib.hashToken(refreshToken), exp, now, false))
  }

  /** `store_refresh_token`: appends one row for the token; a token that does not decode raises and adds nothing. */
  method StoreRefreshToken(db: Session, lib: Lib, userId: nat, refreshToken: string, now: int) returns (stored: bool)
    requires db.Valid() && HasUserId(db.users, userId)
    modifies db
    ensures db.Valid() && db.users == old(db.users)
    ensures var row := NewTokenRow(lib, old(db.tokens), userId, refreshToken, now);
      && stored == row.Some?
      && db.tokens == if stored then old(db.tokens) + [row.value] else old(db.tokens)
  {
    var payload := lib.decode(refreshToken);
    if payload.None? || payload.value.exp.None? {
      return false;
    }
    var row := RefreshToken(NextTokenId(db.tokens), userId, lib.hashToken(refreshToken), payload.value.exp.value, now, false);
    var before := db.tokens;
    db.tokens := db.tokens + [row];
    assert forall t :: 0 <= t < |before| ==> db.tokens[t] == before[t];
    stored := true;
  }

  /** The table after `revoke_refresh_token` marks the first row with this hash; None when no row has it. */
  function RevokeFirst(tokens: seq<RefreshToken>, hash: string): (r: Option<seq<RefreshToken>>)
    ensures r.Some? <==> exists i :: 0 <= i < |tokens| && tokens[i].tokenHash == hash
    ensures r.Some? ==> |r.value| == |tokens| && exists i ::
      && 0 <= i < |tokens| && tokens[i].tokenHash == hash
      && (forall j :: 0 <= j < i ==> tokens[j].tokenHash != hash)
      && r.value[i] == tokens[i].(isRevoked := true)
      && (forall j :: 0 <= j < |tokens| && j != i ==> r.value[j] == tokens[j])
  {
    match IndexOfFirst(tokens, (t: RefreshToken) => t.tokenHash == hash)
    case None => None
    case Some(i) => Some(tokens[i := tokens[i].(isRevoked := true)])
  }

  /** `revoke_refresh_token`: true and the first matching row revoked, or false and nothing changed. */
  method RevokeRefreshToken(db: Session, lib: Lib, refreshToken: string) returns (revoked: bool)
    requires db.Valid()
    modifies db
    ensures db.Valid() && db.users == old(db.users)
    ensures var r := RevokeFirst(old(db.tokens), lib.hashToken(refreshToken));
      && revoked == r.Some?
      && db.tokens == if revoked then r.value else old(db.tokens)
  {
    var h := lib.hashToken(refreshToken);
    var k := IndexOfFirst(db.tokens, (t: RefreshToken) => t.tokenHash == h);
    if k.None? {
      return false;
    }
    var i := k.value;
    var before := db.tokens;
    db.tokens := db.tokens[i := db.tokens[i].(isRevoked := true)];
    assert forall t :: 0 <= t < |before| ==> db.tokens[t].userId == before[t].userId && db.tokens[t].id == before[t].id;
    revoked := true;
  }

  /** Revoking looks only at the hash: a row already revoked, or long expired, still counts. */
  lemma RevokeIgnoresFlagAndExpiry(tokens: seq<RefreshToken>, i: nat, hash: string)
    requires i < |tokens| && tokens[i].tokenHash == hash
    ensures RevokeFirst(tokens, hash).Some?
  {
  }

  /** When only one row carries the token's hash, revoking it makes the token unusable for refresh. */
  lemma {:induction false} RevokeThenRefreshFails(lib: Lib, users: seq<User>, tokens: seq<RefreshToken>, refreshToken: string, now: int)
    requires var h := lib.hashToken(refreshToken);
      forall i, j :: 0 <= i < |tokens| && 0 <= j < |tokens| && tokens[i].tokenHash == h && tokens[j].tokenHash == h ==> i == j
    requires RevokeFirst(tokens, lib.hashToken(refreshToken)).Some?
    ensures VerifyRefreshToken(lib, users, RevokeFirst(tokens, lib.hashToken(refreshToken)).value, refreshToken, now).None?
  {
    var h := lib.hashToken(refreshToken);
    var after := RevokeFirst(tokens, h).value;
    forall j | 0 <= j < |after| ensures !LiveRow(after[j], h, now) {
      if tokens[j].tokenHash == h {
        assert after[j].isRevoked;
      } else {
        assert after[j].tokenHash != h;
      }
    }
  }

  /**
   * Two rows can carry the same hash (the same token stored twice). Revoking marks only
   * the first, so a live second row keeps the token usable for refresh.
   */
  lemma RevokeLeavesDuplicateLive(lib: Lib, user: User, first: RefreshToken, second: RefreshToken, refreshToken: string, now: int)
    requires lib.decode(refreshToken).Some? && lib.decode(refreshToken).value.tokenType == Some("refresh")
    requires first.tokenHash == lib.hashToken(refreshToken)
    requires LiveRow(second, lib.hashToken(refreshToken), now) && second.userId == user.id
    ensures var after := RevokeFirst([first, second], lib.hashToken(refreshToken));
      after.Some? && after.value[0].isRevoked && VerifyRefreshToken(lib, [user], after.value, refreshToken, now) == Some(user)
  {
    var h := lib.hashToken(refreshToken);
    var after := RevokeFirst([first, second], h).value;
    assert after == [first.(isRevoked := true), second];
    assert !LiveRow(after[0], h, now);
    assert IndexOfFirst(after, (t: RefreshToken) => LiveRow(t, h, now)) == Some(1);
  }

  // ---------------------------------------------------------------- the current-user dependencies

  /** `get_current_user`: decode, require an access token, resolve `int(sub)` to an active user. */
  function GetCurrentUser(lib: Lib, users: seq<User>, token: string): (r: Result<User, HttpError>)
    ensures r.Success? ==> r.value in users && r.value.isActive
  {
    match lib.decode(token)
    case None => Failure(HttpError(401, "Invalid token"))
    case Some(payload) =>
      if payload.tokenType != Some("access") then Failure(HttpError(401, "Invalid token type"))
      else match payload.sub
        case None => Failure(INTERNAL_ERROR)
        case Some(sub) =>
          match lib.intOf(sub)
          case None => Failure(INTERNAL_ERROR)
          case Some(id) =>
            var k := if id >= 0 then UserIndexById(users, id) else None;
            if k.None? || !users[k.value].isActive then Failure(HttpError(401, "User not found or inactive"))
            else Success(users[k.value])
  }

  /** Which 401 (or 500) `get_current_user` produces, check by check. */
  lemma GetCurrentUserRejections(lib: Lib, users: seq<User>, token: string)
    requires UniqueUserIds(users)
    ensures lib.decode(token).None? ==> GetCurrentUser(lib, users, token) == Failure(HttpError(401, "Invalid token"))
    ensures lib.decode(token).Some? && lib.decode(token).value.tokenType != Some("access") ==>
      GetCurrentUser(lib, users, token) == Failure(HttpError(401, "Invalid token type"))
    ensures (lib.decode(token).Some? && lib.decode(token).value.tokenType == Some("access")
             && (lib.decode(token).value.sub.None? || lib.intOf(lib.decode(token).value.sub.value).None?)) ==>
      GetCurrentUser(lib, users, token) == Failure(INTERNAL_ERROR)
    ensures (lib.decode(token).Some? && lib.decode(token).value.tokenType == Some("access")
             && lib.decode(token).value.sub.Some? && lib.intOf(lib.decode(token).value.sub.value).Some?
             && GetCurrentUser(lib, users, token).Failure?) ==>
      GetCurrentUser(lib, users, token) == Failure(HttpError(401, "User not found or inactive"))
    ensures GetCurrentUser(lib, users, token).Success? <==>
      && lib.decode(token).Some? && lib.decode(token).value.tokenType == Some("access")
      && lib.decode(token).value.sub.Some?
      && var id := lib.intOf(lib.decode(token).value.sub.value);
      && id.Some?
      && exists i :: 0 <= i < |users| && users[i].id == id.value && users[i].isActive
  {
    var r := GetCurrentUser(lib, users, token);
    if r.Success? {
      assert r.value in users;
    }
  }

  /** `get_current_active_user`: its inactive-user check can never fire after `get_current_user`. */
  function GetCurrentActiveUser(lib: Lib, users: seq<User>, token: string): (r: Result<User, HttpError>)
    ensures r == GetCurrentUser(lib, users, token)
    ensures r.Failure? ==> r.error.status != 400
  {
    match GetCurrentUser(lib, users, token)
    case Failure(e) => Failure(e)
    case Success(u) => if !u.isActive then Failure(HttpError(400, "Inactive user")) else Success(u)
  }

  /** An access token issued to an active user authenticates that user; a refresh token does not. */
  lemma IssuedTokensAuthenticate(lib: Lib, users: seq<User>, i: nat, now: int)
    requires DecodesFreshTokens(lib) && ParsesDecimals(lib)
    requires UniqueUserIds(users) && i < |users| && users[i].isActive
    ensures GetCurrentUser(lib, users, CreateAccessToken(lib, users[i], now)) == Success(users[i])
    ensures GetCurrentUser(lib, users, CreateRefreshToken(lib, users[i], now)) == Failure(HttpError(401, "Invalid token type"))
  {
    var u := users[i];
    assert lib.decode(lib.encode(AccessClaims(u, now))) == Some(AccessClaims(u, now));
    assert lib.decode(lib.encode(RefreshClaims(u, now))) == Some(RefreshClaims(u, now));
    assert lib.intOf(PyStr.NatToDecimal(u.id)) == Some(u.id);
    var k := UserIndexById(users, u.id);
    assert k.Some? && k.value == i;
  }
}
