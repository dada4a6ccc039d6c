/**
 * The account endpoints (src/be/routers/auth.py) as operations on the session's tables:
 * register, login, refresh, profile, logout, change-password, update-profile and delete.
 * Each handler first runs the dependency `get_current_active_user` where the source
 * declares it, so its 401 comes before anything the handler does.
 */
module Auth {
  import opened Wrappers
  import opened Models
  import opened Primitives
  import opened Tables
  import opened Security
  import Schemas
  import Config

  // ---------------------------------------------------------------- request and response shapes

  datatype UserLoginRequest = UserLoginRequest(username: string, password: string)
  datatype TokenRefreshRequest = TokenRefreshRequest(refreshToken: string)
  datatype ChangePasswordRequest = ChangePasswordRequest(currentPassword: string, newPassword: string)
  datatype DeleteAccountRequest = DeleteAccountRequest(password: string, confirmation: string)
  datatype UpdateProfileRequest = UpdateProfileRequest(fullName: Option<string>)

  datatype UserOut = UserOut(id: nat, username: string, email: string, fullName: Option<string>, createdAt: int, isActive: bool)

  /** `UserProfileResponse`: the profile endpoints wrap the user. */
  datatype UserProfileResponse = UserProfileResponse(user: UserOut)

  datatype TokenResponse = TokenResponse(accessToken: string, refreshToken: string, tokenType: string, expiresIn: int)

  function ToOut(u: User): UserOut
  {
    UserOut(u.id, u.username, u.email, u.fullName, u.createdAt, u.isActive)
  }

  /** `expires_in` reports the access-token lifetime in seconds. */
  const EXPIRES_IN: int := Config.ACCESS_TOKEN_EXPIRE_MINUTES * 60

  // ---------------------------------------------------------------- register

  predicate UsernameTaken(users: seq<User>, username: string)
  {
    exists i :: 0 <= i < |users| && users[i].username == username
  }

  predicate EmailTaken(users: seq<User>, email: string)
  {
    exists i :: 0 <= i < |users| && users[i].email == email
  }

  /** The row `register` inserts: the next rowid, the bcrypt hash of the password, active. */
  function NewUser(lib: Lib, users: seq<User>, req: Schemas.UserRegisterRequest, now: int): User
  {
    User(NextUserId(users), req.username, req.email, lib.hashPassword(req.password), req.fullName, now, true)
  }

  /** Appending a user whose name, email and id are all new keeps the tables valid. */
  lemma AddUserKeepsTablesValid(users: seq<User>, tokens: seq<RefreshToken>, u: User)
    requires TablesValid(users, tokens)
    requires !UsernameTaken(users, u.username) && !EmailTaken(users, u.email) && !HasUserId(users, u.id)
    ensures TablesValid(users + [u], tokens)
  {
    var after := users + [u];
    forall t | 0 <= t < |tokens| ensures HasUserId(after, tokens[t].userId) {
      var k :| 0 <= k < |users| && users[k].id == tokens[t].userId;
      assert after[k] == users[k];
    }
  }

  /** The body of `register` once the request has parsed: 409 for a taken username (checked first), then for a taken email. */
  method RegisterNew(db: Session, lib: Lib, req: Schemas.UserRegisterRequest, now: int) returns (r: Result<UserOut, HttpError>)
    requires db.Valid()
    modifies db
    ensures db.Valid() && db.tokens == old(db.tokens)
    ensures UsernameTaken(old(db.users), req.username) ==> r == Failure(HttpError(409, "Username already registered"))
    ensures !UsernameTaken(old(db.users), req.username) && EmailTaken(old(db.users), req.email) ==>
      r == Failure(HttpError(409, "Email already registered"))
    ensures r.Success? <==> !UsernameTaken(old(db.users), req.username) && !EmailTaken(old(db.users), req.email)
    ensures r.Failure? ==> db.users == old(db.users)
    ensures r.Success? ==>
      var u := NewUser(lib, old(db.users), req, now);
      db.users == old(db.users) + [u] && r.value == ToOut(u)
  {
    var byName := UserIndexByName(db.users, req.username);
    if byName.Some? {
      return Failure(HttpError(409, "Username already registered"));
    }
    var byEmail := IndexOfFirst(db.users, (u: User) => u.email == req.email);
    if byEmail.Some? {
      return Failure(HttpError(409, "Email already registered"));
    }
    var user := NewUser(lib, db.users, req, now);
    AddUserKeepsTablesValid(db.users, db.tokens, user);
    db.users := db.users + [user];
    r := Success(ToOut(user));
  }

  /**
   * `register`: 422 on an invalid body, before any lookup; then the checks and the insert above,
   * run on the parsed request, whose email is the address `EmailStr` normalized it to.
   */
  method Register(db: Session, lib: Lib, req: Schemas.UserRegisterRequest, now: int) returns (r: Result<UserOut, ApiError>)
    requires db.Valid()
    modifies db
    ensures db.Valid() && db.tokens == old(db.tokens)
    ensures var v := Schemas.ValidateRegisterRequest(lib, req);
      && (v.Failure? ==> r == Failure(Unprocessable(v.error)))
      && (v.Success? && UsernameTaken(old(db.users), req.username) ==>
            r == Failure(Http(HttpError(409, "Username already registered"))))
      && (v.Success? && !UsernameTaken(old(db.users), req.username) && EmailTaken(old(db.users), v.value.email) ==>
            r == Failure(Http(HttpError(409, "Email already registered"))))
      && (r.Success? <==> v.Success? && !UsernameTaken(old(db.users), req.username) && !EmailTaken(old(db.users), v.value.email))
    ensures r.Failure? ==> db.users == old(db.users)
    ensures r.Success? ==>
      var v := Schemas.ValidateRegisterRequest(lib, req);
      && v.Success?
      && var u := NewUser(lib, old(db.users), v.value, now);
      && u.email == lib.normalizeEmail(req.email).value
      && db.users == old(db.users) + [u] && r.value == ToOut(u)
  {
    var v := Schemas.ValidateRegisterRequest(lib, req);
    if v.Failure? {
      return Failure(Unprocessable(v.error));
    }
    var out := RegisterNew(db, lib, v.value, now);
    match out {
      case Failure(e) => r := Failure(Http(e));
      case Success(user) => r := Success(user);
    }
  }

  /** A newly registered user can log in with the password given at registration. */
  lemma RegisterThenAuthenticate(lib: Lib, users: seq<User>, req: Schemas.UserRegisterRequest, now: int)
    requires VerifiesOwnHashes(lib)
    requires !UsernameTaken(users, req.username)
    ensures var u := NewUser(lib, users, req, now);
      AuthenticateUser(lib, users + [u], req.username, req.password) == Some(u)
  {
    var u := NewUser(lib, users, req, now);
    var after := users + [u];
    assert after[|users|] == u;
    assert forall j :: 0 <= j < |users| ==> after[j].username != req.username;
    var k := UserIndexByName(after, req.username);
    assert k == Some(|users|);
    assert lib.verifyPassword(req.password, lib.hashPassword(req.password));
  }

  // ---------------------------------------------------------------- login and refresh

  /** `login`: authenticate, issue both tokens, store the refresh token, report `expires_in`. */
  method Login(db: Session, lib: Lib, req: UserLoginRequest, now: int) returns (r: Result<TokenResponse, HttpError>)
    requires db.Valid()
    modifies db
    ensures db.Valid() && db.users == old(db.users)
    ensures var u := AuthenticateUser(lib, old(db.users), req.username, req.password);
      && (u.None? ==> r == Failure(HttpError(400, "Incorrect username or password")) && db.tokens == old(db.tokens))
      && (u.Some? ==>
            var refresh := CreateRefreshToken(lib, u.value, now);
            var row := NewTokenRow(lib, old(db.tokens), u.value.id, refresh, now);
            && (row.None? ==> r == Failure(INTERNAL_ERROR) && db.tokens == old(db.tokens))
            && (row.Some? ==>
                  && db.tokens == old(db.tokens) + [row.value]
                  && r == Success(TokenResponse(CreateAccessToken(lib, u.value, now), refresh, "bearer", EXPIRES_IN))))
  {
    var user := AuthenticateUser(lib, db.users, req.username, req.password);
    if user.None? {
      return Failure(HttpError(400, "Incorrect username or password"));
    }
    var u := user.value;
    var k :| 0 <= k < |db.users| && db.users[k] == u;
    assert HasUserId(db.users, u.id);
    var accessToken := CreateAccessToken(lib, u, now);
    var refreshToken := CreateRefreshToken(lib, u, now);
    var stored := StoreRefreshToken(db, lib, u.id, refreshToken, now);
    if !stored {
      return Failure(INTERNAL_ERROR);
    }
    r := Success(TokenResponse(accessToken, refreshToken, "bearer", EXPIRES_IN));
  }

  /** With a decodable fresh token, login stores exactly one row: the user, the token's hash, its 7-day expiry, not revoked. */
  lemma LoginStoresOneRow(lib: Lib, tokens: seq<RefreshToken>, u: User, now: int)
    requires DecodesFreshTokens(lib)
    ensures var refresh := CreateRefreshToken(lib, u, now);
      var row := NewTokenRow(lib, tokens, u.id, refresh, now);
      && row.Some?
      && row.value == RefreshToken(NextTokenId(tokens), u.id, lib.hashToken(refresh),
                                   now + Config.REFRESH_TOKEN_SECONDS, now, false)
      && EXPIRES_IN == 900
  {
    assert lib.decode(lib.encode(RefreshClaims(u, now))) == Some(RefreshClaims(u, now));
  }

  /** The refresh token a login stores is accepted by `verify_refresh_token` for the rest of its seven days. */
  lemma LoginThenRefresh(lib: Lib, users: seq<User>, tokens: seq<RefreshToken>, u: User, now: int, later: int)
    requires DecodesFreshTokens(lib)
    requires TokenOwnersExist(users, tokens) && u in users
    requires now <= later < now + Config.REFRESH_TOKEN_SECONDS
    ensures var refresh := CreateRefreshToken(lib, u, now);
      var row := NewTokenRow(lib, tokens, u.id, refresh, now);
      row.Some? && VerifyRefreshToken(lib, users, tokens + [row.value], refresh, later).Some?
  {
    var refresh := CreateRefreshToken(lib, u, now);
    LoginStoresOneRow(lib, tokens, u, now);
    var row := NewTokenRow(lib, tokens, u.id, refresh, now).value;
    var after := tokens + [row];
    assert TokenOwnersExist(users, after) by {
      var k :| 0 <= k < |users| && users[k] == u;
      forall t | 0 <= t < |after| ensures HasUserId(users, after[t].userId) {
        if t < |tokens| { assert after[t] == tokens[t]; } else { assert users[k].id == after[t].userId; }
      }
    }
    assert LiveRow(after[|tokens|], lib.hashToken(refresh), later);
    VerifyRefreshTokenIff(lib, users, after, refresh, later);
  }

  /** `refresh_token`: a new access token; the refresh token given is handed back unchanged, never rotated. */
  method Refresh(db: Session, lib: Lib, req: TokenRefreshRequest, now: int) returns (r: Result<TokenResponse, HttpError>)
    ensures var u := VerifyRefreshToken(lib, db.users, db.tokens, req.refreshToken, now);
      && (u.None? ==> r == Failure(HttpError(401, "Invalid refresh token")))
      && (u.Some? ==> r == Success(TokenResponse(CreateAccessToken(lib, u.value, now), req.refreshToken, "bearer", EXPIRES_IN)))
    ensures r.Success? ==> r.value.refreshToken == req.refreshToken && r.value.expiresIn == 900
  {
    var user := VerifyRefreshToken(lib, db.users, db.tokens, req.refreshToken, now);
    if user.None? {
      return Failure(HttpError(401, "Invalid refresh token"));
    }
    var accessToken := CreateAccessToken(lib, user.value, now);
    r := Success(TokenResponse(accessToken, req.refreshToken, "bearer", EXPIRES_IN));
  }

  // ---------------------------------------------------------------- the current user's row

  /** Position of the user `get_current_active_user` resolves the access token to. */
  method CurrentUserIndex(db: Session, lib: Lib, accessToken: string) returns (r: Result<nat, HttpError>)
    requires db.Valid()
    ensures var cur := GetCurrentActiveUser(lib, db.users, accessToken);
      && (cur.Failure? ==> r == Failure(cur.error))
      && (cur.Success? ==> r.Success? && r.value < |db.users| && db.users[r.value] == cur.value)
  {
    var cur := GetCurrentActiveUser(lib, db.users, accessToken);
    if cur.Failure? {
      return Failure(cur.error);
    }
    var u := cur.value;
    var k :| 0 <= k < |db.users| && db.users[k] == u;
    var i := UserIndexById(db.users, u.id);
    assert i.Some? && i.value == k;
    r := Success(i.value);
  }

  /** `get_profile`: the current user's public fields. */
  method GetProfile(db: Session, lib: Lib, accessToken: string) returns (r: Result<UserProfileResponse, HttpError>)
    requires db.Valid()
    ensures var cur := GetCurrentActiveUser(lib, db.users, accessToken);
      && (cur.Failure? ==> r == Failure(cur.error))
      && (cur.Success? ==> r == Success(UserProfileResponse(ToOut(cur.value))))
  {
    var cur := GetCurrentActiveUser(lib, db.users, accessToken);
    if cur.Failure? {
      return Failure(cur.error);
    }
    r := Success(UserProfileResponse(ToOut(cur.value)));
  }

  // ---------------------------------------------------------------- logout

  /**
   * `logout`: 400 exactly when no row has the token's hash. The outcome depends on the
   * token alone: the row revoked need not belong to the user who is logged in.
   */
  method Logout(db: Session, lib: Lib, accessToken: string, req: TokenRefreshRequest) returns (r: Result<string, HttpError>)
    requires db.Valid()
    modifies db
    ensures db.Valid() && db.users == old(db.users)
    ensures var cur := GetCurrentActiveUser(lib, old(db.users), accessToken);
      var revoked := RevokeFirst(old(db.tokens), lib.hashToken(req.refreshToken));
      && (cur.Failure? ==> r == Failure(cur.error) && db.tokens == old(db.tokens))
      && (cur.Success? && revoked.None? ==> r == Failure(HttpError(400, "Invalid refresh token")) && db.tokens == old(db.tokens))
      && (cur.Success? && revoked.Some? ==> r == Success("Successfully logged out") && db.tokens == revoked.value)
  {
    var cur := GetCurrentActiveUser(lib, db.users, accessToken);
    if cur.Failure? {
      return Failure(cur.error);
    }
    var ok := RevokeRefreshToken(db, lib, req.refreshToken);
    if !ok {
      return Failure(HttpError(400, "Invalid refresh token"));
    }
    r := Success("Successfully logged out");
  }

  // ---------------------------------------------------------------- change password and profile

  /** Changing only non-key fields of a row keeps the tables valid. */
  lemma ReplaceUserKeepsTablesValid(users: seq<User>, tokens: seq<RefreshToken>, i: nat, u: User)
    requires TablesValid(users, tokens) && i < |users|
    requires u.id == users[i].id && u.username == users[i].username && u.email == users[i].email
    ensures TablesValid(users[i := u], tokens)
  {
    var after := users[i := u];
    forall t | 0 <= t < |tokens| ensures HasUserId(after, tokens[t].userId) {
      var k :| 0 <= k < |users| && users[k].id == tokens[t].userId;
      assert after[k].id == users[k].id;
    }
  }

  /**
   * `change_password`: rejects a wrong current password, then a new password that the
   * current hash accepts; otherwise replaces only `password_hash`.
   */
  method ChangePassword(db: Session, lib: Lib, accessToken: string, req: ChangePasswordRequest) returns (r: Result<string, HttpError>)
    requires db.Valid()
    modifies db
    ensures db.Valid() && db.tokens == old(db.tokens)
    ensures var cur := GetCurrentActiveUser(lib, old(db.users), accessToken);
      && (cur.Failure? ==> r == Failure(cur.error) && db.users == old(db.users))
      && (cur.Success? && !lib.verifyPassword(req.currentPassword, cur.value.passwordHash) ==>
            r == Failure(HttpError(400, "Current password is incorrect")) && db.users == old(db.users))
      && (cur.Success? && lib.verifyPassword(req.currentPassword, cur.value.passwordHash)
            && lib.verifyPassword(req.newPassword, cur.value.passwordHash) ==>
            r == Failure(HttpError(400, "New password must be different from current password")) && db.users == old(db.users))
      && (r.Success? <==> (cur.Success? && lib.verifyPassword(req.currentPassword, cur.value.passwordHash)
                            && !lib.verifyPassword(req.newPassword, cur.value.passwordHash)))
    ensures r.Success? ==> r.value == "Password changed successfully" && exists i ::
      && 0 <= i < |old(db.users)| && old(db.users)[i] == GetCurrentActiveUser(lib, old(db.users), accessToken).value
      && db.users == old(db.users)[i := old(db.users)[i].(passwordHash := lib.hashPassword(req.newPassword))]
  {
    var idx := CurrentUserIndex(db, lib, accessToken);
    if idx.Failure? {
      return Failure(idx.error);
    }
    var i := idx.value;
    var user := db.users[i];
    if !lib.verifyPassword(req.currentPassword, user.passwordHash) {
      return Failure(HttpError(400, "Current password is incorrect"));
    }
    if lib.verifyPassword(req.newPassword, user.passwordHash) {
      return Failure(HttpError(400, "New password must be different from current password"));
    }
    var updated := user.(passwordHash := lib.hashPassword(req.newPassword));
    ReplaceUserKeepsTablesValid(db.users, db.tokens, i, updated);
    db.users := db.users[i := updated];
    r := Success("Password changed successfully");
  }

  /** After a password change the user authenticates with the new password. */
  lemma ChangedPasswordAuthenticates(lib: Lib, users: seq<User>, i: nat, newPassword: string)
    requires VerifiesOwnHashes(lib) && UniqueUsernames(users)
    requires i < |users| && users[i].isActive
    ensures var after := users[i := users[i].(passwordHash := lib.hashPassword(newPassword))];
      AuthenticateUser(lib, after, users[i].username, newPassword) == Some(after[i])
  {
    var after := users[i := users[i].(passwordHash := lib.hashPassword(newPassword))];
    var k := UserIndexByName(after, users[i].username);
    assert after[i].username == users[i].username;
    assert k.Some?;
    assert users[k.value].username == users[i].username;
    assert k.value == i;
    assert lib.verifyPassword(newPassword, lib.hashPassword(newPassword));
  }

  /** `update_profile`: sets `full_name` (possibly to None) and leaves every other field alone. */
  method UpdateProfile(db: Session, lib: Lib, accessToken: string, req: UpdateProfileRequest) returns (r: Result<UserProfileResponse, HttpError>)
    requires db.Valid()
    modifies db
    ensures db.Valid() && db.tokens == old(db.tokens)
    ensures var cur := GetCurrentActiveUser(lib, old(db.users), accessToken);
      && (cur.Failure? ==> r == Failure(cur.error) && db.users == old(db.users))
      && (cur.Success? ==> r.Success? && exists i ::
            && 0 <= i < |old(db.users)| && old(db.users)[i] == cur.value
            && db.users == old(db.users)[i := cur.value.(fullName := req.fullName)]
            && r.value == UserProfileResponse(ToOut(db.users[i])))
  {
    var idx := CurrentUserIndex(db, lib, accessToken);
    if idx.Failure? {
      return Failure(idx.error);
    }
    var i := idx.value;
    var updated := db.users[i].(fullName := req.fullName);
    ReplaceUserKeepsTablesValid(db.users, db.tokens, i, updated);
    db.users := db.users[i := updated];
    r := Success(UserProfileResponse(ToOut(updated)));
  }

  // ---------------------------------------------------------------- delete account

  /** The rows whose id is not in `ids`, in order. */
  function WithoutIds(tokens: seq<RefreshToken>, ids: set<nat>): (r: seq<RefreshToken>)
    ensures |r| <= |tokens|
    ensures forall t :: t in r <==> t in tokens && t.id !in ids
  {
    if tokens == [] then []
    else (if tokens[0].id in ids then [] else [tokens[0]]) + WithoutIds(tokens[1..], ids)
  }

  /** The rows not owned by `userId`, in order: what cascading the delete leaves. */
  function NotOwnedBy(tokens: seq<RefreshToken>, userId: nat): (r: seq<RefreshToken>)
    ensures forall t :: t in r <==> t in tokens && t.userId != userId
  {
    if tokens == [] then []
    else (if tokens[0].userId == userId then [] else [tokens[0]]) + NotOwnedBy(tokens[1..], userId)
  }

  /** The query `select(RefreshToken).where(user_id == userId).all()`. */
  function OwnedBy(tokens: seq<RefreshToken>, userId: nat): (r: seq<RefreshToken>)
    ensures forall t :: t in r <==> t in tokens && t.userId == userId
  {
    if tokens == [] then []
    else (if tokens[0].userId == userId then [tokens[0]] else []) + OwnedBy(tokens[1..], userId)
  }

  function IdsOf(rows: seq<RefreshToken>): set<nat>
  {
    set t | t in rows :: t.id
  }

  lemma {:induction false} WithoutIdsTwice(tokens: seq<RefreshToken>, a: set<nat>, b: set<nat>)
    ensures WithoutIds(WithoutIds(tokens, a), b) == WithoutIds(tokens, a + b)
    decreases |tokens|
  {
    if tokens != [] {
      WithoutIdsTwice(tokens[1..], a, b);
      var rest := WithoutIds(tokens[1..], a);
      if tokens[0].id in a {
        assert WithoutIds(tokens, a) == rest;
      } else {
        assert WithoutIds(tokens, a) == [tokens[0]] + rest;
        assert ([tokens[0]] + rest)[1..] == rest;
      }
    }
  }

  /** With unique token ids, deleting the ids of a user's rows removes exactly that user's rows. */
  lemma {:induction false} DeletingOwnedIds(tokens: seq<RefreshToken>, ids: set<nat>, userId: nat)
    requires UniqueTokenIds(tokens)
    requires forall t :: t in tokens ==> (t.id in ids <==> t.userId == userId)
    ensures WithoutIds(tokens, ids) == NotOwnedBy(tokens, userId)
    decreases |tokens|
  {
    if tokens != [] {
      UniqueTail(tokens);
      DeletingOwnedIds(tokens[1..], ids, userId);
    }
  }

  lemma OwnedIdsExact(tokens: seq<RefreshToken>, userId: nat)
    requires UniqueTokenIds(tokens)
    ensures forall t :: t in tokens ==> (t.id in IdsOf(OwnedBy(tokens, userId)) <==> t.userId == userId)
  {
    forall t | t in tokens && t.id in IdsOf(OwnedBy(tokens, userId)) ensures t.userId == userId {
      var s :| s in OwnedBy(tokens, userId) && s.id == t.id;
      var i :| 0 <= i < |tokens| && tokens[i] == t;
      var j :| 0 <= j < |tokens| && tokens[j] == s;
      assert i == j;
    }
  }

  /** The users without the one at position `i`. */
  function RemoveAt(users: seq<User>, i: nat): (r: seq<User>)
    requires i < |users|
    ensures |r| == |users| - 1
  {
    users[..i] + users[i + 1..]
  }

  /** Position `k` of the shortened table holds the row that sat at `k` or `k + 1`. */
  lemma RemoveAtIndex(users: seq<User>, i: nat)
    requires i < |users|
    ensures forall k :: 0 <= k < |RemoveAt(users, i)| ==>
      RemoveAt(users, i)[k] == users[if k < i then k else k + 1]
  {
  }

  /** Removing a user row keeps ids, usernames and emails unique. */
  lemma RemoveAtKeepsUnique(users: seq<User>, i: nat)
    requires i < |users| && UniqueUserIds(users) && UniqueUsernames(users) && UniqueEmails(users)
    ensures var after := RemoveAt(users, i);
      UniqueUserIds(after) && UniqueUsernames(after) && UniqueEmails(after)
  {
    var after := RemoveAt(users, i);
    RemoveAtIndex(users, i);
    forall a, b | 0 <= a < |after| && 0 <= b < |after| && after[a].id == after[b].id ensures a == b {
      assert users[if a < i then a else a + 1].id == users[if b < i then b else b + 1].id;
    }
    forall a, b | 0 <= a < |after| && 0 <= b < |after| && after[a].username == after[b].username ensures a == b {
      assert users[if a < i then a else a + 1].username == users[if b < i then b else b + 1].username;
    }
    forall a, b | 0 <= a < |after| && 0 <= b < |after| && after[a].email == after[b].email ensures a == b {
      assert users[if a < i then a else a + 1].email == users[if b < i then b else b + 1].email;
    }
  }

  /** The rows left after removing position `i` are the other users, identified by id. */
  lemma RemoveAtMembers(users: seq<User>, i: nat)
    requires i < |users| && UniqueUserIds(users)
    ensures forall u :: u in RemoveAt(users, i) <==> u in users && u.id != users[i].id
  {
    var after := RemoveAt(users, i);
    RemoveAtIndex(users, i);
    forall u | u in after ensures u in users && u.id != users[i].id {
      var k :| 0 <= k < |after| && after[k] == u;
      var j := if k < i then k else k + 1;
      assert users[j] == u && j != i;
    }
    forall u | u in users && u.id != users[i].id ensures u in after {
      var k :| 0 <= k < |users| && users[k] == u;
      if k < i { assert after[k] == u; } else { assert after[k - 1] == u; }
    }
  }

  /** Deleting a user together with every token it owns keeps the tables valid and the other rows intact. */
  lemma DeleteKeepsTablesValid(users: seq<User>, tokens: seq<RefreshToken>, i: nat)
    requires TablesValid(users, tokens) && i < |users|
    ensures TablesValid(RemoveAt(users, i), NotOwnedBy(tokens, users[i].id))
    ensures forall u :: u in RemoveAt(users, i) <==> u in users && u.id != users[i].id
  {
    var after := RemoveAt(users, i);
    var kept := NotOwnedBy(tokens, users[i].id);
    RemoveAtKeepsUnique(users, i);
    RemoveAtMembers(users, i);
    forall t | 0 <= t < |kept| ensures HasUserId(after, kept[t].userId) {
      assert kept[t] in tokens;
      var s :| 0 <= s < |tokens| && tokens[s] == kept[t];
      var k :| 0 <= k < |users| && users[k].id == tokens[s].userId;
      assert users[k] in after;
      var m :| 0 <= m < |after| && after[m] == users[k];
    }
    NotOwnedByUnique(tokens, users[i].id);
  }

  lemma UniqueTail(tokens: seq<RefreshToken>)
    requires tokens != [] && UniqueTokenIds(tokens)
    ensures UniqueTokenIds(tokens[1..])
    ensures forall t :: t in tokens[1..] ==> t.id != tokens[0].id
  {
    forall i, j | 0 <= i < |tokens[1..]| && 0 <= j < |tokens[1..]| && tokens[1..][i].id == tokens[1..][j].id
      ensures i == j
    {
      assert tokens[i + 1].id == tokens[j + 1].id;
    }
    forall t | t in tokens[1..] ensures t.id != tokens[0].id {
      var s :| 0 <= s < |tokens[1..]| && tokens[1..][s] == t;
      assert tokens[s + 1] == t;
    }
  }

  /** Filtering a table with unique token ids leaves the ids unique. */
  lemma {:induction false} NotOwnedByUnique(tokens: seq<RefreshToken>, userId: nat)
    requires UniqueTokenIds(tokens)
    ensures UniqueTokenIds(NotOwnedBy(tokens, userId))
    decreases |tokens|
  {
    if tokens != [] {
      UniqueTail(tokens);
      NotOwnedByUnique(tokens[1..], userId);
      var rest := NotOwnedBy(tokens[1..], userId);
      if tokens[0].userId != userId {
        var r := [tokens[0]] + rest;
        forall a, b | 0 <= a < |r| && 0 <= b < |r| && r[a].id == r[b].id ensures a == b {
          if a > 0 { assert r[a] == rest[a - 1] && rest[a - 1] in tokens[1..]; }
          if b > 0 { assert r[b] == rest[b - 1] && rest[b - 1] in tokens[1..]; }
          if a > 0 && b > 0 { assert rest[a - 1].id == rest[b - 1].id; }
        }
      }
    }
  }

  lemma {:induction false} WithoutNoIds(tokens: seq<RefreshToken>)
    ensures WithoutIds(tokens, {}) == tokens
    decreases |tokens|
  {
    if tokens != [] {
      WithoutNoIds(tokens[1..]);
    }
  }

  lemma DeleteStep(tokens0: seq<RefreshToken>, owned: seq<RefreshToken>, k: nat)
    requires k < |owned|
    ensures WithoutIds(WithoutIds(tokens0, IdsOf(owned[..k])), {owned[k].id}) == WithoutIds(tokens0, IdsOf(owned[..k + 1]))
  {
    WithoutIdsTwice(tokens0, IdsOf(owned[..k]), {owned[k].id});
    assert owned[..k + 1] == owned[..k] + [owned[k]];
    assert IdsOf(owned[..k + 1]) == IdsOf(owned[..k]) + {owned[k].id};
  }

  lemma DeleteStart(tokens0: seq<RefreshToken>, owned: seq<RefreshToken>)
    ensures WithoutIds(tokens0, IdsOf(owned[..0])) == tokens0
  {
    WithoutNoIds(tokens0);
    assert IdsOf(owned[..0]) == {};
  }

  lemma DeleteEnd(tokens0: seq<RefreshToken>, userId: nat)
    requires UniqueTokenIds(tokens0)
    ensures var owned := OwnedBy(tokens0, userId);
      WithoutIds(tokens0, IdsOf(owned[..|owned|])) == NotOwnedBy(tokens0, userId)
  {
    var owned := OwnedBy(tokens0, userId);
    assert owned[..|owned|] == owned;
    OwnedIdsExact(tokens0, userId);
    DeletingOwnedIds(tokens0, IdsOf(owned), userId);
  }

  /** The loop of `delete_account`: deletes, one row at a time, each token the query returns for the user. */
  method DeleteTokensOf(db: Session, userId: nat)
    requires UniqueTokenIds(db.tokens)
    modifies db
    ensures db.users == old(db.users)
    ensures db.tokens == NotOwnedBy(old(db.tokens), userId)
  {
    ghost var tokens0 := db.tokens;
    var owned := OwnedBy(db.tokens, userId);
    var k := 0;
    DeleteStart(tokens0, owned);
    while k < |owned|
      invariant 0 <= k <= |owned|
      invariant db.users == old(db.users)
      invariant db.tokens == WithoutIds(tokens0, IdsOf(owned[..k]))
    {
      DeleteStep(tokens0, owned, k);
      db.tokens := WithoutIds(db.tokens, {owned[k].id});
      k := k + 1;
    }
    DeleteEnd(tokens0, userId);
  }

  /**
   * `delete_account`: a wrong password changes nothing; otherwise every refresh token of the
   * user is deleted and then the user, leaving all other rows as they were.
   */
  method DeleteAccount(db: Session, lib: Lib, accessToken: string, req: DeleteAccountRequest) returns (r: Result<string, HttpError>)
    requires db.Valid()
    modifies db
    ensures db.Valid()
    ensures var cur := GetCurrentActiveUser(lib, old(db.users), accessToken);
      && (cur.Failure? ==> r == Failure(cur.error) && db.users == old(db.users) && db.tokens == old(db.tokens))
      && (cur.Success? && !lib.verifyPassword(req.password, cur.value.passwordHash) ==>
            r == Failure(HttpError(400, "Password is incorrect")) && db.users == old(db.users) && db.tokens == old(db.tokens))
      && (r.Success? <==> cur.Success? && lib.verifyPassword(req.password, cur.value.passwordHash))
      && (r.Success? ==>
            && r.value == "Account deleted successfully"
            && db.tokens == NotOwnedBy(old(db.tokens), cur.value.id)
            && exists i :: 0 <= i < |old(db.users)| && old(db.users)[i] == cur.value && db.users == RemoveAt(old(db.users), i))
  {
    var idx := CurrentUserIndex(db, lib, accessToken);
    if idx.Failure? {
      return Failure(idx.error);
    }
    var i := idx.value;
    var user := db.users[i];
    if !lib.verifyPassword(req.password, user.passwordHash) {
      return Failure(HttpError(400, "Password is incorrect"));
    }
    ghost var users0, tokens0 := db.users, db.tokens;
    DeleteTokensOf(db, user.id);
    DeleteKeepsTablesValid(users0, tokens0, i);
    db.users := RemoveAt(db.users, i);
    r := Success("Account deleted successfully");
  }
}
