# A Dafny model of the finance demo backend

This project models the FastAPI backend of a small finance dashboard and proves properties of the model. It covers six parts:

- **Tokens and credentials** (`security.py`). JWT access and refresh tokens are told apart by their `type` claim. Users authenticate with a bcrypt password. A `refresh_tokens` table stores, verifies and revokes the hashes of refresh tokens. The two dependencies `get_current_user` and `get_current_active_user` turn a bearer token into a user.
- **Request validation** (`schemas/__init__.py`). `UserRegisterRequest` checks field lengths, the username character set and password strength. `ChartSubscribe` bounds the interval.
- **Account endpoints** (`auth.py`). Register, login, refresh, profile, logout, change password, update profile and delete account are modelled as operations on a `Session` holding the `users` and `refresh_tokens` tables.
- **Profit listing** (`profits.py`, `get_profits`). Filtering, ordering, the offset/limit page, the page metadata, and the loop that attaches month names.
- **Chat WebSocket** (`chat.py`). Token authentication, the checks on each inbound frame, the echo of the user's message, and the word-by-word "typing" stream of the reply.
- **Chart WebSocket** (`charts.py`). Chart-type and token checks, and the module-level registries of connections, intervals, line counters and start times. Also interval updates, cleanup, the line-point index, and the pie and bar payloads.

## How the model works

There is one Dafny module per source file: `Security`, `Schemas`, `Auth`, `Profits`, `Chat` and `Charts`. They are supported by these modules:

- `Models`: the table rows.
- `Tables`: the `Session` class, its integrity invariant, and SQLite's new-rowid rule.
- `PyStr`: the Python string built-ins the code relies on.
- `Primitives`: the library calls the model does not interpret.
- `Config`: the constants.
- `Wrappers`: `Option` and `Result`.

**Library calls.** JWT encode/decode, bcrypt, SHA-256, `int()` and `EmailStr` (which rejects an address or returns its normalized form) are fields of one `Primitives.Lib` value. Every operation is therefore proved for any behaviour of those libraries. Where a property needs them to behave, it assumes so by name:
- `VerifiesOwnHashes`: a password checks against its own hash.
- `DecodesFreshTokens`: a token just issued decodes to its claims.
- `ParsesDecimals`: `int(str(n)) == n`.

**State.** State that the source changes in place is a class: `Tables.Session`, `Chat.ChatServer` and `Charts.ChartHub`. The pure checks are functions.

**Error results.** HTTP errors are `Security.HttpError(status, detail)`. A validation failure is `Security.ApiError.Unprocessable` with its list of field errors. An uncaught Python exception becomes `INTERNAL_ERROR` (500).

**Ordering of failures.** FastAPI resolves a route's dependencies before it validates query or body parameters. So on `GET /profits`, a bad bearer token gives 401 even when the query is also invalid.

**Where the code departs from its docstrings and endpoint descriptions, the model follows the code:**
- `get_current_user` answers 500, not 401, for a token whose `sub` is missing or not an integer, because `int()` raises outside any `HTTPException`.
- `logout` revokes any row with the token's hash, whoever owns it.
- `refresh` hands back the same refresh token; it does not rotate it.
- `change_password` leaves existing refresh tokens valid.
- Chart streams accept any decodable access token without looking the user up. Chat streams do look the user up (`Charts.ChatAuthImpliesChartAuth`).
- `delete_account` never looks at `confirmation`, although its docstring says it must be exactly `DELETE` (src/be/routers/auth.py:342 against 346-362); `Auth.DeleteAccount` ignores it too.
- Two logins by the same user in the same second issue identical refresh tokens. That stores two rows with one hash, and a later logout revokes only the first (`Security.RevokeLeavesDuplicateLive`).

## Model

| member | source | states |
|---|---|---|
| Tables.IndexOfFirst | src/be/core/security.py:66 | `.first()` of a filtered query: the lowest matching position, or None exactly when no row matches |
| Tables.NextUserId | src/be/models/user.py:8 | a new user id is positive and not already taken |
| Tables.NextTokenId | src/be/models/token.py:8 | a new token id is positive and not already taken |
| Tables.UserIndexById | src/be/core/security.py:94 | finds the row with that id, or None exactly when no row has it |
| Tables.Session.constructor | src/be/core/database.py:25-33 | an empty session satisfies the table invariant |
| PyStr.WordLength | src/be/routers/chat.py:157 | the leading run of non-whitespace characters: all of it non-space, followed by a space or by the end |
| PyStr.SplitYieldsWords | src/be/routers/chat.py:157 | every piece `str.split()` returns is a non-empty run without whitespace |
| PyStr.SplitSkipsSpace | src/be/routers/chat.py:157 | leading whitespace does not change `split()` |
| PyStr.SplitAppendSpace | src/be/routers/chat.py:157-163 | trailing whitespace does not change `split()` |
| PyStr.WordLengthAppend | src/be/routers/chat.py:157 | a word's length is unaffected by text that follows after whitespace |
| PyStr.SplitWordThenRest | src/be/routers/chat.py:157 | a word followed by a space splits off as exactly that word |
| PyStr.WordLengthOfWord | src/be/routers/chat.py:157 | the leading word of a word followed by whitespace is the whole word |
| PyStr.JoinFront | src/be/routers/chat.py:160-163 | joining with spaces, seen from the first word |
| PyStr.SplitJoin | src/be/routers/chat.py:157-163 | splitting a space-joined list of words gives the same words back |
| PyStr.SplitJoinSplit | src/be/routers/chat.py:157-163 | joining the words of a split and splitting again changes nothing |
| PyStr.JoinIsCollapsed | src/be/routers/chat.py:157-163 | a join of words holds whitespace only as single spaces between words |
| PyStr.JoinNonEmpty | src/be/routers/chat.py:157-163 | a join of at least one word is non-empty and starts and ends with non-whitespace |
| PyStr.LeadingSpace | src/be/routers/chat.py:116 | the length of the whitespace prefix `strip()` removes |
| PyStr.TrailingSpace | src/be/routers/chat.py:116 | the length of the whitespace suffix `strip()` removes |
| PyStr.StripEmptyIffBlank | src/be/routers/chat.py:116-117 | `strip()` is empty exactly when the text is all whitespace |
| PyStr.StripTrimsBothEnds | src/be/routers/chat.py:116 | a non-empty `strip()` starts and ends with non-whitespace |
| PyStr.Lower | src/be/routers/profits.py:57-58 | lower-casing keeps the length and folds each character |
| PyStr.TextLeTotal | src/be/routers/profits.py:64 | the code-point order on company names is total |
| PyStr.TextLeTransitive | src/be/routers/profits.py:64 | the code-point order is transitive |
| PyStr.TextLeAntisymmetric | src/be/routers/profits.py:64 | the code-point order is antisymmetric |
| PyStr.NatToDecimal | src/be/routers/auth.py:137-138 | `str(user.id)` is a non-empty string of decimal digits without a leading zero |
| Schemas.UsernameViolation | src/be/schemas/__init__.py:10-14 | a username is accepted iff its length is in [3, 30] and every character is in `[a-zA-Z0-9_]`; too short is reported first |
| Schemas.Missing | src/be/schemas/__init__.py:19-29 | exactly the character classes the password lacks |
| Schemas.ValidatePasswordStrength | src/be/schemas/__init__.py:19-29 | an accepted password is returned unchanged |
| Schemas.StrengthAcceptsAllClasses | src/be/schemas/__init__.py:19-29 | a password passes iff it has a lowercase letter, an uppercase letter, a digit and one of `@$!%*?&` |
| Schemas.StrengthReportsFirstMissing | src/be/schemas/__init__.py:21-28 | a rejection carries the message of the first missing class in the order lowercase, uppercase, digit, special |
| Schemas.PasswordViolation | src/be/schemas/__init__.py:16-29 | a password is accepted iff its length is in [8, 128] and it passes the strength rule |
| Schemas.FullNameViolation | src/be/schemas/__init__.py:17 | a full name is accepted iff absent or at most 100 characters |
| Schemas.ValidateRegisterRequest | src/be/schemas/__init__.py:9-29 | the request is valid iff all four fields are, and is then returned with its email replaced by the normalized address and every other field unchanged; otherwise 1 to 4 field errors |
| Schemas.ErrorFor | src/be/schemas/__init__.py:9-17 | a field contributes at most one error, and it names that field |
| Schemas.RanksIncreaseConcat | src/be/schemas/__init__.py:9-17 | errors of earlier fields placed before errors of later ones stay in declaration order |
| Schemas.RegisterErrorsOrdered | src/be/schemas/__init__.py:9-17 | errors name fields in declaration order, each at most once |
| Schemas.ChartSubscribeInterval | src/be/schemas/__init__.py:39-40 | an omitted interval is 2000, null is allowed, and a given interval is accepted iff in [500, 60000] |
| Security.VerifyToken | src/be/core/security.py:52-61 | the claims are returned iff the token decodes and its type equals the expected one |
| Security.TokenTypesExclusive | src/be/core/security.py:52-61 | no token verifies both as an access token and as a refresh token |
| Security.UserIndexByName | src/be/core/security.py:66 | finds the first row with that username, or None exactly when none has it |
| Security.AuthenticateUser | src/be/core/security.py:64-69 | a returned user has that username, is active and the password verifies against its hash |
| Security.AuthenticateUserIff | src/be/core/security.py:64-69 | with unique usernames, authentication succeeds iff such an active, password-matching user exists |
| Security.VerifyRefreshToken | src/be/core/security.py:79-94 | a user is returned only for a refresh-type token with a row that matches its hash, is not revoked, expires strictly after now, and belongs to that user |
| Security.VerifyRefreshTokenIff | src/be/core/security.py:79-94 | under the foreign key, a refresh-type token verifies iff it has such a live row |
| Security.NewTokenRow | src/be/core/security.py:72-75 | the stored row: this user, the token's hash, expiry from the token's `exp`, not revoked, a fresh id; none when decoding raises |
| Security.StoreRefreshToken | src/be/core/security.py:72-76 | appends exactly that one row and leaves users alone, or changes nothing when decoding raises; keeps the table invariant |
| Security.RevokeFirst | src/be/core/security.py:97-104 | succeeds iff some row has the hash; revokes only the first such row, the rest unchanged |
| Security.RevokeRefreshToken | src/be/core/security.py:97-104 | returns true and applies that revocation, or false and changes nothing |
| Security.RevokeIgnoresFlagAndExpiry | src/be/core/security.py:99-103 | a row that is already revoked or expired still makes revoke return true |
| Security.RevokeThenRefreshFails | src/be/core/security.py:79-104 | when one row carries the hash, revoking it makes refresh with that token fail |
| Security.RevokeLeavesDuplicateLive | src/be/core/security.py:87-104 | with two rows for one hash, revoke marks the first and the token still refreshes |
| Security.GetCurrentUser | src/be/core/security.py:107-119 | a returned user is in the table and active |
| Security.GetCurrentUserRejections | src/be/core/security.py:111-118 | 401 "Invalid token" when decoding fails, 401 "Invalid token type" for a non-access token, 500 for a missing or non-integer `sub`, and 401 "User not found or inactive" when no active user has the parsed id; success iff an active user has that id |
| Security.GetCurrentActiveUser | src/be/core/security.py:122-126 | agrees with `get_current_user` and never raises its 400 |
| Security.IssuedTokensAuthenticate | src/be/core/security.py:31-44 | an access token issued to an active user authenticates that user; a refresh token gets 401 "Invalid token type" |
| Auth.AddUserKeepsTablesValid | src/be/routers/auth.py:68-99 | adding a user with a new name, email and id keeps the table invariant |
| Auth.RegisterNew | src/be/routers/auth.py:68-102 | 409 "Username already registered" first, then 409 "Email already registered", each changing nothing; otherwise exactly one new active row with the password's hash |
| Auth.Register | src/be/routers/auth.py:55-102 | 422 with the field errors, then 409 "Username already registered", then 409 "Email already registered" for the normalized address; otherwise exactly one new active row holding the password's hash and the normalized address |
| Auth.RegisterThenAuthenticate | src/be/routers/auth.py:88-99 | a newly registered user logs in with the registration password |
| Auth.Login | src/be/routers/auth.py:114-153 | 400 "Incorrect username or password" with nothing stored; otherwise both tokens, one stored refresh row, `bearer` and `expires_in` 900 |
| Auth.LoginStoresOneRow | src/be/routers/auth.py:136-146 | the stored row is this user's, holds the token's hash, expires 7 days after issue and is not revoked |
| Auth.LoginThenRefresh | src/be/routers/auth.py:136-182 | the refresh token from a login verifies during its 7 days |
| Auth.Refresh | src/be/routers/auth.py:165-199 | 401 "Invalid refresh token" iff verification fails; otherwise a new access token and the same refresh token |
| Auth.CurrentUserIndex | src/be/core/security.py:107-126 | the position of the user the dependency resolves to, or its error |
| Auth.GetProfile | src/be/routers/auth.py:210-218 | the current user's public fields, or the dependency's error |
| Auth.Logout | src/be/routers/auth.py:228-247 | the dependency's error; then 400 "Invalid refresh token" iff no row has the hash; otherwise exactly the revocation, regardless of the row's owner |
| Auth.ReplaceUserKeepsTablesValid | src/be/routers/auth.py:286-318 | changing non-key fields of one user row keeps the table invariant |
| Auth.ChangePassword | src/be/routers/auth.py:259-291 | 400 "Current password is incorrect", then 400 "New password must be different from current password"; otherwise only that user's `password_hash` changes |
| Auth.ChangedPasswordAuthenticates | src/be/routers/auth.py:285-289 | after the change the user authenticates with the new password |
| Auth.UpdateProfile | src/be/routers/auth.py:302-321 | only `full_name` of the current user changes, possibly to None |
| Auth.WithoutIds | src/be/routers/auth.py:357-358 | deleting rows by id keeps every other row, none of the deleted |
| Auth.NotOwnedBy | src/be/routers/auth.py:356-362 | exactly the token rows of other users |
| Auth.OwnedBy | src/be/routers/auth.py:356 | exactly the token rows of this user |
| Auth.RemoveAt | src/be/routers/auth.py:361 | deleting one user row shortens the table by one |
| Auth.WithoutIdsTwice | src/be/routers/auth.py:357-358 | deleting ids in two steps equals deleting them at once |
| Auth.DeletingOwnedIds | src/be/routers/auth.py:356-358 | with unique ids, deleting the ids of a user's rows removes exactly that user's rows, in order |
| Auth.OwnedIdsExact | src/be/routers/auth.py:356 | a row's id is among the queried ids iff the row belongs to the user |
| Auth.RemoveAtIndex | src/be/routers/auth.py:361 | after deleting a user row, the later rows move up by one |
| Auth.RemoveAtKeepsUnique | src/be/routers/auth.py:361 | deleting a user row keeps ids, usernames and emails unique |
| Auth.RemoveAtMembers | src/be/routers/auth.py:361 | the remaining users are exactly those with a different id |
| Auth.DeleteKeepsTablesValid | src/be/routers/auth.py:356-362 | removing a user with all its tokens keeps the table invariant and every other user |
| Auth.UniqueTail | src/be/models/token.py:8 | the rows after the first keep unique ids, none equal to the first's |
| Auth.NotOwnedByUnique | src/be/models/token.py:8 | the rows kept after the delete have unique ids |
| Auth.WithoutNoIds | src/be/routers/auth.py:357-358 | deleting no ids changes nothing |
| Auth.DeleteStep | src/be/routers/auth.py:357-358 | one more loop pass deletes one more queried id |
| Auth.DeleteStart | src/be/routers/auth.py:356-357 | before the loop nothing is deleted |
| Auth.DeleteEnd | src/be/routers/auth.py:356-358 | after the loop exactly the user's rows are gone |
| Auth.DeleteTokensOf | src/be/routers/auth.py:356-358 | the loop deletes exactly the user's refresh tokens, keeping the others in order |
| Auth.DeleteAccount | src/be/routers/auth.py:333-364 | 400 "Password is incorrect" changes nothing; otherwise the user and all its tokens are gone and every other row stays; keeps the table invariant |
| Profits.QueryErrors | src/be/routers/profits.py:27-31 | no errors iff page >= 1, per_page in [1, 100], year absent or in [2020, 2030], and search absent or at most 100 characters |
| Profits.Filter | src/be/routers/profits.py:49-58 | keeps each row passing all given filters, as often as it occurs, and no other; an empty company or search restricts nothing |
| Profits.NoFilterSelectsAll | src/be/routers/profits.py:45-58 | without filters every row is selected, in table order |
| Profits.BeforeTotal | src/be/routers/profits.py:61-65 | any two rows are comparable in the listing order |
| Profits.BeforeTransitive | src/be/routers/profits.py:61-65 | the listing order is transitive |
| Profits.ConsOrdered | src/be/routers/profits.py:61-65 | a row before every row of an ordered list extends it |
| Profits.Insert | src/be/routers/profits.py:61-65 | inserting into an ordered list keeps it ordered and adds exactly that row |
| Profits.OrderRows | src/be/routers/profits.py:61-65 | the rows by year descending, month descending, company ascending, as a permutation of the input |
| Profits.TotalPages | src/be/routers/profits.py:80 | `ceil(total / per_page)`: zero iff total is zero, the least page count covering every row |
| Profits.CeilingDivision | src/be/routers/profits.py:80 | the integer form of the ceiling bounds the rows from both sides |
| Profits.PageSlice | src/be/routers/profits.py:81-87 | at most `per_page` rows, starting at offset (page - 1) * per_page; empty past the end |
| Profits.MulMonotone | src/be/routers/profits.py:80-81 | page offsets grow with the page number |
| Profits.HasNextIff | src/be/routers/profits.py:80-102 | `page < total_pages` iff `page * per_page < total` |
| Profits.PageNonEmptyIff | src/be/routers/profits.py:80-87 | a page has rows iff its number is at most `total_pages` |
| Profits.RecordOnPage | src/be/routers/profits.py:80-87 | every selected row appears on page `i / per_page + 1` at position `i % per_page` |
| Profits.ToRecord | src/be/routers/profits.py:92-93 | a record always gets a non-empty month name |
| Profits.Records | src/be/routers/profits.py:90-94 | one record per row, in order |
| Profits.PageRows | src/be/routers/profits.py:45-87 | every row of the page is a table row that passes the filters |
| Profits.PageRecordsMatch | src/be/routers/profits.py:49-58 | each returned record equals given company and year, contains the lowered search, and carries the English name of its month |
| Profits.PageRecordsOrdered | src/be/routers/profits.py:61-65 | the returned records are in the listing order |
| Profits.PageMetadata | src/be/routers/profits.py:68-103 | `total` counts the selected rows; at most `per_page` records; zero rows give zero pages; `has_next` iff more rows follow; `has_prev` iff page > 1 |
| Profits.GetProfits | src/be/routers/profits.py:24-104 | the dependency's error, then 422 with every bad parameter, otherwise exactly the page above |
| Profits.ToRecords | src/be/routers/profits.py:90-94 | the conversion loop yields one record per row, in order |
| Chat.AuthenticateWebsocket | src/be/routers/chat.py:39-67 | an absent or empty token and every failed check give None; a returned user is in the table and active |
| Chat.WebsocketAgreesWithHttp | src/be/routers/chat.py:39-67 | the socket accepts a user iff the HTTP dependency does and `sub` is non-empty |
| Chat.ReadMessage | src/be/routers/chat.py:105-121 | "Invalid JSON message" iff the frame is not JSON; "Message field is required" iff `"message" in data` is false (an object without the key, a string without the substring, an array without the element); "Message cannot be empty" iff the message is an all-whitespace string; a chat turn carries non-blank stripped text |
| Chat.ReadMessageTurn | src/be/routers/chat.py:110-121 | an object whose message has non-whitespace is a turn on its stripped text |
| Chat.DisplayName | src/be/routers/chat.py:135 | the full name when set and non-empty, otherwise the username |
| Chat.TypingFrames | src/be/routers/chat.py:155-173 | one frame per word |
| Chat.FramesGrow | src/be/routers/chat.py:160-163 | each frame extends the previous one by exactly the next word (and a space unless last) |
| Chat.FrameShowsPrefix | src/be/routers/chat.py:157-170 | frame k splits into exactly the first k + 1 words; only the last frame is complete |
| Chat.LastFrameIsWholeReply | src/be/routers/chat.py:157-170 | the last frame is complete and is the reply with whitespace runs collapsed |
| Chat.AiResponseStreams | src/be/routers/chat.py:77 | the generated reply is never blank |
| Chat.SendTypingResponse | src/be/routers/chat.py:155-179 | the loop sends exactly the typing frames of the split reply |
| Chat.AsMessages | src/be/routers/chat.py:173 | each frame is sent as one message, in order |
| Chat.RepliesStep | src/be/routers/chat.py:103-144 | one pass of the receive loop: an error reply, or the echo and the typing frames, or the end of the loop |
| Chat.ReceiveLoop | src/be/routers/chat.py:103-144 | the frames sent by the receive loop are exactly the replies to the inbox, stopping at the first frame that raises |
| Chat.TurnEndsComplete | src/be/routers/chat.py:134-170 | every turn's stream ends with one complete assistant frame |
| Chat.ChatServer.constructor | src/be/routers/chat.py:18 | no connections at start |
| Chat.ChatServer.ChatEndpoint | src/be/routers/chat.py:82-152 | an unauthenticated socket gets close 1008 and no registration; otherwise the frames sent are the replies to the inbox, stopping at the first frame that raises, and the connection is discarded at the end |
| Charts.AuthenticateChartSocket | src/be/routers/charts.py:48-64 | accepted only for a non-empty token that verifies as an access token |
| Charts.ChatAuthImpliesChartAuth | src/be/routers/charts.py:48-64 | every token the chat socket accepts also opens a chart stream; with no users only the chart stream opens |
| Charts.TruncDiv | src/be/routers/charts.py:82 | `int(a / b)` truncates toward zero |
| Charts.DivBounds | src/be/routers/charts.py:82 | the floor quotient bounds its dividend |
| Charts.MulLtCancel | src/be/routers/charts.py:82 | cancelling a positive factor in a strict inequality |
| Charts.LineIndexMonotone | src/be/routers/charts.py:80-82 | the line index never decreases as time passes |
| Charts.LineIndexAdvancesByOne | src/be/routers/charts.py:80-82 | one interval later the index is exactly one higher |
| Charts.ScaleWithin | src/be/routers/charts.py:121 | a uniform draw scaled into [0, x] stays in it |
| Charts.PieMaxBounds | src/be/routers/charts.py:118-121 | a slice's upper bound is at least 5 and leaves 5 for every slice still to come |
| Charts.Uniform | src/be/routers/charts.py:121 | `random.uniform(lo, hi)` yields a value in [lo, hi] |
| Charts.SumAppend | src/be/routers/charts.py:114-135 | appending a slice adds its value to the total |
| Charts.GeneratePieChartData | src/be/routers/charts.py:112-140 | five slices with the fixed labels and colours, each at least 5, summing to 100 before rounding |
| Charts.GenerateBarChartData | src/be/routers/charts.py:143-157 | five bars with the fixed labels and colours, each value in [20, 80] |
| Charts.ChartHub.constructor | src/be/routers/charts.py:25-38 | the three chart types start with empty sets and every map is empty |
| Charts.ChartHub.Connect | src/be/routers/charts.py:206-226 | an unknown type is closed with 1008 before accept, a failed token with 1008 after; otherwise the connection joins its type's set with interval 2000 |
| Charts.ChartHub.HandleMessage | src/be/routers/charts.py:232-262 | an interval in [500, 60000] is stored and acknowledged; others are refused with the fixed error; no reply without the field; "Invalid JSON message" for non-JSON; a raising frame ends the loop |
| Charts.ChartHub.Cleanup | src/be/routers/charts.py:271-276 | the connection leaves its set and all three per-connection maps; nothing else changes |
| Charts.ChartHub.Disconnect | src/be/routers/charts.py:187-195 | running the cleanup of both `finally` blocks equals running it once |
| Charts.ChartHub.GenerateLineChartPoint | src/be/routers/charts.py:67-85 | the first point fixes the start and gives index 0; the index is elapsed time over the interval (default 2000), truncated, and is stored as the counter |
| Charts.ChartHub.SendChartData | src/be/routers/charts.py:160-174 | one payload per known chart type and none for others; for `line`, the index and the new start time and counter of `generate_line_chart_point`; for `pie` and `bar`, the fixed labels and colours with the slice and bar bounds; only the line type touches the counters |

## Left out

- JWT signing and checking, bcrypt, SHA-256, `int()` and `EmailStr` are not interpreted: they are the abstract `Primitives.Lib`. That includes how `EmailStr` normalizes an address; the model only carries the normalized value through registration. Expiry checking inside `jwt.decode` is part of `decode`.
- Time zones: `expires_at = datetime.fromtimestamp(exp)` is local time while `verify_refresh_token` compares with `utcnow()`. The model takes the server to run on UTC, so `expires_at` equals `exp`.
- Timestamps (`created_at`, `iat`, chat `timestamp`, chart `timestamp`) are whole-second or millisecond integers passed in as `now`.
- The `HTTPBearer` scheme's own rejection of a missing or malformed `Authorization` header happens before `get_current_user` and is not modelled.
- Rate limits (slowapi), CORS, trusted hosts, header middleware and router mounting in src/be/main.py are not modelled. In particular, the profits router is not mounted there, and the model treats `get_profits` as reachable.
- Profits.OrderRows: SQLite leaves the order of rows that tie on year, month and company unspecified under `ORDER BY` with `LIMIT`/`OFFSET`; the model chooses table order for ties, so pages with ties are one admissible answer, not the only one.
- Profits.Filter: SQL `LIKE` wildcards (`%`, `_`) in `search` are modelled as plain substring containment.
- PyStr.Lower: folds ASCII letters only. That is SQLite's `lower()`, but Python's `str.lower()` on `search` also folds other letters.
- Schemas.InClass: `\d` is ASCII digits only; Python's `re` also matches other Unicode decimal digits.
- Floating point: `profit` values are reals. `total_pages` uses integer ceiling division, which equals `math.ceil(total / per_page)` for any realistic count. Chart values are exact reals, and `round(·, 2)` is left out, so the rounded pie slices need not sum to exactly 100.
- Randomness: the lorem text of a chat reply, the random pie and bar draws, and the line value are parameters. Charts.ChartHub.GenerateLineChartPoint returns only the index, not the sine-based value.
- Profit statistics, the company and year lists, `/chat/status` and `/charts/types` are not modelled: they are read-only aggregates or constant documents.
- Concurrency: the chart sender task and its `asyncio.sleep` loop, task cancellation, and the interleaving of many sockets are not modelled. Chat.ChatServer.ChatEndpoint and the chart methods run one connection at a time, and a chat connection is taken to receive its whole inbox and then disconnect.
- Chat.ReadMessage: JSON numbers carry no value, because no branch looks at one. Charts.ChartHub.HandleMessage sees a frame already classified, and a non-integer number for `interval_ms` is not modelled.
- Profits.GetProfits: `month_name[profit.month]` is modelled only for months in 1..12, the column's declared range (src/be/models/profit.py:10); the table is assumed to hold only such rows.
- Auth.Register: database uniqueness violations cannot arise, because the handler checks username and email first, so `IntegrityError` paths are not modelled.
- `UserProfileResponse` is modelled; the other response and request classes that the routers import but the schema module does not define carry only the fields their use sites show, with no constraints.
