/**
 * The `users` and `refresh_tokens` tables behind a database session: sequences of rows in
 * insertion (rowid) order, the integrity the schema declares (unique ids, unique usernames
 * and emails, every token owned by an existing user), and SQLite's rule for a new rowid.
 */
module Tables {
  import opened Wrappers
  import opened Models

  /** `.first()` of a filtered query: the lowest position whose row satisfies `p`. */
  function IndexOfFirst<T>(s: seq<T>, p: T -> bool): (r: Option<nat>)
    ensures r.Some? ==> r.value < |s| && p(s[r.value]) && forall j :: 0 <= j < r.value ==> !p(s[j])
    ensures r.None? <==> forall j :: 0 <= j < |s| ==> !p(s[j])
    decreases |s|
  {
    if s == [] then None
    else if p(s[0]) then Some(0)
    else match IndexOfFirst(s[1..], p)
      case None => None
      case Some(i) => Some(i + 1)
  }

  predicate HasUserId(users: seq<User>, id: nat)
  {
    exists u :: 0 <= u < |users| && users[u].id == id
  }

  predicate UniqueUserIds(users: seq<User>)
  {
    forall i, j :: 0 <= i < |users| && 0 <= j < |users| && users[i].id == users[j].id ==> i == j
  }

  predicate UniqueUsernames(users: seq<User>)
  {
    forall i, j :: 0 <= i < |users| && 0 <= j < |users| && users[i].username == users[j].username ==> i == j
  }

  predicate UniqueEmails(users: seq<User>)
  {
    forall i, j :: 0 <= i < |users| && 0 <= j < |users| && users[i].email == users[j].email ==> i == j
  }

  predicate UniqueTokenIds(tokens: seq<RefreshToken>)
  {
    forall i, j :: 0 <= i < |tokens| && 0 <= j < |tokens| && tokens[i].id == tokens[j].id ==> i == j
  }

  /** The `user_id` foreign key: every token row belongs to a user row. */
  predicate TokenOwnersExist(users: seq<User>, tokens: seq<RefreshToken>)
  {
    forall t :: 0 <= t < |tokens| ==> HasUserId(users, tokens[t].userId)
  }

  predicate TablesValid(users: seq<User>, tokens: seq<RefreshToken>)
  {
    && UniqueUserIds(users)
    && UniqueUsernames(users)
    && UniqueEmails(users)
    && UniqueTokenIds(tokens)
    && TokenOwnersExist(users, tokens)
  }

  function MaxUserId(users: seq<User>): (m: nat)
    ensures forall i :: 0 <= i < |users| ==> users[i].id <= m
  {
    if users == [] then 0
    else var rest := MaxUserId(users[1..]);
    if users[0].id > rest then users[0].id else rest
  }

  function MaxTokenId(tokens: seq<RefreshToken>): (m: nat)
    ensures forall i :: 0 <= i < |tokens| ==> tokens[i].id <= m
  {
    if tokens == [] then 0
    else var rest := MaxTokenId(tokens[1..]);
    if tokens[0].id > rest then tokens[0].id else rest
  }

  /** SQLite gives a new row the largest rowid in the table plus one (1 in an empty table). */
  function NextUserId(users: seq<User>): (id: nat)
    ensures id >= 1 && !HasUserId(users, id)
  {
    MaxUserId(users) + 1
  }

  function NextTokenId(tokens: seq<RefreshToken>): (id: nat)
    ensures id >= 1 && forall i :: 0 <= i < |tokens| ==> tokens[i].id != id
  {
    MaxTokenId(tokens) + 1
  }

  /** Where the user with this id sits, if anywhere. */
  function UserIndexById(users: seq<User>, id: nat): (r: Option<nat>)
    ensures r.Some? ==> r.value < |users| && users[r.value].id == id
    ensures r.None? <==> !HasUserId(users, id)
  {
    IndexOfFirst(users, (u: User) => u.id == id)
  }

  /** The session the request handlers share: one committed state of both tables. */
  class Session {
    var users: seq<User>
    var tokens: seq<RefreshToken>

    predicate Valid()
      reads this
    {
      TablesValid(users, tokens)
    }

    constructor ()
      ensures Valid() && users == [] && tokens == []
    {
      users := [];
      tokens := [];
    }
  }
}
