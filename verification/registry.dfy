/** The relay server's in-memory user registry (`users`, a JavaScript Map from
    username to user record) and the two HTTP endpoints that read and extend it.

    A JavaScript Map iterates in insertion order and `set` on an existing key
    keeps the key's position, so the registry is kept here as the sequence of
    its records in that order. The server always stores a record under its own
    `username`, so the key of every entry is the `username` of its record. */
module Registry {
  import opened Options

  type Username = string
  /** A uuid v4 string; generation is outside the model and fresh ids are inputs. */
  type UserId = string
  /** A Socket.IO socket id. */
  type ConnId = string

  /** `{id, username, online, socketId}`; `socketId: None` is JavaScript `null`. */
  datatype User = User(id: UserId, username: Username, online: bool, socketId: Option<ConnId>)

  /** The public projection `{username, online}` of a record, used by both user lists. */
  datatype Presence = Presence(username: Username, online: bool)

  type Users = seq<User>

  /** `users.has(name)` */
  predicate Has(users: Users, name: Username)
  {
    exists i :: 0 <= i < |users| && users[i].username == name
  }

  /** Position `i` holds the first record named `name`. */
  predicate FirstMatch(users: Users, name: Username, i: nat)
  {
    && i < |users|
    && users[i].username == name
    && forall j :: 0 <= j < i ==> users[j].username != name
  }

  /** The first position at or after `k` holding a record named `name`. */
  function IndexFrom(users: Users, name: Username, k: nat): (r: Option<nat>)
    requires k <= |users|
    ensures r.Some? ==> k <= r.value < |users| && users[r.value].username == name
    ensures r.Some? ==> forall j :: k <= j < r.value ==> users[j].username != name
    ensures r.None? ==> forall j :: k <= j < |users| ==> users[j].username != name
    decreases |users| - k
  {
    if k == |users| then None
    else if users[k].username == name then Some(k)
    else IndexFrom(users, name, k + 1)
  }

  /** The position a lookup by name finds, scanning in insertion order. */
  function IndexOf(users: Users, name: Username): (r: Option<nat>)
    ensures r.Some? ==> FirstMatch(users, name, r.value)
    ensures r.None? <==> !Has(users, name)
  {
    IndexFrom(users, name, 0)
  }

  lemma FirstMatchIsIndexOf(users: Users, name: Username, i: nat)
    requires FirstMatch(users, name, i)
    ensures IndexOf(users, name) == Some(i)
  {
  }

  /** `users.get(name)`, and equally `Array.from(users.values()).find(u => u.username === name)`. */
  function Lookup(users: Users, name: Username): (r: Option<User>)
    ensures r.Some? <==> Has(users, name)
    ensures r.Some? ==> r.value.username == name
    ensures r.Some? ==> exists i: nat :: FirstMatch(users, name, i) && r.value == users[i]
  {
    match IndexOf(users, name)
    case None => None
    case Some(i) => Some(users[i])
  }

  /** No two records share a username. */
  predicate Unique(users: Users)
  {
    forall i, j :: 0 <= i < j < |users| ==> users[i].username != users[j].username
  }

  /** A record is online exactly when it holds a socket id. */
  predicate PresenceConsistent(users: Users)
  {
    forall i :: 0 <= i < |users| ==> (users[i].online <==> users[i].socketId.Some?)
  }

  /** No record has the empty username (registration refuses it). */
  predicate NamesNonEmpty(users: Users)
  {
    forall i :: 0 <= i < |users| ==> users[i].username != ""
  }

  predicate Valid(users: Users)
  {
    Unique(users) && PresenceConsistent(users) && NamesNonEmpty(users)
  }

  /** The registered usernames in insertion order. */
  function Names(users: Users): (r: seq<Username>)
    ensures |r| == |users|
    ensures forall i :: 0 <= i < |users| ==> r[i] == users[i].username
  {
    seq(|users|, i requires 0 <= i < |users| => users[i].username)
  }

  lemma UniqueNamesAreDistinct(users: Users)
    requires Unique(users)
    ensures forall i, j :: 0 <= i < j < |users| ==> Names(users)[i] != Names(users)[j]
  {
  }

  /** With unique names, looking up the name of any record finds that record. */
  lemma LookupFindsRecord(users: Users, i: nat)
    requires Unique(users)
    requires i < |users|
    ensures Lookup(users, users[i].username) == Some(users[i])
  {
  }

  /** A record found in a valid registry has a non-empty name and is online
      exactly when it holds a socket id. */
  lemma FoundRecordIsValid(users: Users, name: Username)
    requires Valid(users)
    requires Has(users, name)
    ensures name != ""
    ensures Lookup(users, name).value.online <==> Lookup(users, name).value.socketId.Some?
  {
  }

  /** `users.set(u.username, u)`: an existing entry is replaced in place, a new
      one is appended at the end of the insertion order. */
  function Put(users: Users, u: User): (r: Users)
    ensures Lookup(r, u.username) == Some(u)
    ensures forall name {:trigger Lookup(r, name)} :: name != u.username ==> Lookup(r, name) == Lookup(users, name)
    ensures Has(users, u.username) ==> |r| == |users|
    ensures !Has(users, u.username) ==> r == users + [u]
    ensures forall i :: 0 <= i < |users| ==> r[i].username == users[i].username
    ensures forall i :: 0 <= i < |users| ==> r[i] == users[i] || (FirstMatch(users, u.username, i) && r[i] == u)
  {
    match IndexOf(users, u.username)
    case Some(i) =>
      var r := users[i := u];
      FirstMatchIsIndexOf(r, u.username, i);
      forall name | name != u.username
        ensures Lookup(r, name) == Lookup(users, name)
      {
        PutFrame(users, r, name, i);
      }
      r
    case None =>
      var r := users + [u];
      FirstMatchIsIndexOf(r, u.username, |users|);
      forall name | name != u.username
        ensures Lookup(r, name) == Lookup(users, name)
      {
        PutFrame(users, r, name, |users|);
      }
      r
  }

  /** Changing (or adding) only position `k`, whose name is not `name`,
      leaves the lookup of `name` unchanged. */
  lemma PutFrame(users: Users, r: Users, name: Username, k: nat)
    requires |users| <= |r| <= |users| + 1
    requires k < |r|
    requires |r| == |users| + 1 ==> k == |users|
    requires r[k].username != name
    requires k < |users| ==> users[k].username != name
    requires forall j :: 0 <= j < |users| && j != k ==> r[j] == users[j]
    ensures Lookup(r, name) == Lookup(users, name)
  {
  }

  /** Storing back the record a lookup found changes nothing. */
  lemma PutFound(users: Users, name: Username)
    requires Has(users, name)
    ensures Put(users, Lookup(users, name).value) == users
  {
  }

  /** A second `set` of the same key overwrites the first, whether the first
      replaced a record or appended one. */
  lemma PutPut(users: Users, u: User, v: User)
    requires u.username == v.username
    ensures Put(Put(users, u), v) == Put(users, v)
  {
  }

  /** Storing a changed copy of a found record keeps every record's id and
      username in place and changes no record of another name. */
  lemma PutKeepsIdentity(users: Users, u: User)
    requires Has(users, u.username)
    requires Lookup(users, u.username).value.id == u.id
    ensures var r := Put(users, u);
            && |r| == |users|
            && forall i :: 0 <= i < |users| ==>
                 || r[i] == users[i]
                 || (users[i].username == u.username && r[i].id == users[i].id && r[i].username == users[i].username)
  {
  }

  /** Registered names stay registered across a `set`. */
  lemma PutKeepsNames(users: Users, u: User, name: Username)
    requires Has(users, name)
    ensures Has(Put(users, u), name)
  {
  }

  lemma PutPreservesValid(users: Users, u: User)
    requires Valid(users)
    requires u.online <==> u.socketId.Some?
    requires u.username != ""
    ensures Valid(Put(users, u))
  {
  }

  /** The reply of `POST /api/register`. */
  datatype RegisterReply =
    | Created(userId: UserId, username: Username)  // 200 `{success: true, userId, username}`
    | UsernameRequired                             // 400 `{error: 'Username is required'}`
    | UsernameTaken                                // 409 `{error: 'Username already exists'}`
  {
    function Status(): nat
    {
      match this
      case Created(_, _) => 200
      case UsernameRequired => 400
      case UsernameTaken => 409
    }
  }

  datatype Registration = Registration(users: Users, reply: RegisterReply)

  /** A username field that is missing or empty is falsy in JavaScript. */
  predicate Blank(username: Option<string>)
  {
    username == None || username == Some("")
  }

  /** `POST /api/register` with body field `username` and the id `uuidv4()` would return. */
  function Register(users: Users, username: Option<string>, freshId: UserId): (r: Registration)
    ensures Blank(username) <==> r.reply == UsernameRequired
    ensures r.reply == UsernameTaken <==> !Blank(username) && Has(users, username.value)
    ensures r.reply.Created? <==> !Blank(username) && !Has(users, username.value)
    ensures !r.reply.Created? ==> r.users == users
    ensures r.reply.Created? ==>
      && r.reply == Created(freshId, username.value)
      && r.users == users + [User(freshId, username.value, false, None)]
      && Lookup(r.users, username.value) == Some(User(freshId, username.value, false, None))
      && forall name {:trigger Lookup(r.users, name)} :: name != username.value ==> Lookup(r.users, name) == Lookup(users, name)
    ensures r.reply.Status() == 200 <==> r.reply.Created?
  {
    if Blank(username) then Registration(users, UsernameRequired)
    else if Has(users, username.value) then Registration(users, UsernameTaken)
    else
      var name := username.value;
      Registration(Put(users, User(freshId, name, false, None)), Created(freshId, name))
  }

  lemma RegisterPreservesValid(users: Users, username: Option<string>, freshId: UserId)
    requires Valid(users)
    ensures Valid(Register(users, username, freshId).users)
  {
  }

  /** A name that has been registered once can never be registered again. */
  lemma RegisterTwiceFails(users: Users, name: string, id1: UserId, id2: UserId)
    requires name != ""
    ensures var first := Register(users, Some(name), id1);
            var second := Register(first.users, Some(name), id2);
            second.reply == UsernameTaken && second.users == first.users
  {
  }

  /** `GET /api/users`, and the `users-list` payload of a login. */
  function ListUsers(users: Users): (r: seq<Presence>)
    ensures |r| == |users|
    ensures forall i :: 0 <= i < |users| ==> r[i] == Presence(users[i].username, users[i].online)
  {
    seq(|users|, i requires 0 <= i < |users| => Presence(users[i].username, users[i].online))
  }

  /** The list names every registered user once, with the online flag a lookup
      of that user reports; it carries nothing else of the record. */
  lemma ListUsersReflectsLookup(users: Users, name: Username, online: bool)
    requires Unique(users)
    ensures Presence(name, online) in ListUsers(users) <==>
              Lookup(users, name).Some? && Lookup(users, name).value.online == online
    ensures (exists i :: 0 <= i < |users| && ListUsers(users)[i].username == name) <==> Has(users, name)
  {
  }
}
