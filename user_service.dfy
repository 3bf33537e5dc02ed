/** User accounts: a unique username and a unique email, a password stored only as a hash,
    and a role. Create and update check both unique columns themselves before writing. */
module Users {
  import opened Wrappers
  import opened Strings
  import opened Queries

  datatype User = User(username: string, email: string, passwordHash: string, role: string,
                       telegramChatId: Option<int>, createdAt: int, updatedAt: int)

  /** The role defaults to "marketer" in the request type. */
  datatype CreateRequest = CreateRequest(username: string, email: string, password: string, role: string)

  const DefaultRole := "marketer"

  /** `None` stands for a null field. */
  datatype UpdateRequest = UpdateRequest(username: Option<string>, email: Option<string>,
                                         password: Option<string>, role: Option<string>)

  /** The column whose uniqueness a request would break. */
  datatype Column = EmailColumn | UsernameColumn

  /** What the unique indexes on email and username demand. */
  ghost predicate Unique(m: map<int, User>) {
    forall a, b | a in m && b in m && a != b :: m[a].email != m[b].email && m[a].username != m[b].username
  }

  /** Ids below `next`, so that `next` is fresh. */
  ghost predicate IdsBelow(m: map<int, User>, next: int) {
    0 < next && forall id | id in m :: 0 < id < next
  }

  /** Some user other than `self` (when given) has this email. */
  predicate EmailTaken(m: map<int, User>, email: string, self: Option<int>) {
    exists id | id in m :: m[id].email == email && Some(id) != self
  }

  /** Some user other than `self` (when given) has this username. */
  predicate UsernameTaken(m: map<int, User>, username: string, self: Option<int>) {
    exists id | id in m :: m[id].username == username && Some(id) != self
  }

  /** The check `CreateUserAsync` makes before inserting: the email first, then the username. */
  function CreateConflict(m: map<int, User>, req: CreateRequest): (r: Option<Column>)
    ensures r == Some(EmailColumn) <==> EmailTaken(m, req.email, None)
    ensures r == Some(UsernameColumn) <==> !EmailTaken(m, req.email, None) && UsernameTaken(m, req.username, None)
    ensures r == None <==> forall id | id in m :: m[id].email != req.email && m[id].username != req.username
  {
    if EmailTaken(m, req.email, None) then Some(EmailColumn)
    else if UsernameTaken(m, req.username, None) then Some(UsernameColumn)
    else None
  }

  /** The record a successful create inserts: the password goes through `hash`. */
  function NewUser(req: CreateRequest, hash: string -> string, now: int): User {
    User(req.username, req.email, hash(req.password), req.role, None, now, now)
  }

  /** `CreateUserAsync`: the new store and the next free id, or `InvalidOperation`. */
  function Created(m: map<int, User>, next: int, req: CreateRequest, hash: string -> string, now: int)
    : Result<(map<int, User>, int)>
  {
    if CreateConflict(m, req).Some? then Err(InvalidOperation)
    else Ok((m[next := NewUser(req, hash, now)], next + 1))
  }

  /** The check `UpdateUserAsync` makes: a given username first, then a given email, each
      compared with the other users only. */
  function UpdateConflict(m: map<int, User>, id: int, req: UpdateRequest): (r: Option<Column>)
    ensures r == Some(UsernameColumn) <==> !NullOrEmpty(req.username) && UsernameTaken(m, req.username.value, Some(id))
    ensures r == Some(EmailColumn) <==>
              && (NullOrEmpty(req.username) || !UsernameTaken(m, req.username.value, Some(id)))
              && !NullOrEmpty(req.email) && EmailTaken(m, req.email.value, Some(id))
  {
    if !NullOrEmpty(req.username) && UsernameTaken(m, req.username.value, Some(id)) then Some(UsernameColumn)
    else if !NullOrEmpty(req.email) && EmailTaken(m, req.email.value, Some(id)) then Some(EmailColumn)
    else None
  }

  /** The record after an update: each non-empty field replaces the stored one (the password
      through `hash`), and the update time is set. */
  function Patched(u: User, req: UpdateRequest, hash: string -> string, now: int): (r: User)
    ensures r.username == (if !NullOrEmpty(req.username) then req.username.value else u.username)
    ensures r.email == (if !NullOrEmpty(req.email) then req.email.value else u.email)
    ensures r.passwordHash == (if !NullOrEmpty(req.password) then hash(req.password.value) else u.passwordHash)
    ensures r.role == (if !NullOrEmpty(req.role) then req.role.value else u.role)
    ensures r.telegramChatId == u.telegramChatId && r.createdAt == u.createdAt && r.updatedAt == now
  {
    u.(username := if !NullOrEmpty(req.username) then req.username.value else u.username,
       email := if !NullOrEmpty(req.email) then req.email.value else u.email,
       passwordHash := if !NullOrEmpty(req.password) then hash(req.password.value) else u.passwordHash,
       role := if !NullOrEmpty(req.role) then req.role.value else u.role,
       updatedAt := now)
  }

  /** `UpdateUserAsync`: `NotFound` for a missing id, `InvalidOperation` for a conflict, else
      the store with the patched record. */
  function Updated(m: map<int, User>, id: int, req: UpdateRequest, hash: string -> string, now: int)
    : Result<map<int, User>>
  {
    if id !in m then Err(NotFound)
    else if UpdateConflict(m, id, req).Some? then Err(InvalidOperation)
    else Ok(m[id := Patched(m[id], req, hash, now)])
  }

  /** A create succeeds exactly when neither the email nor the username is in use; it then
      adds one user under the fresh id, holding the hash of the password, and keeps both
      columns unique. */
  lemma CreateSpec(m: map<int, User>, next: int, req: CreateRequest, hash: string -> string, now: int)
    requires IdsBelow(m, next) && Unique(m)
    ensures var r := Created(m, next, req, hash, now);
            && (r.Err? <==> EmailTaken(m, req.email, None) || UsernameTaken(m, req.username, None))
            && (r.Err? ==> r.error == InvalidOperation)
            && (r.Ok? ==>
                  && r.value.0 == m[next := r.value.0[next]] && next !in m
                  && r.value.0[next].passwordHash == hash(req.password)
                  && r.value.0[next].username == req.username && r.value.0[next].email == req.email
                  && r.value.0[next].role == req.role
                  && IdsBelow(r.value.0, r.value.1) && Unique(r.value.0))
  {
  }

  /** An update fails with `NotFound` exactly for a missing id and with `InvalidOperation`
      exactly when a given username or email belongs to another user; on success only that
      user's record changes and both columns stay unique. */
  lemma UpdateSpec(m: map<int, User>, id: int, req: UpdateRequest, hash: string -> string, now: int)
    requires Unique(m)
    ensures var r := Updated(m, id, req, hash, now);
            && (r == Err(NotFound) <==> id !in m)
            && (r == Err(InvalidOperation) <==>
                  id in m && ((!NullOrEmpty(req.username) && UsernameTaken(m, req.username.value, Some(id)))
                              || (!NullOrEmpty(req.email) && EmailTaken(m, req.email.value, Some(id)))))
            && (r.Ok? ==>
                  && r.value.Keys == m.Keys && Unique(r.value)
                  && r.value[id] == Patched(m[id], req, hash, now)
                  && forall j | j in m && j != id :: r.value[j] == m[j])
  {
    var r := Updated(m, id, req, hash, now);
    if r.Ok? {
      var u := r.value[id];
      forall a, b | a in r.value && b in r.value && a != b
        ensures r.value[a].email != r.value[b].email && r.value[a].username != r.value[b].username
      {
        if a == id {
          assert m[b].username != u.username;
          assert m[b].email != u.email;
        } else if b == id {
          assert m[a].username != u.username;
          assert m[a].email != u.email;
        }
      }
    }
  }

  /** Writing back a user's own username and email is never a conflict. */
  lemma UpdateOwnValues(m: map<int, User>, id: int, req: UpdateRequest, hash: string -> string, now: int)
    requires Unique(m) && id in m
    requires req.username == Some(m[id].username) && req.email == Some(m[id].email)
    ensures Updated(m, id, req, hash, now).Ok?
    ensures Updated(m, id, req, hash, now).value[id].username == m[id].username
    ensures Updated(m, id, req, hash, now).value[id].email == m[id].email
  {
    assert !UsernameTaken(m, m[id].username, Some(id));
    assert !EmailTaken(m, m[id].email, Some(id));
  }

  /** Users ordered by username, case-folded. */
  predicate UsernameLe(a: (int, User), b: (int, User)) {
    LexLe(Lower(a.1.username), Lower(b.1.username))
  }

  lemma UsernameLeTotal()
    ensures TotalPreorder(UsernameLe)
  {
    forall a: (int, User), b: (int, User) ensures UsernameLe(a, b) || UsernameLe(b, a) {
      LexLeTotal(Lower(a.1.username), Lower(b.1.username));
    }
    forall a: (int, User), b: (int, User), c: (int, User) | UsernameLe(a, b) && UsernameLe(b, c)
      ensures UsernameLe(a, c)
    {
      LexLeTrans(Lower(a.1.username), Lower(b.1.username), Lower(c.1.username));
    }
  }

  function AnyUser(row: (int, User)): bool { true }

  /** `GetAllUsersAsync`: every user, ordered by username. */
  function AllUsers(m: map<int, User>): seq<(int, User)> {
    Query(m, AnyUser, UsernameLe)
  }

  /** Every user is listed exactly once, with its own record, in username order. */
  lemma AllUsersSpec(m: map<int, User>)
    ensures var r := AllUsers(m);
            && (forall i :: 0 <= i < |r| ==> r[i].0 in m && r[i].1 == m[r[i].0])
            && (forall i, j :: 0 <= i < j < |r| ==> LexLe(Lower(r[i].1.username), Lower(r[j].1.username)))
            && (forall k :: k in m ==> (k, m[k]) in r)
            && Distinct(r)
  {
    var r := AllUsers(m);
    assert forall i :: 0 <= i < |r| ==> r[i].0 in m && r[i].1 == m[r[i].0] by {
      QuerySound(m, AnyUser, UsernameLe);
    }
    forall k | k in m ensures (k, m[k]) in r {
      assert AnyUser((k, m[k]));
      QueryComplete(m, AnyUser, UsernameLe);
    }
    assert Distinct(r) by {
      QueryDistinct(m, AnyUser, UsernameLe);
    }
    forall i, j | 0 <= i < j < |r| ensures LexLe(Lower(r[i].1.username), Lower(r[j].1.username)) {
      UsernameLeTotal();
      QuerySorted(m, AnyUser, UsernameLe);
      assert UsernameLe(r[i], r[j]);
    }
  }

  /** The response leaves out the password hash. */
  datatype UserResponse = UserResponse(id: int, username: string, email: string, role: string,
                                       telegramChatId: Option<int>, createdAt: int, updatedAt: int)

  function ToResponse(id: int, u: User): (r: UserResponse)
    ensures r.id == id && r.username == u.username && r.email == u.email && r.role == u.role
  {
    UserResponse(id, u.username, u.email, u.role, u.telegramChatId, u.createdAt, u.updatedAt)
  }

  class UserService {
    var users: map<int, User>
    var nextId: int

    ghost predicate Valid()
      reads this
    {
      IdsBelow(users, nextId) && Unique(users)
    }

    constructor ()
      ensures Valid() && users == map[]
    {
      users := map[];
      nextId := 1;
    }

    function GetAllUsers(): seq<UserResponse>
      reads this
    {
      Select((row: (int, User)) => ToResponse(row.0, row.1), AllUsers(users))
    }

    function GetUserById(id: int): (r: Result<UserResponse>)
      reads this
      ensures r.Err? <==> id !in users
      ensures r.Err? ==> r.error == NotFound
      ensures r.Ok? ==> r.value == ToResponse(id, users[id])
    {
      if id !in users then Err(NotFound) else Ok(ToResponse(id, users[id]))
    }

    method CreateUser(req: CreateRequest, hash: string -> string, now: int) returns (r: Result<UserResponse>)
      requires Valid()
      modifies this
      ensures Valid()
      ensures Created(old(users), old(nextId), req, hash, now).Err? ==> r == Err(InvalidOperation) && unchanged(this)
      ensures Created(old(users), old(nextId), req, hash, now).Ok? ==>
                && (users, nextId) == Created(old(users), old(nextId), req, hash, now).value
                && r == Ok(ToResponse(old(nextId), users[old(nextId)]))
    {
      CreateSpec(users, nextId, req, hash, now);
      if EmailTaken(users, req.email, None) {
        return Err(InvalidOperation);
      }
      if UsernameTaken(users, req.username, None) {
        return Err(InvalidOperation);
      }
      var id := nextId;
      users := users[id := NewUser(req, hash, now)];
      nextId := nextId + 1;
      r := Ok(ToResponse(id, users[id]));
    }

    method UpdateUser(id: int, req: UpdateRequest, hash: string -> string, now: int) returns (r: Result<UserResponse>)
      requires Valid()
      modifies this
      ensures Valid() && nextId == old(nextId)
      ensures Updated(old(users), id, req, hash, now).Err? ==>
                r == Err(Updated(old(users), id, req, hash, now).error) && unchanged(this)
      ensures Updated(old(users), id, req, hash, now).Ok? ==>
                users == Updated(old(users), id, req, hash, now).value && r == Ok(ToResponse(id, users[id]))
    {
      UpdateSpec(users, id, req, hash, now);
      if id !in users {
        return Err(NotFound);
      }
      if !NullOrEmpty(req.username) && UsernameTaken(users, req.username.value, Some(id)) {
        return Err(InvalidOperation);
      }
      if !NullOrEmpty(req.email) && EmailTaken(users, req.email.value, Some(id)) {
        return Err(InvalidOperation);
      }
      users := users[id := Patched(users[id], req, hash, now)];
      r := Ok(ToResponse(id, users[id]));
    }

    method DeleteUser(id: int) returns (r: Outcome)
      requires Valid()
      modifies this
      ensures Valid() && nextId == old(nextId)
      ensures r == Fail(NotFound) <==> id !in old(users)
      ensures r.Fail? ==> unchanged(this)
      ensures r.Pass? ==> users == old(users) - {id}
    {
      if id !in users {
        return Fail(NotFound);
      }
      users := users - {id};
      r := Pass;
    }
  }
}
