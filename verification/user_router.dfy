/** The `/users` handlers (app/routers/user.py). The password hash is a
    parameter: its implementation is not part of this model. */
module UserRouter {
  import opened Outcomes
  import opened Schemas
  import opened Store

  /** POST /users: stores a new user under the fresh id and timestamp the
      database assigns, with the HASH of the password, and replies with the
      user's public view. */
  function CreateUser(db: Db, payload: UserCreate, hash: string -> string, newId: int, createdAt: Timestamp)
    : (s: Step<UserOut>)
    requires Valid(db) && newId !in db.users
    ensures s.state.posts == db.posts && s.state.votes == db.votes
    ensures s.state.users.Keys == db.users.Keys + {newId}
    ensures forall k :: k in db.users ==> s.state.users[k] == db.users[k]
    ensures var stored := s.state.users[newId];
            && stored.id == newId && stored.email == payload.email
            && stored.password == hash(payload.password) && stored.createdAt == createdAt
            && s.reply == Ok(UserView(stored))
    ensures Valid(s.state)
  {
    var stored := User(newId, payload.email, hash(payload.password), createdAt);
    Step(db.(users := db.users[newId := stored]), Ok(UserView(stored)))
  }

  /** The reply to a registration does not depend on the password or on how
      it is hashed: the public view carries neither. */
  lemma CreateUserReplyHidesPassword(db: Db, email: string, pw1: string, pw2: string,
                                     h1: string -> string, h2: string -> string,
                                     newId: int, createdAt: Timestamp)
    requires Valid(db) && newId !in db.users
    ensures CreateUser(db, UserCreate(email, pw1), h1, newId, createdAt).reply
         == CreateUser(db, UserCreate(email, pw2), h2, newId, createdAt).reply
    ensures CreateUser(db, UserCreate(email, pw1), h1, newId, createdAt).reply
         == Ok(UserOut(newId, email, createdAt))
  {
  }

  /** GET /users/{id}: the user's public view, or NotFound. */
  function GetUser(db: Db, id: int): (r: Result<UserOut>)
    requires Valid(db)
    ensures r == Err(NotFound) <==> id !in db.users
    ensures id in db.users ==>
              r == Ok(UserOut(id, db.users[id].email, db.users[id].createdAt))
  {
    if id in db.users then Ok(UserView(db.users[id])) else Err(NotFound)
  }

  /** Registering and then looking up the new id returns the registration's reply. */
  lemma CreateUserThenGet(db: Db, payload: UserCreate, hash: string -> string, newId: int, createdAt: Timestamp)
    requires Valid(db) && newId !in db.users
    ensures var s := CreateUser(db, payload, hash, newId, createdAt);
            GetUser(s.state, newId) == s.reply
  {
  }
}
