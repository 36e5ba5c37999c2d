/**
  The four handlers of the `/auth` router as pure transitions.

  A `State` is what the handlers can see and change: the user collection,
  keyed by username and holding each user's stored password hash, and the
  `currentUser` entry of the caller's session. Each handler returns the reply
  the caller receives and the state left behind. The guards mounted in front
  of the handlers live in the `Router` module.
*/
module Auth {
  import opened Wrappers
  import opened Bcrypt

  /** A user document: the username and the `password` field. */
  datatype User = User(username: string, password: string)

  /** The user collection (username to stored hash) and the session's `currentUser`. */
  datatype State = State(users: map<string, string>, session: Option<User>)

  /** A reply body: nothing, a user rendered as JSON, or the error object the app's error handler renders. */
  datatype Body = Empty | UserJson(user: User) | HttpError(code: nat)

  datatype Reply = Reply(status: nat, body: Body)

  /** The outcome of one handler: what the caller receives and the state afterwards. */
  datatype Step = Step(reply: Reply, next: State)

  const Ok: nat := 200
  const Created: nat := 201
  const NoContent: nat := 204
  const BadRequest: nat := 400
  const Unauthorized: nat := 401
  const NotFound: nat := 404

  /** The sentinel the handlers write over the password field before a user leaves the server. */
  const Mask: string := "*"

  /** A copy of the user with its password field overwritten by the sentinel. */
  function Redact(u: User): User
  {
    u.(password := Mask)
  }

  /**
    `next(createError(code))`: the app's error handler answers with the error's
    status and the error object; the handler changes nothing.
  */
  function Fail(code: nat, st: State): (r: Step)
    ensures r.next == st && r.reply.status == code && !r.reply.body.UserJson?
  {
    Step(Reply(code, HttpError(code)), st)
  }

  /** A redacted copy of the user stored under `username`. */
  ghost predicate IsRedacted(u: User, username: string)
  {
    u.username == username && u.password == Mask
  }

  /**
    POST /auth/signup. A taken username is refused with 400 and nothing
    changes. Otherwise the bcrypt hash of the password (salt of cost 10) is
    stored as a new record, and the created user, with its password field
    overwritten by the sentinel, becomes the session user and the 201 body.
  */
  function Signup(h: Hasher, st: State, username: string, password: string, nonce: Nonce): (r: Step)
    ensures r.reply.status == BadRequest <==> username in st.users
    ensures username in st.users ==> r.next == st && !r.reply.body.UserJson?
    ensures username !in st.users ==>
      && r.reply.status == Created
      && r.next.users.Keys == st.users.Keys + {username}
      && (forall other :: other in st.users ==> r.next.users[other] == st.users[other])
      && r.next.users[username] == h.hash(password, Salt(SaltRounds, nonce))
      && r.reply.body.UserJson?
      && IsRedacted(r.reply.body.user, username)
      && r.next.session == Some(r.reply.body.user)
  {
    if username in st.users then
      Fail(BadRequest, st)
    else
      var hashPass := h.hash(password, GenSalt(nonce));
      var newUser := User(username, hashPass);
      var users := st.users[username := hashPass];
      // the mask is written on the in-memory document after it was created
      var shown := Redact(newUser);
      Step(Reply(Created, UserJson(shown)), State(users, Some(shown)))
  }

  /**
    POST /auth/login. An unknown username gets 404; a known one whose stored
    hash does not match the password gets 401. On a match the stored user,
    with its password field overwritten by the sentinel, becomes the session
    user and the 200 body. The user collection is never written.
  */
  function Login(h: Hasher, st: State, username: string, password: string): (r: Step)
    ensures r.next.users == st.users
    ensures r.reply.status == NotFound <==> username !in st.users
    ensures r.reply.status == Unauthorized <==>
      username in st.users && !h.compare(password, st.users[username])
    ensures r.reply.status == Ok <==>
      username in st.users && h.compare(password, st.users[username])
    ensures r.reply.status != Ok ==> r.next == st && !r.reply.body.UserJson?
    ensures r.reply.status == Ok ==>
      && r.reply.body.UserJson?
      && IsRedacted(r.reply.body.user, username)
      && r.next.session == Some(r.reply.body.user)
  {
    if username !in st.users then
      Fail(NotFound, st)
    else
      var user := User(username, st.users[username]);
      if h.compare(password, user.password) then
        // the mask is written on the in-memory document only; nothing is saved
        var shown := Redact(user);
        Step(Reply(Ok, UserJson(shown)), State(st.users, Some(shown)))
      else
        Fail(Unauthorized, st)
  }

  /** POST /auth/logout: the session is destroyed and the reply is 204 with no body. */
  function Logout(st: State): (r: Step)
    ensures r.reply.status == NoContent && r.reply.body == Empty
    ensures r.next.session == None
    ensures r.next.users == st.users
  {
    Step(Reply(NoContent, Empty), State(st.users, None))
  }

  /**
    GET /auth/me: answers 200 with the session user, whose password field is
    overwritten by the sentinel; the overwrite lands in the session object
    itself. Only reachable with a session user present.
  */
  function Me(st: State): (r: Step)
    requires st.session.Some?
    ensures r.reply.status == Ok
    ensures r.reply.body.UserJson?
    ensures IsRedacted(r.reply.body.user, st.session.value.username)
    ensures r.next.session == Some(r.reply.body.user)
    ensures r.next.users == st.users
  {
    var current := Redact(st.session.value);
    Step(Reply(Ok, UserJson(current)), State(st.users, Some(current)))
  }
}
