/**
  Properties of the auth router: what a sequence of requests can and cannot
  do to the user collection and the session, and how the four routes relate
  to one another.
*/
module AuthProperties {
  import opened Wrappers
  import opened Bcrypt
  import opened Auth
  import opened Router

  /** No stored hash is the sentinel, and a session user carries only the sentinel. */
  ghost predicate HidesHashes(st: State)
  {
    && (forall name :: name in st.users ==> st.users[name] != Mask)
    && (st.session.Some? ==> st.session.value.password == Mask)
  }

  /** A reply that shows a user shows the sentinel, never one of the stored hashes. */
  ghost predicate ShowsNoHash(r: Routed, st: State)
  {
    r.Ran? && r.step.reply.body.UserJson? ==>
      && r.step.reply.body.user.password == Mask
      && forall name :: name in st.users ==> r.step.reply.body.user.password != st.users[name]
  }

  /** `st'` keeps every record of `st`, unchanged: records are never updated or deleted. */
  ghost predicate Extends(st: State, st': State)
  {
    && st.users.Keys <= st'.users.Keys
    && forall name :: name in st.users ==> st'.users[name] == st.users[name]
  }

  /** The hash of a signup never collides with the sentinel, because bcrypt hashes have a fixed length. */
  lemma HashIsNotMask(h: Hasher, password: string, nonce: Nonce)
    requires FixedLength(h)
    ensures h.hash(password, GenSalt(nonce)) != Mask
  {
    assert |h.hash(password, GenSalt(nonce))| == HashLength;
  }

  /** One request keeps the secrecy invariant, and its reply shows no stored hash. */
  lemma DispatchHidesHashes(h: Hasher, validate: Validator, st: State, req: Request)
    requires FixedLength(h)
    requires HidesHashes(st)
    ensures HidesHashes(After(Dispatch(h, validate, st, req), st))
    ensures ShowsNoHash(Dispatch(h, validate, st, req), After(Dispatch(h, validate, st, req), st))
  {
    if req.SignupRequest? {
      HashIsNotMask(h, req.password, req.nonce);
    }
  }

  /** Every request changes the user collection only by adding records. */
  lemma DispatchExtends(h: Hasher, validate: Validator, st: State, req: Request)
    ensures Extends(st, After(Dispatch(h, validate, st, req), st))
  {
  }

  /**
    Over any sequence of requests the secrecy invariant holds, and no user any
    reply returns carries a hash stored at the end of the sequence.
  */
  lemma {:induction false} RunHidesHashes(h: Hasher, validate: Validator, st: State, reqs: seq<Request>)
    requires FixedLength(h)
    requires HidesHashes(st)
    ensures HidesHashes(Run(h, validate, st, reqs).0)
    ensures forall i :: 0 <= i < |reqs| ==> Run(h, validate, st, reqs).1[i].Ran? && Run(h, validate, st, reqs).1[i].step.reply.body.UserJson? ==>
      Run(h, validate, st, reqs).1[i].step.reply.body.user.password == Mask
    ensures forall i :: 0 <= i < |reqs| ==> ShowsNoHash(Run(h, validate, st, reqs).1[i], Run(h, validate, st, reqs).0)
    decreases |reqs|
  {
    if |reqs| > 0 {
      var first := Dispatch(h, validate, st, reqs[0]);
      DispatchHidesHashes(h, validate, st, reqs[0]);
      RunHidesHashes(h, validate, After(first, st), reqs[1..]);
    }
  }

  /** Over any sequence of requests the user collection only grows, and no record changes. */
  lemma {:induction false} RunExtends(h: Hasher, validate: Validator, st: State, reqs: seq<Request>)
    ensures Extends(st, Run(h, validate, st, reqs).0)
    decreases |reqs|
  {
    if |reqs| > 0 {
      var first := Dispatch(h, validate, st, reqs[0]);
      DispatchExtends(h, validate, st, reqs[0]);
      RunExtends(h, validate, After(first, st), reqs[1..]);
    }
  }

  /** A signed-up user can log in again with the same password once logged out. */
  lemma SignupThenLogin(h: Hasher, validate: Validator, st: State, username: string, password: string, nonce: Nonce)
    requires Sound(h)
    requires st.session.None? && username !in st.users
    requires validate(username, password)
    ensures
      var signedUp := Dispatch(h, validate, st, SignupRequest(username, password, nonce));
      var loggedOut := Dispatch(h, validate, After(signedUp, st), LogoutRequest);
      var loggedIn := Dispatch(h, validate, After(loggedOut, After(signedUp, st)), LoginRequest(username, password));
      && signedUp == Ran(Step(Reply(Created, UserJson(User(username, Mask))), After(signedUp, st)))
      && loggedIn.Ran?
      && loggedIn.step.reply == Reply(Ok, UserJson(User(username, Mask)))
      && loggedIn.step.next.session == Some(User(username, Mask))
  {
    var s1 := After(Dispatch(h, validate, st, SignupRequest(username, password, nonce)), st);
    assert s1.users[username] == h.hash(password, Salt(SaltRounds, nonce));
  }

  /** Right after a signup the caller is logged in, so a login is stopped by `isNotLoggedIn`. */
  lemma SignupBlocksLogin(h: Hasher, validate: Validator, st: State, username: string, password: string, nonce: Nonce, again: string)
    requires st.session.None? && username !in st.users
    requires validate(username, password)
    ensures
      var s1 := After(Dispatch(h, validate, st, SignupRequest(username, password, nonce)), st);
      Dispatch(h, validate, s1, LoginRequest(username, again)) == Blocked(IsNotLoggedIn)
  {
  }

  /** A wrong password for a signed-up user is refused with 401, never 404, and opens no session. */
  lemma WrongPasswordIsUnauthorized(h: Hasher, validate: Validator, st: State, username: string, password: string, nonce: Nonce, wrong: string)
    requires st.session.None? && username !in st.users
    requires validate(username, password) && validate(username, wrong)
    requires !h.compare(wrong, h.hash(password, Salt(SaltRounds, nonce)))
    ensures
      var s1 := After(Dispatch(h, validate, st, SignupRequest(username, password, nonce)), st);
      var s2 := After(Dispatch(h, validate, s1, LogoutRequest), s1);
      var r := Dispatch(h, validate, s2, LoginRequest(username, wrong));
      && r.Ran?
      && r.step.reply.status == Unauthorized
      && r.step.next.session == None
  {
    var s1 := After(Dispatch(h, validate, st, SignupRequest(username, password, nonce)), st);
    assert s1.users[username] == h.hash(password, Salt(SaltRounds, nonce));
  }

  /** A second signup under a taken username is refused with 400 and the first hash stays. */
  lemma DuplicateSignupKeepsFirstHash(h: Hasher, validate: Validator, st: State, username: string, first: string, second: string, n1: Nonce, n2: Nonce)
    requires st.session.None? && username !in st.users
    requires validate(username, first) && validate(username, second)
    ensures
      var s1 := After(Dispatch(h, validate, st, SignupRequest(username, first, n1)), st);
      var s2 := After(Dispatch(h, validate, s1, LogoutRequest), s1);
      var r := Dispatch(h, validate, s2, SignupRequest(username, second, n2));
      && r.Ran?
      && r.step.reply.status == BadRequest
      && r.step.next == s2
      && r.step.next.users[username] == h.hash(first, Salt(SaltRounds, n1))
  {
  }

  /** After a logout the session is gone: `/me` and a second logout are stopped by `isLoggedIn`. */
  lemma LogoutEndsSession(h: Hasher, validate: Validator, st: State)
    requires st.session.Some?
    ensures
      var s1 := After(Dispatch(h, validate, st, LogoutRequest), st);
      && s1.users == st.users
      && Dispatch(h, validate, s1, MeRequest) == Blocked(IsLoggedIn)
      && Dispatch(h, validate, s1, LogoutRequest) == Blocked(IsLoggedIn)
  {
  }

  /** On a state whose session user is already redacted, `/me` changes nothing. */
  lemma MeIsReadOnly(st: State)
    requires st.session.Some? && st.session.value.password == Mask
    ensures Me(st).next == st
    ensures Me(st).reply.body == UserJson(st.session.value)
  {
  }

  /** Asking `/me` twice gives the same answer and the same state as asking once. */
  lemma MeIsIdempotent(st: State)
    requires st.session.Some?
    ensures Me(Me(st).next) == Me(st)
  {
  }

  /**
    A whole conversation from an empty collection: signup, logout, a wrong
    and a right login, logout, then `/me`, which is stopped by `isLoggedIn`.
  */
  lemma AliceScenario(h: Hasher, validate: Validator, nonce: Nonce)
    requires Sound(h)
    requires !h.compare("wrong", h.hash("secret1", Salt(SaltRounds, nonce)))
    requires validate("alice", "secret1") && validate("alice", "wrong")
    ensures
      var reqs := [SignupRequest("alice", "secret1", nonce), LogoutRequest, LoginRequest("alice", "wrong"),
                   LoginRequest("alice", "secret1"), LogoutRequest, MeRequest];
      var out := Run(h, validate, State(map[], None), reqs).1;
      && out[0].Ran? && out[0].step.reply == Reply(Created, UserJson(User("alice", Mask)))
      && out[1].Ran? && out[1].step.reply == Reply(NoContent, Empty)
      && out[2].Ran? && out[2].step.reply.status == Unauthorized
      && out[3].Ran? && out[3].step.reply == Reply(Ok, UserJson(User("alice", Mask)))
      && out[4].Ran? && out[4].step.reply == Reply(NoContent, Empty)
      && out[5] == Blocked(IsLoggedIn)
  {
    var reqs := [SignupRequest("alice", "secret1", nonce), LogoutRequest, LoginRequest("alice", "wrong"),
                 LoginRequest("alice", "secret1"), LogoutRequest, MeRequest];
    var st0 := State(map[], None);
    var hash := h.hash("secret1", Salt(SaltRounds, nonce));
    var s1 := State(map["alice" := hash], Some(User("alice", Mask)));
    var s2 := State(map["alice" := hash], None);
    var s4 := State(map["alice" := hash], Some(User("alice", Mask)));
    assert Dispatch(h, validate, st0, reqs[0]) == Ran(Step(Reply(Created, UserJson(User("alice", Mask))), s1));
    assert Dispatch(h, validate, s1, reqs[1]) == Ran(Step(Reply(NoContent, Empty), s2));
    assert Dispatch(h, validate, s2, reqs[2]) == Ran(Step(Reply(Unauthorized, HttpError(Unauthorized)), s2));
    assert Dispatch(h, validate, s2, reqs[3]) == Ran(Step(Reply(Ok, UserJson(User("alice", Mask))), s4));
    assert Dispatch(h, validate, s4, reqs[4]) == Ran(Step(Reply(NoContent, Empty), s2));
    assert Dispatch(h, validate, s2, reqs[5]) == Blocked(IsLoggedIn);
    var o5 := [Blocked(IsLoggedIn)];
    assert Run(h, validate, s2, reqs[5..]).1 == o5;
    var o4 := [Dispatch(h, validate, s4, reqs[4])] + o5;
    assert Run(h, validate, s4, reqs[4..]).1 == o4;
    var o3 := [Dispatch(h, validate, s2, reqs[3])] + o4;
    assert Run(h, validate, s2, reqs[3..]).1 == o3;
    var o2 := [Dispatch(h, validate, s2, reqs[2])] + o3;
    assert Run(h, validate, s2, reqs[2..]).1 == o2;
    var o1 := [Dispatch(h, validate, s1, reqs[1])] + o2;
    assert Run(h, validate, s1, reqs[1..]).1 == o1;
    assert Run(h, validate, st0, reqs).1 == [Dispatch(h, validate, st0, reqs[0])] + o1;
  }
}
