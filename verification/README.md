# Session authentication routes, modelled in Dafny

This project models the `/auth` router of an Express session-authentication
backend. The router has four routes:

- `POST /signup` registers a username with a bcrypt hash of its password and logs the caller in.
- `POST /login` checks a password against the stored hash and logs the caller in.
- `POST /logout` destroys the session.
- `GET /me` returns the session's current user.

Each handler is a pure function from a `State` to a `Step`. The `State` holds
the user collection (username to stored password hash) and the session's
`currentUser`. The `Step` holds the reply (status and body) and the next state.
Before a user leaves the server in a reply or a session, its password field is
overwritten with the sentinel `"*"`. The routes' guard middlewares
(`isNotLoggedIn`, `validationLogin`, `isLoggedIn`) are modelled as ordered
guard chains in front of each handler. A sequence of requests is served by
`Router.Run`.

Files:

- `wrappers.dfy`: `Option`.
- `bcrypt.dfy`: bcrypt as an uninterpreted `Hasher` (a `hash` and a `compare`
  function supplied by the caller), the cost factor 10, and the predicates real
  bcrypt satisfies. `Sound` says a password compares equal to any hash of itself.
  `FixedLength` says every hash is 60 characters long.
- `auth.dfy`: the data model and the four handlers.
- `router.dfy`: guard chains, dispatch and request traces.
- `properties.dfy`: the invariants and the relations between the routes.

Three behaviours of the code are worth stating plainly:

- A duplicate signup is answered with 400 (routes/auth.js:22); 409 is not used.
- Signup sets `currentUser` (routes/auth.js:29), so a login straight after it
  is stopped by `isNotLoggedIn`. A login with the same credentials succeeds
  only after a logout (`SignupThenLogin`, `SignupBlocksLogin`).
- `/me` writes the sentinel into the session object itself, not into a copy
  (routes/auth.js:78-79).

## Model

| member | source | states |
|---|---|---|
| Auth.Signup | routes/auth.js:16-39 | A taken username gets 400 with store and session unchanged. A fresh one adds exactly that key, holding the bcrypt hash of the password with a cost-10 salt, and leaves every other record alone. The reply is 201, and the body and the session user are the same user: the requested username with password `"*"`. |
| Auth.Login | routes/auth.js:42-66 | 404 exactly when the username is unknown. 401 exactly when it is known and `compare` fails. 200 exactly when `compare` succeeds. Only on 200 does the session change, to the user with password `"*"`, which is also the body. The user collection is never written. |
| Auth.Logout | routes/auth.js:69-74 | Reply is 204 with an empty body, the session is cleared, and the user collection is unchanged. |
| Auth.Me | routes/auth.js:77-82 | Needs a session user. Replies 200 with that user's username and password `"*"`, stores that redacted user back into the session, and leaves the user collection unchanged. |
| Auth.Fail | appWComments.js:91-100 | An error passed to `next` is answered with its own status and no user body, and the state is left as it was. |
| Router.Chain | routes/auth.js:16-77 | Signup and login mount `isNotLoggedIn` then `validationLogin`. Logout and me mount `isLoggedIn` only. |
| Router.FirstRejecting | routes/auth.js:9-16 | Finds the first guard that refuses. None refuses exactly when every guard admits. If one refuses, every guard before it admits. |
| Router.Dispatch | routes/auth.js:16-82 | The handler runs exactly when every guard of the route admits, and the outcome is then that handler's step (`/me` runs only with a session user). Otherwise the first refusing guard stops it. Signup or login with a session is stopped by `isNotLoggedIn`. Logout or me without a session is stopped by `isLoggedIn`. |
| AuthProperties.HashIsNotMask | routes/auth.js:24-28 | A bcrypt hash (60 characters) can never be the sentinel `"*"`. |
| AuthProperties.DispatchHidesHashes | routes/auth.js:26-81 | One request keeps the invariant "no stored hash is `"*"` and the session user carries `"*"`". Any user it returns carries `"*"` and none of the stored hashes. |
| AuthProperties.DispatchExtends | routes/auth.js:20-26 | One request only adds records. No record is changed or deleted. |
| AuthProperties.RunHidesHashes | routes/auth.js:16-82 | Over any sequence of requests the secrecy invariant holds. Every returned user carries `"*"` and none of the hashes stored at the end of the sequence, which include every hash stored along the way. |
| AuthProperties.RunExtends | routes/auth.js:16-82 | Over any sequence of requests the user collection only grows, and each record keeps its first hash. |
| AuthProperties.SignupThenLogin | routes/auth.js:24-55 | With a sound bcrypt, a fresh signup answers 201 with the redacted user. After a logout, a login with the same credentials answers 200 with the same redacted user and opens a session for it. |
| AuthProperties.SignupBlocksLogin | routes/auth.js:29-42 | Right after a successful signup, a login is stopped by `isNotLoggedIn`. |
| AuthProperties.WrongPasswordIsUnauthorized | routes/auth.js:45-59 | For a signed-up user, a password that fails `compare` is answered with 401 (not 404), and no session is opened. |
| AuthProperties.DuplicateSignupKeepsFirstHash | routes/auth.js:20-26 | A second signup under the same username is answered with 400, changes nothing, and the stored hash is still the first signup's. |
| AuthProperties.LogoutEndsSession | routes/auth.js:69-77 | After a logout, `/me` and a second logout are both stopped by `isLoggedIn`, and the users are unchanged. |
| AuthProperties.MeIsReadOnly | routes/auth.js:77-81 | When the session user is already redacted, `/me` changes nothing and returns exactly that user. |
| AuthProperties.MeIsIdempotent | routes/auth.js:77-81 | Asking `/me` twice gives the same reply and state as asking once. |
| AuthProperties.AliceScenario | routes/auth.js:16-82 | Runs signup("alice","secret1"), logout, login with a wrong password, login with "secret1", logout, then `/me`, starting from an empty store. The replies are 201 {alice,"*"}, 204, 401, 200 {alice,"*"}, 204, and `/me` is stopped by `isLoggedIn`. |

## Left out

- Router.Dispatch: the reply of a request stopped by a guard is not modelled. The bodies of `isLoggedIn`, `isNotLoggedIn` and `validationLogin` are not part of this model. Being logged in is taken to mean that the session holds a `currentUser`. The credential check is an arbitrary `Validator` supplied by the caller. A stopped request leaves the state unchanged.
- Request bodies whose `username` or `password` is not a string are not modelled. The handlers destructure `req.body` without a type check (routes/auth.js:17, 43), and `findOne({ username })` would treat an object value as a query. The model types both fields as strings, so it assumes `validationLogin` rejects any other value. That guard's body is not part of this model.
- bcrypt internals: `genSaltSync`, `hashSync` and `compareSync` are uninterpreted. The random part of the salt is a parameter of signup. Constant-time comparison is not modelled.
- Exceptions from the database or from bcrypt are mapped through `createError(error)` in both async handlers. They are I/O failures and are not modelled.
- The race between `findOne` and `create` under concurrent signups is not modelled. Requests are served one at a time.
- The user document's other fields (`_id`, timestamps) and the mongoose schema validation in `User.create` are left out. The models/user file is not part of this model.
- Process wiring in appWComments.js is left out: the mongoose connection, CORS, session store configuration, body parsing, static files, logging, and the generic 404 handler. The session TTL and cookie max-age (one day) are enforced by the session library, and session expiry is not modelled. The error handler is modelled only as far as `Auth.Fail` describes it.
- One session: the state holds the session of a single client. Session ids and cookies are not modelled.
