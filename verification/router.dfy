/**
  The `/auth` router: each route mounts an ordered chain of guard middlewares
  in front of its handler, and a request reaches the handler only if every
  guard lets it through. The guards' bodies are not part of this model: being
  logged in means the session holds a `currentUser`, and the credential-shape
  check is an arbitrary validator supplied by the caller.
*/
module Router {
  import opened Wrappers
  import opened Bcrypt
  import opened Auth

  /** One request to the router; a signup also carries the random part of the salt it will draw. */
  datatype Request =
    | SignupRequest(username: string, password: string, nonce: Nonce)
    | LoginRequest(username: string, password: string)
    | LogoutRequest
    | MeRequest

  /** The three middlewares the routes mount. */
  datatype Guard = IsLoggedIn | IsNotLoggedIn | ValidationLogin

  /** The credential-shape check `validationLogin` performs on (username, password). */
  type Validator = (string, string) -> bool

  /** Either a guard stopped the request (its reply is not modelled), or the handler ran. */
  datatype Routed = Blocked(guard: Guard) | Ran(step: Step)

  /** The guards a route mounts, in the order they run. */
  function Chain(req: Request): (gs: seq<Guard>)
    ensures |gs| > 0
    ensures req.SignupRequest? || req.LoginRequest? <==> gs == [IsNotLoggedIn, ValidationLogin]
    ensures req.LogoutRequest? || req.MeRequest? <==> gs == [IsLoggedIn]
  {
    match req
    case SignupRequest(_, _, _) => [IsNotLoggedIn, ValidationLogin]
    case LoginRequest(_, _) => [IsNotLoggedIn, ValidationLogin]
    case LogoutRequest => [IsLoggedIn]
    case MeRequest => [IsLoggedIn]
  }

  /** Whether guard `g` lets `req` through in state `st`. */
  predicate Admits(g: Guard, validate: Validator, st: State, req: Request)
  {
    match g
    case IsLoggedIn => st.session.Some?
    case IsNotLoggedIn => st.session.None?
    case ValidationLogin =>
      match req
      case SignupRequest(username, password, _) => validate(username, password)
      case LoginRequest(username, password) => validate(username, password)
      case _ => true
  }

  /** The position of the first guard of `gs` that stops the request, if any. */
  function FirstRejecting(gs: seq<Guard>, validate: Validator, st: State, req: Request): (r: Option<nat>)
    ensures r.None? <==> forall i :: 0 <= i < |gs| ==> Admits(gs[i], validate, st, req)
    ensures r.Some? ==>
      && r.value < |gs|
      && !Admits(gs[r.value], validate, st, req)
      && forall i :: 0 <= i < r.value ==> Admits(gs[i], validate, st, req)
    decreases |gs|
  {
    if |gs| == 0 then None
    else if !Admits(gs[0], validate, st, req) then Some(0)
    else
      match FirstRejecting(gs[1..], validate, st, req)
      case None => None
      case Some(k) => Some(k + 1)
  }

  /** The handler a request is routed to, once its guards have let it through. */
  function Handle(h: Hasher, st: State, req: Request): Step
    requires req.MeRequest? ==> st.session.Some?
  {
    match req
    case SignupRequest(username, password, nonce) => Signup(h, st, username, password, nonce)
    case LoginRequest(username, password) => Login(h, st, username, password)
    case LogoutRequest => Logout(st)
    case MeRequest => Me(st)
  }

  /**
    Runs the guard chain of `req` and, if every guard lets it through, its
    handler. A blocked request is stopped by the first guard that refuses it.
  */
  function Dispatch(h: Hasher, validate: Validator, st: State, req: Request): (r: Routed)
    ensures r.Ran? <==> forall g :: g in Chain(req) ==> Admits(g, validate, st, req)
    ensures r.Blocked? ==>
      exists i :: 0 <= i < |Chain(req)| && Chain(req)[i] == r.guard
        && !Admits(r.guard, validate, st, req)
        && forall j :: 0 <= j < i ==> Admits(Chain(req)[j], validate, st, req)
    ensures (req.SignupRequest? || req.LoginRequest?) && st.session.Some? ==> r == Blocked(IsNotLoggedIn)
    ensures (req.LogoutRequest? || req.MeRequest?) && st.session.None? ==> r == Blocked(IsLoggedIn)
    ensures r.Ran? ==> (req.MeRequest? ==> st.session.Some?) && r.step == Handle(h, st, req)
  {
    var gs := Chain(req);
    match FirstRejecting(gs, validate, st, req)
    case Some(k) => Blocked(gs[k])
    case None =>
      assert Admits(gs[0], validate, st, req);
      Ran(Handle(h, st, req))
  }

  /** The state a routed request leaves behind: a blocked request changes nothing. */
  function After(r: Routed, st: State): State
  {
    match r
    case Blocked(_) => st
    case Ran(step) => step.next
  }

  /** Serves `reqs` one after the other from `st`: the final state and each request's outcome. */
  function Run(h: Hasher, validate: Validator, st: State, reqs: seq<Request>): (r: (State, seq<Routed>))
    ensures |r.1| == |reqs|
    decreases |reqs|
  {
    if |reqs| == 0 then (st, [])
    else
      var first := Dispatch(h, validate, st, reqs[0]);
      var rest := Run(h, validate, After(first, st), reqs[1..]);
      (rest.0, [first] + rest.1)
  }
}
