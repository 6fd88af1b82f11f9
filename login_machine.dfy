/**
 * The transition semantics of `LoginMachine` (machine.ts:21-123): the
 * context updaters, the derivation of the authenticate call's parameters
 * and the single-step transition function.
 */
module LoginMachine {
  import opened Wrappers
  import opened LoginModel

  // ---------------------------------------------------------------------
  // Context updaters.  Each is an `assign` that replaces only the fields it
  // names and leaves the others as they were.
  // ---------------------------------------------------------------------

  /** `removeError`: clears the error. */
  function RemoveError(ctx: Context): (r: Context)
    ensures r.error.None?
    ensures r.credentials == ctx.credentials && r.user == ctx.user
  {
    ctx.(error := None)
  }

  /**
   * `assignUser`: records the user from the authenticate call's result.  The
   * source's callback binds only `ctx` yet reads `e.data`; this is its
   * intended meaning, the `clientID` of the event it handles.
   */
  function AssignUser(ctx: Context, result: AuthResult): (r: Context)
    ensures r.user.Some? && r.user.value.clientId == result.clientID
    ensures r.credentials == ctx.credentials && r.error == ctx.error
  {
    ctx.(user := Some(User(result.clientID)))
  }

  /** `assignError`: records the failed call's message, replacing any earlier one. */
  function AssignError(ctx: Context, message: string): (r: Context)
    ensures r.error == Some(message)
    ensures r.credentials == ctx.credentials && r.user == ctx.user
  {
    ctx.(error := Some(message))
  }

  /** `assignCredentials`: replaces the credentials with those of the `LOGIN` event. */
  function AssignCredentials(ctx: Context, username: string, password: string): (r: Context)
    ensures r.credentials.username == username && r.credentials.password == password
    ensures r.error == ctx.error && r.user == ctx.user
  {
    ctx.(credentials := Credentials(username, password))
  }

  // ---------------------------------------------------------------------
  // The two services.
  // ---------------------------------------------------------------------

  /** `loginService` calls `login` with the credentials held in the context. */
  function LoginCall(ctx: Context): (r: Credentials)
    ensures r.username == ctx.credentials.username && r.password == ctx.credentials.password
  {
    ctx.credentials
  }

  /**
   * `authenticateService` builds its request from the first candidate object
   * of the login result and the result's `clientID`.  The source indexes
   * `objs[0]` unguarded; here an empty list yields no request.
   */
  function AuthRequestFor(result: LoginResult): (r: Option<AuthRequest>)
    ensures r.Some? <==> |result.objs| > 0
    ensures r.Some? ==> r.value.clientID == result.clientID && CandidateOf(r.value) == result.objs[0]
  {
    if |result.objs| == 0 then None
    else
      var first := result.objs[0];
      Some(AuthRequest(first.branch, result.clientID, first.company, first.moduleId, first.refId))
  }

  /** The candidate object whose routing fields a request carries. */
  function CandidateOf(request: AuthRequest): (o: CandidateObject)
  {
    CandidateObject(request.branch, request.company, request.moduleId, request.refId)
  }

  /**
   * The diagnostic recorded when the login result has no candidate object.
   * In the source the service fails reading `BRANCH` of `objs[0]`, which is
   * undefined, before it calls `authenticate`.
   */
  const EmptyObjsMessage := "Cannot read properties of undefined (reading 'BRANCH')"

  // ---------------------------------------------------------------------
  // The state table.
  // ---------------------------------------------------------------------

  /**
   * Which events each state has a transition for: `LOGIN` in `idle`, the
   * login call's settlement in `logginIn`, the authenticate call's in
   * `authenticating`, `RETRY` in `failure`, and nothing in the final state.
   */
  predicate Handles(s: State, i: Input)
  {
    match s
    case Idle => i.Login?
    case LogginIn => i.LoginDone? || i.LoginError?
    case Authenticating => i.AuthDone? || i.AuthError?
    case Authenticated => false
    case Failure => i.Retry?
  }

  /**
   * One step of the machine.  Events a state has no transition for leave
   * the configuration as it is; a transition into `logginIn` or
   * `authenticating` starts that state's remote call.
   */
  function Step(c: Config, i: Input): (r: Outcome)
    // every handled event changes the state, every other one is ignored
    ensures Handles(c.state, i) <==> r.next.state != c.state
    ensures !Handles(c.state, i) ==> r == Outcome(c, NoInvocation)
    // entering an in-flight state starts its call, and only then is a call started
    ensures r.next.state != c.state ==>
      (r.invoke.InvokeLogin? <==> r.next.state == LogginIn) &&
      (r.invoke.InvokeAuthenticate? <==> r.next.state == Authenticating)
    ensures r.next.state == c.state ==> r.invoke.NoInvocation?
    // the login call uses the credentials stored in the context
    ensures r.invoke.InvokeLogin? ==> r.invoke.credentials == r.next.ctx.credentials
    // the authenticate call uses the request derived from the login result
    ensures r.invoke.InvokeAuthenticate? ==>
      i.LoginDone? && AuthRequestFor(i.loginResult) == Some(r.invoke.request)
    // which transitions may change which part of the context
    ensures r.next.ctx.credentials != c.ctx.credentials ==> c.state == Idle && i.Login?
    ensures r.next.ctx.user != c.ctx.user ==>
      c.state == Authenticating && i.AuthDone? && r.next.ctx.user == Some(User(i.authResult.clientID))
    ensures r.next.ctx.error != c.ctx.error ==>
      (r.next.state == Failure && r.next.ctx.error.Some?) || (c.state == Failure && i.Retry?)
    ensures r.next.state == Failure && c.state != Failure ==> r.next.ctx.error.Some?
    // no transition leads back to idle, and only the authenticate call's success reaches the final state
    ensures r.next.state == Idle ==> c.state == Idle
    ensures r.next.state == Authenticated ==> c.state == Authenticated || (c.state == Authenticating && i.AuthDone?)
  {
    match c.state
    case Idle =>
      if i.Login? then
        var ctx := AssignCredentials(c.ctx, i.username, i.password);
        Outcome(Config(LogginIn, ctx), InvokeLogin(LoginCall(ctx)))
      else Outcome(c, NoInvocation)
    case LogginIn =>
      (match i
       case LoginDone(result) =>
         (match AuthRequestFor(result)
          case Some(request) => Outcome(Config(Authenticating, c.ctx), InvokeAuthenticate(request))
          case None => Outcome(Config(Failure, AssignError(c.ctx, EmptyObjsMessage)), NoInvocation))
       case LoginError(message) => Outcome(Config(Failure, AssignError(c.ctx, message)), NoInvocation)
       case _ => Outcome(c, NoInvocation))
    case Authenticating =>
      (match i
       case AuthDone(result) => Outcome(Config(Authenticated, AssignUser(c.ctx, result)), NoInvocation)
       case AuthError(message) => Outcome(Config(Failure, AssignError(c.ctx, message)), NoInvocation)
       case _ => Outcome(c, NoInvocation))
    case Authenticated =>
      Outcome(c, NoInvocation)
    case Failure =>
      if i.Retry? then
        var ctx := RemoveError(c.ctx);
        Outcome(Config(LogginIn, ctx), InvokeLogin(LoginCall(ctx)))
      else Outcome(c, NoInvocation)
  }
}
