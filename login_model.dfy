/**
 * The data the login machine carries: its state tags, its context and the
 * events that drive it, with the results the two remote calls deliver
 * (machine.ts:4-19, 27-74).
 */
module LoginModel {
  import opened Wrappers

  /** The five state tags.  `LogginIn` keeps the source's spelling `logginIn`. */
  datatype State = Idle | LogginIn | Authenticating | Authenticated | Failure

  datatype Credentials = Credentials(username: string, password: string)

  /** The authenticated user `{clientId}`. */
  datatype User = User(clientId: string)

  /** The machine's context: credentials, the last error message and the user. */
  datatype Context = Context(credentials: Credentials, error: Option<string>, user: Option<User>)

  /**
   * One entry of the login result's `objs` list, with the routing fields
   * `BRANCH`, `COMPANY`, `MODULE` and `REFID` (`module` is a Dafny keyword,
   * hence `moduleId`).
   */
  datatype CandidateObject = CandidateObject(branch: int, company: int, moduleId: int, refId: int)

  /** What a successful login call delivers. */
  datatype LoginResult = LoginResult(clientID: string, objs: seq<CandidateObject>)

  /** The parameters of the authenticate call `{branch, clientID, company, module, refid}`. */
  datatype AuthRequest = AuthRequest(branch: int, clientID: string, company: int, moduleId: int, refId: int)

  /** What a successful authenticate call delivers. */
  datatype AuthResult = AuthResult(clientID: string)

  /**
   * The events the machine reacts to: the two user events `LOGIN` and
   * `RETRY`, and the settlements of the two remote calls (the `onDone` and
   * `onError` events of the invoked services).
   */
  datatype Input =
    | Login(username: string, password: string)
    | Retry
    | LoginDone(loginResult: LoginResult)
    | LoginError(message: string)
    | AuthDone(authResult: AuthResult)
    | AuthError(message: string)

  /** A configuration: the current state tag together with the context. */
  datatype Config = Config(state: State, ctx: Context)

  /** The remote call a transition starts when it enters an in-flight state. */
  datatype Invocation =
    | NoInvocation
    | InvokeLogin(credentials: Credentials)
    | InvokeAuthenticate(request: AuthRequest)

  /** The result of one step: the next configuration and the call it starts. */
  datatype Outcome = Outcome(next: Config, invoke: Invocation)

  /** The credentials the model starts with: both strings empty. */
  const EmptyCredentials := Credentials("", "")

  /** The initial context `loginModel.initialContext`. */
  const InitialContext := Context(EmptyCredentials, None, None)

  /** The machine's initial configuration: state `idle` and the initial context. */
  function Initial(): (c: Config)
    ensures c.state == Idle && c.ctx.credentials.username == "" && c.ctx.credentials.password == ""
    ensures c.ctx.error.None? && c.ctx.user.None?
  {
    Config(Idle, InitialContext)
  }
}
