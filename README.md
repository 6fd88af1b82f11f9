# Login handshake state machine

This project models `LoginMachine` from `machine.ts`. It is a finite-state machine that runs a two-step login handshake against a remote service. First, `LOGIN(username, password)` stores the credentials and starts the *login* call. If that call succeeds, the machine starts the *authenticate* call. Its request is built from the first candidate object in the login result (`BRANCH`, `COMPANY`, `MODULE`, `REFID`) plus the result's `clientID`. A successful authenticate call ends in the final state `authenticated` and records the user `{clientId}`. If either call fails, the machine goes to `failure` and keeps the error message. `RETRY` clears the message and starts over from the login call, using the stored credentials.

The model is pure:

- `LoginModel` (`login_model.dfy`) holds the data:
  - the five state tags (`LogginIn` keeps the source's spelling `logginIn`);
  - the context: credentials, optional error, optional user;
  - the inputs, where each remote call appears as the success and failure events it delivers;
  - the initial configuration.
- `LoginMachine` (`login_machine.dfy`) holds:
  - the four context updaters (`assign` actions);
  - the derivation of the authenticate request;
  - `Step`, which maps a configuration and an input to the next configuration plus the remote call the transition starts (`InvokeLogin` or `InvokeAuthenticate`).
- `LoginProperties` (`login_properties.dfy`) holds:
  - one lemma per transition of the state table;
  - the invariant every reachable configuration keeps;
  - lemmas about whole runs of events, computed with `Run`;
  - two concrete scenarios.
- `Wrappers` (`wrappers.dfy`) holds the `Option` type that stands for the source's `null`.

Where the source and its intended meaning differ, the model follows the intended meaning:

- The `assignUser` callback binds only `ctx` but reads `e.data` (machine.ts:79-80). The model takes the user's `clientId` from the result of the authenticate call that just succeeded.
- `authenticateService` reads `data.objs[0]` without a guard (machine.ts:111). In the source, an empty list makes the service throw before it calls `authenticate`. xstate then delivers that as the service's error, and the machine goes to `failure`. The model makes this failure explicit:
  - a login result with no candidate object goes straight to `Failure`;
  - the error is set to the fixed diagnostic `EmptyObjsMessage`;
  - no authenticate call is made.

## Model

| member | source | states |
|---|---|---|
| LoginModel.Initial | machine.ts:4-12 | the machine starts in `idle` with empty username and password, no error and no user |
| LoginMachine.RemoveError | machine.ts:78 | `removeError` clears the error and leaves credentials and user as they were |
| LoginMachine.AssignUser | machine.ts:79-86 | `assignUser` sets the user to `{clientId}` taken from the authenticate result's `clientID`; credentials and error unchanged |
| LoginMachine.AssignError | machine.ts:87-92 | `assignError` sets the error to the failed call's message and leaves credentials and user unchanged |
| LoginMachine.AssignCredentials | machine.ts:93-101 | `assignCredentials` replaces the credentials with exactly the `LOGIN` event's username and password; error and user unchanged |
| LoginMachine.LoginCall | machine.ts:104-107 | `loginService` calls `login` with exactly the username and password held in the context |
| LoginMachine.AuthRequestFor | machine.ts:109-118 | a request exists iff `objs` is non-empty; it carries the login result's `clientID` and exactly the routing fields of `objs[0]` |
| LoginMachine.Step | machine.ts:27-74 | an event changes the state iff the current state has a transition for it, and any other event leaves the configuration unchanged and starts no call; entering `logginIn` starts the login call with the stored credentials; entering `authenticating` starts the authenticate call with the request derived from the login result; only `LOGIN` in `idle` changes the credentials; only the authenticate success changes the user, setting it from that result; entering `failure` always records an error; no transition returns to `idle`; only the authenticate success reaches `authenticated` |
| LoginProperties.LoginFromIdle | machine.ts:28-35 | `LOGIN(u,p)` from `idle` moves to `logginIn` with credentials exactly `{u,p}`, error and user unchanged, and starts the login call with `{u,p}` |
| LoginProperties.LoginSucceeds | machine.ts:36-42 | a login result with a candidate object moves to `authenticating` with the context unchanged and starts the authenticate call with `{objs[0].BRANCH, clientID, objs[0].COMPANY, objs[0].MODULE, objs[0].REFID}` |
| LoginProperties.LoginResultWithoutObjectsFails | machine.ts:109-113 | a login result with empty `objs` moves to `failure` with a non-empty diagnostic, leaves credentials and user unchanged, and makes no authenticate call |
| LoginProperties.LoginFails | machine.ts:43-46 | a failed login call moves to `failure` with the error set to its message; credentials and user unchanged |
| LoginProperties.AuthenticateSucceeds | machine.ts:53-56 | a successful authenticate call moves to `authenticated` with the user set to `{clientId: result.clientID}`; credentials and error unchanged |
| LoginProperties.AuthenticateFails | machine.ts:57-60 | a failed authenticate call moves to `failure` with the error set to its message; the user stays as it was |
| LoginProperties.RetryFromFailure | machine.ts:66-72 | `RETRY` from `failure` moves to `logginIn`, clears the error, keeps the credentials and re-issues the login call with them |
| LoginProperties.IgnoredEvents | machine.ts:63-65 | every event in `authenticated`, `LOGIN` outside `idle` and `RETRY` outside `failure` leave the configuration unchanged and start no call |
| LoginProperties.InitialSatisfiesInv | machine.ts:4-12 | the initial configuration satisfies the invariant |
| LoginProperties.StepPreservesInv | machine.ts:27-101 | every step preserves the invariant: user present iff `authenticated`, error present iff `failure`, initial context while `idle` |
| LoginProperties.RunPreservesInv | machine.ts:27-101 | every sequence of events preserves the invariant |
| LoginProperties.ReachableInv | machine.ts:10-11 | in every configuration reachable from the initial one, a user is present iff the state is `authenticated` and an error iff the state is `failure` |
| LoginProperties.AuthenticatedIsAbsorbing | machine.ts:63-65 | once `authenticated`, no sequence of events changes the state or the context |
| LoginProperties.CredentialsFixedAfterLogin | machine.ts:27-74 | once `LOGIN` has been accepted, no sequence of events changes the credentials or returns to `idle` (a statement about configurations; the calls are the next row's subject) |
| LoginProperties.LoginCallsUseStoredCredentials | machine.ts:104-107 | once `LOGIN` has been accepted, every login call a run starts, each `RETRY`'s included, sends exactly the credentials that `LOGIN` stored |
| LoginProperties.UserComesFromAuthResult | machine.ts:79-86 | the user at the end of a run is the one at its start, or is `{clientId}` from the `clientID` of an authenticate success that the machine received while in `authenticating` |
| LoginProperties.AuthenticatedNeedsAuthDone | machine.ts:49-56 | a run that reaches `authenticated` from another state contains an authenticate success that the machine received while in `authenticating` |
| LoginProperties.AuthenticatedNeedsBothCalls | machine.ts:36-62 | no partial success: a run that reaches `authenticated` before the second call has started contains a login success with a candidate object, received in `logginIn`; after it the machine stays in `authenticating` until an authenticate success |
| LoginProperties.HappyPathScenario | machine.ts:28-62 | `LOGIN("alice","pw1")`, login result `{C1, [{1,2,3,4}]}`, authenticate result `{C1}` gives authenticate request `{1,"C1",2,3,4}`, state `authenticated` and user `{C1}` |
| LoginProperties.RetryScenario | machine.ts:66-72 | a login rejected with "bad credentials" gives `failure` with that message; then `RETRY` gives `logginIn` with no error and re-sends `alice`/`pw1` |

## Left out

- The xstate runtime (`createMachine`, `createModel`, the interpreter and its event queue) is not modelled. The model keeps only the transition semantics that the state table encodes. Stopping the interpreter in the final state becomes "every event is ignored".
- `softoneService` and its network calls are not modelled. Their results are input events: a login result carries `clientID` and `objs`, an authenticate result carries `clientID`, and a failure carries a message string.
- Asynchrony, timeouts and cancellation are not modelled. A call in flight is a state that waits for the call's success or failure event.
- The `events` re-export (machine.ts:125) is left out. It is wiring only.
- LoginProperties.LoginResultWithoutObjectsFails: the source enters `authenticating` for a moment and then fails there. The model goes straight to `failure`. The exact text of `EmptyObjsMessage` depends on the JavaScript engine, which the model does not capture.
- A login result whose `objs` is missing or not a list is not modelled, because the model's types give every login result a list.
- The candidate objects' routing fields are untyped in the source. The model gives them integer values.
