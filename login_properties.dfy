/**
 * Properties of the login machine: each transition of the state table with
 * its exact effect, the invariant every reachable configuration keeps, and
 * facts about whole runs of events.
 */
module LoginProperties {
  import opened Wrappers
  import opened LoginModel
  import opened LoginMachine

  // ---------------------------------------------------------------------
  // The transitions one by one.
  // ---------------------------------------------------------------------

  /** `LOGIN(u, p)` from `idle`: store exactly the submitted credentials and start the login call. */
  lemma LoginFromIdle(ctx: Context, u: string, p: string)
    ensures Step(Config(Idle, ctx), Login(u, p))
         == Outcome(Config(LogginIn, Context(Credentials(u, p), ctx.error, ctx.user)), InvokeLogin(Credentials(u, p)))
  {
  }

  /** A login result with a candidate object: move on to `authenticating`, context unchanged. */
  lemma LoginSucceeds(ctx: Context, result: LoginResult)
    requires |result.objs| > 0
    ensures Step(Config(LogginIn, ctx), LoginDone(result)).next == Config(Authenticating, ctx)
    ensures Step(Config(LogginIn, ctx), LoginDone(result)).invoke
         == InvokeAuthenticate(AuthRequest(result.objs[0].branch, result.clientID, result.objs[0].company,
                                           result.objs[0].moduleId, result.objs[0].refId))
  {
  }

  /**
   * A login result without candidate objects cannot produce the second
   * call's request: the machine fails with a non-empty diagnostic and no
   * authenticate call is made.
   */
  lemma LoginResultWithoutObjectsFails(ctx: Context, clientID: string)
    ensures Step(Config(LogginIn, ctx), LoginDone(LoginResult(clientID, [])))
         == Outcome(Config(Failure, Context(ctx.credentials, Some(EmptyObjsMessage), ctx.user)), NoInvocation)
    ensures |EmptyObjsMessage| > 0
  {
  }

  /** A failed login call: `failure` with its message; credentials and user unchanged. */
  lemma LoginFails(ctx: Context, message: string)
    ensures Step(Config(LogginIn, ctx), LoginError(message))
         == Outcome(Config(Failure, Context(ctx.credentials, Some(message), ctx.user)), NoInvocation)
  {
  }

  /** A successful authenticate call: the final state, with the user's `clientId` from its result. */
  lemma AuthenticateSucceeds(ctx: Context, result: AuthResult)
    ensures Step(Config(Authenticating, ctx), AuthDone(result))
         == Outcome(Config(Authenticated, Context(ctx.credentials, ctx.error, Some(User(result.clientID)))), NoInvocation)
  {
  }

  /** A failed authenticate call: `failure` with its message; credentials and user unchanged. */
  lemma AuthenticateFails(ctx: Context, message: string)
    ensures Step(Config(Authenticating, ctx), AuthError(message))
         == Outcome(Config(Failure, Context(ctx.credentials, Some(message), ctx.user)), NoInvocation)
  {
  }

  /** `RETRY` from `failure`: clear the error and re-issue the login call with the stored credentials. */
  lemma RetryFromFailure(ctx: Context)
    ensures Step(Config(Failure, ctx), Retry)
         == Outcome(Config(LogginIn, Context(ctx.credentials, None, ctx.user)), InvokeLogin(ctx.credentials))
  {
  }

  /** `authenticated` is final; `LOGIN` outside `idle` and `RETRY` outside `failure` are ignored. */
  lemma IgnoredEvents(c: Config, i: Input)
    requires c.state == Authenticated || (i.Login? && c.state != Idle) || (i.Retry? && c.state != Failure)
    ensures Step(c, i) == Outcome(c, NoInvocation)
  {
  }

  // ---------------------------------------------------------------------
  // The invariant of reachable configurations.
  // ---------------------------------------------------------------------

  /**
   * A user is present exactly in `authenticated`, an error exactly in
   * `failure`, and while the machine is `idle` its context is the initial one.
   */
  predicate Inv(c: Config)
  {
    && (c.ctx.user.Some? <==> c.state == Authenticated)
    && (c.ctx.error.Some? <==> c.state == Failure)
    && (c.state == Idle ==> c.ctx == InitialContext)
  }

  lemma InitialSatisfiesInv()
    ensures Inv(Initial())
  {
  }

  lemma StepPreservesInv(c: Config, i: Input)
    requires Inv(c)
    ensures Inv(Step(c, i).next)
  {
  }

  // ---------------------------------------------------------------------
  // Runs: a sequence of events fed to the machine one at a time.
  // ---------------------------------------------------------------------

  /** The configuration reached from `c` after the events `inputs`, in order. */
  function Run(c: Config, inputs: seq<Input>): (r: Config)
    decreases |inputs|
  {
    if inputs == [] then c else Run(Step(c, inputs[0]).next, inputs[1..])
  }

  /** Every configuration reached from one that keeps `Inv` keeps it too. */
  lemma {:induction false} RunPreservesInv(c: Config, inputs: seq<Input>)
    requires Inv(c)
    ensures Inv(Run(c, inputs))
    decreases |inputs|
  {
    if inputs != [] {
      StepPreservesInv(c, inputs[0]);
      RunPreservesInv(Step(c, inputs[0]).next, inputs[1..]);
    }
  }

  /** In every reachable configuration a user is present iff authenticated, an error iff failed. */
  lemma ReachableInv(inputs: seq<Input>)
    ensures var c := Run(Initial(), inputs);
      && (c.ctx.user.Some? <==> c.state == Authenticated)
      && (c.ctx.error.Some? <==> c.state == Failure)
  {
    InitialSatisfiesInv();
    RunPreservesInv(Initial(), inputs);
  }

  /** Once `authenticated`, no sequence of events changes the state or the context. */
  lemma {:induction false} AuthenticatedIsAbsorbing(c: Config, inputs: seq<Input>)
    requires c.state == Authenticated
    ensures Run(c, inputs) == c
    decreases |inputs|
  {
    if inputs != [] {
      AuthenticatedIsAbsorbing(Step(c, inputs[0]).next, inputs[1..]);
    }
  }

  /**
   * After `LOGIN` has been accepted the credentials never change again, so
   * every later login call, each `RETRY`'s included, uses them.
   */
  lemma {:induction false} CredentialsFixedAfterLogin(c: Config, inputs: seq<Input>)
    requires c.state != Idle
    ensures Run(c, inputs).ctx.credentials == c.ctx.credentials
    ensures Run(c, inputs).state != Idle
    decreases |inputs|
  {
    if inputs != [] {
      CredentialsFixedAfterLogin(Step(c, inputs[0]).next, inputs[1..]);
    }
  }

  /**
   * The calls that a run from `c` starts, one entry per event.  Every later
   * login call, including each one a `RETRY` makes, sends the credentials
   * that `LOGIN` stored.
   */
  function Invocations(c: Config, inputs: seq<Input>): (r: seq<Invocation>)
    ensures |r| == |inputs|
    decreases |inputs|
  {
    if inputs == [] then [] else [Step(c, inputs[0]).invoke] + Invocations(Step(c, inputs[0]).next, inputs[1..])
  }

  /** Once `LOGIN` has been accepted, every login call of the run sends the credentials it stored. */
  lemma {:induction false} LoginCallsUseStoredCredentials(c: Config, inputs: seq<Input>)
    requires c.state != Idle
    ensures forall k :: 0 <= k < |inputs| && Invocations(c, inputs)[k].InvokeLogin? ==>
      Invocations(c, inputs)[k].credentials == c.ctx.credentials
    decreases |inputs|
  {
    if inputs != [] {
      var next := Step(c, inputs[0]).next;
      LoginCallsUseStoredCredentials(next, inputs[1..]);
      forall k | 0 <= k < |inputs| && Invocations(c, inputs)[k].InvokeLogin?
        ensures Invocations(c, inputs)[k].credentials == c.ctx.credentials
      {
        if k > 0 {
          assert Invocations(c, inputs)[k] == Invocations(next, inputs[1..])[k - 1];
        }
      }
    }
  }

  /** Running a prefix of one more event is one step followed by a run of the shorter prefix of the rest. */
  lemma RunPrefix(c: Config, inputs: seq<Input>, m: nat)
    requires m < |inputs|
    ensures Run(c, inputs[..m + 1]) == Run(Step(c, inputs[0]).next, inputs[1..][..m])
  {
    assert inputs[..m + 1][0] == inputs[0];
    assert inputs[..m + 1][1..] == inputs[1..][..m];
  }

  /**
   * The user a run ends with is the one it started with, or comes from an
   * authenticate result that the machine received while `authenticating`.
   */
  lemma {:induction false} UserComesFromAuthResult(c: Config, inputs: seq<Input>)
    ensures var u := Run(c, inputs).ctx.user;
      u == c.ctx.user ||
      exists k :: 0 <= k < |inputs| && Run(c, inputs[..k]).state == Authenticating && inputs[k].AuthDone? &&
        u == Some(User(inputs[k].authResult.clientID))
    decreases |inputs|
  {
    if inputs != [] {
      var next := Step(c, inputs[0]).next;
      var u := Run(c, inputs).ctx.user;
      UserComesFromAuthResult(next, inputs[1..]);
      if u != next.ctx.user {
        var k :| 0 <= k < |inputs[1..]| && Run(next, inputs[1..][..k]).state == Authenticating &&
          inputs[1..][k].AuthDone? && u == Some(User(inputs[1..][k].authResult.clientID));
        RunPrefix(c, inputs, k);
        assert inputs[k + 1] == inputs[1..][k];
      } else if next.ctx.user != c.ctx.user {
        assert inputs[..0] == [];
        assert Run(c, inputs[..0]).state == Authenticating && inputs[0].AuthDone? && u == Some(User(inputs[0].authResult.clientID));
      }
    }
  }

  /**
   * A run that reaches `authenticated` from another state contains an
   * authenticate success that the machine received while `authenticating`.
   */
  lemma {:induction false} AuthenticatedNeedsAuthDone(c: Config, inputs: seq<Input>)
    requires c.state != Authenticated
    requires Run(c, inputs).state == Authenticated
    ensures exists k :: 0 <= k < |inputs| && Run(c, inputs[..k]).state == Authenticating && inputs[k].AuthDone?
    decreases |inputs|
  {
    if inputs[0].AuthDone? && c.state == Authenticating {
      assert inputs[..0] == [];
      assert Run(c, inputs[..0]).state == Authenticating;
    } else {
      var next := Step(c, inputs[0]).next;
      AuthenticatedNeedsAuthDone(next, inputs[1..]);
      var k :| 0 <= k < |inputs[1..]| && Run(next, inputs[1..][..k]).state == Authenticating && inputs[1..][k].AuthDone?;
      RunPrefix(c, inputs, k);
      assert inputs[k + 1] == inputs[1..][k];
    }
  }

  /**
   * The two calls succeed in sequence: the login success at `j` is received
   * in `logginIn` and has a candidate object, the machine then stays in
   * `authenticating` until the authenticate success at `k`.
   */
  ghost predicate SucceedsInSequence(c: Config, inputs: seq<Input>, j: int, k: int)
  {
    && 0 <= j < k < |inputs|
    && Run(c, inputs[..j]).state == LogginIn && inputs[j].LoginDone? && |inputs[j].loginResult.objs| > 0
    && inputs[k].AuthDone?
    && forall m :: j < m <= k ==> Run(c, inputs[..m]).state == Authenticating
  }

  /** The machine stays in `authenticating` until the authenticate success at `k`. */
  ghost predicate AuthenticatingUntil(c: Config, inputs: seq<Input>, k: int)
  {
    && 0 <= k < |inputs|
    && inputs[k].AuthDone?
    && forall m :: 0 <= m <= k ==> Run(c, inputs[..m]).state == Authenticating
  }

  /** A witness for the run after the first event is a witness for the whole run, one position later. */
  lemma ShiftSucceedsInSequence(c: Config, inputs: seq<Input>, j: int, k: int)
    requires inputs != []
    requires SucceedsInSequence(Step(c, inputs[0]).next, inputs[1..], j, k)
    ensures SucceedsInSequence(c, inputs, j + 1, k + 1)
  {
    var next := Step(c, inputs[0]).next;
    RunPrefix(c, inputs, j);
    assert inputs[j + 1] == inputs[1..][j] && inputs[k + 1] == inputs[1..][k];
    forall m | j + 1 < m <= k + 1 ensures Run(c, inputs[..m]).state == Authenticating {
      RunPrefix(c, inputs, m - 1);
    }
  }

  /** From `authenticating`, a run that reaches `authenticated` either stays there until the success or fails and succeeds afresh. */
  lemma {:induction false} FromAuthenticating(c: Config, inputs: seq<Input>)
    requires c.state == Authenticating
    requires Run(c, inputs).state == Authenticated
    ensures (exists k :: AuthenticatingUntil(c, inputs, k)) || (exists j, k :: SucceedsInSequence(c, inputs, j, k))
    decreases |inputs|, 1
  {
    assert inputs[..0] == [];
    if inputs[0].AuthDone? {
      assert AuthenticatingUntil(c, inputs, 0);
    } else {
      var next := Step(c, inputs[0]).next;
      if next.state == Authenticating {
        FromAuthenticating(next, inputs[1..]);
        if k :| AuthenticatingUntil(next, inputs[1..], k) {
          assert inputs[k + 1] == inputs[1..][k];
          forall m | 0 <= m <= k + 1 ensures Run(c, inputs[..m]).state == Authenticating {
            if m > 0 { RunPrefix(c, inputs, m - 1); }
          }
          assert AuthenticatingUntil(c, inputs, k + 1);
        } else {
          var j, k :| SucceedsInSequence(next, inputs[1..], j, k);
          ShiftSucceedsInSequence(c, inputs, j, k);
        }
      } else {
        AuthenticatedNeedsBothCalls(next, inputs[1..]);
        var j, k :| SucceedsInSequence(next, inputs[1..], j, k);
        ShiftSucceedsInSequence(c, inputs, j, k);
      }
    }
  }

  /**
   * There is no partial success: a run that reaches `authenticated` from a
   * state before the second call contains a login success received in
   * `logginIn` with a candidate object, after which the machine stays in
   * `authenticating` until an authenticate success.
   */
  lemma {:induction false} AuthenticatedNeedsBothCalls(c: Config, inputs: seq<Input>)
    requires c.state != Authenticated && c.state != Authenticating
    requires Run(c, inputs).state == Authenticated
    ensures exists j, k :: SucceedsInSequence(c, inputs, j, k)
    decreases |inputs|, 0
  {
    var next := Step(c, inputs[0]).next;
    if next.state == Authenticating {
      assert inputs[..0] == [];
      FromAuthenticating(next, inputs[1..]);
      if k :| AuthenticatingUntil(next, inputs[1..], k) {
        assert inputs[k + 1] == inputs[1..][k];
        forall m | 0 < m <= k + 1 ensures Run(c, inputs[..m]).state == Authenticating {
          RunPrefix(c, inputs, m - 1);
        }
        assert SucceedsInSequence(c, inputs, 0, k + 1);
      } else {
        var j, k :| SucceedsInSequence(next, inputs[1..], j, k);
        ShiftSucceedsInSequence(c, inputs, j, k);
      }
    } else {
      AuthenticatedNeedsBothCalls(next, inputs[1..]);
      var j, k :| SucceedsInSequence(next, inputs[1..], j, k);
      ShiftSucceedsInSequence(c, inputs, j, k);
    }
  }

  // ---------------------------------------------------------------------
  // Scenarios.
  // ---------------------------------------------------------------------

  /** The happy path: login, then authenticate with the first candidate object, then the final state. */
  lemma HappyPathScenario()
    ensures var c0 := Initial();
      var o1 := Step(c0, Login("alice", "pw1"));
      var o2 := Step(o1.next, LoginDone(LoginResult("C1", [CandidateObject(1, 2, 3, 4)])));
      var o3 := Step(o2.next, AuthDone(AuthResult("C1")));
      && o1.invoke == InvokeLogin(Credentials("alice", "pw1"))
      && o2.next.state == Authenticating
      && o2.invoke == InvokeAuthenticate(AuthRequest(1, "C1", 2, 3, 4))
      && o3.next.state == Authenticated
      && o3.next.ctx.user == Some(User("C1"))
  {
  }

  /** A rejected login, then `RETRY`: the error is cleared and the same credentials are sent again. */
  lemma RetryScenario()
    ensures var o1 := Step(Initial(), Login("alice", "pw1"));
      var o2 := Step(o1.next, LoginError("bad credentials"));
      var o3 := Step(o2.next, Retry);
      && o2.next.state == Failure && o2.next.ctx.error == Some("bad credentials")
      && o3.next.state == LogginIn && o3.next.ctx.error.None?
      && o3.invoke == InvokeLogin(Credentials("alice", "pw1"))
  {
  }
}
