/** The JUnit extension that re-runs a test method annotated @Retryable:
    at most maxAttempts runs in all, the first through the normal JUnit
    invocation and the others by invoking the test method reflectively,
    stopping at the first run that passes and rethrowing the (unwrapped)
    failure of the last run when none passes. What a run of the test body
    does is not visible to the extension, so it is given as a sequence of
    outcomes, one per run. */
module TestRetryableExtension {
  import opened Common

  /** The throwables that matter to the extension: the reflective wrapper,
      whose cause may be null, and every other throwable. */
  datatype Throwable =
    | InvocationTargetException(cause: Option<Throwable>)
    | Thrown(className: string, message: string)

  /** The @Retryable annotation. */
  datatype Retryable = Retryable(maxAttempts: int)

  /** The annotation's default for maxAttempts. */
  const DefaultMaxAttempts := 3

  /** What one run of the test method body did. */
  datatype RunOutcome = Passed | Raised(t: Throwable)

  /** How a run is started: invocation.proceed() (with the full JUnit
      lifecycle) or Method.invoke on the test instance (test method only). */
  datatype Channel = Proceed | Reinvoke

  /** What interceptTestMethod did: the runs it started, the values it put
      under "retry_count" before each run, and the throwable it let escape
      (None when it returned normally). */
  datatype Interception = Interception(channels: seq<Channel>, retryCounts: seq<int>, thrown: Option<Throwable>)

  const RetryCountKey := "retry_count"

  /** unwrapException: the cause of a reflective wrapper, when it has one;
      any other throwable, and a wrapper without a cause, as it is. */
  function UnwrapException(t: Throwable): (u: Throwable)
    ensures u == t || (t.InvocationTargetException? && t.cause == Some(u))
    ensures t.InvocationTargetException? && t.cause.Some? ==> u == t.cause.value
  {
    if t.InvocationTargetException? && t.cause.Some? then t.cause.value else t
  }

  /** What reaches the extension from run `attempt`: proceed() rethrows the
      test's own throwable, Method.invoke wraps it. */
  function Delivered(attempt: nat, outcome: RunOutcome): RunOutcome
  {
    match outcome
    case Passed => Passed
    case Raised(t) => if attempt == 0 then Raised(t) else Raised(InvocationTargetException(Some(t)))
  }

  /** Unwrapping undoes the reflective wrapping of a later attempt, so the
      throwable reported is the test's own. */
  lemma ReinvokedFailureUnwraps(attempt: nat, t: Throwable)
    requires attempt >= 1
    ensures Delivered(attempt, Raised(t)).Raised?
    ensures UnwrapException(Delivered(attempt, Raised(t)).t) == t
  {
  }

  function ChannelFor(attempt: nat): Channel
  {
    if attempt == 0 then Proceed else Reinvoke
  }

  function Prefixed(channels: seq<Channel>, retryCounts: seq<int>, rest: Interception): Interception
  {
    Interception(channels + rest.channels, retryCounts + rest.retryCounts, rest.thrown)
  }

  /** The retry loop from attempt `attempt` on, as a recursive definition.
      One store write per run; a throwable escapes only once every remaining
      attempt has run, and the loop otherwise ends right after a run that
      passed. */
  function Attempts(maxAttempts: int, body: seq<RunOutcome>, attempt: nat): (r: Interception)
    requires maxAttempts <= |body|
    ensures |r.channels| == |r.retryCounts|
    ensures r.thrown.Some? ==> attempt < maxAttempts && |r.channels| == maxAttempts - attempt
    ensures r.thrown.None? && attempt < maxAttempts ==>
              && 1 <= |r.channels| <= maxAttempts - attempt
              && body[attempt + |r.channels| - 1].Passed?
    decreases maxAttempts - attempt
  {
    if attempt >= maxAttempts then Interception([], [], None)
    else
      var delivered := Delivered(attempt, body[attempt]);
      if delivered.Passed? then Interception([ChannelFor(attempt)], [attempt], None)
      else if attempt < maxAttempts - 1 then
        Prefixed([ChannelFor(attempt)], [attempt], Attempts(maxAttempts, body, attempt + 1))
      else Interception([ChannelFor(attempt)], [attempt], Some(UnwrapException(delivered.t)))
  }

  /** The whole interception: a test without @Retryable is run once through
      proceed() and its outcome propagates unchanged. */
  function Intercept(annotation: Option<Retryable>, body: seq<RunOutcome>): (r: Interception)
    requires |body| >= 1
    requires annotation.Some? ==> annotation.value.maxAttempts <= |body|
    ensures annotation.None? ==> (r.thrown.None? <==> body[0].Passed?)
    ensures annotation.Some? && r.thrown.Some? ==> |r.channels| == annotation.value.maxAttempts
    ensures annotation.Some? && r.thrown.None? && annotation.value.maxAttempts >= 1 ==>
              && 1 <= |r.channels| <= annotation.value.maxAttempts
              && body[|r.channels| - 1].Passed?
  {
    match annotation
    case None => Interception([Proceed], [], if body[0].Raised? then Some(body[0].t) else None)
    case Some(retryable) => Attempts(retryable.maxAttempts, body, 0)
  }

  /** interceptTestMethod. `body` holds the outcome of each run the test
      method could be asked for (at least one, and at least maxAttempts). */
  method InterceptTestMethod(annotation: Option<Retryable>, body: seq<RunOutcome>) returns (r: Interception)
    requires |body| >= 1
    requires annotation.Some? ==> annotation.value.maxAttempts <= |body|
    ensures r == Intercept(annotation, body)
  {
    if annotation.None? {
      return Interception([Proceed], [], if body[0].Raised? then Some(body[0].t) else None);
    }
    var maxAttempts := annotation.value.maxAttempts;
    var channels: seq<Channel> := [];
    var retryCounts: seq<int> := [];
    var attempt: nat := 0;
    while attempt < maxAttempts
      invariant attempt == 0 || attempt < maxAttempts
      invariant Attempts(maxAttempts, body, 0) == Prefixed(channels, retryCounts, Attempts(maxAttempts, body, attempt))
      decreases maxAttempts - attempt
    {
      retryCounts := retryCounts + [attempt];
      var channel := if attempt == 0 then Proceed else Reinvoke;
      channels := channels + [channel];
      var delivered := Delivered(attempt, body[attempt]);
      if delivered.Passed? {
        return Interception(channels, retryCounts, None);
      }
      var actualException := UnwrapException(delivered.t);
      if attempt >= maxAttempts - 1 {
        return Interception(channels, retryCounts, Some(actualException));
      }
      attempt := attempt + 1;
    }
    r := Interception(channels, retryCounts, None);
  }

  /** From attempt `a` on: as many runs as store writes, never more than
      the attempts left, the first through proceed() and the rest reflective,
      and before each run the store holds that run's 0-based index. */
  lemma {:induction false} AttemptsShape(maxAttempts: int, body: seq<RunOutcome>, a: nat)
    requires maxAttempts <= |body|
    ensures var r := Attempts(maxAttempts, body, a);
      && |r.channels| == |r.retryCounts|
      && (a >= maxAttempts ==> |r.channels| == 0)
      && (a < maxAttempts ==> 1 <= |r.channels| <= maxAttempts - a)
      && (forall j :: 0 <= j < |r.retryCounts| ==> r.retryCounts[j] == a + j)
      && (forall j :: 0 <= j < |r.channels| ==> r.channels[j] == ChannelFor(a + j))
    decreases maxAttempts - a
  {
    if a < maxAttempts && Delivered(a, body[a]).Raised? && a < maxAttempts - 1 {
      AttemptsShape(maxAttempts, body, a + 1);
    }
  }

  /** From attempt `a` on: if runs a .. k-1 fail and run k passes, exactly
      those runs happen and nothing escapes. */
  lemma {:induction false} AttemptsStopAtFirstPass(maxAttempts: int, body: seq<RunOutcome>, a: nat, k: nat)
    requires maxAttempts <= |body|
    requires a <= k < maxAttempts
    requires forall j :: a <= j < k ==> body[j].Raised?
    requires body[k].Passed?
    ensures |Attempts(maxAttempts, body, a).channels| == k - a + 1
    ensures Attempts(maxAttempts, body, a).thrown.None?
    decreases k - a
  {
    if a < k {
      AttemptsStopAtFirstPass(maxAttempts, body, a + 1, k);
    }
  }

  /** From attempt `a` on: if every remaining run fails, all of them happen
      and the failure of the last one, unwrapped, escapes. */
  lemma {:induction false} AttemptsAllFail(maxAttempts: int, body: seq<RunOutcome>, a: nat)
    requires maxAttempts <= |body|
    requires a < maxAttempts
    requires forall j :: a <= j < maxAttempts ==> body[j].Raised?
    ensures |Attempts(maxAttempts, body, a).channels| == maxAttempts - a
    ensures Attempts(maxAttempts, body, a).thrown
            == Some(UnwrapException(Delivered(maxAttempts - 1, body[maxAttempts - 1]).t))
    decreases maxAttempts - a
  {
    if a < maxAttempts - 1 {
      AttemptsAllFail(maxAttempts, body, a + 1);
    }
  }

  /** With maxAttempts = n: at most n runs (none when n <= 0, and then the
      test is never invoked and nothing is thrown); the first run goes
      through proceed(), the later ones through Method.invoke; before each
      run "retry_count" holds that run's index. */
  lemma RetriesAreBounded(n: int, body: seq<RunOutcome>)
    requires |body| >= 1 && n <= |body|
    ensures var r := Intercept(Some(Retryable(n)), body);
      && |r.channels| == |r.retryCounts| <= (if n <= 0 then 0 else n)
      && (n <= 0 ==> r == Interception([], [], None))
      && (n >= 1 ==> |r.channels| >= 1 && r.channels[0] == Proceed)
      && (forall j :: 1 <= j < |r.channels| ==> r.channels[j] == Reinvoke)
      && (forall j :: 0 <= j < |r.retryCounts| ==> r.retryCounts[j] == j)
  {
    AttemptsShape(n, body, 0);
  }

  /** If the first k runs fail and run k + 1 passes (k < n), exactly k + 1
      runs happen and the test passes. */
  lemma RetryStopsAtFirstPass(n: int, body: seq<RunOutcome>, k: nat)
    requires n <= |body| && k < n
    requires forall j :: 0 <= j < k ==> body[j].Raised?
    requires body[k].Passed?
    ensures |Intercept(Some(Retryable(n)), body).channels| == k + 1
    ensures Intercept(Some(Retryable(n)), body).thrown.None?
  {
    AttemptsStopAtFirstPass(n, body, 0, k);
  }

  /** If all n runs fail, n runs happen and the last run's own failure is
      rethrown; the earlier failures are only logged. */
  lemma RetryRethrowsLastFailure(n: int, body: seq<RunOutcome>)
    requires 2 <= n <= |body|
    requires forall j :: 0 <= j < n ==> body[j].Raised?
    ensures |Intercept(Some(Retryable(n)), body).channels| == n
    ensures Intercept(Some(Retryable(n)), body).thrown == Some(body[n - 1].t)
  {
    AttemptsAllFail(n, body, 0);
    ReinvokedFailureUnwraps(n - 1, body[n - 1].t);
  }

  /** Without @Retryable the test runs once, through proceed(), and what it
      raised is what escapes. */
  lemma WithoutAnnotationRunsOnce(body: seq<RunOutcome>)
    requires |body| >= 1
    ensures Intercept(None, body).channels == [Proceed]
    ensures Intercept(None, body).thrown == (if body[0].Raised? then Some(body[0].t) else None)
  {
  }

  /** The "always fails" test under the default annotation fails twice and
      then passes: three runs in all, not "3 attempts + 1 original". */
  lemma DefaultAnnotationMeansThreeRunsInAll(failure: Throwable)
    ensures var body := [Raised(failure), Raised(failure), Passed];
      && |Intercept(Some(Retryable(DefaultMaxAttempts)), body).channels| == 3
      && Intercept(Some(Retryable(DefaultMaxAttempts)), body).thrown.None?
  {
    RetryStopsAtFirstPass(DefaultMaxAttempts, [Raised(failure), Raised(failure), Passed], 2);
  }
}
