/**
 The step runner and its polling steps: `pkg/util/steps/refreshing.go`, `condition.go` and
 `runner.go`, with the deployment errors of `pkg/util/arm/deploy.go` and the classifiers of
 `pkg/util/azureerrors/error.go`.

 Outcomes, durations and cancellation are a script; the loop of `wait.PollUntilContextTimeout`
 is written out over it.  Times are nanoseconds since the step began.
 */
module Steps {
  import opened Wrappers

  // ---------------------------------------------------------------- errors

  datatype Detail = Detail(code: Option<string>, message: Option<string>)

  datatype ServiceError = ServiceError(code: string, details: seq<Detail>)

  /** What a detailed error wraps: a pointer to a service error, a request error by pointer or
      by value, or something else. */
  datatype Original =
    | OfService(service: ServiceError)
    | OfRequestPointer(inner: Option<ServiceError>)
    | OfRequestValue(inner: Option<ServiceError>)
    | OfOther

  datatype Error =
    | Detailed(original: Original, text: string)
    | Service(service: ServiceError, text: string)
    | Cloud(text: string)
    | WantRefresh
    | DeadlineExceeded
    | Canceled
    | InternalTimeout(cause: Error)
    | Other(text: string)

  /** What the errors' surroundings compute: error texts, the code inside a detail's message when
      it is a cloud error in JSON, and the text of the cloud error wrapped around a service error. */
  datatype Rendering = Rendering(
    text: Error -> string,
    cloudCode: string -> Option<string>,
    wrapped: ServiceError -> string)

  predicate OccursAt(s: string, t: string, i: nat) {
    i + |t| <= |s| && s[i..i + |t|] == t
  }

  predicate Contains(s: string, t: string) {
    exists i: nat | i <= |s| :: OccursAt(s, t, i)
  }

  predicate ForbiddenFor(r: Rendering, d: Detail, authCode: string) {
    d.code == Some("Forbidden") && d.message.Some? && r.cloudCode(d.message.value) == Some(authCode)
  }

  predicate DueToAuthError(r: Rendering, e: Error, authCode: string) {
    || (e.Detailed? && e.original.OfService? && e.original.service.code == authCode)
    || (e.Detailed? && e.original.OfRequestPointer? && e.original.inner.Some? && e.original.inner.value.code == authCode)
    || (e.Service? && e.service.code == "DeploymentFailed" &&
        exists i | 0 <= i < |e.service.details| :: ForbiddenFor(r, e.service.details[i], authCode))
  }

  predicate HasAuthorizationFailed(r: Rendering, e: Error) {
    DueToAuthError(r, e, "AuthorizationFailed")
  }

  predicate HasLinkedAuthorizationFailed(r: Rendering, e: Error) {
    DueToAuthError(r, e, "LinkedAuthorizationFailed")
  }

  predicate IsDeploymentActive(e: Error) {
    e.Detailed? && e.original.OfRequestValue? && e.original.inner.Some? && e.original.inner.value.code == "DeploymentActive"
  }

  predicate IsUnauthorizedClient(r: Rendering, e: Error) {
    Contains(r.text(e), "AADSTS700016")
  }

  predicate IsInvalidSecret(r: Rendering, e: Error) {
    Contains(r.text(e), "AADSTS7000215")
  }

  /** What the retry step retries. */
  predicate Retryable(r: Rendering, e: Error) {
    IsUnauthorizedClient(r, e) || HasAuthorizationFailed(r, e) || IsInvalidSecret(r, e) || e == WantRefresh
  }

  // ---------------------------------------------------------------- deploying a template

  function ServiceErrorOf(e: Error): Option<ServiceError> {
    if e.Service? then Some(e.service)
    else if e.Detailed? && e.original.OfService? then Some(e.original.service)
    else None
  }

  /** What the deployment client finally answers: a deployment that was already active is waited for. */
  function Answer(create: Option<Error>, wait: Option<Error>): Option<Error> {
    if create.Some? && IsDeploymentActive(create.value) then wait else create
  }

  predicate FailsToAuthorize(r: Rendering, answer: Option<Error>) {
    answer.Some? && HasAuthorizationFailed(r, answer.value)
  }

  predicate FailsToAuthorizeLinked(r: Rendering, answer: Option<Error>) {
    answer.Some? && HasLinkedAuthorizationFailed(r, answer.value)
  }

  /** What comes out of the deployment that was answered so. */
  function Deployed(r: Rendering, create: Option<Error>, wait: Option<Error>): Option<Error> {
    var answer := Answer(create, wait);
    if answer.None? || FailsToAuthorize(r, answer) || FailsToAuthorizeLinked(r, answer) then answer
    else
      match ServiceErrorOf(answer.value)
      case None => answer
      case Some(service) => Some(Cloud(r.wrapped(service)))
  }

  /** No error is lost or invented, and both authorization classifiers say of what comes out what
      they would have said of the answer.  An authorization failure comes out as it was, and so
      does everything that is no service error; no other service error comes out bare. */
  method DeployTemplate(r: Rendering, create: Option<Error>, wait: Option<Error>) returns (err: Option<Error>)
    ensures err.None? <==> Answer(create, wait).None?
    ensures FailsToAuthorize(r, err) <==> FailsToAuthorize(r, Answer(create, wait))
    ensures FailsToAuthorizeLinked(r, err) <==> FailsToAuthorizeLinked(r, Answer(create, wait))
    ensures FailsToAuthorize(r, err) || FailsToAuthorizeLinked(r, err) ==> err == Answer(create, wait)
    ensures err.Some? && (err.value.Service? || (err.value.Detailed? && err.value.original.OfService?)) ==>
              FailsToAuthorize(r, err) || FailsToAuthorizeLinked(r, err)
    ensures err != Answer(create, wait) ==>
              && Answer(create, wait).Some? && ServiceErrorOf(Answer(create, wait).value).Some?
              && err == Some(Cloud(r.wrapped(ServiceErrorOf(Answer(create, wait).value).value)))
    ensures err == Deployed(r, create, wait)
  {
    err := create;
    if err.Some? && IsDeploymentActive(err.value) {
      err := wait;
    }
    if err.Some? && (HasAuthorizationFailed(r, err.value) || HasLinkedAuthorizationFailed(r, err.value)) {
      return;
    }
    var serviceErr: Option<ServiceError> := None;
    if err.Some? && err.value.Service? {
      serviceErr := Some(err.value.service);
    }
    if err.Some? && err.value.Detailed? {
      serviceErr := if err.value.original.OfService? then Some(err.value.original.service) else None;
    }
    if serviceErr.Some? {
      err := Some(Cloud(r.wrapped(serviceErr.value)));
    }
  }

  /** A request error, by value, with the one code that makes the client's answer be waited for. */
  ghost predicate SaysActive(create: Option<Error>) {
    exists service: ServiceError, text: string ::
      create == Some(Detailed(OfRequestValue(Some(service)), text)) && service.code == "DeploymentActive"
  }

  /** A deployment that is active already comes to what waiting for it comes to; any other answer
      comes out without waiting, whatever waiting would have said. */
  lemma {:induction false} WaitsIffActive(r: Rendering, create: Option<Error>, wait: Option<Error>, other: Option<Error>)
    ensures Answer(create, wait) == if SaysActive(create) then wait else create
    ensures !SaysActive(create) ==> Deployed(r, create, wait) == Deployed(r, create, other)
    ensures SaysActive(create) ==> (Deployed(r, create, wait).None? <==> wait.None?)
    ensures SaysActive(create) && FailsToAuthorize(r, wait) ==> Deployed(r, create, wait) == wait
  {
    if create.Some? && IsDeploymentActive(create.value) {
      assert create == Some(Detailed(OfRequestValue(Some(create.value.original.inner.value)), create.value.text));
    }
  }

  /** A detail that holds this code in its message. */
  predicate TellsOf(r: Rendering, d: Detail, code: string) {
    d.code == Some("Forbidden") && d.message.Some? && r.cloudCode(d.message.value) == Some(code)
  }

  /** Which errors are authorization failures, error by error; the linked ones differ in the code. */
  lemma {:induction false} WhichErrorsFailToAuthorize(r: Rendering, e: Error, linked: bool)
    ensures var code := if linked then "LinkedAuthorizationFailed" else "AuthorizationFailed";
            (if linked then HasLinkedAuthorizationFailed(r, e) else HasAuthorizationFailed(r, e)) <==>
              match e
              case Detailed(OfService(service), _) => service.code == code
              case Detailed(OfRequestPointer(Some(service)), _) => service.code == code
              case Service(service, _) =>
                service.code == "DeploymentFailed" && exists d :: d in service.details && TellsOf(r, d, code)
              case _ => false
  {
    if e.Service? {
      DetailsTell(r, e.service.details, if linked then "LinkedAuthorizationFailed" else "AuthorizationFailed");
    }
  }

  lemma {:induction false} DetailsTell(r: Rendering, ds: seq<Detail>, code: string)
    ensures (exists i | 0 <= i < |ds| :: ForbiddenFor(r, ds[i], code)) <==> exists d :: d in ds && TellsOf(r, d, code)
  {
    if i :| 0 <= i < |ds| && ForbiddenFor(r, ds[i], code) {
      assert ds[i] in ds && TellsOf(r, ds[i], code);
    }
    if d :| d in ds && TellsOf(r, d, code) {
      var i :| 0 <= i < |ds| && ds[i] == d;
      assert ForbiddenFor(r, ds[i], code);
    }
  }

  /** Which errors are retried: authorization failures, a wish for fresh credentials, and those whose
      text tells of an unknown client or an invalid secret. */
  lemma {:induction false} WhichErrorsAreRetried(r: Rendering, e: Error)
    ensures Retryable(r, e) <==>
              || e.WantRefresh? || HasAuthorizationFailed(r, e)
              || (exists a: string, b: string :: r.text(e) == a + "AADSTS700016" + b)
              || (exists a: string, b: string :: r.text(e) == a + "AADSTS7000215" + b)
  {
    ContainsIff(r.text(e), "AADSTS700016");
    ContainsIff(r.text(e), "AADSTS7000215");
  }

  lemma {:induction false} ContainsIff(s: string, t: string)
    ensures Contains(s, t) <==> exists a: string, b: string :: s == a + t + b
  {
    if Contains(s, t) {
      var i: nat :| i <= |s| && OccursAt(s, t, i);
      assert s == s[..i] + t + s[i + |t|..];
    }
    if a: string, b: string :| s == a + t + b {
      assert s[|a|..|a| + |t|] == t;
      assert OccursAt(s, t, |a|);
    }
  }

  /** The text alone makes an error worth a retry. */
  predicate TextIsRetryable(r: Rendering, e: Error) {
    IsUnauthorizedClient(r, e) || IsInvalidSecret(r, e)
  }

  /** Exactly when an answer is worth a retry by the time the deployment has passed it on: a wrapped
      service error has only the new error's text left to show. */
  lemma {:induction false} DeployedIsRetryableIff(r: Rendering, create: Option<Error>, wait: Option<Error>)
    requires Answer(create, wait).Some?
    ensures var e := Answer(create, wait).value;
            var out := Deployed(r, create, wait);
            && out.Some?
            && (Retryable(r, out.value) <==>
                  if ServiceErrorOf(e).Some? && !HasAuthorizationFailed(r, e) && !HasLinkedAuthorizationFailed(r, e)
                  then TextIsRetryable(r, Cloud(r.wrapped(ServiceErrorOf(e).value)))
                  else Retryable(r, e))
  {
    var e := Answer(create, wait).value;
    if ServiceErrorOf(e).Some? {
      assert Deployed(r, create, wait) == Some(e) || Deployed(r, create, wait).value.Cloud?;
    }
  }

  /** A linked authorization failure is not of itself retried.  It is for its text; or, being a
      failed deployment with several details, because one of the others is a plain authorization failure. */
  lemma {:induction false} LinkedFailureIsRetriedIff(r: Rendering, create: Option<Error>, wait: Option<Error>)
    requires FailsToAuthorizeLinked(r, Answer(create, wait))
    ensures var e := Answer(create, wait).value;
            && Deployed(r, create, wait) == Some(e)
            && (Retryable(r, e) <==>
                  || TextIsRetryable(r, e)
                  || (e.Service? && exists i | 0 <= i < |e.service.details| ::
                        ForbiddenFor(r, e.service.details[i], "AuthorizationFailed")))
  {
    assert "LinkedAuthorizationFailed" != "AuthorizationFailed" by {
      assert |"LinkedAuthorizationFailed"| != |"AuthorizationFailed"|;
    }
  }

  // ---------------------------------------------------------------- polling

  /** One call of a condition: what it answers, how long it takes, and how late the next one is. */
  datatype Round = Round(done: bool, err: Option<Error>, length: nat, lag: nat)

  /** How the context handed to the step ends, should it end: cancelled, or at a deadline of its own. */
  datatype Outer = Outer(at: nat, deadline: bool)

  /** The polling context ends at its timeout, or with the outer context if that ends before. */
  datatype Clock = Clock(interval: nat, timeout: nat, outer: Option<Outer>) {
    predicate OuterFirst() {
      outer.Some? && outer.value.at < timeout
    }

    function End(): nat {
      if OuterFirst() then outer.value.at else timeout
    }

    predicate Expired(now: nat) {
      now >= End()
    }

    /** `ctx.Err()` once expired. */
    function Why(): Error {
      if OuterFirst() && !outer.value.deadline then Canceled else DeadlineExceeded
    }
  }

  /** A condition, as a function of the number of the call and its starting time. */
  type Condition = (nat, nat) -> Round

  function Max(a: nat, b: nat): nat {
    if a < b then b else a
  }

  /** When call k starts, the one after call k - 1: that call must be over, and the ticker, which
      started with the step and is never reset, must have sent its k-th tick.  A call that overran
      ticks finds one of them waiting; those it loses beyond that are part of the lag. */
  function StartOf(c: Clock, f: Condition, k: nat): nat {
    if k == 0 then 0 else NextStart(c, k - 1, StartOf(c, f, k - 1), f(k - 1, StartOf(c, f, k - 1)))
  }

  /** When call k + 1 starts, call k having started at `now`. */
  function NextStart(c: Clock, k: nat, now: nat, round: Round): nat {
    Max(now + round.length, (k + 1) * c.interval) + round.lag
  }

  function RoundOf(c: Clock, f: Condition, k: nat): Round {
    f(k, StartOf(c, f, k))
  }

  /** Call k neither ends the polling itself nor is the last for lack of time. */
  predicate GoesOn(c: Clock, f: Condition, k: nat) {
    !RoundOf(c, f, k).done && RoundOf(c, f, k).err.None? && !c.Expired(StartOf(c, f, k + 1))
  }

  /** Call n is the last. */
  ghost predicate StopsAt(c: Clock, f: Condition, n: nat) {
    (forall k: nat :: k < n ==> GoesOn(c, f, k)) && !GoesOn(c, f, n)
  }

  /** What polling returns when call n is the last. */
  function ResultAt(c: Clock, f: Condition, n: nat): Option<Error> {
    var round := RoundOf(c, f, n);
    if round.err.Some? || round.done then round.err else Some(c.Why())
  }

  /** The loop: the condition is called at once, then again at every tick until it is done, fails,
      or the context is over.  It is called at least once. */
  method Poll(c: Clock, f: Condition) returns (calls: nat, err: Option<Error>)
    requires c.interval > 0
    ensures calls >= 1 && StopsAt(c, f, calls - 1) && err == ResultAt(c, f, calls - 1)
  {
    calls := 0;
    var now: nat := 0;
    while true
      invariant now == StartOf(c, f, calls)
      invariant forall k: nat :: k < calls ==> GoesOn(c, f, k)
      invariant calls <= now && (calls > 0 ==> !c.Expired(now))
      decreases c.timeout - calls
    {
      var round := f(calls, now);
      var next := NextStart(c, calls, now, round);
      TickIsLater(c, calls, now, round);
      calls := calls + 1;
      if round.err.Some? || round.done {
        return calls, round.err;
      }
      assert next == StartOf(c, f, calls);
      if c.Expired(next) {
        return calls, Some(c.Why());
      }
      now := next;
    }
  }

  /** Calls never overlap, and none comes before its tick; without a lag it comes at the tick, or at
      once when the call before has overrun it. */
  lemma {:induction false} CallsFollowTicks(c: Clock, f: Condition, k: nat)
    ensures StartOf(c, f, 0) == 0
    ensures var over := StartOf(c, f, k) + RoundOf(c, f, k).length;
            && over <= StartOf(c, f, k + 1) && (k + 1) * c.interval <= StartOf(c, f, k + 1)
            && (RoundOf(c, f, k).lag == 0 ==>
                  StartOf(c, f, k + 1) == over || (StartOf(c, f, k + 1) == (k + 1) * c.interval && over <= (k + 1) * c.interval))
  {
    assert StartOf(c, f, k + 1) == NextStart(c, k, StartOf(c, f, k), RoundOf(c, f, k));
  }

  lemma {:induction false} TickIsLater(c: Clock, k: nat, now: nat, round: Round)
    requires c.interval > 0
    ensures k < NextStart(c, k, now, round)
  {
    assert (k + 1) * c.interval >= k + 1;
  }

  /** However short the calls, there are no more of them than intervals fit into the timeout. */
  lemma {:induction false} CallsAreBounded(c: Clock, f: Condition, n: nat)
    requires StopsAt(c, f, n) && n > 0
    ensures n * c.interval < c.timeout
  {
    assert GoesOn(c, f, n - 1);
    assert StartOf(c, f, n) == NextStart(c, n - 1, StartOf(c, f, n - 1), RoundOf(c, f, n - 1));
  }

  // ---------------------------------------------------------------- the retry step

  const DEFAULT_RETRY_TIMEOUT := 600_000_000_000   // 10 minutes
  const DEFAULT_RETRY_INTERVAL := 30_000_000_000   // 30 seconds

  /** Call by call: the action's answer and duration, then the rebuild's, should there be one. */
  datatype Script = Script(
    action: nat -> Option<Error>, actionTime: nat -> nat,
    rebuild: nat -> Option<Error>, rebuildTime: nat -> nat,
    lag: nat -> nat)

  function ClockOf(timeout: nat, interval: nat, outer: Option<Outer>): Clock {
    Clock(if interval == 0 then DEFAULT_RETRY_INTERVAL else interval,
          if timeout == 0 then DEFAULT_RETRY_TIMEOUT else timeout,
          outer)
  }

  /** Does call k, started at `now`, lead to a rebuild? */
  predicate Rebuilds(r: Rendering, s: Script, c: Clock, k: nat, now: nat) {
    !c.Expired(now + s.actionTime(k)) && s.action(k).Some? && Retryable(r, s.action(k).value)
  }

  function RetryRound(r: Rendering, s: Script, c: Clock): Condition {
    (k: nat, now: nat) =>
      if Rebuilds(r, s, c, k, now) then Round(false, s.rebuild(k), s.actionTime(k) + s.rebuildTime(k), s.lag(k))
      else Round(true, s.action(k), s.actionTime(k), s.lag(k))
  }

  datatype Event = Called(k: nat) | Rebuilt(k: nat)

  /** Calls and rebuilds in turn, numbered from 0. */
  predicate Alternates(events: seq<Event>) {
    forall i | 0 <= i < |events| :: events[i] == if i % 2 == 0 then Called(i / 2) else Rebuilt(i / 2)
  }

  /** What call k adds. */
  function Extended(events: seq<Event>, k: nat, rebuilt: bool): (r: seq<Event>)
    requires |events| == 2 * k && Alternates(events)
    ensures Alternates(r) && |r| == 2 * k + if rebuilt then 2 else 1
  {
    assert 2 * k / 2 == k && 2 * k % 2 == 0 && (2 * k + 1) / 2 == k && (2 * k + 1) % 2 == 1;
    events + if rebuilt then [Called(k), Rebuilt(k)] else [Called(k)]
  }

  /** The polled closure: the action, and a rebuild if its error is worth a retry in time. */
  method Attempt(r: Rendering, s: Script, c: Clock, k: nat, now: nat) returns (round: Round, rebuilt: bool)
    ensures round == RetryRound(r, s, c)(k, now) && rebuilt == Rebuilds(r, s, c, k, now)
  {
    var err := s.action(k);
    rebuilt := !c.Expired(now + s.actionTime(k)) && err.Some? && Retryable(r, err.value);
    assert rebuilt == Rebuilds(r, s, c, k, now);
    if rebuilt {
      err := s.rebuild(k);
      round := Round(false, err, s.actionTime(k) + s.rebuildTime(k), s.lag(k));
    } else {
      round := Round(true, err, s.actionTime(k), s.lag(k));
    }
  }

  /** `authorizationRefreshingActionStep.run`, recording what it does: calls 0 to `last`, each but
      the last followed by one rebuild. */
  method RunRetrying(r: Rendering, s: Script, timeout: nat, interval: nat, outer: Option<Outer>)
      returns (err: Option<Error>, events: seq<Event>, last: nat)
    ensures var c := Clock(if interval == 0 then 30_000_000_000 else interval,
                           if timeout == 0 then 600_000_000_000 else timeout, outer);
            var f := RetryRound(r, s, c);
            && StopsAt(c, f, last) && err == ResultAt(c, f, last)
            && |events| == 2 * last + (if Rebuilds(r, s, c, last, StartOf(c, f, last)) then 2 else 1)
    ensures Alternates(events)
  {
    var c := ClockOf(timeout, interval, outer);
    ghost var f := RetryRound(r, s, c);
    var k: nat, now: nat := 0, 0;
    events := [];
    while true
      invariant Reached(c, f, k, now)
      invariant |events| == 2 * k && Alternates(events)
      invariant k <= now && (k > 0 ==> !c.Expired(now))
      decreases c.timeout - k
    {
      var round, rebuilt := Attempt(r, s, c, k, now);
      events := Extended(events, k, rebuilt);
      var next := NextStart(c, k, now, round);
      FromCallToCall(c, f, k, now, round, next);
      TickIsLater(c, k, now, round);
      if round.err.Some? || round.done {
        return round.err, events, k;
      }
      if c.Expired(next) {
        return Some(c.Why()), events, k;
      }
      k, now := k + 1, next;
    }
  }

  /** Call k starts now, and every call before it went on. */
  ghost predicate Reached(c: Clock, f: Condition, k: nat, now: nat) {
    now == StartOf(c, f, k) && forall j: nat :: j < k ==> GoesOn(c, f, j)
  }

  lemma {:induction false} FromCallToCall(c: Clock, f: Condition, k: nat, now: nat, round: Round, next: nat)
    requires Reached(c, f, k, now) && round == f(k, now)
    requires next == NextStart(c, k, now, round)
    ensures if round.err.Some? || round.done then StopsAt(c, f, k) && ResultAt(c, f, k) == round.err
            else if c.Expired(next) then StopsAt(c, f, k) && ResultAt(c, f, k) == Some(c.Why())
            else Reached(c, f, k + 1, next)
  {
    assert StartOf(c, f, k + 1) == next;
  }

  /** What a finished retry step has done: every call before the last hit a retryable error and was
      followed by a rebuild that succeeded; success means the last call succeeded, and the last
      call's own error is returned unless it was worth a retry in time. */
  lemma {:induction false} RetryStepMeaning(r: Rendering, s: Script, c: Clock, n: nat)
    requires StopsAt(c, RetryRound(r, s, c), n)
    ensures var f := RetryRound(r, s, c);
            var rebuilds := Rebuilds(r, s, c, n, StartOf(c, f, n));
            && (forall k: nat :: k < n ==>
                  s.action(k).Some? && Retryable(r, s.action(k).value) && s.rebuild(k).None?)
            && (ResultAt(c, f, n).None? <==> s.action(n).None?)
            && (!rebuilds ==> ResultAt(c, f, n) == s.action(n))
            && (rebuilds ==> ResultAt(c, f, n) ==
                               if s.rebuild(n).Some? then s.rebuild(n) else Some(c.Why()))
  {
    var f := RetryRound(r, s, c);
    forall k: nat | k < n
      ensures s.action(k).Some? && Retryable(r, s.action(k).value) && s.rebuild(k).None?
    {
      assert GoesOn(c, f, k);
      assert RoundOf(c, f, k) == f(k, StartOf(c, f, k));
      assert Rebuilds(r, s, c, k, StartOf(c, f, k));
    }
  }

  /** Call n is cut short: time was up when it came back, or by the time the next one was due. */
  predicate TimeIsUp(s: Script, c: Clock, f: Condition, n: nat) {
    c.Expired(StartOf(c, f, n) + s.actionTime(n)) || c.Expired(StartOf(c, f, n + 1))
  }

  /** A call with a retryable error, and a rebuild that works, is the last for lack of time only.
      The step ends with the context's own error, or the action's if time was up during the call. */
  lemma {:induction false} RetryableEndsWithTime(r: Rendering, s: Script, c: Clock, n: nat)
    requires s.action(n).Some? && Retryable(r, s.action(n).value) && s.rebuild(n).None?
    requires StopsAt(c, RetryRound(r, s, c), n)
    ensures var f := RetryRound(r, s, c);
            && TimeIsUp(s, c, f, n)
            && ResultAt(c, f, n) == if c.Expired(StartOf(c, f, n) + s.actionTime(n)) then s.action(n) else Some(c.Why())
  {
    var f := RetryRound(r, s, c);
    var now := StartOf(c, f, n);
    assert RoundOf(c, f, n) == f(n, now);
    assert Rebuilds(r, s, c, n, now) <==> !c.Expired(now + s.actionTime(n));
  }

  /** The k-th action deploys a template, and the client's answers to it are these. */
  ghost predicate Deploys(r: Rendering, s: Script, create: nat -> Option<Error>, wait: nat -> Option<Error>) {
    forall k: nat :: s.action(k) == Deployed(r, create(k), wait(k))
  }

  /** The first m deployments meet an authorization failure, on creating them or on waiting for an
      active one, and the authorizer can be rebuilt after each. */
  ghost predicate FailsToAuthorizeUntil(r: Rendering, s: Script, create: nat -> Option<Error>, wait: nat -> Option<Error>, m: nat) {
    forall k: nat :: k < m ==> FailsToAuthorize(r, Answer(create(k), wait(k))) && s.rebuild(k).None?
  }

  /** From the client's answers to the step's result.  As long as deploying fails for want of
      authorization the step goes on, until the time is up: it then returns the context's error, or
      the failure itself, unwrapped.  When the role has spread in time, that is in the m-th call, the
      step ends well if that deployment does, with its error if it is no longer worth a retry. */
  lemma {:induction false} DeploymentIsRetriedUntilAuthorized(
      r: Rendering, s: Script, c: Clock, create: nat -> Option<Error>, wait: nat -> Option<Error>, m: nat, n: nat)
    requires Deploys(r, s, create, wait) && FailsToAuthorizeUntil(r, s, create, wait, m)
    requires Answer(create(m), wait(m)).None? || !Retryable(r, Deployed(r, create(m), wait(m)).value)
    requires StopsAt(c, RetryRound(r, s, c), n)
    ensures n <= m
    ensures var f := RetryRound(r, s, c);
            var answer := Answer(create(n), wait(n));
            if n == m then ResultAt(c, f, n) == Deployed(r, create(m), wait(m))
            else TimeIsUp(s, c, f, n) &&
                 ResultAt(c, f, n) == if c.Expired(StartOf(c, f, n) + s.actionTime(n)) then answer else Some(c.Why())
  {
    RetryStepMeaning(r, s, c, n);
    assert s.action(m) == Deployed(r, create(m), wait(m));
    assert s.action(n) == Deployed(r, create(n), wait(n));
    if n < m {
      FailureIsPassedOn(r, create(n), wait(n));
      RetryableEndsWithTime(r, s, c, n);
    }
  }

  /** With no end to the failures, only time ends the step. */
  lemma {:induction false} DeploymentIsRetriedUntilTimeIsUp(
      r: Rendering, s: Script, c: Clock, create: nat -> Option<Error>, wait: nat -> Option<Error>, n: nat)
    requires Deploys(r, s, create, wait) && forall m: nat :: FailsToAuthorizeUntil(r, s, create, wait, m)
    requires StopsAt(c, RetryRound(r, s, c), n)
    ensures var f := RetryRound(r, s, c);
            && TimeIsUp(s, c, f, n)
            && ResultAt(c, f, n) == if c.Expired(StartOf(c, f, n) + s.actionTime(n)) then Answer(create(n), wait(n)) else Some(c.Why())
  {
    assert FailsToAuthorizeUntil(r, s, create, wait, n + 1);
    assert s.action(n) == Deployed(r, create(n), wait(n));
    FailureIsPassedOn(r, create(n), wait(n));
    RetryableEndsWithTime(r, s, c, n);
  }

  lemma {:induction false} FailureIsPassedOn(r: Rendering, create: Option<Error>, wait: Option<Error>)
    requires FailsToAuthorize(r, Answer(create, wait))
    ensures Deployed(r, create, wait) == Answer(create, wait) && Retryable(r, Deployed(r, create, wait).value)
  {
  }

  // ---------------------------------------------------------------- the condition step

  const DEFAULT_CONDITION_INTERVAL := 10_000_000_000   // 10 seconds

  /** An error of the condition itself that is a deadline is wrapped, so as not to look like the
      step's own timeout. */
  function Wrapped(round: Round): Round {
    if round.err.Some? && IsDeadline(round.err.value) then round.(err := Some(InternalTimeout(round.err.value))) else round
  }

  /** `errors.Is(err, context.DeadlineExceeded)`. */
  predicate IsDeadline(e: Error) {
    e.DeadlineExceeded? || (e.InternalTimeout? && IsDeadline(e.cause))
  }

  function Wrapping(f: Condition): Condition {
    (k: nat, now: nat) => Wrapped(f(k, now))
  }

  method RunCondition(f: Condition, timeout: nat, interval: nat, outer: Option<Outer>, fail: bool)
      returns (err: Option<Error>, last: nat)
    ensures var c := Clock(if interval == 0 then 10_000_000_000 else interval, timeout, outer);
            var g := Wrapping(f);
            && StopsAt(c, g, last)
            && err == if fail then ResultAt(c, g, last) else None
  {
    var c := Clock(if interval == 0 then DEFAULT_CONDITION_INTERVAL else interval, timeout, outer);
    var g := Wrapping(f);
    var calls;
    calls, err := Poll(c, g);
    last := calls - 1;
    if err.Some? && !fail {
      err := None;
    }
  }

  /** What the step comes to before it may be told not to fail: success when the condition is met, the
      condition's own error, told apart if it is a deadline, and the context's when time is up. */
  lemma {:induction false} ConditionStepMeaning(f: Condition, c: Clock, n: nat)
    requires StopsAt(c, Wrapping(f), n)
    ensures var last := f(n, StartOf(c, Wrapping(f), n));
            ResultAt(c, Wrapping(f), n) ==
              if last.err.Some? then Some(if IsDeadline(last.err.value) then InternalTimeout(last.err.value) else last.err.value)
              else if last.done then None
              else Some(c.Why())
    ensures IsDeadline(DeadlineExceeded) && !IsDeadline(Canceled) && !IsDeadline(WantRefresh)
  {
    assert RoundOf(c, Wrapping(f), n) == Wrapped(f(n, StartOf(c, Wrapping(f), n)));
  }

  /** The condition has answered "not yet" in calls 0 to n. */
  ghost predicate NeverMet(c: Clock, f: Condition, n: nat) {
    forall k: nat :: k <= n ==>
      !f(k, StartOf(c, Wrapping(f), k)).done && f(k, StartOf(c, Wrapping(f), k)).err.None?
  }

  /** When polling ended without the condition: as the context did, or after the call it ended in. */
  function GaveUpAt(c: Clock, f: Condition, n: nat): nat {
    Max(StartOf(c, f, n) + RoundOf(c, f, n).length, c.End())
  }

  /** A plain deadline error never is the condition's own: that one has been wrapped.  It means that
      the condition kept answering "not yet" until a context's deadline, the step's own unless the
      outer one came first. */
  lemma {:induction false} DeadlineMeansNeverMet(f: Condition, c: Clock, n: nat)
    requires StopsAt(c, Wrapping(f), n) && ResultAt(c, Wrapping(f), n) == Some(DeadlineExceeded)
    ensures NeverMet(c, f, n)
    ensures c.OuterFirst() ==> c.outer.value.deadline
    ensures !c.OuterFirst() ==> c.timeout <= GaveUpAt(c, Wrapping(f), n)
  {
    var g := Wrapping(f);
    forall k: nat | k <= n
      ensures !f(k, StartOf(c, g, k)).done && f(k, StartOf(c, g, k)).err.None?
    {
      assert k < n ==> GoesOn(c, g, k);
      assert RoundOf(c, g, k) == Wrapped(f(k, StartOf(c, g, k)));
    }
  }

  /** With this clock, whatever the condition, a plain deadline error shows that the step's own
      timeout has passed. */
  ghost predicate DeadlineMeansTimeout(c: Clock) {
    forall f: Condition, n: nat ::
      StopsAt(c, Wrapping(f), n) && ResultAt(c, Wrapping(f), n) == Some(DeadlineExceeded) ==>
        c.timeout <= GaveUpAt(c, Wrapping(f), n)
  }

  /** That is so exactly when the outer context has no deadline before the timeout. */
  lemma {:induction false} DeadlineMeansTimeoutIff(c: Clock)
    ensures DeadlineMeansTimeout(c) <==> !(c.OuterFirst() && c.outer.value.deadline)
  {
    if c.OuterFirst() && c.outer.value.deadline {
      OuterDeadlineLooksTheSame(c);
    } else {
      forall f: Condition, n: nat
        | StopsAt(c, Wrapping(f), n) && ResultAt(c, Wrapping(f), n) == Some(DeadlineExceeded)
        ensures c.timeout <= GaveUpAt(c, Wrapping(f), n)
      {
        DeadlineMeansNeverMet(f, c, n);
      }
    }
  }

  /** A condition whose every call takes this long to answer "not yet". */
  function Slow(length: nat): Condition {
    (k: nat, now: nat) => Round(false, None, length, 0)
  }

  /** A condition that is still busy at the outer deadline ends the same way before the timeout. */
  lemma {:induction false} OuterDeadlineLooksTheSame(c: Clock)
    requires c.OuterFirst() && c.outer.value.deadline
    ensures var f := Slow(c.outer.value.at);
            && StopsAt(c, Wrapping(f), 0) && ResultAt(c, Wrapping(f), 0) == Some(DeadlineExceeded)
            && GaveUpAt(c, Wrapping(f), 0) < c.timeout
    ensures !DeadlineMeansTimeout(c)
  {
    var f := Slow(c.outer.value.at);
    var g := Wrapping(f);
    assert StartOf(c, g, 0) == 0;
    assert g(0, 0) == Wrapped(f(0, 0)) && f(0, 0) == Round(false, None, c.outer.value.at, 0);
    assert RoundOf(c, g, 0) == Round(false, None, c.outer.value.at, 0);
    assert StartOf(c, g, 1) == NextStart(c, 0, 0, RoundOf(c, g, 0));
    assert StopsAt(c, g, 0);
  }

  // ---------------------------------------------------------------- the runner

  /** `results[i]` is what step i returns if it is run.  Steps run in order up to the first failure. */
  method Run(results: seq<Option<Error>>) returns (err: Option<Error>, executed: nat)
    ensures executed <= |results|
    ensures forall i :: 0 <= i < executed - 1 ==> results[i].None?
    ensures err.None? <==> executed == |results| && forall i :: 0 <= i < |results| ==> results[i].None?
    ensures err.Some? ==> executed > 0 && err == results[executed - 1]
  {
    executed := 0;
    while executed < |results|
      invariant executed <= |results| && forall i :: 0 <= i < executed ==> results[i].None?
    {
      err := results[executed];
      executed := executed + 1;
      if err.Some? {
        return;
      }
    }
    err := None;
  }
}
