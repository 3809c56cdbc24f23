/** Retrying an operation with exponential, capped backoff
    (lib/retry-utils.ts): which thrown values are worth retrying, the
    default options, and the attempt loop. The operation is given as the
    outcome of each of its invocations in turn; delays are the base delays
    before jitter, in milliseconds. */
module Retry {
  import opened Text
  import opened Errors

  /** `RetryOptions`. */
  datatype Options = Options(maxAttempts: int, initialDelayMs: int, maxDelayMs: int, backoffMultiplier: int)

  /** `Partial<RetryOptions>`: each option supplied or not. */
  datatype Overrides = Overrides(maxAttempts: Option<int>, initialDelayMs: Option<int>,
                                 maxDelayMs: Option<int>, backoffMultiplier: Option<int>)

  const NoOverrides: Overrides := Overrides(None, None, None, None)

  /** `DEFAULT_RETRY_OPTIONS`. */
  const Defaults: Options := Options(5, 1000, 30000, 2)

  function OrElse(x: Option<int>, d: int): int {
    if x.Some? then x.value else d
  }

  /** `{ ...DEFAULT_RETRY_OPTIONS, ...options }`. */
  function Merge(ov: Overrides): Options {
    Options(OrElse(ov.maxAttempts, Defaults.maxAttempts), OrElse(ov.initialDelayMs, Defaults.initialDelayMs),
            OrElse(ov.maxDelayMs, Defaults.maxDelayMs), OrElse(ov.backoffMultiplier, Defaults.backoffMultiplier))
  }

  /** Without overrides the defaults apply: 5 attempts, 1000 ms first delay,
      a 30000 ms cap and doubling. */
  lemma MergeDefaults()
    ensures Merge(NoOverrides) == Options(5, 1000, 30000, 2)
  {
  }

  /** A supplied option wins over the default, and the others keep their defaults. */
  lemma MergeOverrides(ov: Overrides)
    ensures ov.maxAttempts.Some? ==> Merge(ov).maxAttempts == ov.maxAttempts.value
    ensures ov.maxAttempts.None? ==> Merge(ov).maxAttempts == 5
    ensures ov.initialDelayMs.Some? ==> Merge(ov).initialDelayMs == ov.initialDelayMs.value
    ensures ov.initialDelayMs.None? ==> Merge(ov).initialDelayMs == 1000
    ensures ov.maxDelayMs.Some? ==> Merge(ov).maxDelayMs == ov.maxDelayMs.value
    ensures ov.maxDelayMs.None? ==> Merge(ov).maxDelayMs == 30000
    ensures ov.backoffMultiplier.Some? ==> Merge(ov).backoffMultiplier == ov.backoffMultiplier.value
    ensures ov.backoffMultiplier.None? ==> Merge(ov).backoffMultiplier == 2
  {
  }

  // ---------------------------------------------------------------------------
  // Classifying errors

  /** A status that is worth retrying: a server error or a rate limit. A
      value of another type is converted to a number by `>=`, but never
      equals 429 under `===`. */
  predicate RetryableStatus(f: Field<int>) {
    || (f.Has? && (f.value >= 500 || f.value == 429))
    || (f.Mistyped? && f.asNumber.Some? && f.asNumber.value >= 500)
  }

  predicate TransientCode(f: Field<string>) {
    f.Has? && f.value in {"ECONNRESET", "ETIMEDOUT", "ENOTFOUND", "EAI_AGAIN"}
  }

  predicate RetryableReason(f: Field<string>) {
    f.Has? && f.value in {"maxRetriesExceeded", "networkError"}
  }

  /** `isRetryableError`: the first of `statusCode`, `status`, `code` and
      `reason` that the object has decides; a status of another type is
      compared as the number it converts to, and a code or reason of another
      type matches nothing. */
  function IsRetryableError(e: ErrorValue): (r: bool)
    ensures r ==> e.Obj?
  {
    if !e.Obj? then false
    else if !e.statusCode.Absent? then RetryableStatus(e.statusCode)
    else if !e.status.Absent? then RetryableStatus(e.status)
    else if !e.code.Absent? then TransientCode(e.code)
    else if !e.reason.Absent? then RetryableReason(e.reason)
    else false
  }

  /** An object carrying none of the four properties is never retried. */
  lemma RetryableNeedsField(e: ErrorValue)
    requires IsRetryableError(e)
    ensures e.Obj? && !(e.statusCode.Absent? && e.status.Absent? && e.code.Absent? && e.reason.Absent?)
  {
  }

  /** When `statusCode` is there, it alone decides: the other properties can be anything. */
  lemma StatusCodeDecides(e: ErrorValue, status: Field<int>, code: Field<string>, reason: Field<string>)
    requires e.Obj? && !e.statusCode.Absent?
    ensures IsRetryableError(e) == IsRetryableError(e.(status := status, code := code, reason := reason))
    ensures e.statusCode.Has? ==> (IsRetryableError(e) <==> e.statusCode.value >= 500 || e.statusCode.value == 429)
    ensures e.statusCode.Mistyped? ==>
              (IsRetryableError(e) <==> e.statusCode.asNumber.Some? && e.statusCode.asNumber.value >= 500)
  {
  }

  /** Without `statusCode`, `status` decides when it is there. */
  lemma StatusDecides(e: ErrorValue, code: Field<string>, reason: Field<string>)
    requires e.Obj? && e.statusCode.Absent? && !e.status.Absent?
    ensures IsRetryableError(e) == IsRetryableError(e.(code := code, reason := reason))
    ensures e.status.Has? ==> (IsRetryableError(e) <==> e.status.value >= 500 || e.status.value == 429)
    ensures e.status.Mistyped? ==> (IsRetryableError(e) <==> e.status.asNumber.Some? && e.status.asNumber.value >= 500)
  {
  }

  /** Without either status, `code` decides when it is there: only the four
      transient network codes are retried. */
  lemma CodeDecides(e: ErrorValue, reason: Field<string>)
    requires e.Obj? && e.statusCode.Absent? && e.status.Absent? && !e.code.Absent?
    ensures IsRetryableError(e) == IsRetryableError(e.(reason := reason))
    ensures IsRetryableError(e) <==> e.code.Has? && e.code.value in {"ECONNRESET", "ETIMEDOUT", "ENOTFOUND", "EAI_AGAIN"}
  {
  }

  /** Otherwise `reason` decides. */
  lemma ReasonDecides(e: ErrorValue)
    requires e.Obj? && e.statusCode.Absent? && e.status.Absent? && e.code.Absent?
    ensures IsRetryableError(e) <==> e.reason.Has? && e.reason.value in {"maxRetriesExceeded", "networkError"}
  {
  }

  /** A client error in `statusCode` is final even when `status` says 503. */
  lemma StatusCodeWinsOverStatus()
    ensures !IsRetryableError(Obj(None, Has(400), Has(503), Absent, Absent))
    ensures IsRetryableError(Obj(None, Absent, Has(503), Absent, Absent))
  {
  }

  /** A status sent as a string: "503" is retried, but "429" is not, since
      only `>=` converts it. */
  lemma StringStatus(n: int)
    ensures IsRetryableError(Obj(None, Mistyped(Some(n)), Absent, Absent, Absent)) <==> n >= 500
    ensures IsRetryableError(Obj(None, Absent, Mistyped(Some(n)), Absent, Absent)) <==> n >= 500
    ensures !IsRetryableError(Obj(None, Mistyped(None), Has(503), Absent, Absent))
  {
  }

  // ---------------------------------------------------------------------------
  // The attempt loop

  /** What one invocation of the operation does. */
  datatype Outcome<T> = Success(value: T) | Failure(error: ErrorValue)

  /** What a call of `withRetry` comes to: what it returns or throws, how
      many times it invoked the operation, and the delays it waited. */
  datatype Run<T> = Run(result: Result<T, ErrorValue>, calls: nat, delays: seq<int>)

  function Min(a: int, b: int): int {
    if a <= b then a else b
  }

  function Max(a: int, b: int): int {
    if a >= b then a else b
  }

  /** The loop from attempt number `attempt` on, with the delay `delayMs`
      pending; `op(k)` is the outcome of the (k+1)-th invocation. */
  function RetryFrom<T>(op: nat -> Outcome<T>, o: Options, attempt: nat, delayMs: int): Run<T>
    requires 1 <= attempt <= o.maxAttempts
    decreases o.maxAttempts - attempt
  {
    match op(attempt - 1)
    case Success(v) => Run(Ok(v), 1, [])
    case Failure(e) =>
      if !IsRetryableError(e) || attempt == o.maxAttempts then Run(Err(e), 1, [])
      else
        var rest := RetryFrom(op, o, attempt + 1, Min(delayMs * o.backoffMultiplier, o.maxDelayMs));
        Run(rest.result, rest.calls + 1, [delayMs] + rest.delays)
  }

  /** The whole loop. With no attempt allowed, `lastError` was never
      assigned and `undefined` is thrown. */
  function Retrying<T>(op: nat -> Outcome<T>, o: Options): Run<T> {
    if o.maxAttempts < 1 then Run(Err(Undefined), 0, []) else RetryFrom(op, o, 1, o.initialDelayMs)
  }

  /** What a finished invocation gives back to the caller. */
  function Settle<T>(x: Outcome<T>): Result<T, ErrorValue> {
    match x
    case Success(v) => Ok(v)
    case Failure(e) => Err(e)
  }

  /** The base delays double, or grow by the multiplier, from the first
      delay, and never pass the cap once grown. */
  predicate Schedule(delays: seq<int>, first: int, o: Options) {
    && (|delays| > 0 ==> delays[0] == first)
    && forall j :: 0 <= j < |delays| - 1 ==> delays[j + 1] == Min(delays[j] * o.backoffMultiplier, o.maxDelayMs)
  }

  /** The whole call, seen from the top of the loop at attempt `attempt`
      after `calls` invocations and the delays `delays`. */
  function Resume<T>(op: nat -> Outcome<T>, o: Options, attempt: nat, delayMs: int, calls: nat, delays: seq<int>): Run<T>
    requires 1 <= attempt <= o.maxAttempts
  {
    var rest := RetryFrom(op, o, attempt, delayMs);
    Run(rest.result, calls + rest.calls, delays + rest.delays)
  }

  /** A retryable failure before the last attempt: wait, grow the delay, go on. */
  lemma ResumeRetry<T>(op: nat -> Outcome<T>, o: Options, attempt: nat, delayMs: int, calls: nat, delays: seq<int>)
    requires 1 <= attempt < o.maxAttempts && op(attempt - 1).Failure? && IsRetryableError(op(attempt - 1).error)
    ensures Resume(op, o, attempt, delayMs, calls, delays)
         == Resume(op, o, attempt + 1, Min(delayMs * o.backoffMultiplier, o.maxDelayMs), calls + 1, delays + [delayMs])
  {
    var rest := RetryFrom(op, o, attempt + 1, Min(delayMs * o.backoffMultiplier, o.maxDelayMs));
    assert delays + ([delayMs] + rest.delays) == (delays + [delayMs]) + rest.delays;
  }

  /** `withRetry`, invoking `op(0)`, `op(1)`, … in turn. */
  method WithRetry<T>(op: nat -> Outcome<T>, options: Overrides) returns (result: Result<T, ErrorValue>, calls: nat, delays: seq<int>)
    ensures Run(result, calls, delays) == Retrying(op, Merge(options))
  {
    var o := Merge(options);
    var lastError := Undefined;
    var delayMs := o.initialDelayMs;
    calls, delays := 0, [];
    var attempt := 1;
    while attempt <= o.maxAttempts
      invariant 1 <= attempt && calls == attempt - 1
      invariant attempt <= o.maxAttempts ==> Retrying(op, o) == Resume(op, o, attempt, delayMs, calls, delays)
      invariant attempt > o.maxAttempts ==> Retrying(op, o) == Run(Err(lastError), calls, delays)
      decreases o.maxAttempts - attempt
    {
      match op(attempt - 1)
      case Success(v) =>
        return Ok(v), calls + 1, delays;
      case Failure(e) =>
        lastError := e;
        if !IsRetryableError(e) {
          return Err(e), calls + 1, delays;
        }
        if attempt == o.maxAttempts {
          calls := calls + 1;
          break;
        }
        ResumeRetry(op, o, attempt, delayMs, calls, delays);
        calls := calls + 1;
        delays := delays + [delayMs];
        delayMs := Min(delayMs * o.backoffMultiplier, o.maxDelayMs);
        attempt := attempt + 1;
    }
    result := Err(lastError);
  }

  // ---------------------------------------------------------------------------
  // What the loop promises

  /** From attempt `attempt` on: at most the attempts left are used; every
      invocation but the last failed with a retryable error; the last one's
      outcome is what the caller gets; stopping before the last attempt
      means a success or a final error; and one delay separates each two
      invocations, following the backoff schedule. */
  lemma {:induction false} RetryFromFacts<T>(op: nat -> Outcome<T>, o: Options, attempt: nat, delayMs: int)
    requires 1 <= attempt <= o.maxAttempts
    ensures var r := RetryFrom(op, o, attempt, delayMs);
      && 1 <= r.calls <= o.maxAttempts - attempt + 1
      && (forall k :: attempt - 1 <= k < attempt - 2 + r.calls ==>
            op(k).Failure? && IsRetryableError(op(k).error))
      && r.result == Settle(op(attempt - 2 + r.calls))
      && (attempt - 1 + r.calls < o.maxAttempts ==>
            op(attempt - 2 + r.calls).Success? || !IsRetryableError(op(attempt - 2 + r.calls).error))
      && |r.delays| == r.calls - 1
      && Schedule(r.delays, delayMs, o)
    decreases o.maxAttempts - attempt
  {
    var r := RetryFrom(op, o, attempt, delayMs);
    match op(attempt - 1)
    case Success(v) =>
    case Failure(e) =>
      if IsRetryableError(e) && attempt < o.maxAttempts {
        var next := Min(delayMs * o.backoffMultiplier, o.maxDelayMs);
        RetryFromFacts(op, o, attempt + 1, next);
        var rest := RetryFrom(op, o, attempt + 1, next);
        ScheduleCons(rest.delays, delayMs, o);
      }
  }

  /** A delay before a schedule that starts with the delay grown from it is
      a schedule. */
  lemma ScheduleCons(delays: seq<int>, first: int, o: Options)
    requires Schedule(delays, Min(first * o.backoffMultiplier, o.maxDelayMs), o)
    ensures Schedule([first] + delays, first, o)
  {
    var all := [first] + delays;
    forall j | 0 <= j < |all| - 1
      ensures all[j + 1] == Min(all[j] * o.backoffMultiplier, o.maxDelayMs)
    {
      if j > 0 {
        assert all[j] == delays[j - 1] && all[j + 1] == delays[j];
      }
    }
  }

  /** The invocation count: at most `maxAttempts`, and at least one when an
      attempt is allowed. */
  lemma CallsBounded<T>(op: nat -> Outcome<T>, o: Options)
    ensures var r := Retrying(op, o);
      && (o.maxAttempts < 1 ==> r.calls == 0 && r.result == Err(Undefined))
      && (o.maxAttempts >= 1 ==> 1 <= r.calls <= o.maxAttempts)
  {
    if o.maxAttempts >= 1 {
      RetryFromFacts(op, o, 1, o.initialDelayMs);
    }
  }

  /** An outcome that ends the loop whatever attempts are left. */
  predicate Final<T>(x: Outcome<T>) {
    x.Success? || !IsRetryableError(x.error)
  }

  /** From attempt `attempt` on, the loop stops at the first final outcome,
      invocation `k`, and hands it to the caller. */
  lemma {:induction false} RetryFromStops<T>(op: nat -> Outcome<T>, o: Options, attempt: nat, delayMs: int, k: nat)
    requires 1 <= attempt && attempt - 1 <= k < o.maxAttempts && Final(op(k))
    requires forall j :: attempt - 1 <= j < k ==> !Final(op(j))
    ensures RetryFrom(op, o, attempt, delayMs).result == Settle(op(k))
    ensures RetryFrom(op, o, attempt, delayMs).calls == k - attempt + 2
    ensures |RetryFrom(op, o, attempt, delayMs).delays| == k - attempt + 1
    decreases k - attempt
  {
    if k > attempt - 1 {
      assert !Final(op(attempt - 1));
      RetryFromStops(op, o, attempt + 1, Min(delayMs * o.backoffMultiplier, o.maxDelayMs), k);
    }
  }

  /** From attempt `attempt` on, retryable failures up to the last attempt
      use every attempt left and throw the last error. */
  lemma {:induction false} RetryFromExhausts<T>(op: nat -> Outcome<T>, o: Options, attempt: nat, delayMs: int)
    requires 1 <= attempt <= o.maxAttempts
    requires forall j :: attempt - 1 <= j < o.maxAttempts ==> op(j).Failure? && IsRetryableError(op(j).error)
    ensures RetryFrom(op, o, attempt, delayMs).result == Err(op(o.maxAttempts - 1).error)
    ensures RetryFrom(op, o, attempt, delayMs).calls == o.maxAttempts - attempt + 1
    ensures |RetryFrom(op, o, attempt, delayMs).delays| == o.maxAttempts - attempt
    decreases o.maxAttempts - attempt
  {
    assert op(attempt - 1).Failure? && IsRetryableError(op(attempt - 1).error);
    if attempt < o.maxAttempts {
      RetryFromExhausts(op, o, attempt + 1, Min(delayMs * o.backoffMultiplier, o.maxDelayMs));
    }
  }

  /** The first success, or the first error not worth retrying, is what the
      caller gets, and nothing is invoked after it: a success is returned
      after `k + 1` invocations, a final error is rethrown at once, with one
      delay between each two invocations and none after the last. */
  lemma StopsAtFirstFinal<T>(op: nat -> Outcome<T>, o: Options, k: nat)
    requires k < o.maxAttempts && Final(op(k))
    requires forall j :: 0 <= j < k ==> op(j).Failure? && IsRetryableError(op(j).error)
    ensures Retrying(op, o).result == Settle(op(k))
    ensures Retrying(op, o).calls == k + 1
    ensures |Retrying(op, o).delays| == k
  {
    RetryFromStops(op, o, 1, o.initialDelayMs, k);
  }

  /** When every attempt fails with a retryable error, the last error is
      thrown after `maxAttempts` invocations, and no delay follows the last. */
  lemma ExhaustedThrowsLast<T>(op: nat -> Outcome<T>, o: Options)
    requires 1 <= o.maxAttempts
    requires forall j :: 0 <= j < o.maxAttempts ==> op(j).Failure? && IsRetryableError(op(j).error)
    ensures Retrying(op, o).calls == o.maxAttempts
    ensures Retrying(op, o).result == Err(op(o.maxAttempts - 1).error)
    ensures |Retrying(op, o).delays| == o.maxAttempts - 1
  {
    RetryFromExhausts(op, o, 1, o.initialDelayMs);
  }

  /** The base delay starts at `initialDelayMs`, grows by the multiplier up to
      the cap, and so never exceeds the larger of the two. */
  lemma {:induction false} DelaysBounded<T>(op: nat -> Outcome<T>, o: Options)
    ensures Schedule(Retrying(op, o).delays, o.initialDelayMs, o)
    ensures forall j :: 0 <= j < |Retrying(op, o).delays| ==>
      Retrying(op, o).delays[j] <= Max(o.initialDelayMs, o.maxDelayMs)
  {
    var ds := Retrying(op, o).delays;
    if o.maxAttempts >= 1 {
      RetryFromFacts(op, o, 1, o.initialDelayMs);
      forall j | 0 <= j < |ds| ensures ds[j] <= Max(o.initialDelayMs, o.maxDelayMs) {
        if j > 0 {
          assert ds[j] == Min(ds[j - 1] * o.backoffMultiplier, o.maxDelayMs);
        }
      }
    }
  }

  /** A 503 from the service is retried. */
  function ServerError(): ErrorValue {
    Obj(None, Has(503), Absent, Absent, Absent)
  }

  /** Two 503 failures and then a success, with four attempts allowed: three
      invocations, the success returned, after waiting 1000 ms and 2000 ms. */
  lemma TwoFailuresThenSuccess<T>(op: nat -> Outcome<T>)
    requires op(0) == Failure(ServerError()) && op(1) == Failure(ServerError()) && op(2).Success?
    ensures Retrying(op, Merge(NoOverrides.(maxAttempts := Some(4)))) == Run(Ok(op(2).value), 3, [1000, 2000])
  {
    var o := Merge(NoOverrides.(maxAttempts := Some(4)));
    assert o == Options(4, 1000, 30000, 2);
    assert IsRetryableError(ServerError());
    var third := RetryFrom(op, o, 3, 4000);
    assert third == Run(Ok(op(2).value), 1, []);
    var second := RetryFrom(op, o, 2, 2000);
    assert Min(2000 * 2, 30000) == 4000;
    assert second == Run(Ok(op(2).value), 2, [2000] + []);
    assert Min(1000 * 2, 30000) == 2000;
    assert RetryFrom(op, o, 1, 1000) == Run(Ok(op(2).value), 3, [1000] + [2000]);
  }
}
