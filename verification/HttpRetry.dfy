/** The GET wrapper: classify each response, retry what is retryable, back off exponentially. */
module HttpRetry {
  import opened Wrappers

  datatype RetryAfter = Absent | Unparsable | Seconds(secs: real)

  /**
   * One attempt: the transport failed, or a response came with a status, maybe an exchange error code, and a header.
   */
  datatype Attempt =
    | TransportFailure
    | Response(status: int, code: Option<int>, retryAfter: RetryAfter, body: string)

  datatype Outcome = Body(body: string) | AuthenticationError | RateLimitError | ExchangeError | NetworkError

  const RATE_LIMIT_CODE := -1003
  const AUTH_CODES := {-2014, -2015, -1022, -1099, -2008}

  datatype Verdict = Retry(error: Outcome) | Settle(outcome: Outcome)

  // --- classification, as a table ---

  predicate IsAuth(a: Attempt) {
    a.Response? && ((a.code.Some? && a.code.value in AUTH_CODES) || a.status == 401 || a.status == 403)
  }

  predicate IsRateLimit(a: Attempt) {
    a.Response? && !IsAuth(a) && (a.code == Some(RATE_LIMIT_CODE) || a.status == 429)
  }

  predicate IsServerError(a: Attempt) {
    a.Response? && !IsAuth(a) && !IsRateLimit(a) && 500 <= a.status < 600
  }

  /** Transport failures, rate limits and 5xx are tried again; everything else settles the call. */
  predicate Retryable(a: Attempt) {
    a == TransportFailure || IsRateLimit(a) || IsServerError(a)
  }

  /** How a settling response ends the call. */
  function Settled(a: Attempt): Outcome
    requires !Retryable(a)
  {
    if IsAuth(a) then AuthenticationError
    else if a.status >= 400 then ExchangeError
    else Body(a.body)
  }

  /** The error class that retryable attempts end in when they run out. */
  function ErrorClass(a: Attempt): Outcome
    requires Retryable(a)
  {
    if a == TransportFailure then NetworkError
    else if IsRateLimit(a) then RateLimitError
    else ExchangeError
  }

  // --- the simple form ---

  /** The first of the attempts k, k+1, ... below n that settles, else n. */
  function FirstSettling(attempts: nat -> Attempt, k: nat, n: nat): (j: nat)
    requires k <= n
    ensures k <= j <= n
    ensures forall i :: k <= i < j ==> Retryable(attempts(i))
    ensures j < n ==> !Retryable(attempts(j))
    decreases n - k
  {
    if k == n || !Retryable(attempts(k)) then k else FirstSettling(attempts, k + 1, n)
  }

  /** The outcome of at most `n` attempts. */
  function SimpleOutcome(attempts: nat -> Attempt, n: nat): Outcome {
    var j := FirstSettling(attempts, 0, n);
    if j < n then Settled(attempts(j))
    else if n == 0 then NetworkError
    else ErrorClass(attempts(n - 1))
  }

  function Pow2(n: nat): nat {
    if n == 0 then 1 else 2 * Pow2(n - 1)
  }

  function Backoff(base: real, attempt: nat, jitter: real): real {
    base * Pow2(attempt) as real + jitter
  }

  /** How long a requested pause lasts: a negative one does not wait. */
  function Waited(secs: real): real {
    if secs > 0.0 then secs else 0.0
  }

  /** The pause after a failed attempt: the server's wish when it is a number, else backoff with jitter. */
  function Pause(base: real, attempt: nat, a: Attempt, jitter: real): real {
    if IsRateLimit(a) && a.retryAfter.Seconds? then Waited(a.retryAfter.secs)
    else Backoff(base, attempt, jitter)
  }

  /** The pauses after the attempts below `n`, in total. */
  function TotalPause(base: real, attempts: nat -> Attempt, jitter: nat -> real, n: nat): real {
    if n == 0 then 0.0
    else TotalPause(base, attempts, jitter, n - 1) + Pause(base, n - 1, attempts(n - 1), jitter(n - 1))
  }

  // --- the loop ---

  class HttpClient {
    const retryAttempts: nat
    const retryBaseSleep: real
    var requests: nat
    var slept: real

    constructor (retryAttempts: nat, retryBaseSleep: real)
      ensures this.retryAttempts == retryAttempts && this.retryBaseSleep == retryBaseSleep
      ensures requests == 0 && slept == 0.0
    {
      this.retryAttempts, this.retryBaseSleep := retryAttempts, retryBaseSleep;
      requests, slept := 0, 0.0;
    }

    method Sleep(attempt: nat, retryAfter: RetryAfter, jitter: real)
      modifies this`slept
      ensures slept == old(slept) + if retryAfter.Seconds? then Waited(retryAfter.secs)
              else Backoff(retryBaseSleep, attempt, jitter)
    {
      if retryAfter.Seconds? {
        slept := slept + Waited(retryAfter.secs);
        return;
      }
      var sleepFor := Backoff(retryBaseSleep, attempt, jitter);
      slept := slept + sleepFor;
    }

    /** What is made of one attempt: its error class and a pause if it is retryable, else how it settles the call. */
    method Classify(resp: Attempt, attempt: nat, jitter: real) returns (v: Verdict)
      modifies this`slept
      ensures Retryable(resp) ==> v == Retry(ErrorClass(resp))
      ensures Retryable(resp) ==> slept == old(slept) + Pause(retryBaseSleep, attempt, resp, jitter)
      ensures !Retryable(resp) ==> v == Settle(Settled(resp)) && slept == old(slept)
    {
      if resp.TransportFailure? {
        Sleep(attempt, Absent, jitter);
        return Retry(NetworkError);
      }
      if (resp.code.Some? && resp.code.value in AUTH_CODES) || resp.status == 401 || resp.status == 403 {
        return Settle(AuthenticationError);
      }
      if resp.code == Some(RATE_LIMIT_CODE) || resp.status == 429 {
        Sleep(attempt, resp.retryAfter, jitter);
        return Retry(RateLimitError);
      }
      if resp.status == 418 {
        return Settle(ExchangeError);
      }
      if 500 <= resp.status < 600 {
        Sleep(attempt, Absent, jitter);
        return Retry(ExchangeError);
      }
      if resp.status >= 400 {
        return Settle(ExchangeError);
      }
      return Settle(Body(resp.body));
    }

    /**
     * The loop has the simple form's outcome, sends one request per attempt up to it, and pauses after each failure.
     */
    method GetJson(attempts: nat -> Attempt, jitter: nat -> real) returns (r: Outcome)
      modifies this
      ensures r == SimpleOutcome(attempts, retryAttempts)
      ensures var j := FirstSettling(attempts, 0, retryAttempts);
              && requests == old(requests) + (if j < retryAttempts then j + 1 else retryAttempts)
              && slept == old(slept) + TotalPause(retryBaseSleep, attempts, jitter, j)
    {
      var lastExc: Option<Outcome> := None;
      for attempt := 0 to retryAttempts
        invariant FirstSettling(attempts, 0, retryAttempts) == FirstSettling(attempts, attempt, retryAttempts)
        invariant lastExc == if attempt == 0 then None else Some(ErrorClass(attempts(attempt - 1)))
        invariant requests == old(requests) + attempt
        invariant slept == old(slept) + TotalPause(retryBaseSleep, attempts, jitter, attempt)
      {
        requests := requests + 1;
        var verdict := Classify(attempts(attempt), attempt, jitter(attempt));
        if verdict.Settle? {
          return verdict.outcome;
        }
        lastExc := Some(verdict.error);
      }
      if lastExc == Some(RateLimitError) || lastExc == Some(ExchangeError) {
        return lastExc.value;
      }
      return NetworkError;
    }
  }

  lemma Double(base: real, p: nat)
    ensures base * (2 * p - 1) as real == base * (p - 1) as real + base * p as real
  {
    assert (2 * p - 1) as real == (p - 1) as real + p as real;
  }

  /** Without Retry-After, `n` failed attempts pause between base * (2^n - 1) and that plus a tenth of a second each. */
  lemma {:induction false} BackoffTotal(base: real, attempts: nat -> Attempt, jitter: nat -> real, n: nat)
    requires forall i: nat :: i < n ==> (attempts(i).Response? ==> !attempts(i).retryAfter.Seconds?)
    requires forall i: nat :: i < n ==> 0.0 <= jitter(i) <= 0.1
    ensures var least := base * (Pow2(n) - 1) as real;
            least <= TotalPause(base, attempts, jitter, n) <= least + 0.1 * n as real
  {
    if n > 0 {
      BackoffTotal(base, attempts, jitter, n - 1);
      Double(base, Pow2(n - 1));
      assert Pause(base, n - 1, attempts(n - 1), jitter(n - 1)) == Backoff(base, n - 1, jitter(n - 1));
    }
  }

  /** A larger retry budget never changes the outcome of a call that settles within the smaller one. */
  lemma MoreAttempts(attempts: nat -> Attempt, n: nat, more: nat)
    requires n <= more && FirstSettling(attempts, 0, n) < n
    ensures SimpleOutcome(attempts, more) == SimpleOutcome(attempts, n)
  {
    SameFirst(attempts, 0, n, more);
  }

  lemma {:induction false} SameFirst(attempts: nat -> Attempt, k: nat, n: nat, more: nat)
    requires k <= n <= more && FirstSettling(attempts, k, n) < n
    ensures FirstSettling(attempts, k, more) == FirstSettling(attempts, k, n)
    decreases n - k
  {
    if Retryable(attempts(k)) {
      SameFirst(attempts, k + 1, n, more);
    }
  }

  // --- each kind of response ---

  /** Which attempts are tried again, by their exchange code and status. */
  lemma RetriedIff(status: int, code: Option<int>, header: RetryAfter, body: string)
    ensures Retryable(TransportFailure)
    ensures Retryable(Response(status, code, header, body)) <==>
            && status != 401 && status != 403
            && code !in {Some(-2014), Some(-2015), Some(-1022), Some(-1099), Some(-2008)}
            && (code == Some(-1003) || status == 429 || 500 <= status <= 599)
  {
  }

  /**
   * How a call of one attempt ends: the exchange's code goes before the status, and authentication before rate
   * limits.
   */
  lemma OneAttempt(status: int, code: Option<int>, header: RetryAfter, body: string)
    ensures SimpleOutcome(_ => TransportFailure, 1) == NetworkError
    ensures SimpleOutcome(_ => Response(status, code, header, body), 1) ==
            if code in {Some(-2014), Some(-2015), Some(-1022), Some(-1099), Some(-2008)} || status == 401 ||
              status == 403
            then AuthenticationError
            else if code == Some(-1003) || status == 429 then RateLimitError
            else if status >= 400 then ExchangeError
            else Body(body)
  {
    var a := Response(status, code, header, body);
    assert FirstSettling(_ => a, 0, 1) == if Retryable(a) then 1 else 0;
    assert FirstSettling(_ => TransportFailure, 0, 1) == 1;
  }

  /** The outcome of a call is that of its deciding attempt alone: the first that settles, else the last. */
  lemma DecidedByOne(attempts: nat -> Attempt, n: nat)
    requires n > 0
    ensures var j := FirstSettling(attempts, 0, n);
            var decider := attempts(if j < n then j else n - 1);
            SimpleOutcome(attempts, n) == SimpleOutcome(_ => decider, 1)
    ensures SimpleOutcome(attempts, 0) == NetworkError
  {
    var j := FirstSettling(attempts, 0, n);
    var decider := attempts(if j < n then j else n - 1);
    assert FirstSettling(_ => decider, 0, 1) == if Retryable(decider) then 1 else 0;
  }

  /** How long each kind of failed attempt pauses: only a rate limit heeds the header, and never for a negative time. */
  lemma PauseIs(base: real, attempt: nat, status: int, code: Option<int>, header: RetryAfter, body: string,
                jitter: real)
    requires Retryable(Response(status, code, header, body))
    ensures Pause(base, attempt, TransportFailure, jitter) == base * Pow2(attempt) as real + jitter
    ensures Pause(base, attempt, Response(status, code, header, body), jitter) ==
            if (code == Some(-1003) || status == 429) && header.Seconds?
            then (if header.secs >= 0.0 then header.secs else 0.0)
            else base * Pow2(attempt) as real + jitter
  {
  }

  /** The total pause grows with each failed attempt by that attempt's pause. */
  lemma PausesAddUp(base: real, attempts: nat -> Attempt, jitter: nat -> real, n: nat)
    ensures TotalPause(base, attempts, jitter, 0) == 0.0 && Pow2(0) == 1 && Pow2(n + 1) == 2 * Pow2(n)
    ensures TotalPause(base, attempts, jitter, n + 1) ==
            TotalPause(base, attempts, jitter, n) + Pause(base, n, attempts(n), jitter(n))
  {
  }
}
