/**
 * deepl_client.py: key resolution in `DeepLTranslator.__init__`, the retry loop of `translate`
 * and `test_connection`. The HTTP exchange is abstracted: `server(i)` is the response to the
 * i-th request (numbered from 0), and every `sleep` is recorded in a list of wait durations.
 */
module DeepL {
  import opened Wrappers

  /** What `requests.post` gives back: a response with a status code, or a connection failure. */
  datatype Response = Reply(status: int, translation: string) | NetworkError

  /** The exceptions that leave `translate`. */
  datatype Error =
    | InvalidApiKey              // status 403
    | CharacterLimit             // status 456
    | ApiFailure(cause: Response) // a `RequestException` on the last attempt, wrapped

  /** The outcome of one `translate` call: a text, `None`, or a raised exception. */
  datatype TranslateOutcome = Translated(text: string) | NoTranslation | Raised(error: Error)

  /** An outcome with the number of requests sent and the `sleep` durations, in order. */
  datatype Trace = Trace(outcome: TranslateOutcome, calls: nat, waits: seq<nat>)

  /** `2 ** attempt`. */
  function Pow2(n: nat): (r: nat)
    ensures r >= 1
  {
    if n == 0 then 1 else 2 * Pow2(n - 1)
  }

  /** `raise_for_status` raises for the 4xx and 5xx codes. */
  predicate IsHttpError(status: int) {
    400 <= status < 600
  }

  /** How one response is handled, independently of the attempt number. */
  datatype Handling = Answer(text: string) | RateLimited | Fatal(error: Error) | Retryable(cause: Response)

  function Classify(r: Response): Handling {
    match r
    case NetworkError => Retryable(r)
    case Reply(status, text) =>
      if status == 429 then RateLimited
      else if status == 403 then Fatal(InvalidApiKey)
      else if status == 456 then Fatal(CharacterLimit)
      else if IsHttpError(status) then Retryable(r)
      else Answer(text)
  }

  /** A trace that `calls` requests and the given waits precede. */
  function After(calls: nat, waits: seq<nat>, t: Trace): Trace {
    Trace(t.outcome, calls + t.calls, waits + t.waits)
  }

  /**
   * The attempts from `attempt` on: an answer ends the call, a 429 always waits and goes on,
   * 403 and 456 end it at once, any other failure waits and goes on unless it is the last attempt.
   */
  function Attempts(server: nat -> Response, attempt: nat, maxRetries: int): Trace
    decreases maxRetries - attempt
  {
    if attempt >= maxRetries then Trace(NoTranslation, 0, [])
    else
      match Classify(server(attempt))
      case Answer(text) => Trace(Translated(text), 1, [])
      case Fatal(e) => Trace(Raised(e), 1, [])
      case RateLimited => After(1, [Pow2(attempt)], Attempts(server, attempt + 1, maxRetries))
      case Retryable(cause) =>
        if attempt == maxRetries - 1 then Trace(Raised(ApiFailure(cause)), 1, [])
        else After(1, [Pow2(attempt)], Attempts(server, attempt + 1, maxRetries))
  }

  /** The whole `translate` call: an empty text is returned as it is, without a request. */
  function TranslateTrace(text: string, maxRetries: int, server: nat -> Response): Trace {
    if text == "" then Trace(Translated(""), 0, []) else Attempts(server, 0, maxRetries)
  }

  /** The doubling waits `2 ** attempt` of the attempts from `first` on. */
  function Backoff(first: nat, n: nat): (w: seq<nat>)
    ensures |w| == n && forall i :: 0 <= i < n ==> w[i] == Pow2(first + i)
  {
    seq<nat>(n, i requires 0 <= i < n => Pow2(first + i))
  }

  /** Responses that make the loop wait and go on when they arrive at `attempt`. */
  predicate Retried(server: nat -> Response, attempt: nat, maxRetries: int) {
    var h := Classify(server(attempt));
    h.RateLimited? || (h.Retryable? && attempt != maxRetries - 1)
  }

  /** An attempt that waits and goes on adds one request and one wait in front of the rest. */
  lemma RetriedStep(server: nat -> Response, attempt: nat, maxRetries: int)
    requires attempt < maxRetries && Retried(server, attempt, maxRetries)
    ensures Attempts(server, attempt, maxRetries)
            == After(1, [Pow2(attempt)], Attempts(server, attempt + 1, maxRetries))
  {
  }

  /** The loop's invariant after an attempt that waits and goes on. */
  lemma AfterRetry(calls: nat, waits: seq<nat>, server: nat -> Response, attempt: nat, maxRetries: int)
    requires attempt < maxRetries && Retried(server, attempt, maxRetries)
    ensures After(calls + 1, waits + [Pow2(attempt)], Attempts(server, attempt + 1, maxRetries))
            == After(calls, waits, Attempts(server, attempt, maxRetries))
  {
    RetriedStep(server, attempt, maxRetries);
    var rest := Attempts(server, attempt + 1, maxRetries);
    assert waits + [Pow2(attempt)] + rest.waits == waits + ([Pow2(attempt)] + rest.waits);
  }

  /** The loop's result when an attempt ends the call. */
  lemma AfterFinal(calls: nat, waits: seq<nat>, server: nat -> Response, attempt: nat, maxRetries: int)
    requires attempt < maxRetries && !Retried(server, attempt, maxRetries)
    ensures var h := Classify(server(attempt));
            After(calls, waits, Attempts(server, attempt, maxRetries))
            == Trace(if h.Answer? then Translated(h.text)
                     else if h.Fatal? then Raised(h.error)
                     else Raised(ApiFailure(server(attempt))), calls + 1, waits)
  {
    assert waits + [] == waits;
  }

  /**
   * What every run of the loop looks like: at most `maxRetries` requests; the i-th wait lasts
   * `2 ** i` seconds; every request but the last is followed by a wait, and the last one too
   * exactly when the result is `None`; and the result is `None` exactly when every attempt waited
   * and went on, which for the last attempt means a 429.
   */
  lemma {:induction false} AttemptsShape(server: nat -> Response, attempt: nat, maxRetries: int)
    ensures var t := Attempts(server, attempt, maxRetries);
            && t.calls <= (if attempt < maxRetries then maxRetries - attempt else 0)
            && t.waits == Backoff(attempt, |t.waits|)
            && (t.outcome.NoTranslation? ==> |t.waits| == t.calls)
            && (!t.outcome.NoTranslation? ==> |t.waits| + 1 == t.calls)
            && (t.outcome.NoTranslation? <==>
                  forall i :: attempt <= i < maxRetries ==> Retried(server, i, maxRetries))
    decreases maxRetries - attempt
  {
    var t := Attempts(server, attempt, maxRetries);
    if attempt < maxRetries {
      if Retried(server, attempt, maxRetries) {
        RetriedStep(server, attempt, maxRetries);
        AttemptsShape(server, attempt + 1, maxRetries);
        var rest := Attempts(server, attempt + 1, maxRetries);
        assert t.waits == Backoff(attempt, |t.waits|) by {
          forall i | 0 <= i < |t.waits| ensures t.waits[i] == Pow2(attempt + i) {
            if i > 0 {
              assert t.waits[i] == rest.waits[i - 1];
            }
          }
        }
      } else {
        assert !t.outcome.NoTranslation?;
      }
    }
  }

  /** If every one of the attempts gets 429, the result is `None` after one wait per attempt. */
  lemma AllRateLimited(text: string, server: nat -> Response, maxRetries: nat)
    requires text != ""
    requires forall i :: 0 <= i < maxRetries ==> server(i).Reply? && server(i).status == 429
    ensures TranslateTrace(text, maxRetries, server) == Trace(NoTranslation, maxRetries, Backoff(0, maxRetries))
  {
    assert forall i :: 0 <= i < maxRetries ==> Retried(server, i, maxRetries);
    RetriedPrefix(server, 0, maxRetries, maxRetries);
    assert Backoff(0, maxRetries) + [] == Backoff(0, maxRetries);
  }

  /**
   * Nothing is sent again before its time: after `k` attempts that each waited and went on,
   * the call has made `k` requests and waited 1, 2, 4, ... seconds, and goes on from attempt `k`.
   */
  lemma {:induction false} RetriedPrefix(server: nat -> Response, attempt: nat, k: nat, maxRetries: int)
    requires attempt <= k <= maxRetries
    requires forall i :: attempt <= i < k ==> Retried(server, i, maxRetries)
    ensures Attempts(server, attempt, maxRetries)
            == After(k - attempt, Backoff(attempt, k - attempt), Attempts(server, k, maxRetries))
    decreases k - attempt
  {
    var rest := Attempts(server, k, maxRetries);
    if attempt == k {
      assert Backoff(attempt, 0) + rest.waits == rest.waits;
    } else {
      RetriedStep(server, attempt, maxRetries);
      RetriedPrefix(server, attempt + 1, k, maxRetries);
      BackoffCons(attempt, k - attempt);
      AfterAfter(1, [Pow2(attempt)], k - attempt - 1, Backoff(attempt + 1, k - attempt - 1), rest);
    }
  }

  /** The first of `n` waits from `first` on, then the other `n - 1`. */
  lemma BackoffCons(first: nat, n: nat)
    requires n > 0
    ensures Backoff(first, n) == [Pow2(first)] + Backoff(first + 1, n - 1)
  {
    var w := Backoff(first + 1, n - 1);
    assert forall i :: 0 <= i < n - 1 ==> ([Pow2(first)] + w)[i + 1] == w[i];
  }

  /** Requests and waits in front of requests and waits add up. */
  lemma AfterAfter(c1: nat, w1: seq<nat>, c2: nat, w2: seq<nat>, t: Trace)
    ensures After(c1, w1, After(c2, w2, t)) == After(c1 + c2, w1 + w2, t)
  {
    assert w1 + (w2 + t.waits) == (w1 + w2) + t.waits;
  }

  /** `bool(result)`: a non-empty translation. */
  predicate Connected(o: TranslateOutcome) {
    o.Translated? && o.text != ""
  }

  /** [429, 429, OK(t)] with the default three attempts: t, after three requests and waits of 1 and 2 seconds. */
  lemma RateLimitedThenAnswer(text: string, server: nat -> Response, t: string)
    requires text != ""
    requires server(0).Reply? && server(0).status == 429
    requires server(1).Reply? && server(1).status == 429
    requires server(2) == Reply(200, t)
    ensures TranslateTrace(text, 3, server) == Trace(Translated(t), 3, [1, 2])
  {
    RetriedPrefix(server, 0, 2, 3);
    assert Backoff(0, 2) == [1, 2];
  }

  /**
   * 403 and 456 are not `RequestException`s: after the attempts that waited, the first of them
   * ends the call at once, with no wait and no further request, whatever attempts were left.
   */
  lemma FatalStops(server: nat -> Response, k: nat, maxRetries: int)
    requires k < maxRetries
    requires forall i :: 0 <= i < k ==> Retried(server, i, maxRetries)
    requires server(k).Reply? && (server(k).status == 403 || server(k).status == 456)
    ensures var t := Attempts(server, 0, maxRetries);
            && t.outcome == Raised(if server(k).status == 403 then InvalidApiKey else CharacterLimit)
            && t.calls == k + 1
            && t.waits == Backoff(0, k)
  {
    RetriedPrefix(server, 0, k, maxRetries);
    assert Backoff(0, k) + [] == Backoff(0, k);
  }

  /**
   * A network error or another 4xx/5xx on the last attempt raises the wrapped error without
   * waiting: `maxRetries` requests and one wait fewer.
   */
  lemma LastAttemptRaises(server: nat -> Response, maxRetries: nat)
    requires maxRetries >= 1
    requires forall i :: 0 <= i < maxRetries - 1 ==> Retried(server, i, maxRetries)
    requires Classify(server(maxRetries - 1)).Retryable?
    ensures var t := Attempts(server, 0, maxRetries);
            && t.outcome == Raised(ApiFailure(server(maxRetries - 1)))
            && t.calls == maxRetries
            && t.waits == Backoff(0, maxRetries - 1)
  {
    RetriedPrefix(server, 0, maxRetries - 1, maxRetries);
    assert Backoff(0, maxRetries - 1) + [] == Backoff(0, maxRetries - 1);
  }

  /** `translate("")` is "" without a request; with `max_retries <= 0` a text gets `None` without one. */
  lemma NoRequest(text: string, maxRetries: int, server: nat -> Response)
    requires text == "" || maxRetries <= 0
    ensures var t := TranslateTrace(text, maxRetries, server);
            && t.calls == 0 && t.waits == []
            && t.outcome == if text == "" then Translated("") else NoTranslation
  {
  }

  /**
   * The connection test is true after a first answer with text, false on a rejected key, and
   * false when the three attempts all got 429.
   */
  lemma ConnectionExamples(server: nat -> Response)
    ensures (exists t :: t != "" && server(0) == Reply(200, t)) ==> Connected(TranslateTrace("Hello", 3, server).outcome)
    ensures server(0).Reply? && server(0).status == 403 ==> !Connected(TranslateTrace("Hello", 3, server).outcome)
    ensures (forall i :: 0 <= i < 3 ==> server(i).Reply? && server(i).status == 429) ==>
              !Connected(TranslateTrace("Hello", 3, server).outcome)
  {
    if forall i :: 0 <= i < 3 ==> server(i).Reply? && server(i).status == 429 {
      AllRateLimited("Hello", server, 3);
    }
  }

  /** Why no translator can be built. */
  datatype KeyError = MissingApiKey

  /** `api_key or os.getenv('DEEPL_API_KEY')`, rejected when the result is missing or empty. */
  function ResolveApiKey(explicit: Option<string>, env: Option<string>): (r: Result<string, KeyError>)
    ensures Truthy(explicit) ==> r == Success(explicit.value)
    ensures !Truthy(explicit) && Truthy(env) ==> r == Success(env.value)
    ensures r.Failure? <==> !Truthy(explicit) && !Truthy(env)
    ensures r.Success? ==> r.value != ""
  {
    if Truthy(explicit) then Success(explicit.value)
    else if Truthy(env) then Success(env.value)
    else Failure(MissingApiKey)
  }

  const BaseUrl := "https://api-free.deepl.com/v2/translate"

  /** The request headers built from the key. */
  function Headers(apiKey: string): (h: map<string, string>)
    ensures h.Keys == {"Authorization", "Content-Type"}
    ensures h["Authorization"] == "DeepL-Auth-Key " + apiKey
    ensures h["Content-Type"] == "application/json"
  {
    map["Authorization" := "DeepL-Auth-Key " + apiKey, "Content-Type" := "application/json"]
  }

  class DeepLTranslator {
    const apiKey: string
    const baseUrl: string
    const headers: map<string, string>

    /** The part of `__init__` after the key check: the endpoint and the headers. */
    constructor (apiKey: string)
      requires apiKey != ""
      ensures this.apiKey == apiKey && baseUrl == BaseUrl && headers == Headers(apiKey)
    {
      this.apiKey := apiKey;
      baseUrl := BaseUrl;
      headers := Headers(apiKey);
    }

    /** `DeepLTranslator(api_key)`: the `ValueError` when neither key is usable, else a translator. */
    static method Create(explicit: Option<string>, env: Option<string>) returns (r: Result<DeepLTranslator, KeyError>)
      ensures r.Failure? <==> ResolveApiKey(explicit, env).Failure?
      ensures r.Success? ==> fresh(r.value) && r.value.apiKey == ResolveApiKey(explicit, env).value
                             && r.value.headers == Headers(r.value.apiKey)
    {
      var key := ResolveApiKey(explicit, env);
      if key.Failure? {
        return Failure(key.error);
      }
      var t := new DeepLTranslator(key.value);
      r := Success(t);
    }

    /**
     * `translate`: the `for attempt in range(max_retries)` loop, with its `continue` after a
     * 429, the exceptions for 403 and 456, and the `except RequestException` branch.
     */
    method Translate(text: string, targetLang: string, maxRetries: int, server: nat -> Response)
      returns (outcome: TranslateOutcome, calls: nat, waits: seq<nat>)
      ensures Trace(outcome, calls, waits) == TranslateTrace(text, maxRetries, server)
    {
      if text == "" {
        return Translated(""), 0, [];
      }
      calls, waits := 0, [];
      var attempt: nat := 0;
      ghost var total := Attempts(server, 0, maxRetries);
      while attempt < maxRetries
        invariant calls == attempt
        invariant attempt == 0 || attempt <= maxRetries
        invariant After(calls, waits, Attempts(server, attempt, maxRetries)) == total
        decreases maxRetries - attempt
      {
        var done;
        done, outcome, calls, waits := Attempt(server, attempt, maxRetries, calls, waits);
        if done {
          return;
        }
        attempt := attempt + 1;
      }
      outcome := NoTranslation;
      assert waits + [] == waits;
    }

    /**
     * One pass of the retry loop (lines 38-65): the request, then either the end of the call
     * with its answer or exception, or a wait of `2 ** attempt` seconds before the next attempt.
     */
    method Attempt(server: nat -> Response, attempt: nat, maxRetries: int, calls: nat, waits: seq<nat>)
      returns (done: bool, outcome: TranslateOutcome, calls': nat, waits': seq<nat>)
      requires attempt < maxRetries
      ensures calls' == calls + 1
      ensures done <==> !Retried(server, attempt, maxRetries)
      ensures done ==> Trace(outcome, calls', waits') == After(calls, waits, Attempts(server, attempt, maxRetries))
      ensures !done ==> waits' == waits + [Pow2(attempt)]
                        && After(calls', waits', Attempts(server, attempt + 1, maxRetries))
                           == After(calls, waits, Attempts(server, attempt, maxRetries))
    {
      var response := server(attempt);
      calls' := calls + 1;
      if response.Reply? && response.status == 429 {
        AfterRetry(calls, waits, server, attempt, maxRetries);
        return false, NoTranslation, calls', waits + [Pow2(attempt)];
      } else if response.Reply? && response.status == 403 {
        AfterFinal(calls, waits, server, attempt, maxRetries);
        return true, Raised(InvalidApiKey), calls', waits;
      } else if response.Reply? && response.status == 456 {
        AfterFinal(calls, waits, server, attempt, maxRetries);
        return true, Raised(CharacterLimit), calls', waits;
      }
      if response.Reply? && !IsHttpError(response.status) {
        AfterFinal(calls, waits, server, attempt, maxRetries);
        return true, Translated(response.translation), calls', waits;
      }
      if attempt == maxRetries - 1 {
        AfterFinal(calls, waits, server, attempt, maxRetries);
        return true, Raised(ApiFailure(response)), calls', waits;
      }
      AfterRetry(calls, waits, server, attempt, maxRetries);
      return false, NoTranslation, calls', waits + [Pow2(attempt)];
    }

    /** `test_connection`: translate "Hello" with the default three attempts; any exception is false. */
    method TestConnection(server: nat -> Response) returns (ok: bool)
      ensures ok <==> Connected(TranslateTrace("Hello", 3, server).outcome)
    {
      var outcome, _, _ := Translate("Hello", "JA", 3, server);
      ok := outcome.Translated? && outcome.text != "";
    }
  }
}
