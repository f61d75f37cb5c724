// GeminiAPI.ask: the empty-key check, the retry loop on HTTP 429 with a
// doubling wait, and what one answer turns into. The request itself (the
// system prompt and the JSON body) and the sleeps are not modelled: each
// attempt's answer comes from `server`, indexed by the attempt number, and
// the waits the loop would sleep are returned in order.

module Gemini {
  import opened Text

  /**
   * What one `fetch` of generateContent answers: the HTTP status and the
   * text at `candidates[0].content.parts[0].text`, if the body has one.
   */
  datatype Response = Response(status: int, text: Option<string>)

  datatype Outcome =
    | Reply(text: string)
    | MissingKey
    | HttpError(status: int)
    | RateLimited

  const MaxRetries: nat := 3
  const FirstDelay: nat := 2000
  const TooManyRequests: int := 429
  const NoReply: string := "応答なし"

  /** `res.ok` */
  predicate IsOk(status: int)
  {
    200 <= status <= 299
  }

  /** What an answer that ends the loop gives: an error unless `ok`, else its text or "応答なし". */
  function Verdict(res: Response): (o: Outcome)
    ensures o.HttpError? <==> !IsOk(res.status)
    ensures o.HttpError? ==> o.status == res.status
    ensures o.Reply? ==> o.text != [] && (res.text.Some? && res.text.value != [] ==> o.text == res.text.value)
    ensures o.Reply? && (res.text.None? || res.text.value == []) ==> o.text == NoReply
    ensures !o.MissingKey? && !o.RateLimited?
  {
    if !IsOk(res.status) then HttpError(res.status)
    else if res.text.None? || res.text.value == [] then Reply(NoReply)
    else Reply(res.text.value)
  }

  function Pow2(n: nat): (p: nat)
    ensures p >= 1
  {
    if n == 0 then 1 else 2 * Pow2(n - 1)
  }

  /** The waits before the first `k` retries: 2000 ms, doubling each time. */
  function Backoff(k: nat): (w: seq<nat>)
    ensures |w| == k
  {
    if k == 0 then [] else Backoff(k - 1) + [FirstDelay * Pow2(k - 1)]
  }

  lemma {:induction false} BackoffAt(k: nat, i: nat)
    requires i < k
    ensures Backoff(k)[i] == FirstDelay * Pow2(i)
  {
    if i < k - 1 {
      BackoffAt(k - 1, i);
    }
  }

  /** The schedule starts at 2000 ms and each wait is twice the one before. */
  lemma BackoffDoubles(k: nat)
    ensures k > 0 ==> Backoff(k)[0] == FirstDelay
    ensures forall i :: 0 < i < k ==> Backoff(k)[i] == 2 * Backoff(k)[i - 1]
  {
    if k > 0 {
      BackoffAt(k, 0);
    }
    forall i | 0 < i < k ensures Backoff(k)[i] == 2 * Backoff(k)[i - 1] {
      BackoffAt(k, i);
      BackoffAt(k, i - 1);
    }
  }

  /** At most three waits: 2000, 4000 and 8000 ms. */
  lemma BackoffSchedule()
    ensures Backoff(MaxRetries) == [2000, 4000, 8000]
  {
    assert Backoff(1) == [2000];
    assert Backoff(2) == [2000, 4000];
  }

  /** The attempt that ends the loop: the first one not answered with 429, or the last one allowed. */
  function Settled(server: nat -> Response): (k: nat)
    ensures k <= MaxRetries
    ensures forall i :: 0 <= i < k ==> server(i).status == TooManyRequests
    ensures k < MaxRetries ==> server(k).status != TooManyRequests
  {
    SettledFrom(server, 0)
  }

  function SettledFrom(server: nat -> Response, i: nat): (k: nat)
    requires i <= MaxRetries
    ensures i <= k <= MaxRetries
    ensures forall j :: i <= j < k ==> server(j).status == TooManyRequests
    ensures k < MaxRetries ==> server(k).status != TooManyRequests
    decreases MaxRetries - i
  {
    if i < MaxRetries && server(i).status == TooManyRequests then SettledFrom(server, i + 1) else i
  }

  /** Those three facts pin the settling attempt down. */
  lemma {:induction false} SettledFromIs(server: nat -> Response, i: nat, k: nat)
    requires i <= k <= MaxRetries
    requires forall j :: i <= j < k ==> server(j).status == TooManyRequests
    requires k < MaxRetries ==> server(k).status != TooManyRequests
    ensures SettledFrom(server, i) == k
    decreases k - i
  {
    if i < k {
      SettledFromIs(server, i + 1, k);
    }
  }

  /**
   * `ask(prompt, context)` as written: up to four attempts; a 429 on any but
   * the last waits and retries; the first other answer, or the last one,
   * decides. `calls` is the number of requests sent.
   */
  method Ask(key: string, server: nat -> Response) returns (o: Outcome, waits: seq<nat>, calls: nat)
    ensures key == [] <==> o == MissingKey
    ensures key == [] ==> waits == [] && calls == 0
    ensures key != [] ==> var k := Settled(server);
      calls == k + 1 && waits == Backoff(k) && o == Verdict(server(k))
    ensures o != RateLimited
  {
    o, waits, calls := MissingKey, [], 0;
    if key == [] {
      return;
    }
    var delay := FirstDelay;
    var attempt: nat := 0;
    while attempt <= MaxRetries
      invariant attempt <= MaxRetries
      invariant forall i :: 0 <= i < attempt ==> server(i).status == TooManyRequests
      invariant waits == Backoff(attempt) && delay == FirstDelay * Pow2(attempt)
      decreases MaxRetries - attempt
    {
      var res := server(attempt);
      if res.status == TooManyRequests && attempt < MaxRetries {
        waits := waits + [delay];
        delay := delay * 2;
        attempt := attempt + 1;
        continue;
      }
      SettledFromIs(server, 0, attempt);
      o, calls := Verdict(res), attempt + 1;
      return;
    }
    // The rate-limit error after the loop is never reached.
    assert false;
  }

  /**
   * `ask` as evidently intended: when the last attempt is answered with 429
   * too, the retries are exhausted and the rate-limit error is raised.
   */
  method AskWithLimit(key: string, server: nat -> Response) returns (o: Outcome, waits: seq<nat>, calls: nat)
    ensures key == [] <==> o == MissingKey
    ensures key == [] ==> waits == [] && calls == 0
    ensures key != [] ==> var k := Settled(server);
      calls == k + 1 && waits == Backoff(k)
      && o == (if server(k).status == TooManyRequests then RateLimited else Verdict(server(k)))
    ensures o == RateLimited <==> key != [] && forall i :: 0 <= i <= MaxRetries ==> server(i).status == TooManyRequests
  {
    o, waits, calls := MissingKey, [], 0;
    if key == [] {
      return;
    }
    var delay := FirstDelay;
    var attempt: nat := 0;
    while attempt <= MaxRetries
      invariant attempt <= MaxRetries
      invariant forall i :: 0 <= i < attempt ==> server(i).status == TooManyRequests
      invariant waits == Backoff(attempt) && delay == FirstDelay * Pow2(attempt)
      decreases MaxRetries - attempt
    {
      var res := server(attempt);
      if res.status == TooManyRequests {
        if attempt < MaxRetries {
          waits := waits + [delay];
          delay := delay * 2;
          attempt := attempt + 1;
          continue;
        }
        SettledFromIs(server, 0, attempt);
        o, calls := RateLimited, attempt + 1;
        return;
      }
      SettledFromIs(server, 0, attempt);
      o, calls := Verdict(res), attempt + 1;
      return;
    }
    assert false;
  }

  /** A server that answers every request with 429. */
  function AlwaysBusy(i: nat): Response
  {
    Response(TooManyRequests, None)
  }

  /**
   * As written, four 429 answers end in `Gemini API Error: 429`: the
   * fourth 429 is not retried and is not `ok`, so the rate-limit message is
   * never shown.
   */
  lemma AlwaysBusyIsHttpError()
    ensures Settled(AlwaysBusy) == MaxRetries
    ensures Verdict(AlwaysBusy(Settled(AlwaysBusy))) == HttpError(429)
  {
    SettledFromIs(AlwaysBusy, 0, MaxRetries);
  }
}
