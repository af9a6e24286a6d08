/** `fetchWithRetry`: one request attempt classifies the HTTP status, decodes the body as
    JSON or as text (with a Latin-1 fallback for badly decoded text), and any failure is
    retried with a doubling back-off until the retry budget is spent.

    `fetch`, the two `TextDecoder`s, `response.json()` and `JSON.parse` are foreign: the
    network is an oracle from a request and the attempt's position in time to an outcome,
    the UTF-8 decoder, the JSON body reader and the JSON parser are oracles in `Codecs`,
    and only ISO-8859-1 decoding, which is a fixed byte-to-code-point table, is concrete. */
module HttpClient {
  import opened Wrappers
  import opened JsStrings
  import opened JsValue

  newtype byte = x: int | 0 <= x < 256

  // ---------------------------------------------------------------------------------------
  // Requests, responses and errors

  /** `RequestInit`: the method and the headers, in the order they were written. */
  datatype Options = Options(httpMethod: Option<string>, headers: seq<(string, string)>)

  /** The default `options = {}`. */
  const NoOptions: Options := Options(None, [])

  datatype Request = Request(url: string, options: Options)

  /** What the server sent back; `contentType` is `None` when the header is absent. */
  datatype Response = Response(status: int, contentType: Option<string>, body: seq<byte>)

  /** A thrown JavaScript `Error`, by its `message`. */
  datatype Error = Error(message: string)

  /** A settled `fetch` promise: a response, or a rejection (network failure, CORS). */
  datatype FetchOutcome = Responded(response: Response) | Rejected(error: Error)

  /** The foreign decoders. `utf8` is `new TextDecoder('utf-8').decode`, which puts U+FFFD in
      place of every malformed sequence; `json` is `response.json()`; `parse` is
      `JSON.parse`, with `None` for a `SyntaxError`. */
  datatype Codecs = Codecs(
    utf8: seq<byte> -> string,
    json: seq<byte> -> Result<Value, Error>,
    parse: string -> Option<Value>)

  const RateLimitMessage: string := "Límite de peticiones de AEMET alcanzado (429)"

  function ServerErrorMessage(status: int): (m: string)
    ensures StartsWith(m, "Error en servidor AEMET: ")
  {
    "Error en servidor AEMET: " + IntToString(status)
  }

  /** `response.ok`. */
  predicate IsOk(status: int) { 200 <= status <= 299 }

  /** The status check of one attempt: `None` lets the body be read. */
  function StatusError(status: int): (r: Option<Error>)
    ensures r.None? <==> IsOk(status)
    ensures status == 429 ==> r == Some(Error(RateLimitMessage))
    ensures !IsOk(status) && status != 429 ==> r == Some(Error(ServerErrorMessage(status)))
  {
    if status == 429 then Some(Error(RateLimitMessage))
    else if !IsOk(status) then Some(Error(ServerErrorMessage(status)))
    else None
  }

  /** The server error message gives the status back. */
  lemma ServerErrorCarriesStatus(status: int)
    ensures ParseInt(ServerErrorMessage(status)[|"Error en servidor AEMET: "|..]) == Some(status)
  {
    var prefix := "Error en servidor AEMET: ";
    assert ServerErrorMessage(status)[|prefix|..] == IntToString(status);
    ParseIntOfIntToString(status);
  }

  // ---------------------------------------------------------------------------------------
  // The text path

  /** A (truthy) content type that mentions `application/json`. */
  predicate IsJsonType(contentType: Option<string>)
  {
    contentType.Some? && contentType.value != "" && Contains(contentType.value, "application/json")
  }

  /** `new TextDecoder('iso-8859-1').decode`: byte b is code point b. */
  function Latin1(body: seq<byte>): (r: string)
    ensures |r| == |body|
    ensures forall k :: 0 <= k < |body| ==> r[k] as int == body[k] as int
  {
    if |body| == 0 then "" else [body[0] as int as char] + Latin1(body[1..])
  }

  const ReplacementChar: char := '\U{FFFD}'

  /** The fallback check of the source: `text.includes('')`, whose literal is the EMPTY
      string, although the comment beside it describes the replacement character. */
  predicate NeedsFallbackAsWritten(text: string)
  {
    Contains(text, "")
  }

  /** The fallback check as intended: the UTF-8 decoder produced a replacement character. */
  predicate NeedsFallback(text: string)
  {
    Contains(text, [ReplacementChar])
  }

  /** The text the source goes on with, with the check as written. */
  function FinalTextAsWritten(body: seq<byte>, codecs: Codecs): string
  {
    var text := codecs.utf8(body);
    if NeedsFallbackAsWritten(text) then Latin1(body) else text
  }

  /** The text the source goes on with, with the intended check. */
  function FinalText(body: seq<byte>, codecs: Codecs): string
  {
    var text := codecs.utf8(body);
    if NeedsFallback(text) then Latin1(body) else text
  }

  /** As written, every text body is re-decoded as ISO-8859-1, whatever UTF-8 gave. */
  lemma AsWrittenAlwaysLatin1(body: seq<byte>, codecs: Codecs)
    ensures FinalTextAsWritten(body, codecs) == Latin1(body)
  {
    ContainsEmpty(codecs.utf8(body));
  }

  /** So a correctly encoded "é" (bytes C3 A9) comes out as the two characters "Ã©". */
  lemma AsWrittenGarblesUtf8(codecs: Codecs)
    requires codecs.utf8([0xC3, 0xA9]) == "é"
    ensures FinalTextAsWritten([0xC3, 0xA9], codecs) == "Ã©"
    ensures FinalText([0xC3, 0xA9], codecs) == "é"
  {
    AsWrittenAlwaysLatin1([0xC3, 0xA9], codecs);
    var t := Latin1([0xC3, 0xA9]);
    assert t[0] == 'Ã' && t[1] == '©';
    assert t == "Ã©";
    assert !Contains("é", [ReplacementChar]) by {
      ContainsIff("é", [ReplacementChar]);
      forall i ensures !OccursAt("é", [ReplacementChar], i) {
        if 0 <= i && i + 1 <= 1 {
          assert "é"[i..i + 1] == ['é'];
        }
      }
    }
  }

  /** A Latin-1 decoding never holds the replacement character. */
  lemma Latin1Clean(body: seq<byte>)
    ensures !NeedsFallback(Latin1(body))
  {
    var t := Latin1(body);
    ContainsIff(t, [ReplacementChar]);
    forall i ensures !OccursAt(t, [ReplacementChar], i) {
      if 0 <= i < |t| {
        assert t[i] as int < 256;
      }
    }
  }

  /** The intended check keeps the UTF-8 text exactly when it decoded cleanly, and either
      way the text that goes on holds no replacement character. */
  lemma FinalTextChoice(body: seq<byte>, codecs: Codecs)
    ensures !NeedsFallback(codecs.utf8(body)) ==> FinalText(body, codecs) == codecs.utf8(body)
    ensures NeedsFallback(codecs.utf8(body)) ==> FinalText(body, codecs) == Latin1(body)
    ensures !NeedsFallback(FinalText(body, codecs))
  {
    Latin1Clean(body);
  }

  /** The two checks part only on clean UTF-8 text: when the decoder did produce a
      replacement character, both go on with the Latin-1 decoding; otherwise the check as
      written still replaces the text, and the intended one keeps it. */
  lemma FallbackAgrees(body: seq<byte>, codecs: Codecs)
    ensures NeedsFallback(codecs.utf8(body)) ==>
              FinalTextAsWritten(body, codecs) == FinalText(body, codecs) == Latin1(body)
    ensures !NeedsFallback(codecs.utf8(body)) ==>
              FinalTextAsWritten(body, codecs) == Latin1(body)
              && FinalText(body, codecs) == codecs.utf8(body)
  {
    AsWrittenAlwaysLatin1(body, codecs);
  }

  /** The trimmed text starts like a JSON array or object. */
  predicate LooksLikeJson(text: string)
  {
    var t := Trim(text);
    StartsWith(t, "[") || StartsWith(t, "{")
  }

  /** What a text body becomes: the parsed value when it looks like JSON and parses, the
      text itself otherwise. */
  function InterpretText(text: string, parse: string -> Option<Value>): (v: Value)
    ensures !LooksLikeJson(text) ==> v == Str(text)
    ensures LooksLikeJson(text) && parse(text).None? ==> v == Str(text)
    ensures LooksLikeJson(text) && parse(text).Some? ==> v == parse(text).value
  {
    if LooksLikeJson(text) && parse(text).Some? then parse(text).value else Str(text)
  }

  /** A text that does not look like JSON is never handed to the parser: whatever the parser
      would do, the value is the text. */
  lemma PlainTextUnparsed(text: string, parse1: string -> Option<Value>, parse2: string -> Option<Value>)
    requires !LooksLikeJson(text)
    ensures InterpretText(text, parse1) == InterpretText(text, parse2) == Str(text)
  {
  }

  /** Blank text and text starting with a non-bracket character stay text. */
  lemma BlankOrProseStaysText(text: string, parse: string -> Option<Value>)
    requires Trim(text) == "" || (Trim(text)[0] != '[' && Trim(text)[0] != '{')
    ensures InterpretText(text, parse) == Str(text)
  {
  }

  /** The text path with its reassignment of the content, as the source sequences it. */
  method ReadText(body: seq<byte>, codecs: Codecs) returns (content: Value)
    ensures content == InterpretText(FinalText(body, codecs), codecs.parse)
  {
    var text := codecs.utf8(body);
    var finalContent := text;
    if NeedsFallback(text) {
      finalContent := Latin1(body);
    }
    content := Str(finalContent);
    if LooksLikeJson(finalContent) {
      var parsed := codecs.parse(finalContent);
      if parsed.Some? {
        content := parsed.value;
      }
    }
  }

  // ---------------------------------------------------------------------------------------
  // One attempt

  /** The body of the `try`: a rejection, a bad status, the JSON reader's verdict, or the
      interpreted text. */
  function Attempt(outcome: FetchOutcome, codecs: Codecs): (r: Result<Value, Error>)
  {
    match outcome
    case Rejected(e) => Err(e)
    case Responded(resp) =>
      var bad := StatusError(resp.status);
      if bad.Some? then Err(bad.value)
      else if IsJsonType(resp.contentType) then codecs.json(resp.body)
      else Ok(InterpretText(FinalText(resp.body, codecs), codecs.parse))
  }

  /** Status 429 and every other non-ok status fail the attempt with their message, before
      the body is looked at: the decoders play no part. */
  lemma AttemptStatus(resp: Response, codecs: Codecs, other: Codecs)
    requires !IsOk(resp.status)
    ensures Attempt(Responded(resp), codecs) == Attempt(Responded(resp), other)
    ensures resp.status == 429 ==> Attempt(Responded(resp), codecs) == Err(Error(RateLimitMessage))
    ensures resp.status != 429 ==>
              Attempt(Responded(resp), codecs) == Err(Error(ServerErrorMessage(resp.status)))
  {
  }

  /** An ok JSON response is exactly the JSON reader's result, and the text decoders are
      never used; an ok non-JSON response always succeeds, with the text path's value. */
  lemma AttemptBody(resp: Response, codecs: Codecs)
    requires IsOk(resp.status)
    ensures IsJsonType(resp.contentType) ==>
              Attempt(Responded(resp), codecs) == codecs.json(resp.body)
              && forall u, p :: Attempt(Responded(resp), Codecs(u, codecs.json, p))
                                == codecs.json(resp.body)
    ensures !IsJsonType(resp.contentType) ==>
              Attempt(Responded(resp), codecs)
              == Ok(InterpretText(FinalText(resp.body, codecs), codecs.parse))
    ensures !IsJsonType(resp.contentType) && NeedsFallback(codecs.utf8(resp.body)) ==>
              Attempt(Responded(resp), codecs)
              == Ok(InterpretText(FinalTextAsWritten(resp.body, codecs), codecs.parse))
  {
    if !IsJsonType(resp.contentType) && NeedsFallback(codecs.utf8(resp.body)) {
      FallbackAgrees(resp.body, codecs);
    }
  }

  // ---------------------------------------------------------------------------------------
  // The retry

  const DefaultRetries: nat := 5
  const DefaultBackoff: nat := 1000

  function Pow2(n: nat): nat
  {
    if n == 0 then 1 else 2 * Pow2(n - 1)
  }

  /** The wait before the (j+2)-th attempt of a call started with `backoff`: the back-off
      doubles with every recursion. */
  function Delay(backoff: nat, j: nat): nat
    decreases j
  {
    if j == 0 then backoff else Delay(backoff * 2, j - 1)
  }

  lemma {:induction false} DelayIsPower(backoff: nat, j: nat)
    ensures Delay(backoff, j) == backoff * Pow2(j)
    decreases j
  {
    if j > 0 {
      DelayIsPower(backoff * 2, j - 1);
      assert backoff * 2 * Pow2(j - 1) == backoff * (2 * Pow2(j - 1));
    }
  }

  function Sum(xs: seq<nat>): nat
  {
    if |xs| == 0 then 0 else xs[0] + Sum(xs[1..])
  }

  /** The trace of a call: its result, how many attempts it made, and the waits between
      them in milliseconds. */
  datatype Run = Run(result: Result<Value, Error>, attempts: nat, delays: seq<nat>)

  /** The verdicts of the attempts of one request, indexed by their position in time. */
  function Verdicts(req: Request, network: (Request, nat) -> FetchOutcome, codecs: Codecs)
    : nat -> Result<Value, Error>
  {
    (t: nat) => Attempt(network(req, t), codecs)
  }

  /** The recursion of `fetchWithRetry` over the verdicts of its attempts: the attempt at
      time `start` decides; a failure with `retries > 0` waits `backoff` and recurses with
      `retries - 1` and `backoff * 2`, a failure with `retries == 0` is rethrown. */
  function Retry(verdict: nat -> Result<Value, Error>, retries: nat, backoff: nat, start: nat)
    : (r: Run)
    ensures 1 <= r.attempts <= retries + 1
    ensures |r.delays| == r.attempts - 1
    ensures forall j :: 0 <= j < |r.delays| ==> r.delays[j] == Delay(backoff, j)
    ensures r.result == verdict(start + r.attempts - 1)
    ensures forall t :: start <= t < start + r.attempts - 1 ==> verdict(t).Err?
    ensures r.attempts <= retries ==> r.result.Ok?
    decreases retries
  {
    var outcome := verdict(start);
    if outcome.Ok? || retries == 0 then Run(outcome, 1, [])
    else
      var rest := Retry(verdict, retries - 1, backoff * 2, start + 1);
      Run(rest.result, rest.attempts + 1, [backoff] + rest.delays)
  }

  /** `fetchWithRetry(url, options, retries, backoff)`, whose first attempt is the
      `start`-th call of the network in time. */
  function FetchWithRetry(req: Request, retries: nat, backoff: nat,
                          network: (Request, nat) -> FetchOutcome, codecs: Codecs,
                          start: nat): (r: Run)
    ensures 1 <= r.attempts <= retries + 1
    ensures r.result == Attempt(network(req, start + r.attempts - 1), codecs)
    ensures r.attempts <= retries ==> r.result.Ok?
  {
    Retry(Verdicts(req, network, codecs), retries, backoff, start)
  }

  /** The call with the default budget and back-off, as every caller here makes it. */
  function Fetch(req: Request, network: (Request, nat) -> FetchOutcome, codecs: Codecs,
                 start: nat): (r: Run)
    ensures 1 <= r.attempts <= 6
  {
    FetchWithRetry(req, DefaultRetries, DefaultBackoff, network, codecs, start)
  }

  /** The first success ends the call at once. */
  lemma FirstSuccessStops(verdict: nat -> Result<Value, Error>, retries: nat, backoff: nat,
                          start: nat)
    requires verdict(start).Ok?
    ensures Retry(verdict, retries, backoff, start) == Run(verdict(start), 1, [])
  {
  }

  /** Against attempts that all fail, a budget of N makes exactly N + 1 attempts, waits
      backoff * 2^k before the (k+2)-th, and raises the last attempt's error. */
  lemma {:induction false} AlwaysFailing(verdict: nat -> Result<Value, Error>, retries: nat,
                                         backoff: nat, start: nat)
    requires forall t :: start <= t ==> verdict(t).Err?
    ensures var r := Retry(verdict, retries, backoff, start);
      && r.attempts == retries + 1
      && r.result == verdict(start + retries)
      && r.result.Err?
      && |r.delays| == retries
      && forall j :: 0 <= j < retries ==> r.delays[j] == backoff * Pow2(j)
  {
    var r := Retry(verdict, retries, backoff, start);
    assert verdict(start + r.attempts - 1).Err?;
    forall j | 0 <= j < retries ensures r.delays[j] == backoff * Pow2(j) {
      DelayIsPower(backoff, j);
    }
  }

  /** Waits that double from `backoff` add up to one less than the next wait. */
  lemma {:induction false} SumDoubling(ds: seq<nat>, backoff: nat)
    requires forall j :: 0 <= j < |ds| ==> ds[j] == Delay(backoff, j)
    ensures Sum(ds) + backoff == Delay(backoff, |ds|)
    decreases |ds|
  {
    if |ds| > 0 {
      var tail := ds[1..];
      forall j | 0 <= j < |tail|
        ensures tail[j] == Delay(backoff * 2, j)
      {
        assert tail[j] == ds[j + 1];
      }
      SumDoubling(tail, backoff * 2);
    }
  }

  /** The waits of a call add up to backoff * (2^k - 1) after k of them. */
  lemma {:induction false} TotalWait(verdict: nat -> Result<Value, Error>, retries: nat,
                                     backoff: nat, start: nat)
    ensures var r := Retry(verdict, retries, backoff, start);
      Sum(r.delays) + backoff == Delay(backoff, r.attempts - 1)
  {
    var r := Retry(verdict, retries, backoff, start);
    SumDoubling(r.delays, backoff);
  }

  /** With the defaults and attempts that never succeed: six attempts, waits of 1, 2, 4, 8
      and 16 seconds, 31 seconds in all. */
  lemma DefaultsExhausted(verdict: nat -> Result<Value, Error>)
    requires forall t :: verdict(t).Err?
    ensures Retry(verdict, DefaultRetries, DefaultBackoff, 0).attempts == 6
    ensures Retry(verdict, DefaultRetries, DefaultBackoff, 0).delays
            == [1000, 2000, 4000, 8000, 16000]
    ensures Sum(Retry(verdict, DefaultRetries, DefaultBackoff, 0).delays) == 31000
  {
    AlwaysFailing(verdict, DefaultRetries, DefaultBackoff, 0);
    TotalWait(verdict, DefaultRetries, DefaultBackoff, 0);
    var d := Retry(verdict, DefaultRetries, DefaultBackoff, 0).delays;
    assert Delay(1000, 5) == 32000;
    assert d[0] == 1000 && d[1] == 2000 && d[2] == 4000 && d[3] == 8000 && d[4] == 16000 by {
      assert Delay(1000, 1) == 2000 && Delay(1000, 2) == 4000;
      assert Delay(1000, 3) == 8000 && Delay(1000, 4) == 16000;
    }
  }
}
