/** `getAemetData`: the two-hop protocol of the AEMET open-data API. The first request asks
    the metadata endpoint for a temporary link and comes back as an envelope
    `{ descripcion, estado, datos, metadatos }`; when `estado` is 200 the second request
    downloads `datos`, and its payload is the answer.

    Whether the page runs on a local host (`window.location.hostname`) is the parameter
    `isLocal`; the API key of the unshown configuration is the parameter `apiKey`. */
module WeatherService {
  import opened Wrappers
  import opened JsStrings
  import opened JsValue
  import opened HttpClient

  const AemetHost: string := "https://opendata.aemet.es"

  /** `BASE_URL`: the development proxy path, or the API's absolute address. */
  function BaseUrl(isLocal: bool): (r: string)
    ensures isLocal ==> r == "/opendata/api"
    ensures !isLocal ==> r == "https://opendata.aemet.es/opendata/api"
  {
    if isLocal then "/opendata/api" else AemetHost + "/opendata/api"
  }

  /** The metadata URL `${BASE_URL}/${endpoint}`. */
  function MetadataUrl(isLocal: bool, endpoint: string): string
  {
    BaseUrl(isLocal) + "/" + endpoint
  }

  /** The metadata URL is the base, a slash and the endpoint, which can be read back off it;
      off a local host it is an absolute address on the AEMET host. */
  lemma MetadataUrlParts(isLocal: bool, endpoint: string)
    ensures StartsWith(MetadataUrl(isLocal, endpoint), BaseUrl(isLocal) + "/")
    ensures MetadataUrl(isLocal, endpoint)[|BaseUrl(isLocal)| + 1..] == endpoint
    ensures !isLocal ==> StartsWith(MetadataUrl(isLocal, endpoint), AemetHost + "/")
    ensures isLocal ==> MetadataUrl(isLocal, endpoint)[0] == '/'
  {
    var u := MetadataUrl(isLocal, endpoint);
    assert u[..|BaseUrl(isLocal)| + 1] == BaseUrl(isLocal) + "/";
    if !isLocal {
      assert u[..|AemetHost| + 1] == (BaseUrl(isLocal) + "/")[..|AemetHost| + 1];
    }
  }

  /** The first hop: a GET with the API key and a JSON `Accept` header. */
  function MetadataRequest(isLocal: bool, apiKey: string, endpoint: string): (r: Request)
    ensures r.url == MetadataUrl(isLocal, endpoint)
    ensures r.options.httpMethod == Some("GET")
    ensures ("api_key", apiKey) in r.options.headers
    ensures ("Accept", "application/json") in r.options.headers
    ensures |r.options.headers| == 2
  {
    Request(MetadataUrl(isLocal, endpoint),
            Options(Some("GET"), [("api_key", apiKey), ("Accept", "application/json")]))
  }

  const InvalidResponseMessage: string := "Respuesta inválida de AEMET"

  /** The `TypeError` of reading a property of `null` or `undefined`. */
  function ReadError(v: Value, property: string): Error
  {
    Error("Cannot read properties of " + (if v.Null? then "null" else "undefined")
          + " (reading '" + property + "')")
  }

  /** The envelope check: `Ok(datos)` when `estado` is exactly the number 200, otherwise the
      error `descripcion || "Respuesta inválida de AEMET"`. */
  function CheckEnvelope(envelope: Value): (r: Result<Value, Error>)
    ensures (envelope.Null? || envelope.Undefined?) ==> r == Err(ReadError(envelope, "estado"))
    ensures !(envelope.Null? || envelope.Undefined?) ==>
              (r.Ok? <==> Member(envelope, "estado") == Some(Num(200)))
    ensures r.Ok? ==> Some(r.value) == Member(envelope, "datos")
  {
    match Member(envelope, "estado")
    case None => Err(ReadError(envelope, "estado"))
    case Some(estado) =>
      if estado != Num(200) then
        var descripcion := Member(envelope, "descripcion").value;
        Err(Error(if Truthy(descripcion) then ToJsString(descripcion) else InvalidResponseMessage))
      else Ok(Member(envelope, "datos").value)
  }

  /** A rejected envelope carries its non-empty `descripcion`, or the fixed message when that
      is missing or empty; unless `descripcion` is an array, the message is never empty. */
  lemma RejectedEnvelopeMessage(envelope: Value)
    requires envelope.Obj? && Member(envelope, "estado") != Some(Num(200))
    ensures var d := Member(envelope, "descripcion").value;
      && CheckEnvelope(envelope).Err?
      && (d.Str? && d.s != "" ==> CheckEnvelope(envelope).error.message == d.s)
      && (!Truthy(d) ==> CheckEnvelope(envelope).error.message == InvalidResponseMessage)
      && (!d.Arr? ==> CheckEnvelope(envelope).error.message != "")
  {
    var d := Member(envelope, "descripcion").value;
    if Truthy(d) && !d.Arr? {
      TruthyMessage(d);
    }
  }

  /** A truthy value other than an array never reads as the empty string (an empty array is
      truthy and reads as ""). */
  lemma TruthyMessage(v: Value)
    requires Truthy(v) && !v.Arr?
    ensures ToJsString(v) != ""
  {
    match v
    case Num(n) =>
      assert |NatDigits(if n < 0 then -n else n)| > 0;
    case _ =>
  }

  /** The download link of the second hop. Off a local host it is `datos` as it is (a
      non-string is stringified by `fetch`); on a local host the first AEMET host prefix is
      cut out of it, which fails unless `datos` is a string. */
  function DataUrl(isLocal: bool, datos: Value): (r: Result<string, Error>)
    ensures !isLocal ==> r == Ok(ToJsString(datos))
    ensures isLocal ==> (r.Ok? <==> datos.Str?)
    ensures isLocal && datos.Str? ==> r == Ok(ReplaceFirst(datos.s, AemetHost, ""))
  {
    if !isLocal then Ok(ToJsString(datos))
    else match datos
      case Str(s) => Ok(ReplaceFirst(s, AemetHost, ""))
      case Null => Err(ReadError(datos, "replace"))
      case Undefined => Err(ReadError(datos, "replace"))
      case _ => Err(Error("result.datos.replace is not a function"))
  }

  /** On a local host an absolute AEMET link becomes the path on the proxy; a link without
      the host is kept. */
  lemma LocalLinkThroughProxy(link: string)
    ensures StartsWith(link, AemetHost) ==> DataUrl(true, Str(link)) == Ok(link[|AemetHost|..])
    ensures !Contains(link, AemetHost) ==> DataUrl(true, Str(link)) == Ok(link)
  {
    if StartsWith(link, AemetHost) {
      ReplaceLeadingPrefix(link, AemetHost);
    }
  }

  /** The answer and the trace of one call: the result, the requests in the order they were
      made (one per hop), and the attempts made in all. */
  datatype Exchange = Exchange(result: Result<Value, Error>, hops: seq<Request>, attempts: nat)

  /** `getAemetData(endpoint)`: the metadata hop with retries, the envelope check, then the
      download hop with retries and default options. The network is consulted in time
      order: the download's attempts come after the metadata's. */
  function GetAemetData(isLocal: bool, apiKey: string, endpoint: string,
                        network: (Request, nat) -> FetchOutcome, codecs: Codecs): (x: Exchange)
    ensures 1 <= |x.hops| <= 2
    ensures x.hops[0] == MetadataRequest(isLocal, apiKey, endpoint)
    ensures |x.hops| == 2 ==> x.hops[1].options == NoOptions
    ensures |x.hops| == 1 ==> x.result.Err?
  {
    var first := MetadataRequest(isLocal, apiKey, endpoint);
    var meta := Fetch(first, network, codecs, 0);
    match meta.result
    case Err(e) => Exchange(Err(e), [first], meta.attempts)
    case Ok(envelope) =>
      match CheckEnvelope(envelope)
      case Err(e) => Exchange(Err(e), [first], meta.attempts)
      case Ok(datos) =>
        match DataUrl(isLocal, datos)
        case Err(e) => Exchange(Err(e), [first], meta.attempts)
        case Ok(url) =>
          var second := Request(url, NoOptions);
          var data := Fetch(second, network, codecs, meta.attempts);
          Exchange(data.result, [first, second], meta.attempts + data.attempts)
  }

  /** A failed metadata hop or a rejected envelope ends the call with that error, and no
      second request is made. */
  lemma NoSecondHopOnFailure(isLocal: bool, apiKey: string, endpoint: string,
                             network: (Request, nat) -> FetchOutcome, codecs: Codecs)
    ensures var meta := Fetch(MetadataRequest(isLocal, apiKey, endpoint), network, codecs, 0);
      var x := GetAemetData(isLocal, apiKey, endpoint, network, codecs);
      && (meta.result.Err? ==> x == Exchange(meta.result, x.hops, meta.attempts) && |x.hops| == 1)
      && (meta.result.Ok? && CheckEnvelope(meta.result.value).Err? ==>
            x.result == CheckEnvelope(meta.result.value) && |x.hops| == 1)
  {
  }

  /** The second request is made exactly when the metadata hop succeeded and its envelope
      and link were good; it goes to that link with default options, and its result is
      the call's result as it is. */
  lemma TwoHopsOnSuccess(isLocal: bool, apiKey: string, endpoint: string,
                         network: (Request, nat) -> FetchOutcome, codecs: Codecs)
    ensures var meta := Fetch(MetadataRequest(isLocal, apiKey, endpoint), network, codecs, 0);
      var x := GetAemetData(isLocal, apiKey, endpoint, network, codecs);
      && (|x.hops| == 2 <==>
            meta.result.Ok? && CheckEnvelope(meta.result.value).Ok?
            && DataUrl(isLocal, CheckEnvelope(meta.result.value).value).Ok?)
      && (|x.hops| == 2 ==>
            var url := DataUrl(isLocal, CheckEnvelope(meta.result.value).value).value;
            var data := Fetch(Request(url, NoOptions), network, codecs, meta.attempts);
            && x.hops == [MetadataRequest(isLocal, apiKey, endpoint), Request(url, NoOptions)]
            && x.result == data.result
            && x.attempts == meta.attempts + data.attempts)
  {
  }
}
