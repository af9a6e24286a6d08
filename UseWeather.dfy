/** The data hooks: `useWeather`, whose query fetches the forecast of a municipality or the
    bulletin of a mountain zone and shapes it, and `useMunicipios`, which turns the AEMET
    master list into sorted menu entries. The query cache around them is not modelled. */
module UseWeather {
  import opened Wrappers
  import opened JsStrings
  import opened JsValue
  import opened Sorting
  import opened HttpClient
  import opened WeatherService
  import opened Types

  const MunicipioPrefix: string := "prediccion/especifica/municipio/horaria/"
  const NivologicaPrefix: string := "prediccion/especifica/nivologica/"

  /** The endpoint the query asks for: the hourly forecast of a municipality on the
      `localidad` tab, the avalanche bulletin of a zone on the other. */
  function Endpoint(tab: Tab, id: string): (e: string)
    ensures tab.Localidad? ==> e == MunicipioPrefix + id
    ensures tab.Zona? ==> e == NivologicaPrefix + id
  {
    match tab
    case Localidad => MunicipioPrefix + id
    case Zona => NivologicaPrefix + id
  }

  /** Distinct tabs or identifiers never share an endpoint, and the identifier is the
      endpoint's tail. */
  lemma EndpointInjective(t1: Tab, a: string, t2: Tab, b: string)
    ensures Endpoint(t1, a) == Endpoint(t2, b) <==> t1 == t2 && a == b
    ensures Endpoint(t1, a)[|Endpoint(t1, a)| - |a|..] == a
  {
    if Endpoint(t1, a) == Endpoint(t2, b) {
      assert Endpoint(t1, a)[22] == Endpoint(t2, b)[22];
      var n := |Endpoint(t1, "")|;
      assert Endpoint(t1, a)[n..] == a && Endpoint(t2, b)[n..] == b;
    }
  }

  /** `WeatherQueryResponse`; `Null` stands for `null`. */
  datatype WeatherQueryResponse = WeatherQueryResponse(weather: Value, nivologica: Value)

  /** The shaping of the payload: `{ weather: response[0] || null, nivologica: null }` on the
      `localidad` tab, `{ weather: null, nivologica: element 0 of an array, else the payload }`
      on the other. Reading element 0 of `null` or `undefined` throws. */
  function ShapeResponse(tab: Tab, payload: Value): (r: Result<WeatherQueryResponse, Error>)
    ensures tab.Zona? ==> r.Ok? && r.value.weather == Null
    ensures tab.Zona? && !payload.Arr? ==> r.value.nivologica == payload
    ensures tab.Zona? && payload.Arr? ==>
              r.value.nivologica == if |payload.items| > 0 then payload.items[0] else Undefined
    ensures tab.Localidad? ==> (r.Ok? <==> !(payload.Null? || payload.Undefined?))
    ensures tab.Localidad? && r.Ok? ==> r.value.nivologica == Null
    ensures tab.Localidad? && r.Ok? ==>
              (Truthy(r.value.weather) <==> Index0(payload).Some? && Truthy(Index0(payload).value))
  {
    match tab
    case Localidad =>
      (match Index0(payload)
       case None => Err(ReadError(payload, "0"))
       case Some(first) => Ok(WeatherQueryResponse(if Truthy(first) then first else Null, Null)))
    case Zona =>
      Ok(WeatherQueryResponse(Null, if payload.Arr? then Index0(payload).value else payload))
  }

  /** On the `localidad` tab a forecast list yields its first forecast when there is one,
      and `null` (a falsy weather) when the list is empty. */
  lemma ForecastListShaping(items: seq<Value>)
    ensures |items| > 0 && Truthy(items[0]) ==>
              ShapeResponse(Localidad, Arr(items)) == Ok(WeatherQueryResponse(items[0], Null))
    ensures |items| == 0 ==>
              ShapeResponse(Localidad, Arr(items)) == Ok(WeatherQueryResponse(Null, Null))
  {
  }

  /** The query function: one call of the two-hop fetch for the tab's endpoint, then the
      shaping; a failure of the fetch is the query's failure. */
  function QueryFn(tab: Tab, id: string, isLocal: bool, apiKey: string,
                   network: (Request, nat) -> FetchOutcome, codecs: Codecs)
    : (r: Result<WeatherQueryResponse, Error>)
    ensures var x := GetAemetData(isLocal, apiKey, Endpoint(tab, id), network, codecs);
      && (x.result.Err? ==> r == Err(x.result.error))
      && (x.result.Ok? ==> r == ShapeResponse(tab, x.result.value))
  {
    match GetAemetData(isLocal, apiKey, Endpoint(tab, id), network, codecs).result
    case Err(e) => Err(e)
    case Ok(payload) => ShapeResponse(tab, payload)
  }

  /** The query's cache key `['weather', activeTab, selectedId]`. */
  function QueryKey(tab: Tab, id: string): (k: seq<string>)
    ensures |k| == 3 && k[0] == "weather" && k[1] == TabName(tab) && k[2] == id
  {
    ["weather", TabName(tab), id]
  }

  /** Two queries share a cache entry only for the same tab and the same identifier. */
  lemma QueryKeyInjective(t1: Tab, a: string, t2: Tab, b: string)
    ensures QueryKey(t1, a) == QueryKey(t2, b) <==> t1 == t2 && a == b
  {
    if QueryKey(t1, a) == QueryKey(t2, b) {
      assert QueryKey(t1, a)[1] == QueryKey(t2, b)[1];
      assert QueryKey(t1, a)[2] == QueryKey(t2, b)[2];
    }
  }

  /** `!!selectedId && !!activeTab`: a tab is never the empty string, so only the identifier
      can switch the query off. */
  predicate Enabled(id: string, tab: Tab)
  {
    id != "" && TabName(tab) != ""
  }

  lemma EnabledIff(id: string, tab: Tab)
    ensures Enabled(id, tab) <==> id != ""
  {
    assert |TabName(tab)| > 0;
  }

  const ConnectionErrorMessage: string := "Error al conectar con AEMET"

  /** The error string the hook returns: `null` without an error, the error's message when
      it has one, the fixed connection message otherwise. */
  function ErrorText(error: Option<Error>): (r: Option<string>)
    ensures r.None? <==> error.None?
    ensures error.Some? && error.value.message != "" ==> r == Some(error.value.message)
    ensures error.Some? && error.value.message == "" ==> r == Some(ConnectionErrorMessage)
  {
    match error
    case None => None
    case Some(e) => Some(if e.message != "" then e.message else ConnectionErrorMessage)
  }

  /** An error is never shown as an empty string. */
  lemma ErrorTextNonEmpty(error: Option<Error>)
    ensures ErrorText(error).Some? ==> ErrorText(error).value != ""
  {
  }

  // ---------------------------------------------------------------------------------------
  // useMunicipios

  /** An entry of the AEMET master list of municipalities. */
  datatype MaestroEntry = MaestroEntry(id: string, nombre: string)

  /** The menu entry of a municipality: its identifier without the first "id", its name. */
  function ToLocation(m: MaestroEntry): (r: LocationItem)
    ensures r.name == m.nombre && r.kind == Municipio
    ensures !Contains(m.id, "id") ==> r.id == m.id
  {
    LocationItem(ReplaceFirst(m.id, "id", ""), m.nombre, Municipio)
  }

  /** "id22170" becomes "22170": a leading "id" is removed, and only that one. */
  lemma ToLocationStripsPrefix(digits: string)
    ensures ToLocation(MaestroEntry("id" + digits, "")).id == digits
  {
    assert StartsWith("id" + digits, "id");
    ReplaceLeadingPrefix("id" + digits, "id");
    assert ("id" + digits)[2..] == digits;
  }

  function NameKey(): LocationItem -> string
  {
    (l: LocationItem) => l.name
  }

  function Mapped(entries: seq<MaestroEntry>): (r: seq<LocationItem>)
    ensures |r| == |entries|
    ensures forall i :: 0 <= i < |entries| ==> r[i] == ToLocation(entries[i])
  {
    seq(|entries|, i requires 0 <= i < |entries| => ToLocation(entries[i]))
  }

  /** The list of `useMunicipios`: the entries mapped, sorted by name. */
  function MunicipioList(entries: seq<MaestroEntry>): (r: seq<LocationItem>)
    ensures |r| == |entries|
    ensures multiset(r) == multiset(Mapped(entries))
    ensures SortedBy(r, NameKey())
  {
    SortBy(Mapped(entries), NameKey())
  }

  /** Every municipality of the master list is in the menu list, and nothing else is. */
  lemma MunicipioListMembers(entries: seq<MaestroEntry>)
    ensures forall m :: m in entries ==> ToLocation(m) in MunicipioList(entries)
    ensures forall l :: l in MunicipioList(entries) ==> exists m :: m in entries && l == ToLocation(m)
  {
    var r, mapped := MunicipioList(entries), Mapped(entries);
    forall m | m in entries ensures ToLocation(m) in r {
      var i :| 0 <= i < |entries| && entries[i] == m;
      assert mapped[i] == ToLocation(m);
      assert ToLocation(m) in multiset(mapped);
    }
    forall l | l in r ensures exists m :: m in entries && l == ToLocation(m) {
      assert l in multiset(r);
      assert l in multiset(mapped);
      var i :| 0 <= i < |mapped| && mapped[i] == l;
      assert entries[i] in entries;
    }
  }
}
