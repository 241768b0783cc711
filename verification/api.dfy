/**
 * The logic of src/utils/api.ts: choosing a localized string, preparing an
 * API request (URL, default headers, CSRF token), turning the response into
 * a result or an error, and the two helpers built on top of it. The network
 * is a parameter: a function from the prepared request to what came back.
 */
module Api {
  import opened Wrappers
  import opened JsValue
  import Pkp

  // ---------------------------------------------------------------------
  // getLocalizedString

  /** A locale-to-text record, in the order `Object.values` lists it. */
  type LocalizedString = seq<(string, string)>

  const DefaultLocale: string := "en"

  /** A record's keys are distinct. */
  predicate UniqueKeys(entries: LocalizedString) {
    forall i, j :: 0 <= i < j < |entries| ==> entries[i].0 != entries[j].0
  }

  /** `record[locale]`: the text stored under the first entry with that key. */
  function Lookup(entries: LocalizedString, locale: string): (r: Option<string>)
    ensures r.Some? ==> exists i :: 0 <= i < |entries| && entries[i] == (locale, r.value)
    ensures r.None? <==> forall i :: 0 <= i < |entries| ==> entries[i].0 != locale
  {
    if entries == [] then None
    else if entries[0].0 == locale then Some(entries[0].1)
    else Lookup(entries[1..], locale)
  }

  /** In a record with distinct keys, every entry is what its key looks up. */
  lemma LookupAt(entries: LocalizedString, i: nat)
    requires UniqueKeys(entries) && i < |entries|
    ensures Lookup(entries, entries[i].0) == Some(entries[i].1)
  {
  }

  /** The `preferredLocale` default: the registry's current locale when
      truthy, otherwise `en`. */
  function DefaultPreferredLocale(reg: Option<Pkp.Registry>): (r: string)
    ensures r != ""
    ensures reg.Some? && reg.value.currentLocale.Some? && reg.value.currentLocale.value != "" ==>
              r == reg.value.currentLocale.value
    ensures r != DefaultLocale ==> reg.Some? && reg.value.currentLocale == Some(r)
  {
    match Pkp.CurrentLocale(reg)
    case Some(locale) => locale
    case None => DefaultLocale
  }

  /** `getLocalizedString(record, preferred, fallback)`: the preferred
      text if truthy, else the fallback text if truthy, else the first
      stored text, else `""`. The result is `""` or one of the texts. */
  function GetLocalizedString(localized: Option<LocalizedString>, preferredLocale: string,
                              fallbackLocale: string): (r: string)
    ensures localized.None? ==> r == ""
    ensures r == "" || (localized.Some? && exists i :: 0 <= i < |localized.value| && localized.value[i].1 == r)
  {
    if localized.None? then ""
    else
      var entries := localized.value;
      var preferred := Lookup(entries, preferredLocale);
      var fallback := Lookup(entries, fallbackLocale);
      if TruthyString(preferred) then preferred.value
      else if TruthyString(fallback) then fallback.value
      else if entries != [] then entries[0].1
      else ""
  }

  /** A non-empty preferred text wins, whatever else the record holds. */
  lemma LocalizedPreferred(entries: LocalizedString, preferredLocale: string, fallbackLocale: string, i: nat)
    requires UniqueKeys(entries) && i < |entries|
    requires entries[i].0 == preferredLocale && entries[i].1 != ""
    ensures GetLocalizedString(Some(entries), preferredLocale, fallbackLocale) == entries[i].1
  {
    LookupAt(entries, i);
  }

  /** With the preferred text missing or empty, a non-empty fallback text wins. */
  lemma LocalizedFallback(entries: LocalizedString, preferredLocale: string, fallbackLocale: string, i: nat)
    requires UniqueKeys(entries) && i < |entries|
    requires forall j :: 0 <= j < |entries| && entries[j].0 == preferredLocale ==> entries[j].1 == ""
    requires entries[i].0 == fallbackLocale && entries[i].1 != ""
    ensures GetLocalizedString(Some(entries), preferredLocale, fallbackLocale) == entries[i].1
  {
    LookupAt(entries, i);
  }

  /** With neither locale giving a non-empty text, the first stored text is
      returned, or `""` for an empty record. */
  lemma LocalizedFirst(entries: LocalizedString, preferredLocale: string, fallbackLocale: string)
    requires forall j :: 0 <= j < |entries| && (entries[j].0 == preferredLocale || entries[j].0 == fallbackLocale) ==>
               entries[j].1 == ""
    ensures GetLocalizedString(Some(entries), preferredLocale, fallbackLocale) ==
              if entries == [] then "" else entries[0].1
  {
  }

  /** The result is non-empty exactly when the preferred locale, the
      fallback locale or the first entry holds a non-empty text. */
  lemma LocalizedNonEmpty(entries: LocalizedString, preferredLocale: string, fallbackLocale: string)
    requires UniqueKeys(entries)
    ensures GetLocalizedString(Some(entries), preferredLocale, fallbackLocale) != "" <==>
              (exists j :: 0 <= j < |entries| && (entries[j].0 == preferredLocale || entries[j].0 == fallbackLocale)
                             && entries[j].1 != "")
              || (entries != [] && entries[0].1 != "")
  {
    if j :| 0 <= j < |entries| && (entries[j].0 == preferredLocale || entries[j].0 == fallbackLocale)
            && entries[j].1 != "" {
      LookupAt(entries, j);
    }
  }

  /** Worked cases of the three tiers. */
  lemma LocalizedExamples()
    ensures GetLocalizedString(Some([("en", "Hello"), ("fr", "Bonjour")]), "fr", DefaultLocale) == "Bonjour"
    ensures GetLocalizedString(Some([("en", "Hello")]), "fr", DefaultLocale) == "Hello"
    ensures GetLocalizedString(Some([("de", "Hallo")]), "fr", DefaultLocale) == "Hallo"
    ensures GetLocalizedString(Some([("fr", ""), ("de", "Hallo")]), "fr", DefaultLocale) == ""
    ensures GetLocalizedString(Some([("de", ""), ("it", "Ciao")]), "fr", DefaultLocale) == ""
    ensures GetLocalizedString(None, "fr", DefaultLocale) == ""
  {
  }

  // ---------------------------------------------------------------------
  // fetchFromApi: the URL

  const DefaultBaseUrl: string := "/api"

  /** `pkp?.registry?.apiBaseUrl || '/api'`. */
  function BaseUrl(reg: Option<Pkp.Registry>): (r: string)
    ensures r != ""
    ensures reg.Some? && reg.value.apiBaseUrl.Some? && reg.value.apiBaseUrl.value != "" ==>
              r == reg.value.apiBaseUrl.value
    ensures r != DefaultBaseUrl ==> reg.Some? && reg.value.apiBaseUrl == Some(r)
  {
    match Pkp.ApiBaseUrl(reg)
    case Some(url) => url
    case None => DefaultBaseUrl
  }

  /** A run of `n` slashes. */
  function Slashes(n: nat): (r: string)
    ensures |r| == n && forall i :: 0 <= i < n ==> r[i] == '/'
  {
    seq(n, _ => '/')
  }

  /** `endpoint.replace(/^\/+/, '')`: the endpoint without its leading
      run of slashes; what was removed is slashes only, and what is left
      does not start with one. */
  function StripLeadingSlashes(endpoint: string): (r: string)
    ensures |r| <= |endpoint| && endpoint == Slashes(|endpoint| - |r|) + r
    ensures r == [] || r[0] != '/'
  {
    if endpoint != [] && endpoint[0] == '/' then StripLeadingSlashes(endpoint[1..]) else endpoint
  }

  /** Stripping twice strips nothing more. */
  lemma StripIdempotent(endpoint: string)
    ensures StripLeadingSlashes(StripLeadingSlashes(endpoint)) == StripLeadingSlashes(endpoint)
  {
  }

  /** Any number of extra leading slashes is stripped away. */
  lemma {:induction false} StripSlashes(n: nat, endpoint: string)
    ensures StripLeadingSlashes(Slashes(n) + endpoint) == StripLeadingSlashes(endpoint)
  {
    if n > 0 {
      assert (Slashes(n) + endpoint)[1..] == Slashes(n - 1) + endpoint;
      StripSlashes(n - 1, endpoint);
    } else {
      assert Slashes(n) + endpoint == endpoint;
    }
  }

  /** `${baseUrl}/${stripped endpoint}`: the base, then one slash, then
      something that does not start with a slash. */
  function BuildUrl(baseUrl: string, endpoint: string): (url: string)
    ensures |url| > |baseUrl| && url[..|baseUrl| + 1] == baseUrl + "/"
    ensures |url| == |baseUrl| + 1 || url[|baseUrl| + 1] != '/'
  {
    baseUrl + "/" + StripLeadingSlashes(endpoint)
  }

  /** The URL is the base, exactly one slash, and the endpoint as written
      when it has no leading slash; leading slashes never change the URL. */
  lemma UrlHasOneSlash(baseUrl: string, endpoint: string, n: nat)
    requires endpoint == [] || endpoint[0] != '/'
    ensures BuildUrl(baseUrl, Slashes(n) + endpoint) == baseUrl + "/" + endpoint
    ensures BuildUrl(baseUrl, Slashes(n) + endpoint)[|baseUrl|] == '/'
    ensures endpoint != [] ==> BuildUrl(baseUrl, Slashes(n) + endpoint)[|baseUrl| + 1] != '/'
  {
    StripSlashes(n, endpoint);
  }

  // ---------------------------------------------------------------------
  // fetchFromApi: the headers

  /** Header names, lower-cased as `Headers` normalises them. */
  const ContentTypeHeader: string := "content-type"
  const CsrfHeader: string := "x-csrf-token"
  const JsonContentType: string := "application/json"

  /** A `Headers` object: a map from lower-cased names to values. */
  class Headers {
    var entries: map<string, string>

    /** `new Headers(init)`. */
    constructor (init: map<string, string>)
      ensures entries == init
    {
      entries := init;
    }

    /** `headers.has(name)`. */
    predicate Has(name: string)
      reads this
      ensures Has(name) <==> name in entries.Keys
    {
      name in entries
    }

    /** `headers.set(name, value)`: adds or replaces one header, and no other. */
    method Set(name: string, value: string)
      modifies this
      ensures entries == old(entries)[name := value]
    {
      entries := entries[name := value];
    }
  }

  /** The headers `fetchFromApi` sends, given the caller's. */
  function DefaultedHeaders(init: map<string, string>, reg: Option<Pkp.Registry>): (h: map<string, string>)
    ensures h.Keys == init.Keys + {ContentTypeHeader} + (if Pkp.CsrfToken(reg).Some? then {CsrfHeader} else {})
  {
    var typed := if ContentTypeHeader in init then init else init[ContentTypeHeader := JsonContentType];
    match Pkp.CsrfToken(reg)
    case Some(token) => typed[CsrfHeader := token]
    case None => typed
  }

  /** Content-Type defaults to JSON and a caller's value is kept; the CSRF
      header is exactly the token iff the registry holds a non-empty one,
      and keeps the caller's value otherwise; no other header changes. */
  lemma HeaderDefaults(init: map<string, string>, reg: Option<Pkp.Registry>)
    ensures var h := DefaultedHeaders(init, reg);
      && ContentTypeHeader in h
      && h[ContentTypeHeader] == (if ContentTypeHeader in init then init[ContentTypeHeader] else JsonContentType)
      && (reg.Some? && reg.value.csrfToken.Some? && reg.value.csrfToken.value != "" ==>
            CsrfHeader in h && h[CsrfHeader] == reg.value.csrfToken.value)
      && (Pkp.CsrfToken(reg).None? ==> (CsrfHeader in h <==> CsrfHeader in init)
                                       && (CsrfHeader in init ==> h[CsrfHeader] == init[CsrfHeader]))
      && (forall k :: k != ContentTypeHeader && k != CsrfHeader ==>
            (k in h <==> k in init) && (k in init ==> h[k] == init[k]))
  {
  }

  /** Applying the defaults a second time changes nothing. */
  lemma HeaderDefaultsIdempotent(init: map<string, string>, reg: Option<Pkp.Registry>)
    ensures DefaultedHeaders(DefaultedHeaders(init, reg), reg) == DefaultedHeaders(init, reg)
  {
  }

  // ---------------------------------------------------------------------
  // fetchFromApi: the request

  /** The part of `RequestInit` the helper passes through, and its headers. */
  datatype RequestOptions = RequestOptions(httpMethod: Option<string>, body: Option<string>, headers: map<string, string>)

  const NoOptions: RequestOptions := RequestOptions(None, None, map[])

  /** What is handed to `fetch`: the URL and the options, with the
      defaulted headers and credentials included. */
  datatype Request = Request(
    url: string,
    httpMethod: Option<string>,
    body: Option<string>,
    headers: map<string, string>,
    credentials: string)

  /** The request `fetch` receives: the caller's method and body, a
      Content-Type header, and cookies included. */
  function RequestFor(endpoint: string, options: RequestOptions, reg: Option<Pkp.Registry>): (r: Request)
    ensures r.httpMethod == options.httpMethod && r.body == options.body
    ensures ContentTypeHeader in r.headers && r.credentials == "include"
    ensures |r.url| > |BaseUrl(reg)| && r.url[..|BaseUrl(reg)| + 1] == BaseUrl(reg) + "/"
  {
    Request(BuildUrl(BaseUrl(reg), endpoint), options.httpMethod, options.body,
            DefaultedHeaders(options.headers, reg), "include")
  }

  /** Lines 17-29 and the argument of `fetch`: builds the URL, then a
      `Headers` object it updates in place. */
  method PrepareRequest(endpoint: string, options: RequestOptions, reg: Option<Pkp.Registry>)
    returns (req: Request)
    ensures req == RequestFor(endpoint, options, reg)
  {
    var baseUrl := if Pkp.ApiBaseUrl(reg).Some? then Pkp.ApiBaseUrl(reg).value else DefaultBaseUrl;
    var url := baseUrl + "/" + StripLeadingSlashes(endpoint);
    var headers := new Headers(options.headers);
    if !headers.Has(ContentTypeHeader) {
      headers.Set(ContentTypeHeader, JsonContentType);
    }
    var token := Pkp.CsrfToken(reg);
    if token.Some? {
      headers.Set(CsrfHeader, token.value);
    }
    req := Request(url, options.httpMethod, options.body, headers.entries, "include");
  }

  // ---------------------------------------------------------------------
  // fetchFromApi: the response

  /** What `response.json()` gave: a value, or a parse failure. */
  datatype Body = Parsed(json: Json) | Unparsable

  /** What the network call came back with. */
  datatype Exchange = NetworkFailure(reason: string) | Response(status: nat, body: Body)

  /** Why a call was rejected. `RequestFailed` carries the argument given
      to `new Error(...)`. */
  datatype ApiFailure =
    | Network(reason: string)
    | RequestFailed(message: Json)
    | MalformedBody
    | Thrown(error: TypeError)

  /** `response.ok`: the status is in the 2xx class. */
  predicate IsOk(status: nat)
    ensures IsOk(status) <==> status / 100 == 2
  {
    200 <= status <= 299
  }

  const StatusMessagePrefix: string := "API request failed with status "

  /** `API request failed with status ${status}`: the fixed prefix followed
      by digits that read back as the status. */
  function StatusMessage(status: nat): (m: string)
    ensures |m| > |StatusMessagePrefix| && m[..|StatusMessagePrefix|] == StatusMessagePrefix
    ensures CanonicalIndex(m[|StatusMessagePrefix|..]) == Some(status)
  {
    CanonicalIndexOfNatToString(status);
    assert (StatusMessagePrefix + NatToString(status))[|StatusMessagePrefix|..] == NatToString(status);
    StatusMessagePrefix + NatToString(status)
  }

  /** `await response.json().catch(() => ({}))`: a parse failure becomes the
      empty object, so reading `message` throws only for a `null` body. */
  function ErrorBody(body: Body): (r: Json)
    ensures body.Unparsable? ==> r == JObj(map[])
    ensures Get(Defined(r), "message").Failure? <==> body == Parsed(JNull)
  {
    match body
    case Parsed(j) => j
    case Unparsable => JObj(map[])
  }

  /** The `message` an error body carries: only a JSON object has one. */
  function BodyMessage(body: Body): Value {
    if body.Parsed? && body.json.JObj? && "message" in body.json.fields
    then Defined(body.json.fields["message"])
    else Undefined
  }

  /** `error.message || ...` as written: reading `message` of a body that
      parsed to `null` throws a TypeError. */
  function ErrorArgumentAsWritten(status: nat, body: Body): (r: Result<Json, TypeError>)
    ensures r.Failure? <==> body == Parsed(JNull)
  {
    match Get(Defined(ErrorBody(body)), "message")
    case Failure(e) => Failure(e)
    case Success(m) => Success(if Truthy(m) then m.json else JStr(StatusMessage(status)))
  }

  /** The error argument with a `null` body read like the empty object:
      the body's message when truthy, otherwise the status message. */
  function ErrorArgument(status: nat, body: Body): (r: Json)
    ensures Truthy(BodyMessage(body)) ==> r == BodyMessage(body).json
    ensures !Truthy(BodyMessage(body)) ==> r == JStr(StatusMessage(status))
  {
    var error := if body == Parsed(JNull) then JObj(map[]) else ErrorBody(body);
    match Get(Defined(error), "message")
    case Success(m) => if Truthy(m) then m.json else JStr(StatusMessage(status))
    case Failure(_) => assert false; JNull
  }

  /** A body that parses to `null` makes the as-written code throw, where
      the status message was meant. */
  lemma NullErrorBodyThrows(status: nat)
    ensures ErrorArgumentAsWritten(status, Parsed(JNull)) == Failure(CannotReadProperty("message"))
    ensures ErrorArgument(status, Parsed(JNull)) == JStr(StatusMessage(status))
  {
  }

  /** On every other body the corrected and the as-written code agree. */
  lemma ErrorArgumentAgrees(status: nat, body: Body)
    requires body != Parsed(JNull)
    ensures ErrorArgumentAsWritten(status, body) == Success(ErrorArgument(status, body))
  {
  }

  /** Lines 38-45: the response turned into the resolved value or the
      rejection. */
  function CompleteFetch(exchange: Exchange): (r: Result<Json, ApiFailure>)
    ensures r.Success? <==> exchange.Response? && IsOk(exchange.status) && exchange.body.Parsed?
    ensures r.Success? ==> r.value == exchange.body.json
    ensures exchange.NetworkFailure? ==> r == Failure(Network(exchange.reason))
    ensures exchange.Response? && IsOk(exchange.status) && exchange.body.Unparsable? ==> r == Failure(MalformedBody)
    ensures exchange.Response? && !IsOk(exchange.status) ==>
              r == Failure(RequestFailed(ErrorArgument(exchange.status, exchange.body)))
  {
    match exchange
    case NetworkFailure(reason) => Failure(Network(reason))
    case Response(status, body) =>
      if !IsOk(status) then Failure(RequestFailed(ErrorArgument(status, body)))
      else match body
        case Parsed(j) => Success(j)
        case Unparsable => Failure(MalformedBody)
  }

  /** Worked cases: a success body is returned unchanged, a server message
      becomes the error, and an unparsable error body gives the status message. */
  lemma CompleteFetchExamples()
    ensures var ok := JObj(map["data" := JObj(map["id" := JNum(1)])]);
      CompleteFetch(Response(200, Parsed(ok))) == Success(ok)
    ensures CompleteFetch(Response(404, Parsed(JObj(map["message" := JStr("Not Found")])))) ==
              Failure(RequestFailed(JStr("Not Found")))
    ensures CompleteFetch(Response(500, Unparsable)) ==
              Failure(RequestFailed(JStr("API request failed with status 500")))
    ensures CompleteFetch(Response(204, Unparsable)) == Failure(MalformedBody)
  {
    assert DigitChar(5) == '5' && DigitChar(0) == '0';
    assert NatToString(5) == "5";
    assert NatToString(50) == "50";
    assert NatToString(500) == "500";
    assert StatusMessage(500) == "API request failed with status 500";
  }

  /** `fetchFromApi(endpoint, options)` against a network that answers
      each request with `network(request)`. */
  method FetchFromApi(endpoint: string, options: RequestOptions, reg: Option<Pkp.Registry>,
                      network: Request -> Exchange)
    returns (r: Result<Json, ApiFailure>)
    ensures r == CompleteFetch(network(RequestFor(endpoint, options, reg)))
  {
    var req := PrepareRequest(endpoint, options, reg);
    r := CompleteFetch(network(req));
  }

  // ---------------------------------------------------------------------
  // fetchSubmission and fetchCurrentUser

  /** `PKP.ID`: a number or a string. */
  datatype Id = NumId(n: int) | StrId(s: string)

  /** `${id}`. */
  function IdToString(id: Id): (r: string)
    ensures id.NumId? ==> r == IntToString(id.n) && (r[0] == '-' <==> id.n < 0)
    ensures id.StrId? ==> r == id.s
  {
    match id
    case NumId(n) => IntToString(n)
    case StrId(s) => s
  }

  const SubmissionsPath: string := "submissions/"
  const CurrentUserEndpoint: string := "users/me"

  /** `submissions/${submissionId}`: the fixed path, then the rendered id;
      it never starts with a slash. */
  function SubmissionEndpoint(id: Id): (e: string)
    ensures |e| >= |SubmissionsPath| && e[0] != '/'
    ensures e[..|SubmissionsPath|] == SubmissionsPath && e[|SubmissionsPath|..] == IdToString(id)
  {
    SubmissionsPath + IdToString(id)
  }

  /** `response.data` on a resolved response: a TypeError on `null`;
      a rejection passes through unchanged. */
  function DataOf(response: Result<Json, ApiFailure>): (r: Result<Value, ApiFailure>)
    ensures response.Failure? ==> r == Failure(response.error)
    ensures response == Success(JNull) ==> r == Failure(Thrown(CannotReadProperty("data")))
    ensures response.Success? && response.value.JObj? ==>
              r == Success(if "data" in response.value.fields then Defined(response.value.fields["data"]) else Undefined)
  {
    match response
    case Failure(e) => Failure(e)
    case Success(j) =>
      match Get(Defined(j), "data")
      case Success(v) => Success(v)
      case Failure(e) => Failure(Thrown(e))
  }

  /** `fetchSubmission(id)`. */
  method FetchSubmission(id: Id, reg: Option<Pkp.Registry>, network: Request -> Exchange)
    returns (r: Result<Value, ApiFailure>)
    ensures r == DataOf(CompleteFetch(network(RequestFor(SubmissionEndpoint(id), NoOptions, reg))))
  {
    var response := FetchFromApi(SubmissionEndpoint(id), NoOptions, reg, network);
    r := DataOf(response);
  }

  /** The try/catch of `fetchCurrentUser`: every rejection, including the
      TypeError of reading `data` from `null`, becomes `null`. */
  function CurrentUserOf(response: Result<Json, ApiFailure>): (user: Value)
    ensures DataOf(response).Failure? ==> user == Defined(JNull)
    ensures DataOf(response).Success? ==> user == DataOf(response).value
  {
    match DataOf(response)
    case Success(v) => v
    case Failure(_) => Defined(JNull)
  }

  /** `fetchCurrentUser()`: never rejects. */
  method FetchCurrentUser(reg: Option<Pkp.Registry>, network: Request -> Exchange)
    returns (user: Value)
    ensures user == CurrentUserOf(CompleteFetch(network(RequestFor(CurrentUserEndpoint, NoOptions, reg))))
  {
    var response := FetchFromApi(CurrentUserEndpoint, NoOptions, reg, network);
    user := CurrentUserOf(response);
  }

  /** `fetchCurrentUser` asks for `{base}/users/me`. */
  lemma CurrentUserUrl(reg: Option<Pkp.Registry>)
    ensures RequestFor(CurrentUserEndpoint, NoOptions, reg).url == BaseUrl(reg) + "/users/me"
  {
    assert Slashes(0) + CurrentUserEndpoint == CurrentUserEndpoint;
    UrlHasOneSlash(BaseUrl(reg), CurrentUserEndpoint, 0);
  }

  /** `fetchSubmission(id)` asks for `{base}/submissions/{id}`. */
  lemma SubmissionUrl(id: Id, reg: Option<Pkp.Registry>)
    ensures RequestFor(SubmissionEndpoint(id), NoOptions, reg).url == BaseUrl(reg) + "/" + SubmissionsPath + IdToString(id)
  {
    PathUrl(BaseUrl(reg), SubmissionsPath, IdToString(id));
  }

  lemma PathUrl(baseUrl: string, path: string, tail: string)
    requires path != [] && path[0] != '/'
    ensures BuildUrl(baseUrl, path + tail) == baseUrl + "/" + path + tail
  {
    assert (path + tail)[0] == path[0];
    assert Slashes(0) + (path + tail) == path + tail;
    UrlHasOneSlash(baseUrl, path + tail, 0);
  }
}
