/**
 * `BaseInteractor`: the client of the upstream JSON API.
 *
 * The network is not modelled: a request is built as a value, and what
 * the transport reports back (`Outcome`) is mapped to the uniform result
 * envelope `{status_code, detail, data}`.
 */
module BaseInteractor {
  import opened Wrappers
  import opened Settings

  /** A parsed JSON document (numbers are integers here). */
  datatype Json =
    | JNull
    | JBool(b: bool)
    | JNum(n: int)
    | JStr(s: string)
    | JArr(items: seq<Json>)
    | JObj(fields: map<string, Json>)

  /** The result envelope; a `data` of `None` is `JNull`. */
  datatype Envelope = Envelope(statusCode: int, detail: string, data: Json)

  /** The keys of the dictionary an envelope is. */
  const EnvelopeKeys: set<string> := {"status_code", "detail", "data"}

  /** `envelope[key]`. */
  function Lookup(e: Envelope, key: string): (r: Result<Json>)
    ensures r.Success? <==> key in EnvelopeKeys
    ensures r.Failure? ==> r.error == KeyError(key)
    ensures key == "data" ==> r == Success(e.data)
    ensures key == "status_code" ==> r == Success(JNum(e.statusCode))
    ensures key == "detail" ==> r == Success(JStr(e.detail))
  {
    if key == "status_code" then Success(JNum(e.statusCode))
    else if key == "detail" then Success(JStr(e.detail))
    else if key == "data" then Success(e.data)
    else Failure(KeyError(key))
  }

  /** `value[key]` on parsed JSON: only an object can be indexed by a string. */
  function Index(j: Json, key: string): (r: Result<Json>)
    ensures r.Success? <==> j.JObj? && key in j.fields
    ensures r.Success? ==> r.value == j.fields[key]
    ensures j.JObj? && key !in j.fields ==> r == Failure(KeyError(key))
    ensures !j.JObj? ==> r == Failure(TypeError)
  {
    match j
    case JObj(fields) => if key in fields then Success(fields[key]) else Failure(KeyError(key))
    case _ => Failure(TypeError)
  }

  // ---------------------------------------------------------------- headers

  type Header = (string, string)

  /** Python truthiness of an optional string: neither `None` nor empty. */
  predicate Truthy(s: Option<string>) {
    s.Some? && s.value != ""
  }

  /** The header every request carries. */
  const ContentTypeHeader: Header := ("Content-Type", "application/json")

  /** `_get_auth_header`: a header only for a truthy token. */
  function AuthHeader(auth: Option<string>): (h: Option<Header>)
    ensures h.Some? <==> Truthy(auth)
    ensures h.Some? ==> h.value == ("Authorization", "Bearer: " + auth.value)
  {
    if Truthy(auth) then Some(("Authorization", "Bearer: " + auth.value)) else None
  }

  /** `_get_custom_header`: a header only for a truthy key. */
  function CustomHeader(custom: Option<string>): (h: Option<Header>)
    ensures h.Some? <==> Truthy(custom)
    ensures h.Some? ==> h.value == ("X-Custom-Key", custom.value)
  {
    if Truthy(custom) then Some(("X-Custom-Key", custom.value)) else None
  }

  /** The index of the last present header in `hs` with this name. */
  predicate LastNamed(hs: seq<Option<Header>>, i: nat) {
    i < |hs| && hs[i].Some? &&
    forall j :: i < j < |hs| && hs[j].Some? ==> hs[j].value.0 != hs[i].value.0
  }

  /**
   * `dict(h for h in headers if h)`: the present headers, by name; the
   * last header with a name decides its value.
   */
  function HeaderDict(hs: seq<Option<Header>>): (m: map<string, string>)
    ensures forall name :: name in m <==> exists i :: 0 <= i < |hs| && hs[i].Some? && hs[i].value.0 == name
    ensures forall i :: 0 <= i < |hs| && LastNamed(hs, i) ==> m[hs[i].value.0] == hs[i].value.1
    decreases |hs|
  {
    if hs == [] then map[]
    else
      var rest := HeaderDict(hs[1..]);
      HeaderDictCons(hs, rest);
      match hs[0]
      case None => rest
      case Some(h) => map[h.0 := h.1] + rest
  }

  /** The step of `HeaderDict`: a header in front is overridden by any later one of the same name. */
  lemma {:induction false} HeaderDictCons(hs: seq<Option<Header>>, rest: map<string, string>)
    requires hs != []
    requires forall name :: name in rest <==> exists i :: 1 <= i < |hs| && hs[i].Some? && hs[i].value.0 == name
    requires forall i :: 1 <= i < |hs| && LastNamed(hs, i) ==> hs[i].value.0 in rest && rest[hs[i].value.0] == hs[i].value.1
    ensures var m := if hs[0].Some? then map[hs[0].value.0 := hs[0].value.1] + rest else rest;
      && (forall name :: name in m <==> exists i :: 0 <= i < |hs| && hs[i].Some? && hs[i].value.0 == name)
      && (forall i :: 0 <= i < |hs| && LastNamed(hs, i) ==> m[hs[i].value.0] == hs[i].value.1)
  {
  }

  /** The header set of `_send_request`. */
  function Headers(auth: Option<string>, custom: Option<string>): (m: map<string, string>)
    ensures m.Keys <= {"Content-Type", "Authorization", "X-Custom-Key"}
    ensures "Content-Type" in m && m["Content-Type"] == "application/json"
    ensures "Authorization" in m <==> Truthy(auth)
    ensures Truthy(auth) ==> m["Authorization"] == "Bearer: " + auth.value
    ensures "X-Custom-Key" in m <==> Truthy(custom)
    ensures Truthy(custom) ==> m["X-Custom-Key"] == custom.value
  {
    var hs := [Some(ContentTypeHeader), AuthHeader(auth), CustomHeader(custom)];
    var m := HeaderDict(hs);
    assert LastNamed(hs, 0);
    assert Truthy(auth) ==> LastNamed(hs, 1);
    assert Truthy(custom) ==> LastNamed(hs, 2);
    m
  }

  // ---------------------------------------------------------------- requests

  /** A keyword argument of `get`/`post`: a string, or a dictionary of query parameters. */
  datatype Arg = Str(s: string) | Query(q: map<string, string>)

  type Kwargs = map<string, Arg>

  /** `kwargs.pop(key, None)` for a string-valued argument. */
  function PopText(kwargs: Kwargs, key: string): (r: Option<string>)
    ensures r.Some? <==> key in kwargs && kwargs[key].Str?
    ensures r.Some? ==> r.value == kwargs[key].s
  {
    if key in kwargs && kwargs[key].Str? then Some(kwargs[key].s) else None
  }

  /** `auth` and `custom_key` are strings, as their annotations say. */
  predicate HeaderArgsAreText(kwargs: Kwargs) {
    && ("auth" in kwargs ==> kwargs["auth"].Str?)
    && ("custom_key" in kwargs ==> kwargs["custom_key"].Str?)
  }

  /** What is handed to the HTTP client. */
  datatype Request = Request(verb: string, baseUrl: string, path: string, headers: map<string, string>, kwargs: Kwargs)

  /** The first half of `_send_request`: headers from `auth`/`custom_key`, the rest forwarded. */
  function BuildRequest(verb: string, path: string, kwargs: Kwargs): (q: Request)
    requires HeaderArgsAreText(kwargs)
    ensures q.verb == verb && q.baseUrl == BaseUrl && q.path == path
    ensures q.kwargs == kwargs - {"auth", "custom_key"}
    ensures q.headers.Keys <= {"Content-Type", "Authorization", "X-Custom-Key"}
    ensures "Content-Type" in q.headers && q.headers["Content-Type"] == "application/json"
    ensures "Authorization" in q.headers <==> "auth" in kwargs && kwargs["auth"].s != ""
    ensures "Authorization" in q.headers ==> q.headers["Authorization"] == "Bearer: " + kwargs["auth"].s
    ensures "X-Custom-Key" in q.headers <==> "custom_key" in kwargs && kwargs["custom_key"].s != ""
    ensures "X-Custom-Key" in q.headers ==> q.headers["X-Custom-Key"] == kwargs["custom_key"].s
  {
    var headers := Headers(PopText(kwargs, "auth"), PopText(kwargs, "custom_key"));
    Request(verb, BaseUrl, path, headers, kwargs - {"auth", "custom_key"})
  }

  // ---------------------------------------------------------------- responses

  /** `_create_response`: `detail` is the message, else the table's text for the code, else the fallback. */
  function CreateResponse(code: int, message: Option<string>, data: Json): (e: Envelope)
    ensures e.statusCode == code && e.data == data
    ensures Truthy(message) ==> e.detail == message.value
    ensures !Truthy(message) && code in ResponseMessages ==> e.detail == ResponseMessages[code]
    ensures !Truthy(message) && code !in ResponseMessages ==> e.detail == FallbackMessage
    ensures e.detail != ""
  {
    var detail :=
      if Truthy(message) then message.value
      else if code in ResponseMessages then ResponseMessages[code]
      else FallbackMessage;
    Envelope(code, detail, data)
  }

  /** What the transport reports about one exchange. */
  datatype Outcome =
    | StatusError(code: int, message: string) // `raise_for_status` raised; `message` is `str(e)`
    | NotJson(code: int, cause: string)       // a success status, but `response.json()` raised
    | Parsed(code: int, body: Json)           // a success status and a JSON body

  /** The second half of `_send_request`: the envelope for what the transport reported. */
  function ResponseEnvelope(o: Outcome): (e: Envelope)
    ensures o.StatusError? ==>
      && e.statusCode == o.code && e.data == JNull
      && e.detail == (if o.message != "" then o.message
                      else if o.code in ResponseMessages then ResponseMessages[o.code] else FallbackMessage)
    ensures o.NotJson? ==> e == Envelope(500, "Response is not JSON convertible: " + o.cause, JNull)
    ensures o.Parsed? ==> e == Envelope(200, "Ok", o.body)
    ensures e.statusCode == 200 ==> o.Parsed? || (o.StatusError? && o.code == 200)
  {
    match o
    case StatusError(code, message) => CreateResponse(code, Some(message), JNull)
    case NotJson(_, cause) => CreateResponse(500, Some("Response is not JSON convertible: " + cause), JNull)
    case Parsed(_, body) => CreateResponse(200, None, body)
  }

  /** One request and the envelope the caller receives. */
  datatype Exchange = Exchange(request: Request, envelope: Envelope)

  /** `_send_request`, with the transport as a parameter. */
  function SendRequest(verb: string, path: string, kwargs: Kwargs, transport: Request -> Outcome): (x: Exchange)
    requires HeaderArgsAreText(kwargs)
    ensures x.request.verb == verb && x.request.baseUrl == BaseUrl && x.request.path == path
    ensures x.request.kwargs == kwargs - {"auth", "custom_key"}
    ensures x.request.headers.Keys <= {"Content-Type", "Authorization", "X-Custom-Key"}
    ensures "Content-Type" in x.request.headers && x.request.headers["Content-Type"] == "application/json"
    ensures "Authorization" in x.request.headers <==> "auth" in kwargs && kwargs["auth"].s != ""
    ensures "Authorization" in x.request.headers ==> x.request.headers["Authorization"] == "Bearer: " + kwargs["auth"].s
    ensures "X-Custom-Key" in x.request.headers <==> "custom_key" in kwargs && kwargs["custom_key"].s != ""
    ensures "X-Custom-Key" in x.request.headers ==> x.request.headers["X-Custom-Key"] == kwargs["custom_key"].s
    ensures var o := transport(x.request);
      && (o.StatusError? ==>
            (&& x.envelope.statusCode == o.code && x.envelope.data == JNull
             && x.envelope.detail == (if o.message != "" then o.message
                                      else if o.code in ResponseMessages then ResponseMessages[o.code]
                                      else FallbackMessage)))
      && (o.NotJson? ==> x.envelope == Envelope(500, "Response is not JSON convertible: " + o.cause, JNull))
      && (o.Parsed? ==> x.envelope == Envelope(200, "Ok", o.body))
  {
    var request := BuildRequest(verb, path, kwargs);
    Exchange(request, ResponseEnvelope(transport(request)))
  }

  /** `BaseInteractor.get`. */
  function Get(path: string, kwargs: Kwargs, transport: Request -> Outcome): (x: Exchange)
    requires HeaderArgsAreText(kwargs)
    ensures x.request.verb == "GET" && x.request.path == path
    ensures x == SendRequest("GET", path, kwargs, transport)
  {
    SendRequest("GET", path, kwargs, transport)
  }

  /** `BaseInteractor.post`. */
  function Post(path: string, kwargs: Kwargs, transport: Request -> Outcome): (x: Exchange)
    requires HeaderArgsAreText(kwargs)
    ensures x.request.verb == "POST" && x.request.path == path
    ensures x == SendRequest("POST", path, kwargs, transport)
  {
    SendRequest("POST", path, kwargs, transport)
  }
}
