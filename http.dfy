/**
 * The HTTP client wrapper: every request carries a normalised header map (names lowercased,
 * as header names are case-insensitive by section 5.1 of RFC 9110), an absolute URL and a
 * method; registered request interceptors rewrite the configuration and registered response
 * interceptors inspect the response, in registration order.
 */
module Http {
  import opened Wrappers
  import opened Text

  /** `Object.entries` of a plain header record: name/value pairs in insertion order. */
  type Entries = seq<(string, string)>

  /** A request body: none, a `FormData` object (identified by a number), or serialised text. */
  datatype Body = NoBody | FormBody(form: nat) | TextBody(text: string)

  /** `options.body instanceof FormData`. */
  predicate IsFormData(b: Body) {
    b.FormBody?
  }

  /** The `RequestInit` a caller passes: optional method, body, optional header record. */
  datatype Options = Options(verb: Option<string>, body: Body, headers: Option<Entries>)

  /** The configuration handed to the interceptors and to `fetch`. */
  datatype Config = Config(url: string, verb: string, body: Body, headers: Option<map<string, string>>)

  /**
   * A response as the interceptors see it: its status, its `content-type` header, and what
   * `response.json()` (the `message` member, or `None` when reading throws) and
   * `response.text()` (`None` when reading throws) would give.
   */
  datatype Response = Response(ok: bool, status: int, contentType: Option<string>,
                               json: Option<Option<string>>, text: Option<string>)

  type RequestInterceptor = Config -> Config
  type ResponseInterceptor = Response -> Result<Response>

  /** `getAuthToken()`. */
  function AuthToken(): string {
    "test_token"
  }

  // ------------------------------------------------------------------ header map

  /** The copy loop as a fold: each entry stored under its lowercased name, later entries overwriting. */
  function CopyEntries(h: map<string, string>, es: Entries): map<string, string>
    decreases |es|
  {
    if es == [] then h else CopyEntries(h[ToLower(es[0].0) := es[0].1], es[1..])
  }

  lemma {:induction false} CopyEntriesSnoc(h: map<string, string>, es: Entries, e: (string, string))
    ensures CopyEntries(h, es + [e]) == CopyEntries(h, es)[ToLower(e.0) := e.1]
    decreases |es|
  {
    if es == [] {
      assert [] + [e] == [e];
      assert [e][1..] == [];
    } else {
      assert (es + [e])[0] == es[0];
      assert (es + [e])[1..] == es[1..] + [e];
      CopyEntriesSnoc(h[ToLower(es[0].0) := es[0].1], es[1..], e);
    }
  }

  /** The value of the last entry whose name lowercases to `key`, if any. */
  function Supplied(es: Entries, key: string): (v: Option<string>)
    ensures v.Some? <==> exists k :: 0 <= k < |es| && ToLower(es[k].0) == key
    ensures v.Some? ==> exists k :: 0 <= k < |es| && es[k] == (es[k].0, v.value) && ToLower(es[k].0) == key
  {
    if es == [] then None
    else if ToLower(es[|es| - 1].0) == key then Some(es[|es| - 1].1)
    else
      var v := Supplied(es[..|es| - 1], key);
      assert forall k :: 0 <= k < |es| - 1 ==> es[..|es| - 1][k] == es[k];
      v
  }

  /** After the copy loop, a name is present exactly when it was before or some entry supplies it; the last supplier wins. */
  lemma {:induction false} CopyEntriesLookup(h: map<string, string>, es: Entries, key: string)
    ensures var h' := CopyEntries(h, es);
      && (key in h' <==> key in h || Supplied(es, key).Some?)
      && (Supplied(es, key).Some? ==> h'[key] == Supplied(es, key).value)
      && (Supplied(es, key).None? && key in h ==> h'[key] == h[key])
    decreases |es|
  {
    if es != [] {
      var init, last := es[..|es| - 1], es[|es| - 1];
      assert es == init + [last];
      CopyEntriesSnoc(h, init, last);
      CopyEntriesLookup(h, init, key);
    }
  }

  /** Per-call headers override default headers with the same lowercased name. */
  lemma {:induction false} SuppliedAppend(a: Entries, b: Entries, key: string)
    ensures Supplied(a + b, key) == if Supplied(b, key).Some? then Supplied(b, key) else Supplied(a, key)
    decreases |b|
  {
    if b == [] {
      assert a + b == a;
    } else {
      assert (a + b)[..|a + b| - 1] == a + b[..|b| - 1];
      assert (a + b)[|a + b| - 1] == b[|b| - 1];
      SuppliedAppend(a, b[..|b| - 1], key);
    }
  }

  /** `!!h[key]`: the name is present with a non-empty value. */
  predicate Truthy(h: map<string, string>, key: string) {
    key in h && h[key] != ""
  }

  /** The `authorization` default, then the `content-type` default for bodies that are not `FormData`. */
  function WithDefaults(h: map<string, string>, isFormData: bool): map<string, string> {
    var h1 := if !Truthy(h, "authorization") then h["authorization" := "Bearer " + AuthToken()] else h;
    if !isFormData && !Truthy(h1, "content-type") then h1["content-type" := "application/json"] else h1
  }

  /** The header map a request carries, as the copy loops and the defaults build it. */
  function HeaderMap(defaults: Entries, perCall: Option<Entries>, isFormData: bool): map<string, string> {
    WithDefaults(CopyEntries(CopyEntries(map["accept-charset" := "utf-8"], defaults), perCall.GetOr([])), isFormData)
  }

  /**
   * The header under `key`, stated from the supplied entries alone: `authorization` is always
   * present and defaults to the bearer token unless a non-empty value is supplied;
   * `content-type` likewise defaults to JSON, but only when the body is not `FormData`;
   * `accept-charset` is `utf-8` unless supplied; any other name is present exactly when supplied.
   */
  function ExpectedHeader(supplied: Entries, isFormData: bool, key: string): Option<string> {
    var s := Supplied(supplied, key);
    if key == "authorization" then
      Some(if s.Some? && s.value != "" then s.value else "Bearer " + AuthToken())
    else if key == "content-type" && !isFormData then
      Some(if s.Some? && s.value != "" then s.value else "application/json")
    else if key == "accept-charset" then
      Some(if s.Some? then s.value else "utf-8")
    else s
  }

  /** After both copy loops, a name is present when supplied or when it is `accept-charset`; the last supplier wins. */
  lemma CopiedHeaders(defaults: Entries, per: Entries, key: string)
    ensures var h, s := CopyEntries(CopyEntries(map["accept-charset" := "utf-8"], defaults), per),
                        Supplied(defaults + per, key);
      && (key in h <==> key == "accept-charset" || s.Some?)
      && (s.Some? ==> h[key] == s.value)
      && (s.None? && key == "accept-charset" ==> h[key] == "utf-8")
  {
    var h0 := map["accept-charset" := "utf-8"];
    CopyEntriesLookup(h0, defaults, key);
    CopyEntriesLookup(CopyEntries(h0, defaults), per, key);
    SuppliedAppend(defaults, per, key);
  }

  /** The defaults add `authorization` and, unless the body is `FormData`, `content-type`, each only when empty or missing. */
  lemma WithDefaultsLookup(h: map<string, string>, isFormData: bool, key: string)
    ensures var h' := WithDefaults(h, isFormData);
      && (key in h' <==> key in h || key == "authorization" || (key == "content-type" && !isFormData))
      && (key == "authorization" ==> h'[key] == if Truthy(h, key) then h[key] else "Bearer " + AuthToken())
      && (key == "content-type" && !isFormData ==> h'[key] == if Truthy(h, key) then h[key] else "application/json")
      && (key in h && key != "authorization" && (key != "content-type" || isFormData) ==> h'[key] == h[key])
  {
  }

  /** The header map carries exactly the expected headers, with the expected values. */
  lemma HeaderMapSpec(defaults: Entries, perCall: Option<Entries>, isFormData: bool, key: string)
    ensures var h, e := HeaderMap(defaults, perCall, isFormData),
                        ExpectedHeader(defaults + perCall.GetOr([]), isFormData, key);
      && (key in h <==> e.Some?)
      && (key in h ==> h[key] == e.value)
  {
    var per := perCall.GetOr([]);
    var copied := CopyEntries(CopyEntries(map["accept-charset" := "utf-8"], defaults), per);
    CopiedHeaders(defaults, per, key);
    WithDefaultsLookup(copied, isFormData, key);
  }

  /** A `FormData` body never receives a default `content-type`: it has one exactly when one is supplied. */
  lemma FormDataGetsNoDefaultContentType(defaults: Entries, perCall: Option<Entries>)
    ensures "content-type" in HeaderMap(defaults, perCall, true)
        <==> Supplied(defaults + perCall.GetOr([]), "content-type").Some?
  {
    HeaderMapSpec(defaults, perCall, true, "content-type");
  }

  // ------------------------------------------------------------------ interceptor chains

  /** Request interceptors applied in order, each to the previous one's output. */
  function RunRequestInterceptors(fs: seq<RequestInterceptor>, c: Config): Config
    decreases |fs|
  {
    if fs == [] then c else RunRequestInterceptors(fs[1..], fs[0](c))
  }

  /** The interceptor registered last receives the output of all earlier ones. */
  lemma {:induction false} RequestChainSnoc(fs: seq<RequestInterceptor>, f: RequestInterceptor, c: Config)
    ensures RunRequestInterceptors(fs + [f], c) == f(RunRequestInterceptors(fs, c))
    decreases |fs|
  {
    if fs == [] {
      assert [] + [f] == [f];
      assert [f][1..] == [];
    } else {
      assert (fs + [f])[0] == fs[0];
      assert (fs + [f])[1..] == fs[1..] + [f];
      RequestChainSnoc(fs[1..], f, fs[0](c));
    }
  }

  /** Response interceptors applied in order; the first one that throws ends the chain with its error. */
  function RunResponseInterceptors(fs: seq<ResponseInterceptor>, r: Response): Result<Response>
    decreases |fs|
  {
    if fs == [] then Success(r)
    else match fs[0](r)
      case Failure(m) => Failure(m)
      case Success(r') => RunResponseInterceptors(fs[1..], r')
  }

  /** The response interceptor registered last sees the output of the earlier ones, unless one threw. */
  lemma {:induction false} ResponseChainSnoc(fs: seq<ResponseInterceptor>, f: ResponseInterceptor, r: Response)
    ensures RunResponseInterceptors(fs + [f], r)
         == match RunResponseInterceptors(fs, r)
            case Failure(m) => Failure(m)
            case Success(r') => f(r')
    decreases |fs|
  {
    if fs == [] {
      assert [] + [f] == [f];
      assert [f][1..] == [];
    } else {
      assert (fs + [f])[0] == fs[0];
      assert (fs + [f])[1..] == fs[1..] + [f];
      match fs[0](r)
      case Failure(m) =>
      case Success(r') => ResponseChainSnoc(fs[1..], f, r');
    }
  }

  // ------------------------------------------------------------------ the client

  /** `options.verb || "GET"`. */
  function MethodOf(options: Options): string {
    if options.verb.Some? && options.verb.value != "" then options.verb.value else "GET"
  }

  /** The request wrapper with its base URL, default headers and interceptor lists. */
  class Request {
    const baseURL: string
    const defaultHeaders: Entries
    var requestInterceptors: seq<RequestInterceptor>
    var responseInterceptors: seq<ResponseInterceptor>

    constructor(baseURL: string, defaultHeaders: Entries)
      ensures this.baseURL == baseURL && this.defaultHeaders == defaultHeaders
      ensures requestInterceptors == [] && responseInterceptors == []
    {
      this.baseURL := baseURL;
      this.defaultHeaders := defaultHeaders;
      requestInterceptors := [];
      responseInterceptors := [];
    }

    /** `useRequest`: registers a request interceptor after the existing ones. */
    method UseRequest(f: RequestInterceptor)
      modifies this
      ensures requestInterceptors == old(requestInterceptors) + [f]
      ensures responseInterceptors == old(responseInterceptors)
    {
      requestInterceptors := requestInterceptors + [f];
    }

    /** `useResponse`: registers a response interceptor after the existing ones. */
    method UseResponse(f: ResponseInterceptor)
      modifies this
      ensures responseInterceptors == old(responseInterceptors) + [f]
      ensures requestInterceptors == old(requestInterceptors)
    {
      responseInterceptors := responseInterceptors + [f];
    }

    /** The configuration built for `url` and `options` before any interceptor runs. */
    function Prepared(url: string, options: Options): Config {
      Config(baseURL + url, MethodOf(options), options.body,
             Some(HeaderMap(defaultHeaders, options.headers, IsFormData(options.body))))
    }

    /** The header loops of `stream` (and of `_fetch`, which has the same code). */
    method BuildHeaders(options: Options) returns (headers: map<string, string>)
      ensures headers == HeaderMap(defaultHeaders, options.headers, IsFormData(options.body))
    {
      var start := map["accept-charset" := "utf-8"];
      headers := start;
      for i := 0 to |defaultHeaders|
        invariant headers == CopyEntries(start, defaultHeaders[..i])
      {
        var (key, value) := defaultHeaders[i];
        assert defaultHeaders[..i + 1] == defaultHeaders[..i] + [defaultHeaders[i]];
        CopyEntriesSnoc(start, defaultHeaders[..i], defaultHeaders[i]);
        headers := headers[ToLower(key) := value];
      }
      assert defaultHeaders[..|defaultHeaders|] == defaultHeaders;
      var copied := headers;
      if options.headers.Some? {
        var perCall := options.headers.value;
        for i := 0 to |perCall|
          invariant headers == CopyEntries(copied, perCall[..i])
        {
          var (key, value) := perCall[i];
          assert perCall[..i + 1] == perCall[..i] + [perCall[i]];
          CopyEntriesSnoc(copied, perCall[..i], perCall[i]);
          headers := headers[ToLower(key) := value];
        }
        assert perCall[..|perCall|] == perCall;
      }
      if !("authorization" in headers && headers["authorization"] != "") {
        headers := headers["authorization" := "Bearer " + AuthToken()];
      }
      if !IsFormData(options.body) && !("content-type" in headers && headers["content-type"] != "") {
        headers := headers["content-type" := "application/json"];
      }
    }

    /**
     * `stream(url, options)`: builds the configuration, runs the request interceptors in
     * registration order, calls `fetch` on the result and runs the response interceptors in
     * registration order, stopping at the first that throws.
     */
    method Stream(url: string, options: Options, fetch: Config -> Response) returns (result: Result<Response>)
      ensures result == RunResponseInterceptors(responseInterceptors,
                          fetch(RunRequestInterceptors(requestInterceptors, Prepared(url, options))))
    {
      var headers := BuildHeaders(options);
      var config := Config(baseURL + url, MethodOf(options), options.body, Some(headers));
      ghost var sent := RunRequestInterceptors(requestInterceptors, config);
      for i := 0 to |requestInterceptors|
        invariant RunRequestInterceptors(requestInterceptors[i..], config) == sent
      {
        assert requestInterceptors[i..][1..] == requestInterceptors[i + 1..];
        config := requestInterceptors[i](config);
      }
      assert requestInterceptors[|requestInterceptors|..] == [];
      var response := fetch(config);
      ghost var goal := RunResponseInterceptors(responseInterceptors, response);
      for i := 0 to |responseInterceptors|
        invariant RunResponseInterceptors(responseInterceptors[i..], response) == goal
      {
        assert responseInterceptors[i..][1..] == responseInterceptors[i + 1..];
        var next := responseInterceptors[i](response);
        if next.Failure? {
          return Failure(next.error);
        }
        response := next.value;
      }
      assert responseInterceptors[|responseInterceptors|..] == [];
      result := Success(response);
    }
  }

  // ------------------------------------------------------------------ the registered interceptors

  /**
   * The registered request interceptor: gives the configuration a header map if it has none and
   * adds `Authorization` unless `Authorization` or `authorization` already has a non-empty value.
   */
  function AuthInterceptor(c: Config): (c': Config)
    ensures c'.url == c.url && c'.verb == c.verb && c'.body == c.body && c'.headers.Some?
    ensures Truthy(c'.headers.value, "Authorization") || Truthy(c'.headers.value, "authorization")
    ensures c.headers.Some? && (Truthy(c.headers.value, "Authorization") || Truthy(c.headers.value, "authorization"))
            ==> c' == c
  {
    var h := if c.headers.Some? then c.headers.value else map[];
    if !Truthy(h, "Authorization") && !Truthy(h, "authorization") then
      c.(headers := Some(h["Authorization" := "Bearer " + AuthToken()]))
    else c.(headers := Some(h))
  }

  /** After the header defaults, the registered request interceptor changes nothing. */
  lemma AuthInterceptorKeepsPrepared(r: Request, url: string, options: Options)
    ensures AuthInterceptor(r.Prepared(url, options)) == r.Prepared(url, options)
  {
    HeaderMapSpec(r.defaultHeaders, options.headers, IsFormData(options.body), "authorization");
  }

  /** `"请求失败"`, the message used when the response gives none. */
  const RequestFailed: string := "请求失败"

  /** The response is declared JSON: its `content-type` includes `application/json`. */
  predicate IsJson(resp: Response) {
    resp.contentType.Some? && Contains(resp.contentType.value, "application/json")
  }

  /**
   * The message the registered response interceptor throws for a failed response: the JSON
   * body's `message` for a JSON response, the text body otherwise, and the fallback when that
   * is empty, missing or cannot be read.
   */
  function ErrorMessage(resp: Response): (m: string)
    ensures m != ""
    ensures IsJson(resp) && resp.json.Some? && resp.json.value.Some? && resp.json.value.value != ""
            ==> m == resp.json.value.value
    ensures !IsJson(resp) && resp.text.Some? && resp.text.value != "" ==> m == resp.text.value
    ensures m != RequestFailed ==>
      if IsJson(resp) then resp.json == Some(Some(m)) else resp.text == Some(m)
  {
    var message :=
      if IsJson(resp) then
        (match resp.json
         case Some(Some(msg)) => msg
         case _ => "")
      else
        (match resp.text
         case Some(t) => if t != "" then t else RequestFailed
         case None => RequestFailed);
    if message != "" then message else RequestFailed
  }

  /** The registered response interceptor: an OK response passes unchanged; any other throws its message. */
  function ErrorInterceptor(resp: Response): (r: Result<Response>)
    ensures resp.ok <==> r.Success?
    ensures r.Success? ==> r.value == resp
    ensures r.Failure? ==> r.error == ErrorMessage(resp)
  {
    if !resp.ok then Failure(ErrorMessage(resp)) else Success(resp)
  }

  /** The exported client: the given base URL, no default headers, the two registered interceptors. */
  method DefaultRequest(baseURL: string) returns (r: Request)
    ensures fresh(r) && r.baseURL == baseURL && r.defaultHeaders == []
    ensures r.requestInterceptors == [AuthInterceptor] && r.responseInterceptors == [ErrorInterceptor]
  {
    r := new Request(baseURL, []);
    r.UseRequest(AuthInterceptor);
    r.UseResponse(ErrorInterceptor);
  }

  /**
   * Through the exported client, `fetch` receives exactly the prepared configuration, and the
   * caller receives the response when it is OK and its error message otherwise.
   */
  lemma DefaultRequestOutcome(r: Request, url: string, options: Options, fetch: Config -> Response)
    requires r.requestInterceptors == [AuthInterceptor] && r.responseInterceptors == [ErrorInterceptor]
    ensures var resp := fetch(r.Prepared(url, options));
      RunResponseInterceptors(r.responseInterceptors, fetch(RunRequestInterceptors(r.requestInterceptors, r.Prepared(url, options))))
        == (if resp.ok then Success(resp) else Failure(ErrorMessage(resp)))
  {
    AuthInterceptorKeepsPrepared(r, url, options);
    var c := r.Prepared(url, options);
    assert RunRequestInterceptors([AuthInterceptor], c) == RunRequestInterceptors([], AuthInterceptor(c));
    var resp := fetch(c);
    assert RunResponseInterceptors([ErrorInterceptor], resp) == match ErrorInterceptor(resp)
      case Failure(m) => Failure(m)
      case Success(r') => RunResponseInterceptors([], r');
  }

  // ------------------------------------------------------------------ post / put bodies

  /** The `data` argument of `post`/`put`: a `FormData` object, or a value with its truthiness and `JSON.stringify` text. */
  datatype Payload = FormDataPayload(form: nat) | ValuePayload(truthy: bool, serialized: string)

  /**
   * The body `post` and `put` send: a `FormData` object unchanged, a truthy value as its
   * serialised text, no body for a falsy or absent value.
   */
  function PayloadBody(data: Option<Payload>): (b: Body)
    ensures data.Some? && data.value.FormDataPayload? ==> b == FormBody(data.value.form)
    ensures b == NoBody <==> data.None? || (data.value.ValuePayload? && !data.value.truthy)
    ensures b.TextBody? <==> data.Some? && data.value.ValuePayload? && data.value.truthy
    ensures b.TextBody? ==> b.text == data.value.serialized
  {
    match data
    case None => NoBody
    case Some(FormDataPayload(f)) => FormBody(f)
    case Some(ValuePayload(truthy, text)) => if truthy then TextBody(text) else NoBody
  }

  /** The options `post(url, data, headers)` passes on. */
  function PostOptions(data: Option<Payload>, headers: Option<Entries>): Options {
    Options(Some("POST"), PayloadBody(data), headers)
  }

  /** The options `put(url, data, headers)` passes on. */
  function PutOptions(data: Option<Payload>, headers: Option<Entries>): Options {
    Options(Some("PUT"), PayloadBody(data), headers)
  }

  /**
   * Posting or putting `FormData` sends it unchanged with the caller's method, and its headers
   * carry a `content-type` only when the caller supplies one.
   */
  lemma FormDataUpload(r: Request, url: string, form: nat, headers: Option<Entries>, put: bool)
    ensures var options := if put then PutOptions(Some(FormDataPayload(form)), headers)
                           else PostOptions(Some(FormDataPayload(form)), headers);
      var c := r.Prepared(url, options);
      && c.body == FormBody(form)
      && c.verb == (if put then "PUT" else "POST")
      && ("content-type" in c.headers.value <==> Supplied(r.defaultHeaders + headers.GetOr([]), "content-type").Some?)
  {
    FormDataGetsNoDefaultContentType(r.defaultHeaders, headers);
  }
}
