/** The HTTP helper of the storefront: where requests go, what they carry,
    and how a reply becomes data or an error.

    The sending itself is not modelled. JSON is kept abstract: bodies are
    values of a type parameter `J`, and parsing a reply text is a function
    the caller supplies (`None` when the text is not JSON).
 */
module Api {
  import opened Wrappers
  import opened Text
  import opened JsValues

  const DefaultBase: String := "https://tapako-backend.vercel.app"
  const ApiSuffix: String := "/api"
  const JsonContentType: String := "application/json"

  /** `s.replace(/\/+$/, "")`: every trailing slash removed. */
  function StripTrailingSlashes(s: String): (r: String)
    ensures |r| <= |s| && r == s[..|r|]
    ensures |r| == 0 || r[|r| - 1] != '/'
    ensures forall i :: |r| <= i < |s| ==> s[i] == '/'
  {
    if |s| > 0 && s[|s| - 1] == '/' then StripTrailingSlashes(s[..|s| - 1]) else s
  }

  /** The configured base, or the hosted backend when it is unset or empty. */
  function RawBase(env: Option<String>): String {
    StrOr(env, DefaultBase)
  }

  /** `BASE`: the raw base without trailing slashes. */
  function Base(env: Option<String>): String {
    StripTrailingSlashes(RawBase(env))
  }

  /** Lines 2-3 of the helper: strip trailing slashes, then append `/api`
      unless the base already ends with it. */
  function Normalize(raw: String): String {
    var b := StripTrailingSlashes(raw);
    if EndsWith(b, ApiSuffix) then b else b + ApiSuffix
  }

  /** `API_BASE`. */
  function ApiBase(env: Option<String>): String {
    Normalize(RawBase(env))
  }

  /** A string without a trailing slash loses nothing to the stripping. */
  lemma StripWithoutSlash(s: String)
    requires |s| == 0 || s[|s| - 1] != '/'
    ensures StripTrailingSlashes(s) == s
  {
  }

  /** `API_BASE` ends with `/api`, which is appended only when `BASE` does
      not already end with it, and normalising it again changes nothing. */
  lemma ApiBaseSpec(env: Option<String>)
    ensures EndsWith(ApiBase(env), ApiSuffix)
    ensures EndsWith(Base(env), ApiSuffix) ==> ApiBase(env) == Base(env)
    ensures !EndsWith(Base(env), ApiSuffix) ==> ApiBase(env) == Base(env) + ApiSuffix
    ensures Normalize(ApiBase(env)) == ApiBase(env)
  {
    var a := ApiBase(env);
    assert a[|a| - 1] == 'i';
    StripWithoutSlash(a);
    assert (Base(env) + ApiSuffix)[|Base(env) + ApiSuffix| - |ApiSuffix|..] == ApiSuffix;
  }

  /** `joinURL(base, path)`. */
  function JoinURL(base: String, path: String): String {
    if path == "" then base
    else base + (if StartsWith(path, "/") then path else "/" + path)
  }

  /** An empty path leaves the base; any other path is joined with exactly
      one slash that the path itself may supply. */
  lemma JoinURLSpec(base: String, path: String)
    ensures path == "" ==> JoinURL(base, path) == base
    ensures path != "" && path[0] == '/' ==> JoinURL(base, path) == base + path
    ensures path != "" && path[0] != '/' ==> JoinURL(base, path) == base + "/" + path
    ensures path != "" ==> StartsWith(JoinURL(base, path), base + "/")
  {
    if path != "" {
      var r := JoinURL(base, path);
      assert r[..|base| + 1] == base + "/";
    }
  }

  /** The `init` object handed to `fetch`. */
  datatype Init<J> = Init(httpMethod: String, headers: map<String, String>, body: Option<J>)

  /** `request(path, { method, headers, body })` up to the `fetch` call: the
      URL, and the headers with the caller's entries laid over the JSON
      content type. */
  function Request<J>(env: Option<String>, path: String, httpMethod: String,
                      headers: map<String, String>, body: Option<J>): (String, Init<J>)
  {
    (JoinURL(ApiBase(env), path),
     Init(httpMethod, map["Content-Type" := JsonContentType] + headers, body))
  }

  /** The caller's headers win, the JSON content type is sent when the
      caller sets none, no other header is added, and a body goes out only
      when one is given. */
  lemma RequestSpec<J>(env: Option<String>, path: String, httpMethod: String,
                       headers: map<String, String>, body: Option<J>)
    ensures var (url, init) := Request(env, path, httpMethod, headers, body);
      && url == JoinURL(ApiBase(env), path)
      && init.httpMethod == httpMethod
      && init.headers.Keys == headers.Keys + {"Content-Type"}
      && (forall k :: k in headers ==> init.headers[k] == headers[k])
      && ("Content-Type" !in headers ==> init.headers["Content-Type"] == JsonContentType)
      && (init.body.Some? <==> body.Some?)
  {
  }

  /** The shorthands of the `api` object, with the options callers pass
      (headers only). */
  function Get<J>(env: Option<String>, path: String, headers: map<String, String>): (String, Init<J>) {
    Request(env, path, "GET", headers, None)
  }

  function Post<J>(env: Option<String>, path: String, body: J, headers: map<String, String>): (String, Init<J>) {
    Request(env, path, "POST", headers, Some(body))
  }

  function Put<J>(env: Option<String>, path: String, body: J, headers: map<String, String>): (String, Init<J>) {
    Request(env, path, "PUT", headers, Some(body))
  }

  function Patch<J>(env: Option<String>, path: String, body: J, headers: map<String, String>): (String, Init<J>) {
    Request(env, path, "PATCH", headers, Some(body))
  }

  function Delete<J>(env: Option<String>, path: String, headers: map<String, String>): (String, Init<J>) {
    Request(env, path, "DELETE", headers, None)
  }

  /** What `handleResponse` resolves to, or the error it throws. */
  datatype Outcome<J> =
    | Data(value: J)
    | EmptyObject
    | Raw(text: String)
    | ApiError(message: String, status: int, payload: Option<J>)

  predicate Ok(status: int) { 200 <= status <= 299 }

  const RequestFailed: String := "Request failed: "

  /** `handleResponse(res)` for a reply with the given status and body
      text; `errorOf` reads a JSON value's `error` field. A failed reply
      whose body is not JSON has the empty object as payload (`None`). */
  function HandleResponse<J>(status: int, text: String, parse: String -> Option<J>,
                             errorOf: J -> Option<String>): Outcome<J>
  {
    if Ok(status) then
      if text == "" then EmptyObject
      else
        var parsed := parse(text);
        if parsed.Some? then Data(parsed.value) else Raw(text)
    else
      var payload := parse(text);
      var msg := if payload.Some? && Truthy(errorOf(payload.value)) then errorOf(payload.value).value
                 else RequestFailed + IntToString(status);
      ApiError(msg, status, payload)
  }

  /** A successful reply never errors: an empty body is `{}`, JSON is
      returned parsed and anything else comes back as `{ raw: text }`. A
      failed one is an error carrying the status and the parsed body, whose
      message is the body's `error` or names the status. */
  lemma HandleResponseSpec<J>(status: int, text: String, parse: String -> Option<J>,
                              errorOf: J -> Option<String>)
    ensures var r := HandleResponse(status, text, parse, errorOf);
      && (r.ApiError? <==> !Ok(status))
      && (Ok(status) && text == "" ==> r == EmptyObject)
      && (Ok(status) && text != "" && parse(text).Some? ==> r == Data(parse(text).value))
      && (Ok(status) && text != "" && parse(text).None? ==> r == Raw(text))
      && (r.ApiError? ==> r.status == status && r.payload == parse(text) && r.message != "")
      && (r.ApiError? && parse(text).Some? && Truthy(errorOf(parse(text).value)) ==>
            r.message == errorOf(parse(text).value).value)
      && (r.ApiError? && (parse(text).None? || !Truthy(errorOf(parse(text).value))) ==>
            StartsWith(r.message, RequestFailed)
            && ParseInt(r.message[|RequestFailed|..]) == Some(status))
  {
    ParseIntOfIntToString(status, "");
    var m := RequestFailed + IntToString(status);
    assert m[|RequestFailed|..] == IntToString(status) + "";
  }
}
