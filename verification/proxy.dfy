/**
 * The API proxy of src/server/proxy.ts (`apiCall`): the target URL with its
 * query string, the request headers and body, and the `{ok, status, data,
 * error}` envelope built from the response. The session lookup, `fetch`,
 * `URLSearchParams` encoding, `JSON.stringify` and `String(value)` are
 * inputs: the session token is a parameter, the response is an abstract
 * outcome, and the three conversions are function parameters.
 */
module Proxy {
  import opened Wrappers
  import opened Strings
  import opened Json
  import ErrorUtils

  const ApiBaseUrl := "https://service.viazuri.com"

  /** A query parameter: `None` is `undefined`. */
  type Param = (string, Option<Json>)

  /** The request `apiCall` is given. */
  datatype ApiRequest = ApiRequest(url: string, httpMethod: string, body: Option<Json>, params: Option<seq<Param>>)

  /** A parameter is sent when its value is neither `undefined` nor `null`. */
  predicate Sent(p: Param) {
    p.1.Some? && p.1.value != JNull
  }

  /** What one parameter contributes to `searchParams`: its key and `String(value)` when it is sent, else nothing. */
  function Pair(p: Param, str: Json -> string): (r: seq<(string, string)>)
    ensures |r| <= 1
  {
    if Sent(p) then [(p.0, str(p.1.value))] else []
  }

  /** The pairs appended to `searchParams`: each sent parameter with `String(value)`, in entry order. */
  function KeptParams(params: seq<Param>, str: Json -> string): (r: seq<(string, string)>)
    ensures |r| <= |params|
    decreases |params|
  {
    if params == [] then [] else Pair(params[0], str) + KeptParams(params[1..], str)
  }

  /** `url.includes('?') ? '&' : '?'`. */
  function Separator(url: string): string {
    if '?' in url then "&" else "?"
  }

  /** The URL `fetch` is called with. */
  function TargetUrl(request: ApiRequest, str: Json -> string, encode: seq<(string, string)> -> string): string {
    var url := ApiBaseUrl + request.url;
    if request.params.Some? then url + Separator(url) + encode(KeptParams(request.params.value, str))
    else url
  }

  /** The URL step of `apiCall`: `let url`, then the separator and the encoded query when there are parameters. */
  method BuildUrl(request: ApiRequest, str: Json -> string, encode: seq<(string, string)> -> string)
    returns (url: string)
    ensures url == TargetUrl(request, str, encode)
  {
    url := ApiBaseUrl + request.url;
    if request.params.Some? {
      var searchParams := SearchParams(request.params.value, str);
      var separator := if '?' in url then "&" else "?";
      url := url + separator + encode(searchParams);
    }
  }

  /** The `forEach` filling `searchParams`: one `append` per parameter that is neither `undefined` nor `null`. */
  method SearchParams(params: seq<Param>, str: Json -> string) returns (searchParams: seq<(string, string)>)
    ensures searchParams == KeptParams(params, str)
  {
    searchParams := [];
    var i := 0;
    while i < |params|
      invariant 0 <= i <= |params|
      invariant searchParams == KeptParams(params[..i], str)
    {
      KeptPrefix(params, i, str);
      if params[i].1.Some? && params[i].1.value != JNull {
        searchParams := searchParams + [(params[i].0, str(params[i].1.value))];
      } else {
        assert Pair(params[i], str) == [];
      }
      i := i + 1;
    }
    assert params[..i] == params;
  }

  /** The parameters kept from the first `i + 1` entries: those kept from the first `i`, then entry `i`'s pair. */
  lemma KeptPrefix(params: seq<Param>, i: nat, str: Json -> string)
    requires i < |params|
    ensures KeptParams(params[..i + 1], str) == KeptParams(params[..i], str) + Pair(params[i], str)
  {
    assert params[..i + 1] == params[..i] + [params[i]];
    KeptParamsAppend(params[..i], [params[i]], str);
    assert KeptParams([params[i]], str) == Pair(params[i], str) + KeptParams([], str);
  }

  /** A header: name and value. */
  type Header = (string, string)

  /** A session token in a JavaScript condition: present and not empty. */
  predicate HasToken(token: Option<string>) {
    token.Some? && token.value != ""
  }

  /** The headers: always the JSON content type, then the bearer credential when there is a token. */
  function Headers(token: Option<string>): (r: seq<Header>)
    ensures |r| == (if HasToken(token) then 2 else 1)
    ensures r[0] == ("Content-Type", "application/json")
    ensures HasToken(token) ==> r[1] == ("Authorization", "Bearer " + token.value)
  {
    [("Content-Type", "application/json")]
      + (if HasToken(token) then [("Authorization", "Bearer " + token.value)] else [])
  }

  /** The request body: the serialised payload when it is truthy, else none. */
  function Body(body: Option<Json>, stringify: Json -> string): (r: Option<string>)
    ensures r.Some? <==> TruthyOpt(body)
    ensures r.Some? ==> r.value == stringify(body.value)
  {
    if TruthyOpt(body) then Some(stringify(body.value)) else None
  }

  /**
   * What happens to the request: the session lookup or `fetch` throws, or a
   * response arrives with its status, content type, raw text and the JSON
   * parse of that text (`None` when it does not parse).
   */
  datatype Outcome =
    | Threw
    | Responded(ok: bool, status: int, contentType: Option<string>, text: string, parsed: Option<Json>)

  /** What `apiCall` returns; `error` is absent on success. */
  datatype Envelope = Envelope(ok: bool, status: int, error: Option<string>, data: Json)

  const NetworkError := "Network error. Please check your connection and try again."

  const NetworkFailure := Envelope(false, 0, Some(NetworkError), JNull)

  /** The response is read as JSON when its content type mentions `application/json`. */
  predicate IsJson(contentType: Option<string>) {
    contentType.Some? && Contains(contentType.value, "application/json")
  }

  /** The envelope for an outcome; `stringify` and `render` are the conversions `parseErrorFromResponse` uses. */
  function Respond(outcome: Outcome, stringify: Json -> string, render: Json -> string): (r: Envelope)
    ensures outcome.Threw? ==> r == NetworkFailure
    ensures r.ok <==> r.error.None?
    ensures r.ok ==> outcome.Responded? && outcome.ok && r.status == outcome.status
    ensures outcome.Responded? && !outcome.ok ==>
      r == Envelope(false, outcome.status,
                    Some(ErrorUtils.ParseErrorFromResponse(outcome.status, outcome.parsed, stringify, render)), JNull)
    ensures outcome.Responded? && outcome.ok && IsJson(outcome.contentType) ==>
      (if outcome.parsed.Some? then r.ok && r.data == outcome.parsed.value else r == NetworkFailure)
    ensures outcome.Responded? && outcome.ok && !IsJson(outcome.contentType) ==>
      r.ok && r.data == JObj([("message", JStr(outcome.text))])
  {
    match outcome
    case Threw => NetworkFailure
    case Responded(ok, status, contentType, text, parsed) =>
      if !ok then
        Envelope(false, status, Some(ErrorUtils.ParseErrorFromResponse(status, parsed, stringify, render)), JNull)
      else if IsJson(contentType) then
        if parsed.Some? then Envelope(true, status, None, parsed.value)
        else NetworkFailure
      else Envelope(true, status, None, JObj([("message", JStr(text))]))
  }

  // ----- Properties -----

  /** The separator depends only on the request path: the base URL has no `?`. */
  lemma SeparatorOfPath(path: string)
    ensures Separator(ApiBaseUrl + path) == (if '?' in path then "&" else "?")
  {
    assert forall i :: 0 <= i < |ApiBaseUrl| ==> ApiBaseUrl[i] != '?';
    if '?' in ApiBaseUrl + path {
      var i :| 0 <= i < |ApiBaseUrl + path| && (ApiBaseUrl + path)[i] == '?';
      assert i >= |ApiBaseUrl|;
      assert path[i - |ApiBaseUrl|] == '?';
    }
    if '?' in path {
      var i :| 0 <= i < |path| && path[i] == '?';
      assert (ApiBaseUrl + path)[|ApiBaseUrl| + i] == '?';
    }
  }

  /** Filtering works entry by entry: the parameters of a concatenation are the parameters of each part, in order. */
  lemma {:induction false} KeptParamsAppend(a: seq<Param>, b: seq<Param>, str: Json -> string)
    ensures KeptParams(a + b, str) == KeptParams(a, str) + KeptParams(b, str)
    decreases |a|
  {
    if a == [] {
      assert a + b == b;
    } else {
      var ab := a + b;
      assert ab[0] == a[0];
      assert ab[1..] == a[1..] + b;
      KeptParamsAppend(a[1..], b, str);
      assert KeptParams(ab, str) == Pair(a[0], str) + KeptParams(a[1..] + b, str);
    }
  }

  /** A pair is sent exactly when some entry with that key holds a value other than `undefined` and `null` that converts to it. */
  lemma {:induction false} KeptParamsMembers(params: seq<Param>, str: Json -> string, key: string, value: string)
    ensures (key, value) in KeptParams(params, str) <==>
      exists i :: 0 <= i < |params| && params[i].0 == key && Sent(params[i]) && str(params[i].1.value) == value
    decreases |params|
  {
    if params != [] {
      KeptParamsMembers(params[1..], str, key, value);
      if exists i :: 0 <= i < |params[1..]| && params[1..][i].0 == key && Sent(params[1..][i]) && str(params[1..][i].1.value) == value {
        var i :| 0 <= i < |params[1..]| && params[1..][i].0 == key && Sent(params[1..][i]) && str(params[1..][i].1.value) == value;
        assert params[i + 1] == params[1..][i];
      }
      if exists i :: 0 <= i < |params| && params[i].0 == key && Sent(params[i]) && str(params[i].1.value) == value {
        var i :| 0 <= i < |params| && params[i].0 == key && Sent(params[i]) && str(params[i].1.value) == value;
        if i > 0 {
          assert params[1..][i - 1] == params[i];
        }
      }
    }
  }

  /** Parameters that are all `undefined` or `null` still leave the separator, followed by the encoding of nothing. */
  lemma EmptyQueryKeepsSeparator(request: ApiRequest, str: Json -> string, encode: seq<(string, string)> -> string)
    requires request.params.Some? && forall i :: 0 <= i < |request.params.value| ==> !Sent(request.params.value[i])
    ensures TargetUrl(request, str, encode) == ApiBaseUrl + request.url + Separator(ApiBaseUrl + request.url) + encode([])
  {
    NothingKept(request.params.value, str);
  }

  lemma {:induction false} NothingKept(params: seq<Param>, str: Json -> string)
    requires forall i :: 0 <= i < |params| ==> !Sent(params[i])
    ensures KeptParams(params, str) == []
    decreases |params|
  {
    if params != [] {
      NothingKept(params[1..], str);
    }
  }

  /** Exactly the requests with a token carry an `Authorization` header, in the `Bearer` form of section 2.1 of RFC 6750. */
  lemma BearerOnlyWithToken(token: Option<string>)
    ensures (exists i :: 0 <= i < |Headers(token)| && Headers(token)[i].0 == "Authorization") <==> HasToken(token)
  {
    var h := Headers(token);
    assert "Content-Type" != "Authorization" by {
      assert "Content-Type"[0] == 'C' && "Authorization"[0] == 'A';
    }
    if HasToken(token) {
      assert h[1].0 == "Authorization";
    }
  }
}
