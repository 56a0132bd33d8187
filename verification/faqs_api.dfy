/**
 * The FAQ handlers of src/server/faqs.ts, as the requests they hand to
 * `apiCall`.
 */
module FaqsApi {
  import opened Wrappers
  import opened Json
  import opened Proxy
  import opened ServerCommon

  const FaqsPath := "/cms/api/v1/faqs"

  /** `getFaqsFn`: the caller's parameters plus a `_t` time stamp, `now` standing for `Date.now()`. */
  function GetFaqs(params: seq<Param>, now: int): (r: ApiRequest)
    ensures r.url == FaqsPath && r.httpMethod == "GET" && r.body.None? && r.params.Some?
    ensures Lookup(r.params.value, "_t") == Some(Some(JNum(now)))
    ensures forall k :: k != "_t" ==> Lookup(r.params.value, k) == Lookup(params, k)
  {
    ApiRequest(FaqsPath, "GET", None, Some(Stamped(params, now)))
  }

  /** `createFaqFn`: the whole record, sanitised. */
  function CreateFaq(data: seq<(string, Json)>): (r: ApiRequest)
    ensures r.url == FaqsPath && r.httpMethod == "POST" && r.params.None?
    ensures r.body.Some? && r.body.value.JObj? && Keys(r.body.value.fields) == Keys(data)
    ensures forall k :: Get(r.body.value, k) == SanitizedAt(data, k)
  {
    ApiRequest(FaqsPath, "POST", Some(CreateBody(data)), None)
  }

  /** `updateFaqFn`: PUT to `/cms/api/v1/faqs/{id}`, the other fields sanitised. */
  function UpdateFaq(data: seq<(string, Json)>): (r: ApiRequest)
    requires HasId(data)
    ensures PathId(r.url, "/cms/api/v1/faqs/", "") == Some(IdOf(data))
    ensures r.httpMethod == "PUT" && r.params.None? && r.body.Some? && r.body.value.JObj?
    ensures forall k :: k in Keys(r.body.value.fields) <==> k in Keys(data) && k != "id"
    ensures forall k :: k != "id" ==> Get(r.body.value, k) == SanitizedAt(data, k)
  {
    var path := Addressed("/cms/api/v1/faqs/", IdOf(data), "", "PUT");
    path.(body := Some(UpdateBody(data)))
  }

  /** `deleteFaqFn`: note the trailing slash. */
  function DeleteFaq(id: string): (r: ApiRequest)
    ensures PathId(r.url, "/cms/api/v1/faqs/", "/") == Some(id)
    ensures r.httpMethod == "DELETE" && r.body.None? && r.params.None?
  {
    Addressed("/cms/api/v1/faqs/", id, "/", "DELETE")
  }

  /** `restoreFaqFn`. */
  function RestoreFaq(id: string): (r: ApiRequest)
    ensures PathId(r.url, "/cms/api/v1/faqs/restore/", "") == Some(id)
    ensures r.httpMethod == "PATCH" && r.body.None? && r.params.None?
  {
    Addressed("/cms/api/v1/faqs/restore/", id, "", "PATCH")
  }

  /** `hardDeleteFaqFn`: note the trailing slash. */
  function HardDeleteFaq(id: string): (r: ApiRequest)
    ensures PathId(r.url, "/cms/api/v1/faqs/hard-delete/", "/") == Some(id)
    ensures r.httpMethod == "DELETE" && r.body.None? && r.params.None?
  {
    Addressed("/cms/api/v1/faqs/hard-delete/", id, "/", "DELETE")
  }

  // ----- Properties -----

  /** A delete goes to the update path of the same FAQ with a slash appended. */
  lemma DeleteAddsSlash(data: seq<(string, Json)>)
    requires HasId(data)
    ensures DeleteFaq(IdOf(data)).url == UpdateFaq(data).url + "/"
  {
  }
}
