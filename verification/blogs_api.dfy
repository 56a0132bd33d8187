/**
 * The blog handlers of src/server/blogs.ts, as the requests they hand to
 * `apiCall`.
 */
module BlogsApi {
  import opened Wrappers
  import opened Json
  import opened Proxy
  import opened ServerCommon
  import Sanitization

  const BlogsPath := "/cms/api/v1/blogs"

  /** `getBlogsFn`: the caller's parameters plus a `_t` time stamp, `now` standing for `Date.now()`. */
  function GetBlogs(params: seq<Param>, now: int): (r: ApiRequest)
    ensures r.url == BlogsPath && r.httpMethod == "GET" && r.body.None? && r.params.Some?
    ensures Lookup(r.params.value, "_t") == Some(Some(JNum(now)))
    ensures forall k :: k != "_t" ==> Lookup(r.params.value, k) == Lookup(params, k)
  {
    ApiRequest(BlogsPath, "GET", None, Some(Stamped(params, now)))
  }

  /** `createBlogFn`: the whole record, sanitised. */
  function CreateBlog(data: seq<(string, Json)>): (r: ApiRequest)
    ensures r.url == BlogsPath && r.httpMethod == "POST" && r.params.None?
    ensures r.body.Some? && r.body.value.JObj? && Keys(r.body.value.fields) == Keys(data)
    ensures forall k :: Get(r.body.value, k) == SanitizedAt(data, k)
  {
    ApiRequest(BlogsPath, "POST", Some(CreateBody(data)), None)
  }

  /** `updateBlogFn`: PUT to the singular `/cms/api/v1/blog/{id}`, the other fields sanitised. */
  function UpdateBlog(data: seq<(string, Json)>): (r: ApiRequest)
    requires HasId(data)
    ensures PathId(r.url, "/cms/api/v1/blog/", "") == Some(IdOf(data))
    ensures r.httpMethod == "PUT" && r.params.None? && r.body.Some? && r.body.value.JObj?
    ensures forall k :: k in Keys(r.body.value.fields) <==> k in Keys(data) && k != "id"
    ensures forall k :: k != "id" ==> Get(r.body.value, k) == SanitizedAt(data, k)
  {
    var path := Addressed("/cms/api/v1/blog/", IdOf(data), "", "PUT");
    path.(body := Some(UpdateBody(data)))
  }

  /** `deleteBlogFn`. */
  function DeleteBlog(id: string): (r: ApiRequest)
    ensures PathId(r.url, "/cms/api/v1/blogs/", "") == Some(id)
    ensures r.httpMethod == "DELETE" && r.body.None? && r.params.None?
  {
    Addressed("/cms/api/v1/blogs/", id, "", "DELETE")
  }

  /** `hardDeleteBlogFn`: note the trailing slash. */
  function HardDeleteBlog(id: string): (r: ApiRequest)
    ensures PathId(r.url, "/cms/api/v1/blogs/hard-delete/", "/") == Some(id)
    ensures r.httpMethod == "DELETE" && r.body.None? && r.params.None?
  {
    Addressed("/cms/api/v1/blogs/hard-delete/", id, "/", "DELETE")
  }

  /** `restoreBlogFn`. */
  function RestoreBlog(id: string): (r: ApiRequest)
    ensures PathId(r.url, "/cms/api/v1/blogs/restore/", "") == Some(id)
    ensures r.httpMethod == "PATCH" && r.body.None? && r.params.None?
  {
    Addressed("/cms/api/v1/blogs/restore/", id, "", "PATCH")
  }

  // ----- Properties -----

  /** An update and a delete of the same blog go to different paths: `blog/{id}` against `blogs/{id}`. */
  lemma UpdatePathSingular(data: seq<(string, Json)>)
    requires HasId(data)
    ensures UpdateBlog(data).url != DeleteBlog(IdOf(data)).url
  {
    var u := UpdateBlog(data).url;
    var d := DeleteBlog(IdOf(data)).url;
    assert u[16] == '/';
    assert d[16] == 's';
  }

  /** The update body keeps the record's text sanitised: a title is sent as `sanitizeInput(title)`. */
  lemma UpdateSanitisesTitle(data: seq<(string, Json)>, title: string)
    requires HasId(data) && Lookup(data, "title") == Some(JStr(title))
    ensures Get(UpdateBlog(data).body.value, "title") == Some(JStr(Sanitization.SanitizeInput(title)))
  {
    assert "title" != "id";
  }
}
