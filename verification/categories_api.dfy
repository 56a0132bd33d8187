/**
 * The blog- and FAQ-category handlers of src/server/categories.ts, as the
 * requests they hand to `apiCall`. Reads pass the caller's parameters
 * through as they are, with no time stamp.
 */
module CategoriesApi {
  import opened Wrappers
  import opened Json
  import opened Proxy
  import opened ServerCommon

  const BlogCategoriesPath := "/cms/api/v1/blog/categories"
  /** Where blog categories are created: `blogs`, not `blog` as on every other blog-category path. */
  const BlogCategoryCreatePath := "/cms/api/v1/blogs/categories"
  const FaqCategoriesPath := "/cms/api/v1/faq/categories"

  /** `getBlogCategoriesFn`. */
  function GetBlogCategories(params: seq<Param>): (r: ApiRequest)
    ensures r.url == BlogCategoriesPath && r.httpMethod == "GET" && r.body.None?
    ensures r.params == Some(params)
  {
    ApiRequest(BlogCategoriesPath, "GET", None, Some(params))
  }

  /** `createBlogCategoryFn`: the record sanitised. */
  function CreateBlogCategory(data: seq<(string, Json)>): (r: ApiRequest)
    ensures r.url == BlogCategoryCreatePath && r.httpMethod == "POST" && r.params.None?
    ensures r.body.Some? && r.body.value.JObj? && Keys(r.body.value.fields) == Keys(data)
    ensures forall k :: Get(r.body.value, k) == SanitizedAt(data, k)
  {
    ApiRequest(BlogCategoryCreatePath, "POST", Some(CreateBody(data)), None)
  }

  /** `updateBlogCategoryFn`: the other fields sanitised. */
  function UpdateBlogCategory(data: seq<(string, Json)>): (r: ApiRequest)
    requires HasId(data)
    ensures PathId(r.url, BlogCategoriesPath + "/", "") == Some(IdOf(data))
    ensures r.httpMethod == "PUT" && r.params.None? && r.body.Some? && r.body.value.JObj?
    ensures forall k :: k in Keys(r.body.value.fields) <==> k in Keys(data) && k != "id"
    ensures forall k :: k != "id" ==> Get(r.body.value, k) == SanitizedAt(data, k)
  {
    var path := Addressed(BlogCategoriesPath + "/", IdOf(data), "", "PUT");
    path.(body := Some(UpdateBody(data)))
  }

  /** `deleteBlogCategoryFn`. */
  function DeleteBlogCategory(id: string): (r: ApiRequest)
    ensures PathId(r.url, BlogCategoriesPath + "/", "") == Some(id)
    ensures r.httpMethod == "DELETE" && r.body.None? && r.params.None?
  {
    Addressed(BlogCategoriesPath + "/", id, "", "DELETE")
  }

  /** `getFaqCategoriesFn`. */
  function GetFaqCategories(params: seq<Param>): (r: ApiRequest)
    ensures r.url == FaqCategoriesPath && r.httpMethod == "GET" && r.body.None?
    ensures r.params == Some(params)
  {
    ApiRequest(FaqCategoriesPath, "GET", None, Some(params))
  }

  /** `createFaqCategoryFn`: the record sanitised. */
  function CreateFaqCategory(data: seq<(string, Json)>): (r: ApiRequest)
    ensures r.url == FaqCategoriesPath && r.httpMethod == "POST" && r.params.None?
    ensures r.body.Some? && r.body.value.JObj? && Keys(r.body.value.fields) == Keys(data)
    ensures forall k :: Get(r.body.value, k) == SanitizedAt(data, k)
  {
    ApiRequest(FaqCategoriesPath, "POST", Some(CreateBody(data)), None)
  }

  /** `updateFaqCategoryFn`: the other fields sanitised. */
  function UpdateFaqCategory(data: seq<(string, Json)>): (r: ApiRequest)
    requires HasId(data)
    ensures PathId(r.url, FaqCategoriesPath + "/", "") == Some(IdOf(data))
    ensures r.httpMethod == "PUT" && r.params.None? && r.body.Some? && r.body.value.JObj?
    ensures forall k :: k in Keys(r.body.value.fields) <==> k in Keys(data) && k != "id"
    ensures forall k :: k != "id" ==> Get(r.body.value, k) == SanitizedAt(data, k)
  {
    var path := Addressed(FaqCategoriesPath + "/", IdOf(data), "", "PUT");
    path.(body := Some(UpdateBody(data)))
  }

  /** `deleteFaqCategoryFn`. */
  function DeleteFaqCategory(id: string): (r: ApiRequest)
    ensures PathId(r.url, FaqCategoriesPath + "/", "") == Some(id)
    ensures r.httpMethod == "DELETE" && r.body.None? && r.params.None?
  {
    Addressed(FaqCategoriesPath + "/", id, "", "DELETE")
  }

  // ----- Properties -----

  /** Blog categories are created at a path other than the one they are listed at; FAQ categories are not. */
  lemma CreatePathMismatch(params: seq<Param>, data: seq<(string, Json)>)
    ensures CreateBlogCategory(data).url != GetBlogCategories(params).url
    ensures CreateFaqCategory(data).url == GetFaqCategories(params).url
  {
    assert BlogCategoryCreatePath[16] != BlogCategoriesPath[16];
  }

  /** Reads carry no `_t` time stamp unless the caller passed one. */
  lemma ReadsNotStamped(params: seq<Param>)
    requires "_t" !in Keys(params)
    ensures Lookup(GetBlogCategories(params).params.value, "_t").None?
    ensures Lookup(GetFaqCategories(params).params.value, "_t").None?
  {
  }
}
