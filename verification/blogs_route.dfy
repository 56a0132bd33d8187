/**
 * The blog list page of src/routes/blogs.tsx: its search defaults, its
 * loader, the Category column, and the calls and toasts of `handleSave` and
 * `handleDelete` (the shared page state is `Listing.ListPage`).
 */
module BlogsRoute {
  import opened Wrappers
  import opened Json
  import opened Proxy
  import opened Listing
  import opened ServerCommon
  import BlogsApi
  import AuthGuard

  const BlogTexts := Texts("Blog updated successfully", "Failed to update blog", "Blog created successfully",
                           "Failed to create blog", "Failed to save blog", "Blog deleted successfully",
                           "Failed to delete blog")

  const LoadFailure := "Failed to load blogs"

  /** The loader: the guard, then the blogs response (checked) and the blog categories response (not checked). */
  function LoadBlogs(lookup: AuthGuard.UserLookup, blogsResult: Envelope, categoriesResult: Envelope): (r: LoadOutcome)
    ensures r.Redirected? <==> !AuthGuard.SignedIn(lookup)
    ensures r.Failed? <==> AuthGuard.SignedIn(lookup) && !blogsResult.ok
    ensures r.Failed? ==> r.message == ErrorText(blogsResult.error, LoadFailure) && r.message != ""
    ensures r.Succeeded? ==> r.loaded.categories == Some(ItemsOf(categoriesResult.data))
  {
    Load(AuthGuard.RequireAuth(lookup), blogsResult, LoadFailure, Some(categoriesResult))
  }

  /** The request `handleSave`'s call sends, when the record being edited has a string id or it is a create. */
  function SaveRequest(call: SaveCall): (r: Option<ApiRequest>)
    ensures call.Create? ==> r == Some(BlogsApi.CreateBlog(call.input))
    ensures call.Update? ==> (r.Some? <==> HasId(call.input))
    ensures call.Update? && HasId(call.input) ==> r == Some(BlogsApi.UpdateBlog(call.input))
  {
    match call
    case Create(input) => Some(BlogsApi.CreateBlog(input))
    case Update(input) => if HasId(input) then Some(BlogsApi.UpdateBlog(input)) else None
  }

  // ----- Properties -----

  /**
   * Saving a blog being edited, whose id is `id`, sends a PUT to that blog
   * with the dialog's fields sanitised and no `id` in the body.
   */
  lemma EditSendsUpdate(id: string, data: seq<(string, Json)>, key: string)
    requires "id" !in Keys(data)
    ensures HasId(WithId(JStr(id), data))
    ensures var r := SaveRequest(Update(WithId(JStr(id), data)));
      r.Some? && r.value.httpMethod == "PUT" && PathId(r.value.url, "/cms/api/v1/blog/", "") == Some(id)
      && "id" !in Keys(r.value.body.value.fields)
      && (key != "id" ==> Get(r.value.body.value, key) == SanitizedAt(data, key))
  {
    UpdateInputCarriesId(id, data, key);
    var input := WithId(JStr(id), data);
    assert IdOf(input) == id;
    assert key != "id" ==> SanitizedAt(input, key) == SanitizedAt(data, key);
  }

  /** The blog page loads whatever the categories response was: a failed one only empties the dropdown. */
  lemma CategoriesNeverFailTheLoad(lookup: AuthGuard.UserLookup, blogsResult: Envelope, c1: Envelope, c2: Envelope)
    ensures LoadBlogs(lookup, blogsResult, c1).Succeeded? == LoadBlogs(lookup, blogsResult, c2).Succeeded?
    ensures LoadBlogs(lookup, blogsResult, c1).Succeeded? && !c1.ok && c1.data == JNull ==>
      LoadBlogs(lookup, blogsResult, c1).loaded.categories == Some(JArr([]))
  {
  }
}
