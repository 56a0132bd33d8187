/**
 * The category page of src/routes/categories.tsx: one table for blog or FAQ
 * categories, chosen by the `tab` search entry. Its search defaults, the
 * tab's choice of server functions, the tab and paging resets, its loader,
 * and the calls of `handleSave` and `handleDelete` (the page state is the
 * shared `Listing.ListPage`).
 */
module CategoriesRoute {
  import opened Wrappers
  import opened Json
  import opened Proxy
  import opened Listing
  import opened ServerCommon
  import CategoriesApi
  import EditCategoryModal
  import AuthGuard

  const CategoryTexts := Texts("Category updated successfully", "Failed to update category",
                               "Category created successfully", "Failed to create category",
                               "Failed to save category", "Category deleted successfully",
                               "Failed to delete category")

  const LoadFailure := "Failed to load categories"

  const BlogsTab := JStr("blogs")
  const FaqsTab := JStr("faqs")

  /** The category page's search: paging plus the tab, whose value is whatever the URL held. */
  datatype CategoriesSearch = CategoriesSearch(paging: PageSearch, tab: Json)

  /** `(search?.tab) || 'blogs'`: a falsy tab becomes `'blogs'`, any truthy value passes unchecked. */
  function TabOf(tab: Option<Json>): (r: Json)
    ensures Truthy(r)
    ensures TruthyOpt(tab) ==> r == tab.value
    ensures !TruthyOpt(tab) ==> r == BlogsTab
  {
    if TruthyOpt(tab) then tab.value else BlogsTab
  }

  /** `validateSearch`. */
  function ValidateSearch(search: seq<(string, Json)>, toNumber: Option<Json> -> JsNumber): (r: CategoriesSearch)
    ensures r.paging == ValidatePaging(search, toNumber)
    ensures r.tab == TabOf(Lookup(search, "tab"))
  {
    CategoriesSearch(ValidatePaging(search, toNumber), TabOf(Lookup(search, "tab")))
  }

  /** `tab === 'blogs'`: the blog-category functions are used exactly then. */
  predicate OnBlogs(tab: Json) {
    tab == BlogsTab
  }

  /** A tab button: `{ ...prev, tab, page: 1 }`. */
  function SwitchTab(s: CategoriesSearch, tab: Json): (r: CategoriesSearch)
    ensures r.tab == tab && r.paging.page == Finite(1.0) && r.paging.pageSize == s.paging.pageSize
  {
    CategoriesSearch(s.paging.(page := Finite(1.0)), tab)
  }

  /** The loader's request: blog or FAQ categories by the tab. */
  function LoadRequest(tab: Json, params: seq<Param>): (r: ApiRequest)
    ensures r.httpMethod == "GET" && r.params == Some(params)
    ensures r.url == (if OnBlogs(tab) then CategoriesApi.BlogCategoriesPath else CategoriesApi.FaqCategoriesPath)
  {
    if OnBlogs(tab) then CategoriesApi.GetBlogCategories(params) else CategoriesApi.GetFaqCategories(params)
  }

  /** The loader: the guard, then the selected categories response, checked. */
  function LoadCategories(lookup: AuthGuard.UserLookup, result: Envelope): (r: LoadOutcome)
    ensures r.Redirected? <==> !AuthGuard.SignedIn(lookup)
    ensures r.Failed? <==> AuthGuard.SignedIn(lookup) && !result.ok
    ensures r.Failed? ==> r.message == ErrorText(result.error, LoadFailure) && r.message != ""
    ensures r.Succeeded? ==> r.loaded.categories.None?
  {
    Load(AuthGuard.RequireAuth(lookup), result, LoadFailure, None)
  }

  /** The request `handleSave`'s call sends, by the tab, when the category being edited has a string id or it is a create. */
  function SaveRequest(tab: Json, call: SaveCall): (r: Option<ApiRequest>)
    ensures call.Create? ==> r == Some(if OnBlogs(tab) then CategoriesApi.CreateBlogCategory(call.input)
                                       else CategoriesApi.CreateFaqCategory(call.input))
    ensures call.Update? ==> (r.Some? <==> HasId(call.input))
    ensures call.Update? && HasId(call.input) ==>
      r == Some(if OnBlogs(tab) then CategoriesApi.UpdateBlogCategory(call.input)
                else CategoriesApi.UpdateFaqCategory(call.input))
  {
    match call
    case Create(input) =>
      Some(if OnBlogs(tab) then CategoriesApi.CreateBlogCategory(input) else CategoriesApi.CreateFaqCategory(input))
    case Update(input) =>
      if !HasId(input) then None
      else Some(if OnBlogs(tab) then CategoriesApi.UpdateBlogCategory(input) else CategoriesApi.UpdateFaqCategory(input))
  }

  /** The request `handleDelete` sends for a string id, by the tab. */
  function DeleteRequest(tab: Json, id: string): (r: ApiRequest)
    ensures r.httpMethod == "DELETE" && r.body.None?
    ensures PathId(r.url, (if OnBlogs(tab) then CategoriesApi.BlogCategoriesPath else CategoriesApi.FaqCategoriesPath) + "/", "")
      == Some(id)
  {
    if OnBlogs(tab) then CategoriesApi.DeleteBlogCategory(id) else CategoriesApi.DeleteFaqCategory(id)
  }

  /** The `categoryType` handed to the dialogs. */
  function DialogType(tab: Json): (r: EditCategoryModal.CategoryType)
    ensures r == EditCategoryModal.BlogType <==> OnBlogs(tab)
  {
    if OnBlogs(tab) then EditCategoryModal.BlogType else EditCategoryModal.FaqType
  }

  // ----- Properties -----

  /**
   * A tab value other than `'blogs'` — `'faqs'`, or anything else the URL
   * held — loads, saves and deletes FAQ categories, and the dialogs say FAQ.
   */
  lemma OtherTabsMeanFaqs(tab: Json, params: seq<Param>, id: string)
    requires tab != BlogsTab
    ensures LoadRequest(tab, params).url == CategoriesApi.FaqCategoriesPath
    ensures DeleteRequest(tab, id) == CategoriesApi.DeleteFaqCategory(id)
    ensures DialogType(tab) == EditCategoryModal.FaqType
  {
  }

  /** A URL without a tab shows blog categories, and the search it validates to loads them. */
  lemma NoTabMeansBlogs(search: seq<(string, Json)>, toNumber: Option<Json> -> JsNumber, params: seq<Param>)
    requires "tab" !in Keys(search)
    ensures OnBlogs(ValidateSearch(search, toNumber).tab)
    ensures LoadRequest(ValidateSearch(search, toNumber).tab, params).url == CategoriesApi.BlogCategoriesPath
  {
  }

  /** Switching tabs and then changing the page size still lands on page 1 of the chosen tab. */
  lemma ResetsCompose(s: CategoriesSearch, tab: Json, ps: int)
    ensures var t := SwitchTab(s, tab);
      CategoriesSearch(PageSizeChange(t.paging, ps), t.tab) == CategoriesSearch(PageSearch(Finite(1.0), Finite(ps as real)), tab)
  {
  }
}
