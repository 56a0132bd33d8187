/**
 * The FAQ list page of src/routes/faqs.tsx: its loader, and the calls and
 * toasts of `handleSave` and `handleDelete`. The search defaults, the
 * normalisation, the Category column and the page state are the shared ones
 * of `Listing`.
 */
module FaqsRoute {
  import opened Wrappers
  import opened Json
  import opened Proxy
  import opened Listing
  import opened ServerCommon
  import FaqsApi
  import AuthGuard

  const FaqTexts := Texts("FAQ updated successfully", "Failed to update FAQ", "FAQ created successfully",
                          "Failed to create FAQ", "Failed to save FAQ", "FAQ deleted successfully",
                          "Failed to delete FAQ")

  const LoadFailure := "Failed to load FAQs"

  /** The loader: the guard, then the FAQs response (checked) and the FAQ categories response (not checked). */
  function LoadFaqs(lookup: AuthGuard.UserLookup, faqsResult: Envelope, categoriesResult: Envelope): (r: LoadOutcome)
    ensures r.Redirected? <==> !AuthGuard.SignedIn(lookup)
    ensures r.Failed? <==> AuthGuard.SignedIn(lookup) && !faqsResult.ok
    ensures r.Failed? ==> r.message == ErrorText(faqsResult.error, LoadFailure) && r.message != ""
    ensures r.Succeeded? ==> r.loaded.categories == Some(ItemsOf(categoriesResult.data))
  {
    Load(AuthGuard.RequireAuth(lookup), faqsResult, LoadFailure, Some(categoriesResult))
  }

  /** The request `handleSave`'s call sends, when the FAQ being edited has a string id or it is a create. */
  function SaveRequest(call: SaveCall): (r: Option<ApiRequest>)
    ensures call.Create? ==> r == Some(FaqsApi.CreateFaq(call.input))
    ensures call.Update? ==> (r.Some? <==> HasId(call.input))
    ensures call.Update? && HasId(call.input) ==> r == Some(FaqsApi.UpdateFaq(call.input))
  {
    match call
    case Create(input) => Some(FaqsApi.CreateFaq(input))
    case Update(input) => if HasId(input) then Some(FaqsApi.UpdateFaq(input)) else None
  }

  // ----- Properties -----

  /** Saving an FAQ being edited, whose id is `id`, sends a PUT to that FAQ with the fields sanitised and no `id` in the body. */
  lemma EditSendsUpdate(id: string, data: seq<(string, Json)>, key: string)
    requires "id" !in Keys(data)
    ensures HasId(WithId(JStr(id), data))
    ensures var r := SaveRequest(Update(WithId(JStr(id), data)));
      r.Some? && r.value.httpMethod == "PUT" && PathId(r.value.url, "/cms/api/v1/faqs/", "") == Some(id)
      && "id" !in Keys(r.value.body.value.fields)
      && (key != "id" ==> Get(r.value.body.value, key) == SanitizedAt(data, key))
  {
    UpdateInputCarriesId(id, data, key);
    var input := WithId(JStr(id), data);
    assert IdOf(input) == id;
    assert key != "id" ==> SanitizedAt(input, key) == SanitizedAt(data, key);
  }
}
