/**
 * What the three list pages (src/routes/blogs.tsx, faqs.tsx and
 * categories.tsx) share: the `Number(x) || default` search defaults, the
 * paging updates of the search, the normalisation of a list response into
 * items and a total count, the loader's error rule, and the page state that
 * `handleSave` and `handleDelete` update step by step.
 */
module Listing {
  import opened Wrappers
  import opened Json
  import opened Proxy
  import AuthGuard
  import ErrorUtils
  import Table
  import opened PageEffects

  /** A JavaScript number as `Number(...)` yields it. */
  datatype JsNumber = NaN | Finite(value: real) | Infinite(negative: bool)

  /** `0`, `-0` and `NaN` are the falsy numbers. */
  predicate NumTruthy(n: JsNumber) {
    !n.NaN? && n != Finite(0.0)
  }

  /** `Number(x) || fallback`. */
  function OrDefault(n: JsNumber, fallback: int): (r: JsNumber)
    ensures NumTruthy(n) ==> r == n
    ensures !NumTruthy(n) ==> r == Finite(fallback as real)
  {
    if NumTruthy(n) then n else Finite(fallback as real)
  }

  /** The paging part of a list page's search. */
  datatype PageSearch = PageSearch(page: JsNumber, pageSize: JsNumber)

  /** `validateSearch`: `page` defaults to 1 and `pageSize` to 10; `toNumber` is `Number(...)` of a search entry. */
  function ValidatePaging(search: seq<(string, Json)>, toNumber: Option<Json> -> JsNumber): (r: PageSearch)
    ensures NumTruthy(r.page) && NumTruthy(r.pageSize)
    ensures NumTruthy(toNumber(Lookup(search, "page"))) ==> r.page == toNumber(Lookup(search, "page"))
    ensures !NumTruthy(toNumber(Lookup(search, "page"))) ==> r.page == Finite(1.0)
    ensures NumTruthy(toNumber(Lookup(search, "pageSize"))) ==> r.pageSize == toNumber(Lookup(search, "pageSize"))
    ensures !NumTruthy(toNumber(Lookup(search, "pageSize"))) ==> r.pageSize == Finite(10.0)
  {
    PageSearch(OrDefault(toNumber(Lookup(search, "page")), 1), OrDefault(toNumber(Lookup(search, "pageSize")), 10))
  }

  /** `onPageChange`: `{ ...prev, page: p }`. */
  function PageChange(s: PageSearch, p: int): (r: PageSearch)
    ensures r.page == Finite(p as real) && r.pageSize == s.pageSize
  {
    s.(page := Finite(p as real))
  }

  /** `onPageSizeChange`: `{ ...prev, pageSize: ps, page: 1 }`. */
  function PageSizeChange(s: PageSearch, ps: int): (r: PageSearch)
    ensures r.pageSize == Finite(ps as real) && r.page == Finite(1.0)
  {
    PageSearch(Finite(1.0), Finite(ps as real))
  }

  /** `Array.isArray(data) ? data : data?.data || []`. */
  function ItemsOf(data: Json): (r: Json)
    ensures data.JArr? ==> r == data
    ensures !data.JArr? && TruthyOpt(Get(data, "data")) ==> r == Get(data, "data").value
    ensures !data.JArr? && !TruthyOpt(Get(data, "data")) ==> r == JArr([])
  {
    if data.JArr? then data
    else if TruthyOpt(Get(data, "data")) then Get(data, "data").value
    else JArr([])
  }

  /** `v?.length`: arrays and strings have a length; an object may have a `length` property. */
  function LengthOf(v: Json): (r: Option<Json>)
    ensures v.JArr? ==> r == Some(JNum(|v.items|))
  {
    match v
    case JArr(items) => Some(JNum(|items|))
    case JStr(s) => Some(JNum(|s|))
    case JObj(fields) => Lookup(fields, "length")
    case _ => None
  }

  /** `Array.isArray(data) ? data.length : (data?.count || (data?.data?.length ?? 0))`. */
  function TotalCountOf(data: Json): (r: Json)
    ensures data.JArr? ==> r == JNum(|data.items|)
    ensures !data.JArr? && TruthyOpt(Get(data, "count")) ==> r == Get(data, "count").value
  {
    if data.JArr? then JNum(|data.items|)
    else if TruthyOpt(Get(data, "count")) then Get(data, "count").value
    else
      var inner := Get(data, "data");
      var len := if inner.Some? then LengthOf(inner.value) else None;
      if len.Some? && len.value != JNull then len.value else JNum(0)
  }

  /** What a loader hands to its page; `categories` is the dropdown list the blog and FAQ pages load alongside. */
  datatype Loaded = Loaded(items: Json, totalCount: Json, categories: Option<Json>)

  /** How a loader ends: redirected by the guard, failed with an `Error`, or loaded. */
  datatype LoadOutcome = Redirected(to: string) | Failed(message: string) | Succeeded(loaded: Loaded)

  /** `result.error || fallback`. */
  function ErrorText(error: Option<string>, fallback: string): (r: string)
    ensures error.Some? && error.value != "" ==> r == error.value
    ensures error.None? || error.value == "" ==> r == fallback
  {
    if error.Some? && error.value != "" then error.value else fallback
  }

  /**
   * The loader: `requireAuth` first, then an `Error` with the response's
   * error text (or `failure`) when the list response is not ok, else the
   * normalised items and total count. The categories response, when there
   * is one, is never checked: only its items are kept.
   */
  function Load(guard: AuthGuard.Guard<Json>, result: Envelope, failure: string, categoriesResult: Option<Envelope>)
    : (r: LoadOutcome)
    ensures r.Redirected? <==> guard.Redirect?
    ensures r.Redirected? ==> r.to == guard.to
    ensures r.Succeeded? <==> guard.Proceed? && result.ok
    ensures r.Failed? <==> guard.Proceed? && !result.ok
    ensures r.Failed? ==> r.message == ErrorText(result.error, failure)
    ensures r.Failed? && failure != "" ==> r.message != ""
    ensures r.Succeeded? ==> r.loaded.items == ItemsOf(result.data) && r.loaded.totalCount == TotalCountOf(result.data)
    ensures r.Succeeded? ==> (r.loaded.categories.Some? <==> categoriesResult.Some?)
    ensures r.Succeeded? && categoriesResult.Some? ==> r.loaded.categories.value == ItemsOf(categoriesResult.value.data)
  {
    if guard.Redirect? then Redirected(guard.to)
    else if !result.ok then Failed(ErrorText(result.error, failure))
    else
      var categories := if categoriesResult.Some? then Some(ItemsOf(categoriesResult.value.data)) else None;
      Succeeded(Loaded(ItemsOf(result.data), TotalCountOf(result.data), categories))
  }

  /**
   * `categories.find(c => c.id === categoryId)`: the first listed category
   * whose `id` is `categoryId` (`undefined` matches a category without an
   * id), or the `TypeError` of reading `id` on a `null` entry met first.
   */
  function FindById(categories: seq<Json>, categoryId: Option<Json>): (r: ErrorUtils.Eval<Option<nat>>)
    ensures r.Done? && r.value.Some? ==>
      r.value.value < |categories| && categories[r.value.value] != JNull
      && Get(categories[r.value.value], "id") == categoryId
      && forall j :: 0 <= j < r.value.value ==> categories[j] != JNull && Get(categories[j], "id") != categoryId
    ensures r.Done? && r.value.None? ==>
      forall j :: 0 <= j < |categories| ==> categories[j] != JNull && Get(categories[j], "id") != categoryId
    ensures r.TypeError? ==>
      exists k :: 0 <= k < |categories| && categories[k] == JNull
        && forall j :: 0 <= j < k ==> Get(categories[j], "id") != categoryId
    decreases |categories|
  {
    if categories == [] then ErrorUtils.Done(None)
    else if categories[0] == JNull then ErrorUtils.TypeError
    else if Get(categories[0], "id") == categoryId then ErrorUtils.Done(Some(0))
    else
      match FindById(categories[1..], categoryId)
      case TypeError =>
        NullShift(categories, categoryId);
        ErrorUtils.TypeError
      case Done(None) => ErrorUtils.Done(None)
      case Done(Some(k)) => ErrorUtils.Done(Some(k + 1))
  }

  lemma NullShift(categories: seq<Json>, categoryId: Option<Json>)
    requires categories != [] && Get(categories[0], "id") != categoryId
    requires exists k :: (0 <= k < |categories[1..]| && categories[1..][k] == JNull
                          && forall j :: 0 <= j < k ==> Get(categories[1..][j], "id") != categoryId)
    ensures exists k :: (0 <= k < |categories| && categories[k] == JNull
                         && forall j :: 0 <= j < k ==> Get(categories[j], "id") != categoryId)
  {
    var k :| 0 <= k < |categories[1..]| && categories[1..][k] == JNull
      && forall j :: 0 <= j < k ==> Get(categories[1..][j], "id") != categoryId;
    assert categories[k + 1] == JNull;
    forall j | 0 <= j < k + 1
      ensures Get(categories[j], "id") != categoryId
    {
      if j > 0 {
        assert categories[j] == categories[1..][j - 1];
      }
    }
  }

  const Unknown := JStr("Unknown")

  /** `getCategoryTitle`: the title of the first category with that id, else `'Unknown'`; the search may throw. */
  function CategoryTitle(categories: seq<Json>, categoryId: Option<Json>): (r: ErrorUtils.Eval<Option<Json>>)
    ensures r.TypeError? <==> FindById(categories, categoryId).TypeError?
    ensures FindById(categories, categoryId) == ErrorUtils.Done(None) ==> r == ErrorUtils.Done(Some(Unknown))
    ensures var hit := FindById(categories, categoryId);
      hit.Done? && hit.value.Some? && Truthy(categories[hit.value.value]) ==>
        r == ErrorUtils.Done(Get(categories[hit.value.value], "title"))
  {
    match FindById(categories, categoryId)
    case TypeError => ErrorUtils.TypeError
    case Done(hit) =>
      if hit.Some? && Truthy(categories[hit.value]) then ErrorUtils.Done(Get(categories[hit.value], "title"))
      else ErrorUtils.Done(Some(Unknown))
  }

  /** The Category cell: `item.category || getCategoryTitle(item.category_id)`. */
  function CategoryCell(item: Json, categories: seq<Json>): (r: ErrorUtils.Eval<Option<Json>>)
    ensures TruthyOpt(Get(item, "category")) ==> r == ErrorUtils.Done(Get(item, "category"))
    ensures !TruthyOpt(Get(item, "category")) ==> r == CategoryTitle(categories, Get(item, "category_id"))
  {
    if TruthyOpt(Get(item, "category")) then ErrorUtils.Done(Get(item, "category"))
    else CategoryTitle(categories, Get(item, "category_id"))
  }

  // ----- Properties of the search and of the normalisation -----

  /** Defaulting twice is defaulting once: a validated search validates to itself. */
  lemma OrDefaultIdempotent(n: JsNumber, fallback: int)
    requires fallback != 0
    ensures OrDefault(OrDefault(n, fallback), fallback) == OrDefault(n, fallback)
  {
  }

  /** Negative and fractional page numbers are not defaults and pass through. */
  lemma OddPagesPassThrough(v: real)
    requires v != 0.0
    ensures OrDefault(Finite(v), 1) == Finite(v)
  {
  }

  /** After a page-size change the table shows page 1: the label starts at the first item, and Previous is disabled. */
  lemma PageSizeChangeShowsFirstPage(s: PageSearch, ps: int, totalCount: nat)
    requires ps >= 1 && totalCount > 0
    ensures PageSizeChange(s, ps).page == Finite(1.0)
    ensures Table.RangeStart(1, ps, totalCount) == 1 && Table.PrevDisabled(1)
    ensures Table.RangeEnd(1, ps, totalCount) == Table.Min(ps, totalCount)
  {
  }

  /** A bare array and a `{data: [...]}` page without a truthy `count` both count exactly their items. */
  lemma CountMatchesItems(data: Json)
    requires data.JArr? || (Get(data, "data").Some? && Get(data, "data").value.JArr? && !TruthyOpt(Get(data, "count")))
    ensures ItemsOf(data).JArr? && TotalCountOf(data) == JNum(|ItemsOf(data).items|)
  {
  }

  /** A failed response from the proxy carries `null` data, so an unchecked categories list degrades to no categories. */
  lemma FailedResponseListsNothing(outcome: Outcome, stringify: Json -> string, render: Json -> string)
    requires !Respond(outcome, stringify, render).ok
    ensures ItemsOf(Respond(outcome, stringify, render).data) == JArr([])
  {
  }

  /** A row naming its category shows that name; one naming an id no listed category has shows `'Unknown'`. */
  lemma CategoryCellFallback(item: Json, categories: seq<Json>)
    requires !TruthyOpt(Get(item, "category"))
    requires forall j :: 0 <= j < |categories| ==> categories[j] != JNull && Get(categories[j], "id") != Get(item, "category_id")
    ensures CategoryCell(item, categories) == ErrorUtils.Done(Some(Unknown))
  {
    NoMatchFindsNothing(categories, Get(item, "category_id"));
  }

  lemma {:induction false} NoMatchFindsNothing(categories: seq<Json>, categoryId: Option<Json>)
    requires forall j :: 0 <= j < |categories| ==> categories[j] != JNull && Get(categories[j], "id") != categoryId
    ensures FindById(categories, categoryId) == ErrorUtils.Done(None)
    decreases |categories|
  {
    if categories != [] {
      NoMatchFindsNothing(categories[1..], categoryId);
    }
  }

  /** A `null` entry listed before any match makes the Category cell throw, as reading `c.id` on it does. */
  lemma NullCategoryThrows(item: Json, before: seq<Json>, after: seq<Json>)
    requires !TruthyOpt(Get(item, "category"))
    requires forall j :: 0 <= j < |before| ==> before[j] != JNull && Get(before[j], "id") != Get(item, "category_id")
    ensures CategoryCell(item, before + [JNull] + after).TypeError?
  {
    NullAfterMisses(before, after, Get(item, "category_id"));
  }

  lemma {:induction false} NullAfterMisses(before: seq<Json>, after: seq<Json>, categoryId: Option<Json>)
    requires forall j :: 0 <= j < |before| ==> before[j] != JNull && Get(before[j], "id") != categoryId
    ensures FindById(before + [JNull] + after, categoryId).TypeError?
    decreases |before|
  {
    if before == [] {
      assert (before + [JNull] + after)[0] == JNull;
    } else {
      assert (before + [JNull] + after)[1..] == before[1..] + [JNull] + after;
      NullAfterMisses(before[1..], after, categoryId);
    }
  }

  /** Anything that is neither an array nor holds a `data` or `count` field loads as no items and a count of 0. */
  lemma NothingLoaded(data: Json)
    requires !data.JArr? && Get(data, "data").None? && Get(data, "count").None?
    ensures ItemsOf(data) == JArr([]) && TotalCountOf(data) == JNum(0)
  {
  }

  // ----- The page state of a list page -----

  /** The toast texts of one list page. */
  datatype Texts = Texts(updated: string, updateFailed: string, created: string, createFailed: string,
                         saveFailed: string, deleted: string, deleteFailed: string)

  /** How an awaited server call ends: it throws, or returns the proxy's envelope. */
  datatype CallResult = CallThrew | Returned(envelope: Envelope)

  predicate CallOk(result: CallResult) {
    result.Returned? && result.envelope.ok
  }

  /** The call `handleSave` makes: an update of the record being edited, or a create. */
  datatype SaveCall = Update(input: seq<(string, Json)>) | Create(input: seq<(string, Json)>)

  /** `{ id: record.id, ...data }`: `id` first, its value from `data` when `data` has one. */
  function WithId(id: Json, data: seq<(string, Json)>): (r: seq<(string, Json)>)
    ensures Lookup(r, "id") == Some(if Lookup(data, "id").Some? then Lookup(data, "id").value else id)
    ensures forall k :: k != "id" ==> Lookup(r, k) == Lookup(data, k)
  {
    var rest := RemoveField(data, "id");
    var idValue := if Lookup(data, "id").Some? then Lookup(data, "id").value else id;
    assert Keys([("id", idValue)] + rest) == ["id"] + Keys(rest);
    assert ([("id", idValue)] + rest)[1..] == rest;
    [("id", idValue)] + rest
  }

  /** The toast `handleSave` shows for a call's result. */
  function SaveToast(texts: Texts, updating: bool, result: CallResult): (r: Toast)
    ensures r.kind == Success <==> CallOk(result)
    ensures result.CallThrew? ==> r.message == texts.saveFailed
    ensures result.Returned? && !result.envelope.ok ==>
      r.message == ErrorText(result.envelope.error, if updating then texts.updateFailed else texts.createFailed)
  {
    match result
    case CallThrew => Toast(Error, texts.saveFailed)
    case Returned(e) =>
      if e.ok then Toast(Success, if updating then texts.updated else texts.created)
      else Toast(Error, ErrorText(e.error, if updating then texts.updateFailed else texts.createFailed))
  }

  /** The toast `handleDelete` shows for a call's result. */
  function DeleteToast(texts: Texts, result: CallResult): (r: Toast)
    ensures r.kind == Success <==> CallOk(result)
    ensures result.CallThrew? ==> r.message == texts.deleteFailed
    ensures result.Returned? && !result.envelope.ok ==> r.message == ErrorText(result.envelope.error, texts.deleteFailed)
  {
    match result
    case CallThrew => Toast(Error, texts.deleteFailed)
    case Returned(e) =>
      if e.ok then Toast(Success, texts.deleted) else Toast(Error, ErrorText(e.error, texts.deleteFailed))
  }

  /**
   * The state of a list page: the edit and delete dialogs with the record
   * each holds, `actionLoading`, the toasts shown so far and the number of
   * `router.invalidate()` reloads requested.
   */
  class ListPage {
    var editOpen: bool
    var editRecord: Option<Json>
    var deleteOpen: bool
    var deleteRecord: Option<Json>
    var actionLoading: bool
    var toasts: seq<Toast>
    var reloads: nat

    constructor ()
      ensures !editOpen && editRecord.None? && !deleteOpen && deleteRecord.None?
      ensures !actionLoading && toasts == [] && reloads == 0
    {
      editOpen, editRecord := false, None;
      deleteOpen, deleteRecord := false, None;
      actionLoading := false;
      toasts, reloads := [], 0;
    }

    /** `handleCreate` (no record) and the row's edit button (its item). */
    method OpenEdit(record: Option<Json>)
      modifies this
      ensures editOpen && editRecord == record
      ensures deleteOpen == old(deleteOpen) && deleteRecord == old(deleteRecord)
      ensures actionLoading == old(actionLoading) && toasts == old(toasts) && reloads == old(reloads)
    {
      editOpen, editRecord := true, record;
    }

    /** The row's delete button. */
    method OpenDelete(record: Json)
      modifies this
      ensures deleteOpen && deleteRecord == Some(record)
      ensures editOpen == old(editOpen) && editRecord == old(editRecord)
      ensures actionLoading == old(actionLoading) && toasts == old(toasts) && reloads == old(reloads)
    {
      deleteOpen, deleteRecord := true, Some(record);
    }

    /**
     * `handleSave`: updates the record being edited, or creates; a toast
     * for the result; the dialog closes once the call returns, ok or not,
     * and stays open only when it throws; `actionLoading` is cleared in
     * `finally`. Returns the call made.
     */
    method HandleSave(data: seq<(string, Json)>, texts: Texts, result: CallResult) returns (call: SaveCall)
      modifies this
      ensures call == (if TruthyOpt(old(editRecord))
                       then Update(WithId(Get(old(editRecord).value, "id").GetOr(JNull), data))
                       else Create(data))
      ensures toasts == old(toasts) + [SaveToast(texts, call.Update?, result)]
      ensures reloads == old(reloads) + (if CallOk(result) then 1 else 0)
      ensures result.Returned? ==> !editOpen && editRecord.None?
      ensures result.CallThrew? ==> editOpen == old(editOpen) && editRecord == old(editRecord)
      ensures !actionLoading
      ensures deleteOpen == old(deleteOpen) && deleteRecord == old(deleteRecord)
    {
      actionLoading := true;
      if TruthyOpt(editRecord) {
        call := Update(WithId(Get(editRecord.value, "id").GetOr(JNull), data));
      } else {
        call := Create(data);
      }
      match result {
        case CallThrew =>
          toasts := toasts + [Toast(Error, texts.saveFailed)];
        case Returned(e) =>
          if e.ok {
            toasts := toasts + [Toast(Success, if call.Update? then texts.updated else texts.created)];
            reloads := reloads + 1;
          } else {
            toasts := toasts + [Toast(Error, ErrorText(e.error, if call.Update? then texts.updateFailed else texts.createFailed))];
          }
          editOpen, editRecord := false, None;
      }
      actionLoading := false;
    }

    /**
     * `handleDelete`: deletes by the id of the record in the delete dialog.
     * Reading that id throws when the dialog holds no record, which the
     * `catch` reports like a failed call. Returns the id sent, if a call was made.
     */
    method HandleDelete(texts: Texts, result: CallResult) returns (sent: Option<Json>)
      modifies this
      ensures old(deleteRecord).None? || old(deleteRecord) == Some(JNull) ==>
        sent.None? && toasts == old(toasts) + [Toast(Error, texts.deleteFailed)]
        && deleteOpen == old(deleteOpen) && deleteRecord == old(deleteRecord) && reloads == old(reloads)
      ensures old(deleteRecord).Some? && old(deleteRecord) != Some(JNull) ==>
        sent == Some(Get(old(deleteRecord).value, "id").GetOr(JNull))
        && toasts == old(toasts) + [DeleteToast(texts, result)]
        && reloads == old(reloads) + (if CallOk(result) then 1 else 0)
        && (result.Returned? ==> !deleteOpen && deleteRecord.None?)
        && (result.CallThrew? ==> deleteOpen == old(deleteOpen) && deleteRecord == old(deleteRecord))
      ensures !actionLoading
      ensures editOpen == old(editOpen) && editRecord == old(editRecord)
    {
      actionLoading := true;
      if deleteRecord.None? || deleteRecord == Some(JNull) {
        sent := None;
        toasts := toasts + [Toast(Error, texts.deleteFailed)];
      } else {
        sent := Some(Get(deleteRecord.value, "id").GetOr(JNull));
        match result {
          case CallThrew =>
            toasts := toasts + [Toast(Error, texts.deleteFailed)];
          case Returned(e) =>
            if e.ok {
              toasts := toasts + [Toast(Success, texts.deleted)];
              reloads := reloads + 1;
            } else {
              toasts := toasts + [Toast(Error, ErrorText(e.error, texts.deleteFailed))];
            }
            deleteOpen, deleteRecord := false, None;
        }
      }
      actionLoading := false;
    }
  }

  // ----- Properties of the handlers -----

  /** A failed save or delete never asks for a reload: the list is refreshed only after a success. */
  lemma ReloadOnlyOnSuccess(texts: Texts, updating: bool, result: CallResult)
    ensures SaveToast(texts, updating, result).kind == Error <==> !CallOk(result)
    ensures DeleteToast(texts, result).kind == Error <==> !CallOk(result)
  {
  }

  /** The update input carries the edited record's id, and every other field exactly as the dialog gave it. */
  lemma UpdateInputCarriesId(id: string, data: seq<(string, Json)>, key: string)
    requires "id" !in Keys(data)
    ensures Lookup(WithId(JStr(id), data), "id") == Some(JStr(id))
    ensures key != "id" ==> Lookup(WithId(JStr(id), data), key) == Lookup(data, key)
  {
  }
}
