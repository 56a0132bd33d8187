/**
 * The effects the pages have besides their own state: toasts handed to
 * `addToast` and navigations handed to `navigate`. Both are recorded as
 * values; their display and the routing they trigger are outside the model.
 */
module PageEffects {
  import opened Wrappers
  import opened Json

  datatype ToastKind = Success | Error

  /** A toast: its kind and text. */
  datatype Toast = Toast(kind: ToastKind, message: string)

  /** A navigation: the target path and its search entries. */
  datatype Navigation = Navigation(to: string, search: seq<(string, Json)>)

  /** A search entry read as `(search.key as string) || ''`: a falsy or missing value becomes `''`, any other passes unchecked. */
  function OrEmpty(v: Option<Json>): (r: Json)
    ensures TruthyOpt(v) ==> r == v.value
    ensures !TruthyOpt(v) ==> r == JStr("")
    ensures Truthy(r) <==> TruthyOpt(v)
  {
    if TruthyOpt(v) then v.value else JStr("")
  }
}
