/**
 * The error-message normaliser of src/utils/error-utils.ts: the table of
 * messages by HTTP status code, the priority cascade over the shapes a thrown
 * value can take, and the decision over the `detail` field of a parsed error
 * body (database integrity errors, validation-error lists, plain strings).
 * `JSON.stringify` and `String(v)` of non-string values are parameters.
 */
/**
 * The table of user-facing messages by HTTP status code
 * (`getErrorMessageByStatus` in src/utils/error-utils.ts).
 */
module StatusMessages {

  const GenericError := "An unexpected error occurred. Please try again."

  /** The status codes that have a message of their own. */
  const KnownStatuses: set<int> := {400, 401, 403, 404, 409, 422, 429, 500, 502, 503, 504}
  const KnownStatusList: seq<int> := [400, 401, 403, 404, 409, 422, 429, 500, 502, 503, 504]

  /** `getErrorMessageByStatus`: the table entry for the code, or the generic text. */
  function MessageByStatus(code: int): (r: string)
    ensures r != ""
    ensures r == GenericError <==> code !in KnownStatuses
  {
    match code
    case 400 => "Bad request. Please check your input and try again."
    case 401 => "Authentication required. Please log in."
    case 403 => "You do not have permission to perform this action."
    case 404 => "The requested resource was not found."
    case 409 => "This request conflicts with existing data."
    case 422 => "Validation failed. Please check your input."
    case 429 => "Too many requests. Please try again later."
    case 500 => "Server error. Please try again later."
    case 502 => "Service temporarily unavailable. Please try again."
    case 503 => "Service unavailable. Please try again later."
    case 504 => "Request timeout. Please try again."
    case _ => GenericError
  }
}

/** The rest of the normaliser, built on the status table. */
module ErrorUtils {
  import opened Wrappers
  import opened Strings
  import opened Json
  import opened ConstraintPattern
  import opened StatusMessages

  /** The decimal text of a number, as JavaScript writes it when it becomes a property key. */
  function DecimalText(n: nat): (r: string)
    ensures |r| >= 1 && forall k :: 0 <= k < |r| ==> IsDigit(r[k])
    decreases n
  {
    var d := [(n % 10) as char + '0'];
    if n < 10 then d else DecimalText(n / 10) + d
  }

  /** The known code whose decimal text is `key`, if any: the table is read with a string key. */
  function CodeOfKey(key: string, codes: seq<int>): (r: Option<int>)
    requires forall k :: 0 <= k < |codes| ==> codes[k] >= 0
    ensures r.Some? ==> r.value in codes && DecimalText(r.value) == key
    ensures r.None? ==> forall k :: 0 <= k < |codes| ==> DecimalText(codes[k]) != key
    decreases |codes|
  {
    if codes == [] then None
    else if DecimalText(codes[0]) == key then Some(codes[0])
    else CodeOfKey(key, codes[1..])
  }

  /** `getErrorMessageByStatus(v)` for a status read out of a JSON value: a number is the code; anything else is turned into a key. */
  function MessageForStatusValue(v: Json, render: Json -> string): (r: string)
    ensures v.JNum? ==> r == MessageByStatus(v.n)
    ensures r != ""
  {
    if v.JNum? then MessageByStatus(v.n)
    else
      match CodeOfKey(StringOf(v, render), KnownStatusList)
      case Some(code) => MessageByStatus(code)
      case None => GenericError
  }

  /** A thrown value, as `getApiErrorMessage` tells them apart. */
  datatype Thrown =
    | FetchResponse(status: int)                                /* `instanceof Response` */
    | ErrorInstance(message: string, props: seq<(string, Json)>) /* `instanceof Error`, with its other own properties */
    | Plain(v: Json)                                            /* any other value; `undefined` behaves as `null` */

  /** The properties the `in` operator sees on a truthy object; arrays have none of the names asked for. */
  function Props(e: Thrown): Option<seq<(string, Json)>> {
    match e
    case FetchResponse(_) => None
    case ErrorInstance(_, props) => Some(props)
    case Plain(v) => if v.JObj? then Some(v.fields) else if v.JArr? then Some([]) else None
  }

  /** `key in error` guarded by `error && typeof error === 'object'`, and the value found. */
  function Prop(e: Thrown, key: string): Option<Json> {
    match Props(e)
    case None => None
    case Some(fields) => Lookup(fields, key)
  }

  /** `response?.data?.detail` when the error has a `response` and that detail is truthy. */
  function ResponseDetail(e: Thrown): Option<Json> {
    match Prop(e, "response")
    case None => None
    case Some(response) =>
      match Get(response, "data")
      case None => None
      case Some(data) =>
        var d := Get(data, "detail");
        if TruthyOpt(d) then d else None
  }

  /** `response?.status` when the error has a `response` and that status is truthy. */
  function ResponseStatus(e: Thrown): Option<Json> {
    match Prop(e, "response")
    case None => None
    case Some(response) =>
      var s := Get(response, "status");
      if TruthyOpt(s) then s else None
  }

  /**
   * `getApiErrorMessage`. The result is a JSON value because the branch for
   * `response.data.detail` hands back that value as it is, whatever its type.
   */
  function ApiErrorMessage(e: Thrown, render: Json -> string): (r: Json)
    ensures e.FetchResponse? ==> r == JStr(MessageByStatus(e.status))
    ensures !e.FetchResponse? && ResponseDetail(e).Some? ==> r == ResponseDetail(e).value
    ensures !r.JStr? ==> !e.FetchResponse? && ResponseDetail(e) == Some(r)
    ensures ResponseDetail(e).None? && ResponseStatus(e).Some? ==>
      r == JStr(MessageForStatusValue(ResponseStatus(e).value, render))
    ensures ResponseDetail(e).None? && ResponseStatus(e).None? && Prop(e, "detail").Some? ==>
      r == JStr(StringOf(Prop(e, "detail").value, render))
    ensures Prop(e, "response").None? && Prop(e, "detail").None? && e.ErrorInstance? ==>
      r == JStr(if e.message != "" then e.message else GenericError)
    ensures Prop(e, "response").None? && Prop(e, "detail").None? && e.Plain? ==> r == JStr(GenericError)
  {
    if e.FetchResponse? then JStr(MessageByStatus(e.status))
    else if ResponseDetail(e).Some? then ResponseDetail(e).value
    else if ResponseStatus(e).Some? then JStr(MessageForStatusValue(ResponseStatus(e).value, render))
    else if Prop(e, "detail").Some? then JStr(StringOf(Prop(e, "detail").value, render))
    else if e.ErrorInstance? then JStr(if e.message != "" then e.message else GenericError)
    else JStr(GenericError)
  }

  /** A thrown string, number, boolean or `null` always gives the generic text. */
  lemma PrimitiveGivesGeneric(v: Json, render: Json -> string)
    requires !v.JObj? && !v.JArr?
    ensures ApiErrorMessage(Plain(v), render) == JStr(GenericError)
  {
  }

  /** An `Error` whose `response` carries nothing usable still reports its own message, and never empty text. */
  lemma ErrorMessageNeverEmpty(message: string, props: seq<(string, Json)>, render: Json -> string)
    requires "detail" !in Keys(props)
    requires ResponseDetail(ErrorInstance(message, props)).None?
    requires ResponseStatus(ErrorInstance(message, props)).None?
    ensures var r := ApiErrorMessage(ErrorInstance(message, props), render);
      r.JStr? && r.s != "" && (message != "" ==> r.s == message)
  {
  }

  // ----- parseErrorFromResponse -----

  /** The outcome of code that may raise a `TypeError` (a property read on `null`, a missing method). */
  datatype Eval<T> = Done(value: T) | TypeError

  const DuplicateMarker := "duplicate key value"
  const ForeignKeyMarker := "foreign key constraint"
  const ItemExists := "This item already exists. Please use a different value."
  const BrokenRelation := "This operation cannot be completed because it would break data relationships."
  const IntegrityConflict := "This operation conflicts with existing data. Please check your input."

  /** The message naming the field whose unique constraint was violated. */
  function FieldTaken(field: string): string {
    "A " + field + " with this value already exists. Please use a different " + field + "."
  }

  /** `err.type === 'IntegrityError'` for an entry that is not `null`. */
  predicate IsIntegrity(item: Json) {
    Get(item, "type") == Some(JStr("IntegrityError"))
  }

  /** `detail.find(err => err.type === 'IntegrityError')`: the index found, or a `TypeError` on a `null` entry met first. */
  function FindIntegrity(items: seq<Json>): (r: Eval<Option<nat>>)
    ensures r.Done? && r.value.Some? ==>
      r.value.value < |items| && IsIntegrity(items[r.value.value])
      && forall k :: 0 <= k < r.value.value ==> items[k] != JNull && !IsIntegrity(items[k])
    ensures r.Done? && r.value.None? ==> forall k :: 0 <= k < |items| ==> items[k] != JNull && !IsIntegrity(items[k])
    ensures r.TypeError? ==> exists k :: 0 <= k < |items| && items[k] == JNull && forall j :: 0 <= j < k ==> !IsIntegrity(items[j])
    decreases |items|
  {
    if items == [] then Done(None)
    else if items[0] == JNull then TypeError
    else if IsIntegrity(items[0]) then Done(Some(0))
    else
      match FindIntegrity(items[1..])
      case TypeError =>
        ShiftWitness(items);
        TypeError
      case Done(None) => Done(None)
      case Done(Some(k)) => Done(Some(k + 1))
  }

  lemma ShiftWitness(items: seq<Json>)
    requires items != [] && !IsIntegrity(items[0])
    requires exists k :: 0 <= k < |items[1..]| && items[1..][k] == JNull && forall j :: 0 <= j < k ==> !IsIntegrity(items[1..][j])
    ensures exists k :: 0 <= k < |items| && items[k] == JNull && forall j :: 0 <= j < k ==> !IsIntegrity(items[j])
  {
    var k :| 0 <= k < |items[1..]| && items[1..][k] == JNull && forall j :: 0 <= j < k ==> !IsIntegrity(items[1..][j]);
    assert items[k + 1] == JNull;
    forall j | 0 <= j < k + 1
      ensures !IsIntegrity(items[j])
    {
      if j > 0 {
        assert items[j] == items[1..][j - 1];
      }
    }
  }

  /** `msg.includes(needle)`: substring test on a string, element test on an array, a `TypeError` on anything else. */
  function Includes(msg: Json, needle: string): (r: Eval<bool>)
    ensures r.TypeError? <==> !msg.JStr? && !msg.JArr?
    ensures msg.JStr? ==> r == Done(Contains(msg.s, needle))
  {
    match msg
    case JStr(s) => Done(Contains(s, needle))
    case JArr(xs) => Done(JStr(needle) in xs)
    case _ => TypeError
  }

  /** The message for the first integrity error: duplicate key, then foreign key, then the generic conflict. */
  function IntegrityMessage(item: Json): (r: Eval<string>)
    ensures r.Done? ==> (r.value in {ItemExists, BrokenRelation, IntegrityConflict}
      || exists f :: r.value == FieldTaken(f))
    ensures !TruthyOpt(Get(item, "msg")) ==> r == Done(IntegrityConflict)
    ensures r.TypeError? <==> (TruthyOpt(Get(item, "msg")) && !Get(item, "msg").value.JStr?
                               && (!Get(item, "msg").value.JArr? || JStr(DuplicateMarker) in Get(item, "msg").value.items))
  {
    var m := Get(item, "msg");
    var msg := if TruthyOpt(m) then m.value else JStr("");
    match Includes(msg, DuplicateMarker)
    case TypeError => TypeError
    case Done(true) =>
      if !msg.JStr? then TypeError
      else
        (match ConstraintField(msg.s)
         case Some(f) => Done(FieldTaken(f))
         case None => Done(ItemExists))
    case Done(false) =>
      if Includes(msg, ForeignKeyMarker) == Done(true) then Done(BrokenRelation) else Done(IntegrityConflict)
  }

  /** `err.msg || err.message` for an entry that is not `null`. */
  function ItemMessage(item: Json): Option<Json> {
    var m := Get(item, "msg");
    if TruthyOpt(m) then m else Get(item, "message")
  }

  /** `detail.map(err => err.msg || err.message).filter(Boolean)`. */
  function ValidationMessages(items: seq<Json>): (r: seq<Json>)
    ensures |r| <= |items|
    ensures forall k :: 0 <= k < |r| ==> Truthy(r[k])
    decreases |items|
  {
    if items == [] then []
    else
      var m := ItemMessage(items[0]);
      (if TruthyOpt(m) then [m.value] else []) + ValidationMessages(items[1..])
  }

  /** The messages of a concatenation are the messages of its two parts, in order. */
  lemma {:induction false} ValidationMessagesAppend(a: seq<Json>, b: seq<Json>)
    ensures ValidationMessages(a + b) == ValidationMessages(a) + ValidationMessages(b)
    decreases |a|
  {
    if a != [] {
      assert (a + b)[0] == a[0];
      assert (a + b)[1..] == a[1..] + b;
      ValidationMessagesAppend(a[1..], b);
    } else {
      assert a + b == b;
    }
  }

  /** One entry contributes its `msg || message` when that is truthy, and nothing otherwise. */
  lemma ValidationMessagesOne(item: Json)
    ensures ValidationMessages([item]) == (if TruthyOpt(ItemMessage(item)) then [ItemMessage(item).value] else [])
  {
    assert [item][1..] == [];
  }

  /** A value is listed exactly when it is the truthy `msg || message` of some entry. */
  lemma {:induction false} ValidationMessagesMembers(items: seq<Json>, m: Json)
    ensures m in ValidationMessages(items) <==> Truthy(m) && exists k :: 0 <= k < |items| && ItemMessage(items[k]) == Some(m)
    decreases |items|
  {
    if items != [] {
      ValidationMessagesMembers(items[1..], m);
      if Truthy(m) && ItemMessage(items[0]) != Some(m) {
        if exists k :: 0 <= k < |items| && ItemMessage(items[k]) == Some(m) {
          var k :| 0 <= k < |items| && ItemMessage(items[k]) == Some(m);
          assert k > 0 && items[1..][k - 1] == items[k];
        }
      }
    }
  }

  /** `Array.prototype.join` turns each element into text as `String` does. */
  function Texts(vs: seq<Json>, render: Json -> string): (r: seq<string>)
    ensures |r| == |vs|
    ensures forall k :: 0 <= k < |vs| ==> r[k] == StringOf(vs[k], render)
    decreases |vs|
  {
    if vs == [] then [] else [StringOf(vs[0], render)] + Texts(vs[1..], render)
  }

  /** What the `try` block returns for a truthy `detail`, or the `TypeError` it raises. */
  function DetailMessage(detail: Json, stringify: Json -> string, render: Json -> string): Eval<string> {
    if detail.JArr? then
      match FindIntegrity(detail.items)
      case TypeError => TypeError
      case Done(Some(k)) => IntegrityMessage(detail.items[k])
      case Done(None) =>
        var ms := ValidationMessages(detail.items);
        if |ms| > 0 then Done(Join(Texts(ms, render), ". ")) else Done(stringify(detail))
    else if detail.JStr? then Done(detail.s)
    else Done(stringify(detail))
  }

  /**
   * `parseErrorFromResponse` for a response with status `status` whose body
   * parsed to `body` (`None`: `response.json()` rejected). Every path that does
   * not return from the `try` block ends in the status message.
   */
  function ParseErrorFromResponse(status: int, body: Option<Json>, stringify: Json -> string,
                                  render: Json -> string): (r: string)
    ensures body.None? || body == Some(JNull) ==> r == MessageByStatus(status)
    ensures body.Some? && !TruthyOpt(Get(body.value, "detail")) ==> r == MessageByStatus(status)
    ensures body.Some? && Get(body.value, "detail") == Some(JStr(r)) ==> r != ""
    ensures forall s :: s != "" && body.Some? && Get(body.value, "detail") == Some(JStr(s)) ==> r == s
  {
    var fallback := MessageByStatus(status);
    match body
    case None => fallback
    case Some(data) =>
      if data.JNull? then fallback
      else
        var d := Get(data, "detail");
        if !TruthyOpt(d) then fallback
        else
          match DetailMessage(d.value, stringify, render)
          case Done(s) => s
          case TypeError => fallback
  }

  /** A body `{ detail: detail }`. */
  function DetailBody(detail: Json): Json {
    JObj([("detail", detail)])
  }

  /** Entries after the first integrity error are never looked at. */
  lemma OnlyFirstIntegrityCounts(items: seq<Json>, k: nat, stringify: Json -> string, render: Json -> string)
    requires FindIntegrity(items) == Done(Some(k))
    ensures FindIntegrity(items[..k + 1]) == Done(Some(k))
    ensures DetailMessage(JArr(items), stringify, render) == DetailMessage(JArr(items[..k + 1]), stringify, render)
  {
    FindIntegrityPrefix(items, k);
  }

  lemma {:induction false} FindIntegrityPrefix(items: seq<Json>, k: nat)
    requires FindIntegrity(items) == Done(Some(k))
    ensures FindIntegrity(items[..k + 1]) == Done(Some(k))
    decreases |items|
  {
    if k > 0 {
      assert items[..k + 1][1..] == items[1..][..k];
      FindIntegrityPrefix(items[1..], k - 1);
    }
  }

  /**
   * A duplicate-key message is reported as a duplicate, whatever else it
   * mentions: the captured field when the constraint pattern matches, else
   * the generic "already exists" text.
   */
  lemma DuplicateBeforeForeignKey(item: Json, s: string)
    requires Get(item, "msg") == Some(JStr(s))
    requires Contains(s, DuplicateMarker)
    ensures ConstraintField(s).Some? ==> IntegrityMessage(item) == Done(FieldTaken(ConstraintField(s).value))
    ensures ConstraintField(s).None? ==> IntegrityMessage(item) == Done(ItemExists)
  {
  }

  /** A duplicate-key message whose constraint name does not match gives the "already exists" text. */
  lemma DuplicateWithoutConstraint(item: Json, s: string)
    requires Get(item, "msg") == Some(JStr(s))
    requires Contains(s, DuplicateMarker) && ConstraintField(s).None?
    ensures IntegrityMessage(item) == Done(ItemExists)
  {
  }

  /** A message with neither marker gives the generic conflict text. */
  lemma NeitherMarkerConflicts(item: Json, s: string)
    requires Get(item, "msg") == Some(JStr(s))
    requires !Contains(s, DuplicateMarker) && !Contains(s, ForeignKeyMarker)
    ensures IntegrityMessage(item) == Done(IntegrityConflict)
  {
  }

  /** A foreign-key message without a duplicate key gives the data-relationships text. */
  lemma ForeignKeyMessage(item: Json, s: string)
    requires Get(item, "msg") == Some(JStr(s))
    requires !Contains(s, DuplicateMarker) && Contains(s, ForeignKeyMarker)
    ensures IntegrityMessage(item) == Done(BrokenRelation)
  {
  }

  /** An array with no integrity error and no `null` entry gives its messages joined with `. `, or its JSON text when it has none. */
  lemma ValidationList(status: int, items: seq<Json>, stringify: Json -> string, render: Json -> string)
    requires forall k :: 0 <= k < |items| ==> items[k] != JNull && !IsIntegrity(items[k])
    ensures var r := ParseErrorFromResponse(status, Some(DetailBody(JArr(items))), stringify, render);
      var ms := ValidationMessages(items);
      && (|ms| > 0 ==> r == Join(Texts(ms, render), ". "))
      && (|ms| == 0 ==> r == stringify(JArr(items)))
  {
    NoIntegrityFound(items);
  }

  lemma {:induction false} NoIntegrityFound(items: seq<Json>)
    requires forall k :: 0 <= k < |items| ==> items[k] != JNull && !IsIntegrity(items[k])
    ensures FindIntegrity(items) == Done(None)
    decreases |items|
  {
    if items != [] {
      NoIntegrityFound(items[1..]);
    }
  }

  /** A `null` entry met before any integrity error makes the search throw, and the status message is used. */
  lemma NullEntryFallsBack(status: int, items: seq<Json>, k: nat, stringify: Json -> string, render: Json -> string)
    requires k < |items| && items[k] == JNull
    requires forall j :: 0 <= j < k ==> items[j] != JNull && !IsIntegrity(items[j])
    ensures ParseErrorFromResponse(status, Some(DetailBody(JArr(items))), stringify, render) == MessageByStatus(status)
  {
    NullEntryThrows(items, k);
  }

  lemma {:induction false} NullEntryThrows(items: seq<Json>, k: nat)
    requires k < |items| && items[k] == JNull
    requires forall j :: 0 <= j < k ==> items[j] != JNull && !IsIntegrity(items[j])
    ensures FindIntegrity(items) == TypeError
    decreases k
  {
    if k > 0 {
      NullEntryThrows(items[1..], k - 1);
    }
  }

  /** A duplicate-key message whose constraint name matches reports the captured field. */
  lemma DuplicateFieldMessage(item: Json, s: string, f: string)
    requires Get(item, "msg") == Some(JStr(s))
    requires Contains(s, DuplicateMarker) && ConstraintField(s) == Some(f)
    ensures IntegrityMessage(item) == Done(FieldTaken(f))
  {
  }

  /** A detail list whose first entry is an integrity error is decided by that entry alone. */
  lemma FirstEntryIntegrity(status: int, items: seq<Json>, stringify: Json -> string, render: Json -> string)
    requires items != [] && IsIntegrity(items[0])
    ensures IntegrityMessage(items[0]).Done? ==>
      ParseErrorFromResponse(status, Some(DetailBody(JArr(items))), stringify, render) == IntegrityMessage(items[0]).value
    ensures IntegrityMessage(items[0]).TypeError? ==>
      ParseErrorFromResponse(status, Some(DetailBody(JArr(items))), stringify, render) == MessageByStatus(status)
  {
    assert items[0] != JNull;
    assert FindIntegrity(items) == Done(Some(0));
  }

  /** A detail list is decided by its first integrity entry, wherever it stands. */
  lemma IntegrityAt(status: int, items: seq<Json>, k: nat, stringify: Json -> string, render: Json -> string)
    requires FindIntegrity(items) == Done(Some(k))
    ensures IntegrityMessage(items[k]).Done? ==>
      ParseErrorFromResponse(status, Some(DetailBody(JArr(items))), stringify, render) == IntegrityMessage(items[k]).value
    ensures IntegrityMessage(items[k]).TypeError? ==>
      ParseErrorFromResponse(status, Some(DetailBody(JArr(items))), stringify, render) == MessageByStatus(status)
  {
    DetailOfIntegrity(items, k, stringify, render);
    ParseOfDetailList(status, items, stringify, render);
  }

  /** When the search finds an integrity entry, the `try` block returns that entry's message (or throws as it does). */
  lemma DetailOfIntegrity(items: seq<Json>, k: nat, stringify: Json -> string, render: Json -> string)
    requires k < |items| && FindIntegrity(items) == Done(Some(k))
    ensures DetailMessage(JArr(items), stringify, render) == IntegrityMessage(items[k])
  {
  }

  /** A list `detail` gives the message of the `try` block, or the status message when that block throws. */
  lemma ParseOfDetailList(status: int, items: seq<Json>, stringify: Json -> string, render: Json -> string)
    ensures var d := DetailMessage(JArr(items), stringify, render);
      ParseErrorFromResponse(status, Some(DetailBody(JArr(items))), stringify, render)
        == (if d.Done? then d.value else MessageByStatus(status))
  {
    assert Get(DetailBody(JArr(items)), "detail") == Some(JArr(items));
  }

  /** A truthy `detail` that is neither a list nor a string is reported as its `JSON.stringify`. */
  lemma ObjectDetail(status: int, detail: Json, stringify: Json -> string, render: Json -> string)
    requires Truthy(detail) && !detail.JArr? && !detail.JStr?
    ensures ParseErrorFromResponse(status, Some(DetailBody(detail)), stringify, render) == stringify(detail)
  {
  }

  /** The unique-violation error of the blog category table names the `title` field. */
  lemma DuplicateTitleMessage(status: int, stringify: Json -> string, render: Json -> string)
    ensures var item := JObj([("type", JStr("IntegrityError")), ("msg", JStr(BlogCategoryDuplicate))]);
      ParseErrorFromResponse(status, Some(DetailBody(JArr([item]))), stringify, render) == FieldTaken("title")
  {
    var item := JObj([("type", JStr("IntegrityError")), ("msg", JStr(BlogCategoryDuplicate))]);
    BlogCategoryTitle();
    assert StartsWith(BlogCategoryDuplicate, DuplicateMarker) by {
      assert BlogCategoryDuplicate[..19] == ExampleLead[..19] == DuplicateMarker;
    }
    assert "type" != "msg";
    assert Lookup(item.fields[1..], "msg") == Some(JStr(BlogCategoryDuplicate));
    DuplicateFieldMessage(item, BlogCategoryDuplicate, "title");
    FirstEntryIntegrity(status, [item], stringify, render);
  }

}
