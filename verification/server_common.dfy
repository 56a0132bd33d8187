/**
 * What the resource handlers of src/server/blogs.ts, faqs.ts and
 * categories.ts share: the sanitised create and update bodies (an update
 * drops the record's `id` with `const { id, ...updateData } = data`), the
 * time-stamped read parameters, and request paths of the form prefix, id,
 * suffix. Each handler passes its request to `apiCall` and returns the
 * envelope unchanged, so the handlers are modelled by the request they
 * build; the envelope is `Proxy.Respond`.
 */
module ServerCommon {
  import opened Wrappers
  import opened Json
  import opened Sanitization
  import opened Proxy

  /** A record whose `id` is a string, as every update input is typed. */
  predicate HasId(data: seq<(string, Json)>) {
    Lookup(data, "id").Some? && Lookup(data, "id").value.JStr?
  }

  function IdOf(data: seq<(string, Json)>): string
    requires HasId(data)
  {
    Lookup(data, "id").value.s
  }

  /** What the sanitised object holds under `key`: the input's value there, sanitised. */
  function SanitizedAt(data: seq<(string, Json)>, key: string): Option<Json> {
    if Lookup(data, key).Some? then Some(SanitizeValue(Lookup(data, key).value)) else None
  }

  /** `sanitizeFormData(data)` as a create body: every field of the input, sanitised, and no other. */
  function CreateBody(data: seq<(string, Json)>): (r: Json)
    ensures r.JObj? && Keys(r.fields) == Keys(data)
    ensures forall k :: Get(r, k) == SanitizedAt(data, k)
  {
    SanitizeKeys(data);
    assert forall k :: Lookup(SanitizeFields(data), k) == SanitizedAt(data, k) by {
      forall k ensures Lookup(SanitizeFields(data), k) == SanitizedAt(data, k) {
        LookupSanitized(data, k);
      }
    }
    JObj(SanitizeFields(data))
  }

  /** `sanitizeFormData(updateData)` as an update body: no `id`, and every other field of the input, sanitised. */
  function UpdateBody(data: seq<(string, Json)>): (r: Json)
    ensures r.JObj? && "id" !in Keys(r.fields)
    ensures forall k :: k in Keys(r.fields) <==> k in Keys(data) && k != "id"
    ensures forall k :: k != "id" ==> Get(r, k) == SanitizedAt(data, k)
  {
    var rest := RemoveField(data, "id");
    SanitizeKeys(rest);
    assert forall k :: k != "id" ==> Lookup(SanitizeFields(rest), k) == SanitizedAt(data, k) by {
      forall k | k != "id" ensures Lookup(SanitizeFields(rest), k) == SanitizedAt(data, k) {
        LookupSanitized(rest, k);
      }
    }
    JObj(SanitizeFields(rest))
  }

  /** `{ ...params, _t: Date.now() }`: the caller's parameters with the time stamp set. */
  function Stamped(params: seq<Param>, now: int): (r: seq<Param>)
    ensures Lookup(r, "_t") == Some(Some(JNum(now)))
    ensures forall k :: k != "_t" ==> Lookup(r, k) == Lookup(params, k)
  {
    SetField(params, "_t", Some(JNum(now)))
  }

  /** The id a request path names, read back from a template `prefix` + id + `suffix`. */
  function PathId(url: string, prefix: string, suffix: string): (r: Option<string>)
    ensures r.Some? ==> url == prefix + r.value + suffix
    ensures r.None? ==> forall id :: url != prefix + id + suffix
  {
    if |url| >= |prefix| + |suffix| && url[..|prefix|] == prefix && url[|url| - |suffix|..] == suffix then
      var id := url[|prefix|..|url| - |suffix|];
      assert url == prefix + id + suffix;
      Some(id)
    else
      assert forall id :: url != prefix + id + suffix by {
        forall id ensures url != prefix + id + suffix {
          var u := prefix + id + suffix;
          assert u[..|prefix|] == prefix;
          assert u[|u| - |suffix|..] == suffix;
        }
      }
      None
  }

  /** A templated path names exactly the id it was built from. */
  lemma PathIdOfTemplate(prefix: string, id: string, suffix: string)
    ensures PathId(prefix + id + suffix, prefix, suffix) == Some(id)
  {
    var u := prefix + id + suffix;
    assert u[..|prefix|] == prefix;
    assert u[|u| - |suffix|..] == suffix;
    assert u[|prefix|..|u| - |suffix|] == id;
  }

  /** A request addressing record `id` at `prefix` + id + `suffix`, with neither body nor parameters. */
  function Addressed(prefix: string, id: string, suffix: string, httpMethod: string): (r: ApiRequest)
    ensures PathId(r.url, prefix, suffix) == Some(id)
    ensures r.httpMethod == httpMethod && r.body.None? && r.params.None?
  {
    PathIdOfTemplate(prefix, id, suffix);
    ApiRequest(prefix + id + suffix, httpMethod, None, None)
  }

  /** Distinct records are addressed by distinct paths. */
  lemma AddressedInjective(prefix: string, suffix: string, httpMethod: string, a: string, b: string)
    requires a != b
    ensures Addressed(prefix, a, suffix, httpMethod) != Addressed(prefix, b, suffix, httpMethod)
  {
  }
}
