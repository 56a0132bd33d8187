/**
 * The route guards of src/utils/auth-guard.ts. The user lookup (`getUserFn`)
 * is an input: it either throws or returns some value. A thrown `redirect`
 * is the `Redirect` outcome of a guard.
 */
module AuthGuard {
  import opened Wrappers
  import opened Json

  const LoginPath := "/auth/login"
  const DashboardPath := "/dashboard"

  /** What `await getUserFn()` does: throws, or returns a value (`None` is `undefined`). */
  datatype UserLookup = LookupThrew | LookupReturned(userData: Option<Json>)

  /** How a guard ends: it returns a value, or a `redirect` is thrown out of it. */
  datatype Guard<T> = Proceed(value: T) | Redirect(to: string)

  /** `v?.[0]`: the first element of an array, the first character of a string, property `0` of an object. */
  function Index0(v: Json): (r: Option<Json>)
    ensures v.JArr? ==> r == (if v.items == [] then None else Some(v.items[0]))
  {
    match v
    case JArr(items) => if items == [] then None else Some(items[0])
    case JStr(s) => if s == "" then None else Some(JStr([s[0]]))
    case JObj(fields) => Lookup(fields, "0")
    case _ => None
  }

  /** `userData?.results?.[0]`. */
  function FirstUser(userData: Option<Json>): Option<Json> {
    if userData.None? then None
    else
      var results := Get(userData.value, "results");
      if results.Some? then Index0(results.value) else None
  }

  /** The lookup returned a truthy first user. */
  predicate SignedIn(lookup: UserLookup) {
    lookup.LookupReturned? && TruthyOpt(FirstUser(lookup.userData))
  }

  /**
   * `requireAuth`: the first user when there is one; otherwise, and whenever
   * the lookup throws, a redirect to the login page. The redirect thrown
   * inside the `try` is caught and replaced by the same redirect.
   */
  function RequireAuth(lookup: UserLookup): (r: Guard<Json>)
    ensures r.Proceed? <==> SignedIn(lookup)
    ensures r.Proceed? ==> FirstUser(lookup.userData) == Some(r.value)
    ensures r.Redirect? ==> r.to == LoginPath
  {
    match lookup
    case LookupThrew => Redirect(LoginPath)
    case LookupReturned(userData) =>
      var first := FirstUser(userData);
      if !TruthyOpt(first) then Redirect(LoginPath) else Proceed(first.value)
  }

  /** How the `try` block of `requireGuest` ends: normally, or with something thrown. */
  datatype Attempt = Completed | Thrown(redirectTo: Option<string>)

  /**
   * `requireGuest`: the `try` throws a redirect to the dashboard for a
   * signed-in user, and its own `catch` swallows whatever was thrown, that
   * redirect included, so the guard always lets the visitor through.
   */
  function RequireGuest(lookup: UserLookup): (r: Guard<()>)
    ensures r == Proceed(())
  {
    var attempt :=
      if lookup.LookupThrew? then Thrown(None)
      else if TruthyOpt(FirstUser(lookup.userData)) then Thrown(Some(DashboardPath))
      else Completed;
    match attempt
    case Completed => Proceed(())
    case Thrown(_) => Proceed(())
  }

  /** `requireGuestWithFlow`: runs the guest guard and hands back `search` as it is. */
  function RequireGuestWithFlow(lookup: UserLookup, search: Json): (r: Guard<Json>)
    ensures r == Proceed(search)
  {
    match RequireGuest(lookup)
    case Proceed(_) => Proceed(search)
    case Redirect(to) => Redirect(to)
  }

  /**
   * The guest guard as its redirect evidently means it to behave: the `catch`
   * absorbs only a failed lookup and lets the dashboard redirect through.
   */
  function RequireGuestRethrowing(lookup: UserLookup): (r: Guard<()>)
    ensures r.Redirect? <==> SignedIn(lookup)
    ensures r.Redirect? ==> r.to == DashboardPath
  {
    var attempt :=
      if lookup.LookupThrew? then Thrown(None)
      else if TruthyOpt(FirstUser(lookup.userData)) then Thrown(Some(DashboardPath))
      else Completed;
    match attempt
    case Completed => Proceed(())
    case Thrown(None) => Proceed(())
    case Thrown(Some(to)) => Redirect(to)
  }

  // ----- Properties -----

  /** A signed-in user passes both guards, so the guest-only pages stay reachable after sign-in. */
  lemma SignedInPassesBoth(lookup: UserLookup)
    requires SignedIn(lookup)
    ensures RequireAuth(lookup).Proceed? && RequireGuest(lookup).Proceed?
  {
  }

  /** A lookup whose `results` is an empty list, or that has no `results`, sends the visitor to the login page. */
  lemma NoResultsRedirects(userData: Json)
    requires Get(userData, "results") == Some(JArr([])) || Get(userData, "results").None?
    ensures RequireAuth(LookupReturned(Some(userData))) == Redirect(LoginPath)
  {
  }

  /** A lookup that finds a user: the guest guard as written lets that user through, where the rethrowing guard sends them to the dashboard. */
  lemma GuestGuardIgnoresSignIn()
    ensures var lookup := LookupReturned(Some(JObj([("results", JArr([JObj([("id", JStr("u1"))])]))])));
      SignedIn(lookup) && RequireGuest(lookup) == Proceed(()) && RequireGuestRethrowing(lookup) == Redirect(DashboardPath)
  {
    var user := JObj([("id", JStr("u1"))]);
    var data := JObj([("results", JArr([user]))]);
    assert Get(data, "results") == Some(JArr([user]));
    assert FirstUser(Some(data)) == Some(user);
  }
}
